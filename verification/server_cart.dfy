/** The request shapes of `schemas/cart.py`: a quantity must be positive. */
module CartSchemas {
  datatype CartItemCreate = CartItemCreate(productId: int, quantity: int)

  datatype CartItemUpdate = CartItemUpdate(quantity: int)

  /** `Field(..., gt=0)` on `quantity`. */
  function ValidateQuantity(quantity: int): (failed: seq<string>)
    ensures failed == [] <==> quantity > 0
  {
    if quantity > 0 then [] else ["quantity"]
  }
}

/** The endpoints of `api/routes/cart.py`: the server-side cart of the
    current active user, one table of rows shared by all users. */
module CartRoutes {
  import opened Wrappers
  import opened Http
  import opened Models
  import Seqs
  import Text
  import CartSchemas
  import Dependencies

  /** `CartResponse`. */
  datatype CartView = CartView(items: seq<CartItem>, subtotal: real, totalItems: int)

  function RowValue(row: CartItem): real { row.price * row.quantity as real }

  /** `sum(item.price * item.quantity for item in cart_items)`. */
  function RowsSubtotal(rows: seq<CartItem>): real {
    if |rows| == 0 then 0.0 else RowValue(rows[0]) + RowsSubtotal(rows[1..])
  }

  /** `sum(item.quantity for item in cart_items)`. */
  function RowsQuantity(rows: seq<CartItem>): (n: int)
    ensures (forall i :: 0 <= i < |rows| ==> rows[i].quantity > 0) ==> n >= |rows|
  {
    if |rows| == 0 then 0
    else
      assert (forall i :: 0 <= i < |rows| ==> rows[i].quantity > 0) ==>
        forall i :: 0 <= i < |rows| - 1 ==> rows[1..][i].quantity > 0;
      rows[0].quantity + RowsQuantity(rows[1..])
  }

  /** Rows of non-negative price and quantity have a non-negative subtotal. */
  lemma {:induction false} RowsSubtotalNonNegative(rows: seq<CartItem>)
    requires forall i :: 0 <= i < |rows| ==> rows[i].price >= 0.0 && rows[i].quantity >= 0
    ensures RowsSubtotal(rows) >= 0.0
  {
    if |rows| > 0 {
      assert rows[0].price * rows[0].quantity as real >= 0.0;
      assert forall i :: 0 <= i < |rows[1..]| ==> rows[1..][i] == rows[i + 1];
      RowsSubtotalNonNegative(rows[1..]);
    }
  }

  lemma {:induction false} RowsSumsAppend(a: seq<CartItem>, b: seq<CartItem>)
    ensures RowsQuantity(a + b) == RowsQuantity(a) + RowsQuantity(b)
    ensures RowsSubtotal(a + b) == RowsSubtotal(a) + RowsSubtotal(b)
  {
    if |a| == 0 {
      assert a + b == b;
    } else {
      assert (a + b)[1..] == a[1..] + b;
      RowsSumsAppend(a[1..], b);
    }
  }

  /** `GET /cart/`: the current active user's rows in table order, the sum
      of price times quantity over them and the sum of their quantities. */
  function GetCart(db: Db, subject: Option<string>): (r: Result<CartView>)
    ensures r.Ok? <==> Dependencies.GetCurrentActiveUser(db, subject).Ok?
    ensures r.Ok? ==>
      var uid := Dependencies.GetCurrentActiveUser(db, subject).value.id;
      && (forall row :: row in r.value.items <==> row in db.cartItems && row.userId == uid)
      && r.value.items == Seqs.Filter(db.cartItems, (c: CartItem) => c.userId == uid)
      && r.value.totalItems == RowsQuantity(Seqs.Filter(db.cartItems, (c: CartItem) => c.userId == uid))
      && r.value.subtotal == RowsSubtotal(Seqs.Filter(db.cartItems, (c: CartItem) => c.userId == uid))
  {
    match Dependencies.GetCurrentActiveUser(db, subject)
    case Err(s, d) => Err(s, d)
    case Ok(user) =>
      var rows := UserRows(db, user.id);
      Ok(CartView(rows, RowsSubtotal(rows), RowsQuantity(rows)))
  }

  /** The user's row for a product, as the merge lookup finds it. */
  function ExistingIndex(rows: seq<CartItem>, userId: int, productId: int): (r: Option<nat>)
    ensures r.None? <==> forall i :: 0 <= i < |rows| ==> !(rows[i].userId == userId && rows[i].productId == productId)
    ensures r.Some? ==> r.value < |rows| && rows[r.value].userId == userId && rows[r.value].productId == productId
  {
    Seqs.FindIndex(rows, (c: CartItem) => c.userId == userId && c.productId == productId)
  }

  /** The row with that id, provided it belongs to the user. */
  function OwnedIndex(rows: seq<CartItem>, userId: int, itemId: int): (r: Option<nat>)
    ensures r.None? <==> forall i :: 0 <= i < |rows| ==> !(rows[i].id == itemId && rows[i].userId == userId)
    ensures r.Some? ==> r.value < |rows| && rows[r.value].id == itemId && rows[r.value].userId == userId
  {
    Seqs.FindIndex(rows, (c: CartItem) => c.id == itemId && c.userId == userId)
  }

  function InsufficientStock(stock: int): string {
    "Stock insuficiente. Solo hay " + Text.IntToString(stock) + " unidades disponibles"
  }

  /** `POST /cart/`: 422 for a quantity that is not positive, 404 for an
      unknown product, 400 when the product's stock is below the requested
      quantity. A product already in the user's cart has its row's quantity
      raised, keeping the price recorded when the row was made; otherwise a
      new row records the product's current price. */
  function AddToCart(db: Db, subject: Option<string>, req: CartSchemas.CartItemCreate)
    : (r: Result<(Db, CartItem)>)
    ensures Dependencies.GetCurrentActiveUser(db, subject).Err? ==>
      r.Err? && r.status == Dependencies.GetCurrentActiveUser(db, subject).status
    ensures Dependencies.GetCurrentActiveUser(db, subject).Ok? && req.quantity <= 0 ==>
      r.Err? && r.status == Unprocessable
    ensures (Dependencies.GetCurrentActiveUser(db, subject).Ok? && req.quantity > 0
             && FindProduct(db, req.productId).None?) ==> r.Err? && r.status == NotFound
    ensures (Dependencies.GetCurrentActiveUser(db, subject).Ok? && req.quantity > 0
             && FindProduct(db, req.productId).Some?
             && FindProduct(db, req.productId).value.stock < req.quantity) ==> r.Err? && r.status == BadRequest
    ensures r.Ok? <==>
      && Dependencies.GetCurrentActiveUser(db, subject).Ok?
      && req.quantity > 0
      && FindProduct(db, req.productId).Some?
      && FindProduct(db, req.productId).value.stock >= req.quantity
    ensures r.Ok? ==>
      var uid := Dependencies.GetCurrentActiveUser(db, subject).value.id;
      && r.value.1.userId == uid && r.value.1.productId == req.productId
      && r.value.0 == db.(cartItems := r.value.0.cartItems, nextCartItemId := r.value.0.nextCartItemId)
      && match ExistingIndex(db.cartItems, uid, req.productId)
         case Some(i) =>
           && r.value.1 == db.cartItems[i].(quantity := db.cartItems[i].quantity + req.quantity)
           && r.value.0.cartItems == db.cartItems[i := r.value.1]
           && r.value.0.nextCartItemId == db.nextCartItemId
         case None =>
           && r.value.1 == CartItem(db.nextCartItemId, uid, req.productId, req.quantity,
                                    FindProduct(db, req.productId).value.price)
           && r.value.0.cartItems == db.cartItems + [r.value.1]
           && r.value.0.nextCartItemId == db.nextCartItemId + 1
  {
    match Dependencies.GetCurrentActiveUser(db, subject)
    case Err(s, d) => Err(s, d)
    case Ok(user) =>
      if CartSchemas.ValidateQuantity(req.quantity) != [] then Err(Unprocessable, "quantity")
      else
        match FindProduct(db, req.productId)
        case None => Err(NotFound, "Producto no encontrado")
        case Some(product) =>
          if product.stock < req.quantity then Err(BadRequest, InsufficientStock(product.stock))
          else
            match ExistingIndex(db.cartItems, user.id, req.productId)
            case Some(i) =>
              var row := db.cartItems[i].(quantity := db.cartItems[i].quantity + req.quantity);
              Ok((db.(cartItems := db.cartItems[i := row]), row))
            case None =>
              var row := CartItem(db.nextCartItemId, user.id, req.productId, req.quantity, product.price);
              Ok((db.(cartItems := db.cartItems + [row], nextCartItemId := db.nextCartItemId + 1), row))
  }

  /** `PUT /cart/{item_id}`: 422 for a quantity that is not positive, 404
      unless the row exists and belongs to the user, 400 when the product's
      stock is below the new quantity; otherwise the row's quantity becomes
      exactly the new one. A row whose product no longer exists makes the
      handler fail on the missing product (500). */
  function UpdateCartItem(db: Db, subject: Option<string>, itemId: int, req: CartSchemas.CartItemUpdate)
    : (r: Result<(Db, CartItem)>)
    ensures Dependencies.GetCurrentActiveUser(db, subject).Err? ==>
      r.Err? && r.status == Dependencies.GetCurrentActiveUser(db, subject).status
    ensures Dependencies.GetCurrentActiveUser(db, subject).Ok? && req.quantity <= 0 ==>
      r.Err? && r.status == Unprocessable
    ensures (Dependencies.GetCurrentActiveUser(db, subject).Ok? && req.quantity > 0
             && OwnedIndex(db.cartItems, Dependencies.GetCurrentActiveUser(db, subject).value.id, itemId).None?)
            ==> r.Err? && r.status == NotFound
    ensures (&& Dependencies.GetCurrentActiveUser(db, subject).Ok? && req.quantity > 0
             && var i := OwnedIndex(db.cartItems, Dependencies.GetCurrentActiveUser(db, subject).value.id, itemId);
             && i.Some?
             && FindProduct(db, db.cartItems[i.value].productId).Some?
             && FindProduct(db, db.cartItems[i.value].productId).value.stock < req.quantity)
            ==> r.Err? && r.status == BadRequest
    ensures r.Ok? <==>
      && Dependencies.GetCurrentActiveUser(db, subject).Ok?
      && req.quantity > 0
      && var uid := Dependencies.GetCurrentActiveUser(db, subject).value.id;
      && OwnedIndex(db.cartItems, uid, itemId).Some?
      && var i := OwnedIndex(db.cartItems, uid, itemId).value;
      && FindProduct(db, db.cartItems[i].productId).Some?
      && FindProduct(db, db.cartItems[i].productId).value.stock >= req.quantity
    ensures r.Ok? ==>
      var i := OwnedIndex(db.cartItems, Dependencies.GetCurrentActiveUser(db, subject).value.id, itemId).value;
      && r.value.1 == db.cartItems[i].(quantity := req.quantity)
      && r.value.0 == db.(cartItems := db.cartItems[i := r.value.1])
    ensures r.Err? && r.status == InternalError ==>
      && Dependencies.GetCurrentActiveUser(db, subject).Ok?
      && var uid := Dependencies.GetCurrentActiveUser(db, subject).value.id;
      && OwnedIndex(db.cartItems, uid, itemId).Some?
      && FindProduct(db, db.cartItems[OwnedIndex(db.cartItems, uid, itemId).value].productId).None?
  {
    match Dependencies.GetCurrentActiveUser(db, subject)
    case Err(s, d) => Err(s, d)
    case Ok(user) =>
      if CartSchemas.ValidateQuantity(req.quantity) != [] then Err(Unprocessable, "quantity")
      else
        match OwnedIndex(db.cartItems, user.id, itemId)
        case None => Err(NotFound, "Item no encontrado en el carrito")
        case Some(i) =>
          match FindProduct(db, db.cartItems[i].productId)
          case None => Err(InternalError, "'NoneType' object has no attribute 'stock'")
          case Some(product) =>
            if product.stock < req.quantity then Err(BadRequest, InsufficientStock(product.stock))
            else
              var row := db.cartItems[i].(quantity := req.quantity);
              Ok((db.(cartItems := db.cartItems[i := row]), row))
  }

  /** `DELETE /cart/{item_id}`: 404 unless the row exists and belongs to
      the user; otherwise that row leaves the table. */
  function RemoveFromCart(db: Db, subject: Option<string>, itemId: int): (r: Result<Db>)
    ensures Dependencies.GetCurrentActiveUser(db, subject).Err? ==> r.Err?
    ensures r.Ok? <==>
      && Dependencies.GetCurrentActiveUser(db, subject).Ok?
      && OwnedIndex(db.cartItems, Dependencies.GetCurrentActiveUser(db, subject).value.id, itemId).Some?
    ensures r.Err? && Dependencies.GetCurrentActiveUser(db, subject).Ok? ==> r.status == NotFound
    ensures r.Ok? ==> r.value == db.(cartItems := Seqs.RemoveAt(db.cartItems,
      OwnedIndex(db.cartItems, Dependencies.GetCurrentActiveUser(db, subject).value.id, itemId).value))
  {
    match Dependencies.GetCurrentActiveUser(db, subject)
    case Err(s, d) => Err(s, d)
    case Ok(user) =>
      match OwnedIndex(db.cartItems, user.id, itemId)
      case None => Err(NotFound, "Item no encontrado en el carrito")
      case Some(i) => Ok(db.(cartItems := Seqs.RemoveAt(db.cartItems, i)))
  }

  /** `DELETE /cart/`: every row of the current user leaves the table. */
  function ClearCart(db: Db, subject: Option<string>): (r: Result<Db>)
    ensures r.Ok? <==> Dependencies.GetCurrentActiveUser(db, subject).Ok?
    ensures r.Ok? ==>
      var uid := Dependencies.GetCurrentActiveUser(db, subject).value.id;
      && r.value == db.(cartItems := r.value.cartItems)
      && forall row :: row in r.value.cartItems <==> row in db.cartItems && row.userId != uid
  {
    match Dependencies.GetCurrentActiveUser(db, subject)
    case Err(s, d) => Err(s, d)
    case Ok(user) => Ok(db.(cartItems := OtherUsersRows(db, user.id)))
  }

  ghost predicate QuantitiesPositive(db: Db) {
    forall i :: 0 <= i < |db.cartItems| ==> db.cartItems[i].quantity > 0
  }

  /** Every cart endpoint keeps all quantities positive. */
  lemma {:induction false} CartKeepsQuantitiesPositive(db: Db, subject: Option<string>, itemId: int,
                                                       add: CartSchemas.CartItemCreate,
                                                       update: CartSchemas.CartItemUpdate)
    requires QuantitiesPositive(db)
    ensures AddToCart(db, subject, add).Ok? ==> QuantitiesPositive(AddToCart(db, subject, add).value.0)
    ensures UpdateCartItem(db, subject, itemId, update).Ok? ==>
      QuantitiesPositive(UpdateCartItem(db, subject, itemId, update).value.0)
    ensures RemoveFromCart(db, subject, itemId).Ok? ==> QuantitiesPositive(RemoveFromCart(db, subject, itemId).value)
    ensures ClearCart(db, subject).Ok? ==> QuantitiesPositive(ClearCart(db, subject).value)
  {
    AddKeepsPositive(db, subject, add);
    UpdateKeepsPositive(db, subject, itemId, update);
    RemoveKeepsPositive(db, subject, itemId);
    ClearKeepsPositive(db, subject);
  }

  lemma AddKeepsPositive(db: Db, subject: Option<string>, add: CartSchemas.CartItemCreate)
    requires QuantitiesPositive(db)
    ensures AddToCart(db, subject, add).Ok? ==> QuantitiesPositive(AddToCart(db, subject, add).value.0)
  {
  }

  lemma UpdateKeepsPositive(db: Db, subject: Option<string>, itemId: int, update: CartSchemas.CartItemUpdate)
    requires QuantitiesPositive(db)
    ensures UpdateCartItem(db, subject, itemId, update).Ok? ==>
      QuantitiesPositive(UpdateCartItem(db, subject, itemId, update).value.0)
  {
  }

  lemma RemoveKeepsPositive(db: Db, subject: Option<string>, itemId: int)
    requires QuantitiesPositive(db)
    ensures RemoveFromCart(db, subject, itemId).Ok? ==> QuantitiesPositive(RemoveFromCart(db, subject, itemId).value)
  {
  }

  lemma {:induction false} ClearKeepsPositive(db: Db, subject: Option<string>)
    requires QuantitiesPositive(db)
    ensures ClearCart(db, subject).Ok? ==> QuantitiesPositive(ClearCart(db, subject).value)
  {
    if ClearCart(db, subject).Ok? {
      var db' := ClearCart(db, subject).value;
      forall i | 0 <= i < |db'.cartItems| ensures db'.cartItems[i].quantity > 0 {
        assert db'.cartItems[i] in db.cartItems;
      }
    }
  }

  /** Replacing one of a user's rows by another of theirs changes their
      item count by the difference of the two quantities. */
  lemma {:induction false} ReplaceOwnRowCount(s: seq<CartItem>, i: nat, row: CartItem, uid: int)
    requires i < |s| && s[i].userId == uid && row.userId == uid
    ensures RowsQuantity(Seqs.Filter(s[i := row], (c: CartItem) => c.userId == uid))
         == RowsQuantity(Seqs.Filter(s, (c: CartItem) => c.userId == uid)) - s[i].quantity + row.quantity
  {
    var mine := (c: CartItem) => c.userId == uid;
    Seqs.FilterSplitAt(s, i, mine);
    Seqs.FilterSplitAt(s[i := row], i, mine);
    assert s[i := row][..i] == s[..i];
    assert s[i := row][i + 1..] == s[i + 1..];
    var pre, post := Seqs.Filter(s[..i], mine), Seqs.Filter(s[i + 1..], mine);
    RowsSumsAppend(pre + [s[i]], post);
    RowsSumsAppend(pre, [s[i]]);
    RowsSumsAppend(pre + [row], post);
    RowsSumsAppend(pre, [row]);
  }

  /** Appending a row of the user's raises their item count by its quantity. */
  lemma {:induction false} AppendOwnRowCount(s: seq<CartItem>, row: CartItem, uid: int)
    requires row.userId == uid
    ensures RowsQuantity(Seqs.Filter(s + [row], (c: CartItem) => c.userId == uid))
         == RowsQuantity(Seqs.Filter(s, (c: CartItem) => c.userId == uid)) + row.quantity
    ensures Seqs.Filter(s + [row], (c: CartItem) => c.userId != uid) == Seqs.Filter(s, (c: CartItem) => c.userId != uid)
  {
    var mine := (c: CartItem) => c.userId == uid;
    Seqs.FilterAppend(s, [row], mine);
    Seqs.FilterAppend(s, [row], (c: CartItem) => c.userId != uid);
    assert [row][1..] == [];
    RowsSumsAppend(Seqs.Filter(s, mine), [row]);
  }

  /** Adding raises the user's item count by exactly the quantity added,
      whether a row is merged into or created, and leaves every other
      user's rows as they were. */
  lemma {:induction false} AddRaisesCountByQuantity(db: Db, subject: Option<string>, req: CartSchemas.CartItemCreate)
    requires AddToCart(db, subject, req).Ok?
    ensures var uid := Dependencies.GetCurrentActiveUser(db, subject).value.id;
      var db' := AddToCart(db, subject, req).value.0;
      && RowsQuantity(UserRows(db', uid)) == RowsQuantity(UserRows(db, uid)) + req.quantity
      && OtherUsersRows(db', uid) == OtherUsersRows(db, uid)
  {
    var uid := Dependencies.GetCurrentActiveUser(db, subject).value.id;
    var (db', row) := AddToCart(db, subject, req).value;
    match ExistingIndex(db.cartItems, uid, req.productId)
    case Some(i) =>
      ReplaceOwnRowCount(db.cartItems, i, row, uid);
      Seqs.FilterUpdateDropped(db.cartItems, i, row, (c: CartItem) => c.userId != uid);
    case None =>
      AppendOwnRowCount(db.cartItems, row, uid);
  }

  /** The stock check compares only the quantity being added: a product
      whose whole stock is already in the cart can still be added again,
      leaving the row above the stock. */
  lemma AddMayExceedStock(db: Db, subject: Option<string>, user: User, product: Product)
    requires Dependencies.GetCurrentActiveUser(db, subject) == Ok(user)
    requires product.stock == 1
    requires db.products == [product]
    requires db.cartItems == [CartItem(7, user.id, product.id, 1, product.price)]
    ensures AddToCart(db, subject, CartSchemas.CartItemCreate(product.id, 1)).Ok?
    ensures AddToCart(db, subject, CartSchemas.CartItemCreate(product.id, 1)).value.1.quantity == 2 > product.stock
  {
  }

  /** After an update the row holds exactly the new quantity and the other
      users' rows are untouched. */
  lemma {:induction false} UpdateTouchesOneRow(db: Db, subject: Option<string>, itemId: int, req: CartSchemas.CartItemUpdate)
    requires UpdateCartItem(db, subject, itemId, req).Ok?
    ensures var uid := Dependencies.GetCurrentActiveUser(db, subject).value.id;
      var (db', row) := UpdateCartItem(db, subject, itemId, req).value;
      && row in UserRows(db', uid) && row.quantity == req.quantity && row.id == itemId
      && OtherUsersRows(db', uid) == OtherUsersRows(db, uid)
  {
    var uid := Dependencies.GetCurrentActiveUser(db, subject).value.id;
    var (db', row) := UpdateCartItem(db, subject, itemId, req).value;
    var i := OwnedIndex(db.cartItems, uid, itemId).value;
    assert db'.cartItems[i] == row;
    Seqs.FilterUpdateDropped(db.cartItems, i, row, (c: CartItem) => c.userId != uid);
  }

  /** Removing deletes one row of the user's and no other user's row. */
  lemma {:induction false} RemoveTouchesOwnRowsOnly(db: Db, subject: Option<string>, itemId: int)
    requires RemoveFromCart(db, subject, itemId).Ok?
    ensures var uid := Dependencies.GetCurrentActiveUser(db, subject).value.id;
      var db' := RemoveFromCart(db, subject, itemId).value;
      && OtherUsersRows(db', uid) == OtherUsersRows(db, uid)
      && |db'.cartItems| == |db.cartItems| - 1
  {
    var uid := Dependencies.GetCurrentActiveUser(db, subject).value.id;
    var i := OwnedIndex(db.cartItems, uid, itemId).value;
    Seqs.FilterRemoveDropped(db.cartItems, i, (c: CartItem) => c.userId != uid);
  }

  /** After clearing, the user's cart reads back empty, with no subtotal
      and no items, and every other user's rows are kept in order. */
  lemma {:induction false} ClearEmptiesOwnCart(db: Db, subject: Option<string>)
    requires ClearCart(db, subject).Ok?
    ensures var uid := Dependencies.GetCurrentActiveUser(db, subject).value.id;
      var db' := ClearCart(db, subject).value;
      && GetCart(db', subject) == Ok(CartView([], 0.0, 0))
      && OtherUsersRows(db', uid) == OtherUsersRows(db, uid)
  {
    var uid := Dependencies.GetCurrentActiveUser(db, subject).value.id;
    var db' := ClearCart(db, subject).value;
    assert db'.users == db.users;
  }
}
