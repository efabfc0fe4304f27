/** The client cart store of `CartContext.jsx`: an ordered list of line
    items, each a product snapshot with a quantity, keyed by product id. */
module CartStore {
  import opened Wrappers
  import Seqs

  /** A product as the product API delivers it to the pages. `stock` is
      optional because a snapshot restored from storage may lack it. */
  datatype Product = Product(
    id: int,
    name: string,
    slug: string,
    description: Option<string>,
    price: real,
    stock: Option<int>,
    imageUrl: Option<string>,
    categoryId: Option<int>)

  /** `{...product, quantity}`: the snapshot plus the chosen quantity. */
  datatype LineItem = LineItem(product: Product, quantity: int) {
    function Id(): int { product.id }
    function Subtotal(): real { product.price * quantity as real }
  }

  type Cart = seq<LineItem>

  predicate Has(cart: Cart, id: int) {
    exists i :: 0 <= i < |cart| && cart[i].Id() == id
  }

  ghost predicate DistinctIds(cart: Cart) {
    forall i, j :: 0 <= i < j < |cart| ==> cart[i].Id() != cart[j].Id()
  }

  ghost predicate AllPositive(cart: Cart) {
    forall i :: 0 <= i < |cart| ==> cart[i].quantity > 0
  }

  /** `cart.find(item => item.id === id)`. */
  function Find(cart: Cart, id: int): (r: Option<LineItem>)
    ensures r.Some? <==> Has(cart, id)
    ensures r.Some? ==> r.value in cart && r.value.Id() == id
  {
    Seqs.FindFirst(cart, (item: LineItem) => item.Id() == id)
  }

  /** `cart.map(item => item.id === id ? f(item) : item)`. */
  function MapMatching(cart: Cart, id: int, f: LineItem -> LineItem): (r: Cart)
    ensures |r| == |cart|
    ensures forall i :: 0 <= i < |cart| ==> r[i] == if cart[i].Id() == id then f(cart[i]) else cart[i]
  {
    if |cart| == 0 then []
    else [if cart[0].Id() == id then f(cart[0]) else cart[0]] + MapMatching(cart[1..], id, f)
  }

  function AddQuantity(quantity: int): LineItem -> LineItem {
    (item: LineItem) => item.(quantity := item.quantity + quantity)
  }

  function SetQuantity(quantity: int): LineItem -> LineItem {
    (item: LineItem) => item.(quantity := quantity)
  }

  /** `addToCart(product, quantity)`: a product already in the cart gets its
      quantity raised in place, keeping the snapshot it was added with; a
      new product is appended. Stock is never consulted. */
  function AddToCart(cart: Cart, product: Product, quantity: int): (r: Cart)
    ensures Has(cart, product.id) ==>
      && |r| == |cart|
      && forall i :: 0 <= i < |cart| ==>
           && r[i].product == cart[i].product
           && r[i].quantity == cart[i].quantity + (if cart[i].Id() == product.id then quantity else 0)
    ensures !Has(cart, product.id) ==> r == cart + [LineItem(product, quantity)]
  {
    if Find(cart, product.id).Some? then MapMatching(cart, product.id, AddQuantity(quantity))
    else cart + [LineItem(product, quantity)]
  }

  /** `removeFromCart(id)`: keep exactly the lines with another id. */
  function RemoveFromCart(cart: Cart, id: int): (r: Cart)
    ensures forall x :: x in r <==> x in cart && x.Id() != id
    ensures !Has(r, id)
    ensures !Has(cart, id) ==> r == cart
  {
    Seqs.Filter(cart, (item: LineItem) => item.Id() != id)
  }

  /** `updateQuantity(id, quantity)`: a quantity of zero or less removes
      the product; otherwise every line with that id takes the quantity. */
  function UpdateQuantity(cart: Cart, id: int, quantity: int): (r: Cart)
    ensures quantity <= 0 ==> r == RemoveFromCart(cart, id)
    ensures quantity > 0 ==>
      && |r| == |cart|
      && forall i :: 0 <= i < |cart| ==>
           && r[i].product == cart[i].product
           && r[i].quantity == if cart[i].Id() == id then quantity else cart[i].quantity
  {
    if quantity <= 0 then RemoveFromCart(cart, id)
    else MapMatching(cart, id, SetQuantity(quantity))
  }

  /** `clearCart()`. */
  function ClearCart(cart: Cart): (r: Cart)
    ensures |r| == 0
  {
    []
  }

  /** `getTotal()`: sum of price times quantity. */
  function Total(cart: Cart): real {
    if |cart| == 0 then 0.0 else cart[0].Subtotal() + Total(cart[1..])
  }

  /** `getItemsCount()`: sum of quantities. */
  function ItemsCount(cart: Cart): (n: int)
    ensures AllPositive(cart) ==> n >= |cart|
  {
    if |cart| == 0 then 0
    else
      assert AllPositive(cart) ==> AllPositive(cart[1..]);
      cart[0].quantity + ItemsCount(cart[1..])
  }

  /** Sum of the quantities of the lines with `id`. */
  function QuantityOf(cart: Cart, id: int): int {
    if |cart| == 0 then 0
    else (if cart[0].Id() == id then cart[0].quantity else 0) + QuantityOf(cart[1..], id)
  }

  // ---------------------------------------------------------------------
  // Persistence: the whole cart is written under the key "cart" on every
  // change and read back on start, an absent key giving the empty cart.

  const StorageKey: string := "cart"

  type Storage = map<string, Cart>

  function Persist(storage: Storage, cart: Cart): (s: Storage)
    ensures StorageKey in s && s[StorageKey] == cart
    ensures forall k :: k in storage && k != StorageKey ==> k in s && s[k] == storage[k]
  {
    storage[StorageKey := cart]
  }

  /** The `useState` initialiser: the stored cart, or `[]` when absent. */
  function InitialCart(storage: Storage): (r: Cart)
    ensures StorageKey !in storage ==> r == []
  {
    if StorageKey in storage then storage[StorageKey] else []
  }

  // ---------------------------------------------------------------------
  // Properties

  lemma PersistReload(storage: Storage, cart: Cart)
    ensures InitialCart(Persist(storage, cart)) == cart
  {
  }

  /** Adding never duplicates a product id. */
  lemma AddPreservesDistinct(cart: Cart, product: Product, quantity: int)
    requires DistinctIds(cart)
    ensures DistinctIds(AddToCart(cart, product, quantity))
  {
    var r := AddToCart(cart, product, quantity);
    if !Has(cart, product.id) {
      forall i, j | 0 <= i < j < |r|
        ensures r[i].Id() != r[j].Id()
      {
        if j == |cart| {
          assert r[i] == cart[i];
        }
      }
    }
  }

  /** Adding with a positive quantity keeps every quantity positive. */
  lemma AddPreservesPositive(cart: Cart, product: Product, quantity: int)
    requires AllPositive(cart) && quantity > 0
    ensures AllPositive(AddToCart(cart, product, quantity))
  {
  }

  /** Whatever the requested quantity, an update keeps every stored
      quantity positive: non-positive requests remove the line instead. */
  lemma UpdatePreservesPositive(cart: Cart, id: int, quantity: int)
    requires AllPositive(cart)
    ensures AllPositive(UpdateQuantity(cart, id, quantity))
  {
    var r := UpdateQuantity(cart, id, quantity);
    if quantity <= 0 {
      forall i | 0 <= i < |r|
        ensures r[i].quantity > 0
      {
        assert r[i] in cart;
      }
    }
  }

  lemma {:induction false} TotalAppend(a: Cart, b: Cart)
    ensures Total(a + b) == Total(a) + Total(b)
  {
    if |a| > 0 {
      assert (a + b)[1..] == a[1..] + b;
      TotalAppend(a[1..], b);
    } else {
      assert a + b == b;
    }
  }

  lemma {:induction false} ItemsCountAppend(a: Cart, b: Cart)
    ensures ItemsCount(a + b) == ItemsCount(a) + ItemsCount(b)
  {
    if |a| > 0 {
      assert (a + b)[1..] == a[1..] + b;
      ItemsCountAppend(a[1..], b);
    } else {
      assert a + b == b;
    }
  }

  /** A cart of non-negative prices and quantities has a non-negative total. */
  lemma {:induction false} TotalNonNegative(cart: Cart)
    requires forall i :: 0 <= i < |cart| ==> cart[i].product.price >= 0.0 && cart[i].quantity >= 0
    ensures Total(cart) >= 0.0
  {
    if |cart| > 0 {
      var p, q := cart[0].product.price, cart[0].quantity as real;
      assert p * q >= 0.0;
      assert forall i :: 0 <= i < |cart[1..]| ==> cart[1..][i] == cart[i + 1];
      TotalNonNegative(cart[1..]);
    }
  }

  /** With every quantity positive, the item count is at least the number
      of lines, and equals it exactly when every line holds one unit. */
  lemma {:induction false} OneUnitPerLine(cart: Cart)
    requires AllPositive(cart)
    ensures ItemsCount(cart) == |cart| <==> forall i :: 0 <= i < |cart| ==> cart[i].quantity == 1
  {
    if |cart| > 0 {
      assert forall i :: 0 <= i < |cart[1..]| ==> cart[1..][i] == cart[i + 1];
      OneUnitPerLine(cart[1..]);
    }
  }

  /** `getTotal` and `getItemsCount` fold left to right, one line at a
      time, starting from 0. */
  lemma {:induction false} TotalsFoldLeft(cart: Cart, item: LineItem)
    ensures Total([]) == 0.0 && ItemsCount([]) == 0
    ensures Total(cart + [item]) == Total(cart) + item.product.price * item.quantity as real
    ensures ItemsCount(cart + [item]) == ItemsCount(cart) + item.quantity
  {
    TotalAppend(cart, [item]);
    ItemsCountAppend(cart, [item]);
    assert [item][1..] == [];
    assert Total([item]) == item.Subtotal();
    assert ItemsCount([item]) == item.quantity;
  }

  lemma {:induction false} AbsentQuantity(cart: Cart, id: int)
    requires !Has(cart, id)
    ensures QuantityOf(cart, id) == 0
  {
    if |cart| > 0 {
      assert !Has(cart[1..], id) by {
        forall i | 0 <= i < |cart[1..]| ensures cart[1..][i].Id() != id {
          assert cart[1..][i] == cart[i + 1];
        }
      }
      AbsentQuantity(cart[1..], id);
    }
  }

  lemma {:induction false} MapAbsent(cart: Cart, id: int, f: LineItem -> LineItem)
    requires !Has(cart, id)
    ensures MapMatching(cart, id, f) == cart
  {
  }

  lemma TailDistinct(cart: Cart)
    requires |cart| > 0 && DistinctIds(cart)
    ensures DistinctIds(cart[1..])
    ensures !Has(cart[1..], cart[0].Id())
  {
  }

  lemma HasTail(cart: Cart, id: int)
    requires Has(cart, id) && |cart| > 0 && cart[0].Id() != id
    ensures Has(cart[1..], id)
  {
    var i :| 0 <= i < |cart| && cart[i].Id() == id;
    assert cart[1..][i - 1] == cart[i];
  }

  lemma FindHead(cart: Cart, id: int)
    requires |cart| > 0
    ensures cart[0].Id() == id ==> Find(cart, id) == Some(cart[0])
    ensures cart[0].Id() != id ==> Find(cart, id) == Find(cart[1..], id)
  {
  }

  /** With distinct ids, adding raises the item count by exactly the added
      quantity and the total by that quantity times the stored unit price
      (the new product's price when it was absent). */
  lemma AddTotals(cart: Cart, product: Product, quantity: int)
    requires DistinctIds(cart)
    ensures ItemsCount(AddToCart(cart, product, quantity)) == ItemsCount(cart) + quantity
    ensures Total(AddToCart(cart, product, quantity))
         == Total(cart) + LineItem(Find(cart, product.id).GetOr(LineItem(product, 0)).product, quantity).Subtotal()
  {
    if Has(cart, product.id) {
      MapAddCount(cart, product.id, quantity);
      MapAddTotal(cart, product.id, quantity);
    } else {
      TotalsFoldLeft(cart, LineItem(product, quantity));
    }
  }

  lemma {:induction false} MapAddCount(cart: Cart, id: int, quantity: int)
    requires DistinctIds(cart) && Has(cart, id)
    ensures ItemsCount(MapMatching(cart, id, AddQuantity(quantity))) == ItemsCount(cart) + quantity
  {
    var r := MapMatching(cart, id, AddQuantity(quantity));
    TailDistinct(cart);
    assert r[1..] == MapMatching(cart[1..], id, AddQuantity(quantity));
    if cart[0].Id() == id {
      MapAbsent(cart[1..], id, AddQuantity(quantity));
    } else {
      HasTail(cart, id);
      MapAddCount(cart[1..], id, quantity);
    }
  }

  lemma SubtotalAdd(item: LineItem, quantity: int)
    ensures AddQuantity(quantity)(item).Subtotal() == item.Subtotal() + LineItem(item.product, quantity).Subtotal()
  {
    var p := item.product.price;
    assert p * (item.quantity + quantity) as real == p * item.quantity as real + p * quantity as real;
  }

  lemma {:induction false} MapAddTotal(cart: Cart, id: int, quantity: int)
    requires DistinctIds(cart) && Has(cart, id)
    ensures Total(MapMatching(cart, id, AddQuantity(quantity)))
         == Total(cart) + LineItem(Find(cart, id).value.product, quantity).Subtotal()
  {
    var r := MapMatching(cart, id, AddQuantity(quantity));
    TailDistinct(cart);
    FindHead(cart, id);
    assert r[1..] == MapMatching(cart[1..], id, AddQuantity(quantity));
    if cart[0].Id() == id {
      MapAbsent(cart[1..], id, AddQuantity(quantity));
      SubtotalAdd(cart[0], quantity);
    } else {
      HasTail(cart, id);
      MapAddTotal(cart[1..], id, quantity);
    }
  }

  /** Adding the same product twice with quantity 1 yields one line of
      quantity 2, not two lines. */
  lemma AddTwice(product: Product)
    ensures AddToCart(AddToCart([], product, 1), product, 1) == [LineItem(product, 2)]
  {
    var once := AddToCart([], product, 1);
    assert once == [LineItem(product, 1)];
    assert Has(once, product.id) by { assert once[0].Id() == product.id; }
  }

  /** Removal distributes over concatenation: what is kept keeps its order. */
  lemma RemoveAppend(a: Cart, b: Cart, id: int)
    ensures RemoveFromCart(a + b, id) == RemoveFromCart(a, id) + RemoveFromCart(b, id)
  {
    Seqs.FilterAppend(a, b, (item: LineItem) => item.Id() != id);
  }

  /** Removing twice is removing once. */
  lemma RemoveIdempotent(cart: Cart, id: int)
    ensures RemoveFromCart(RemoveFromCart(cart, id), id) == RemoveFromCart(cart, id)
  {
  }

  /** Removal takes away exactly the quantity held under that id. */
  lemma {:induction false} RemoveItemsCount(cart: Cart, id: int)
    ensures ItemsCount(RemoveFromCart(cart, id)) == ItemsCount(cart) - QuantityOf(cart, id)
  {
    if |cart| > 0 {
      var p := (item: LineItem) => item.Id() != id;
      assert cart == [cart[0]] + cart[1..];
      Seqs.FilterAppend([cart[0]], cart[1..], p);
      RemoveItemsCount(cart[1..], id);
      ItemsCountAppend(Seqs.Filter([cart[0]], p), Seqs.Filter(cart[1..], p));
    }
  }

  /** With distinct ids, a positive update of a present product leaves it
      holding exactly the new quantity. */
  lemma {:induction false} UpdateSetsQuantity(cart: Cart, id: int, quantity: int)
    requires DistinctIds(cart) && Has(cart, id) && quantity > 0
    ensures QuantityOf(UpdateQuantity(cart, id, quantity), id) == quantity
    ensures ItemsCount(UpdateQuantity(cart, id, quantity)) == ItemsCount(cart) - QuantityOf(cart, id) + quantity
  {
    var r := UpdateQuantity(cart, id, quantity);
    TailDistinct(cart);
    assert r[1..] == UpdateQuantity(cart[1..], id, quantity);
    if cart[0].Id() == id {
      MapAbsent(cart[1..], id, SetQuantity(quantity));
      AbsentQuantity(cart[1..], id);
    } else {
      HasTail(cart, id);
      UpdateSetsQuantity(cart[1..], id, quantity);
    }
  }

  /** A cleared cart is empty in count and total. */
  lemma ClearTotals(cart: Cart)
    ensures ItemsCount(ClearCart(cart)) == 0 && Total(ClearCart(cart)) == 0.0
  {
  }
}
