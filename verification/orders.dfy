/** The request shapes of `schemas/order.py`. */
module OrderSchemas {
  import opened Wrappers
  import opened Models

  /** `OrderItemCreate`: the price is whatever the client sends. */
  datatype OrderItemCreate = OrderItemCreate(productId: int, quantity: int, price: real)

  datatype OrderCreate = OrderCreate(shipping: Shipping, notes: Option<string>, items: seq<OrderItemCreate>)

  /** `OrderUpdate`: every field optional; `None` means "not sent". */
  datatype OrderUpdate = OrderUpdate(status: Option<OrderStatus>, paymentId: Option<string>, notes: Option<string>)

  /** The four required shipping texts are non-empty and every quantity is
      positive; an empty item list passes validation. */
  function ValidateOrderCreate(c: OrderCreate): (failed: seq<string>)
    ensures failed == [] <==>
      && |c.shipping.name| >= 1 && |c.shipping.address| >= 1
      && |c.shipping.city| >= 1 && |c.shipping.country| >= 1
      && forall k :: 0 <= k < |c.items| ==> c.items[k].quantity > 0
  {
    (if |c.shipping.name| >= 1 then [] else ["shipping_name"])
    + (if |c.shipping.address| >= 1 then [] else ["shipping_address"])
    + (if |c.shipping.city| >= 1 then [] else ["shipping_city"])
    + (if |c.shipping.country| >= 1 then [] else ["shipping_country"])
    + (if forall k :: 0 <= k < |c.items| ==> c.items[k].quantity > 0 then [] else ["items.quantity"])
  }
}

/** The endpoints of `api/routes/orders.py`. The order number and the
    current time are inputs: generating them uses the clock and a random
    source. */
module OrderRoutes {
  import opened Wrappers
  import opened Http
  import opened Models
  import Seqs
  import Text
  import Sorting
  import OrderSchemas
  import Dependencies

  /** An item passes the route's checks when its product exists and the
      product's stock, as it was before the order, covers the quantity. */
  predicate ItemOk(db: Db, it: OrderSchemas.OrderItemCreate) {
    FindProduct(db, it.productId).Some? && FindProduct(db, it.productId).value.stock >= it.quantity
  }

  /** The order line for an item: the product's name and SKU with the
      client's price and quantity. */
  function LineFor(p: Product, it: OrderSchemas.OrderItemCreate): (l: OrderItem)
    ensures l.productId == p.id && l.quantity == it.quantity && l.price == it.price
  {
    OrderItem(p.id, p.name, p.sku, it.quantity, it.price, it.price * it.quantity as real)
  }

  /** Position of the first item that fails its lookup or stock check;
      `|items|` when none does. */
  function FirstBadItem(db: Db, items: seq<OrderSchemas.OrderItemCreate>): (k: nat)
    ensures k <= |items|
    ensures forall j :: 0 <= j < k ==> ItemOk(db, items[j])
    ensures k < |items| ==> !ItemOk(db, items[k])
  {
    if |items| == 0 || !ItemOk(db, items[0]) then 0
    else 1 + FirstBadItem(db, items[1..])
  }

  /** The first loop of `create_order`: each item in turn is looked up
      (404) and checked against stock (400); the first failing item decides
      the error. */
  function PriceLines(db: Db, items: seq<OrderSchemas.OrderItemCreate>): (r: Result<seq<OrderItem>>)
    ensures r.Ok? ==> |r.value| == |items|
  {
    if |items| == 0 then Ok([])
    else
      match PriceItem(db, items[0])
      case Err(s, d) => Err(s, d)
      case Ok(line) =>
        match PriceLines(db, items[1..])
        case Err(s, d) => Err(s, d)
        case Ok(rest) => Ok([line] + rest)
  }

  /** One pass of that loop: 404 for an unknown product, 400 when its
      stock is short, otherwise the item's line. */
  function PriceItem(db: Db, it: OrderSchemas.OrderItemCreate): (r: Result<OrderItem>)
    ensures r.Ok? <==> ItemOk(db, it)
    ensures r.Ok? ==> r.value == LineFor(FindProduct(db, it.productId).value, it)
    ensures r.Err? ==> (r.status == NotFound <==> FindProduct(db, it.productId).None?)
    ensures r.Err? ==> (r.status == BadRequest <==> FindProduct(db, it.productId).Some?)
  {
    match FindProduct(db, it.productId)
    case None => Err(NotFound, "Producto " + Text.IntToString(it.productId) + " no encontrado")
    case Some(p) =>
      if p.stock < it.quantity then Err(BadRequest, "Stock insuficiente para " + p.name)
      else Ok(LineFor(p, it))
  }

  /** The loop succeeds exactly when every item passes, and then yields one
      line per item, built from the product found for it. */
  lemma {:induction false} PriceLinesOk(db: Db, items: seq<OrderSchemas.OrderItemCreate>)
    ensures PriceLines(db, items).Ok? <==> FirstBadItem(db, items) == |items|
    ensures PriceLines(db, items).Ok? ==>
      forall k :: 0 <= k < |items| ==>
        PriceLines(db, items).value[k] == LineFor(FindProduct(db, items[k].productId).value, items[k])
  {
    if |items| > 0 {
      PriceLinesOk(db, items[1..]);
      var r := PriceLines(db, items);
      if r.Ok? {
        var rest := PriceLines(db, items[1..]).value;
        assert r.value == [LineFor(FindProduct(db, items[0].productId).value, items[0])] + rest;
        forall k | 1 <= k < |items|
          ensures r.value[k] == LineFor(FindProduct(db, items[k].productId).value, items[k])
        {
          assert items[k] == items[1..][k - 1];
        }
      }
    }
  }

  /** A failed loop reports the first failing item: 404 when its product is
      missing, 400 when the stock is short. */
  lemma {:induction false} PriceLinesError(db: Db, items: seq<OrderSchemas.OrderItemCreate>)
    ensures PriceLines(db, items).Err? ==>
      var k := FirstBadItem(db, items);
      && k < |items|
      && (PriceLines(db, items).status == NotFound <==> FindProduct(db, items[k].productId).None?)
      && (PriceLines(db, items).status == BadRequest <==> FindProduct(db, items[k].productId).Some?)
  {
    var r := PriceLines(db, items);
    if |items| > 0 && r.Err? {
      if !ItemOk(db, items[0]) {
        assert FirstBadItem(db, items) == 0;
        assert r.status == PriceItem(db, items[0]).status;
      } else {
        PriceLinesError(db, items[1..]);
        var k := FirstBadItem(db, items[1..]);
        assert FirstBadItem(db, items) == k + 1;
        assert r == PriceLines(db, items[1..]);
        assert items[k + 1] == items[1..][k];
      }
    }
  }

  /** The sum of the line subtotals. */
  function LinesSubtotal(lines: seq<OrderItem>): real {
    if |lines| == 0 then 0.0 else lines[0].subtotal + LinesSubtotal(lines[1..])
  }

  /** The sum of price times quantity over the request's items. */
  function RequestSubtotal(items: seq<OrderSchemas.OrderItemCreate>): real {
    if |items| == 0 then 0.0 else items[0].price * items[0].quantity as real + RequestSubtotal(items[1..])
  }

  /** `0.0 if subtotal > 50 else 10.0`. */
  function ShippingCost(subtotal: real): (c: real)
    ensures c == 0.0 || c == 10.0
    ensures c == 0.0 <==> subtotal > 50.0
  {
    if subtotal > 50.0 then 0.0 else 10.0
  }

  /** The stock of the first product with that id, lowered by `quantity`. */
  function DecrementStock(products: seq<Product>, id: int, quantity: int): (r: seq<Product>)
    ensures |r| == |products|
    ensures forall k :: 0 <= k < |products| ==> r[k] == products[k].(stock := r[k].stock)
  {
    match Seqs.FindIndex(products, (p: Product) => p.id == id)
    case None => products
    case Some(i) => products[i := products[i].(stock := products[i].stock - quantity)]
  }

  /** The second loop of `create_order`: the stock decrements, one line at a time. */
  function ApplyDecrements(products: seq<Product>, lines: seq<OrderItem>): (r: seq<Product>)
    ensures |r| == |products|
    ensures forall k :: 0 <= k < |products| ==> r[k] == products[k].(stock := r[k].stock)
    decreases |lines|
  {
    if |lines| == 0 then products
    else ApplyDecrements(DecrementStock(products, lines[0].productId, lines[0].quantity), lines[1..])
  }

  /** How many units of a product the lines order. */
  function OrderedQuantity(lines: seq<OrderItem>, id: int): int {
    if |lines| == 0 then 0
    else (if lines[0].productId == id then lines[0].quantity else 0) + OrderedQuantity(lines[1..], id)
  }

  /** `POST /orders/`: 422 for an invalid request, 400 for no items, then
      the per-item checks; on success a pending order with the request's
      shipping details and prices, every ordered product's stock lowered,
      and the user's server cart emptied. */
  function CreateOrder(db: Db, subject: Option<string>, req: OrderSchemas.OrderCreate,
                       orderNumber: string, now: int): (r: Result<(Db, Order)>)
    ensures Dependencies.GetCurrentActiveUser(db, subject).Err? ==>
      r.Err? && r.status == Dependencies.GetCurrentActiveUser(db, subject).status
    ensures Dependencies.GetCurrentActiveUser(db, subject).Ok? && OrderSchemas.ValidateOrderCreate(req) != [] ==>
      r.Err? && r.status == Unprocessable
    ensures r.Ok? <==>
      && Dependencies.GetCurrentActiveUser(db, subject).Ok?
      && OrderSchemas.ValidateOrderCreate(req) == []
      && |req.items| > 0
      && forall k :: 0 <= k < |req.items| ==> ItemOk(db, req.items[k])
    ensures (Dependencies.GetCurrentActiveUser(db, subject).Ok? && OrderSchemas.ValidateOrderCreate(req) == []
             && req.items == []) ==> r == Err(BadRequest, "La orden debe tener al menos un producto")
    ensures (&& Dependencies.GetCurrentActiveUser(db, subject).Ok? && OrderSchemas.ValidateOrderCreate(req) == []
             && FirstBadItem(db, req.items) < |req.items|) ==>
      && r.Err?
      && var k := FirstBadItem(db, req.items);
         r.status == (if FindProduct(db, req.items[k].productId).None? then NotFound else BadRequest)
    ensures r.Ok? ==>
      var (db', o) := r.value;
      var uid := Dependencies.GetCurrentActiveUser(db, subject).value.id;
      && o.id == db.nextOrderId && db'.nextOrderId == db.nextOrderId + 1
      && o.userId == uid && o.status == Pending && o.paidAt.None? && o.createdAt == now
      && o.orderNumber == orderNumber && o.shipping == req.shipping && o.notes == req.notes
      && PriceLines(db, req.items).Ok? && o.items == PriceLines(db, req.items).value
      && o.subtotal == LinesSubtotal(o.items)
      && o.shippingCost == ShippingCost(o.subtotal) && o.tax == 0.0
      && o.total == o.subtotal + o.shippingCost
      && o.paymentMethod.None? && o.paymentId.None?
      && db' == db.(orders := db.orders + [o],
                    products := ApplyDecrements(db.products, o.items),
                    cartItems := OtherUsersRows(db, uid),
                    nextOrderId := db.nextOrderId + 1)
  {
    match Dependencies.GetCurrentActiveUser(db, subject)
    case Err(s, d) => Err(s, d)
    case Ok(user) =>
      var failed := OrderSchemas.ValidateOrderCreate(req);
      if failed != [] then Err(Unprocessable, Text.Join(failed, ','))
      else if req.items == [] then Err(BadRequest, "La orden debe tener al menos un producto")
      else
        PriceLinesOk(db, req.items);
        PriceLinesError(db, req.items);
        match PriceLines(db, req.items)
        case Err(s, d) => Err(s, d)
        case Ok(lines) =>
          var subtotal := LinesSubtotal(lines);
          var shippingCost := ShippingCost(subtotal);
          var tax := subtotal * 0.0;
          var order := Order(db.nextOrderId, orderNumber, user.id, req.shipping, subtotal, shippingCost, tax,
                             subtotal + shippingCost + tax, Pending, None, None, None, req.notes, now, lines);
          Ok((db.(orders := db.orders + [order],
                  products := ApplyDecrements(db.products, lines),
                  cartItems := OtherUsersRows(db, user.id),
                  nextOrderId := db.nextOrderId + 1),
              order))
  }

  /** The order subtotal is computed from the prices the client sent, not
      from the catalogue's. */
  lemma {:induction false} SubtotalUsesRequestPrices(db: Db, items: seq<OrderSchemas.OrderItemCreate>)
    requires PriceLines(db, items).Ok?
    ensures LinesSubtotal(PriceLines(db, items).value) == RequestSubtotal(items)
  {
    if |items| > 0 {
      var lines := PriceLines(db, items).value;
      assert PriceLines(db, items[1..]).Ok?;
      assert lines[1..] == PriceLines(db, items[1..]).value;
      SubtotalUsesRequestPrices(db, items[1..]);
    }
  }

  ghost predicate UniqueIds(products: seq<Product>) {
    forall i, j :: 0 <= i < j < |products| ==> products[i].id != products[j].id
  }

  lemma {:induction false} DecrementOne(products: seq<Product>, id: int, quantity: int)
    requires UniqueIds(products)
    ensures var r := DecrementStock(products, id, quantity);
      && UniqueIds(r)
      && forall k :: 0 <= k < |products| ==>
           r[k].stock == products[k].stock - (if products[k].id == id then quantity else 0)
  {
    var r := DecrementStock(products, id, quantity);
    forall k | 0 <= k < |products|
      ensures r[k].stock == products[k].stock - (if products[k].id == id then quantity else 0)
    {
      match Seqs.FindIndex(products, (p: Product) => p.id == id)
      case None =>
      case Some(i) =>
    }
  }

  /** With unique product ids, each product ends up with its stock lowered
      by exactly the units of it the order holds, and nothing else about
      the catalogue changes. */
  lemma {:induction false} StockLoweredByOrderedUnits(products: seq<Product>, lines: seq<OrderItem>)
    requires UniqueIds(products)
    ensures var r := ApplyDecrements(products, lines);
      && UniqueIds(r)
      && forall k :: 0 <= k < |products| ==>
           r[k] == products[k].(stock := products[k].stock - OrderedQuantity(lines, products[k].id))
    decreases |lines|
  {
    if |lines| > 0 {
      var d := DecrementStock(products, lines[0].productId, lines[0].quantity);
      DecrementOne(products, lines[0].productId, lines[0].quantity);
      StockLoweredByOrderedUnits(d, lines[1..]);
    }
  }

  /** Every item is checked against the stock before the order, so one
      product listed twice can be sold beyond its stock: two single units
      of a product with one in stock are both accepted and leave the stock
      at -1. */
  lemma OversellWithRepeatedItem(db: Db, subject: Option<string>, user: User, p: Product, shipping: Shipping)
    requires Dependencies.GetCurrentActiveUser(db, subject) == Ok(user)
    requires db.products == [p] && p.stock == 1
    requires |shipping.name| >= 1 && |shipping.address| >= 1 && |shipping.city| >= 1 && |shipping.country| >= 1
    ensures var items := [OrderSchemas.OrderItemCreate(p.id, 1, p.price), OrderSchemas.OrderItemCreate(p.id, 1, p.price)];
      var r := CreateOrder(db, subject, OrderSchemas.OrderCreate(shipping, None, items), "ORD", 0);
      r.Ok? && r.value.0.products[0].stock == -1
  {
    var it := OrderSchemas.OrderItemCreate(p.id, 1, p.price);
    var items := [it, it];
    var req := OrderSchemas.OrderCreate(shipping, None, items);
    assert FindProduct(db, p.id) == Some(p);
    assert ItemOk(db, items[0]) && ItemOk(db, items[1]);
    assert OrderSchemas.ValidateOrderCreate(req) == [];
    PriceLinesOk(db, items);
    var lines := PriceLines(db, items).value;
    assert lines == [LineFor(p, it), LineFor(p, it)];
    assert OrderedQuantity(lines, p.id) == 2 by {
      assert lines[1..] == [LineFor(p, it)];
      assert lines[1..][1..] == [];
      assert OrderedQuantity(lines[1..][1..], p.id) == 0;
      assert OrderedQuantity(lines[1..], p.id) == 1;
    }
    StockLoweredByOrderedUnits(db.products, lines);
    var r := CreateOrder(db, subject, req, "ORD", 0);
    assert r.Ok?;
    assert r.value.1.items == lines;
  }

  /** The free-shipping threshold is strict: a subtotal of exactly 50 pays
      shipping. */
  lemma ShippingThreshold()
    ensures ShippingCost(50.0) == 10.0 && ShippingCost(50.01) == 0.0
  {
  }

  /** `GET /orders/`: the user's orders, newest first. */
  function NewerFirst(a: Order, b: Order): bool { a.createdAt >= b.createdAt }

  function GetMyOrders(db: Db, subject: Option<string>): (r: Result<seq<Order>>)
    ensures r.Ok? <==> Dependencies.GetCurrentActiveUser(db, subject).Ok?
    ensures r.Ok? ==>
      var uid := Dependencies.GetCurrentActiveUser(db, subject).value.id;
      multiset(r.value) == multiset(Seqs.Filter(db.orders, (o: Order) => o.userId == uid))
  {
    match Dependencies.GetCurrentActiveUser(db, subject)
    case Err(s, d) => Err(s, d)
    case Ok(user) => Ok(Sorting.Sort(Seqs.Filter(db.orders, (o: Order) => o.userId == user.id), NewerFirst))
  }

  /** The listing holds exactly the user's orders, each once per row, in
      non-increasing creation time. */
  lemma {:induction false} MyOrdersNewestFirst(db: Db, subject: Option<string>)
    requires GetMyOrders(db, subject).Ok?
    ensures var uid := Dependencies.GetCurrentActiveUser(db, subject).value.id;
      var orders := GetMyOrders(db, subject).value;
      && (forall o :: o in orders <==> o in db.orders && o.userId == uid)
      && forall i, j :: 0 <= i < j < |orders| ==> orders[i].createdAt >= orders[j].createdAt
  {
    var uid := Dependencies.GetCurrentActiveUser(db, subject).value.id;
    var mine := Seqs.Filter(db.orders, (o: Order) => o.userId == uid);
    assert Sorting.Total(NewerFirst) && Sorting.Transitive(NewerFirst);
    Sorting.SortSorted(mine, NewerFirst);
    var orders := GetMyOrders(db, subject).value;
    forall o ensures o in orders <==> o in mine {
      assert o in orders <==> o in multiset(orders);
      assert o in mine <==> o in multiset(mine);
    }
  }

  function OrderIndex(orders: seq<Order>, id: int): (r: Option<nat>)
    ensures r.None? <==> forall i :: 0 <= i < |orders| ==> orders[i].id != id
    ensures r.Some? ==> r.value < |orders| && orders[r.value].id == id
    ensures r.Some? ==> forall j :: 0 <= j < r.value ==> orders[j].id != id
  {
    Seqs.FindIndex(orders, (o: Order) => o.id == id)
  }

  /** `GET /orders/{id}`: 404 for an unknown order; 403 unless the caller
      owns it or is an administrator. */
  function GetOrder(db: Db, subject: Option<string>, orderId: int): (r: Result<Order>)
    ensures Dependencies.GetCurrentActiveUser(db, subject).Err? ==>
      r.Err? && r.status == Dependencies.GetCurrentActiveUser(db, subject).status
    ensures Dependencies.GetCurrentActiveUser(db, subject).Ok? && OrderIndex(db.orders, orderId).None? ==>
      r.Err? && r.status == NotFound
    ensures (&& Dependencies.GetCurrentActiveUser(db, subject).Ok? && OrderIndex(db.orders, orderId).Some?) ==>
      var u := Dependencies.GetCurrentActiveUser(db, subject).value;
      var o := db.orders[OrderIndex(db.orders, orderId).value];
      && (o.userId == u.id || u.isAdmin ==> r == Ok(o))
      && (o.userId != u.id && !u.isAdmin ==> r.Err? && r.status == Forbidden)
    ensures r.Ok? <==>
      && Dependencies.GetCurrentActiveUser(db, subject).Ok?
      && OrderIndex(db.orders, orderId).Some?
      && var u := Dependencies.GetCurrentActiveUser(db, subject).value;
      && (db.orders[OrderIndex(db.orders, orderId).value].userId == u.id || u.isAdmin)
    ensures r.Ok? ==> r.value.id == orderId && r.value in db.orders
  {
    match Dependencies.GetCurrentActiveUser(db, subject)
    case Err(s, d) => Err(s, d)
    case Ok(user) =>
      match OrderIndex(db.orders, orderId)
      case None => Err(NotFound, "Orden no encontrada")
      case Some(i) =>
        var o := db.orders[i];
        if o.userId != user.id && !user.isAdmin then Err(Forbidden, "No tienes permiso para ver esta orden")
        else Ok(o)
  }

  /** The sent fields written into the order; `paid_at` is stamped with
      `now` when the request sets the status to paid and the order has no
      payment time yet. */
  function ApplyOrderUpdate(o: Order, u: OrderSchemas.OrderUpdate, now: int): (r: Order)
    ensures r == o.(status := r.status, paymentId := r.paymentId, notes := r.notes, paidAt := r.paidAt)
    ensures u.status.Some? ==> r.status == u.status.value
    ensures u.status.None? ==> r.status == o.status
    ensures u.paymentId.Some? ==> r.paymentId == u.paymentId
    ensures u.paymentId.None? ==> r.paymentId == o.paymentId
    ensures u.notes.Some? ==> r.notes == u.notes
    ensures u.notes.None? ==> r.notes == o.notes
    ensures u.status == Some(Paid) && o.paidAt.None? ==> r.paidAt == Some(now)
    ensures o.paidAt.Some? ==> r.paidAt == o.paidAt
    ensures r.paidAt != o.paidAt <==> u.status == Some(Paid) && o.paidAt.None?
  {
    o.(status := if u.status.Some? then u.status.value else o.status,
       paymentId := if u.paymentId.Some? then u.paymentId else o.paymentId,
       notes := if u.notes.Some? then u.notes else o.notes,
       paidAt := if u.status == Some(Paid) && o.paidAt.None? then Some(now) else o.paidAt)
  }

  /** `PUT /orders/{id}`: administrators only; 404 for an unknown order;
      otherwise that order is updated and nothing else changes. */
  function UpdateOrder(db: Db, subject: Option<string>, orderId: int, u: OrderSchemas.OrderUpdate, now: int)
    : (r: Result<(Db, Order)>)
    ensures Dependencies.GetCurrentAdminUser(db, subject).Err? ==>
      r.Err? && r.status == Dependencies.GetCurrentAdminUser(db, subject).status
    ensures Dependencies.GetCurrentAdminUser(db, subject).Ok? && OrderIndex(db.orders, orderId).None? ==>
      r.Err? && r.status == NotFound
    ensures r.Ok? <==> Dependencies.GetCurrentAdminUser(db, subject).Ok? && OrderIndex(db.orders, orderId).Some?
    ensures r.Ok? ==>
      var i := OrderIndex(db.orders, orderId).value;
      && r.value.1 == ApplyOrderUpdate(db.orders[i], u, now)
      && r.value.0 == db.(orders := db.orders[i := r.value.1])
  {
    match Dependencies.GetCurrentAdminUser(db, subject)
    case Err(s, d) => Err(s, d)
    case Ok(_) =>
      match OrderIndex(db.orders, orderId)
      case None => Err(NotFound, "Orden no encontrada")
      case Some(i) =>
        var o := ApplyOrderUpdate(db.orders[i], u, now);
        Ok((db.(orders := db.orders[i := o]), o))
  }

  /** Marking an order paid leaves it with a payment time, and later
      updates, paid again or not, never move that time. */
  lemma PaymentTimeSetOnce(o: Order, u: OrderSchemas.OrderUpdate, v: OrderSchemas.OrderUpdate, t1: int, t2: int)
    requires u.status == Some(Paid)
    ensures ApplyOrderUpdate(o, u, t1).paidAt.Some?
    ensures ApplyOrderUpdate(ApplyOrderUpdate(o, u, t1), v, t2).paidAt == ApplyOrderUpdate(o, u, t1).paidAt
  {
  }

  /** An order already in the paid state but without a payment time gets
      none from an update that does not send the status again. */
  lemma PaidWithoutTimeStaysUntimed(o: Order, u: OrderSchemas.OrderUpdate, now: int)
    requires o.status == Paid && o.paidAt.None? && u.status.None?
    ensures ApplyOrderUpdate(o, u, now).status == Paid && ApplyOrderUpdate(o, u, now).paidAt.None?
  {
  }

  /** Sending the same update twice is sending it once: the second pass
      writes the same fields and the payment time is already set. */
  lemma UpdateIdempotent(o: Order, u: OrderSchemas.OrderUpdate, t1: int, t2: int)
    ensures ApplyOrderUpdate(ApplyOrderUpdate(o, u, t1), u, t2) == ApplyOrderUpdate(o, u, t1)
  {
  }

  /** No order id reaches the next one. */
  ghost predicate OrderIdsFresh(db: Db) {
    forall k :: 0 <= k < |db.orders| ==> db.orders[k].id < db.nextOrderId
  }

  /** A new order is read back by its creator, while another active user
      who is not an administrator is refused with 403. */
  lemma {:induction false} CreatorReadsOrderBack(db: Db, subject: Option<string>, other: Option<string>,
                                                 req: OrderSchemas.OrderCreate, orderNumber: string, now: int)
    requires OrderIdsFresh(db)
    requires CreateOrder(db, subject, req, orderNumber, now).Ok?
    ensures var (db', o) := CreateOrder(db, subject, req, orderNumber, now).value;
      && GetOrder(db', subject, o.id) == Ok(o)
      && OrderIdsFresh(db')
    ensures var (db', o) := CreateOrder(db, subject, req, orderNumber, now).value;
      var caller := Dependencies.GetCurrentActiveUser(db, other);
      (caller.Ok? && !caller.value.isAdmin && caller.value.id != o.userId) ==>
        GetOrder(db', other, o.id).Err? && GetOrder(db', other, o.id).status == Forbidden
  {
    var (db', o) := CreateOrder(db, subject, req, orderNumber, now).value;
    Dependencies.SameUsersSameCaller(db, db', subject);
    Dependencies.SameUsersSameCaller(db, db', other);
    AppendedOrderFound(db.orders, o);
    assert db'.orders[|db.orders|] == o;
  }

  /** An order whose id is above every stored one is found where it was
      appended. */
  lemma {:induction false} AppendedOrderFound(orders: seq<Order>, o: Order)
    requires forall k :: 0 <= k < |orders| ==> orders[k].id < o.id
    ensures OrderIndex(orders + [o], o.id) == Some(|orders|)
    ensures forall k :: 0 <= k < |orders| + 1 ==> (orders + [o])[k].id <= o.id
  {
    var s := orders + [o];
    assert forall k :: 0 <= k < |orders| ==> s[k] == orders[k];
    assert s[|orders|].id == o.id;
  }

  /** After an update, reading the order back by id gives the updated
      order, with the sent fields written and the rest kept. */
  lemma {:induction false} UpdateThenReadOrder(db: Db, subject: Option<string>, orderId: int,
                                               u: OrderSchemas.OrderUpdate, now: int)
    requires UpdateOrder(db, subject, orderId, u, now).Ok?
    ensures var (db', o) := UpdateOrder(db, subject, orderId, u, now).value;
      && GetOrder(db', subject, orderId) == Ok(o)
      && o.id == orderId
      && o.status == (if u.status.Some? then u.status.value else db.orders[OrderIndex(db.orders, orderId).value].status)
  {
    var (db', o) := UpdateOrder(db, subject, orderId, u, now).value;
    var i := OrderIndex(db.orders, orderId).value;
    Dependencies.SameUsersSameCaller(db, db', subject);
    ReplacedOrderFound(db.orders, i, o);
  }

  /** Replacing the order an id resolves to by one with the same id keeps
      the id resolving to that place. */
  lemma {:induction false} ReplacedOrderFound(orders: seq<Order>, i: nat, o: Order)
    requires i < |orders| && OrderIndex(orders, o.id) == Some(i)
    ensures OrderIndex(orders[i := o], o.id) == Some(i)
  {
    var s := orders[i := o];
    forall j | 0 <= j < i ensures s[j].id != o.id {
      assert s[j] == orders[j];
    }
    assert s[i].id == o.id;
  }
}
