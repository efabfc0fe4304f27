/** The checkout page of `Checkout.jsx`: the empty-cart guard, the choice
    between the Mercado Pago flow and the other payment methods, the two
    payloads built from the cart lines, and what each outcome does to the
    cart. The page reads its lines from a store (`store/cartStore`) that is
    not part of this model; its lines are taken to have the shape of
    `CartStore.LineItem` and its `getTotal` to be `CartStore.Total`. */
module Checkout {
  import opened Wrappers
  import opened CartStore
  import Text

  /** The checkout form. */
  datatype Form = Form(
    firstName: string, lastName: string, email: string, phone: string,
    document: string, address: string, city: string, postalCode: string,
    paymentMethod: string, notes: string)

  datatype Handler = MercadoPagoSubmit | AlternativePayment

  /** `handleFormSubmit`: only the method "mercadopago" goes to Mercado Pago. */
  function Dispatch(paymentMethod: string): (h: Handler)
    ensures h == MercadoPagoSubmit <==> paymentMethod == "mercadopago"
  {
    if paymentMethod == "mercadopago" then MercadoPagoSubmit else AlternativePayment
  }

  // ---------------------------------------------------------------------
  // The Mercado Pago preference items.

  const PlaceholderPicture: string := "https://via.placeholder.com/500"

  datatype PreferenceItem = PreferenceItem(
    id: string, title: string, description: string, pictureUrl: string,
    categoryId: string, quantity: int, unitPrice: real, currencyId: string)

  /** `a || b` on an optional string: empty and absent are both falsy. */
  function OrElse(a: Option<string>, b: string): (r: string)
    ensures a.Some? && a.value != "" ==> r == a.value
    ensures !(a.Some? && a.value != "") ==> r == b
  {
    if a.Some? && a.value != "" then a.value else b
  }

  /** One line as a preference item: its id as decimal text that parses
      back to the product id, the line's quantity and unit price (so the
      item charges the line's subtotal), the name as title, a description
      and picture that fall back when empty, and the fixed category and
      currency. */
  function ToPreferenceItem(item: LineItem): (r: PreferenceItem)
    ensures Text.IsIntText(r.id) && Text.ParseInt(r.id) == item.Id()
    ensures r.unitPrice * r.quantity as real == item.Subtotal()
    ensures r.title == item.product.name && r.currencyId == "PEN" && r.categoryId == "electronics"
    ensures r.description == "" ==> item.product.name == ""
    ensures r.pictureUrl != ""
  {
    Text.IntToStringRoundTrip(item.Id());
    PreferenceItem(
      Text.IntToString(item.Id()),
      item.product.name,
      OrElse(item.product.description, item.product.name),
      OrElse(item.product.imageUrl, PlaceholderPicture),
      "electronics",
      item.quantity,
      item.product.price,
      "PEN")
  }

  /** One preference item per cart line, in order. */
  function PreferenceItems(items: seq<LineItem>): (r: seq<PreferenceItem>)
    ensures |r| == |items|
    ensures forall i :: 0 <= i < |items| ==> r[i] == ToPreferenceItem(items[i])
  {
    if |items| == 0 then [] else [ToPreferenceItem(items[0])] + PreferenceItems(items[1..])
  }

  /** What the provider charges: unit price times quantity, summed. */
  function PreferenceAmount(r: seq<PreferenceItem>): real {
    if |r| == 0 then 0.0 else r[0].unitPrice * r[0].quantity as real + PreferenceAmount(r[1..])
  }

  /** The preference charges exactly the cart total, and every item's id
      string names its line's product. */
  lemma {:induction false} PreferenceMatchesCart(items: seq<LineItem>)
    ensures PreferenceAmount(PreferenceItems(items)) == Total(items)
    ensures forall i :: 0 <= i < |items| ==>
      && Text.IsIntText(PreferenceItems(items)[i].id)
      && Text.ParseInt(PreferenceItems(items)[i].id) == items[i].Id()
      && PreferenceItems(items)[i].quantity == items[i].quantity
  {
    PreferenceAmountIsTotal(items);
    forall i | 0 <= i < |items|
      ensures Text.ParseInt(PreferenceItems(items)[i].id) == items[i].Id()
    {
      Text.IntToStringRoundTrip(items[i].Id());
    }
  }

  /** The amount half of `PreferenceMatchesCart`, by induction on the cart. */
  lemma {:induction false} PreferenceAmountIsTotal(items: seq<LineItem>)
    ensures PreferenceAmount(PreferenceItems(items)) == Total(items)
  {
    if |items| > 0 {
      PreferenceAmountIsTotal(items[1..]);
      var r := PreferenceItems(items);
      assert r[1..] == PreferenceItems(items[1..]);
      assert r[0].unitPrice * r[0].quantity as real == items[0].Subtotal();
    }
  }

  // ---------------------------------------------------------------------
  // The order posted by the other payment methods.

  datatype OrderLine = OrderLine(productId: int, name: string, quantity: int, price: real, subtotal: real)

  datatype Customer = Customer(
    name: string, email: string, phone: string, address: string, city: string, postalCode: string)

  datatype OrderPayload = OrderPayload(
    customer: Customer, items: seq<OrderLine>, total: real,
    paymentMethod: string, notes: string, state: string)

  function ToOrderLine(item: LineItem): (l: OrderLine)
    ensures l.productId == item.Id() && l.name == item.product.name
    ensures l.quantity == item.quantity && l.price == item.product.price
    ensures l.subtotal == l.price * l.quantity as real
  {
    OrderLine(item.Id(), item.product.name, item.quantity, item.product.price, item.Subtotal())
  }

  function OrderLines(items: seq<LineItem>): (r: seq<OrderLine>)
    ensures |r| == |items|
    ensures forall i :: 0 <= i < |items| ==> r[i] == ToOrderLine(items[i])
  {
    if |items| == 0 then [] else [ToOrderLine(items[0])] + OrderLines(items[1..])
  }

  function SumSubtotals(lines: seq<OrderLine>): real {
    if |lines| == 0 then 0.0 else lines[0].subtotal + SumSubtotals(lines[1..])
  }

  function BuildOrder(items: seq<LineItem>, form: Form): (o: OrderPayload)
    ensures |o.items| == |items| && o.total == Total(items) && o.state == "pendiente"
    ensures o.customer.name == form.firstName + " " + form.lastName
    ensures o.customer.email == form.email && o.customer.phone == form.phone
    ensures o.customer.address == form.address && o.customer.city == form.city
    ensures o.customer.postalCode == form.postalCode
    ensures o.items == OrderLines(items)
    ensures o.paymentMethod == form.paymentMethod && o.notes == form.notes
  {
    OrderPayload(
      Customer(form.firstName + " " + form.lastName, form.email, form.phone,
               form.address, form.city, form.postalCode),
      OrderLines(items), Total(items), form.paymentMethod, form.notes, "pendiente")
  }

  /** The line subtotals of a posted order add up to its total. */
  lemma {:induction false} OrderLinesSumToTotal(items: seq<LineItem>, form: Form)
    ensures SumSubtotals(BuildOrder(items, form).items) == BuildOrder(items, form).total
  {
    OrderLinesSum(items);
  }

  lemma {:induction false} OrderLinesSum(items: seq<LineItem>)
    ensures SumSubtotals(OrderLines(items)) == Total(items)
  {
    if |items| > 0 {
      OrderLinesSum(items[1..]);
      assert OrderLines(items)[1..] == OrderLines(items[1..]);
    }
  }

  // ---------------------------------------------------------------------
  // Outcomes. The backend's answer is a parameter.

  /** The answer to the preference request: a hosted-checkout link (which
      may be missing), or a failed request with an optional detail. */
  datatype PreferenceReply =
    | PreferenceCreated(initPoint: Option<string>, preferenceId: string)
    | PreferenceFailed(detail: Option<string>, message: string)

  /** What is saved under "pending_order" before leaving for the provider. */
  datatype PendingOrder = PendingOrder(items: seq<LineItem>, total: real, customer: Form, preferenceId: string)

  /** The page state after a submission. */
  datatype Outcome = Outcome(
    cart: seq<LineItem>,
    error: Option<string>,
    pendingOrder: Option<PendingOrder>,
    location: Option<string>,
    emptyCartAlert: bool)

  const MissingLinkMessage: string := "No se recibió el link de pago de Mercado Pago"
  const PaymentErrorMessage: string := "Error al procesar el pago"
  const OrderErrorMessage: string := "Error al crear la orden. Por favor intenta nuevamente."

  /** `handleSubmit`: an empty cart is refused before any request; a reply
      with a non-empty link saves the pending order and leaves for the link;
      a missing or empty link, being falsy, and a failed request report an
      error. The cart is never cleared here. */
  function SubmitMercadoPago(items: seq<LineItem>, form: Form, reply: PreferenceReply): (o: Outcome)
    ensures o.cart == items
    ensures |items| == 0 <==> o.emptyCartAlert
    ensures o.location.Some? <==>
      (|items| > 0 && reply.PreferenceCreated? && reply.initPoint.Some? && reply.initPoint.value != "")
    ensures o.location.Some? ==> o.location == reply.initPoint
    ensures o.pendingOrder.Some? <==> o.location.Some?
    ensures o.pendingOrder.Some? ==>
      o.pendingOrder.value == PendingOrder(items, Total(items), form, reply.preferenceId)
    ensures o.error.Some? <==> (|items| > 0 && o.location.None?)
    ensures |items| > 0 && reply.PreferenceCreated? && o.location.None? ==> o.error == Some(MissingLinkMessage)
  {
    if |items| == 0 then Outcome(items, None, None, None, true)
    else
      match reply
      case PreferenceCreated(Some(url), id) =>
        if url != "" then Outcome(items, None, Some(PendingOrder(items, Total(items), form, id)), Some(url), false)
        else Outcome(items, Some(MissingLinkMessage), None, None, false)
      case PreferenceCreated(None, _) =>
        Outcome(items, Some(MissingLinkMessage), None, None, false)
      case PreferenceFailed(detail, message) =>
        Outcome(items, Some(OrElse(detail, if message != "" then message else PaymentErrorMessage)), None, None, false)
  }

  /** `handleAlternativePayment`: the cart is cleared and the page goes
      home only after the order post succeeds; a failure keeps the cart. */
  function SubmitAlternative(items: seq<LineItem>, posted: bool): (o: Outcome)
    ensures posted ==> o.cart == [] && o.location == Some("/") && o.error.None?
    ensures !posted ==> o.cart == items && o.error == Some(OrderErrorMessage) && o.location.None?
    ensures o.pendingOrder.None? && !o.emptyCartAlert
  {
    if posted then Outcome([], None, None, Some("/"), false)
    else Outcome(items, Some(OrderErrorMessage), None, None, false)
  }

  /** Submitting the form: the handler the payment method selects. */
  function Submit(items: seq<LineItem>, form: Form, reply: PreferenceReply, posted: bool): (o: Outcome)
    ensures o.cart != items ==> form.paymentMethod != "mercadopago" && posted && o.cart == []
  {
    match Dispatch(form.paymentMethod)
    case MercadoPagoSubmit => SubmitMercadoPago(items, form, reply)
    case AlternativePayment => SubmitAlternative(items, posted)
  }
}
