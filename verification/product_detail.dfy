/** The product page of `ProductDetail.jsx`: the quantity selector, the
    stock label and the add / buy-now buttons. The page talks to a second
    cart store (`store/cartStore`) that is not part of this model, so its
    calls are recorded as effects rather than applied. */
module ProductDetail {
  import opened Wrappers
  import opened CartStore

  function Max(a: int, b: int): int { if a >= b then a else b }
  function Min(a: int, b: int): int { if a <= b then a else b }

  /** The "-" button: `Math.max(1, quantity - 1)`. */
  function Decrement(quantity: int): (q: int)
    ensures q >= 1
    ensures q <= Max(quantity, 1)
    ensures quantity >= 2 ==> q == quantity - 1
    ensures quantity <= 1 ==> q == 1
  {
    Max(1, quantity - 1)
  }

  /** The "+" button: `Math.min(stock, quantity + 1)`. */
  function Increment(quantity: int, stock: int): (q: int)
    ensures q <= stock
    ensures q <= quantity + 1
    ensures quantity < stock ==> q == quantity + 1
    ensures quantity >= stock ==> q == stock
  {
    Min(stock, quantity + 1)
  }

  /** The typed input: `Math.max(1, Math.min(stock, parseInt(text) || 1))`.
      `parsed` is the result of `parseInt`, `None` for NaN; NaN and 0 are
      both falsy and become 1. */
  function TypedQuantity(parsed: Option<int>, stock: int): (q: int)
    ensures q >= 1
    ensures stock >= 1 ==> q <= stock
    ensures parsed.Some? && 1 <= parsed.value <= stock ==> q == parsed.value
    ensures parsed.None? || parsed == Some(0) ==> q == 1
    ensures stock >= 1 && parsed.Some? && parsed.value > stock ==> q == stock
    ensures parsed.Some? && parsed.value < 0 ==> q == 1
    ensures stock <= 0 ==> q == 1
  {
    var n := match parsed
      case Some(v) => if v != 0 then v else 1
      case None => 1;
    Max(1, Min(stock, n))
  }

  /** The selector is rendered only when `product.stock > 0`: exactly
      when the label reads in stock. */
  function SelectorShown(stock: Option<int>): (shown: bool)
    ensures shown <==> Label(stock).InStock?
  {
    stock.Some? && stock.value > 0
  }

  /** The buy and add buttons are disabled only when `stock === 0`: a
      disabled button always sits under a sold-out label, but a negative or
      missing stock reads sold out with the buttons enabled. */
  function ActionsDisabled(stock: Option<int>): (disabled: bool)
    ensures disabled ==> Label(stock) == SoldOut && !SelectorShown(stock)
    ensures stock.None? || stock.value != 0 ==> !disabled
  {
    stock == Some(0)
  }

  /** Every way the selector can change the quantity keeps it within
      `[1, stock]`, starting from the initial 1. */
  lemma SelectorKeepsRange(quantity: int, stock: Option<int>, parsed: Option<int>)
    requires SelectorShown(stock)
    requires 1 <= quantity <= stock.value
    ensures 1 <= Decrement(quantity) <= stock.value
    ensures 1 <= Increment(quantity, stock.value) <= stock.value
    ensures 1 <= TypedQuantity(parsed, stock.value) <= stock.value
  {
  }

  /** Out of range, "+" still lands at most on the stock, while "-" alone
      could leave a quantity above it. */
  lemma IncrementClampsDown(quantity: int, stock: int)
    requires quantity > stock
    ensures Increment(quantity, stock) == stock
    ensures Decrement(quantity) == quantity - 1 || quantity <= 1
  {
  }

  /** The stock label. */
  datatype StockLabel = InStock(remaining: Option<int>) | SoldOut

  function Label(stock: Option<int>): (l: StockLabel)
    ensures l.SoldOut? <==> !(stock.Some? && stock.value > 0)
    ensures l.InStock? ==> (l.remaining.Some? <==> stock.value < 10)
    ensures l.InStock? && l.remaining.Some? ==> l.remaining.value == stock.value
  {
    match stock
    case Some(s) =>
      if s > 0 then InStock(if s < 10 then Some(s) else None) else SoldOut
    case None => SoldOut
  }

  /** A negative stock reads as sold out, yet its buttons stay enabled. */
  lemma NegativeStockStaysEnabled(s: int)
    requires s < 0
    ensures Label(Some(s)) == SoldOut && !ActionsDisabled(Some(s))
    ensures !SelectorShown(Some(s))
  {
  }

  /** What a button press asks of the outside world. */
  datatype Effect =
    | AddItem(product: Product, quantity: int)  // `addItem` of the unseen store
    | Notify                                    // the confirmation alert
    | Navigate(path: string)

  /** `handleAddToCart`: nothing until the product has loaded. */
  function HandleAddToCart(product: Option<Product>, quantity: int): (effects: seq<Effect>)
    ensures product.None? <==> effects == []
    ensures product.Some? ==> effects[0] == AddItem(product.value, quantity) && Navigate("/checkout") !in effects
  {
    match product
    case Some(p) => [AddItem(p, quantity), Notify]
    case None => []
  }

  /** `handleBuyNow`: the same store call, then the checkout page. */
  function HandleBuyNow(product: Option<Product>, quantity: int): (effects: seq<Effect>)
    ensures product.None? <==> effects == []
    ensures product.Some? ==> effects[0] == AddItem(product.value, quantity)
    ensures product.Some? ==> effects[|effects| - 1] == Navigate("/checkout")
  {
    match product
    case Some(p) => [AddItem(p, quantity), Navigate("/checkout")]
    case None => []
  }

  /** Both buttons add the same product with the same selected quantity. */
  lemma AddAndBuyAgree(product: Option<Product>, quantity: int)
    ensures HandleAddToCart(product, quantity) == [] <==> HandleBuyNow(product, quantity) == []
    ensures product.Some? ==> HandleAddToCart(product, quantity)[0] == HandleBuyNow(product, quantity)[0]
  {
  }
}
