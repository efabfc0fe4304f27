/** The product card of `ProductCard.jsx`: its stock badge and its one-unit
    add button, which feeds the cart store. */
module ProductCard {
  import opened Wrappers
  import opened CartStore
  import ProductDetail

  datatype Badge = NoBadge | LowStock(count: int) | SoldOutBadge

  /** `stock > 0 ? (stock < 10 && <low>) : <sold out>`. */
  function StockBadge(stock: Option<int>): (b: Badge)
    ensures stock.Some? && 0 < stock.value < 10 <==> b.LowStock?
    ensures b.LowStock? ==> b.count == stock.value
    ensures stock.Some? && stock.value >= 10 <==> b.NoBadge?
    ensures !(stock.Some? && stock.value > 0) <==> b.SoldOutBadge?
  {
    match stock
    case Some(s) => if s > 0 then (if s < 10 then LowStock(s) else NoBadge) else SoldOutBadge
    case None => SoldOutBadge
  }

  /** The add button is disabled only when `stock === 0`: a disabled
      button always shows the sold-out badge, but a negative or missing
      stock shows it with the button enabled. */
  function AddDisabled(stock: Option<int>): (disabled: bool)
    ensures disabled ==> StockBadge(stock).SoldOutBadge?
    ensures stock.None? || stock.value != 0 ==> !disabled
  {
    stock == Some(0)
  }

  /** `handleAddToCart`: always one unit. The product is then in the cart,
      on a new line only when it was not there before. */
  function AddOne(cart: Cart, product: Product): (r: Cart)
    ensures Has(r, product.id)
    ensures |r| == |cart| + (if Has(cart, product.id) then 0 else 1)
  {
    var r := AddToCart(cart, product, 1);
    assert !Has(cart, product.id) ==> r[|cart|].Id() == product.id;
    r
  }

  /** The card adds exactly one unit and never a duplicate line. */
  lemma AddOneAddsOneUnit(cart: Cart, product: Product)
    requires DistinctIds(cart)
    ensures ItemsCount(AddOne(cart, product)) == ItemsCount(cart) + 1
    ensures DistinctIds(AddOne(cart, product))
  {
    AddTotals(cart, product, 1);
    AddPreservesDistinct(cart, product, 1);
  }

  /** The card's badge and the product page's label classify stock alike. */
  lemma BadgeMatchesLabel(stock: Option<int>)
    ensures StockBadge(stock).SoldOutBadge? <==> ProductDetail.Label(stock).SoldOut?
    ensures StockBadge(stock).LowStock? <==>
            (ProductDetail.Label(stock).InStock? && ProductDetail.Label(stock).remaining.Some?)
    ensures StockBadge(stock) == NoBadge <==> ProductDetail.Label(stock) == ProductDetail.InStock(None)
  {
  }

  /** Negative stock shows "sold out" while the button stays enabled. */
  lemma NegativeStockEnabled(s: int)
    requires s < 0
    ensures StockBadge(Some(s)) == SoldOutBadge && !AddDisabled(Some(s))
  {
  }
}
