/** The cart page of `Cart.jsx`: the quantity buttons that feed the cart
    store, the removal and clearing controls, and the order summary. */
module CartPage {
  import opened Wrappers
  import opened CartStore
  import Seqs

  /** `handleQuantityChange(id, current, change)`: the store is asked for
      the new quantity only when it stays positive. */
  function HandleQuantityChange(cart: Cart, id: int, current: int, change: int): (r: Cart)
    ensures current + change > 0 ==> r == UpdateQuantity(cart, id, current + change)
    ensures current + change <= 0 ==> r == cart
  {
    if current + change > 0 then UpdateQuantity(cart, id, current + change) else cart
  }

  /** `item.stock || 100`: a missing or zero stock caps at 100. */
  function IncrementCap(stock: Option<int>): (cap: int)
    ensures stock.None? || stock == Some(0) ==> cap == 100
    ensures stock.Some? && stock.value != 0 ==> cap == stock.value
  {
    match stock
    case Some(s) => if s != 0 then s else 100
    case None => 100
  }

  /** The increment button is disabled once the quantity reaches the cap:
      the stock when it is set and non-zero, 100 otherwise. */
  function IncrementDisabled(item: LineItem): (disabled: bool)
    ensures item.product.stock.None? || item.product.stock == Some(0) ==> (disabled <==> item.quantity >= 100)
    ensures item.product.stock.Some? && item.product.stock.value != 0 ==>
      (disabled <==> item.quantity >= item.product.stock.value)
  {
    item.quantity >= IncrementCap(item.product.stock)
  }

  /** A control of the page acting on line `line`, or on the whole cart. */
  datatype Control =
    | Increment(line: nat)
    | Decrement(line: nat)
    | Remove(line: nat)
    | Clear(confirmed: bool)

  predicate ValidControl(cart: Cart, c: Control) {
    !c.Clear? ==> c.line < |cart|
  }

  /** The cart after pressing `c`. A disabled button fires nothing, and
      clearing happens only when the confirmation dialog is accepted. */
  function Press(cart: Cart, c: Control): (r: Cart)
    requires ValidControl(cart, c)
    ensures c.Clear? && !c.confirmed ==> r == cart
    ensures c.Clear? && c.confirmed ==> r == []
    ensures c.Remove? ==> r == RemoveFromCart(cart, cart[c.line].Id())
    ensures c.Increment? && IncrementDisabled(cart[c.line]) ==> r == cart
    ensures (c.Increment? && !IncrementDisabled(cart[c.line]) && cart[c.line].quantity >= 0) ==>
      r == UpdateQuantity(cart, cart[c.line].Id(), cart[c.line].quantity + 1)
    ensures c.Decrement? && cart[c.line].quantity > 1 ==>
      r == UpdateQuantity(cart, cart[c.line].Id(), cart[c.line].quantity - 1)
    ensures c.Decrement? && cart[c.line].quantity <= 1 ==> r == cart
  {
    match c
    case Increment(i) =>
      if IncrementDisabled(cart[i]) then cart
      else HandleQuantityChange(cart, cart[i].Id(), cart[i].quantity, 1)
    case Decrement(i) => HandleQuantityChange(cart, cart[i].Id(), cart[i].quantity, -1)
    case Remove(i) => RemoveFromCart(cart, cart[i].Id())
    case Clear(confirmed) => if confirmed then ClearCart(cart) else cart
  }

  /** Pressing "-" on a line of quantity 1 changes nothing: it does not
      remove the line. */
  lemma DecrementAtOneIsNoOp(cart: Cart, i: nat)
    requires i < |cart| && cart[i].quantity == 1
    ensures Press(cart, Decrement(i)) == cart
  {
  }

  /** Every line's quantity lies between 1 and its increment cap. */
  ghost predicate WithinCaps(cart: Cart) {
    forall i :: 0 <= i < |cart| ==> 1 <= cart[i].quantity <= IncrementCap(cart[i].product.stock)
  }

  /** The quantity buttons never remove a line, never take a quantity
      below 1 and never raise one above its cap. */
  lemma ButtonsKeepWithinCaps(cart: Cart, c: Control)
    requires ValidControl(cart, c) && (c.Increment? || c.Decrement?)
    requires DistinctIds(cart) && WithinCaps(cart)
    ensures |Press(cart, c)| == |cart|
    ensures WithinCaps(Press(cart, c))
  {
  }

  /** The summary panel: the number of distinct lines, the subtotal, a
      free shipping line and the total. */
  datatype Summary = Summary(lines: nat, subtotal: real, shipping: real, total: real)

  /** The page: an empty-cart notice, or the lines and their summary. */
  datatype View = EmptyNotice | Lines(summary: Summary)

  function Render(cart: Cart): (v: View)
    ensures |cart| == 0 <==> v.EmptyNotice?
    ensures v.Lines? ==> v.summary.lines == |cart| && v.summary.shipping == 0.0
    ensures v.Lines? ==> v.summary.subtotal == v.summary.total == Total(cart)
  {
    if |cart| == 0 then EmptyNotice
    else Lines(Summary(|cart|, Total(cart), 0.0, Total(cart)))
  }

  /** The summary counts lines, not units: with positive quantities its
      count is at most the number of units, and equal exactly when every
      line holds one unit. */
  lemma SummaryCountsLines(cart: Cart)
    requires |cart| > 0 && AllPositive(cart)
    ensures Render(cart).summary.lines <= ItemsCount(cart)
    ensures Render(cart).summary.lines == ItemsCount(cart) <==> forall i :: 0 <= i < |cart| ==> cart[i].quantity == 1
  {
    OneUnitPerLine(cart);
  }

  /** Pressing a control and rendering agree with the store: removing a
      present product drops one line and its subtotal from the summary,
      and a confirmed clear shows the empty-cart notice. */
  lemma {:induction false} RenderAfterRemove(cart: Cart, i: nat)
    requires i < |cart| && DistinctIds(cart)
    ensures var after := Press(cart, Remove(i));
      && (|cart| == 1 <==> Render(after).EmptyNotice?)
      && |after| == |cart| - 1
      && Total(after) == Total(cart) - cart[i].Subtotal()
  {
    RemovePresentLine(cart, i);
    TotalWithout(cart, i);
  }

  /** With distinct ids, removing a line's product takes out exactly that line. */
  lemma {:induction false} RemovePresentLine(cart: Cart, i: nat)
    requires i < |cart| && DistinctIds(cart)
    ensures RemoveFromCart(cart, cart[i].Id()) == cart[..i] + cart[i + 1..]
  {
    var id := cart[i].Id();
    var pre, post := cart[..i], cart[i + 1..];
    var mid := [cart[i]] + post;
    OthersLackId(cart, i);
    assert cart == pre + mid;
    RemoveAppend(pre, mid, id);
    RemoveAppend([cart[i]], post, id);
    var dropped := RemoveFromCart([cart[i]], id);
    assert dropped == [] by {
      assert !Has(dropped, id);
    }
    assert RemoveFromCart(pre, id) == pre;
    assert RemoveFromCart(post, id) == post;
    assert RemoveFromCart(mid, id) == post;
  }

  /** With distinct ids, no line but line `i` has its id. */
  lemma {:induction false} OthersLackId(cart: Cart, i: nat)
    requires i < |cart| && DistinctIds(cart)
    ensures !Has(cart[..i], cart[i].Id()) && !Has(cart[i + 1..], cart[i].Id())
  {
    var id, pre, post := cart[i].Id(), cart[..i], cart[i + 1..];
    forall j | 0 <= j < |pre| ensures pre[j].Id() != id {
      assert pre[j] == cart[j];
    }
    forall j | 0 <= j < |post| ensures post[j].Id() != id {
      assert post[j] == cart[i + 1 + j];
    }
  }

  /** The total without line `i` is the total less that line's subtotal. */
  lemma {:induction false} TotalWithout(cart: Cart, i: nat)
    requires i < |cart|
    ensures Total(cart[..i] + cart[i + 1..]) == Total(cart) - cart[i].Subtotal()
  {
    assert cart == cart[..i] + ([cart[i]] + cart[i + 1..]);
    TotalAppend(cart[..i], [cart[i]] + cart[i + 1..]);
    TotalAppend([cart[i]], cart[i + 1..]);
    TotalAppend(cart[..i], cart[i + 1..]);
    assert Total([cart[i]]) == cart[i].Subtotal() by {
      assert [cart[i]][1..] == [];
    }
  }

  lemma ClearThenRender(cart: Cart)
    ensures Render(Press(cart, Clear(true))) == EmptyNotice
    ensures Render(Press(cart, Clear(false))) == Render(cart)
  {
  }
}
