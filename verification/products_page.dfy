/** The listing page of `Products.jsx`: the query parameters it sends, the
    client-side sort it applies to the page of products it receives, and
    the de-duplicated category list. */
module ProductsPage {
  import opened Wrappers
  import opened CartStore
  import Sorting

  /** Query parameters: each is sent only when its input is truthy. */
  datatype QueryParams = QueryParams(search: Option<string>, categoryId: Option<string>)

  function BuildParams(search: string, selectedCategory: string): (p: QueryParams)
    ensures p.search.Some? <==> search != ""
    ensures p.search.Some? ==> p.search.value == search
    ensures p.categoryId.Some? <==> selectedCategory != ""
    ensures p.categoryId.Some? ==> p.categoryId.value == selectedCategory
  {
    QueryParams(
      if search != "" then Some(search) else None,
      if selectedCategory != "" then Some(selectedCategory) else None)
  }

  datatype SortMode = PriceAsc | PriceDesc | ByName | ServerOrder

  /** The `sortBy` select value; anything unrecognised keeps server order. */
  function ParseSortMode(sortBy: string): (m: SortMode)
    ensures m == ServerOrder <==> sortBy !in {"price_asc", "price_desc", "name"}
  {
    if sortBy == "price_asc" then PriceAsc
    else if sortBy == "price_desc" then PriceDesc
    else if sortBy == "name" then ByName
    else ServerOrder
  }

  /** Code-point lexicographic order, standing for `localeCompare`: the
      first differing character decides, and a prefix sorts first. */
  function NameLeq(a: string, b: string): (r: bool)
    ensures |a| <= |b| && a == b[..|a|] ==> r
    ensures |a| > 0 && |b| == 0 ==> !r
  {
    if |a| == 0 then true
    else if |b| == 0 then false
    else if a[0] != b[0] then a[0] < b[0]
    else NameLeq(a[1..], b[1..])
  }

  predicate PriceAscLeq(a: Product, b: Product) { a.price <= b.price }
  predicate PriceDescLeq(a: Product, b: Product) { a.price >= b.price }
  predicate NameOrderLeq(a: Product, b: Product) { NameLeq(a.name, b.name) }

  /** The comparator each mode sorts by. */
  function Order(mode: SortMode): (Product, Product) -> bool
    requires mode != ServerOrder
  {
    match mode
    case PriceAsc => PriceAscLeq
    case PriceDesc => PriceDescLeq
    case ByName => NameOrderLeq
  }

  /** The products in the order the page displays them. */
  function SortProducts(products: seq<Product>, sortBy: string): (r: seq<Product>)
    ensures multiset(r) == multiset(products)
    ensures ParseSortMode(sortBy) == ServerOrder ==> r == products
  {
    var mode := ParseSortMode(sortBy);
    if mode == ServerOrder then products else Sorting.Sort(products, Order(mode))
  }

  lemma {:induction false} NameLeqTotal(a: string, b: string)
    ensures NameLeq(a, b) || NameLeq(b, a)
  {
    if |a| > 0 && |b| > 0 && a[0] == b[0] {
      NameLeqTotal(a[1..], b[1..]);
    }
  }

  /** Two names each at most the other are the same name. */
  lemma {:induction false} NameLeqAntisymmetric(a: string, b: string)
    requires NameLeq(a, b) && NameLeq(b, a)
    ensures a == b
  {
    if |a| > 0 && |b| > 0 {
      NameLeqAntisymmetric(a[1..], b[1..]);
      assert a == [a[0]] + a[1..] && b == [b[0]] + b[1..];
    }
  }

  lemma {:induction false} NameLeqTransitive(a: string, b: string, c: string)
    requires NameLeq(a, b) && NameLeq(b, c)
    ensures NameLeq(a, c)
  {
    if |a| > 0 && |b| > 0 && |c| > 0 && a[0] == b[0] && b[0] == c[0] {
      NameLeqTransitive(a[1..], b[1..], c[1..]);
    }
  }

  /** Every sorting mode compares as a total preorder. */
  lemma OrderIsTotalPreorder(mode: SortMode)
    requires mode != ServerOrder
    ensures Sorting.Total(Order(mode)) && Sorting.Transitive(Order(mode))
  {
    if mode == ByName {
      forall a: Product, b: Product
        ensures NameOrderLeq(a, b) || NameOrderLeq(b, a)
      {
        NameLeqTotal(a.name, b.name);
      }
      forall a: Product, b: Product, c: Product | NameOrderLeq(a, b) && NameOrderLeq(b, c)
        ensures NameOrderLeq(a, c)
      {
        NameLeqTransitive(a.name, b.name, c.name);
      }
    }
  }

  /** `price_asc` yields a permutation in non-decreasing price order. */
  lemma SortPriceAsc(products: seq<Product>)
    ensures multiset(SortProducts(products, "price_asc")) == multiset(products)
    ensures forall i, j :: 0 <= i < j < |SortProducts(products, "price_asc")| ==>
      SortProducts(products, "price_asc")[i].price <= SortProducts(products, "price_asc")[j].price
  {
    OrderIsTotalPreorder(PriceAsc);
    Sorting.SortSorted(products, Order(PriceAsc));
  }

  /** `price_desc` yields a permutation in non-increasing price order. */
  lemma SortPriceDesc(products: seq<Product>)
    ensures multiset(SortProducts(products, "price_desc")) == multiset(products)
    ensures forall i, j :: 0 <= i < j < |SortProducts(products, "price_desc")| ==>
      SortProducts(products, "price_desc")[i].price >= SortProducts(products, "price_desc")[j].price
  {
    OrderIsTotalPreorder(PriceDesc);
    Sorting.SortSorted(products, Order(PriceDesc));
  }

  /** `name` yields a permutation ordered by name. */
  lemma SortByName(products: seq<Product>)
    ensures multiset(SortProducts(products, "name")) == multiset(products)
    ensures forall i, j :: 0 <= i < j < |SortProducts(products, "name")| ==>
      NameLeq(SortProducts(products, "name")[i].name, SortProducts(products, "name")[j].name)
  {
    OrderIsTotalPreorder(ByName);
    Sorting.SortSorted(products, Order(ByName));
  }

  // ---------------------------------------------------------------------
  // Category list: `[...new Set(products.map(p => p.category_id))]`.

  /** Reference definition: a JavaScript `Set` keeps first insertions in
      order and ignores repeats. */
  function Dedup<T(==)>(s: seq<T>): seq<T> {
    if |s| == 0 then []
    else
      var d := Dedup(s[..|s| - 1]);
      if s[|s| - 1] in d then d else d + [s[|s| - 1]]
  }

  /** Position of the first occurrence of `x` in `s`. */
  function FirstIndex<T(==)>(s: seq<T>, x: T): (i: nat)
    requires x in s
    ensures i < |s| && s[i] == x
    ensures forall j :: 0 <= j < i ==> s[j] != x
  {
    if s[0] == x then 0 else 1 + FirstIndex(s[1..], x)
  }

  lemma FirstIndexPrefix<T>(s: seq<T>, x: T, n: nat)
    requires n <= |s| && x in s[..n]
    ensures x in s && FirstIndex(s, x) == FirstIndex(s[..n], x)
  {
    var k := FirstIndex(s[..n], x);
    var m := FirstIndex(s, x);
    assert s[k] == s[..n][k];
    assert m <= k;
    assert s[..n][m] == s[m];
  }

  /** The de-duplicated list holds exactly the elements of the input. */
  lemma {:induction false} DedupMembers<T>(s: seq<T>)
    ensures forall x :: x in Dedup(s) <==> x in s
  {
    if |s| > 0 {
      DedupMembers(s[..|s| - 1]);
      assert s == s[..|s| - 1] + [s[|s| - 1]];
    }
  }

  lemma DedupPrefixElement<T>(p: seq<T>, x: T, k: nat)
    requires k < |Dedup(p)|
    ensures Dedup(p)[k] in p && Dedup(p)[k] in p + [x]
    ensures FirstIndex(p + [x], Dedup(p)[k]) == FirstIndex(p, Dedup(p)[k]) < |p|
  {
    DedupMembers(p);
    var y := Dedup(p)[k];
    assert y in Dedup(p);
    assert (p + [x])[..|p|] == p;
    FirstIndexPrefix(p + [x], y, |p|);
  }

  /** The de-duplicated list holds every element exactly once, in order of
      first occurrence. */
  lemma {:induction false} DedupSpec<T>(s: seq<T>)
    ensures forall x :: x in Dedup(s) <==> x in s
    ensures forall i, j :: 0 <= i < j < |Dedup(s)| ==> Dedup(s)[i] != Dedup(s)[j]
    ensures forall i, j :: 0 <= i < j < |Dedup(s)| ==>
      Dedup(s)[i] in s && Dedup(s)[j] in s && FirstIndex(s, Dedup(s)[i]) < FirstIndex(s, Dedup(s)[j])
  {
    DedupMembers(s);
    DedupOrdered(s);
    var d := Dedup(s);
    assert InFirstOccurrenceOrder(s, d);
    forall i, j | 0 <= i < j < |d|
      ensures d[i] in s && d[j] in s && FirstIndex(s, d[i]) < FirstIndex(s, d[j])
      ensures d[i] != d[j]
    {
    }
  }

  /** The elements of `d` occur in `s`, in order of first occurrence. */
  ghost predicate InFirstOccurrenceOrder<T>(s: seq<T>, d: seq<T>) {
    forall i, j :: 0 <= i < j < |d| ==>
      d[i] in s && d[j] in s && FirstIndex(s, d[i]) < FirstIndex(s, d[j])
  }

  /** The ordering half of `DedupSpec`, by induction on the last element. */
  lemma {:induction false} DedupOrdered<T>(s: seq<T>)
    ensures InFirstOccurrenceOrder(s, Dedup(s))
  {
    if |s| > 0 {
      var p := s[..|s| - 1];
      var x := s[|s| - 1];
      DedupOrdered(p);
      DedupMembers(p);
      assert s == p + [x];
      var dp := Dedup(p);
      forall k | 0 <= k < |dp|
        ensures dp[k] in s && FirstIndex(s, dp[k]) == FirstIndex(p, dp[k]) < |p|
      {
        DedupPrefixElement(p, x, k);
      }
      var d := Dedup(s);
      if x !in dp {
        assert FirstIndex(s, x) == |s| - 1;
        assert d == dp + [x];
      } else {
        assert d == dp;
      }
      forall i, j | 0 <= i < j < |d|
        ensures d[i] in s && d[j] in s && FirstIndex(s, d[i]) < FirstIndex(s, d[j])
      {
        assert d[i] == dp[i];
        if j < |dp| {
          assert d[j] == dp[j];
        }
      }
    }
  }

  /** `fetchCategories`: the category ids in first-occurrence order. */
  method UniqueCategories(products: seq<Product>) returns (categories: seq<Option<int>>)
    ensures categories == Dedup(seq(|products|, i requires 0 <= i < |products| => products[i].categoryId))
  {
    var ids := seq(|products|, i requires 0 <= i < |products| => products[i].categoryId);
    categories := [];
    var seen: set<Option<int>> := {};
    for n := 0 to |ids|
      invariant categories == Dedup(ids[..n])
      invariant seen == set c | c in categories
    {
      assert ids[..n + 1][..n] == ids[..n];
      if ids[n] !in seen {
        categories := categories + [ids[n]];
        seen := seen + {ids[n]};
      }
    }
    assert ids[..|ids|] == ids;
  }

  /** Every product's category appears in the list exactly once. */
  lemma CategoriesOncePerProduct(products: seq<Product>, k: nat)
    requires k < |products|
    ensures var cats := Dedup(seq(|products|, i requires 0 <= i < |products| => products[i].categoryId));
      products[k].categoryId in cats &&
      forall i, j :: 0 <= i < j < |cats| ==> cats[i] != cats[j]
  {
    var ids := seq(|products|, i requires 0 <= i < |products| => products[i].categoryId);
    assert ids[k] == products[k].categoryId;
    DedupSpec(ids);
  }
}
