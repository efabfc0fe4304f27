/** The endpoints of `api/routes/products.py`: the filtered, paginated
    listing, lookups by id and by slug, and the administrator-only writes.
    The name search (`ilike '%search%'`) is the function value
    `nameMatches(name, search)`: its wildcards and case folding belong to
    the database and are not part of this model. */
module ProductRoutes {
  import opened Wrappers
  import opened Http
  import opened Models
  import Seqs
  import Text
  import ProductSchemas
  import Dependencies

  datatype ProductFilter = ProductFilter(
    search: Option<string>, categoryId: Option<int>, isActive: Option<bool>, isFeatured: Option<bool>)

  const NoFilter := ProductFilter(None, None, None, None)

  /** The listing's filters. `search` and `category_id` apply only when
      truthy, so an empty search and category 0 filter nothing; the two
      flags apply whenever they are given. */
  predicate Matches(p: Product, f: ProductFilter, nameMatches: (string, string) -> bool) {
    && (f.search.None? || f.search.value == "" || nameMatches(p.name, f.search.value))
    && (f.categoryId.None? || f.categoryId.value == 0 || p.categoryId == Some(f.categoryId.value))
    && (f.isActive.None? || p.isActive == f.isActive.value)
    && (f.isFeatured.None? || p.isFeatured == f.isFeatured.value)
  }

  /** Every product that passes the filters, in table order. */
  function Matching(db: Db, f: ProductFilter, nameMatches: (string, string) -> bool): (m: seq<Product>)
    ensures forall p :: p in m <==> p in db.products && Matches(p, f, nameMatches)
  {
    Seqs.Filter(db.products, (p: Product) => Matches(p, f, nameMatches))
  }

  /** `ProductList`. */
  datatype ProductList = ProductList(products: seq<Product>, total: int, page: int, pages: int)

  /** `(total + limit - 1) // limit`: the least number of pages of `limit`
      that holds every match, and 0 exactly when nothing matches. */
  function PageCount(total: nat, limit: int): (pages: int)
    requires limit >= 1
    ensures pages >= 0
    ensures total == 0 <==> pages == 0
    ensures total <= pages * limit
    ensures total > 0 ==> (pages - 1) * limit < total
  {
    CeilingDivision(total, limit);
    (total + limit - 1) / limit
  }

  function Min(a: int, b: int): int { if a <= b then a else b }

  /** `GET /products/`: `skip >= 0` and `1 <= limit <= 100` or 422; then the
      window of at most `limit` matching products starting at `skip`, the
      number of matches, the page number and the page count. */
  function GetProducts(db: Db, skip: int, limit: int, f: ProductFilter,
                       nameMatches: (string, string) -> bool): (r: Result<ProductList>)
    ensures r.Ok? <==> skip >= 0 && 1 <= limit <= 100
    ensures r.Err? ==> r.status == Unprocessable
    ensures r.Ok? ==>
      var m := Matching(db, f, nameMatches);
      && r.value.total == |m|
      && |r.value.products| == (if skip >= |m| then 0 else Min(limit, |m| - skip))
      && (forall i :: 0 <= i < |r.value.products| ==> r.value.products[i] == m[skip + i])
      && r.value.page == skip / limit + 1
      && r.value.pages == PageCount(|m|, limit)
  {
    if skip < 0 then Err(Unprocessable, "skip")
    else if !(1 <= limit <= 100) then Err(Unprocessable, "limit")
    else
      var m := Matching(db, f, nameMatches);
      var window := if skip >= |m| then [] else m[skip..Min(skip + limit, |m|)];
      Ok(ProductList(window, |m|, skip / limit + 1, PageCount(|m|, limit)))
  }

  lemma MulMonotone(a: int, b: int, c: int)
    requires a <= b && c >= 0
    ensures a * c <= b * c
  {
  }

  /** Rounding the quotient up: the arithmetic behind `PageCount`. */
  lemma {:induction false} CeilingDivision(total: nat, limit: int)
    requires limit >= 1
    ensures var q := (total + limit - 1) / limit;
      && q >= 0
      && (total == 0 <==> q == 0)
      && total <= q * limit
      && (total > 0 ==> (q - 1) * limit < total)
  {
    var n := total + limit - 1;
    var q := n / limit;
    var r := n % limit;
    assert n == q * limit + r && 0 <= r < limit;
    assert q * limit == total + limit - 1 - r;
    assert (q - 1) * limit == q * limit - limit;
    if total == 0 {
      assert q * limit < limit;
      if q >= 1 { MulMonotone(1, q, limit); }
    } else {
      assert q * limit >= limit;
      if q <= 0 { MulMonotone(q, 0, limit); }
    }
  }

  lemma MulBetweenIsZero(d: int, l: int)
    requires l >= 1 && -l < d * l < l
    ensures d == 0
  {
    if d >= 1 {
      MulMonotone(1, d, l);
    } else if d <= -1 {
      MulMonotone(d, -1, l);
    }
  }

  /** Euclidean division has one quotient. */
  lemma DivUnique(x: int, l: int, q: int)
    requires l >= 1 && q * l <= x < q * l + l
    ensures x / l == q
  {
    var q' := x / l;
    assert x == q' * l + x % l;
    assert (q - q') * l == q * l - q' * l;
    MulBetweenIsZero(q - q', l);
  }

  /** The page that starts at the multiple of `limit` at or below `j`. */
  lemma PageStart(j: nat, limit: int)
    requires limit >= 1
    ensures 0 <= (j / limit) * limit <= j
    ensures j - (j / limit) * limit == j % limit < limit
    ensures ((j / limit) * limit) / limit == j / limit
  {
    var k := j / limit;
    MulMonotone(0, k, limit);
    DivUnique(k * limit, limit, k);
  }

  /** A position inside the matches lies on a page below the page count. */
  lemma {:induction false} PageOfPosition(j: nat, total: nat, limit: int)
    requires limit >= 1 && j < total
    ensures j / limit < PageCount(total, limit)
  {
    var k := j / limit;
    var pages := PageCount(total, limit);
    assert k * limit <= j;
    if k >= pages { MulMonotone(pages, k, limit); }
  }

  /** Every match appears on exactly the page the arithmetic predicts: the
      match at position `j` is item `j % limit` of the page requested with
      `skip = (j / limit) * limit`, whose page number does not exceed the
      page count. */
  lemma {:induction false} EveryMatchIsListed(db: Db, f: ProductFilter, nameMatches: (string, string) -> bool,
                                              limit: int, j: int)
    requires 1 <= limit <= 100
    requires 0 <= j < |Matching(db, f, nameMatches)|
    ensures var r := GetProducts(db, (j / limit) * limit, limit, f, nameMatches);
      && r.Ok?
      && j % limit < |r.value.products|
      && r.value.products[j % limit] == Matching(db, f, nameMatches)[j]
      && r.value.page == j / limit + 1 <= r.value.pages
  {
    var m := Matching(db, f, nameMatches);
    PageStart(j, limit);
    PageOfPosition(j, |m|, limit);
    var skip := (j / limit) * limit;
    var r := GetProducts(db, skip, limit, f, nameMatches);
    assert r.value.products[j % limit] == m[skip + j % limit];
  }

  /** The listing applies its filters one after another, as the query
      chains one `filter` call per given parameter; the chained query keeps
      exactly the products `Matching` keeps, in the same order. */
  lemma {:induction false} FiltersChain(db: Db, f: ProductFilter, nameMatches: (string, string) -> bool)
    ensures var bySearch := Seqs.Filter(db.products, (p: Product) => Matches(p, NoFilter.(search := f.search), nameMatches));
      var byCategory := Seqs.Filter(bySearch, (p: Product) => Matches(p, NoFilter.(categoryId := f.categoryId), nameMatches));
      var byActive := Seqs.Filter(byCategory, (p: Product) => Matches(p, NoFilter.(isActive := f.isActive), nameMatches));
      Seqs.Filter(byActive, (p: Product) => Matches(p, NoFilter.(isFeatured := f.isFeatured), nameMatches))
        == Matching(db, f, nameMatches)
  {
    var s := (p: Product) => Matches(p, NoFilter.(search := f.search), nameMatches);
    var c := (p: Product) => Matches(p, NoFilter.(categoryId := f.categoryId), nameMatches);
    var a := (p: Product) => Matches(p, NoFilter.(isActive := f.isActive), nameMatches);
    var e := (p: Product) => Matches(p, NoFilter.(isFeatured := f.isFeatured), nameMatches);
    var sc := (p: Product) => s(p) && c(p);
    var sca := (p: Product) => sc(p) && a(p);
    var all := (p: Product) => Matches(p, f, nameMatches);
    forall p: Product ensures all(p) == (sca(p) && e(p)) {
      assert all(p) == Matches(p, f, nameMatches);
    }
    Seqs.FilterTwice(db.products, s, c, sc);
    Seqs.FilterTwice(db.products, sc, a, sca);
    Seqs.FilterTwice(db.products, sca, e, all);
    assert Matching(db, f, nameMatches) == Seqs.Filter(db.products, all);
  }

  /** Without filters the listing counts the whole table. */
  lemma {:induction false} UnfilteredCountsAll(db: Db, nameMatches: (string, string) -> bool)
    ensures Matching(db, NoFilter, nameMatches) == db.products
  {
  }

  /** `GET /products/{id}`: the first row with that id, or 404. */
  function GetProduct(db: Db, id: int): (r: Result<Product>)
    ensures r.Ok? <==> exists i :: 0 <= i < |db.products| && db.products[i].id == id
    ensures r.Ok? ==> r.value in db.products && r.value.id == id
    ensures r.Err? ==> r.status == NotFound
  {
    match FindProduct(db, id)
    case None => Err(NotFound, "Producto no encontrado")
    case Some(p) => Ok(p)
  }

  function SlugIndex(products: seq<Product>, slug: string): (r: Option<nat>)
    ensures r.None? <==> forall i :: 0 <= i < |products| ==> products[i].slug != slug
    ensures r.Some? ==> r.value < |products| && products[r.value].slug == slug
    ensures r.Some? ==> forall j :: 0 <= j < r.value ==> products[j].slug != slug
  {
    Seqs.FindIndex(products, (p: Product) => p.slug == slug)
  }

  /** `GET /products/slug/{slug}`: the first row with that slug, or 404. */
  function GetProductBySlug(db: Db, slug: string): (r: Result<Product>)
    ensures r.Ok? <==> exists i :: 0 <= i < |db.products| && db.products[i].slug == slug
    ensures r.Ok? ==> r.value in db.products && r.value.slug == slug
    ensures r.Err? ==> r.status == NotFound
  {
    match SlugIndex(db.products, slug)
    case None => Err(NotFound, "Producto no encontrado")
    case Some(i) => Ok(db.products[i])
  }

  /** The error a commit that breaks a table constraint raises, which the
      routes do not catch. */
  const IntegrityError := "IntegrityError"

  /** `POST /products/`: administrators only; 422 for a request out of
      bounds; 400 when the slug is taken; a SKU already in use or an
      unknown category fails the commit (500); otherwise the new row, with
      the next id, at the end of the table. */
  function CreateProduct(db: Db, subject: Option<string>, c: ProductSchemas.ProductCreate)
    : (r: Result<(Db, Product)>)
    ensures Dependencies.GetCurrentAdminUser(db, subject).Err? ==>
      r == Err(Dependencies.GetCurrentAdminUser(db, subject).status, Dependencies.GetCurrentAdminUser(db, subject).detail)
    ensures r.Ok? <==> Dependencies.GetCurrentAdminUser(db, subject).Ok?
                       && ProductSchemas.ValidateProductCreate(c) == []
                       && SlugIndex(db.products, c.slug).None?
                       && ProductRowFits(db, ProductSchemas.ToRow(c, db.nextProductId), |db.products|)
    ensures Dependencies.GetCurrentAdminUser(db, subject).Ok? && ProductSchemas.ValidateProductCreate(c) != [] ==>
      r.Err? && r.status == Unprocessable
    ensures (Dependencies.GetCurrentAdminUser(db, subject).Ok? && ProductSchemas.ValidateProductCreate(c) == []
             && SlugIndex(db.products, c.slug).Some?) ==> r.Err? && r.status == BadRequest
    ensures (Dependencies.GetCurrentAdminUser(db, subject).Ok? && ProductSchemas.ValidateProductCreate(c) == []
             && SlugIndex(db.products, c.slug).None? && r.Err?) ==> r.status == InternalError
    ensures r.Ok? ==> r.value.1 == ProductSchemas.ToRow(c, db.nextProductId)
                      && r.value.0 == db.(products := db.products + [r.value.1], nextProductId := db.nextProductId + 1)
  {
    match Dependencies.GetCurrentAdminUser(db, subject)
    case Err(s, d) => Err(s, d)
    case Ok(_) =>
      var failed := ProductSchemas.ValidateProductCreate(c);
      if failed != [] then Err(Unprocessable, Text.Join(failed, ','))
      else if SlugIndex(db.products, c.slug).Some? then Err(BadRequest, "El slug ya existe")
      else
        var p := ProductSchemas.ToRow(c, db.nextProductId);
        if !ProductRowFits(db, p, |db.products|) then Err(InternalError, IntegrityError)
        else Ok((db.(products := db.products + [p], nextProductId := db.nextProductId + 1), p))
  }

  /** `PUT /products/{id}`: administrators only; 422 for a field out of
      bounds; 404 for an unknown id; an updated row whose slug or SKU
      another row holds, or whose category is unknown, fails the commit
      (500); otherwise the sent fields are written into that row and
      nothing else changes. */
  function UpdateProduct(db: Db, subject: Option<string>, id: int, u: ProductSchemas.ProductUpdate)
    : (r: Result<(Db, Product)>)
    ensures Dependencies.GetCurrentAdminUser(db, subject).Err? ==>
      r == Err(Dependencies.GetCurrentAdminUser(db, subject).status, Dependencies.GetCurrentAdminUser(db, subject).detail)
    ensures r.Ok? <==> Dependencies.GetCurrentAdminUser(db, subject).Ok?
                       && ProductSchemas.ValidateProductUpdate(u) == []
                       && FindProduct(db, id).Some?
                       && var i := ProductIndex(db, id).value;
                          ProductRowFits(db, ProductSchemas.ApplyUpdate(db.products[i], u), i)
    ensures Dependencies.GetCurrentAdminUser(db, subject).Ok? && ProductSchemas.ValidateProductUpdate(u) != [] ==>
      r.Err? && r.status == Unprocessable
    ensures (Dependencies.GetCurrentAdminUser(db, subject).Ok? && ProductSchemas.ValidateProductUpdate(u) == []
             && FindProduct(db, id).None?) ==> r.Err? && r.status == NotFound
    ensures (Dependencies.GetCurrentAdminUser(db, subject).Ok? && ProductSchemas.ValidateProductUpdate(u) == []
             && FindProduct(db, id).Some? && r.Err?) ==> r.status == InternalError
    ensures r.Ok? ==>
      var i := ProductIndex(db, id).value;
      && r.value.1 == ProductSchemas.ApplyUpdate(db.products[i], u)
      && r.value.0 == db.(products := db.products[i := r.value.1])
  {
    match Dependencies.GetCurrentAdminUser(db, subject)
    case Err(s, d) => Err(s, d)
    case Ok(_) =>
      var failed := ProductSchemas.ValidateProductUpdate(u);
      if failed != [] then Err(Unprocessable, Text.Join(failed, ','))
      else
        match ProductIndex(db, id)
        case None => Err(NotFound, "Producto no encontrado")
        case Some(i) =>
          var p := ProductSchemas.ApplyUpdate(db.products[i], u);
          if !ProductRowFits(db, p, i) then Err(InternalError, IntegrityError)
          else Ok((db.(products := db.products[i := p]), p))
  }

  /** `DELETE /products/{id}`: administrators only; 404 for an unknown id;
      a product some order line refers to cannot lose its row (500);
      otherwise that row leaves the table. */
  function DeleteProduct(db: Db, subject: Option<string>, id: int): (r: Result<Db>)
    ensures Dependencies.GetCurrentAdminUser(db, subject).Err? ==>
      r == Err(Dependencies.GetCurrentAdminUser(db, subject).status, Dependencies.GetCurrentAdminUser(db, subject).detail)
    ensures r.Ok? <==> Dependencies.GetCurrentAdminUser(db, subject).Ok? && FindProduct(db, id).Some? && !Ordered(db, id)
    ensures Dependencies.GetCurrentAdminUser(db, subject).Ok? && FindProduct(db, id).None? ==>
      r.Err? && r.status == NotFound
    ensures Dependencies.GetCurrentAdminUser(db, subject).Ok? && FindProduct(db, id).Some? && Ordered(db, id) ==>
      r.Err? && r.status == InternalError
    ensures r.Ok? ==> r.value == db.(products := Seqs.RemoveAt(db.products, ProductIndex(db, id).value))
    ensures r.Ok? ==> |r.value.products| == |db.products| - 1
  {
    match Dependencies.GetCurrentAdminUser(db, subject)
    case Err(s, d) => Err(s, d)
    case Ok(_) =>
      match ProductIndex(db, id)
      case None => Err(NotFound, "Producto no encontrado")
      case Some(i) =>
        if Ordered(db, id) then Err(InternalError, IntegrityError)
        else Ok(db.(products := Seqs.RemoveAt(db.products, i)))
  }

  /** No two products share a slug. */
  ghost predicate UniqueSlugs(products: seq<Product>) {
    forall i, j :: 0 <= i < j < |products| ==> products[i].slug != products[j].slug
  }

  /** No two products share an id, and every id is below the next one. */
  ghost predicate IdsFresh(db: Db) {
    && (forall i, j :: 0 <= i < j < |db.products| ==> db.products[i].id != db.products[j].id)
    && (forall i :: 0 <= i < |db.products| ==> db.products[i].id < db.nextProductId)
  }

  /** Creation keeps slugs unique and ids fresh, and the new product is
      then what both lookups return. */
  lemma {:induction false} CreateThenGet(db: Db, subject: Option<string>, c: ProductSchemas.ProductCreate)
    requires UniqueSlugs(db.products) && IdsFresh(db)
    requires CreateProduct(db, subject, c).Ok?
    ensures var (db', p) := CreateProduct(db, subject, c).value;
      && UniqueSlugs(db'.products) && IdsFresh(db')
      && GetProduct(db', p.id) == Ok(p)
      && GetProductBySlug(db', c.slug) == Ok(p)
  {
    var (db', p) := CreateProduct(db, subject, c).value;
    AppendFreshRow(db, p);
  }

  /** Appending a row whose id is the next one and whose slug is unused
      keeps both invariants, and both lookups then reach that row. */
  lemma {:induction false} AppendFreshRow(db: Db, p: Product)
    requires UniqueSlugs(db.products) && IdsFresh(db)
    requires p.id == db.nextProductId && SlugIndex(db.products, p.slug).None?
    ensures var db' := db.(products := db.products + [p], nextProductId := db.nextProductId + 1);
      && UniqueSlugs(db'.products) && IdsFresh(db')
      && GetProduct(db', p.id) == Ok(p)
      && GetProductBySlug(db', p.slug) == Ok(p)
  {
    var db' := db.(products := db.products + [p], nextProductId := db.nextProductId + 1);
    AppendFreshKeepsInvariants(db.products, p, db.nextProductId);
    assert db'.products[|db.products|] == p;
    assert ProductIndex(db', p.id) == Some(|db.products|);
    assert SlugIndex(db'.products, p.slug) == Some(|db.products|);
  }

  /** The table part of `AppendFreshRow`: a new slug and an id above all
      others keep slugs and ids unique. */
  lemma {:induction false} AppendFreshKeepsInvariants(ps: seq<Product>, p: Product, next: int)
    requires UniqueSlugs(ps) && forall i :: 0 <= i < |ps| ==> ps[i].slug != p.slug
    requires (forall i, j :: 0 <= i < j < |ps| ==> ps[i].id != ps[j].id)
    requires (forall i :: 0 <= i < |ps| ==> ps[i].id < next) && p.id == next
    ensures UniqueSlugs(ps + [p])
    ensures forall i, j :: 0 <= i < j < |ps + [p]| ==> (ps + [p])[i].id != (ps + [p])[j].id
    ensures forall i :: 0 <= i < |ps + [p]| ==> (ps + [p])[i].id < next + 1
  {
    var qs := ps + [p];
    assert forall i :: 0 <= i < |ps| ==> qs[i] == ps[i];
  }

  /** After an update the id resolves to the updated row. */
  lemma {:induction false} UpdateThenGet(db: Db, subject: Option<string>, id: int, u: ProductSchemas.ProductUpdate)
    requires UpdateProduct(db, subject, id, u).Ok?
    ensures var (db', p) := UpdateProduct(db, subject, id, u).value;
      GetProduct(db', id) == Ok(p) && (IdsFresh(db) ==> IdsFresh(db'))
  {
    var (db', p) := UpdateProduct(db, subject, id, u).value;
    ReplaceFoundRow(db, ProductIndex(db, id).value, p);
  }

  /** Replacing the row an id resolves to by a row with the same id keeps
      the ids, and the id then resolves to the new row. */
  lemma {:induction false} ReplaceFoundRow(db: Db, i: nat, p: Product)
    requires i < |db.products| && ProductIndex(db, p.id) == Some(i)
    ensures var db' := db.(products := db.products[i := p]);
      GetProduct(db', p.id) == Ok(p) && (IdsFresh(db) ==> IdsFresh(db'))
  {
    var db' := db.(products := db.products[i := p]);
    assert forall k :: 0 <= k < |db.products| ==> db'.products[k].id == db.products[k].id;
    assert ProductIndex(db', p.id) == Some(i);
  }

  /** With unique ids, a deleted product can no longer be found, and the
      ids stay fresh. */
  lemma {:induction false} DeleteThenGet(db: Db, subject: Option<string>, id: int)
    requires IdsFresh(db)
    requires DeleteProduct(db, subject, id).Ok?
    ensures var db' := DeleteProduct(db, subject, id).value;
      GetProduct(db', id).Err? && IdsFresh(db')
  {
    RemoveFoundRow(db, ProductIndex(db, id).value);
  }

  /** Deleting the row of an id that occurs once leaves no row with that
      id, and the remaining ids stay fresh. */
  lemma {:induction false} RemoveFoundRow(db: Db, i: nat)
    requires IdsFresh(db) && i < |db.products|
    ensures var db' := db.(products := Seqs.RemoveAt(db.products, i));
      GetProduct(db', db.products[i].id).Err? && IdsFresh(db')
  {
    var db' := db.(products := Seqs.RemoveAt(db.products, i));
    var id := db.products[i].id;
    forall k | 0 <= k < |db'.products|
      ensures db'.products[k].id != id
    {
      if k < i { assert db'.products[k] == db.products[k]; }
      else { assert db'.products[k] == db.products[k + 1]; }
    }
    forall a, b | 0 <= a < b < |db'.products|
      ensures db'.products[a].id != db'.products[b].id
    {
      var a' := if a < i then a else a + 1;
      var b' := if b < i then b else b + 1;
      assert db'.products[a] == db.products[a'];
      assert db'.products[b] == db.products[b'];
    }
  }

  /** Every order line refers to a stored product. */
  ghost predicate OrderLinesResolve(db: Db) {
    forall k, j :: 0 <= k < |db.orders| && 0 <= j < |db.orders[k].items| ==>
      FindProduct(db, db.orders[k].items[j].productId).Some?
  }

  /** A delete that succeeds never strands an order line: every line that
      referred to a stored product still does. */
  lemma {:induction false} DeleteKeepsOrderLinks(db: Db, subject: Option<string>, id: int)
    requires OrderLinesResolve(db)
    requires DeleteProduct(db, subject, id).Ok?
    ensures OrderLinesResolve(DeleteProduct(db, subject, id).value)
  {
    var i := ProductIndex(db, id).value;
    var db' := DeleteProduct(db, subject, id).value;
    forall k, j | 0 <= k < |db'.orders| && 0 <= j < |db'.orders[k].items|
      ensures FindProduct(db', db'.orders[k].items[j].productId).Some?
    {
      var pid := db.orders[k].items[j].productId;
      assert pid != id;
      RemoveKeepsOtherId(db, i, pid);
    }
  }

  /** Removing the row at `i` keeps every other id that some row holds. */
  lemma {:induction false} RemoveKeepsOtherId(db: Db, i: nat, pid: int)
    requires i < |db.products| && db.products[i].id != pid && FindProduct(db, pid).Some?
    ensures FindProduct(db.(products := Seqs.RemoveAt(db.products, i)), pid).Some?
  {
    var m := ProductIndex(db, pid).value;
    var ps' := Seqs.RemoveAt(db.products, i);
    var m' := if m < i then m else m - 1;
    assert ps'[m'] == db.products[m];
  }
}
