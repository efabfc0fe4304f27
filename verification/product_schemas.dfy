/** The product request shapes of `schemas/product.py`: the field bounds,
    the defaults a creation request falls back to, and a partial update
    applied field by field. A field absent from an update request leaves
    the column as it is; an explicit JSON `null` is not distinguished from
    an absent field here. */
module ProductSchemas {
  import opened Wrappers
  import opened Models

  /** `ProductCreate`; `stock`, `isActive` and `isFeatured` are `None` when
      the request leaves them out. */
  datatype ProductCreate = ProductCreate(
    name: string,
    slug: string,
    description: Option<string>,
    price: real,
    comparePrice: Option<real>,
    costPrice: Option<real>,
    stock: Option<int>,
    sku: Option<string>,
    barcode: Option<string>,
    isActive: Option<bool>,
    isFeatured: Option<bool>,
    weight: Option<real>,
    imageUrl: Option<string>,
    images: Option<string>,
    categoryId: Option<int>)

  /** `ProductUpdate`: every field optional; `None` means "not sent". */
  datatype ProductUpdate = ProductUpdate(
    name: Option<string>,
    slug: Option<string>,
    description: Option<string>,
    price: Option<real>,
    comparePrice: Option<real>,
    costPrice: Option<real>,
    stock: Option<int>,
    sku: Option<string>,
    barcode: Option<string>,
    isActive: Option<bool>,
    isFeatured: Option<bool>,
    weight: Option<real>,
    imageUrl: Option<string>,
    images: Option<string>,
    categoryId: Option<int>)

  const EmptyUpdate: ProductUpdate :=
    ProductUpdate(None, None, None, None, None, None, None, None, None, None, None, None, None, None, None)

  predicate NameOk(s: string) { 1 <= |s| <= 200 }

  predicate PositiveIfSet(x: Option<real>) { x.None? || x.value > 0.0 }

  /** The bounds every product row written through the API satisfies. */
  predicate RowValid(p: Product) {
    && NameOk(p.name) && NameOk(p.slug) && p.price > 0.0
    && PositiveIfSet(p.comparePrice) && PositiveIfSet(p.costPrice)
    && p.stock >= 0 && PositiveIfSet(p.weight)
  }

  /** The fields of a creation request that break their bounds. */
  function ValidateProductCreate(c: ProductCreate): (failed: seq<string>)
    ensures failed == [] <==>
      && NameOk(c.name) && NameOk(c.slug) && c.price > 0.0
      && PositiveIfSet(c.comparePrice) && PositiveIfSet(c.costPrice)
      && (c.stock.None? || c.stock.value >= 0) && PositiveIfSet(c.weight)
  {
    (if NameOk(c.name) then [] else ["name"])
    + (if NameOk(c.slug) then [] else ["slug"])
    + (if c.price > 0.0 then [] else ["price"])
    + (if PositiveIfSet(c.comparePrice) then [] else ["compare_price"])
    + (if PositiveIfSet(c.costPrice) then [] else ["cost_price"])
    + (if c.stock.None? || c.stock.value >= 0 then [] else ["stock"])
    + (if PositiveIfSet(c.weight) then [] else ["weight"])
  }

  /** The fields of an update request that break their bounds; a field
      that is not sent is never at fault. */
  function ValidateProductUpdate(u: ProductUpdate): (failed: seq<string>)
    ensures failed == [] <==>
      && (u.name.None? || NameOk(u.name.value)) && (u.slug.None? || NameOk(u.slug.value))
      && PositiveIfSet(u.price) && PositiveIfSet(u.comparePrice) && PositiveIfSet(u.costPrice)
      && (u.stock.None? || u.stock.value >= 0) && PositiveIfSet(u.weight)
  {
    (if u.name.None? || NameOk(u.name.value) then [] else ["name"])
    + (if u.slug.None? || NameOk(u.slug.value) then [] else ["slug"])
    + (if PositiveIfSet(u.price) then [] else ["price"])
    + (if PositiveIfSet(u.comparePrice) then [] else ["compare_price"])
    + (if PositiveIfSet(u.costPrice) then [] else ["cost_price"])
    + (if u.stock.None? || u.stock.value >= 0 then [] else ["stock"])
    + (if PositiveIfSet(u.weight) then [] else ["weight"])
  }

  /** The row `Product(**product.model_dump())` stores: every field of the
      request, with stock 0, active and not featured when left out. */
  function ToRow(c: ProductCreate, id: int): (p: Product)
    ensures p.id == id && p.slug == c.slug && p.name == c.name && p.price == c.price
    ensures p.sku == c.sku && p.categoryId == c.categoryId
    ensures p.description == c.description && p.comparePrice == c.comparePrice && p.costPrice == c.costPrice
    ensures p.barcode == c.barcode && p.weight == c.weight && p.imageUrl == c.imageUrl && p.images == c.images
    ensures ValidateProductCreate(c) == [] ==> RowValid(p)
    ensures c.stock.Some? ==> p.stock == c.stock.value
    ensures c.stock.None? ==> p.stock == 0
    ensures c.isActive.Some? ==> p.isActive == c.isActive.value
    ensures c.isActive.None? ==> p.isActive
    ensures c.isFeatured.Some? ==> p.isFeatured == c.isFeatured.value
    ensures c.isFeatured.None? ==> !p.isFeatured
  {
    Product(id, c.name, c.slug, c.description, c.price, c.comparePrice, c.costPrice,
            c.stock.GetOr(0), c.sku, c.barcode, c.isActive.GetOr(true), c.isFeatured.GetOr(false),
            c.weight, c.imageUrl, c.images, c.categoryId)
  }

  /** A sent value, else the current one. */
  function Pick<T>(sent: Option<T>, current: T): T {
    if sent.Some? then sent.value else current
  }

  /** A sent value for a nullable column, else the current one. */
  function PickOpt<T>(sent: Option<T>, current: Option<T>): Option<T> {
    if sent.Some? then sent else current
  }

  /** `setattr` for every field the request sent. */
  function ApplyUpdate(p: Product, u: ProductUpdate): (r: Product)
    ensures r.id == p.id
    ensures u == EmptyUpdate ==> r == p
    ensures ValidateProductUpdate(u) == [] && RowValid(p) ==> RowValid(r)
  {
    Product(p.id, Pick(u.name, p.name), Pick(u.slug, p.slug), PickOpt(u.description, p.description),
            Pick(u.price, p.price), PickOpt(u.comparePrice, p.comparePrice), PickOpt(u.costPrice, p.costPrice),
            Pick(u.stock, p.stock), PickOpt(u.sku, p.sku), PickOpt(u.barcode, p.barcode),
            Pick(u.isActive, p.isActive), Pick(u.isFeatured, p.isFeatured), PickOpt(u.weight, p.weight),
            PickOpt(u.imageUrl, p.imageUrl), PickOpt(u.images, p.images), PickOpt(u.categoryId, p.categoryId))
  }

  /** Two updates in a row: the later one's sent fields over the earlier's. */
  function Then(u: ProductUpdate, v: ProductUpdate): ProductUpdate {
    ProductUpdate(
      PickOpt(v.name, u.name), PickOpt(v.slug, u.slug), PickOpt(v.description, u.description),
      PickOpt(v.price, u.price), PickOpt(v.comparePrice, u.comparePrice), PickOpt(v.costPrice, u.costPrice),
      PickOpt(v.stock, u.stock), PickOpt(v.sku, u.sku), PickOpt(v.barcode, u.barcode),
      PickOpt(v.isActive, u.isActive), PickOpt(v.isFeatured, u.isFeatured), PickOpt(v.weight, u.weight),
      PickOpt(v.imageUrl, u.imageUrl), PickOpt(v.images, u.images), PickOpt(v.categoryId, u.categoryId))
  }

  /** Applying two updates is applying their combination; in particular
      repeating an update changes nothing more. */
  lemma UpdatesCompose(p: Product, u: ProductUpdate, v: ProductUpdate)
    ensures ApplyUpdate(ApplyUpdate(p, u), v) == ApplyUpdate(p, Then(u, v))
    ensures ApplyUpdate(ApplyUpdate(p, u), u) == ApplyUpdate(p, u)
  {
  }

  /** Every field sent in the update lands in the row, and every field not
      sent keeps its value; the id never changes. */
  lemma UpdateSetsSentFields(p: Product, u: ProductUpdate)
    ensures ApplyUpdate(p, u).id == p.id
    ensures u.name.Some? ==> ApplyUpdate(p, u).name == u.name.value
    ensures u.name.None? ==> ApplyUpdate(p, u).name == p.name
    ensures u.slug.Some? ==> ApplyUpdate(p, u).slug == u.slug.value
    ensures u.slug.None? ==> ApplyUpdate(p, u).slug == p.slug
    ensures u.description.Some? ==> ApplyUpdate(p, u).description == u.description
    ensures u.description.None? ==> ApplyUpdate(p, u).description == p.description
    ensures u.price.Some? ==> ApplyUpdate(p, u).price == u.price.value
    ensures u.price.None? ==> ApplyUpdate(p, u).price == p.price
    ensures u.comparePrice.Some? ==> ApplyUpdate(p, u).comparePrice == u.comparePrice
    ensures u.comparePrice.None? ==> ApplyUpdate(p, u).comparePrice == p.comparePrice
    ensures u.costPrice.Some? ==> ApplyUpdate(p, u).costPrice == u.costPrice
    ensures u.costPrice.None? ==> ApplyUpdate(p, u).costPrice == p.costPrice
    ensures u.stock.Some? ==> ApplyUpdate(p, u).stock == u.stock.value
    ensures u.stock.None? ==> ApplyUpdate(p, u).stock == p.stock
    ensures u.sku.Some? ==> ApplyUpdate(p, u).sku == u.sku
    ensures u.sku.None? ==> ApplyUpdate(p, u).sku == p.sku
    ensures u.barcode.Some? ==> ApplyUpdate(p, u).barcode == u.barcode
    ensures u.barcode.None? ==> ApplyUpdate(p, u).barcode == p.barcode
    ensures u.isActive.Some? ==> ApplyUpdate(p, u).isActive == u.isActive.value
    ensures u.isActive.None? ==> ApplyUpdate(p, u).isActive == p.isActive
    ensures u.isFeatured.Some? ==> ApplyUpdate(p, u).isFeatured == u.isFeatured.value
    ensures u.isFeatured.None? ==> ApplyUpdate(p, u).isFeatured == p.isFeatured
    ensures u.weight.Some? ==> ApplyUpdate(p, u).weight == u.weight
    ensures u.weight.None? ==> ApplyUpdate(p, u).weight == p.weight
    ensures u.imageUrl.Some? ==> ApplyUpdate(p, u).imageUrl == u.imageUrl
    ensures u.imageUrl.None? ==> ApplyUpdate(p, u).imageUrl == p.imageUrl
    ensures u.images.Some? ==> ApplyUpdate(p, u).images == u.images
    ensures u.images.None? ==> ApplyUpdate(p, u).images == p.images
    ensures u.categoryId.Some? ==> ApplyUpdate(p, u).categoryId == u.categoryId
    ensures u.categoryId.None? ==> ApplyUpdate(p, u).categoryId == p.categoryId
  {
  }

  /** Every sent value already in the row: the update writes nothing new. */
  predicate SentAlreadyStored(p: Product, u: ProductUpdate) {
    && (u.name.None? || u.name.value == p.name)
      && (u.slug.None? || u.slug.value == p.slug)
      && (u.description.None? || u.description == p.description)
      && (u.price.None? || u.price.value == p.price)
      && (u.comparePrice.None? || u.comparePrice == p.comparePrice)
      && (u.costPrice.None? || u.costPrice == p.costPrice)
      && (u.stock.None? || u.stock.value == p.stock)
      && (u.sku.None? || u.sku == p.sku)
      && (u.barcode.None? || u.barcode == p.barcode)
      && (u.isActive.None? || u.isActive.value == p.isActive)
      && (u.isFeatured.None? || u.isFeatured.value == p.isFeatured)
      && (u.weight.None? || u.weight == p.weight)
      && (u.imageUrl.None? || u.imageUrl == p.imageUrl)
      && (u.images.None? || u.images == p.images)
      && (u.categoryId.None? || u.categoryId == p.categoryId)
  }

  /** An update leaves the row as it was exactly when every field it sends
      already holds the sent value. */
  lemma UpdateNoOpIff(p: Product, u: ProductUpdate)
    ensures ApplyUpdate(p, u) == p <==> SentAlreadyStored(p, u)
  {
    var r := ApplyUpdate(p, u);
    if SentAlreadyStored(p, u) {
      assert r.id == p.id;
      assert r.name == p.name;
      assert r.slug == p.slug;
      assert r.description == p.description;
      assert r.price == p.price;
      assert r.comparePrice == p.comparePrice;
      assert r.costPrice == p.costPrice;
      assert r.stock == p.stock;
      assert r.sku == p.sku;
      assert r.barcode == p.barcode;
      assert r.isActive == p.isActive;
      assert r.isFeatured == p.isFeatured;
      assert r.weight == p.weight;
      assert r.imageUrl == p.imageUrl;
      assert r.images == p.images;
      assert r.categoryId == p.categoryId;
    }
  }
}
