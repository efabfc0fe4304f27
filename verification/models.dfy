/** The database rows the backend routes read and write (the SQLAlchemy
    models), and the database itself as one immutable record of tables.
    Every table is a sequence; `.first()` picks the earliest row of that
    sequence. SQL itself promises no row order without `ORDER BY`: taking
    the stored order for it is a modelling choice. Each table has its own
    next primary key, as a SERIAL column does. Timestamps are abstract
    instants (`int`). */
module Models {
  import opened Wrappers
  import Seqs

  datatype User = User(
    id: int,
    email: string,
    username: string,
    fullName: Option<string>,
    hashedPassword: string,
    isActive: bool,
    isAdmin: bool)

  datatype Product = Product(
    id: int,
    name: string,
    slug: string,
    description: Option<string>,
    price: real,
    comparePrice: Option<real>,
    costPrice: Option<real>,
    stock: int,
    sku: Option<string>,
    barcode: Option<string>,
    isActive: bool,
    isFeatured: bool,
    weight: Option<real>,
    imageUrl: Option<string>,
    images: Option<string>,
    categoryId: Option<int>)

  datatype Category = Category(
    id: int, name: string, slug: string, description: Option<string>, imageUrl: Option<string>)

  /** A server cart row; `price` is the unit price when the row was made. */
  datatype CartItem = CartItem(id: int, userId: int, productId: int, quantity: int, price: real)

  datatype OrderStatus = Pending | Paid | Processing | Shipped | Delivered | Cancelled | Refunded

  datatype OrderItem = OrderItem(
    productId: int, productName: string, productSku: Option<string>,
    quantity: int, price: real, subtotal: real)

  datatype Shipping = Shipping(
    name: string, email: string, phone: Option<string>, address: string,
    city: string, state: Option<string>, zip: Option<string>, country: string)

  datatype Order = Order(
    id: int,
    orderNumber: string,
    userId: int,
    shipping: Shipping,
    subtotal: real,
    shippingCost: real,
    tax: real,
    total: real,
    status: OrderStatus,
    paymentMethod: Option<string>,
    paymentId: Option<string>,
    paidAt: Option<int>,
    notes: Option<string>,
    createdAt: int,
    items: seq<OrderItem>)

  datatype Db = Db(
    users: seq<User>,
    products: seq<Product>,
    categories: seq<Category>,
    cartItems: seq<CartItem>,
    orders: seq<Order>,
    nextUserId: int,
    nextProductId: int,
    nextCategoryId: int,
    nextCartItemId: int,
    nextOrderId: int)

  /** `db.query(Product).filter(Product.id == id).first()`. */
  function ProductIndex(db: Db, id: int): (r: Option<nat>)
    ensures r.Some? ==> r.value < |db.products| && db.products[r.value].id == id
    ensures r.Some? ==> forall j :: 0 <= j < r.value ==> db.products[j].id != id
    ensures r.None? <==> forall j :: 0 <= j < |db.products| ==> db.products[j].id != id
  {
    Seqs.FindIndex(db.products, (p: Product) => p.id == id)
  }

  function FindProduct(db: Db, id: int): (r: Option<Product>)
    ensures r.Some? ==> r.value in db.products && r.value.id == id
    ensures r.Some? ==> ProductIndex(db, id).Some? && r.value == db.products[ProductIndex(db, id).value]
    ensures r.None? <==> forall j :: 0 <= j < |db.products| ==> db.products[j].id != id
  {
    match ProductIndex(db, id)
    case Some(i) => Some(db.products[i])
    case None => None
  }

  /** The constraints of the products table that a commit enforces on
      row `p` stored at index `at` (`|db.products|` for a new row): its
      slug, and its SKU when set, belong to no other row, and its category,
      when set, is a stored category. */
  predicate ProductRowFits(db: Db, p: Product, at: nat) {
    && (forall j :: 0 <= j < |db.products| && j != at ==> db.products[j].slug != p.slug)
    && (p.sku.Some? ==> forall j :: 0 <= j < |db.products| && j != at ==> db.products[j].sku != p.sku)
    && (p.categoryId.Some? ==>
          exists k :: 0 <= k < |db.categories| && db.categories[k].id == p.categoryId.value)
  }

  /** Some order line refers to the product. Its `product_id` column is a
      NOT NULL foreign key, so such a product cannot be deleted. */
  predicate Ordered(db: Db, productId: int) {
    exists k, j :: 0 <= k < |db.orders| && 0 <= j < |db.orders[k].items|
                   && db.orders[k].items[j].productId == productId
  }

  function UserRows(db: Db, userId: int): (r: seq<CartItem>)
    ensures forall x :: x in r <==> x in db.cartItems && x.userId == userId
  {
    Seqs.Filter(db.cartItems, (c: CartItem) => c.userId == userId)
  }

  function OtherUsersRows(db: Db, userId: int): (r: seq<CartItem>)
    ensures forall x :: x in r <==> x in db.cartItems && x.userId != userId
  {
    Seqs.Filter(db.cartItems, (c: CartItem) => c.userId != userId)
  }
}
