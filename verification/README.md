# mi-tienda-ecommerce, modelled in Dafny

This project models the storefront's core in Dafny and proves properties of the model. The storefront has a React client with a cart kept in the browser, and a FastAPI backend that serves a catalogue, a per-user server cart, orders and accounts. The model covers:

- **Client cart store** (`cart_store.dfy`): the cart is an ordered list of line items keyed by product id. The model covers adding, removing, updating and clearing lines, the total and item count, and persistence under the storage key `"cart"`.
- **Pages** (`cart_page.dfy`, `product_detail.dfy`, `product_card.dfy`, `products_page.dfy`, `checkout.dfy`): the UI rules that feed the store or read from it.
  - Quantity buttons and their caps; stock badges and labels.
  - The listing's query parameters, client-side sorting and category list.
  - Checkout: the empty-cart guard, the payment-preference items, the posted order and each submission outcome.
- **Backend**: each route is a pure function from a database value (`Models.Db`, one sequence per table plus next-id counters) to `Http.Result`, either `Ok(value)` or `Err(status, detail)`.
  - `user_schemas.dfy`, `auth_service.dfy`, `dependencies.dfy`, `auth_routes.dfy`: accounts, tokens and the authorisation chain (401, then 400 for inactive, then 403 for non-admin).
  - `product_schemas.dfy`, `product_routes.dfy`, `category_routes.dfy`: the catalogue, including filters, pagination and patch updates.
  - `server_cart.dfy`: the server cart.
  - `orders.dfy`: orders.
  - `config.py` is modelled in `config.dfy`: the CORS origin list and the database URL.
- **Shared helpers**: `seqs.dfy` (first match and filter), `sorting.dfy` (a comparison sort), `text.dfy` (Python `split`/`strip`, decimal rendering) and `wrappers.dfy`.

Modelling decisions:

- Money is `real`, so sums are exact.
- A failed request-body validation is a 422 whose detail lists the failing fields.
- The credential check runs before body validation.
- Things the core only calls are inputs. These are:
  - the subject that token verification yields;
  - the password hash and the password verifier;
  - the database's `ilike` match;
  - the order number and the current time;
  - the payment provider's reply and whether the order POST succeeded.

## Model

| member | source | states |
|---|---|---|
| CartStore.Find | frontend/src/store/CartContext.jsx:28 | a line is found exactly when some line has that id, and it is a line of the cart with that id |
| CartStore.AddToCart | frontend/src/store/CartContext.jsx:26-42 | a present product has only its quantity raised, in place and with its old snapshot; an absent product is appended with the requested quantity |
| CartStore.RemoveFromCart | frontend/src/store/CartContext.jsx:45-47 | keeps exactly the lines with another id; the id is then absent; removing an absent id changes nothing |
| CartStore.UpdateQuantity | frontend/src/store/CartContext.jsx:50-61 | a quantity of zero or less removes the product; otherwise only that product's lines take the new quantity |
| CartStore.ClearCart | frontend/src/store/CartContext.jsx:64-66 | the cart becomes empty |
| CartStore.Persist | frontend/src/store/CartContext.jsx:21-23 | the cart is stored under "cart" and every other key is kept |
| CartStore.InitialCart | frontend/src/store/CartContext.jsx:14-18 | an absent key starts the empty cart |
| CartStore.PersistReload | frontend/src/store/CartContext.jsx:14-23 | reloading after a save gives back the saved cart |
| CartStore.AddPreservesDistinct | frontend/src/store/CartContext.jsx:28-39 | adding never creates a second line for a product id |
| CartStore.AddPreservesPositive | frontend/src/store/CartContext.jsx:26-42 | adding a positive quantity keeps every quantity positive |
| CartStore.UpdatePreservesPositive | frontend/src/store/CartContext.jsx:50-61 | an update keeps every stored quantity positive, whatever quantity is requested |
| CartStore.TotalAppend | frontend/src/store/CartContext.jsx:69-71 | the total of two carts joined is the sum of their totals |
| CartStore.ItemsCountAppend | frontend/src/store/CartContext.jsx:74-76 | the item count of two carts joined is the sum of their counts |
| CartStore.ItemsCount | frontend/src/store/CartContext.jsx:74-76 | with every quantity positive, the count of units is at least the number of lines |
| CartStore.TotalNonNegative | frontend/src/store/CartContext.jsx:69-71 | with no negative price or quantity, the total is not negative |
| CartStore.OneUnitPerLine | frontend/src/store/CartContext.jsx:69-76 | with every quantity positive, the count of units equals the number of lines exactly when every line holds one unit |
| CartStore.TotalsFoldLeft | frontend/src/store/CartContext.jsx:69-76 | total and count start at 0 and grow by price times quantity and by quantity, one line at a time from the left, as `reduce` does |
| CartStore.AddTotals | frontend/src/store/CartContext.jsx:26-42 | with distinct ids, adding raises the count by exactly the quantity and the total by the quantity times the price of the snapshot kept |
| CartStore.MapAddCount | frontend/src/store/CartContext.jsx:32-36 | raising one present id's quantity raises the count by that amount |
| CartStore.MapAddTotal | frontend/src/store/CartContext.jsx:32-36 | raising one present id's quantity raises the total by that amount times the line's price |
| CartStore.AddTwice | frontend/src/store/CartContext.jsx:26-42 | adding one unit twice gives one line of two units |
| CartStore.RemoveAppend | frontend/src/store/CartContext.jsx:46 | removal keeps the relative order of what stays |
| CartStore.RemoveIdempotent | frontend/src/store/CartContext.jsx:46 | removing twice is removing once |
| CartStore.RemoveItemsCount | frontend/src/store/CartContext.jsx:45-47 | removal lowers the count by exactly the quantity held under that id |
| CartStore.UpdateSetsQuantity | frontend/src/store/CartContext.jsx:56-60 | with distinct ids, a positive update of a present product leaves exactly that quantity under its id and changes the count by the difference |
| CartStore.ClearTotals | frontend/src/store/CartContext.jsx:64-76 | a cleared cart counts 0 items and totals 0 |
| CartPage.HandleQuantityChange | frontend/src/pages/Cart.jsx:9-14 | a change that keeps the quantity positive updates it; otherwise the cart is untouched |
| CartPage.IncrementCap | frontend/src/pages/Cart.jsx:91 | a missing or zero stock caps the "+" button at 100; any other stock is the cap |
| CartPage.IncrementDisabled | frontend/src/pages/Cart.jsx:91 | with a missing or zero stock "+" is disabled exactly from 100 units up; otherwise exactly from the stock up |
| CartPage.Press | frontend/src/pages/Cart.jsx:79-121 | an unconfirmed "clear" keeps the cart; a confirmed one empties it; "remove" drops that line's product; "+" does nothing once the line is at its cap and otherwise asks the store for one more unit; "-" asks for one less above 1 and does nothing at 1 |
| CartPage.DecrementAtOneIsNoOp | frontend/src/pages/Cart.jsx:9-14 | "-" on a quantity of 1 changes nothing |
| CartPage.ButtonsKeepWithinCaps | frontend/src/pages/Cart.jsx:79-92 | the quantity buttons never drop a line and keep every quantity between 1 and its cap |
| CartPage.Render | frontend/src/pages/Cart.jsx:16-148 | an empty cart shows the notice; otherwise the summary counts lines, shipping is free and subtotal and total are the cart total |
| CartPage.SummaryCountsLines | frontend/src/pages/Cart.jsx:135 | for any non-empty cart of positive quantities the summary's count is the number of lines, never more than the units, and equal to them exactly when each line holds one unit |
| CartPage.RenderAfterRemove | frontend/src/pages/Cart.jsx:104-110 | with distinct ids, removing a line leaves one line fewer, lowers the total by that line's subtotal, and shows the empty notice exactly when it was the last line |
| CartPage.ClearThenRender | frontend/src/pages/Cart.jsx:116-121 | a confirmed clear renders the empty notice; a declined one renders the page unchanged |
| ProductDetail.Decrement | frontend/src/pages/ProductDetail.jsx:225 | "-" lowers a quantity of 2 or more by one and gives 1 otherwise |
| ProductDetail.Increment | frontend/src/pages/ProductDetail.jsx:239 | "+" adds one below the stock and gives the stock from there up |
| ProductDetail.TypedQuantity | frontend/src/pages/ProductDetail.jsx:235 | an unparsable, zero or negative entry gives 1; an entry above a positive stock gives the stock; with no positive stock the result is 1; an in-range number is kept |
| ProductDetail.SelectorKeepsRange | frontend/src/pages/ProductDetail.jsx:218-241 | when the selector is shown, every control keeps the quantity within 1 and the stock |
| ProductDetail.SelectorShown | frontend/src/pages/ProductDetail.jsx:218 | the selector is shown exactly when the label reads in stock |
| ProductDetail.ActionsDisabled | frontend/src/pages/ProductDetail.jsx:252 | the buttons are disabled only for a sold-out label with the selector hidden, and never for a missing or non-zero stock |
| ProductDetail.IncrementClampsDown | frontend/src/pages/ProductDetail.jsx:225-239 | above the stock, "+" jumps down to the stock while "-" lowers by one |
| ProductDetail.Label | frontend/src/pages/ProductDetail.jsx:191-206 | sold out exactly when stock is not positive; the remaining count shows exactly when stock is below 10 |
| ProductDetail.NegativeStockStaysEnabled | frontend/src/pages/ProductDetail.jsx:191-259 | a negative stock reads as sold out and hides the selector, yet the buttons stay enabled |
| ProductDetail.HandleAddToCart | frontend/src/pages/ProductDetail.jsx:33-38 | nothing happens before the product loads; otherwise the store is asked to add it, without navigating |
| ProductDetail.HandleBuyNow | frontend/src/pages/ProductDetail.jsx:40-45 | the same store call, ending on the checkout page |
| ProductDetail.AddAndBuyAgree | frontend/src/pages/ProductDetail.jsx:33-45 | both buttons add the same product and quantity |
| ProductCard.StockBadge | frontend/src/components/products/ProductCard.jsx:39-49 | a low-stock badge with the count exactly for stock 1 to 9; none from 10 up; sold out otherwise |
| ProductCard.AddDisabled | frontend/src/components/products/ProductCard.jsx:71 | the button is disabled only under the sold-out badge, and never for a missing or non-zero stock |
| ProductCard.AddOne | frontend/src/components/products/ProductCard.jsx:11 | the product is in the cart afterwards, and a line is added exactly when it was absent |
| ProductCard.AddOneAddsOneUnit | frontend/src/components/products/ProductCard.jsx:8-11 | the card adds exactly one unit and never a duplicate line |
| ProductCard.BadgeMatchesLabel | frontend/src/components/products/ProductCard.jsx:39-49 | the card's badge and the product page's label classify every stock alike |
| ProductCard.NegativeStockEnabled | frontend/src/components/products/ProductCard.jsx:39-71 | a negative stock shows "sold out" while the button stays enabled |
| ProductsPage.BuildParams | frontend/src/pages/Products.jsx:22-24 | each parameter is sent exactly when its input is non-empty, with that value |
| ProductsPage.ParseSortMode | frontend/src/pages/Products.jsx:30-36 | only the three known values sort; anything else keeps server order |
| ProductsPage.NameLeq | frontend/src/pages/Products.jsx:35 | a name comes no later than any name it is a prefix of, and a non-empty name never before the empty one |
| ProductsPage.NameLeqAntisymmetric | frontend/src/pages/Products.jsx:35 | two names that each come no later than the other are equal |
| ProductsPage.SortProducts | frontend/src/pages/Products.jsx:30-36 | the result is a permutation; an unknown mode leaves the list as it came |
| ProductsPage.NameLeqTotal | frontend/src/pages/Products.jsx:35 | the name order compares any two names |
| ProductsPage.NameLeqTransitive | frontend/src/pages/Products.jsx:35 | the name order is transitive |
| ProductsPage.OrderIsTotalPreorder | frontend/src/pages/Products.jsx:30-36 | every comparator the page sorts by is a total preorder |
| ProductsPage.SortPriceAsc | frontend/src/pages/Products.jsx:30-31 | price_asc gives a permutation in non-decreasing price |
| ProductsPage.SortPriceDesc | frontend/src/pages/Products.jsx:32-33 | price_desc gives a permutation in non-increasing price |
| ProductsPage.SortByName | frontend/src/pages/Products.jsx:34-35 | name gives a permutation in name order |
| ProductsPage.FirstIndex | frontend/src/pages/Products.jsx:50 | the position of the first occurrence of a member |
| ProductsPage.DedupMembers | frontend/src/pages/Products.jsx:50 | the category list holds exactly the categories present |
| ProductsPage.DedupSpec | frontend/src/pages/Products.jsx:50 | every category appears exactly once, in order of first occurrence |
| ProductsPage.UniqueCategories | frontend/src/pages/Products.jsx:46-55 | the loop builds exactly the set-based list of first occurrences |
| ProductsPage.CategoriesOncePerProduct | frontend/src/pages/Products.jsx:50 | every product's category appears in the list exactly once |
| Checkout.Dispatch | frontend/src/pages/Checkout.jsx:213-215 | only "mercadopago" goes to the provider; every other method posts an order |
| Checkout.OrElse | frontend/src/pages/Checkout.jsx:49-50 | an empty or absent value falls back |
| Checkout.ToPreferenceItem | frontend/src/pages/Checkout.jsx:46-55 | the item's id parses back to the product id, its price times quantity is the line subtotal, the currency is PEN, the category electronics, and the picture and description are never empty |
| Checkout.PreferenceItems | frontend/src/pages/Checkout.jsx:46-55 | one preference item per cart line, in order |
| Checkout.PreferenceMatchesCart | frontend/src/pages/Checkout.jsx:46-55 | the provider is charged exactly the cart total; each item's id parses back to its product id and the quantity is copied |
| Checkout.ToOrderLine | frontend/src/pages/Checkout.jsx:147-153 | a posted line carries the cart line's product id, name, quantity and price, and its subtotal is price times quantity |
| Checkout.OrderLines | frontend/src/pages/Checkout.jsx:147-153 | one posted line per cart line, in order |
| Checkout.BuildOrder | frontend/src/pages/Checkout.jsx:138-157 | the posted order's lines are the cart's lines mapped in order; it carries the cart total, state "pendiente", the joined customer name, the form's e-mail, phone, address, city, postal code, payment method and notes |
| Checkout.OrderLinesSumToTotal | frontend/src/pages/Checkout.jsx:147-154 | the posted line subtotals add up to the posted total |
| Checkout.OrderLinesSum | frontend/src/pages/Checkout.jsx:147-154 | the line subtotals add up to the cart total |
| Checkout.SubmitMercadoPago | frontend/src/pages/Checkout.jsx:33-129 | an empty cart only alerts; the page leaves for the provider's link exactly when the reply is a success with a non-empty link, saving first the pending order with the cart, its total, the form and the preference id; a success without a link shows the missing-link error; every other non-empty case shows an error; the cart is kept |
| Checkout.SubmitAlternative | frontend/src/pages/Checkout.jsx:131-190 | a successful post clears the cart and goes home; a failed one keeps the cart and shows the error |
| Checkout.Submit | frontend/src/pages/Checkout.jsx:213-215 | the cart changes only by being cleared after an order was posted by a method other than "mercadopago" |
| Models.ProductIndex | backend/app/api/routes/products.py:53 | the position of the first row with that id; none exactly when no row has it |
| Models.FindProduct | backend/app/api/routes/products.py:53 | the row at the first position with that id; none exactly when no row has it |
| Models.UserRows | backend/app/api/routes/cart.py:19 | exactly the cart rows of that user |
| UserSchemas.ValidateUserCreate | backend/app/schemas/user.py:7-11 | accepted exactly when the username has 3 to 50 characters and the password at least 6; each failing field is named |
| UserSchemas.ValidateUserUpdate | backend/app/schemas/user.py:35-38 | accepted exactly when no password is sent or it has at least 6 characters |
| UserSchemas.ToResponse | backend/app/schemas/user.py:21-31 | the response copies id, username, e-mail, full name and both account flags, and has no password field |
| UserSchemas.IssueToken | backend/app/api/routes/auth.py:37-46 | the token's subject is the username, its type is "bearer" and its user part is that account's public response |
| AuthService.GetUserByUsername | backend/app/services/auth_service.py:7-9 | the first user with exactly that username; none exactly when no user has it |
| AuthService.EmailIndex | backend/app/services/auth_service.py:11-13 | the position of the first user with that e-mail |
| AuthService.GetUserByEmail | backend/app/services/auth_service.py:11-13 | the first user with exactly that e-mail; none exactly when no user has it |
| AuthService.CreateUser | backend/app/services/auth_service.py:15-27 | a new active, non-admin row with the next id copies e-mail, username and full name and stores only the hash |
| AuthService.AuthenticateUser | backend/app/services/auth_service.py:29-36 | the user with that username when the password verifies against its hash; none otherwise |
| Dependencies.GetCurrentUser | backend/app/api/dependencies.py:12-31 | 401 for an unverifiable token or an unknown username; otherwise that username's user |
| Dependencies.GetCurrentActiveUser | backend/app/api/dependencies.py:34-38 | passes exactly the active users; inactive ones get 400; earlier errors pass through |
| Dependencies.GetCurrentAdminUser | backend/app/api/dependencies.py:41-48 | passes exactly the active administrators; other active users get 403 |
| Dependencies.AdminDecisionTable | backend/app/api/dependencies.py:12-48 | the status for every kind of caller (401, 400, 403, admitted); every admitted caller is an active administrator |
| Dependencies.InactiveAdminIsBadRequest | backend/app/api/dependencies.py:34-48 | an inactive administrator gets 400, not 403 |
| AuthRoutes.Register | backend/app/api/routes/auth.py:25-46 | 422 for a bad body; a taken username gives 400 "Username ya registrado", checked before the e-mail, and otherwise a taken e-mail gives 400 "Email ya registrado"; it succeeds exactly when both are unused, creating the user and issuing its token |
| AuthRoutes.Login | backend/app/api/routes/auth.py:52-74 | succeeds exactly when authentication does, returning the token issued to the authenticated account; otherwise 401 |
| AuthRoutes.GetMe | backend/app/api/routes/auth.py:80-82 | the public response of the current active user; a credential error passes through with its status and detail |
| AuthRoutes.MakeAdmin | backend/app/api/routes/auth.py:88-105 | 404 for an unknown e-mail; otherwise only the first account with that e-mail gains the admin flag |
| AuthRoutes.RegisterKeepsAccountsUnique | backend/app/api/routes/auth.py:27-35 | registration keeps usernames and e-mails unique |
| AuthRoutes.RegisteredTokenAuthenticates | backend/app/api/routes/auth.py:35-46 | the token issued at registration resolves, through the active-user check, to the new account |
| AuthRoutes.LoginTokenResolves | backend/app/api/routes/auth.py:57-74 | a login token resolves to the account that logged in |
| AuthRoutes.MakeAdminIdempotent | backend/app/api/routes/auth.py:96-101 | promoting twice is promoting once |
| ProductSchemas.ValidateProductCreate | backend/app/schemas/product.py:7-22 | accepted exactly when the name and slug have 1 to 200 characters, the price and the set optional amounts are positive, and the stock is not negative |
| ProductSchemas.ValidateProductUpdate | backend/app/schemas/product.py:26-41 | the same bounds, applied only to the fields sent |
| ProductSchemas.ToRow | backend/app/api/routes/products.py:89 | the row has the given id and stores every field of the request; a stock, active flag or featured flag left out becomes 0, active and not featured; a valid request gives a valid row |
| ProductSchemas.ApplyUpdate | backend/app/api/routes/products.py:112-114 | keeps the id; an empty patch changes nothing; a valid patch keeps a valid row valid |
| ProductSchemas.UpdatesCompose | backend/app/api/routes/products.py:112-114 | two patches in a row act as their combination; repeating a patch changes nothing more |
| ProductSchemas.UpdateSetsSentFields | backend/app/api/routes/products.py:112-114 | for each of the fifteen fields, a sent value lands in the row and an unsent field keeps its value; the id never changes |
| ProductSchemas.UpdateNoOpIff | backend/app/api/routes/products.py:112-114 | an update leaves the row unchanged exactly when every field it sends already holds the sent value |
| ProductRoutes.Matching | backend/app/api/routes/products.py:24-34 | exactly the products that pass every active filter |
| ProductRoutes.FiltersChain | backend/app/api/routes/products.py:27-34 | applying the four filters one after another, as the query chains them, keeps exactly the products and the order that the combined filter keeps |
| ProductRoutes.GetProducts | backend/app/api/routes/products.py:13-47 | 422 outside skip >= 0 and 1 <= limit <= 100; otherwise the window of at most `limit` matches starting at `skip`, the match count, the page number and the page count |
| ProductRoutes.PageCount | backend/app/api/routes/products.py:46 | the page count is the least number of pages of `limit` that holds every match, and 0 exactly when nothing matches |
| ProductRoutes.EveryMatchIsListed | backend/app/api/routes/products.py:40-46 | each match appears on the page the arithmetic predicts, numbered no higher than the page count |
| ProductRoutes.UnfilteredCountsAll | backend/app/api/routes/products.py:24-37 | without filters every product is counted |
| ProductRoutes.GetProduct | backend/app/api/routes/products.py:50-59 | found exactly when some row has that id; otherwise 404 |
| ProductRoutes.SlugIndex | backend/app/api/routes/products.py:65 | the position of the first product with that slug |
| ProductRoutes.GetProductBySlug | backend/app/api/routes/products.py:62-71 | found exactly when some row has that slug; otherwise 404 |
| ProductRoutes.CreateProduct | backend/app/api/routes/products.py:74-93 | credential errors pass through; 422 for a bad body; 400 for a taken slug; 500 when the row breaks the table's SKU or category constraints; otherwise the new row with the next id is appended |
| ProductRoutes.UpdateProduct | backend/app/api/routes/products.py:96-118 | credential errors pass through; 422 for a bad patch; 404 for an unknown id; 500 when the patched row breaks the slug, SKU or category constraints; otherwise only that row changes |
| ProductRoutes.DeleteProduct | backend/app/api/routes/products.py:121-137 | credential errors pass through; 404 for an unknown id; 500 when an order line refers to the product; otherwise only that row goes |
| ProductRoutes.CreateThenGet | backend/app/api/routes/products.py:74-93 | creation keeps slugs unique and ids fresh, and the new product is what both lookups return |
| ProductRoutes.UpdateThenGet | backend/app/api/routes/products.py:104-118 | after an update the id resolves to the updated row, and ids stay fresh |
| ProductRoutes.DeleteThenGet | backend/app/api/routes/products.py:128-137 | with unique ids, a deleted product is no longer found |
| ProductRoutes.DeleteKeepsOrderLinks | backend/app/api/routes/products.py:135-136 | a successful delete leaves every order line referring to a stored product |
| CategoryRoutes.NameIndex | backend/app/api/routes/categories.py:18 | the position of the category with that name |
| CategoryRoutes.CreateCategory | backend/app/api/routes/categories.py:13-32 | 400 exactly when the name is taken; otherwise a new row with the next id copies the four fields |
| CategoryRoutes.GetCategories | backend/app/api/routes/categories.py:38-40 | lists every category |
| CategoryRoutes.CreateKeepsNamesUnique | backend/app/api/routes/categories.py:18-32 | names stay unique, and the new category is the last in the model's table order |
| CategoryRoutes.SlugNotChecked | backend/app/api/routes/categories.py:18-26 | whether a creation succeeds never depends on the slug, and the slug is stored as sent |
| CartSchemas.ValidateQuantity | backend/app/schemas/cart.py:7-14 | a quantity is accepted exactly when it is positive |
| CartRoutes.RowsSumsAppend | backend/app/api/routes/cart.py:21-22 | subtotal and item count add up over joined row lists |
| CartRoutes.RowsQuantity | backend/app/api/routes/cart.py:22 | with every quantity positive, the item count is at least the number of rows |
| CartRoutes.RowsSubtotalNonNegative | backend/app/api/routes/cart.py:21 | with no negative price or quantity, the subtotal is not negative |
| CartRoutes.GetCart | backend/app/api/routes/cart.py:13-28 | exactly the user's rows in table order, the sum of price times quantity over those rows and the sum of their quantities |
| CartRoutes.ExistingIndex | backend/app/api/routes/cart.py:54-57 | the user's row for that product, if any |
| CartRoutes.OwnedIndex | backend/app/api/routes/cart.py:87-90 | the row with that id, only if the user owns it |
| CartRoutes.AddToCart | backend/app/api/routes/cart.py:31-76 | credential errors pass through; 422 for a quantity that is not positive, then 404 for an unknown product, then 400 for short stock; otherwise it merges into the user's row, keeping its price, or appends one at the current price |
| CartRoutes.UpdateCartItem | backend/app/api/routes/cart.py:79-109 | credential errors pass through; 422 for a quantity that is not positive, 404 for a row the user does not own, 400 for short stock, 500 for a row whose product is gone; otherwise that row takes the quantity |
| CartRoutes.RemoveFromCart | backend/app/api/routes/cart.py:112-132 | succeeds exactly for a row the user owns, deleting only it; otherwise 404 |
| CartRoutes.ClearCart | backend/app/api/routes/cart.py:135-143 | leaves exactly the other users' rows |
| CartRoutes.CartKeepsQuantitiesPositive | backend/app/api/routes/cart.py:31-143 | every cart endpoint keeps all quantities positive |
| CartRoutes.ReplaceOwnRowCount | backend/app/api/routes/cart.py:61 | replacing one of a user's rows changes their count by the quantity difference |
| CartRoutes.AppendOwnRowCount | backend/app/api/routes/cart.py:67-73 | a new row of the user's raises their count by its quantity and leaves others' rows alone |
| CartRoutes.AddRaisesCountByQuantity | backend/app/api/routes/cart.py:53-76 | adding raises the user's item count by exactly the quantity, whether merged or new, and leaves other users' rows untouched |
| CartRoutes.AddMayExceedStock | backend/app/api/routes/cart.py:47-61 | the stock check ignores what is already in the cart, so a row can exceed the stock |
| CartRoutes.UpdateTouchesOneRow | backend/app/api/routes/cart.py:106-109 | after an update the owned row holds the new quantity and other users' rows are untouched |
| CartRoutes.RemoveTouchesOwnRowsOnly | backend/app/api/routes/cart.py:119-131 | removal deletes one row and no other user's row |
| CartRoutes.ClearEmptiesOwnCart | backend/app/api/routes/cart.py:141 | after clearing, the user's cart reads back empty with no subtotal and no items, and other users' rows are kept |
| OrderSchemas.ValidateOrderCreate | backend/app/schemas/order.py:8-38 | accepted exactly when the four required shipping texts are non-empty and every quantity is positive |
| OrderRoutes.LineFor | backend/app/api/routes/orders.py:57-67 | a line keeps the product id and the client's price and quantity |
| OrderRoutes.FirstBadItem | backend/app/api/routes/orders.py:42-55 | the position of the first item whose product is missing or whose stock is short; every earlier item passes |
| OrderRoutes.PriceItem | backend/app/api/routes/orders.py:43-67 | one item passes exactly when its product exists with enough stock; 404 for a missing product, 400 for short stock; a passing item gets its line |
| OrderRoutes.PriceLines | backend/app/api/routes/orders.py:42-67 | a successful loop gives one line per item |
| OrderRoutes.PriceLinesOk | backend/app/api/routes/orders.py:42-67 | the loop succeeds exactly when no item fails, giving one line per item built from the product found for it |
| OrderRoutes.PriceLinesError | backend/app/api/routes/orders.py:42-55 | a failed loop reports the first failing item: 404 when its product is missing, 400 when its stock is short |
| OrderRoutes.ShippingCost | backend/app/api/routes/orders.py:70 | shipping is free exactly above 50 and costs 10 otherwise |
| OrderRoutes.DecrementStock | backend/app/api/routes/orders.py:106-107 | only stock changes |
| OrderRoutes.ApplyDecrements | backend/app/api/routes/orders.py:98-107 | the table keeps its length and every row keeps every field but its stock |
| OrderRoutes.CreateOrder | backend/app/api/routes/orders.py:24-115 | credential errors pass through; 422 for a bad body; 400 for no items; for the first failing item 404 when its product is missing and 400 when its stock is short; otherwise the pending order with the next order id, no payment method, payment id or payment time, carries the shipping data and client prices, the summed subtotal, shipping and a zero tax; only the orders, the stock, the user's cart rows and the order counter change |
| OrderRoutes.SubtotalUsesRequestPrices | backend/app/api/routes/orders.py:57-58 | the subtotal is the sum of the client's prices times quantities, whatever the catalogue says |
| OrderRoutes.DecrementOne | backend/app/api/routes/orders.py:106-107 | with unique ids, one decrement lowers exactly that product's stock |
| OrderRoutes.StockLoweredByOrderedUnits | backend/app/api/routes/orders.py:98-107 | with unique ids, each product's stock drops by exactly the units of it ordered, and nothing else changes |
| OrderRoutes.OversellWithRepeatedItem | backend/app/api/routes/orders.py:42-107 | a product listed twice against a stock of 1 is accepted and ends at stock -1 |
| OrderRoutes.ShippingThreshold | backend/app/api/routes/orders.py:70 | a subtotal of exactly 50 still pays shipping |
| OrderRoutes.GetMyOrders | backend/app/api/routes/orders.py:118-125 | a rearrangement of exactly the user's orders |
| OrderRoutes.MyOrdersNewestFirst | backend/app/api/routes/orders.py:124 | the listing holds exactly the user's orders in non-increasing creation time |
| OrderRoutes.OrderIndex | backend/app/api/routes/orders.py:135 | the position of the first order with that id |
| OrderRoutes.GetOrder | backend/app/api/routes/orders.py:128-150 | credential errors pass through; 404 for an unknown id; the owner and administrators get the order; anyone else gets 403 |
| OrderRoutes.ApplyOrderUpdate | backend/app/api/routes/orders.py:170-176 | a sent status, payment id or notes is written and an unsent one kept; nothing else changes except the payment time, which is stamped exactly when the update sets "paid" on an order without one and is never overwritten |
| OrderRoutes.UpdateOrder | backend/app/api/routes/orders.py:153-180 | credential errors pass through; 404 for an unknown order; it succeeds exactly for an admin and a known order; only that order changes |
| OrderRoutes.UpdateIdempotent | backend/app/api/routes/orders.py:170-176 | applying the same update twice, at any two times, is applying it once |
| OrderRoutes.CreatorReadsOrderBack | backend/app/api/routes/orders.py:87-150 | with fresh order ids, the creator reads the new order back and ids stay fresh; another active user who is neither owner nor admin gets 403 |
| OrderRoutes.UpdateThenReadOrder | backend/app/api/routes/orders.py:153-180 | after an update the administrator reads the updated order back, under the same id, with the sent status or the old one |
| OrderRoutes.PaymentTimeSetOnce | backend/app/api/routes/orders.py:175-176 | marking paid stamps a payment time that later updates never move |
| OrderRoutes.PaidWithoutTimeStaysUntimed | backend/app/api/routes/orders.py:175 | an update that does not send the status never stamps a time, even on a paid order |
| Config.WithDefaults | backend/app/config.py:15-25 | algorithm HS256, 30-minute tokens, development, debug and the two local origins by default |
| Config.CorsOrigins | backend/app/config.py:31-33 | one origin per comma-separated piece, none containing a comma |
| Config.OriginsAreStripped | backend/app/config.py:33 | every origin is stripped of surrounding whitespace |
| Config.OriginsJoinBack | backend/app/config.py:31-33 | when no piece has whitespace at its ends, the origins joined by commas are the setting as written |
| Config.OriginsFromList | backend/app/config.py:31-33 | any non-empty list of stripped, comma-free origins written with commas between them reads back as that list |
| Config.TwoCleanOrigins | backend/app/config.py:33 | two clean origins joined by a comma read back as they are |
| Config.DefaultOrigins | backend/app/config.py:25-33 | the default gives exactly the two localhost origins |
| Config.TrailingCommaGivesEmptyOrigin | backend/app/config.py:33 | a trailing comma yields an empty last origin |
| Config.DatabaseUrl | backend/app/config.py:27-29 | the URL starts with the postgresql+psycopg2 scheme |
| Config.CutAt | backend/app/config.py:29 | a string cut at the first separator: the parts rebuild it and the first part has no separator |
| Config.DatabaseUrlRoundTrip | backend/app/config.py:27-29 | the URL reads back to its five parts when they contain no clashing separator |
| Config.UnescapedCredentialsCollide | backend/app/config.py:29 | unescaped credentials let two different settings give one URL |
| Seqs.FindIndex | backend/app/services/auth_service.py:9 | the first element satisfying the condition, and none exactly when no element does |
| Seqs.Filter | backend/app/api/routes/cart.py:19 | an element is kept exactly when it is in the input and satisfies the condition; nothing is dropped when every element satisfies it |
| Seqs.FilterAppend | backend/app/api/routes/cart.py:19 | filtering distributes over concatenation |
| Seqs.FilterUpdateDropped | backend/app/api/routes/cart.py:61 | replacing a dropped element by a dropped one leaves the filter unchanged |
| Seqs.FilterRemoveDropped | backend/app/api/routes/cart.py:130 | deleting a dropped element leaves the filter unchanged |
| Sorting.SortSorted | backend/app/api/routes/orders.py:124 | for a total preorder, the sort gives a sorted permutation |
| Text.SplitCount | backend/app/config.py:33 | a split yields one piece more than there are separators |
| Text.SplitPiecesClean | backend/app/config.py:33 | no piece contains the separator |
| Text.JoinSplit | backend/app/config.py:33 | joining the pieces with the separator gives back the input |
| Text.SplitJoin | backend/app/config.py:33 | splitting undoes joining when no part holds the separator |
| Text.SplitConcat | backend/app/config.py:33 | a separator between two strings splits their pieces apart |
| Text.Strip | backend/app/config.py:33 | the infix left after dropping whitespace at both ends, with no whitespace at either end |
| Text.StripIdempotent | backend/app/config.py:33 | stripping twice is stripping once |
| Text.IntToStringRoundTrip | frontend/src/pages/Checkout.jsx:47 | a decimal id parses back to the number it came from |

## Left out

- JSON encoding, HTTP transport, the database session, and React state and rendering are not modelled. Each route and handler is a function from its inputs to its result.
- Floating point is not modelled: money is exact, and `toFixed` formatting is left out.
- Token signing and expiry, password hashing, and the e-mail syntax check of `EmailStr` are not modelled. Their results are inputs.
- `generate_order_number` and the clock are not modelled. The order number and the time are inputs.
- The payment provider, the payments route and the seeding scripts are not part of this model.
- The shared `cartStore` and `authStore` used by the product page and checkout are not part of this model. Their calls are recorded as effects, or their results are inputs.
- ProductRoutes.Matching: the `ilike '%search%'` match is an abstract function. Its wildcard and case-folding rules belong to the database.
- ProductsPage.NameLeq: `localeCompare` is approximated by code-point order, because locale collation tables are outside the model.
- ProductsPage.SortProducts: the stability of the browser's sort is not stated. Only the permutation and the order are.
- OrderRoutes.MyOrdersNewestFirst: the order among orders created at the same instant is left open, as SQL `ORDER BY` leaves it.
- ProductSchemas.ApplyUpdate: an explicit JSON `null` in a patch is treated like an absent field. The model's request types cannot express it.
- ProductRoutes.UpdateProduct: the unique and foreign-key constraints are read from the product model's columns (slug and SKU unique, category a stored one); an integrity error is a 500 whose detail text is not meaningful.
- ProductRoutes.DeleteProduct: the order-line reference is taken to block a delete; the cart table's own constraint is not part of this model, so cart rows may keep a deleted product's id.
- Models: the table order stands for the order of `.first()` and of the listings; SQL promises no row order without `ORDER BY`, so "first" and "last" in this model are relative to that chosen order.
- ProductRoutes.GetProducts: the window is taken from the model's table order, for the same reason; the query has no `ORDER BY`.
- OrderRoutes.ApplyOrderUpdate: an explicit JSON `null` for a field is treated like an absent field. The model's request types cannot express it.
- Checkout.BuildOrder: the store's `getTotal` is taken to be CartStore.Total of the same cart; the shared store instance is not part of this model. Checkout.OrderLinesSumToTotal and Checkout.PreferenceMatchesCart rest on the same reading.
- ProductRoutes.CreateProduct: when credentials and body are both wrong, the credential error is reported first. The framework's actual order is not part of this model.
- AuthService.CreateUser: the user table's defaults (active, not administrator) are assumed. The user model file is not part of this model.
- UserSchemas.ToResponse: the `created_at` timestamp of the response is not modelled.
- Checkout.SubmitAlternative: the payment instructions shown in the alert are not modelled. Whether the order POST succeeded is an input.
- Checkout.BuildOrder: the `fecha` field (the submission time) is not modelled, because the clock is not part of this model.
- Checkout.BuildOrder: the payload's keys (`cliente`, `cantidad`, `precio`, `metodoPago`) are not those of the backend's `OrderCreate` (`shipping_name`, `shipping_country`, `quantity`, ...), so this backend would refuse the post with 422. The model does not connect the two; Checkout.SubmitAlternative takes the post's outcome as an input.
- CategoryRoutes.CreateCategory: the categories table's own constraints (a unique slug, say) are not modelled; the category model file is not part of this model.
- CartRoutes.UpdateCartItem: the 500 for a row whose product was deleted stands for the uncaught attribute error. Its detail text is not meaningful.
