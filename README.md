# Online medicine delivery — a verified model of its core

This project models the business logic of an online medicine delivery
system made of three back-end services and a web client.

- **Order service.** It identifies the caller from a bearer token. It checks
  the order request against its schema and checks stock for every line. It
  then writes the order, one item row per line and the stock decrements, and
  publishes `order.created`. It also answers the caller's orders, the full
  listing (administrators only) and a single owned order.
- **Delivery service.** It turns every `order.created` event into a
  `PENDING` delivery row. It accepts status commands, which update every row
  of the order or insert one. It answers the latest delivery of an order.
- **Catalog service.** It validates medicines and gates writes behind an
  `ADMIN` token. It answers listings through a key–value cache and a
  `LIKE` search. Create, update and delete each invalidate every `meds:`
  cache key; update builds a parameterised statement.
- **Web client.** It keeps the cart in App.jsx and on the cart page, sends
  checkout as an order request, attaches the `Authorization` header, picks
  the API base, and maps error responses to the messages it shows.

Modules:

| module | file |
|---|---|
| `Wrappers` | `wrappers.dfy` |
| `Tokens` | `tokens.dfy` |
| `Text` | `text.dfy` |
| `SqlLike` | `sql_like.dfy` |
| `OrderService` | `order.dfy` |
| `DeliveryService` | `delivery.dfy` |
| `CatalogService` | `catalog.dfy` |
| `AppCart` | `app_cart.dfy` |
| `CartPage` | `cart_page.dfy` |
| `ApiClient` | `api.dfy` |

- `Wrappers` holds `Option` and `Response`.
- `Tokens` holds the token claims.
- `Text` holds string helpers, ASCII case mapping and decimal rendering.

How the model represents the system:

- **Tables.**
  - Tables are fields of a class for each service: `OrderStore`,
    `DeliveryStore` and `CatalogStore`.
  - Keyed tables are `map`s; tables read in insertion order are `seq`s.
  - Every handler that writes is a `method` whose `ensures` states the
    complete new state as a function of the old one.
- **Publishing.** A publish is an append to an `outbox` field, and the
  AMQP channel's presence is a flag.
- **Clock.** `NOW()` is a clock counter that advances once per statement.
- **Cache.** The Redis cache is a `map` from key to listing.
- **Money.** Order money is integer cents. Catalog prices and JSON numbers
  are exact `real`s.
- **Token decoding.** The token decoders (`jwt.decode`, `jwt.verify`) are
  function parameters that yield `None` where the library would fail.
- **Shared cart objects.** The client mutates shared cart objects in two
  places: `found.qty += 1` in `addToCart` and `newCart[index].qty = …` in
  `updateQuantity`. Both are modelled on an `array` the method modifies, so
  the aliasing of the previous state is visible in the contract.

## Model

| member | source | states |
|---|---|---|
| OrderService.GetUserNeedsBearer | services/order/src/index.js:37-41 | a header that does not start with `Bearer ` identifies nobody |
| OrderService.GetUserIsCaseSensitive | services/order/src/index.js:37-41 | `bearer ` and `BEARER ` never identify anyone: the prefix test is case-sensitive |
| OrderService.ParseLines | services/order/src/index.js:17-20 | the items are accepted iff every id and quantity is a positive integer, and then they are read back one line per item, in order |
| OrderService.ParseOrder | services/order/src/index.js:17-23 | the request is accepted iff every item is well formed and the address is at least five UTF-16 units long, as JavaScript measures it; the address and lines are kept |
| OrderService.EmptyItemsPassSchema | services/order/src/index.js:17-23 | an empty item list with a valid address passes the schema |
| OrderService.IdsCheckNeverRejects | services/order/src/index.js:54-57 | the re-check of the ids after the schema can never reject a body the schema accepted |
| OrderService.Lookup | services/order/src/index.js:60-61 | the bulk lookup holds exactly the requested ids that exist, each with that medicine's price and stock |
| OrderService.LookupCountIff | services/order/src/index.js:60-64 | the lookup returns one row per requested id iff the ids are pairwise distinct and all exist, so an unknown id and a repeated id both fall short |
| OrderService.FirstShort | services/order/src/index.js:66-71 | finds the first line, in item order, whose stock is below its quantity, and None only when no line is short |
| OrderService.Screen | services/order/src/index.js:46-73 | an order that proceeds has existing distinct ids, positive quantities, no under-stocked line, and exactly the lookup of its ids |
| OrderService.ScreenProceedIff | services/order/src/index.js:46-73 | an order proceeds iff the caller is identified, the body passes the schema, the ids are distinct and exist, and every line's stock covers its quantity |
| OrderService.BadIdsRejected | services/order/src/index.js:60-64 | an unknown or repeated id gives 400 `invalid medicine id(s)` whatever the stock |
| OrderService.InsufficientStockNamesFirst | services/order/src/index.js:66-71 | with good ids, the order is refused iff a line is under-stocked, and the error names the first such medicine in item order |
| OrderService.ItemRowsSpec | services/order/src/index.js:82-88 | one item row per line, with that line's medicine and quantity and the price read at lookup |
| OrderService.DecrementSpec | services/order/src/index.js:82-90 | with distinct ids each ordered medicine's stock drops by exactly its quantity; every other medicine, and the key set, is unchanged |
| OrderService.DecrementKeepsStockNonNegative | services/order/src/index.js:66-90 | decrementing only lines whose stock covers the quantity keeps every stock non-negative |
| OrderService.LocalPart | services/order/src/index.js:113 | the local part is a prefix of the email without `@`, ending at the first `@` or at the end |
| OrderService.CreatedEventSpec | services/order/src/index.js:93-120 | the event carries the order's id, owner, address and total; the users row's email and name, falling back to the token's, and the name to the email's local part; one `Medicine <id>` item per line with its quantity and price |
| OrderService.OrderStore.PlaceOrder | services/order/src/index.js:46-128 | a refusal writes and publishes nothing; success appends exactly one `PLACED` order of the caller with total Σ price × quantity, its item rows and the stock decrements, and publishes the event when the channel is up; stock stays non-negative and order ids stay serial, given that the caller has an email (see "Left out") |
| OrderService.OrderStore.InsertOrder | services/order/src/index.js:76-90 | the insert loop appends the order row and the item rows and applies every line's stock decrement, touching nothing else |
| OrderService.ScreenOrder | services/order/src/index.js:46-73 | the handler's checks, run step by step, give the verdict `Screen` specifies and, on success, the total of the lines |
| OrderService.CheckStock | services/order/src/index.js:66-73 | the stock-check loop stops at the first short line and otherwise sums Σ price × quantity |
| OrderService.NewestFirstSpec | services/order/src/index.js:135 | a filtered listing holds exactly the kept orders, with ids strictly descending |
| OrderService.WithItemsSpec | services/order/src/index.js:137-148 | every listed order keeps its place and carries exactly its own item rows, named |
| OrderService.OwnItems | services/order/src/index.js:139-144 | the join of an order's item rows lists every item row of that order and no other, each with its medicine's name while the medicine exists, and none after it is gone |
| OrderService.ItemsOf | services/order/src/index.js:137-150 | an order's items are exactly the item rows of that order |
| OrderService.ListMyOrdersSpec | services/order/src/index.js:131-153 | 401 without an identity; otherwise exactly the caller's orders, highest id first, each with exactly its own item rows, every one joined with its medicine's name while that medicine exists |
| OrderService.ListAllOrdersSpec | services/order/src/index.js:156-167 | 401 without an identity, 403 unless the role is `ADMIN`, otherwise every order, newest first |
| OrderService.FindOwned | services/order/src/index.js:175-176 | the found order has the requested id and the caller as owner, and None means no such order exists |
| OrderService.GetOrderSpec | services/order/src/index.js:170-183 | 401 without an identity; otherwise a single order is answered only when both its id and its owner match, with exactly its items, and 404 otherwise |
| DeliveryService.ParseStatus | services/delivery/src/index.js:66 | a string is accepted iff it is one of the five allowed names, and it reads back as the status of that name |
| DeliveryService.StatusNamesAllowed | services/delivery/src/index.js:66 | every status parses back from its own name, and the allowed list is exactly the five status names |
| DeliveryService.CheckStatus | services/delivery/src/index.js:65-76 | `status required` iff the status is empty; `bad status`, with the upper-cased value, iff the upper-cased value is not allowed; otherwise the named status |
| DeliveryService.CheckStatusIgnoresCase | services/delivery/src/index.js:65-66 | a status written in upper or lower case is accepted as the same status |
| DeliveryService.SetStatusSpec | services/delivery/src/index.js:79-83 | the update gives every row of the order the new status and timestamp and keeps every other row and the row count |
| DeliveryService.SetStatusKeepsCounts | services/delivery/src/index.js:79-83 | the update changes no order's row count |
| DeliveryService.Latest | services/delivery/src/index.js:52-54 | the latest row exists iff the order has a row, and it is a row of that order whose timestamp no other row of that order exceeds |
| DeliveryService.LatestAfterAppend | services/delivery/src/index.js:37-38 | a row stamped after every other row becomes its order's latest |
| DeliveryService.LatestAfterSetStatus | services/delivery/src/index.js:79-83 | after the update the order's latest row has the new status and the update's timestamp |
| DeliveryService.GetDeliverySpec | services/delivery/src/index.js:50-57 | 404 `not found` iff the order has no row, otherwise a row of the order with the greatest timestamp |
| DeliveryService.ConsumeOrderCreatedSpec | services/delivery/src/index.js:32-43 | consuming an order's event appends exactly one row, and the order's latest delivery becomes `PENDING` with the order's address and courier `SpeedX`, even when rows existed |
| DeliveryService.RedeliveryDuplicates | services/delivery/src/index.js:35-38 | the same event consumed twice adds two rows for the order: nothing deduplicates |
| DeliveryService.DeliveryStore.Consume | services/delivery/src/index.js:32-44 | `order.created` appends one `PENDING` row and publishes `delivery.updated`; other events are acknowledged with no write and no publish; a cancellation or an unparsable body is not acknowledged |
| DeliveryService.DeliveryStore.Patch | services/delivery/src/index.js:60-108 | a missing status answers `status required`; an unknown one answers `bad status` with the upper-cased value and the allowed list; either refusal writes and publishes nothing; otherwise every row of the order takes the status, or one `UNKNOWN` row is inserted when there is none; `delivery.updated` is published when the channel is up, and the returned row carries the new status and timestamp |
| DeliveryService.PatchThenGet | services/delivery/src/index.js:79-103 | after an accepted command the order has a row, exactly one if it had none, and its latest delivery has the commanded status whatever its previous status |
| SqlLike.SubstringPattern | services/catalog/src/index.js:53-57 | for a text without wildcards or backslash, `%q%` matches exactly the strings containing it |
| SqlLike.UnderscoreIsWildcard | services/catalog/src/index.js:53-57 | `_` in the search text is a wildcard: `abc` matches `%a_c%` but does not contain `a_c` |
| CatalogService.MedSchema | services/catalog/src/index.js:19-24 | a body is accepted iff its name is at least two UTF-16 units long, its price is a number at least zero, its stock is an integer at least zero, and any description is a string; the accepted fields are kept |
| CatalogService.PatchSchema | services/catalog/src/index.js:19-24 | the partial schema accepts iff every supplied field passes its check, and keeps exactly the supplied fields |
| CatalogService.SchemaBounds | services/catalog/src/index.js:19-24 | a name shorter than two UTF-16 units, a negative price, or a fractional or negative stock is refused by both schemas; the update schema accepts whatever the create schema does |
| CatalogService.NameBoundCountsUtf16Units | services/catalog/src/index.js:20 | a one-character name outside the Basic Multilingual Plane has JavaScript length two and passes the bound, and a one-letter ASCII name does not |
| CatalogService.RequireAdminSpec | services/catalog/src/index.js:27-37 | 401 iff verification fails, 403 iff a verified role is not `ADMIN`, admitted only for `ADMIN`; a header without the prefix is verified as the empty token, so it gets 401 when the empty token fails verification |
| CatalogService.RemoveId | services/catalog/src/index.js:113 | the delete keeps exactly the rows with another id, in id order |
| CatalogService.BuildUpdate | services/catalog/src/index.js:92-101 | none iff no field was supplied; otherwise one `k=$i` per field with `i` counting from 1 in field order, the field values in order, then the id bound at `$(n+1)` |
| CatalogService.EntriesMerge | services/catalog/src/index.js:92-98 | applying the supplied fields in entry order is the intended merge of the patch |
| CatalogService.StatementMeansMerge | services/catalog/src/index.js:99-101 | the built statement sets each row it targets to the merge of the patch, and targets exactly the row with the id |
| CatalogService.MergeRow | services/catalog/src/index.js:100-101 | the update keeps the table's length, its ids and their order |
| CatalogService.EntriesEmptyIff | services/catalog/src/index.js:92-99 | `no fields` is answered exactly for a patch that supplies no field |
| CatalogService.SearchSpec | services/catalog/src/index.js:53-58 | an empty search lists every row; a search text without wildcards lists exactly the rows whose lower-cased name or description contains it |
| CatalogService.WithoutMedKeysSpec | services/catalog/src/index.js:39-44 | clearing removes exactly the `meds:` keys, keeps every other key's value, and a second clear changes nothing |
| CatalogService.ListingKeysAreCleared | services/catalog/src/index.js:39-49 | every listing key is removed by the cache clear |
| CatalogService.CatalogStore.ClearMedCache | services/catalog/src/index.js:39-44 | the delete loop leaves the cache without its `meds:` keys and changes nothing else |
| CatalogService.CatalogStore.ListMedicines | services/catalog/src/index.js:48-62 | the key is `meds:` plus the lower-cased search; a hit is answered from the cache without a table read, and a miss stores the search result under that key |
| CatalogService.CatalogStore.Create | services/catalog/src/index.js:72-84 | a denied or invalid request writes nothing; an accepted body becomes one new row with the next id, and the `meds:` keys are cleared |
| CatalogService.CatalogStore.Update | services/catalog/src/index.js:87-108 | a denied or invalid request, `no fields`, and a missing id (404) leave the table and cache alone; otherwise only the row with the id changes, to the merge of the supplied fields, and the `meds:` keys are cleared |
| CatalogService.CatalogStore.Delete | services/catalog/src/index.js:111-117 | a denied request or a missing id (404) leaves the table and cache alone; otherwise the row is removed and the `meds:` keys are cleared |
| CatalogService.MergeRowSpec | services/catalog/src/index.js:100-103 | after an update only the row with the id differs, and it differs only in the supplied fields |
| CatalogService.RemoveIdSpec | services/catalog/src/index.js:111-115 | after a delete the id is gone, every other row remains, and the table shrinks when the id existed |
| AppCart.FindIndex | web/src/App.jsx:46 | the found entry is the first with the id, and None means no entry has it |
| AppCart.AddToCart | web/src/App.jsx:44-50 | the new cart is the first matching entry's quantity plus one, or a new entry of one appended; when the entry existed the previous state's array shows the new quantity too |
| AppCart.AddedSpec | web/src/App.jsx:44-50 | adding raises the count by one, keeps ids unique and quantities positive; an existing id keeps the length, and a new one appends `{ ...m, qty: 1 }` |
| AppCart.RemoveByIdSpec | web/src/App.jsx:52-54 | removing keeps exactly the entries with another id, and is the identity on a cart without the id |
| AppCart.RemoveByIdConcat | web/src/App.jsx:52-54 | removal distributes over concatenation, so the remaining entries keep their order |
| AppCart.UpdateCartQuantitySpec | web/src/App.jsx:56-64 | quantity at most zero is removal; otherwise the length is kept, exactly the entries with the id take the quantity, and with unique ids the count moves by the difference |
| AppCart.CountRemove | web/src/App.jsx:52-54 | on positive quantities removal never raises the count, and lowers it when the id was present |
| CartPage.UpdateQuantity | web/src/pages/Cart.jsx:17-22 | below one nothing changes; otherwise the entry at the index takes the quantity in the shared array, and the new cart is that array |
| CartPage.WithQuantitySpec | web/src/pages/Cart.jsx:17-22 | only the position changes and the count moves by the difference; the minus and plus buttons keep every quantity at least one |
| CartPage.RemoveAtSpec | web/src/pages/Cart.jsx:24-27 | removing a position drops exactly that entry and keeps the rest in order; any other index changes nothing |
| CartPage.RemoveAtShortens | web/src/pages/Cart.jsx:24-27 | removing a position shortens the cart by one and lowers the item count by that entry's quantity |
| CartPage.CheckoutItems | web/src/pages/Cart.jsx:11 | one request item per cart entry, in order, carrying its id and quantity |
| CartPage.CheckoutSpec | web/src/pages/Cart.jsx:9-15 | without a token no order is sent and the client goes to `/login`; with one, one item per entry is sent to the fixed address, and the cart is emptied exactly when the request is accepted |
| CartPage.CheckoutPassesOrderSchema | web/src/pages/Cart.jsx:11-12 | the order schema accepts a cart with positive ids and quantities, and reads back exactly its ids and quantities |
| CartPage.ClearCartEmpties | web/src/pages/Cart.jsx:29-194 | Clear Cart leaves an empty cart whose count is zero, so the page shows its empty view and no Checkout button; as a fact about the checkout function alone, which the page never calls here, the request it would build has no items |
| CartPage.ClearedCartIsEmpty | web/src/pages/Cart.jsx:9-15 | after an accepted checkout the cart is empty and its count is zero |
| ApiClient.ResolveApiBaseSpec | web/src/api.js:6-13 | an explicit base loses exactly one trailing `/`, and `VITE_API_BASE` wins over `VITE_API_URL`; otherwise the origin plus `/api`, else the fixed fallback |
| ApiClient.AuthorizationHeader | web/src/api.js:22 | the header is present iff the token is non-empty |
| ApiClient.AuthorizationRoundTrip | web/src/api.js:22 | the order service's getUser and the catalog's admin check read back exactly the token the client sent, and no token identifies nobody |
| Text.ContainsIff | web/src/api.js:33-46 | the recursive `includes` holds exactly when the needle occurs at some position of the text |
| Text.Utf16LengthBounds | services/order/src/index.js:22 | the JavaScript length lies between the character count and twice it, and equals the count on text within the Basic Multilingual Plane |
| ApiClient.FirstMatchSpec | web/src/api.js:33-47 | the earliest matching rule decides, and with no match the error is kept verbatim |
| ApiClient.ClassifyIsFirstMatch | web/src/api.js:33-48 | the if/else chain is the six-rule table in its fixed order, first match winning |
| ApiClient.ErrorMessageSpec | web/src/api.js:26-55 | a JSON body without `error` gives `HTTP <status>`; a non-JSON body gives its text, or `HTTP <status>` when empty; a string `error` is classified first-match and otherwise kept verbatim |
| ApiClient.StatusMessageInjective | web/src/api.js:28 | distinct statuses give distinct `HTTP <status>` messages |

## Left out

- **HTTP plumbing.** Express itself is not modelled: routing, helmet, cors,
  logging middleware and `listen`. Each handler is its decision and its
  effect on the tables.
- **AMQP.** Connecting, exchange and queue declaration, and binding are not
  modelled. A publish is an outbox append. The acknowledgement is the
  boolean `Consume` returns.
- **Server errors.** The answers of the `catch` blocks for database or
  broker failures are not modelled; the model's storage never fails. The
  status PATCH answers such a failure with 500. Other handlers answer it
  with a 400 that carries the exception's message: the order POST, the
  single-order query, and the catalog POST and PUT. The "my orders" and
  `/all` queries answer 500. The catalog listing, the catalog DELETE and
  the delivery GET have no `catch` at all.
- **Schema error wording.** zod's error message text is not modelled. Every
  schema refusal answers `SchemaErrorMessage` in its place.
- **Mistyped order requests.** An order request whose fields have the
  wrong JSON type is not modelled: a string or object given as an id or
  quantity, an `items` that is not an array, an `address` that is not a
  string. zod refuses each with 400, the same answer as any other schema
  refusal. JSON itself has no NaN or infinity. The catalog body does model
  a field of the wrong type.
- **Id width.** The order lookup casts the ids with `ANY($1::int[])`. An id
  that passes the schema but exceeds 2147483647 makes the cast fail, as does
  one that prints in exponent form such as `1e21`. The source then answers
  400 with the database's message. The model has unbounded ids, so it looks
  such an id up and answers `invalid medicine id(s)`.
- **Cache expiry.** The listing cache's 30-second expiry is time-based and
  is not modelled.
- **Money and floats.** Floating-point money is not modelled. Order totals
  are integer cents. The cart page's subtotal, tax and total lines are not
  modelled, and neither is `toFixed`.
- **Concurrency.** Concurrent requests, the check-then-decrement race
  between them, and broker redelivery timing are not modelled. Handlers run
  one at a time.
- **Case mapping.** Only ASCII letters are case-mapped. JavaScript's
  `toUpperCase`/`toLowerCase` and PostgreSQL `LOWER` map other letters too.
- **Unordered queries.** Several reads have no `ORDER BY`, so the database
  may answer their rows in any order. The model answers them in table order:
  - the catalog listing;
  - the `order_items` reads of "my orders" and of the single-order query.
- DeliveryService.DeliveryStore.Patch: an update that touches several rows
  answers `upd.rows[0]`, an unspecified one of them. The contract states
  only that the answered row is one of the order's updated rows, with the
  new status and timestamp.
- DeliveryService.Latest: ties on `updated_at` do arise. The status update
  stamps every row of the order with one `NOW()`. An order has several rows
  after a redelivered event, or after a PATCH that inserted before the event
  arrived, so after the next update those rows tie. The query's
  `ORDER BY updated_at DESC LIMIT 1` may then return any of the tied rows.
  The model returns the earliest of them in table order, and its contract
  promises only a row with the greatest timestamp.
- **Insert timestamps.** The inserts name no `updated_at`. The model assumes
  the column defaults to `NOW()`, stamping each insert with the clock. The
  table's schema is not part of this model.
- **Stray brace.** services/delivery/src/index.js:111 holds a stray `});`
  that makes the file a syntax error. The model gives the handlers their
  evident meaning, as if the brace were absent.
- **Non-string status.** A PATCH status that is not a string (where
  `toUpperCase` throws) is not modelled. The status is a string, "" when
  absent.
- **Array-valued errors.** An `error` field that is an array supports
  `includes` too, but by element; it is modelled as a non-string error.
- **Network.** The `fetch` call is not modelled. Neither is the response's
  `ok` flag on success, nor the JSON answer of a successful request.
- **The remaining catalog reads.** `GET /medicines/:id` and the health
  route are not modelled.
- **Client storage and rendering.** localStorage persistence of the cart
  and token is not modelled, and neither is page rendering or navigation
  beyond checkout's target.
- **Other services.** The notification, gateway and auth services are not
  modelled. They are logging, proxying, bcrypt and token issuance.
- OrderService.OrderStore.PlaceOrder: the token's `email` claim is taken to
  be present, and so is the users row's email. The auth service signs
  `{sub, email, role}` and the gateway verifies `/orders`, but the order
  service itself only decodes the token. A decoded token without `email`,
  for a caller with no users row, or a users row whose email is NULL,
  makes `customer.email.split('@')` throw. That happens after the order
  row, the item rows and the stock decrements are written. The source then
  answers 400 with the exception's message, keeps those writes and
  publishes nothing. The model has no such outcome: its emails are strings,
  so it reports the order as placed and publishes the event.
- **Token libraries.** `jwt.decode` and `jwt.verify` are function
  parameters, and signature checking itself is not modelled. jwt.verify
  refuses the empty token; `RequireAdminSpec` states the 401 for a header
  without `Bearer ` under that premise.
- CatalogService.CatalogStore.Update / Delete: the path parameter is taken
  as an already-parsed integer id. A negative id answers 404, as the source
  does. The source applies `Number()` to any path segment, because the route
  has no digits pattern, and that parse is not modelled:
  - `0x10` and `1e1` act on ids 16 and 10;
  - a segment such as `abc` or `1.5` makes the query fail. The PUT then
    answers 400 with the database's message, and the DELETE has no
    `catch`.
- DeliveryService.DeliveryStore.Consume: requires an open channel. The
  consumer is registered only on one, so its publish is modelled as
  unconditional.
