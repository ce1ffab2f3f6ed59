# Gebeya backend — a Dafny model of its decision rules

Gebeya is a small marketplace backend. Wholesalers list products and
customers place orders against them. This project models the decision rules
inside its Express handlers as pure functions over immutable records. The
database collections become maps and sequences. The authenticated caller and
the clock become parameters.

Modules, one per concern:

- `Results`: the `Result` and `Option` wrappers.
- `Seqs`: sequence helpers.
  - filter and count;
  - first index by key;
  - a stable newest-first sort;
  - top-N and distinctness.
- `Text`: JavaScript whitespace, `trim()` and character classes.
- `Identity`: users, roles and the authenticated caller.
- `Paging`: `skip`/`limit` pages and `ceil(total/limit)` page counts.
- `Numerals`: the texts `isInt` and `isFloat` accept and the numbers they denote.
- `Validation`: the express-validator chains of `server/middleware/validation.js` and the gate `handleValidationErrors`.
- `Helpers`: the phone check, the sanitiser and the delivery day of `server/utils/helpers.js`.
- `ProductSchema`: the Mongoose product schema of `server/models/Product.js` and what `save()` makes of a draft.
- `ProductRoutes`: the product listing and product creation of `routes/products.js`.
- `Orders`: order creation, order listings and status updates of `server/routes/orders.js`.
- `Admin`: the dashboard aggregates, the admin order list and wholesaler approval of `server/routes/admin.js`.
- `Users`: the user list, the profile lookup and the activation switch of `server/routes/users.js`.

Where parts of the code disagree with each other, the model follows each part as written.

- **Order handler vs product schema.** The order handler reads `isActive` and
  `availableQuantity`, but the product schema defines `available` and
  `quantity`. The order workflow therefore runs over its own catalog product
  with the fields the handler reads. The schema is modelled separately.
- **Category and unit enumerations.** The middleware and the schema define
  them differently, and both are kept as written:
  - categories: eight in the middleware, six in the schema;
  - units: different sets of six.
- **Password rule.** The class check is `/^(?=.*[a-z])(?=.*[A-Z])(?=.*\d)/`.
  Its lookaheads' `.` does not cross a line terminator, so only the text
  before the first line break is inspected.
- **Create-product checks.** The route's checks use `not().isEmpty()`. A
  value of only spaces passes them. The schema's `trim` then empties the name
  and `save()` refuses it, which the handler answers with a 500.

## Model

| member | source | states |
|---|---|---|
| Validation.HandleValidationErrors | server/middleware/validation.js:4-14 | The request proceeds exactly when no rule failed. Otherwise it is refused with status 400, listing every failed rule, and its body has one error per failed rule carrying that rule's message. |
| Validation.ValidateRegistration | server/middleware/validation.js:17-40 | Registration proceeds exactly when all five rules hold: trimmed name length 2..50, a valid email, a password of at least 6, the three character classes before any line break, and a role that is absent or `customer`/`wholesaler`. A refusal is a 400 listing exactly the failing rules, each once, in chain order. |
| Validation.ScanClassesDecides | server/middleware/validation.js:31 | The one-pass scan for a lower-case letter, an upper-case letter and a digit agrees with the existence of each class in the text. |
| Validation.PasswordHasClasses | server/middleware/validation.js:31 | The class check holds exactly when the first line of the password contains a lower-case letter, an upper-case letter and a digit. |
| Validation.ClassAfterLineBreakIgnored | server/middleware/validation.js:31 | `abcdef\nA1` fails the class check although it contains all three classes. `abcA1f\n` passes it. |
| Validation.AdminRoleRefused | server/middleware/validation.js:34-37 | A registration asking for the `admin` role is refused, and the role rule is among the errors. |
| Validation.ShortWeakPasswordTwoErrors | server/middleware/validation.js:28-32 | The password `abc`, too short and without an upper-case letter or a digit, yields both password errors: every validator of the chain runs. |
| Validation.ValidateLogin | server/middleware/validation.js:43-54 | Login proceeds exactly when the email is valid and the password is non-empty. A refusal is a 400 listing exactly the failing rules, each once, in chain order. |
| Validation.LoginSkipsComplexity | server/middleware/validation.js:49-51 | A one-letter password passes login validation. |
| Validation.ValidateProduct | server/middleware/validation.js:57-89 | The product form proceeds exactly when no rule of the chain fails. A refusal is a 400 listing exactly the failing rules, each once, in chain order. |
| Validation.ProductAccepted | server/middleware/validation.js:57-89 | The product form proceeds exactly when all seven rules hold: trimmed name length 2..100, trimmed description 10..1000, one of eight categories, `isFloat({min:0})` price, one of six units, `isInt({min:1})` minimum order, and `isFloat({min:0})` quantity. |
| Validation.AcceptedProductNumbers | server/middleware/validation.js:72-86 | On an accepted product form, the price and the quantity denote numbers of at least 0, and the minimum order is an integer of at least 1. |
| Numerals.SplitFloat | server/middleware/validation.js:72-74 | A text that parses as a float splits into sign, digits, optional fraction and optional exponent, and those parts print back to exactly the text. |
| Numerals.RenderSplits | server/middleware/validation.js:72-74 | Parsing the printed form of any well-formed float gives the same parts back. |
| Numerals.IntTextAccepted | server/middleware/validation.js:80-82 | The plain decimal text of any natural number of at least `m` passes `isInt({ min: m })`. |
| Numerals.NatTextRoundTrip | server/middleware/validation.js:80-82 | Reading the decimal text of a natural number gives the number back. |
| Numerals.AcceptedFloatNotNegative | server/middleware/validation.js:72-74 | A text `isFloat({min:0})` accepts denotes a number that is at least 0, including `-0`. |
| Numerals.IntTextIsFloatText | routes/products.js:30-31 | An integer text is also a float text, denoting the same value. |
| Helpers.ValidateEthiopianPhone | server/utils/helpers.js:35-38 | A number is accepted exactly when it is an optional `+251` or `0` prefix, then `9` or `7`, then eight digits. Accepted numbers have length 9, 10 or 13, and a number starting with `251` without the `+` is refused. |
| Helpers.SanitizeInput | server/utils/helpers.js:49-52 | A non-string comes back unchanged. A string comes back no longer than its input and without `<` or `>`, keeping every other character of the trimmed input as often as it occurs and in its order: exactly the trimmed input with its angle brackets filtered out. |
| Helpers.StripAnglesIsFilter | server/utils/helpers.js:51 | Deleting every `<` and `>` is the same as filtering the text on "not an angle bracket", so the remaining characters keep their order. |
| Helpers.StripAnglesAppend | server/utils/helpers.js:51 | Bracket removal works piecewise over concatenation, so the surviving characters keep their order. |
| Helpers.SanitizeKeepsCleanText | server/utils/helpers.js:49-52 | Text with no bracket and no whitespace at either end is returned unchanged. |
| Helpers.SanitizeCanLeaveEdgeSpace | server/utils/helpers.js:51 | Trimming runs before the brackets go: `"a <"` sanitises to `"a "`, which sanitises again to `"a"`. |
| Helpers.CalculateDeliveryDate | server/utils/helpers.js:60-72 | The delivery day is the order day plus 7 exactly when the city is `Gambela`, `Afar` or `Somali` (case-sensitive), and plus 3 otherwise. It is never less than 3 or more than 7 days after the order day. |
| Helpers.RemoteMatchIsExact | server/utils/helpers.js:65-67 | The city list is matched by exact name: `Gambela` gets 7 days, `gambela` gets 3. |
| Helpers.DeliveryKeepsOrder | server/utils/helpers.js:60-72 | A later order to the same city is never delivered earlier. |
| ProductSchema.SchemaErrors | server/models/Product.js:4-52 | The validation errors of a draft are exactly its failing paths, each once, in schema order. |
| ProductSchema.Save | server/models/Product.js:4-52 | A draft is refused exactly when some path fails, and the refusal lists those paths. A saved document is valid: a trimmed non-empty name, a non-empty description, price and quantity at least 0, category and unit from the schema's six. It keeps the draft's values, with `minimumOrder` defaulting to 1 and `available` to true. |
| ProductSchema.UnlistedCategoryRefused | server/models/Product.js:18-22 | A draft with category `legumes` is refused, and the category is among the errors. |
| ProductSchema.BlankNameRefused | server/models/Product.js:4-8 | A name of one space is trimmed to nothing and refused as missing. |
| ProductRoutes.ListAvailable | routes/products.js:10-19 | The listing holds exactly the stored products whose `available` flag is set. |
| ProductRoutes.ListingAfterAdd | routes/products.js:12 | Storing one more product adds it to the end of the listing when it is available, and leaves the listing unchanged otherwise. |
| ProductRoutes.Failures | routes/products.js:28-33 | The failed checks are exactly the fields that are empty or not a number in range, each once, in the order the checks are declared. There is none exactly when every check passes. |
| ProductRoutes.CreateProduct | routes/products.js:23-80 | The request is refused with the failed checks exactly when some check fails. It is refused as not authorised exactly when the checks pass and the caller is not a wholesaler. Only a saved product changes the store: it is appended, and it is valid. |
| ProductRoutes.ChecksComeFirst | routes/products.js:37-40 | A request that fails a check gets a 400 whoever the caller is, and nothing is saved. |
| ProductRoutes.OnlyWholesalersAdd | routes/products.js:46-48 | A caller that is not a wholesaler saves nothing. |
| ProductRoutes.SavedExactlyWhenSchemaAccepts | routes/products.js:61-74 | A wholesaler's request that passes the checks is saved exactly when the schema accepts the draft built from it. |
| ProductRoutes.SavedProductFields | routes/products.js:61-71 | A saved product has the caller as wholesaler whatever the body says, the trimmed name and the request's other fields, `minimumOrder` of 1 when absent or 0, images defaulting to empty, and it shows in the listing. |
| ProductRoutes.SavedProductNumbers | routes/products.js:30-31 | A saved product's price is the number the price text denotes and is at least 0. Its quantity is an integer text's value and is at least 0. |
| ProductRoutes.SchemaRefusalIsServerError | routes/products.js:61-78 | A wholesaler's request that passes the route's checks but whose draft the schema refuses ends in a server error, with nothing stored. |
| ProductRoutes.UnlistedCategoryIsServerError | routes/products.js:73-78 | The category `legumes` passes the route's check but not the schema's enumeration, so a request naming it ends in a server error, with nothing stored. |
| ProductRoutes.BlankNameIsServerError | routes/products.js:73-78 | A one-space name passes the route's check, is refused by the schema, and ends in a server error with nothing stored. |
| ProductRoutes.MinimumOrderOrOne | routes/products.js:68 | A `minimumOrder` of 0 or none becomes 1. Any other number, a negative one included, is kept. |
| Orders.LineFault | server/routes/orders.js:30-68 | A line passes exactly when its product exists, is active, the quantity lies between the minimum order and the stock (both ends included), and the wholesaler matches the earlier lines'. The checks run in the handler's order and the first to fail names the error: not found, then inactive, then below the minimum order, then over the stock, then a different wholesaler. |
| Orders.CreateOrder | server/routes/orders.js:14-120 | A missing or empty cart is refused first. A created order has no failing line. Each item stores the catalog price and total = price × quantity. The total is the sum of the line totals and the wholesaler is the common one. The status is `pending` and `paymentMethod` defaults to `cash`. Every product's stock drops by exactly what the cart asks of it, and no product is added or removed. |
| Orders.CreateOrderFirstFaultWins | server/routes/orders.js:30-68 | The first failing line in input order, with its first failing check, decides the error. A non-empty cart with no failing line is accepted. |
| Orders.ScanStopsAtFirstFault | server/routes/orders.js:30-68 | The loop over the cart stops at the first failing line and returns that line's error. |
| Orders.Decrement | server/routes/orders.js:93-98 | The stock update keeps the same products, and lowers each product's stock by exactly the total quantity the items ask of it. |
| Orders.UnorderedStockUnchanged | server/routes/orders.js:93-98 | A product no line names has no demand, so its stock is unchanged. |
| Orders.RepeatedLineOverdraws | server/routes/orders.js:54-59 | Two lines of 3 against a stock of 5 each pass the stock check, and together they leave a stock of -1. |
| Orders.PaymentOrDefault | server/routes/orders.js:88 | The stored payment method is `cash` exactly when none, an empty one, or `cash` itself was requested. Otherwise it is the requested one. |
| Orders.MyOrders | server/routes/orders.js:125-161 | The page holds at most `limit` of the caller's orders, matching the status filter, newest first: exactly the `page`-th slice of `limit` of all matching orders in newest-first order. The total counts every matching order, and the page count is `ceil(total/limit)`. |
| Orders.WholesalerOrders | server/routes/orders.js:166-202 | The same, for the orders whose wholesaler is the caller: exactly the `page`-th slice of `limit` of those orders, newest first. |
| Orders.UpdateStatus | server/routes/orders.js:207-250 | A missing order is not found, whoever asks. Otherwise the update succeeds exactly for the order's wholesaler or an admin. It sets the status to the requested value and changes nothing else. |
| Admin.DashboardStats | server/routes/admin.js:15-30 | The counts are the collection sizes and the counts by exact role and status: wholesalers plus customers never exceed users, active products are the catalog products flagged `isActive` and never exceed products, pending orders never exceed orders. Revenue sums the delivered orders. |
| Admin.RevenueAppend | server/routes/admin.js:26-30 | The revenue of two order lists together is the sum of their revenues. |
| Admin.RevenueWithoutDeliveries | server/routes/admin.js:26-30 | With no delivered order, the revenue is 0. |
| Admin.NewOrderIsPendingAndEarnsNothing | server/routes/admin.js:20-30 | Adding a newly created order leaves the revenue unchanged and raises the pending count by one. |
| Admin.DeliveringAddsItsTotal | server/routes/admin.js:26-30 | Marking an undelivered order `delivered` adds exactly its total to the revenue. |
| Admin.RecentOrders | server/routes/admin.js:33-37 | Exactly `min(5, n)` orders from the collection, newest first, none taken more often than the collection holds it. No order left out is newer than one kept. |
| Admin.Groups | server/routes/admin.js:40-42 | One group per product that some order line names, each once, carrying the number of lines naming it. |
| Admin.TopGroups | server/routes/admin.js:40-44 | Exactly `min(5, g)` of the `g` groups, of distinct products, each counted once per order line naming it, by count descending. No product left out has more lines than one kept. |
| Admin.JoinCatalog | server/routes/admin.js:45-60 | Every joined entry is a group whose product is in the catalog, with that product's name and category, and every group whose product is in the catalog is joined. |
| Admin.JoinKeepsOrder | server/routes/admin.js:45-53 | Dropping the products missing from the catalog keeps the descending order. |
| Admin.TopProducts | server/routes/admin.js:40-61 | At most five catalog products of distinct ids, by line count descending, each with its true line count and its catalog name and category. Every top group whose product is still in the catalog is present. |
| Admin.AdminOrders | server/routes/admin.js:93-138 | The page is the newest-first page of the orders matching the status alone. The total also applies the search, so it never exceeds the status count and equals it without a search. The page count is `ceil(total/limit)`. |
| Admin.ApproveWholesaler | server/routes/admin.js:143-178 | A missing user is not found. A user who is not a wholesaler is refused. Otherwise only `isVerified` changes, to the requested value. |
| Users.ListUsers | server/routes/users.js:13-54 | The page holds at most `limit` users matching the role and the search, newest first, all of the requested role: exactly the `page`-th slice of `limit` of all matching users in newest-first order. The total counts every match under the same filter, never more than the role alone selects, and every user when neither is given. The page count is `ceil(total/limit)`. |
| Users.GetUser | server/routes/users.js:59-89 | A missing id is not found, whoever asks. An existing profile is returned to the user themself or to an admin, and refused to anyone else. |
| Users.SetActive | server/routes/users.js:94-123 | A missing user is not found. Otherwise only `isActive` changes, to the requested value. |
| Paging.NewestFirstPage | server/routes/orders.js:132-151 | The page holds the matching records from position `(page-1)*limit` of the newest-first order: at most `limit` of them, all from the store. The total counts every match. |
| Paging.TotalPages | server/routes/orders.js:149 | The page count is `ceil(total/limit)`: enough pages for every record, with no empty page at the end. |
| Paging.RecordOnItsPage | server/routes/orders.js:132-151 | Every record appears on page `i/limit + 1`, at position `i % limit`, and that page is within the page count. |
| Paging.PageBeyondLastIsEmpty | server/routes/orders.js:132-151 | A page after the last one is empty. |
| Paging.LastPageHoldsRemainder | server/routes/orders.js:132-151 | The last page holds `total % limit` records, or a full page when that is 0. |

## Left out

- Authentication (`middleware/auth.js`, JWT verification and the user lookup) is not part of this model. The caller arrives as an already-authenticated `Caller` or user id.
- `server/routes/products.js`, `server/routes/auth.js`, `app.js` and `server/server.js` hold routing wiring and bootstrap only, so they are not modelled.
- The helpers `generateRandomString`, `generateTrackingNumber` (randomness and clock), `formatCurrency` (locale formatting), `calculateDistance` (floating-point trigonometry) and `isExpired` (wall clock) are not modelled.
- Helpers.ValidateEthiopianPhone: the argument is text. `regex.test` first converts a non-string argument to text, so the number 912345678 passes in JavaScript; the model does not take non-text arguments.
- Email validity and `normalizeEmail` are a library predicate, so they are a parameter `isEmail` of the validation functions.
- The regular-expression searches of the user list and the admin order list are parameters: optional predicates on a record. How the pattern matches text is not modelled.
- `populate`, projections, indexes and the aggregation pipeline's execution are not modelled. The aggregates are computed directly from the collections.
- Concurrency is not modelled. The model is sequential, so the stock race between two simultaneous orders is absent.
- Error responses from the database (the `catch` blocks answering 500) are modelled in product creation only: when the caller's account is missing (`user.role` of `null` throws) and when the product save refuses a document. Elsewhere the database is assumed to answer.
- The dashboard's `countDocuments({ isActive: true })` at `server/routes/admin.js:21` reads the same `isActive` field the order handler reads, which the product schema does not define. The model counts over the order workflow's catalog product. With the schema as written the answer depends on the Mongoose version: 0 if the filter reaches the database as written, or every product if Mongoose strips filter paths the schema does not know (`strictQuery`).
- Seqs.SortDesc: the newest-first sort is stable, so records with equal `createdAt` keep their store order. The database leaves their order unspecified, so the model fixes one of the orders it may return.
- Orders.LineFault: a line's quantity is an integer. A missing or non-numeric `item.quantity` is not modelled: in JavaScript both `undefined < minimumOrder` and `undefined > availableQuantity` are false, so such a line passes both checks (`server/routes/orders.js:47` and `:54`).
- The query defaults `page = 1` and `limit = 10` (`server/routes/orders.js:127` and `:168`, `server/routes/admin.js:95`, `server/routes/users.js:15`) are not modelled: the listing members take both as arguments, and an absent value stands for 1 and 10 respectively.
- Paging.NewestFirstPage: requires `page` and `limit` of at least 1. Non-numeric, zero or negative query values reach the database driver, whose behaviour is not modelled.
- Orders.MyOrders: requires `page` and `limit` of at least 1. Non-numeric, zero or negative query values reach the database driver, whose behaviour is not modelled.
- Orders.WholesalerOrders: requires `page` and `limit` of at least 1. Non-numeric, zero or negative query values reach the database driver, whose behaviour is not modelled.
- Admin.AdminOrders: requires `page` and `limit` of at least 1. Non-numeric, zero or negative query values reach the database driver, whose behaviour is not modelled.
- Users.ListUsers: requires `page` and `limit` of at least 1. Non-numeric, zero or negative query values reach the database driver, whose behaviour is not modelled.
- Money and quantities in the order workflow are integers (minor units). Product validation and the schema use exact reals, so floating-point rounding, overflow to infinity and underflow of texts such as `1e-400` are not modelled.
- Numerals.AcceptedFloatNotNegative: a float text denotes its exact decimal value, not the nearest double.
- express-validator's `check()` reads a field from every request location, and request bodies may hold non-string JSON values. The model reads one string field, with an absent field read as `""`.
- ProductRoutes.MinimumOrderOrOne: only an absent `minimumOrder` and 0 are defaulted. Other falsy values (`""`, `null`, `false`, `NaN`) and Mongoose's cast errors are not modelled. The field is a number, so the JSON string `"0"` is not distinguished from the number 0: the handler keeps the truthy `"0"` and Mongoose stores 0, while the model defaults it to 1.
- The length checks count Unicode scalar values. Validator versions that discount variation selectors are not modelled.
- The order handler's reading of `isActive`/`availableQuantity` against a schema defining `available`/`quantity` is not reproduced. With the schema as written, every product would read as inactive. The order workflow runs over a catalog product carrying the fields the handler reads.
- Orders.UpdateStatus: a body without `status` sends `{ status: undefined }` to the update (`server/routes/orders.js:209` and `:230`). Depending on the Mongoose version the path is stripped, leaving the order unchanged, or stored as null. The model always receives a status string.
- Ids are natural numbers, so a malformed id cannot be written. In the source, `findById` on a malformed id string throws a cast error, which the handlers answer with 500 rather than 404 (`server/routes/orders.js:31` and `:211`, `server/routes/users.js:61` and `:98`, `server/routes/admin.js:147`).
- Status values in order updates are free strings. The model does not restrict them, because the handler does not.
