# Cafe Akasa: cart, checkout, credentials and search, in Dafny

This project models the rules of the Cafe Akasa ordering site and proves
properties about them:

- **The backend cart and order controllers.** A shop's tables are held in one
  `Store` object: `items`, `cart_items`, `orders` and `order_items`. Each request
  handler is one of its methods or functions:
  - `getCart`, `addToCart`, `updateCartItem` and `removeFromCart`;
  - `checkout` (all or nothing), `getOrderHistory` and `getOrderDetails`.
- **The backend credential rules.** These are `validateEmailFormat` and
  `validatePasswordStrength`, plus the decisions `register` and `login` take
  against a `users` table. That table is the `UserStore` object.
- **The frontend registration and login forms.** These are the field validators
  and the choice `handleSubmit` makes between showing an error and sending the
  request.
- **The frontend menu search.** `fuzzySearch` keeps, in order, the items whose
  lower-cased text contains every word of the query.

Files, from the bottom up:

| file | module | what it holds |
|---|---|---|
| `wrappers.dfy` | `Wrappers` | `Option` and `Result` |
| `seqs.dfy` | `Seqs` | order-preserving `Filter`, subsequences, `Reverse` |
| `text.dfy` | `Text` | the JavaScript string built-ins used: `\s`, `trim`, `toLowerCase`, `includes`, `split(/\s+/)` |
| `email.dfy` | `EmailPattern` | the address pattern `/^[^\s@]+@[^\s@]+\.[^\s@]+$/` as a language and as a decision procedure |
| `auth.dfy` | `Auth` | the backend validators, `register` and `login` |
| `client_forms.dfy` | `ClientForms` | the validators and submit decisions of `Register.jsx` and `Login.jsx` |
| `fuzzy_search.dfy` | `FuzzySearch` | `fuzzySearch` |
| `shop.dfy` | `Shop` | the table rows (items, cart lines, orders, order lines) |
| `cart_spec.dfy` | `CartSpec` | the cart table's SQL statements as functions on a sequence of lines |
| `checkout_spec.dfy` | `CheckoutSpec` | what a checkout computes: join, shortfalls, total, order lines, stock decrements |
| `store.dfy` | `Store` | the `Store` class with the seven handlers |

Modelling decisions:

- **Prices are whole cents (`nat`).** The price columns are two-place decimals.
  The model adds up `price × quantity` exactly in cents. The backend does the same
  arithmetic on JavaScript numbers, that is in binary floating point (see
  "Left out").
- **The cart table is a sequence of lines in insertion order, not a map.** A
  checkout reports unavailable lines "in cart order", and `getCart` sorts by
  creation time, so the order of the lines matters. That a user has at most one
  line per item is an invariant of `Store.Valid()`, proved to be preserved by every
  handler. It is not a fact of the type.
- **Stock is an integer.** That it never goes below zero is part of
  `Store.Valid()` and is proved.
- **Order ids are the auto-increment key:** the n-th order has id n.
- **A checkout is all or nothing.** Its postcondition gives either the whole new
  state or the unchanged old state.
- **The database rows come back in table order.** This applies to the statements
  without `ORDER BY`.
- **Missing values are `None`.** A JSON field that is absent or `null` is `None`.
  Where the source tests truthiness (`!email`, `!quantity`), the empty string and
  0 count as missing too.
- **Foreign code and random or clock-based values are parameters:**
  - the bcrypt hash given to `Register`;
  - the bcrypt comparison given to `Login`, as a function;
  - the tracking id given to `Checkout`.

  A JWT is represented by its payload, `Session(userId, email)`.

The frontend form accepts passwords the backend refuses: the form has no
128-character cap. `ClientForms.FormAcceptsPasswordBackendRefuses` exhibits such a
password, and `ClientForms.FormPasswordAcceptedByBackendUpToCap` shows that length
is the only difference.

## Model

| member | source | states |
|---|---|---|
| Text.Trim | Frontend/src/utils/fuzzySearch.js:7 | `trim()`: the result neither starts nor ends with whitespace, and it is the slice of the input at some offset with only whitespace before and after it |
| Text.TrimOfTrimmed | Backend/src/controllers/authController.js:13 | a string with no whitespace at either end is its own trim |
| Text.TrimIdempotent | Frontend/src/pages/auth/Register.jsx:24 | trimming twice is trimming once (the form re-trims an address it already trimmed) |
| Text.TrimEmptyIffBlank | Frontend/src/utils/fuzzySearch.js:3 | `s.trim() === ''` exactly when every character of `s` is whitespace |
| Text.ToLower | Frontend/src/utils/fuzzySearch.js:7 | `toLowerCase()` keeps the length and maps each character on its own |
| Text.LowerCharChangesOnlyUpper | Frontend/src/utils/fuzzySearch.js:11 | lower-casing changes exactly the letters A–Z, each into a–z, and neither creates nor removes whitespace |
| Text.LowerKeepsWhitespace | Frontend/src/utils/fuzzySearch.js:7 | lower-casing leaves whitespace in the same positions, and trimming the lower-cased string gives the lower-cased trim (`toLowerCase().trim()` here equals `trim().toLowerCase()` in authController.js:13) |
| Text.VisibleAsciiIsNotWhitespace | Frontend/src/utils/fuzzySearch.js:8 | no visible ASCII character belongs to `\s`, the class `split` and `trim` work with |
| Text.Contains | Frontend/src/utils/fuzzySearch.js:18 | `includes`: the empty word occurs in every string, and a word occurs only in a string at least as long as it |
| Text.Split | Frontend/src/utils/fuzzySearch.js:8 | `split(/\s+/)` yields at least one piece and no piece contains whitespace. The pieces rebuild the input: the first piece is a prefix of it; unless it is the only piece (then the whole input), a maximal non-empty run of whitespace follows, and the remaining pieces split the rest the same way |
| Text.SplitTrimmedHasNoEmptyWord | Frontend/src/utils/fuzzySearch.js:7-8 | splitting a non-empty trimmed string yields no empty word |
| EmailPattern.EmailRegexTest | Backend/src/controllers/authController.js:6 | an accepted address has at least five characters, and its first and last characters are neither whitespace nor '@' |
| EmailPattern.EmailRegexTestCorrect | Backend/src/controllers/authController.js:6 | the test accepts exactly the language of the pattern: a non-empty local part, one '@', and a domain with a '.' that is neither first nor last, with no whitespace and no second '@' anywhere |
| EmailPattern.EmailRegexTestSound | Backend/src/controllers/authController.js:6 | an accepted address splits into three `[^\s@]+` tokens around its '@' and a '.' |
| EmailPattern.EmailRegexTestComplete | Backend/src/controllers/authController.js:6 | every address that splits that way is accepted |
| EmailPattern.EmailRegexTestIgnoresCase | Backend/src/controllers/authController.js:13 | the pattern gives the same answer on the lower-cased address as on the address as typed |
| Auth.ValidateEmailFormat | Backend/src/controllers/authController.js:9-14 | false for a missing or non-string value; otherwise true exactly when the trimmed, lower-cased value matches the pattern |
| Auth.ValidatePasswordStrength | Backend/src/controllers/authController.js:17-48 | accepted exactly when 8 ≤ length ≤ 128 and the password has an upper-case letter, a lower-case letter, a digit and one of `!@#$%^&*(),.?":{}\|<>`. Otherwise the first failing check decides the message, in this order: missing or empty, shorter than 8, no upper-case letter, no lower-case letter, no digit, no special character, longer than 128 |
| Auth.OverlongPasswordGetsClassMessage | Backend/src/controllers/authController.js:26-45 | a password over 128 characters that misses a character class gets that class's message, not the length message |
| Auth.TooLongMessageOnlyWhenOtherwiseValid | Backend/src/controllers/authController.js:43-45 | the length message is given only to a password that passes every other check |
| Auth.NormaliseNormalises | Backend/src/controllers/authController.js:60 | trimming then lower-casing yields an address with no whitespace at its ends and no upper-case letter |
| Auth.NormalisedIsFixpoint | Backend/src/controllers/authController.js:13 | normalising an already normalised address changes nothing |
| Auth.ToLowerIdempotent | Backend/src/controllers/authController.js:13 | lower-casing twice is lower-casing once |
| Auth.ValidateRegistration | Backend/src/controllers/authController.js:54-76 | the pre-lookup checks of `register` pass exactly when: both fields are given, the normalised address matches and has at most 255 characters, and the password is strong. The value passed on is the normalised address, which is storable. Each failure has its message: a missing or empty field gives "Email and password are required"; an address that does not match gives the invalid-format message, even when it is also too long; a matching address over 255 characters gives the too-long message; otherwise the password verdict's message |
| Auth.ValidateLogin | Backend/src/controllers/authController.js:130-146 | the pre-lookup checks of `login` pass exactly when both fields are given, the normalised address matches and the password is not blank. A missing or empty field gives the required message, then a non-matching address the invalid-format message, then a blank password "Password is required" |
| Auth.FindByEmail | Backend/src/controllers/authController.js:81-84 | finds a user with the address exactly when one exists, and the user found has that address |
| Auth.UserStore.Register | Backend/src/controllers/authController.js:50-124 | succeeds (201) exactly when the checks pass and the normalised address is not taken. It then appends one user under the next id and returns that id with the address. Otherwise 400 with the first failing check's message or "User already exists", and nothing changes. Keeps one user per address |
| Auth.UserStore.InsertUser | Backend/src/controllers/authController.js:96-99 | appends the user under the next id and advances the counter, keeping addresses unique and ids increasing |
| Auth.UserStore.Login | Backend/src/controllers/authController.js:126-184 | 400 with the check's message when a check fails. Otherwise it succeeds exactly when a user with the address exists and the hash comparison passes, and fails with the same 401 "Invalid credentials" for an unknown user and for a wrong password |
| ClientForms.ValidateEmail | Frontend/src/pages/auth/Register.jsx:20-28 | "" exactly when the trimmed value matches the pattern; "Email is required" exactly when the value is blank; otherwise the invalid-address message (the same function as Login.jsx:19-27) |
| ClientForms.ValidateEmailOfTrimmed | Frontend/src/pages/auth/Register.jsx:96-99 | validating the trimmed address gives the same answer as validating the address as typed |
| ClientForms.ValidatePassword | Frontend/src/pages/auth/Register.jsx:31-51 | "" exactly when the length is at least 8 and all four character classes occur. Otherwise the message is the very one the backend's `validatePasswordStrength` gives for the same password |
| ClientForms.RegisterSubmit | Frontend/src/pages/auth/Register.jsx:90-114 | sends exactly when the address matches, the password passes and the confirmation equals it. It sends the trimmed address and the password as typed. Otherwise it shows the first error among e-mail, password and "Passwords do not match" |
| ClientForms.LoginSubmit | Frontend/src/pages/auth/Login.jsx:52-74 | sends exactly when the address matches and the password is not blank. It sends the trimmed address and the untrimmed password. An e-mail error wins over "Password is required" |
| ClientForms.BackendAcceptedPasswordPassesForm | Frontend/src/pages/auth/Register.jsx:31-51 | every password the backend accepts passes the form |
| ClientForms.FormPasswordAcceptedByBackendUpToCap | Frontend/src/pages/auth/Register.jsx:31-51 | a password the form accepts is accepted by the backend exactly when it has at most 128 characters, and is otherwise refused with the length message |
| ClientForms.FormAcceptsPasswordBackendRefuses | Backend/src/controllers/authController.js:42-45 | some password passes the form and is refused by the backend for its length |
| ClientForms.FormEmailAgreesWithBackend | Frontend/src/pages/auth/Register.jsx:24 | the form accepts an address exactly when the backend's format check accepts the trimmed address the form sends |
| ClientForms.NormalisedAddressMatches | Backend/src/controllers/authController.js:60 | lower-casing a well-formed address keeps it well formed |
| ClientForms.RegisterFormRequestPassesBackend | Frontend/src/pages/auth/Register.jsx:114 | a registration the form sends passes the backend's checks whenever the password has at most 128 characters and the address at most 255 |
| ClientForms.LoginFormRequestPassesBackend | Frontend/src/pages/auth/Login.jsx:74 | a login the form sends passes the backend's checks |
| FuzzySearch.FieldText | Frontend/src/utils/fuzzySearch.js:11-13 | a missing field reads as "", a present one keeps its length |
| FuzzySearch.SearchableText | Frontend/src/utils/fuzzySearch.js:11-15 | the lower-cased name, description and category, in this order, each at its offset, with one space between them |
| FuzzySearch.SearchableTextHasNoUpper | Frontend/src/utils/fuzzySearch.js:11-15 | the searchable text has no upper-case letter |
| FuzzySearch.MatchesAllWordsFieldByField | Frontend/src/utils/fuzzySearch.js:10-19 | for whitespace-free query words, the filter callback keeps an item exactly when each word occurs in its name, its description or its category on their own |
| FuzzySearch.QueryWords | Frontend/src/utils/fuzzySearch.js:7-8 | no query word contains whitespace |
| FuzzySearch.Search | Frontend/src/utils/fuzzySearch.js:2-20 | a blank query returns the list unchanged. Otherwise the result is a subsequence of the input, an item is in it exactly when every query word occurs in its searchable text, and every copy of a matching item is kept (duplicates included) |
| FuzzySearch.NonBlankQueryHasOnlyRealWords | Frontend/src/utils/fuzzySearch.js:3-8 | a query that is not blank has no empty word |
| FuzzySearch.ContainsAcrossSpace | Frontend/src/utils/fuzzySearch.js:15-18 | a word without whitespace occurs in `x + " " + y` exactly when it occurs in `x` or in `y` |
| FuzzySearch.WordMatchesOneField | Frontend/src/utils/fuzzySearch.js:15-18 | a query word matches an item exactly when it occurs in its name, its description or its category on their own |
| FuzzySearch.ItemWithoutTextMatchesNothing | Frontend/src/utils/fuzzySearch.js:11-18 | an item with no name, description or category matches no non-blank query |
| FuzzySearch.SearchIdempotent | Frontend/src/utils/fuzzySearch.js:10-19 | searching the result again with the same query changes nothing |
| FuzzySearch.MoreWordsNarrowTheResult | Frontend/src/utils/fuzzySearch.js:18 | a query holding every word of another keeps a subsequence of what the other keeps |
| CartSpec.LineIndex | Backend/src/controllers/cartController.js:48-51 | finds the first line of (user, item), and finds nothing exactly when there is no such line |
| CartSpec.SetQuantity | Backend/src/controllers/cartController.js:106-109 | the UPDATE keeps the number of lines and each line's user and item, and leaves every line of another pair as it was |
| CartSpec.RemoveLines | Backend/src/controllers/cartController.js:127-130 | the DELETE keeps a subsequence of the cart, holding exactly the lines of other pairs |
| CartSpec.ClearCart | Backend/src/controllers/orderController.js:82-85 | the DELETE keeps a subsequence of the cart, holding exactly the other users' lines |
| CartSpec.SetQuantityEffect | Backend/src/controllers/cartController.js:106-109 | the UPDATE by (user, item) sets that pair's quantity when it has a line and changes nothing otherwise; every other pair keeps its quantity; lines stay unique |
| CartSpec.AppendLineEffect | Backend/src/controllers/cartController.js:68-71 | inserting a line for a pair that has none gives it the quantity inserted, leaves every other pair and keeps lines unique |
| CartSpec.RemoveLinesEffect | Backend/src/controllers/cartController.js:127-130 | the DELETE by (user, item) removes exactly that pair's lines and keeps the others in order. With unique lines the cart gets one line shorter when the pair had a line |
| CartSpec.ClearCartEffect | Backend/src/controllers/orderController.js:82-85 | deleting a user's cart removes exactly that user's lines and keeps every other user's, in order |
| CheckoutSpec.JoinedCart | Backend/src/controllers/orderController.js:12-18 | every joined row carries the current name, price and stock of its item |
| CheckoutSpec.JoinedCartMatchesLines | Backend/src/controllers/orderController.js:12-18 | every joined row comes from one of the user's lines, and every line of the user whose item exists gives a row with its item and quantity |
| CheckoutSpec.JoinedCartEmptyIff | Backend/src/controllers/orderController.js:20-23 | the join is empty ("Cart is empty") exactly when the user has no line for an existing item |
| CheckoutSpec.JoinedCartDistinct | Backend/src/controllers/orderController.js:12-18 | with unique lines, no item appears in two joined rows |
| CheckoutSpec.Shortfalls | Backend/src/controllers/orderController.js:30-37 | at most one entry per row |
| CheckoutSpec.ShortfallsFollowRows | Backend/src/controllers/orderController.js:30-37 | the unavailable list has one entry per row with `stock < quantity`, in cart order, each carrying that row's item, name, requested quantity and stock |
| CheckoutSpec.ShortfallsAreTheUnavailableRows | Backend/src/controllers/orderController.js:30-37 | an entry is in the unavailable list exactly when some row has `stock < quantity` and the entry carries that row's item, name, requested quantity and stock |
| CheckoutSpec.ShortfallsEmptyIffAllAvailable | Backend/src/controllers/orderController.js:46 | the unavailable list is empty exactly when every row is available |
| CheckoutSpec.NoShortfallKeepsEveryRow | Backend/src/controllers/orderController.js:38-41 | with nothing unavailable, the rows kept for the order are all the rows |
| CheckoutSpec.OrderLinesOf | Backend/src/controllers/orderController.js:67-72 | one order line per row, in order, with its item, quantity and the price read at checkout |
| CheckoutSpec.TotalCoversEachRow | Backend/src/controllers/orderController.js:39-40 | the total is 0 for no rows and no less than any one row's price × quantity |
| CheckoutSpec.TotalMatchesOrderLines | Backend/src/controllers/orderController.js:39-41 | the order total is the sum of price × quantity over its order lines |
| CheckoutSpec.ApplyDecrements | Backend/src/controllers/orderController.js:67-79 | the decrements keep the set of items |
| CheckoutSpec.ApplyDecrementsKeepsNamesAndPrices | Backend/src/controllers/orderController.js:74-78 | the decrements keep the set of items and every item's name and price; only stock changes |
| CheckoutSpec.DecrementsEachCartItem | Backend/src/controllers/orderController.js:67-79 | with distinct items, each row's item loses exactly the row's quantity, and every item no row names is unchanged |
| CheckoutSpec.StockStaysNonNegative | Backend/src/controllers/orderController.js:30-79 | if every row is available, carries its item's current stock and names a distinct item, no stock goes below zero |
| CheckoutSpec.TeaScenario | Backend/src/controllers/orderController.js:26-79 | a cart of 3 of an item priced 250 with stock 5: nothing short, total 750, 2 left |
| Store.CheckAvailability | Backend/src/controllers/orderController.js:26-43 | the first loop returns exactly the shortfalls of the rows, the available rows in order, and their total |
| Store.FindOrder | Backend/src/controllers/orderController.js:132-137 | finds an order with that id and owner, or nothing exactly when there is none |
| Store.DetailLines | Backend/src/controllers/orderController.js:146-152 | every detail line is an order line of the order, with its item's current name |
| Store.DetailLinesAreShownLines | Backend/src/controllers/orderController.js:146-152 | the detail lines are exactly the order lines the join keeps (those of the order whose item exists), in table order, one detail line for each, carrying the item's current name; so every kept order line shows up |
| Store.DetailLinesIgnoreOtherOrders | Backend/src/controllers/orderController.js:146-152 | appending lines of other orders, as a later checkout does, leaves an order's detail lines unchanged |
| Store.DetailLinesOfPlacedOrder | Backend/src/controllers/orderController.js:146-152 | the detail lines of a placed order are its order lines, in order, each with the item's current name |
| Store.CheckoutKeepsTablesValid | Backend/src/controllers/orderController.js:59-85 | a checkout with nothing unavailable keeps stock non-negative, cart lines unique and positive, order ids consecutive and every order line pointing at an order |
| Store.Store.GetCart | Backend/src/controllers/cartController.js:3-21 | the user's joined lines, newest first; every row comes from one of the user's lines with its item's current data, and every line of the user whose item exists appears |
| Store.Store.AddToCart | Backend/src/controllers/cartController.js:23-79 | 400 for a missing item id or a quantity below 1, 404 for an unknown item, 400 when the stock cannot cover the old plus the added quantity, all with the cart unchanged. Otherwise that pair's quantity becomes old plus added, every other pair is unchanged, the quantity is between 1 and the stock, and lines stay unique. With a line already there, the answer is "updated" and the cart is the old one with that line's quantity overwritten in place. With no line, the answer is "added" and the new line is appended at the end |
| Store.Store.UpdateCartItem | Backend/src/controllers/cartController.js:81-120 | the checks in order: 400 for a quantity below 1, 404 for an unknown item, 400 over stock, 404 with no line; each leaves the cart unchanged. Otherwise only that pair's quantity is overwritten, and it is between 1 and the stock |
| Store.Store.RemoveFromCart | Backend/src/controllers/cartController.js:122-141 | 404 with the cart unchanged when the pair has no line. Otherwise exactly that line is deleted and every other line is kept |
| Store.Store.Checkout | Backend/src/controllers/orderController.js:4-105 | an empty join gives "Cart is empty" and any unavailable row gives the exact shortfall list; both change nothing. Otherwise one `Pending` order with the next id and the total of the rows is appended, with one order line per row. Every cart item's stock is decremented and the user's cart is deleted. The tables stay valid |
| Store.Store.PlaceOrder | Backend/src/controllers/orderController.js:58-85 | the writes of a checkout: the order with the next id, its lines, the stock decrements and the cleared cart, keeping the tables valid |
| Store.Store.RecordOrderLines | Backend/src/controllers/orderController.js:67-79 | the second loop appends the rows' order lines and applies their stock decrements; cart and orders are unchanged |
| Store.Store.OrderHistory | Backend/src/controllers/orderController.js:107-124 | exactly the caller's orders, newest first (decreasing ids) |
| Store.Store.OrderDetails | Backend/src/controllers/orderController.js:126-162 | found exactly when an order with that id belongs to the caller. The lines returned are the order's lines whose item exists, in table order, each with the item's current name, and none is missing |
| Store.PlacedOrderInHistory | Backend/src/controllers/orderController.js:111-116 | a placed order is in its buyer's history |
| Store.OrderHiddenFromOthers | Backend/src/controllers/orderController.js:132-141 | no user other than the buyer can see an order's details |
| Store.PlacedOrderDetails | Backend/src/controllers/orderController.js:146-152 | after a checkout the buyer sees the order with one line per cart row, carrying item, quantity, price paid and the item's name |
| Store.OrderIdIsUnique | Backend/src/controllers/orderController.js:64 | auto-increment ids are unique: an id names one order |

## Left out

- Failures of the database connection and the 500 answers of every handler are
  not modelled: the model has no failure path. The transaction's rollback would
  leave the tables as they were after a checkout failing midway.
- Concurrent requests are not modelled: every handler runs alone. Two simultaneous
  checkouts can both read the same stock before either decrements it; a sequential
  model cannot show this.
- Tracking-id generation (`randomUUID`, `Date.now`) is a parameter of `Checkout`.
  bcrypt hashing and comparison are parameters of `Register` and `Login`. JWT
  signing and expiry are represented only by the token's payload.
- Request values of the wrong JSON type are left out. Examples are a string or
  fractional quantity, a non-string e-mail that still counts as present, and a
  non-numeric URL parameter. Item ids are integers; amounts are whole numbers.
- Store.Store.GetCart: orders by insertion order reversed instead of by
  `created_at`. Lines created in the same second could come back in another order.
- Store.Store.OrderHistory: orders by decreasing id instead of by `created_at`,
  with the same caveat about ties.
- Store.Store.OrderDetails: the `image_url` column and the order's date columns
  are not modelled. `getCart` likewise drops the line id, `image_url` and
  `description`.
- Orders becoming `Delivered` happens outside these controllers and is not
  modelled.
- Text.ToLower: lower-cases only A–Z, while JavaScript also lower-cases non-ASCII
  letters. Lengths count code points, while JavaScript counts UTF-16 units.
- The React state of the forms (`setFieldErrors`, `setError`, `setLoading`), the
  per-keystroke handlers and navigation are not modelled. Only the validators and
  the submit decision are.
- CheckoutSpec.Total: sums exactly in whole cents. The backend multiplies
  `price * quantity` and accumulates `totalAmount` in JavaScript floating point
  (Backend/src/controllers/orderController.js:39-40). It stores that number in the
  order row and returns it in the response (lines 61 and 94), so a total there can
  carry a binary rounding error.
- The frontend's floating-point totals and currency display are not modelled.
  Money is whole cents.
- Auth.FindByEmail: compares addresses character for character. MySQL's
  `WHERE email = ?` under the default collation ignores case and accents, so two
  addresses that differ only in an accent count as one there and as two here.
- Store.Store.UpdateCartItem: the 404 "Cart item not found" is taken to mean "no
  line matched". The source reads `affectedRows` (cartController.js:111-113), which
  counts matched rows only because mysql2 sets the FOUND_ROWS client flag by
  default. Without it, setting a line to its current quantity would also answer
  404.
- A join without `ORDER BY` is taken to return rows in table order; SQL does not
  promise any order there.
