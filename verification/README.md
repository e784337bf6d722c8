# auto-meican-app client core, modelled in Dafny

This project models the two pieces of decision logic in the Vue client of an
automated meal-ordering service (Meican auto-order).

1. **The dish exclusion list ("拉黑").** Each account has one remote record
   `{accountName, noOrderDishes, expireDate}`. `noOrderDishes` is one
   comma-joined string. The client:
   - finds the caller's record by matching `accountName` against the stored
     `token`, taking the first match;
   - decodes the dish string with `split(',')` and `trim()` on every piece;
   - judges expiry leniently in `getBlacklist` (active only while
     `expireDate > now`) and strictly in `getBlacklistDetail` (fails only when
     `expireDate < now`);
   - builds the body posted to `/meicanAccount/addAccountDishCheck` in three
     ways: append (`addToBlacklist`), filter (`removeFromBlacklist`) and
     re-encode under a new date (`updateExpireDate`).
2. **The response interceptor and the session.** A body with code 200 yields
   its `data`. Any other code is rejected with the server's `msg`, or with
   `请求失败` when `msg` is missing. A transport error with status 401 removes
   the `token` and `isLoggedIn` entries from `localStorage`.
3. **The router.** It has a constant route table, a root redirect chosen by
   `isLoggedIn`, and a `beforeEach` guard. The guard decides between
   "redirect to login", "redirect to home" and "allow".

Files:

- `api.dfy`, module `Api`: replies, `Unwrap` (the interceptor's data path),
  `Login` and the order-history mapping.
- `codec.dfy`, module `DishCodec`: JavaScript's `split(',')`, `trim()` and
  `join(',')` on strings, with their round trips.
- `blacklist.dfy`, module `Blacklist`: lookup, the two expiry tests, and the
  request body of every exclusion-list operation, as pure functions of the
  fetched listing, the token and the current instant.
- `client.dfy`, module `Client`: class `Session`. Its `storage` map stands
  for `localStorage`. Its methods run each operation the way the source
  does: read the token, pass every reply through the interceptor (which may
  clear the session), and post the body the `Blacklist` function built.
- `router.dfy`, module `Router`: the route table, the root redirect, and the
  guard. The guard is given both as a decision function and as the callback
  recording its `next` calls.

Remote replies, the current time and the stored entries are inputs. Dates are
integer instants. An `expireDate` of `None` is a date that does not parse;
every comparison with it is false, as with an invalid JavaScript `Date`.

## Model

| member | source | states |
|---|---|---|
| `Api.Unwrap` | src/api/index.js:22-29 | code 200 yields exactly the body's data. Any other code is rejected with the server's message when it is non-empty, else with `请求失败`, so the message is never empty. A transport error reaches the caller unchanged. |
| `Api.OnlyTransport401IsUnauthorized` | src/api/index.js:30-38 | a reply is an authorization failure exactly when it unwraps to the transport 401 error. A body, whatever its code, is never one: it yields its data or a rejection with a message. |
| `Api.Login` | src/api/index.js:43-45 | the session token is the user name that was supplied |
| `Api.LoginIgnoresPassword` | src/api/index.js:43-45 | credentials that differ only in the password give the same session: no credential check |
| `Api.GetOrderHistory` | src/api/index.js:70-88 | one order per task row, same order and count, each order with exactly one date. Every row can be rebuilt from its order. A failed fetch is rethrown with the same error. |
| `Api.ToOrder` | src/api/index.js:73-83 | the `map` callback gives each order exactly one date, the row's, and every field of the row can be read back from the order |
| `Api.OrderHistoryInjective` | src/api/index.js:73-83 | the mapping loses nothing: equal histories come from equal task pages |
| `DishCodec.Trim` | src/api/index.js:126 | `trim()`: no surrounding whitespace remains, and the result is a slice of the input with only whitespace cut away at each end |
| `DishCodec.TrimOfTrimmed` | src/api/index.js:209 | trimming a string without surrounding whitespace changes nothing |
| `DishCodec.Split` | src/api/index.js:126 | `split(',')` gives at least one piece, and no piece holds a comma |
| `DishCodec.Join` | src/api/index.js:149 | `join(',')` of no pieces is "" and of one piece is that piece |
| `DishCodec.JoinSplit` | src/api/index.js:254 | joining the pieces of a split rebuilds the original string |
| `DishCodec.SplitPrefix` | src/api/index.js:209 | splitting a comma-free prefix followed by a tail glues the prefix onto the tail's first piece |
| `DishCodec.SplitJoin` | src/api/index.js:149 | splitting the join of a non-empty, comma-free list gives the list back |
| `DishCodec.TrimAll` | src/api/index.js:235 | the element-wise trim keeps length and order and trims each element |
| `DishCodec.Decode` | src/api/index.js:209 | the decoded list has at least one element, and every element is trimmed |
| `DishCodec.JoinDecode` | src/api/index.js:254 | re-encoding a decoded dish string gives the original string back when no element has surrounding whitespace |
| `DishCodec.DecodeJoin` | src/api/index.js:149 | decoding the encoding of a non-empty list of trimmed, comma-free dishes gives the list back |
| `DishCodec.EmptyListDecodesToOneBlank` | src/api/index.js:170-172 | an emptied list is sent as "", and reading "" back gives `[""]`, not `[]` |
| `DishCodec.DecodeIsClean` | src/api/index.js:235 | whatever string is read, every decoded element is free of commas and of surrounding whitespace |
| `DishCodec.DecodeJoinDecode` | src/api/index.js:235-254 | re-joining a decoded list and reading it again gives the same list, whatever the stored string was |
| `Blacklist.FindFirst` | src/api/index.js:117 | `find` stops at a matching record with no match before it. It finds nothing only when no record matches. |
| `Blacklist.Lookup` | src/api/index.js:192 | the record found is the first whose `accountName` equals the token. None exactly when no record matches, including when there is no token. |
| `Blacklist.GetBlacklist` | src/api/index.js:111-139 | fails only when the fetch failed. It is non-empty exactly when the caller's first record has a non-empty dish string and a date after now, and then it is the decoded list with every element trimmed. |
| `Blacklist.ExpiredRecordReadsEmpty` | src/api/index.js:120-130 | a record whose date is not after now reads as `[]`, whatever it stores |
| `Blacklist.MissingRecordReadsEmpty` | src/api/index.js:133-134 | with no record for the token the lenient read is `[]` |
| `Blacklist.StillValid` | src/api/index.js:122-125 | the lenient test `new Date(expireDate) > new Date()`: a valid date after now; a missing or invalid date fails it |
| `Blacklist.AlreadyExpired` | src/api/index.js:201-204 | the strict test `new Date(expireDate) < new Date()`: a valid date before now; a missing or invalid date fails it |
| `Blacklist.ExpiryVerdicts` | src/api/index.js:122-204 | the two tests never both hold; a valid date passes one of them or is exactly now; a missing or invalid date passes neither |
| `Blacklist.GetBlacklistDetail` | src/api/index.js:186-216 | a failed fetch is rethrown. No record fails with the "未找到…" message. The "已过期…" message comes exactly when the record's date is before now. A record that is not expired succeeds exactly when it has a dish string, with the decoded list and the record's own date; without one the read fails with a `TypeError`. |
| `Blacklist.ActiveListPassesStrictRead` | src/api/index.js:199-206 | whenever the lenient read shows dishes, the strict read succeeds with the same list |
| `Blacklist.ExpiryInstantDisagreement` | src/api/index.js:125 | a record dated exactly now that has a dish string reads as `[]` in `getBlacklist`, yet passes `getBlacklistDetail` |
| `Blacklist.AddToBlacklist` | src/api/index.js:141-160 | nothing is built when the strict read fails, and its error is kept. Otherwise the body carries the token, the record's unchanged date, and exactly the join of the caller's list followed by the new item; when that list is clean, the body decodes back to it. |
| `Blacklist.AddKeepsDuplicates` | src/api/index.js:149 | for a list and an item with no commas and no surrounding whitespace, the list sent decodes to one element more than the caller's, and an item already listed appears once more: no deduplication |
| `Blacklist.Without` | src/api/index.js:170-171 | the `.filter`: the result is no longer than the list and holds no element equal to the item |
| `Blacklist.WithoutCounts` | src/api/index.js:170-171 | the filter removes every occurrence of the item and keeps the count of every other element |
| `Blacklist.WithoutConcat` | src/api/index.js:170-171 | filtering distributes over concatenation, so the kept elements stay in their relative order |
| `Blacklist.WithoutAbsent` | src/api/index.js:170-171 | filtering out an item that is not listed returns the list unchanged |
| `Blacklist.WithoutOnly` | src/api/index.js:170-171 | a list holding nothing but the item filters down to the empty list |
| `Blacklist.WithoutCons` | src/api/index.js:170-171 | filtering a list with a head keeps the head exactly when it differs from the item |
| `Blacklist.WithoutClean` | src/api/index.js:170-171 | filtering a clean list leaves it clean |
| `Blacklist.RemoveFromBlacklist` | src/api/index.js:162-183 | nothing is built when the strict read fails. Otherwise the body carries the token, the record's unchanged date, and exactly the join of the filtered list. Removing an absent item re-sends the same list. A list holding only the item is sent as "". For a clean list whose filtered list is non-empty, the body decodes to the filtered list, with the item gone and every other count kept. |
| `Blacklist.AddThenRemove` | src/api/index.js:141-183 | for a list and an unlisted item with no commas and no surrounding whitespace, adding the item, then removing it from what was sent, sends the original list again under the same date |
| `Blacklist.CommaItemIsNotRemovedAgain` | src/api/index.js:149-172 | without that condition the round trip fails: `["a"]` plus `"x,y"` reads back as `["a", "x", "y"]`, from which filtering out `"x,y"` removes nothing |
| `Blacklist.GetAutoOrderInfo` | src/api/index.js:217-242 | fails only when the fetch failed. No record gives an empty list and a null date. A record gives its own date, whether or not it has passed, and its decoded dish string, or `[]` when the string is missing. |
| `Blacklist.StrictReadAgreesWithInfo` | src/api/index.js:233-237 | wherever the strict read succeeds, the unchecked read returns the same list and date |
| `Blacklist.UpdateExpireDate` | src/api/index.js:243-262 | a body is built exactly when the fetch succeeded and the new date is valid. It carries the token and the new date. With no record, or a record without a dish string, its dish string is "". Otherwise the stored list is re-sent trimmed and re-joined, as the join of its decoded list, so it decodes to the same list as the stored one. Every failure is the single `更新有效期失败，请稍后重试` error. |
| `Blacklist.UpdateKeepsDishes` | src/api/index.js:246-255 | changing the date re-sends the stored dish string unchanged when no element has surrounding whitespace. A record without one sends "". |
| `Client.AfterReply` | src/api/index.js:30-38 | a 401 transport error removes exactly `token` and `isLoggedIn`, together. Any other reply leaves the store as it was. |
| `Client.UnauthorizedLogsOut` | src/api/index.js:31-35 | after a 401 no token and no login flag are left, and the guard, reading the cleared store, sends every protected destination to the login page |
| `Client.Session.GetItem` | src/api/index.js:113 | `getItem` is null exactly when the key is not stored, and otherwise it returns the stored value |
| `Client.Session.RemoveItem` | src/api/index.js:33-34 | `removeItem` deletes that key and nothing else |
| `Client.Session.Intercept` | src/api/index.js:22-39 | the reply's result is `Unwrap` of it, and the store afterwards is `AfterReply` of the old store |
| `Client.Session.GetOrderHistory` | src/api/index.js:70-88 | returns the order-history mapping of the intercepted page and applies the interceptor's effect on the store |
| `Client.Session.GetBlacklist` | src/api/index.js:111-139 | returns the lenient read of the intercepted listing for the token stored at the call, and applies the interceptor's effect on the store |
| `Client.Session.GetBlacklistDetail` | src/api/index.js:186-216 | returns the strict read for the token stored at the call, and applies the interceptor's effect on the store |
| `Client.Session.GetAutoOrderInfo` | src/api/index.js:217-242 | returns the unchecked read for the token stored at the call, and applies the interceptor's effect on the store |
| `Client.Session.AddToBlacklist` | src/api/index.js:141-160 | posts nothing and returns the read's error when the strict read fails. Otherwise it posts exactly the `Blacklist.AddToBlacklist` body and returns the intercepted post reply. The store reflects both replies. |
| `Client.Session.RemoveFromBlacklist` | src/api/index.js:162-183 | the same, with the `Blacklist.RemoveFromBlacklist` body |
| `Client.Session.UpdateExpireDate` | src/api/index.js:243-262 | posts exactly the `Blacklist.UpdateExpireDate` body when one is built. It succeeds exactly when the post's reply unwraps to a non-null body, and returns that body's `data` field. Every failure, a null body included, becomes the single "update failed" error. |
| `Router.Named` | src/router/index.js:16-31 | a name resolves exactly when a view of the table carries it, and it resolves to that view of the table, its `requiresAuth` included |
| `Router.RootTarget` | src/router/index.js:11-14 | the root goes to `/home` when `isLoggedIn` is set and non-empty, else to `/login` |
| `Router.ResolveView` | src/router/index.js:16-31 | a path resolves exactly when a view of the table has it, and then to that view |
| `Router.Resolve` | src/router/index.js:8-32 | `/` resolves to the home view when logged in and to the login view otherwise; any other path resolves as a view of the table |
| `Router.Guard` | src/router/index.js:40-61 | allow exactly when neither "requires auth while logged out" nor "login page while logged in" holds. The first case redirects to `LoginPage`, the second to `HomePage`, and no other redirect happens. |
| `Router.BeforeEach` | src/router/index.js:40-61 | each run calls `next` exactly once, with the guard's decision |
| `Router.NoProtectedViewWhileLoggedOut` | src/router/index.js:49-52 | safety: a destination requiring authentication while logged out is redirected to `LoginPage` |
| `Router.AuthCheckTakesPrecedence` | src/router/index.js:49-58 | while logged out, a protected destination named `LoginPage` still goes to the login page |
| `Router.OnlyHomeRequiresAuth` | src/router/index.js:16-31 | in the table only `/home` (`HomePage`) requires authentication |
| `Router.RedirectTargetIsAllowed` | src/router/index.js:49-60 | convergence: a redirect target exists in the table, and the guard allows it with the same session |
| `Router.TablePathsSettle` | src/router/index.js:40-61 | every path of the table settles on an allowed view after at most one redirect |
| `Router.RootRedirectIsAllowed` | src/router/index.js:11-14 | `/` resolves to `HomePage` when logged in and to `LoginPage` otherwise, and the guard allows it |
| `Router.OpenViews` | src/router/index.js:49-60 | logged out, `/login` and `/get-cookie` are allowed; logged in, `/home` and `/get-cookie` are |
| `Router.LoggedInIsTruthiness` | src/router/index.js:47-49 | a stored `isLoggedIn` counts exactly when it is present and non-empty |

## Left out

- src/main.js: it only creates, configures and mounts the app.
- The axios instance's base URL, timeout and headers, and the request interceptor (src/api/index.js:4-19). The request interceptor changes nothing because its `Authorization` line is commented out.
- `getHomeData`, `getUserList`, `deleteOrder`, `submitOrder` and `addAccount` only forward a request. Their replies would pass through the same `Session.Intercept`.
- Clock and date handling: `new Date()` becomes the `now` parameter. A record's date is the instant it parses to. A null date, which JavaScript parses as instant 0, is therefore `Some(0)` (`Blacklist.NullDate`), and a body cannot tell a null date from the epoch; the no-record answer of `getAutoOrderInfo` uses it too. `toISOString().split('T')[0]` is left out: `UpdateExpireDate` takes the new date already cut to a day, or `None` for an invalid date (where `toISOString` throws, and the error is turned into the "update failed" message).
- `window.location.href = '/login'` after a 401, the `console` calls and the lazy component imports. These are browser side effects. `Client.UnauthorizedLogsOut` states what the guard does afterwards.
- Who writes `token` and `isLoggedIn` after login: that code lies outside the modelled files. `Session` starts from any given store.
- Asynchrony: the lost update between the read in `getBlacklistDetail` and the later post, and the un-awaited `return apiClient.post` inside `try` in add and remove. The post's rejection skips the `catch` (and its log), but the caller still receives it, which is what the model returns.
- What the server does with an upsert body. The model states the body sent, not the record stored.
- Shapes the source does not check: the listing is always a sequence of records with string `accountName`, the order page always has `records`, and `code` is always a number. A non-array listing or a missing `records` field would throw a TypeError that is not modelled.
- A matched record without `noOrderDishes` makes the strict read call `split` on `undefined`. The model keeps this as a `TypeError` result, so adding and removing fail for such a record, and the model says nothing else about it.
