# Library circulation: a Dafny model

A model of a small library-circulation application and proofs about it. The application has two halves:

- **The server** (ASP.NET over SQL):
  - keeps users, books, loans ("orders") and book categories in tables;
  - lends and takes back books;
  - computes overdue fines;
  - issues session tokens at login.
- **The web client** (Angular):
  - keeps the token in local storage;
  - reads the user back from it;
  - shelves and searches the catalog;
  - filters the order list;
  - toggles users' block and active flags;
  - guards its routes by login and by role.

The model follows the code as written:

- ordering never checks that the book is free;
- returning frees the book whether or not a loan matched;
- returning closes every loan row of that user and book.

Module layout: twelve modules, one per source file (`DataAccess`, `Controller`, `Jwt`, `ApiService`, the five components, the two guards, `Routing`); four modules of lemmas and shared definitions that span files (`Circulation`, `Fines`, `Forms`, `Wire`); and four helpers (`Wrappers`, `Text`, `Seqs`, `Models`):

| modules | what they hold |
|---|---|
| `DataAccess` (`data_access.dfy`) | The store as a class `LibraryStore` whose fields are the tables and the identity seeds. Each update, delete and lookup is a method whose loop walks the table. Each insert appends one row; the loan insert of `OrderBook` is written inside that method, not as a method of its own. Each method's effect is stated as a pure step function (`Apply`) on a snapshot `Tables` of the fields. |
| `Circulation` (`circulation.dfy`) | Lemmas on those step functions. The main one: callers who order only free books and return only books of which they hold exactly one open loan keep every book's `Ordered` flag equal to "there is exactly one unreturned loan of it". Small counter-examples show the flag drifting for any other caller. |
| `Fines` (`fines.dfy`) | The fine arithmetic of `GetUsers` and the LEFT JOIN it runs. |
| `Controller`, `Jwt` | The HTTP actions and their route templates, and the token issued at login. |
| `ApiService`, `LibraryComponent`, `OrdersComponent`, `UsersListComponent`, `LoginComponent`, `RegisterComponent`, `AuthorizationGuard`, `AuthenticationGuard`, `Routing` | The client. |
| `Forms` (`forms.dfy`) | The login and register pages' field validators and their error messages. |
| `Wire` (`wire.dfy`) | How the two halves meet. A token issued for a user reads back on the client as that user. The client's request paths bind the controller's route parameters in the intended order. The block and enable toggles send the status the controller reads. A newly registered account cannot get past the login page. |
| `Wrappers`, `Text`, `Seqs`, `Models` | Helpers: option, text, sequence and record types shared by the modules above. |

The clock, the HTTP replies and the token decoder are parameters:

- time is an integer count of seconds;
- the reply a component receives is a method parameter;
- the client's JWT decoder is a function `string -> Option<map<string, string>>` fixed when the service is built.

Two consequences of the code as written are proved outright:

- Ordering a lent book is accepted and opens a second loan (`Circulation.OrderingLentBookBreaksConsistency`).
- A return without a matching loan still frees the book, and answers false (`Circulation.ReturnWithoutLoanFreesBook`).

## Model

| member | source | states |
|---|---|---|
| DataAccess.NewUserRow | LibraryAPI/API/DataAccess/DataAccess.cs:36-49 | The stored user row has the new identity and fine 0. Every other column is copied from the request. |
| DataAccess.LibraryStore.CreateUser | LibraryAPI/API/DataAccess/DataAccess.cs:30-55 | Appends exactly one user row, takes a fresh identity and reports 1 row affected. |
| DataAccess.LibraryStore.IsEmailAvailable | LibraryAPI/API/DataAccess/DataAccess.cs:62-73 | True iff no user row has that email. |
| DataAccess.LibraryStore.AuthenticateUser | LibraryAPI/API/DataAccess/DataAccess.cs:82-98 | Succeeds iff some row matches both email and password. On success it yields the first row with that email, which need not be the matching row. On failure it yields no user. |
| DataAccess.LibraryStore.SingleCategory | LibraryAPI/API/DataAccess/DataAccess.cs:114-115 | A category row is found iff exactly one row has the id. The row found has that id. |
| DataAccess.LibraryStore.GetAllBooks | LibraryAPI/API/DataAccess/DataAccess.cs:104-119 | Succeeds iff every book's category id matches exactly one category row. Each book is then joined with that row, in table order. |
| DataAccess.WithBookOrdered | LibraryAPI/API/DataAccess/DataAccess.cs:137 | Sets `Ordered` on exactly the rows with that id. Every other column and row is unchanged. |
| DataAccess.LibraryStore.UpdateOrdered | LibraryAPI/API/DataAccess/DataAccess.cs:137-138 | The Books update: the table becomes `WithBookOrdered`. The affected count is the number of rows with that id. |
| DataAccess.LibraryStore.OrderBook | LibraryAPI/API/DataAccess/DataAccess.cs:127-144 | Appends one loan (user, book, now, not returned) and flags the book ordered, without consulting the flag. Answers true iff exactly one book row has the id. |
| DataAccess.WithReturned | LibraryAPI/API/DataAccess/DataAccess.cs:208 | Marks returned every loan of that (user, book), already returned ones included. Nothing else changes. |
| DataAccess.LibraryStore.MarkReturned | LibraryAPI/API/DataAccess/DataAccess.cs:208-209 | The Orders update: the table becomes `WithReturned`. The affected count is the number of (user, book) rows. |
| DataAccess.LibraryStore.ReturnBook | LibraryAPI/API/DataAccess/DataAccess.cs:201-212 | Clears the book's flag unconditionally, then closes every (user, book) loan. Answers true iff exactly one such row existed. |
| DataAccess.LibraryStore.GetUsers | LibraryAPI/API/DataAccess/DataAccess.cs:218-253 | Each user's fine is raised by the charges of that user's LEFT JOIN rows. With unique user ids, this is the fine over the user's own orders. |
| DataAccess.LibraryStore.FineUsers | LibraryAPI/API/DataAccess/DataAccess.cs:229-250 | The outer loop lists every user in order, each with its fine raised by its own join rows. |
| DataAccess.LibraryStore.FineUser | LibraryAPI/API/DataAccess/DataAccess.cs:231-249 | One user's step: select the join rows with the user's id and add their charges to the stored fine. |
| DataAccess.LibraryStore.AccumulateFine | LibraryAPI/API/DataAccess/DataAccess.cs:235-249 | The inner loop adds each join row's charge to the running fine. |
| DataAccess.WithBlocked | LibraryAPI/API/DataAccess/DataAccess.cs:259-273 | Sets `Blocked` on the rows with that id. Every other column and row is unchanged. |
| DataAccess.WithActive | LibraryAPI/API/DataAccess/DataAccess.cs:279-293 | Sets `Active` on the rows with that id. Every other column and row is unchanged. |
| DataAccess.LibraryStore.UpdateBlocked | LibraryAPI/API/DataAccess/DataAccess.cs:262 | The Users update of `Blocked`, as a loop over the table. |
| DataAccess.LibraryStore.UpdateActive | LibraryAPI/API/DataAccess/DataAccess.cs:282 | The Users update of `Active`, as a loop over the table. |
| DataAccess.LibraryStore.BlockUser | LibraryAPI/API/DataAccess/DataAccess.cs:259-263 | Sets the user's `Blocked` to true. |
| DataAccess.LibraryStore.UnblockUser | LibraryAPI/API/DataAccess/DataAccess.cs:269-273 | Sets the user's `Blocked` to false. |
| DataAccess.LibraryStore.ActivateUser | LibraryAPI/API/DataAccess/DataAccess.cs:279-283 | Sets the user's `Active` to true. |
| DataAccess.LibraryStore.DeactivateUser | LibraryAPI/API/DataAccess/DataAccess.cs:289-293 | Sets the user's `Active` to false. |
| DataAccess.LibraryStore.GetAllCategories | LibraryAPI/API/DataAccess/DataAccess.cs:299-309 | Yields the category table as stored. |
| DataAccess.CategoryLookupFirst | LibraryAPI/API/DataAccess/DataAccess.cs:318-324 | The scalar lookup of a category by names yields the id of the first row with both names, or 0 when there is none. |
| DataAccess.LibraryStore.LookupCategory | LibraryAPI/API/DataAccess/DataAccess.cs:318-324 | The loop over the category table yields that lookup. |
| DataAccess.LibraryStore.InsertNewBook | LibraryAPI/API/DataAccess/DataAccess.cs:315-336 | Appends one book row: fresh id, not ordered, category id looked up by names. |
| DataAccess.LibraryStore.DeleteBook | LibraryAPI/API/DataAccess/DataAccess.cs:346-355 | Removes exactly the rows with that id and keeps the others in order. Answers true iff exactly one row was removed. |
| DataAccess.LibraryStore.CreateCategory | LibraryAPI/API/DataAccess/DataAccess.cs:361-370 | Appends one category row with a fresh id. |
| DataAccess.AfterCreateUser | LibraryAPI/API/DataAccess/DataAccess.cs:36-52 | The insert into Users as a step on the tables: the new row goes last and the user identity advances. Its keeping ids valid is `Circulation.InsertsPreserveValid`. |
| DataAccess.NewOrderRow | LibraryAPI/API/DataAccess/DataAccess.cs:133 | The loan row `OrderBook` inserts: next order id, the user, the book, the current time, not returned. |
| DataAccess.AfterOrder | LibraryAPI/API/DataAccess/DataAccess.cs:133-139 | The two statements of `OrderBook` as one step: insert the loan, then flag every row of the book ordered. Its effect is `Circulation.OrderEffect`. |
| DataAccess.OrderReply | LibraryAPI/API/DataAccess/DataAccess.cs:138-139 | `OrderBook` answers true iff the flag update touched exactly one book row. `Circulation.OrderReplyIffExists` reads it as "the book exists". |
| DataAccess.AfterReturn | LibraryAPI/API/DataAccess/DataAccess.cs:206-209 | The two statements of `ReturnBook` as one step: clear the book's flag, then mark every (user, book) row returned. Its effect is `Circulation.ReturnEffect`. |
| DataAccess.ReturnReply | LibraryAPI/API/DataAccess/DataAccess.cs:208-209 | `ReturnBook` answers true iff exactly one order row has that user and book, returned or not. `Circulation.SecondLoanReturnAnswersFalse` shows the second-loan case. |
| DataAccess.NewBookRow | LibraryAPI/API/DataAccess/DataAccess.cs:318-334 | The row `InsertNewBook` stores: next book id, not ordered, the category id looked up by names (0 when none matches). |
| DataAccess.AfterInsertBook | LibraryAPI/API/DataAccess/DataAccess.cs:315-336 | The insert into Books as a step. `Circulation.InsertedBookAvailable` states the new row is free and its id unique. |
| DataAccess.AfterDeleteBook | LibraryAPI/API/DataAccess/DataAccess.cs:351 | The delete as a step: the rows with other ids, in order. |
| DataAccess.DeleteReply | LibraryAPI/API/DataAccess/DataAccess.cs:351-352 | `DeleteBook` answers true iff exactly one row had the id. |
| DataAccess.AfterCreateCategory | LibraryAPI/API/DataAccess/DataAccess.cs:364-369 | The insert into Categories as a step: the new row goes last with the next category id. |
| DataAccess.Apply | LibraryAPI/API/DataAccess/DataAccess.cs:30-370 | Each state-changing store method as one step on the tables. Each method's `ensures` ties its new fields to this step, and `Circulation.ApplyPreservesValid` and `Circulation.ApplyPreservesConsistent` are stated over it. |
| DataAccess.Run | LibraryAPI/API/DataAccess/DataAccess.cs:30-370 | A sequence of store calls, one after another. `Circulation.RunPreservesValid` and `Circulation.GuardedRunConsistent` are stated over it. |
| Circulation.OrderEffect | LibraryAPI/API/DataAccess/DataAccess.cs:133-139 | One more loan row, and one more open loan of (user, book). Every book row with the id is ordered. Every other book row is unchanged. |
| Circulation.OrderIgnoresFlag | LibraryAPI/API/DataAccess/DataAccess.cs:127-144 | Neither the reply nor the loan rows depend on the book's `Ordered` flag. |
| Circulation.OrderReplyIffExists | LibraryAPI/API/DataAccess/DataAccess.cs:137-139 | With unique book ids, the order answers true iff the book exists. |
| Circulation.ReturnEffect | LibraryAPI/API/DataAccess/DataAccess.cs:206-209 | The book's rows are cleared and every (user, book) loan is closed. Other loans are untouched. No open loan of (user, book) remains. |
| Circulation.CountOpenAfterOrder | LibraryAPI/API/DataAccess/DataAccess.cs:133 | The inserted loan adds one open loan for its book and none for any other. |
| Circulation.CountOpenAfterReturn | LibraryAPI/API/DataAccess/DataAccess.cs:208 | Closing (user, book) loans removes exactly that user's open loans of the book from its open-loan count. |
| Circulation.ApplyPreservesValid | LibraryAPI/API/DataAccess/DataAccess.cs:30-370 | Every statement keeps ids positive, distinct and below their identity seeds. |
| Circulation.InsertsPreserveValid | LibraryAPI/API/DataAccess/DataAccess.cs:30-370 | Each insert (user, loan, book, category) takes the next identity value, so the identity columns stay valid. |
| Circulation.UpdatesPreserveValid | LibraryAPI/API/DataAccess/DataAccess.cs:201-293 | The returns and the flag updates change no id, so the identity columns stay valid. |
| Circulation.RunPreservesValid | LibraryAPI/API/DataAccess/DataAccess.cs:30-370 | The same over any sequence of statements. |
| Circulation.OrderPreservesConsistent | LibraryAPI/API/DataAccess/DataAccess.cs:127-144 | Ordering a free book keeps "ordered iff exactly one open loan". |
| Circulation.ReturnPreservesConsistent | LibraryAPI/API/DataAccess/DataAccess.cs:201-212 | Returning a book with exactly one open loan of that user keeps the invariant. |
| Circulation.InsertPreservesConsistent | LibraryAPI/API/DataAccess/DataAccess.cs:326-335 | Inserting a book keeps the invariant. |
| Circulation.DeletePreservesConsistent | LibraryAPI/API/DataAccess/DataAccess.cs:346-355 | Deleting a book keeps the invariant. |
| Circulation.ApplyPreservesConsistent | LibraryAPI/API/DataAccess/DataAccess.cs:30-370 | Every guarded statement keeps the invariant. |
| Circulation.GuardedRunConsistent | LibraryAPI/API/DataAccess/DataAccess.cs:30-370 | Any guarded sequence of statements keeps validity and the invariant. |
| Circulation.OrderingLentBookBreaksConsistency | LibraryAPI/API/DataAccess/DataAccess.cs:133-139 | Ordering a lent book still answers true, and it leaves two open loans on a book flagged once. |
| Circulation.ReturnWithoutLoanFreesBook | LibraryAPI/API/DataAccess/DataAccess.cs:206-209 | A return by a user who holds no loan answers false, yet it frees the lent book. |
| Circulation.SecondLoanReturnAnswersFalse | LibraryAPI/API/DataAccess/DataAccess.cs:208-209 | A careful return of a book borrowed a second time keeps the tables consistent. It still answers false, because both (user, book) rows count as affected. |
| Circulation.FlagUpdatesIdempotent | LibraryAPI/API/DataAccess/DataAccess.cs:259-293 | Setting a flag twice is setting it once. Block and activate updates commute. |
| Circulation.FlagUpdateFrame | LibraryAPI/API/DataAccess/DataAccess.cs:259-293 | A flag update changes only that flag of the user with that id. |
| Circulation.InsertedBookAvailable | LibraryAPI/API/DataAccess/DataAccess.cs:326-335 | A new book is stored not ordered, so it is available, and its id is unique. |
| Circulation.UnknownCategoryBreaksCatalog | LibraryAPI/API/DataAccess/DataAccess.cs:318-324 | A book whose category names match no row is stored with category id 0, which no category row has. |
| Circulation.KnownCategoryIsLinked | LibraryAPI/API/DataAccess/DataAccess.cs:318-324 | Otherwise the book is linked to the first category row with those names. |
| Fines.WholeDays | LibraryAPI/API/DataAccess/DataAccess.cs:243 | The whole days of a time span, truncated toward zero. |
| Fines.OverdueDays | LibraryAPI/API/DataAccess/DataAccess.cs:240-244 | Whole days past the 10-day loan period, clamped at 0. Positive iff at least 11 days have passed. |
| Fines.UserJoinRows | LibraryAPI/API/DataAccess/DataAccess.cs:226 | A user contributes one join row per order, or a single null row when they have none. |
| Fines.OrdersFine | LibraryAPI/API/DataAccess/DataAccess.cs:235-249 | The fine over a list of orders: the sum of each unreturned order's 2 per overdue day. Its properties are the `Fines` lemmas below. |
| Fines.UserJoinRowsOwned | LibraryAPI/API/DataAccess/DataAccess.cs:226 | Every join row of a user carries that user's id. |
| Fines.JoinSelectUser | LibraryAPI/API/DataAccess/DataAccess.cs:226-231 | With unique user ids, selecting a user's rows from the join gives exactly that user's join rows. |
| Fines.JoinSelectAbsent | LibraryAPI/API/DataAccess/DataAccess.cs:231 | An id that no user has selects no join rows. |
| Fines.RowsFineConcat | LibraryAPI/API/DataAccess/DataAccess.cs:235-249 | The loop's sum splits over concatenated rows. |
| Fines.OrdersJoinFine | LibraryAPI/API/DataAccess/DataAccess.cs:235-249 | The charges of a user's order rows are the fine of those orders. |
| Fines.JoinFineIsOrdersFine | LibraryAPI/API/DataAccess/DataAccess.cs:226-249 | The loop's fine for a user equals the fine over that user's own orders. |
| Fines.JoinFinesAreOrdersFines | LibraryAPI/API/DataAccess/DataAccess.cs:226-249 | The same for a whole fined list: every listed fine is the stored fine plus the fine over the user's own orders. |
| Fines.OrdersFineEven | LibraryAPI/API/DataAccess/DataAccess.cs:246-247 | A fine is always even, and never negative since it is a `nat`. |
| Fines.NoOrdersNoFine | LibraryAPI/API/DataAccess/DataAccess.cs:229-249 | A user with no orders owes nothing. |
| Fines.ReturnedOrdersAreFree | LibraryAPI/API/DataAccess/DataAccess.cs:237 | Only unreturned orders count toward the fine. |
| Fines.WithinLoanPeriodIsFree | LibraryAPI/API/DataAccess/DataAccess.cs:240-244 | An order less than 11 days old contributes nothing. |
| Fines.OverdueCharge | LibraryAPI/API/DataAccess/DataAccess.cs:240-246 | An open order between 10+k and 11+k days old costs exactly 2·k. |
| Fines.OverdueDaysMonotone | LibraryAPI/API/DataAccess/DataAccess.cs:243-244 | Overdue days never decrease as time passes. |
| Fines.OrdersFineMonotone | LibraryAPI/API/DataAccess/DataAccess.cs:235-249 | A fine never decreases as time passes. |
| Controller.LibraryController.CreateAccount | LibraryAPI/API/Controllers/LibraryController.cs:34-47 | A taken email answers "Email is not available." and creates no user. Otherwise exactly one user is created from the request, stamped and typed USER, and the answer is "Account created successfully.". |
| Controller.AccountIsUser | LibraryAPI/API/Controllers/LibraryController.cs:43-46 | The stored account is a USER with the given creation time, whatever type was requested. Flags, email and password pass through. |
| Controller.LibraryController.Login | LibraryAPI/API/Controllers/LibraryController.cs:56-70 | "Invalid" iff no row matches both email and password. Otherwise the answer is the token for the first user with that email, or a server error when the configured key is empty or the configured lifetime is not a number. A non-empty key and a parseable lifetime always give a token. |
| Controller.Catalog | LibraryAPI/API/Controllers/LibraryController.cs:79-89 | One entry per book, in order. Available iff not ordered; category names come from the joined row. |
| Controller.LibraryController.GetALlBooks | LibraryAPI/API/Controllers/LibraryController.cs:77-91 | Succeeds iff the store's join does: every book's category id matches exactly one category row. Each entry shows its book row: id, title, author, price and availability, and the names of a category row with the book's category id. |
| Controller.CatalogOfJoin | LibraryAPI/API/Controllers/LibraryController.cs:79-89 | Every entry of the catalog of joined books shows its book row: id, title, author, price, availability, and the names of a category row with the book's category id. |
| Controller.LibraryController.OrderBook | LibraryAPI/API/Controllers/LibraryController.cs:99-104 | The store's order, answered "success" or "fail" exactly as the store's boolean. |
| Controller.LibraryController.ReturnBook | LibraryAPI/API/Controllers/LibraryController.cs:133-138 | The route gives the book first; the store is called with the user first. Answers "success" or "not returned" as the store's boolean. |
| Controller.LibraryController.ChangeBlockStatus | LibraryAPI/API/Controllers/LibraryController.cs:170-182 | Status 1 blocks and any other status unblocks. The answer is always "success". |
| Controller.LibraryController.ChangeEnableStatus | LibraryAPI/API/Controllers/LibraryController.cs:190-202 | Status 1 activates and any other status deactivates. The answer is always "success". |
| Controller.LibraryController.GetAllCategories | LibraryAPI/API/Controllers/LibraryController.cs:208-221 | The category tree of the stored rows. |
| Controller.CategoryTreeShape | LibraryAPI/API/Controllers/LibraryController.cs:211-220 | One node per distinct category name, in order of first appearance. Each node, never empty, holds the sub-category names of that category's rows in row order. |
| Controller.CategoryTreeCountsRows | LibraryAPI/API/Controllers/LibraryController.cs:211-220 | The children number exactly the category rows. |
| Controller.LibraryController.InsertBook | LibraryAPI/API/Controllers/LibraryController.cs:228-240 | Inserts the book with title and author trimmed and both category names lower-cased, then answers "Inserted". |
| Controller.NormalisationSettles | LibraryAPI/API/Controllers/LibraryController.cs:232-235 | The normalisation is idempotent. The stored category name has no upper-case letter, and the title does not start with white space. |
| Controller.LibraryController.DeleteBook | LibraryAPI/API/Controllers/LibraryController.cs:247-252 | The store's delete, answered "success" or "fail". |
| Controller.LibraryController.InsertCategory | LibraryAPI/API/Controllers/LibraryController.cs:259-269 | Inserts the category with both names lower-cased, then answers "Inserted". |
| Controller.Bind | LibraryAPI/API/Controllers/LibraryController.cs:99-190 | Matches a request path against a route template: literals must match, each parameter binds its segment, and the lengths must agree. `Wire.OrderRequestBinds`, `Wire.ReturnRequestBinds`, `Wire.BlockToggleAgrees` and `Wire.EnableToggleAgrees` state what the client's paths bind. |
| Jwt.GenerateToken | LibraryAPI/API/DataAccess/Jwt.cs:40-69 | A token exists iff the key is non-empty and the lifetime parses as a 32-bit integer. Issuer and audience are the accepted "localhost". The claims are the user's nine claims, and the key is the configured one. |
| Jwt.NewJwt | LibraryAPI/API/DataAccess/Jwt.cs:28-33 | A missing key or lifetime becomes "". `Jwt.MissingKeyFails` and `Jwt.MissingDurationFails` state that no token can then be made. |
| Jwt.Claims | LibraryAPI/API/DataAccess/Jwt.cs:49-60 | The nine claims of a user, in source order. Their names and values are `Jwt.ClaimsNamed` and `Jwt.PayloadValues`. |
| Jwt.ClaimNamesDistinct | LibraryAPI/API/DataAccess/Jwt.cs:49-60 | Nine claim names, pairwise distinct. |
| Jwt.ClaimsNamed | LibraryAPI/API/DataAccess/Jwt.cs:49-60 | A user's claims carry exactly those nine names, in order. |
| Jwt.PayloadKeys | LibraryAPI/API/DataAccess/Jwt.cs:49-67 | The decoded payload has the nine claims plus expiry, issuer and audience, and nothing else. |
| Jwt.PayloadValues | LibraryAPI/API/DataAccess/Jwt.cs:51-59 | The id claim is decimal text and the flags are "True"/"False". The type is the enum name. The other claims are copied verbatim. |
| Jwt.ExpiryIsDuration | LibraryAPI/API/DataAccess/Jwt.cs:43-67 | With a non-empty key, a lifetime of m minutes gives a token that expires 60·m seconds after issue. |
| Jwt.MissingKeyFails | LibraryAPI/API/DataAccess/Jwt.cs:31-43 | A missing key becomes "", and no token can then be made, whatever the lifetime. |
| Jwt.MissingDurationFails | LibraryAPI/API/DataAccess/Jwt.cs:31-32 | A missing lifetime becomes "", and no token can then be made. |
| Jwt.NonNumericDurationFails | LibraryAPI/API/DataAccess/Jwt.cs:67 | A lifetime holding any character that is not a digit, a sign, white space or NUL is rejected. |
| Text.ParseIgnoresTrailingNuls | LibraryAPI/API/Controllers/LibraryController.cs:136 | The decimal text of any 32-bit integer, followed by any run of NUL characters (none included), parses back to that integer, as .NET's number parser ignores trailing NULs. |
| Text.ParseRejectsForeign | LibraryAPI/API/DataAccess/Jwt.cs:67 | Text holding a character that is not a digit, a sign, white space or NUL does not parse. |
| ApiService.SaveTokenLogsIn | library-management-frontend/src/app/services/api.service.ts:58-69 | After saving a token, the client is logged in iff the token is non-empty. |
| ApiService.DeleteTokenLogsOut | library-management-frontend/src/app/services/api.service.ts:67-77 | After deleting the token, the client is logged out and no user is read. |
| ApiService.LoggedOutNoUser | library-management-frontend/src/app/services/api.service.ts:84-85 | Logged out means no user, whatever the decoder says. |
| ApiService.FlagTextRoundTrip | library-management-frontend/src/app/services/api.service.ts:94-95 | The server's "True"/"False" read back as the original booleans. |
| ApiService.UserTypeReading | library-management-frontend/src/app/services/api.service.ts:98 | Exactly "USER" reads as USER; any other text, "user" included, reads as ADMIN. |
| ApiService.DecodedDefaults | library-management-frontend/src/app/services/api.service.ts:89-97 | A decoded user has password "" and fine 0. Its creation time comes from "createdAt" and its id from "id". |
| ApiService.LoggedIn | library-management-frontend/src/app/services/api.service.ts:67-69 | A token is stored under `access_token` and is non-empty (`!!` of the stored text). |
| ApiService.DecodeUser | library-management-frontend/src/app/services/api.service.ts:86-100 | A decoded payload never reads as "no user". It reads as a user iff every claim the client reads is present. Otherwise the model reads it as unreadable; the page itself throws only when `blocked` or `active` is missing. |
| ApiService.TokenUserInfo | library-management-frontend/src/app/services/api.service.ts:84-101 | No user iff logged out. A stored token the decoder rejects is unreadable. A decoded one gives `DecodeUser` of its payload. |
| ApiService.Api.SaveToken | library-management-frontend/src/app/services/api.service.ts:58-60 | The storage gains the token under `access_token`, and nothing else changes. |
| ApiService.Api.DeleteToken | library-management-frontend/src/app/services/api.service.ts:74-77 | The storage loses `access_token`, and nothing else changes. |
| ApiService.Api.IsLoggedIn | library-management-frontend/src/app/services/api.service.ts:67-69 | `LoggedIn` of the service's own storage; it reads nothing else. |
| ApiService.Api.GetTokenUserInfo | library-management-frontend/src/app/services/api.service.ts:84-101 | `TokenUserInfo` of the service's own storage and decoder; it reads nothing else. |
| ApiService.OrderBookUrl | library-management-frontend/src/app/services/api.service.ts:119-123 | The order address: base, "OrderBook", the user id, the book id. `Wire.OrderRequestBinds` states what the controller binds from it. |
| ApiService.ReturnBookUrl | library-management-frontend/src/app/services/api.service.ts:151-155 | The return address names the book first and the user second. `Wire.ReturnRequestBinds` states what the controller binds from it. |
| ApiService.BlockUserUrl | library-management-frontend/src/app/services/api.service.ts:180-184 | The block address sends status 1. `Wire.BlockToggleAgrees` states what the controller reads. |
| ApiService.UnblockUserUrl | library-management-frontend/src/app/services/api.service.ts:192-196 | The unblock address sends status 0. |
| ApiService.EnableUserUrl | library-management-frontend/src/app/services/api.service.ts:204-208 | The enable address sends status 1. `Wire.EnableToggleAgrees` states what the controller reads. |
| ApiService.DisableUserUrl | library-management-frontend/src/app/services/api.service.ts:216-220 | The disable address sends status 0. |
| LibraryComponent.LibraryComponent.Init | library-management-frontend/src/app/library/library.component.ts:38-48 | The received books are kept in order and shelved. |
| LibraryComponent.LibraryComponent.UpdateList | library-management-frontend/src/app/library/library.component.ts:53-81 | The nested loops build the shelves `GroupBy(books, (category, subCategory))`. The book count is then the number of books. |
| LibraryComponent.LibraryComponent.HasShelf | library-management-frontend/src/app/library/library.component.ts:56-63 | The first inner loop finds a shelf iff one already has the book's category and sub-category. |
| LibraryComponent.LibraryComponent.PushOntoShelf | library-management-frontend/src/app/library/library.component.ts:65-72 | The second inner loop appends the book to exactly the shelves with its key. The books list is unchanged. |
| Seqs.GroupByKeys | library-management-frontend/src/app/library/library.component.ts:55-79 | Shelves have pairwise distinct keys, in order of each key's first appearance. |
| Seqs.GroupByItems | library-management-frontend/src/app/library/library.component.ts:56-79 | A shelf holds exactly the books with its key, in input order. Every book's key has a shelf. |
| Seqs.GroupBySizes | library-management-frontend/src/app/library/library.component.ts:53-89 | No shelf is empty, and the shelves hold as many books as were received. |
| Seqs.GroupByPartition | library-management-frontend/src/app/library/library.component.ts:53-81 | Each book is on exactly the shelf of its key. |
| LibraryComponent.LibraryComponent.Search | library-management-frontend/src/app/library/library.component.ts:95-108 | Shelves everything again, then narrows to the lower-cased query. |
| LibraryComponent.EmptySearchShowsAll | library-management-frontend/src/app/library/library.component.ts:96-98 | The empty query leaves exactly the shelves `updateList` builds. |
| LibraryComponent.SearchShelvesShape | library-management-frontend/src/app/library/library.component.ts:99-106 | After a non-empty query, shelves have distinct keys and none is empty. Each holds exactly the hits with its key, in order. |
| LibraryComponent.SearchKeepsExactlyHits | library-management-frontend/src/app/library/library.component.ts:99-104 | A book stays on display iff its lower-cased title or author contains the query. |
| LibraryComponent.SearchKeepsShelfOrder | library-management-frontend/src/app/library/library.component.ts:99-106 | The surviving shelves are those of `updateList`, in the same order. |
| LibraryComponent.LibraryComponent.OrderBook | library-management-frontend/src/app/library/library.component.ts:114-124 | Sends the order with the token's user id, or "0" when logged out. The book turns unavailable on "success" only. |
| LibraryComponent.LoggedOutIsBlocked | library-management-frontend/src/app/library/library.component.ts:130-133 | With nobody logged in the user counts as blocked. Otherwise it is the token's flag. |
| LibraryComponent.LibraryComponent.GetBookCount | library-management-frontend/src/app/library/library.component.ts:87-89 | The number of books over all shelves. `LibraryComponent.LibraryComponent.UpdateList` ensures it equals the number of books after shelving. |
| LibraryComponent.LibraryComponent.IsBlocked | library-management-frontend/src/app/library/library.component.ts:130-133 | The token's blocked flag, or blocked when nobody is logged in (`LibraryComponent.LoggedOutIsBlocked`). |
| OrdersComponent.OrdersComponent.Init | library-management-frontend/src/app/orders/orders.component.ts:38-46 | Both the list and the view become the received orders. |
| OrdersComponent.OrdersComponent.ApplyFilter | library-management-frontend/src/app/orders/orders.component.ts:52-64 | The view becomes the filtered list; the list itself is unchanged. |
| OrdersComponent.Shown | library-management-frontend/src/app/orders/orders.component.ts:52-64 | The orders each filter value shows. `OrdersComponent.ShowAll`, `OrdersComponent.ShownMembers` and `OrdersComponent.PendingAndReturnedPartition` state what they are. |
| OrdersComponent.ShowAll | library-management-frontend/src/app/orders/orders.component.ts:53-54 | "all" shows every order. |
| OrdersComponent.ShownMembers | library-management-frontend/src/app/orders/orders.component.ts:55-62 | "pen" shows exactly the unreturned orders. Any other value shows exactly the returned ones. |
| OrdersComponent.PendingAndReturnedPartition | library-management-frontend/src/app/orders/orders.component.ts:55-62 | The two views split the list between them, as multisets and by count. |
| OrdersComponent.ShownKeepsOrder | library-management-frontend/src/app/orders/orders.component.ts:52-63 | Filtering keeps relative order: the view of a concatenation is the concatenation of the views. |
| UsersListComponent.UsersListComponent.Init | library-management-frontend/src/app/users-list/users-list.component.ts:36-44 | The received list replaces the shown one. |
| UsersListComponent.BlockRequest | library-management-frontend/src/app/users-list/users-list.component.ts:51-59 | Unblock for a blocked user, block for any other. `Wire.BlockToggleAgrees` states the status it sends. |
| UsersListComponent.EnableRequest | library-management-frontend/src/app/users-list/users-list.component.ts:73-81 | Disable for an active user, enable for any other. `Wire.EnableToggleAgrees` states the status it sends. |
| UsersListComponent.AfterBlockReply | library-management-frontend/src/app/users-list/users-list.component.ts:50-66 | Only the blocked flag can change, and it flips exactly on "success". |
| UsersListComponent.AfterEnableReply | library-management-frontend/src/app/users-list/users-list.component.ts:72-88 | Only the active flag can change, and it flips exactly on "success". |
| UsersListComponent.UsersListComponent.BlockUser | library-management-frontend/src/app/users-list/users-list.component.ts:50-66 | Sends unblock for a blocked user and block otherwise. Only that user's entry changes, by the reply rule. |
| UsersListComponent.UsersListComponent.EnableUser | library-management-frontend/src/app/users-list/users-list.component.ts:72-88 | Sends disable for an active user and enable otherwise. Only that user's entry changes, by the reply rule. |
| UsersListComponent.ToggleFrames | library-management-frontend/src/app/users-list/users-list.component.ts:50-88 | Only "success" flips the toggled flag. The other flag and fields are never touched. |
| UsersListComponent.ToggleTwice | library-management-frontend/src/app/users-list/users-list.component.ts:50-88 | Two successful toggles give the user back, and the two kinds of toggle commute. |
| LoginComponent.LoginComponent.Login | library-management-frontend/src/app/login/login.component.ts:52-78 | The handler's effect on storage, message and navigation is `AfterLogin`. |
| LoginComponent.AfterLogin | library-management-frontend/src/app/login/login.component.ts:60-70 | The page either stays where it was or goes to the library. The "Invalid Credentials." message appears iff the reply is "Invalid", and that reply leaves the storage alone. |
| LoginComponent.InvalidStoresNothing | library-management-frontend/src/app/login/login.component.ts:60-61 | "Invalid" sets "Invalid Credentials." and stores nothing. |
| LoginComponent.ReplyIsStored | library-management-frontend/src/app/login/login.component.ts:63-64 | Any other reply is kept as the token unless the account turns out inactive. |
| LoginComponent.OnlyActiveUsersEnter | library-management-frontend/src/app/login/login.component.ts:63-70 | The page navigates to the library only for a logged-in active user, with an empty message. An inactive or missing user ends logged out with "Your account is not activated."; the page reload that deleting the token triggers then discards that message. |
| Forms.PasswordErrors | library-management-frontend/src/app/login/login.component.ts:41-45 | required iff empty; minlength iff 1 to 7 characters; maxlength iff more than 15. |
| Forms.EmailErrors | library-management-frontend/src/app/login/login.component.ts:40 | required iff empty; email iff non-empty and malformed. |
| Forms.PasswordAccepted | library-management-frontend/src/app/register/register.component.ts:43-47 | A password is accepted iff it has 8 to 15 characters. The message is empty iff there is no error. |
| Forms.PasswordMessageByLength | library-management-frontend/src/app/login/login.component.ts:94-101 | The message each password length gets. |
| Forms.MessagePriority | library-management-frontend/src/app/register/register.component.ts:111-129 | required outranks minlength, which outranks maxlength; email-required outranks email-format. A message is empty iff no error applies. |
| Forms.EmailAccepted | library-management-frontend/src/app/login/login.component.ts:84-88 | The email message is empty iff the email is present and well formed. |
| RegisterComponent.RegistrationUser | library-management-frontend/src/app/register/register.component.ts:60-72 | The submitted account: id 0, USER, mobile "", neither blocked nor active, no creation time, fine 0. The form's names, email and password are copied. |
| RegisterComponent.RegisterComponent.Register | library-management-frontend/src/app/register/register.component.ts:59-84 | Submits that account; the reply text becomes the message. |
| RegisterComponent.RepeatPasswordValidator | library-management-frontend/src/app/register/register.component.ts:163-175 | No errors iff the two passwords are equal, `{rpassword: true}` otherwise. The repeat field's errors are set to the same value. |
| AuthorizationGuard.AdminAccessIff | library-management-frontend/src/app/authorization.guard.ts:26-41 | Admits iff logged in and the token reads as ADMIN. Refuses when logged out. |
| AuthorizationGuard.NonUserTypePasses | library-management-frontend/src/app/authorization.guard.ts:35 | Any readable token whose type claim is not exactly "USER" is admitted. |
| AuthorizationGuard.AdminAccess | library-management-frontend/src/app/authorization.guard.ts:34-40 | Admitting needs a login. The guard raises (None) exactly when the stored token is unreadable. |
| AuthorizationGuard.AuthorizationGuard.CanActivate | library-management-frontend/src/app/authorization.guard.ts:26-41 | `AdminAccess` of the service's storage; route and router state do not enter. |
| AuthenticationGuard.PresenceOnly | library-management-frontend/src/app/guards/authentication.guard.ts:30-40 | Admits iff a non-empty token is stored, whatever its claims or expiry. |
| AuthenticationGuard.AuthenticationGuard.CanActivate | library-management-frontend/src/app/guards/authentication.guard.ts:30-38 | The service's login test; route and router state do not enter. |
| Routing.RouteTableShape | library-management-frontend/src/app/app-routing.module.ts:20-69 | Paths are pairwise distinct; no route has more than one guard. |
| Routing.GuardTable | library-management-frontend/src/app/app-routing.module.ts:20-69 | Looking up any route's path finds exactly that route's guards, because no route shadows another. |
| Routing.GuardsInAbsent | library-management-frontend/src/app/app-routing.module.ts:20-69 | A path that no route has matches no route. |
| Routing.LoggedOutReachesOnlyOpenPages | library-management-frontend/src/app/app-routing.module.ts:20-69 | Logged out, a route can be entered iff it is login or register. |
| Routing.AdminPagesNeedAdmin | library-management-frontend/src/app/app-routing.module.ts:39-63 | An administration page admits exactly the sessions the authorization guard admits. |
| Routing.GuardsOf | library-management-frontend/src/app/app-routing.module.ts:20-69 | The guards of the route with a path. `Routing.GuardTable` and `Routing.GuardsInAbsent` state what it finds. |
| Wire.TokenRoundTrip | library-management-frontend/src/app/services/api.service.ts:84-101 | A token issued for a user decodes on the client to that user. Its id is decimal text, with no password and no fine. |
| Wire.SessionUser | library-management-frontend/src/app/services/api.service.ts:84-101 | With such a token stored, the client reads that user. |
| Wire.LoginGate | library-management-frontend/src/app/login/login.component.ts:63-70 | A login reply for a user gets in, and stays logged in, exactly when the user is active. |
| Wire.OrderRequestBinds | library-management-frontend/src/app/services/api.service.ts:119-123 | The order request binds the controller's user then book. |
| Wire.ReturnRequestBinds | library-management-frontend/src/app/services/api.service.ts:151-155 | The return request names the book first, as the controller's route reads it. |
| Wire.TokenIdParses | library-management-frontend/src/app/services/api.service.ts:89 | The user id read from a token parses back on the server to the user's id. |
| Wire.BlockToggleAgrees | library-management-frontend/src/app/services/api.service.ts:180-196 | The block toggle sends status 1 exactly when the listed user was not blocked. |
| Wire.EnableToggleAgrees | library-management-frontend/src/app/services/api.service.ts:204-220 | The enable toggle sends status 1 exactly when the listed user was not active. |
| Wire.NewAccountStartsInactive | library-management-frontend/src/app/register/register.component.ts:60-72 | A registered account is stored as an unblocked, inactive USER with no fine. Its token does not get past the login page. |

## Left out

- SQL, connections and Dapper mapping are left out; the tables are sequences of records. Text comparison in queries is exact, so collation (case-insensitive matching in the database) is not modelled. No foreign-key constraint is modelled, so a delete or an insert never fails.
- Concurrency is left out: each store call runs alone and atomically.
- Jwt.GenerateToken: an empty key is refused, as the symmetric key constructor does. The signing library's further refusal of short keys (under 128 bits for HMAC-SHA256, depending on its version) is not modelled, so a short non-empty key still gives a token.
- Forms.PasswordErrors: lengths are counted in characters (Unicode scalar values). The page's `minLength` and `maxLength` count UTF-16 code units, so a password with a character outside the Basic Multilingual Plane is judged shorter by the model than by the page.
- Signing, token validation, the bearer middleware and the client's JWT library are foreign code. A token is its claims, issuer, audience, expiry and key, and the client decoder is a parameter. An unreadable token is `Unreadable`.
- ApiService.DecodeUser: a payload missing any claim the client reads is taken as `Unreadable`. On the page only a missing `blocked` or `active` claim throws; a missing `userType` reads as ADMIN, and any other missing claim gives a user with an undefined field, which the model does not represent.
- The clock is one `now` parameter in seconds. In `GetUsers` it stands for every read of the clock inside the loop.
- The stored creation time is whatever text the caller passes. Date formatting and the `DateTime` range are not modelled.
- Prices are floating point on the server. The model carries them as opaque bits and does no arithmetic on them.
- Integers are unbounded. 32-bit overflow of ids, fines and the expiry is not modelled; parsing the token lifetime is limited to the 32-bit range.
- `Int32.Parse` is modelled as sign plus decimal digits with surrounding white space, then any run of NUL characters. Its culture-specific rules are not modelled.
- Text functions are ASCII only. `ToLower` maps only A–Z. `Trim` removes the .NET white-space characters.
- Parsing the route text in `ReturnBook` can throw. The model makes parseable ids a precondition.
- `GetOrdersOfUser`, `GetAllOrders` and the `GetAllUsers` projection are not modelled: they only read and reshape rows. The client's `getAllUsers` rewriting of `userType` is not modelled either.
- HTTP, RxJS subscriptions, the error callbacks, router navigation beyond the target path, `location.reload` after deleting the token, and FormBuilder are not modelled. The email format test is a boolean parameter, since it is the framework's own pattern.
- Pages that only pass values to templates are not modelled: the header, footer, side navigation, profile, single order, return, book maintenance and category maintenance pages.
- `LibraryComponent.LibraryComponent.Search`: a search reuses the shelves that `updateList` has just rebuilt, so narrowing them in place changes nothing else. The model reassigns the field instead.
- Client user ids are kept as the decimal text they contribute to request paths. The model does not track whether a JavaScript number or a string sits in that field.
