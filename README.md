# Personal-finance API core, modelled in Dafny

This project models the core of a personal-finance REST back end: the bearer-token gate in front of the protected routes, registration, login and refresh-token reissue, the per-user tables of transactions, notes and bank-statement lines, the note controller with its cap of five notes per user, and the user controller's update checks. Each SQL table is an in-memory sequence of rows with an identity counter. Each SQL statement becomes a function or a method over those rows. bcrypt and jsonwebtoken are function-valued parameters about which nothing is assumed.

Files and modules:

- `Common.dfy`: nullable columns (`Option`) and JSON body fields (`Input`: missing, `null` or a value), plus JavaScript truthiness, `startsWith`, and the ascending-rank lists the SET-clause builders produce.
- `Ordering.dfy`: `ORDER BY` as a sort by an integer key, giving a permutation that is sorted.
- `Crypto.dfy`: the hashing and token libraries as parameters, the secrets from the environment, and the identity a decoded token yields.
- `AuthMiddleware.dfy`: classifies the `Authorization` header; the middleware method records `req.user` and calls `next()`.
- `AuthService.dfy`: login and refresh as decision chains; registration as a method on the user table.
- `AuthFlow.dfy`: register, login, refresh and the gate put together, under explicit hypotheses about the libraries.
- `TransactionService.dfy`, `NoteService.dfy`, `BankStatementService.dfy`:
  - the read queries are functions;
  - create, update and delete are methods on a table class;
  - the SET-list builders are methods that push one column per defined field.
- `NoteController.dfy`: the note endpoints as methods on the note table; the invariant "no user has more than five notes" is preserved.
- `UserController.dfy`: the user endpoints as decisions; the service calls are parameters.

## Model

| member | source | states |
|---|---|---|
| AuthMiddleware.PickHeader | src/middleware/authMiddleware.ts:17 | the lower-case header is used when it is truthy, otherwise the capitalised one; the chosen header is truthy exactly when either is |
| AuthMiddleware.ExtractToken | src/middleware/authMiddleware.ts:31-40 | a token is extracted exactly when the header starts with "Bearer " (case-sensitive, one space), and then the header is "Bearer " followed by the token |
| AuthMiddleware.ExtractTokenRoundTrip | src/middleware/authMiddleware.ts:31-40 | extraction inverts the prefix: the token of "Bearer " + t is t |
| AuthMiddleware.StatusOf | src/middleware/authMiddleware.ts:20-75 | the status is 200 exactly for an authenticated request |
| AuthMiddleware.MessageOf | src/middleware/authMiddleware.ts:25-74 | every rejection carries a JSON message; success and the header fault carry none |
| AuthMiddleware.CheckBearer | src/middleware/authMiddleware.ts:31-75 | once a header string is chosen, the outcome is never the header fault |
| AuthMiddleware.Gate | src/middleware/authMiddleware.ts:17-75 | the uncaught fault happens exactly when the chosen header is an empty list; authentication needs a truthy header in one of the two spellings; the full outcome table is given by `NoHeaderMeansNoToken`, `OnlyFirstElementExamined`, `NonBearerIsInvalidFormat`, `BareSchemeMeansNoToken`, `BearerTokenOutcome` and `AuthenticatedOnlyViaBearer` |
| AuthMiddleware.NoHeaderMeansNoToken | src/middleware/authMiddleware.ts:17-26 | with neither header spelling present the outcome is "No token provided" |
| AuthMiddleware.OnlyFirstElementExamined | src/middleware/authMiddleware.ts:28-30 | for a list-valued header only the first element decides, the other spelling is ignored, and the result is the same as for that element sent as a string |
| AuthMiddleware.NonBearerIsInvalidFormat | src/middleware/authMiddleware.ts:31-38 | a non-empty header that does not start with exactly "Bearer " is "Invalid token format" |
| AuthMiddleware.LowerCaseSchemeRefused | src/middleware/authMiddleware.ts:31-38 | "bearer " + any token is "Invalid token format" |
| AuthMiddleware.BareSchemeMeansNoToken | src/middleware/authMiddleware.ts:40-48 | the header "Bearer " alone is "No token provided", and the verifier is not consulted |
| AuthMiddleware.BearerTokenOutcome | src/middleware/authMiddleware.ts:40-75 | each outcome of "Bearer " + token in terms of the token: empty, rejected by verification, incomplete payload, or authenticated as the payload's identity |
| AuthMiddleware.AuthenticatedOnlyViaBearer | src/middleware/authMiddleware.ts:57-68 | an authenticated request had a "Bearer " header whose non-empty token verified to exactly the recorded userId and email, both truthy |
| AuthMiddleware.Authenticate | src/middleware/authMiddleware.ts:17-75 | on success `req.user` is set to exactly the payload's `{userId, email}`, `next()` is called and no response is sent; otherwise the outcome's status and message are sent and `req.user` and `next` are untouched |
| Crypto.RefreshExpiry | src/services/authService.ts:72-74 | the refresh lifetime is never empty: the configured value when set, "7d" otherwise |
| Crypto.IdentityOf | src/middleware/authMiddleware.ts:57-65 | an identity is produced exactly when verification succeeded with a non-zero userId and a non-empty email, and it carries exactly those two claims |
| AuthService.FindByEmail | src/services/authService.ts:98-111 | the lookup finds nothing exactly when no row has the email; otherwise it finds a stored row with that email |
| AuthService.Login | src/services/authService.ts:78-154 | a success is the token pair over a row carrying the requested email; login never reports the register or refresh errors; the order of its checks is given by `SecretsCheckedFirst`, `LoginErrorOrder`, `LoginFoundRowErrors` and `LoginSucceedsOnlyForStoredUser` |
| AuthService.Refresh | src/services/authService.ts:156-187 | a success needs the secrets and a token that verifies to a truthy userId and email; every failure is the secrets error or "Invalid refresh token"; the new token's claims are given by `RefreshKeepsClaims` |
| AuthService.SecretsCheckedFirst | src/services/authService.ts:83-87 | with a secret missing, login fails with the secrets error whatever the table holds, and so does refresh (lines 160-164) |
| AuthService.LoginErrorOrder | src/services/authService.ts:89-143 | empty credentials fail first, then an unknown email; a known email never gives those two errors; "Invalid password" only for a stored row whose hash the password does not match |
| AuthService.LoginFoundRowErrors | src/services/authService.ts:107-143 | on the row the lookup returned: a NULL or empty stored hash is "Stored password is missing"; otherwise "Invalid password" exactly when the hash does not match the password, and success exactly when it does |
| AuthService.LoginSucceedsOnlyForStoredUser | src/services/authService.ts:107-154 | a successful login is for a stored row with that email and a non-empty hash the password matches; both tokens carry that row's id and email, signed with the access and refresh secrets; an unknown email never logs in |
| AuthService.RefreshKeepsClaims | src/services/authService.ts:166-183 | a refresh token verifying to claims c yields a new access token over exactly c, signed with the access secret for "2d", when c's userId and email are truthy, and "Invalid refresh token" otherwise |
| AuthService.RefreshSingleError | src/services/authService.ts:160-187 | refresh fails only with the secrets error or "Invalid refresh token"; a rejected token gives the latter |
| AuthService.FindAppended | src/services/authService.ts:21-47 | after inserting a row whose email was not yet present, the email lookup finds exactly that row |
| AuthService.UserTable.Register | src/services/authService.ts:8-77 | with a secret missing or the email taken, fails and leaves the table unchanged; otherwise appends exactly one row (next id, given name and email, the hash and salt), whose id is fresh, and returns the token pair over it |
| AuthService.RegisterTwice | src/services/authService.ts:21-33 | on any table, a second registration of the same email fails with "Email already exists", and the table holds at most the first call's row |
| AuthFlow.RegisterThenLogin | src/services/authService.ts:8-155 | if a password matches its own hash, logging in with the registered email and password succeeds and returns the pair issued at registration |
| AuthFlow.EmptyPasswordNeverLogsIn | src/services/authService.ts:89-95 | an empty password never logs in, even though registration accepts it |
| AuthFlow.AccessTokenAuthenticates | src/middleware/authMiddleware.ts:50-68 | if signed tokens verify to their claims, an issued access token passes the gate as its user |
| AuthFlow.RefreshedTokenAuthenticates | src/services/authService.ts:166-183 | under the same hypothesis, an issued refresh token refreshes to an access token over the same claims, and that token passes the gate |
| AuthFlow.RegisterLoginRefreshAuthenticate | src/services/authService.ts:8-188 | register, then login, then refresh, then the gate: the request is authenticated as the new user's id and email |
| Common.Column | src/services/bankStatementService.ts:13-23 | a bound field is NULL exactly when it was missing or null, and otherwise holds the given value |
| Common.AscendingUnique | src/services/transactionService.ts:87-107 | two lists in strictly ascending rank with the same members are equal, so a builder's membership and order postconditions determine its list |
| Ordering.SortBy | src/services/noteService.ts:12 | the result is a permutation of the input and is sorted by the key |
| TransactionService.TypeOrIncome | src/services/transactionService.ts:67 | the stored type is never empty: the given type when truthy, "income" otherwise |
| TransactionService.RowsOf | src/services/transactionService.ts:22 | exactly the rows of the given user |
| TransactionService.JoinCategories | src/services/transactionService.ts:20-21 | a row appears with its category's name exactly when its category exists; a row without one drops out |
| TransactionService.GetAllTransactions | src/services/transactionService.ts:6-25 | a view is in the result exactly when its row is one of the user's rows whose category exists and its name is that category's name; rows without an existing category drop out |
| TransactionService.GetTransactionById | src/services/transactionService.ts:27-52 | a result is a row with that id owned by that user, joined with its existing category's name; null exactly when no such row with an existing category exists, so another user's id gives null |
| TransactionService.FindOwned | src/services/transactionService.ts:117 | exactly the rows matching both the id and the user |
| TransactionService.ApplySet | src/services/transactionService.ts:87-118 | the SET clause applied to one row keeps its id, owner and creation time and stamps UpdatedAt with `GETDATE()`; the column values are given by `ApplySetEffect` |
| TransactionService.ApplySetEffect | src/services/transactionService.ts:113-118 | the SET clause changes exactly the listed columns, to their bound values, and UpdatedAt; the id, owner and creation time are kept |
| TransactionService.UpdateOwned | src/services/transactionService.ts:113-119 | rows matching id and user get the SET clause; every other row is unchanged; the table keeps its length |
| TransactionService.UpdateOwnedKeepsKeys | src/services/transactionService.ts:113-117 | the update keeps every row's id and owner |
| TransactionService.DeleteOwned | src/services/transactionService.ts:129-131 | the rows that remain are exactly those not matching both id and user |
| TransactionService.DeleteOwnedShrinks | src/services/transactionService.ts:123-133 | the delete shrinks the table exactly when a row with that id owned by that user existed |
| TransactionService.TransactionTable.CreateTransaction | src/services/transactionService.ts:54-73 | appends one row with a fresh id, the given fields (missing or null ones as NULL) and the type defaulted to "income" |
| TransactionService.TransactionTable.BuildUpdates | src/services/transactionService.ts:87-107 | the SET list holds a column exactly when its field is not undefined (null counts), in the order CategoryId, Date, Description, Amount, Type |
| TransactionService.TransactionTable.UpdateTransaction | src/services/transactionService.ts:75-121 | with no defined field, null and no change; otherwise the owned row gets the SET clause; a non-null result is that owned row with UpdatedAt set; null exactly when no owned row existed |
| TransactionService.TransactionTable.DeleteTransaction | src/services/transactionService.ts:123-134 | true exactly when a row with that id owned by that user existed; exactly the owned rows are removed |
| NoteService.NotesOf | src/services/noteService.ts:10-11 | exactly the notes of the given user |
| NoteService.CountNotes | src/services/noteService.ts:18-28 | the count equals the number of the user's notes, and is at most the table size |
| NoteService.GetAllNotes | src/services/noteService.ts:5-16 | exactly the user's notes, each as often as stored, ordered by due date ascending with NULL first; as many as the count |
| NoteService.ApplySet | src/services/noteService.ts:48-58 | the SET clause applied to one row keeps its id and owner; the field values are given by `ApplySetEffect` |
| NoteService.ApplySetEffect | src/services/noteService.ts:54-58 | the SET clause changes exactly the listed fields; the id and owner are kept |
| NoteService.UpdateOwned | src/services/noteService.ts:54-68 | the owned row gets the SET clause; every other row is unchanged |
| NoteService.UpdateOwnedKeepsKeys | src/services/noteService.ts:58 | the update keeps every row's id and owner |
| NoteService.FindOwned | src/services/noteService.ts:58 | exactly the notes matching both id and user |
| NoteService.DeleteOwned | src/services/noteService.ts:78-79 | the notes that remain are exactly those not matching both id and user |
| NoteService.CountAfterInsert | src/services/noteService.ts:30-43 | an insert raises its owner's count by one and leaves every other count as it was |
| NoteService.CountAfterDelete | src/services/noteService.ts:72-82 | a delete never raises a count, and lowers the owner's count when an owned note existed |
| NoteService.UpdateKeepsCounts | src/services/noteService.ts:54-69 | a change that keeps every row's owner keeps every user's count |
| NoteService.NoteTable.CreateNote | src/services/noteService.ts:30-43 | appends one note with a fresh id, the given text, due date and owner; that owner's count rises by one and no other count changes |
| NoteService.NoteTable.BuildFields | src/services/noteService.ts:48-50 | the field list holds `note` exactly when it is defined and `dueDate` exactly when it is defined, in that order |
| NoteService.NoteTable.UpdateNote | src/services/noteService.ts:45-70 | null exactly when no field is defined, with no change; otherwise the owned row gets the SET clause; undefined exactly when no owned note existed; no count changes |
| NoteService.NoteTable.DeleteNote | src/services/noteService.ts:72-83 | true exactly when an owned note existed; exactly the owned notes are removed; no count rises and the owner's count falls when one was removed |
| NoteController.Spread | src/controllers/noteController.ts:44 | the note's owner is always the authenticated user, whatever `userId` the body carries |
| NoteController.GetAllNotes | src/controllers/noteController.ts:6-18 | 401 without a truthy caller id, otherwise 200 with exactly the caller's notes |
| NoteController.CreateNote | src/controllers/noteController.ts:20-50 | validation errors, then 401, then 400 "Note limit reached (max 5 per user)" at five notes, each leaving the table unchanged; otherwise 201 with one new note owned by the caller; no user ever exceeds five notes |
| NoteController.UpdateNote | src/controllers/noteController.ts:52-81 | 401 without a caller; with no defined field, 404 "Note not found" and the table unchanged; with a field, the table is the SET clause applied to the caller's note with that id; no owned note is 404; 200 exactly with the updated owned note when one exists and a field is given; the cap is preserved |
| NoteController.DeleteNote | src/controllers/noteController.ts:83-108 | 204 exactly when the caller owned the note; otherwise 404; exactly the owned note is removed and the cap is preserved |
| NoteController.DeleteFreesSlot | src/controllers/noteController.ts:37-42 | a user at the cap who deletes an owned note is below it again |
| NoteController.DeleteThenCreate | src/controllers/noteController.ts:37-46 | at five notes, a 204 delete lets the next valid create succeed with 201 |
| BankStatementService.StatementsOf | src/services/bankStatementService.ts:40 | exactly the user's rows |
| BankStatementService.StatementsOfEntry | src/services/bankStatementService.ts:62 | exactly the user's rows of that entry; a NULL EntryId never matches |
| BankStatementService.ValueIfType | src/services/bankStatementService.ts:36-37 | the CASE of the credits (type 'C', `CreditOf`) and of the debits (type 'D', `DebitOf`): a row adds its value exactly when its EntryType is that letter and its value is not NULL; every other row adds 0 |
| BankStatementService.SignedOf | src/services/bankStatementService.ts:38 | a row's share of the balance is its credit, less its debit, less its value when it is of neither type; any row not of type 'C', NULL type included, is subtracted |
| BankStatementService.Sum | src/services/bankStatementService.ts:36-49 | the sum over no rows is 0 (the NULL of an empty SUM turned into 0) |
| BankStatementService.SumAppend | src/services/bankStatementService.ts:36-49 | the sum over two runs of rows is the sum of their sums, so rows added to the table add their own terms and change nothing else |
| BankStatementService.GetBalanceByUser | src/services/bankStatementService.ts:29-51 | the report is for the requested user |
| BankStatementService.BalanceDecomposes | src/services/bankStatementService.ts:36-38 | over any rows, the signed sum is credits, less debits, less the values of rows of any other type |
| BankStatementService.BalanceCountsOthersAsDebits | src/services/bankStatementService.ts:38 | rows of neither 'C' nor 'D', NULL types included, are subtracted from the balance and counted in neither total |
| BankStatementService.BalanceWhenAllCreditOrDebit | src/services/bankStatementService.ts:36-38 | when each of the user's rows is 'C' or 'D', the balance is total credits minus total debits |
| BankStatementService.NoRowsAllZero | src/services/bankStatementService.ts:40-50 | a user without rows gets 0 for all three figures |
| BankStatementService.StatementsOfAppend | src/services/bankStatementService.ts:40 | the user filter over a table grown by one row is the old filter plus that row when it is the user's |
| BankStatementService.AppendChangesOnlyOwner | src/services/bankStatementService.ts:36-40 | a new row changes only its owner's report, by its own credit, debit and signed value |
| BankStatementService.ListByUser | src/services/bankStatementService.ts:69-83 | exactly the user's rows, each as often as stored, newest date first with NULL dates last; the entry id argument plays no part |
| BankStatementService.ListByEntryAndUser | src/services/bankStatementService.ts:53-67 | exactly the user's rows of that entry, each as often as stored, newest date first |
| BankStatementService.EntryListWithinUserList | src/services/bankStatementService.ts:62 | the entry-and-user selection is a sub-multiset of the user selection |
| BankStatementService.ListsNest | src/services/bankStatementService.ts:53-83 | the rows of `listByEntryAndUser` are among those of `listByUser`, whatever entry id the latter is given |
| BankStatementService.NewStatement | src/services/bankStatementService.ts:11-23 | the new row has the given id and owner; each of entryId, entryType, value, description and date is NULL exactly when missing or null, and a given one is stored as the given value |
| BankStatementService.StatementTable.CreateBankStatement | src/services/bankStatementService.ts:6-27 | appends exactly the new row, with the next id, and returns it |
| BankStatementService.StatementTable.DeleteStatement | src/services/bankStatementService.ts:86-99 | true exactly when a row matching user, entry and date existed; then exactly one matching row is removed and the rest keep their order; otherwise nothing changes |
| UserController.GetAllUsers | src/controllers/userController.ts:6-17 | 401 exactly without a truthy caller id; otherwise 200 with the service's rows for the caller's id |
| UserController.GetUserById | src/controllers/userController.ts:19-36 | after validation, 404 exactly when the lookup of the path id finds nothing, and 200 with the found row whenever it finds one; the caller plays no part |
| UserController.UpdateUserStep | src/controllers/userController.ts:74-93 | the update is reached exactly when validation passed, the name is truthy and both images are absent, empty or start with "data:image/"; it gets the path id and the body; every other answer is a 400 |
| UserController.UpdateUser | src/controllers/userController.ts:38-102 | a refused body gets the check's answer; otherwise 404 "User not found" when the update returns nothing, else 200 with the row |
| UserController.FalsyNameRefused | src/controllers/userController.ts:77-79 | a falsy name gives 400 "Name is required" and no update |
| UserController.IconCheckedBeforeBanner | src/controllers/userController.ts:81-93 | with a truthy name and a bad icon, the icon message is reported whatever the banner |
| UserController.MissingImagesPass | src/controllers/userController.ts:81-89 | absent, null or empty images never block an update |
| UserController.DataImagePasses | src/controllers/userController.ts:81 | an image starting with "data:image/" passes its check |
| UserController.RefusedUpdateTouchesNothing | src/controllers/userController.ts:77-94 | a refused update answers the same whatever the update query would do, so the query is never reached |
| UserController.DeleteUser | src/controllers/userController.ts:133-150 | 204 exactly when the delete removed a row with the path id, else 404 |
| UserController.MetaArgumentOf | src/controllers/userController.ts:119-120 | a missing meta is passed as null; a given meta is passed as its number |
| UserController.UpdateUserMeta | src/controllers/userController.ts:104-131 | validation errors, else 200 "Meta atualizada" exactly when the service reports an update, else 404 |
| UserController.NullMetaBecomesNotANumber | src/controllers/userController.ts:119-120 | a null meta is passed as NaN, unlike a missing one |
| UserController.MetaArgumentIntended | src/controllers/userController.ts:119-120 | the corrected argument: null for a missing or null meta, the number otherwise, never NaN |
| UserController.ActsOnAnyId | src/controllers/userController.ts:27-141 | as written, user 1 reads, updates and deletes user 2 |
| UserController.GetUserByIdOwned | src/controllers/userController.ts:19-36 | corrected: a row is returned only when the path id is the caller's; any other id is 404 |
| UserController.UpdateUserStepOwned | src/controllers/userController.ts:74-93 | corrected: the update is reached only for the caller's own id; any other id is 404 |
| UserController.DeleteUserOwned | src/controllers/userController.ts:133-150 | corrected: 204 only for the caller's own id; any other id is 404 |
| UserController.OwnedEndpointsRefuseOtherIds | src/controllers/userController.ts:27-141 | with the ownership check, an id other than the caller's is never read, updated or deleted |

## Left out

- SQL execution and the connection pool are I/O. Each table is a sequence of rows with an identity counter, and each statement is a function or method over it.
- Errors thrown by the database and the resulting 500 responses are not modelled. The one 500 modelled is the uncaught fault of an empty header list in the middleware.
- SQL collation is not modelled. Email, ids, dates and the entry type are compared by exact equality, whereas the server may compare strings case-insensitively. Under such a collation `EntryType = 'C'` and `= 'D'` (src/services/bankStatementService.ts:36-38) also match 'c' and 'd', so those rows would count as credits or debits rather than as the rows of another type that `BalanceCountsOthersAsDebits` subtracts.
- The ordering of rows that tie on the `ORDER BY` key is not fixed. Queries without `ORDER BY` are modelled in table order, which the server does not promise.
- bcrypt (salt generation, hashing, comparison) and jsonwebtoken (signing, verification, expiry, per RFC 7519) are foreign calls and are kept as uninterpreted parameters.
  - The salt is a parameter of registration.
  - That a password matches its own hash, and that a signed token verifies to its claims, appear only as hypotheses of the lemmas in `AuthFlow`.
- The `GETDATE()` clock is an integer parameter `now`. Dates are integer timestamps; the truncation of `sql.Date` to a day is not modelled.
- Amounts and statement values are exact reals. `Decimal(18, 2)` and `Decimal(18, 10)` rounding and `parseFloat` are floating point and are not modelled.
- The declared parameter lengths (`NVarChar(50)`, `VarChar(100)`, `Char(1)`) and CHAR padding are not modelled. An entry type is a single character.
- The express-validator chains call into a library whose rules are not visible. Each handler receives only the verdict, `validationFailed`.
  - The `trim()` sanitizer on the user's name is part of that library; `UserBody` is the body after sanitizing.
  - Request bodies whose fields have the wrong JSON type are left to the validators and are not modelled.
- The race between `countNotes` and `createNote` in `createNote` is concurrency. The handlers run one at a time.
- Logging, CORS, routing and the server start-up are plumbing and are left out.
- src/services/userService.ts is not part of this model. The user controller receives the service's lookup, update and delete as function parameters.
  - That file has no `updateUserMeta`. As written, the call would throw and be answered with 500; the model takes the service call as a parameter instead.
- AuthService.UserTable.Register: signing is assumed not to throw. As written, `jwt.sign` runs after the INSERT (src/services/authService.ts:68-73); an invalid `JWT_REFRESH_EXPIRES_IN` makes it throw, so register fails while the new row stays in the table.
- NoteController.CreateNote: only `note`, `dueDate` and the caller's id reach the insert. Other body keys are dropped by the service, so `NoteBody` carries only those fields.
- BankStatementService.StatementTable.DeleteStatement: `DELETE TOP (1)` does not fix which of several matching rows goes. The contract promises one matching row, not which; the method removes the first.
- BankStatementService.GetBalanceByUser: its own contract names only the user. The three figures are specified by `BalanceDecomposes`, `BalanceWhenAllCreditOrDebit`, `NoRowsAllZero` and `AppendChangesOnlyOwner`.
- Token claims are modelled as an integer `userId` and a string `email`. The middleware only tests them for truthiness, so a truthy claim of another JSON type (a string `"5"`, `true`, `1.5`) would reach `req.user` unchanged and be bound as `sql.Int` by the handlers; that path is not modelled, and `Crypto.IdentityOf` and `AuthMiddleware.Gate` cover only integer and string claims.
- The field named `type` in the transaction rows is called `kind` in the model, because `type` is a Dafny keyword.

## Findings

| source | as written | input that shows it | evidently intended | confidence | as-written member | corrected member |
|---|---|---|---|---|---|---|
| src/controllers/userController.ts:119-120 | a `null` meta, which the nullable check admits, is passed on as `parseFloat(null)`, NaN | body `{"meta": null}` | a null meta clears the value and is passed as null, like a missing one | medium, not executed | UserController.NullMetaBecomesNotANumber | UserController.MetaArgumentIntended |
| src/controllers/userController.ts:27-141 | `getUserById`, `updateUser` and `deleteUser` act on the path id without comparing it with the authenticated user | caller 1 sends `DELETE /api/users/2` | a path id that is not the caller's is answered 404, like other resources not owned by the caller | medium, not executed | UserController.ActsOnAnyId | UserController.OwnedEndpointsRefuseOtherIds |
