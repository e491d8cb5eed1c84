# library-app in Dafny

This project models BookHive, a library application. It has an Express/Sequelize server and a
React/Redux client. Books, borrows, book requests, notifications and users live in database
tables. Members borrow and return copies, ask the library to acquire books, and get
notifications. Notifications are created by two daily sweeps over the borrows and are pushed
over a WebSocket registry. Accounts are created with a domain-restricted registration and
recovered with a one-hour reset token. The client derives display state from what the server
returns.

The model has these parts:

- **Shared modules.**
  - `Records` holds the rows of each table.
  - `Store` holds the database, one `class Database` whose tables are `seq` fields. Its own
    methods are the storage steps (`create` of a row, `update` of a row). Every handler takes
    the database, or the one table it reads, as an argument. Primary keys are unique and
    below a counter `nextId`, which stands for the UUID generator. User e-mail addresses are
    unique.
  - `Seqs` and `Strings` hold the generic list and string operations the code relies on: the
    first match, filter, descending sort, `new Set` order, `includes`, `replace`, `split`,
    `endsWith`, and number formatting.
- **Server modules.** `BorrowController`, `BookRequestController`, `NotificationController`,
  `AuthController`, `AuthMiddleware` and `WebSocketService`, each named after the file it
  models.
  - A handler that updates rows is a method with a `modifies` frame on the tables it touches;
    a read-only handler is a function of its table.
    It is specified against a pure function of the old tables.
  - Each handler's error answers are `Failure(status, message)`, with the code's status codes
    and messages.
  - The central invariant is stock conservation: for every book, copies on the shelf plus
    copies on loan are the same after a borrow and after a return.
- **Client modules.** `BorrowingHistory`, `Dashboard`, `BookList`, `NotificationBell`,
  `NotificationSlice`, `AuthSlice`, `ProtectedRoute` and `ResetPasswordForm`. They are pure
  functions, except the two Redux slices, which are classes with one method per reducer case.

Outside inputs are parameters:

- the current time `now`, in milliseconds (all times are integer milliseconds);
- bcrypt (`hash`, `compare`) and JSON Web Tokens (`sign`, `signReset`, `verify`, `verifyReset`);
- whether SMTP is configured and whether the mail went out;
- a socket's `readyState` (`isOpen`);
- `localStorage` contents and `JSON.parse`, and the decoding of a token's middle part.

Where the code and its documentation differ, the model follows the code, with one
exception:

- `returnBook` never sets `status`, and that is a bug (see Findings). The as-written update is
  `BorrowController.MarkReturnedAsWritten`, and the counterexamples are built on it. The
  handler `BorrowController.ReturnBook` does not follow the code here. It performs the
  corrected return, `BorrowController.MarkReturned`, which also sets `status` to `returned`.
- The overdue sweep selects by `status` and the due date only.
- Approval and rejection of a book request have no lifecycle guard.
- An empty role list means "everyone" on the server and "no one" on the client.
- The server reads a book's available count as `available_quantity` in
  `server/src/controllers/borrowController.ts` but as `availableQuantity` elsewhere, and the
  Dashboard client reads `available_quantity`. All of these are one field here,
  `Book.availableQuantity`.

## Model

| member | source | states |
|---|---|---|
| BorrowController.BorrowBook | server/src/controllers/borrowController.ts:7-61 | 404 "Book not found" for an unknown key and 400 "Book is not available" when the count is not positive, both with no change. Otherwise it appends a new open borrow (borrowed now, due `returnDate`, key from the generator) and takes one copy off that book's count. Every book's shelf-plus-loan stock is unchanged, and returned borrows stay recorded as `returned`. |
| BorrowController.ReturnBook | server/src/controllers/borrowController.ts:63-109 | 404 "Borrow record not found", 400 "Book already returned" and 404 "Book not found", in that order, each with no change. Otherwise that borrow, and only it, gets the corrected return (see Findings), one copy goes back, every book's stock is kept, and every returned borrow stays recorded as `returned`. |
| BorrowController.MarkReturnedAsWritten | server/src/controllers/borrowController.ts:87-92 | as written: sets `actualReturnDate` to now and changes no other field, so the status stays |
| BorrowController.MarkReturned | server/src/controllers/borrowController.ts:87-92 | the corrected return: sets `actualReturnDate` to now and the status to `returned`, and nothing else |
| BorrowController.ReturnKeepsRecorded | server/src/controllers/borrowController.ts:87-92 | the corrected return keeps every returned borrow at status `returned` |
| BorrowController.ReturnAsWrittenBreaksRecorded | server/src/controllers/borrowController.ts:87-92 | the return as written leaves a returned borrow at `borrowed` |
| BorrowController.AdjustedAvailable | server/src/controllers/borrowController.ts:40-45 | changing one book's count changes the available count seen for that key by the same amount, and for every other key by nothing |
| BorrowController.BorrowKeepsStock | server/src/controllers/borrowController.ts:37-45 | one copy fewer on the shelf plus one new open borrow of the same book leaves every book's stock unchanged |
| BorrowController.ReturnKeepsStock | server/src/controllers/borrowController.ts:87-100 | closing an open borrow and putting the copy back leaves every book's stock unchanged |
| BorrowController.GetUserBorrows | server/src/controllers/borrowController.ts:111-123 | exactly the caller's borrows (each one belongs to the caller and every one of them is included, with multiplicity), newest `borrowDate` first |
| BookRequestController.CreateBookRequest | server/src/controllers/bookRequestController.ts:5-18 | appends one request with the requester, title, author and link, status `pending`, no comment and a fresh key, and returns it |
| BookRequestController.GetAllBookRequests | server/src/controllers/bookRequestController.ts:25-35 | all requests (the same multiset), newest `created_at` first |
| BookRequestController.Approve | server/src/controllers/bookRequestController.ts:49 | status becomes `approved` and nothing else changes |
| BookRequestController.ApproveBookRequest | server/src/controllers/bookRequestController.ts:42-50 | 404 "Request not found" with no change; otherwise that request, and only it, becomes `approved`, and is returned |
| BookRequestController.RejectBookRequest | server/src/controllers/bookRequestController.ts:57-69 | 404 "Request not found" with no change; otherwise that request becomes `rejected` with the body's comment, every other field unchanged, and is returned. A body without a comment keeps the stored comment. |
| BookRequestController.ApproveIdempotent | server/src/controllers/bookRequestController.ts:49 | approving twice is approving once |
| BookRequestController.RejectIdempotent | server/src/controllers/bookRequestController.ts:65-68 | rejecting twice with one comment is rejecting once |
| BookRequestController.ApproveAfterReject | server/src/controllers/bookRequestController.ts:42-55 | a rejected request can still be approved; it ends `approved` and keeps the comment the rejection left |
| NotificationController.GetUserNotifications | server/src/controllers/notificationController.ts:7-14 | exactly the caller's notifications, with multiplicity, newest `createdAt` first |
| NotificationController.MarkRead | server/src/controllers/notificationController.ts:30 | sets `read` and changes no other field |
| NotificationController.MarkNotificationAsRead | server/src/controllers/notificationController.ts:21-31 | 404 "Notification not found" with no change; otherwise that notification is read and returned, and no other row changes. There is no owner check. |
| NotificationController.MarkReadIdempotent | server/src/controllers/notificationController.ts:30 | marking read twice is marking read once |
| NotificationController.Sweep | server/src/controllers/notificationController.ts:40-50 | a selected borrow (`borrowed` and due strictly before now) becomes `overdue`; any other is unchanged; the result is never selected |
| NotificationController.SweptBorrows | server/src/controllers/notificationController.ts:40-50 | the table after the sweep: same length, each row swept |
| NotificationController.OverdueNoticesPerSelected | server/src/controllers/notificationController.ts:49-58 | exactly one notice per selected borrow, in table order: the k-th is for the k-th selected borrow's user, of type `overdue`, unread, with the fixed message, that borrow's key and the k-th fresh key |
| NotificationController.SweepAgainSelectsNothing | server/src/controllers/notificationController.ts:40-50 | after a sweep nothing is selected, a second sweep at the same instant adds no notification, and sweeping is idempotent |
| NotificationController.SelectionIgnoresActualReturn | server/src/controllers/notificationController.ts:40-79 | neither sweep looks at `actualReturnDate` |
| NotificationController.SweepOverdue | server/src/controllers/notificationController.ts:49-60 | the loop over the selected rows: the borrow rows come back swept, and the notices are exactly the overdue notices in table order, with keys from the given key on |
| NotificationController.OverdueNoticeKeys | server/src/controllers/notificationController.ts:52-58 | the overdue notices take consecutive keys, one fresh key each |
| NotificationController.CheckOverdueBooks | server/src/controllers/notificationController.ts:38-63 | the borrow table becomes the swept table, the notices are appended with consecutive fresh keys, and returned borrows stay recorded as `returned` |
| NotificationController.RemindersForSelected | server/src/controllers/notificationController.ts:87-102 | exactly one reminder per borrow that is `borrowed`, is due strictly within three days and has its book found, in table order. The k-th is an unread `reminder` for the k-th such borrow's user, carries that borrow's key and the k-th fresh key, and names the book's title in the fixed message. |
| NotificationController.GatherReminders | server/src/controllers/notificationController.ts:87-104 | the loop over the selected rows: the reminders are exactly those for selected borrows whose book is found, in table order, with keys from the given key on |
| NotificationController.CheckUpcomingDueBooks | server/src/controllers/notificationController.ts:65-107 | appends the reminders with consecutive fresh keys and leaves the borrow table alone |
| NotificationController.SweepsAreDisjoint | server/src/controllers/notificationController.ts:40-79 | no borrow is selected by both sweeps at the same instant |
| NotificationController.ReturnedBorrowFlaggedOverdue | server/src/controllers/borrowController.ts:87-92 | as written: a borrow returned on day 1 and due on day 10 is still selected on day 11 and gets an overdue notice |
| NotificationController.SweepKeepsRecorded | server/src/controllers/notificationController.ts:49-50 | the overdue sweep keeps every returned borrow at status `returned` |
| NotificationController.CorrectedSweepSparesReturned | server/src/controllers/notificationController.ts:40-58 | when returned borrows are recorded as returned, every overdue notice is for a borrow still out |
| WebSocketService.ConnectKeepsOneEntryPerUser | server/src/services/websocketService.ts:36-39 | connecting keeps at most one entry per user |
| WebSocketService.ConnectLeavesOneEntry | server/src/services/websocketService.ts:36-39 | after a connection the user has exactly one entry: the new socket |
| WebSocketService.ConnectKeepsOthers | server/src/services/websocketService.ts:36 | the entries of all other users are unchanged, in order |
| WebSocketService.DisconnectKeepsOneEntryPerUser | server/src/services/websocketService.ts:46 | closing keeps at most one entry per user |
| WebSocketService.DisconnectUnknownIsNoOp | server/src/services/websocketService.ts:46 | closing a socket no entry holds changes nothing |
| WebSocketService.CloseOfReplacedSocketKeepsNewEntry | server/src/services/websocketService.ts:36-46 | the late close of a replaced socket leaves the user's newer entry as their only one |
| WebSocketService.SendTarget | server/src/services/websocketService.ts:65-67 | a notification goes out only on an open socket of an entry for that user, and never when the user has no entry |
| WebSocketService.SendTargetExact | server/src/services/websocketService.ts:66-67 | with one entry per user, the target is that user's socket exactly when it is open |
| WebSocketService.Registry.constructor | server/src/services/websocketService.ts:11 | the registry starts empty |
| WebSocketService.Registry.OnConnection | server/src/services/websocketService.ts:23-39 | a missing or empty `userId` is refused and the registry is unchanged; otherwise that user's entries are replaced by the new one; one entry per user is kept |
| WebSocketService.Registry.OnClose | server/src/services/websocketService.ts:45-48 | exactly the entries holding the socket are removed; one entry per user is kept |
| WebSocketService.Registry.SendNotification | server/src/services/websocketService.ts:65-77 | the socket written to, or none; the registry is never changed |
| AuthMiddleware.BearerToken | server/src/middleware/auth.ts:25 | there is a token exactly when there is a header |
| AuthMiddleware.BearerTokenOfBearerHeader | server/src/middleware/auth.ts:25 | `Bearer <t>` yields `t` |
| AuthMiddleware.Authenticate | server/src/middleware/auth.ts:22-55 | a missing or empty token gives 401 "No authentication token, access denied"; a token that fails verification gives 401 "Token is invalid"; a non-empty role list without the role gives 403; otherwise next with the token's claims, and these are the only outcomes |
| AuthMiddleware.MissingTokenBeforeRoles | server/src/middleware/auth.ts:25-29 | without a token the answer is 401 whatever the role list |
| AuthMiddleware.EmptyRolesAllowAll | server/src/middleware/auth.ts:34 | an empty role list behaves as no role list |
| AuthController.ViewHidesSecrets | server/src/controllers/authController.ts:50-56 | the user in a response does not depend on the password hash or the reset fields |
| AuthController.ParseRole | server/src/models/User.ts:61-64 | only `admin`, `librarian` and `member` are roles |
| AuthController.ParseRoleName | server/src/models/User.ts:61-64 | every role reads back as itself |
| AuthController.DefaultRoleIsMember | server/src/controllers/authController.ts:33 | a missing or empty role makes a member |
| AuthController.Register | server/src/controllers/authController.ts:10-62 | refuses an address without the domain suffix (400, domain message), then a known address (400 "User already exists"), then a role outside the enum (500 "Server error"), each creating no user. Otherwise it stores one user with the digest of the password, the role, no reset token and a fresh key, and answers with a password-free view and a signed token. Addresses stay unique. |
| AuthController.Login | server/src/controllers/authController.ts:65-99 | every failure is the same 400 "Invalid credentials"; a success is for a stored user with that address whose digest accepts the password |
| AuthController.LoginExact | server/src/controllers/authController.ts:69-77 | with unique addresses, login for a stored address succeeds exactly when the password matches its digest |
| AuthController.WithResetToken | server/src/controllers/authController.ts:138-141 | sets the token and an expiry of now plus 3,600,000 ms, and nothing else |
| AuthController.ForgotPassword | server/src/controllers/authController.ts:109-174 | missing SMTP credentials give 500 before the lookup; an unknown address gives 404 "User not found"; otherwise that user gets a token signed over its key and the issue time, with expiry one hour on, which stays stored even when sending fails with 500 |
| AuthController.WithNewPassword | server/src/controllers/authController.ts:196-201 | sets the new digest, clears token and expiry, and nothing else |
| AuthController.ResetPassword | server/src/controllers/authController.ts:177-212 | a token that fails verification gives 500 "Invalid or expired token"; no user with that key, that token and a later expiry gives 400 "Invalid or expired reset token"; otherwise that user's password is replaced and the token cleared |
| AuthController.ResetTokenLastsOneHour | server/src/controllers/authController.ts:138-190 | a token issued at `now` finds its user exactly at instants before now plus one hour |
| AuthController.ResetTokenSingleUse | server/src/controllers/authController.ts:181-201 | after a reset, the same token matches no user at any later time |
| Strings.ReplaceFirst | server/src/middleware/auth.ts:25 | a string without the pattern is unchanged; otherwise the first occurrence is replaced by the replacement and everything before and after it is kept |
| Strings.FirstOccurrence | client/src/components/books/BookList.tsx:76-78 | the first index at which the pattern occurs, or none exactly when it occurs nowhere |
| Strings.Split | client/src/components/auth/ResetPasswordForm.tsx:24 | one more part than separators, and no part holds the separator |
| Strings.JoinSplit | client/src/components/auth/ResetPasswordForm.tsx:24 | joining the parts gives the string back |
| Strings.NatToStringValue | client/src/components/notifications/NotificationBell.tsx:54-56 | the decimal text read back is the number |
| Seqs.DistinctProperties | client/src/components/books/BookList.tsx:85 | no duplicates, the same elements, in order of first occurrence |
| BorrowingHistory.DeriveStatus | client/src/components/borrowing/BorrowingHistory.tsx:33-39 | `returned` exactly when returned; otherwise `overdue` exactly when due strictly before today, else `borrowed` |
| BorrowingHistory.WithStatus | client/src/components/borrowing/BorrowingHistory.tsx:28-42 | same length and order, each row's status derived, all other fields kept |
| BorrowingHistory.WithStatusIdempotent | client/src/components/borrowing/BorrowingHistory.tsx:28-42 | deriving again changes nothing |
| BorrowingHistory.ReturnShownIffOut | client/src/components/borrowing/BorrowingHistory.tsx:116 | the Return button shows exactly for a borrow not yet returned |
| Dashboard.Calculate | client/src/components/dashboard/Dashboard.tsx:82-87 | the total is the number of books and the available count is at most that; the borrowed and overdue counts, each of its own status, add up to at most the number of borrows |
| Dashboard.NextStats | client/src/components/dashboard/Dashboard.tsx:80-91 | recomputed only when there are books; otherwise the previous stats stay |
| Dashboard.DisplayStats | client/src/components/dashboard/Dashboard.tsx:44-52 | every count is 0 while there are no stats, else the stats' counts |
| Dashboard.DisplayBounds | client/src/components/dashboard/Dashboard.tsx:44-91 | the shown counts keep the computed bounds in every state |
| BookList.FilteredBooks | client/src/components/books/BookList.tsx:75-83 | an order-preserving subsequence holding exactly the books that match the search (title and author without case, ISBN with case) and the category, each with as many copies as the catalogue has |
| BookList.EmptyFiltersListAll | client/src/components/books/BookList.tsx:76-80 | an empty term and no category list every book |
| BookList.CategoryIsExact | client/src/components/books/BookList.tsx:80 | a chosen category lists only books of exactly that category |
| BookList.CategoriesAreDistinctFirstOccurrences | client/src/components/books/BookList.tsx:85 | each category once, only the books' categories and all of them, in order of first appearance |
| BookList.OffersBorrowMatchesServer | client/src/components/books/BookList.tsx:213 | the Borrow button shows exactly when the server would find copies to lend |
| NotificationBell.ElapsedSeconds | client/src/components/notifications/NotificationBell.tsx:51 | the floor of the difference in seconds |
| NotificationBell.Bucket | client/src/components/notifications/NotificationBell.tsx:53-56 | "just now" below 60 s (negative ages included), then minutes in 1..59, hours in 1..23, then days, each the floor of the age in that unit |
| NotificationBell.FutureIsJustNow | client/src/components/notifications/NotificationBell.tsx:51-53 | an age of zero or less reads "just now" |
| NotificationBell.NotificationIcon | client/src/components/notifications/NotificationBell.tsx:35-46 | three request types get their own icons; every other type gets the default |
| NotificationBell.ServerTypesShowDefaultIcon | client/src/components/notifications/NotificationBell.tsx:35-46 | `overdue`, `reminder` and `return` all show the default icon |
| NotificationSlice.ErrorOrDefault | client/src/features/notifications/notificationSlice.ts:56 | the error message, or "Failed to fetch notifications" when it is missing or empty |
| NotificationSlice.MarkAsRead | client/src/features/notifications/notificationSlice.ts:58-63 | same length; an unknown key changes nothing; otherwise only the first entry with the key changes, and it becomes read |
| NotificationSlice.MarkAsReadIdempotent | client/src/features/notifications/notificationSlice.ts:61 | marking read twice is marking read once |
| NotificationSlice.NotificationState.constructor | client/src/features/notifications/notificationSlice.ts:19-23 | no notifications, not loading, no error |
| NotificationSlice.NotificationState.FetchPending | client/src/features/notifications/notificationSlice.ts:47-49 | sets `loading` and nothing else |
| NotificationSlice.NotificationState.FetchFulfilled | client/src/features/notifications/notificationSlice.ts:50-53 | sets the list to the payload and clears `loading` |
| NotificationSlice.NotificationState.FetchRejected | client/src/features/notifications/notificationSlice.ts:54-57 | clears `loading` and sets the defaulted error; the list stays |
| NotificationSlice.NotificationState.MarkAsReadFulfilled | client/src/features/notifications/notificationSlice.ts:58-63 | the list becomes `MarkAsRead` of the old list |
| AuthSlice.LoadState | client/src/features/auth/authSlice.ts:21-51 | signed in exactly when both items are stored, non-empty, and the user parses; then the stored token and parsed user are kept; otherwise the logged-out state |
| AuthSlice.MessageOr | client/src/features/auth/authSlice.ts:118 | the error message, or the fallback when it is missing or empty |
| AuthSlice.AuthState.constructor | client/src/features/auth/authSlice.ts:53 | the state `loadState` gives |
| AuthSlice.AuthState.Logout | client/src/features/auth/authSlice.ts:96-102 | clears user and token and signs out; `loading` and `error` stay |
| AuthSlice.AuthState.Pending | client/src/features/auth/authSlice.ts:106-109 | sets `loading` and clears the error (the register case, lines 121-124, is the same) |
| AuthSlice.AuthState.Fulfilled | client/src/features/auth/authSlice.ts:110-115 | takes user and token from the payload, signs in and clears `loading` (the register case, lines 125-130, is the same) |
| AuthSlice.AuthState.Rejected | client/src/features/auth/authSlice.ts:116-120 | clears `loading`, signs out and sets the defaulted error; user and token stay (the register case, lines 131-135, differs only in its fallback) |
| ProtectedRoute.Guard | client/src/components/common/ProtectedRoute.tsx:9-21 | no user goes to /login before any role check; a user outside a given role list goes to /dashboard; otherwise the children render |
| ProtectedRoute.EmptyRoleListDisagrees | client/src/components/common/ProtectedRoute.tsx:16 | an empty role list turns every user away on the client, while on the server it behaves as no list |
| ProtectedRoute.NonEmptyRoleListAgrees | client/src/components/common/ProtectedRoute.tsx:16-20 | for a non-empty list and matching roles, the client and server gates agree |
| ResetPasswordForm.HandleSubmit | client/src/components/auth/ResetPasswordForm.tsx:37-55 | a mismatch gives "Passwords do not match" before the length check; fewer than 6 characters gives the length message; only a valid form dispatches, and it dispatches exactly (token, new password) |
| ResetPasswordForm.CheckToken | client/src/components/auth/ResetPasswordForm.tsx:16-35 | no token goes to login; the token is flagged expired exactly when it has three dot-separated parts, its payload decodes, and its non-zero `exp` times 1000 is before now |
| ResetPasswordForm.OnlyThreePartTokensExpire | client/src/components/auth/ResetPasswordForm.tsx:24-25 | a token without exactly two dots is never flagged |

## Left out

- Transport and plumbing are outside the model:
  - HTTP and Express routing, and `app.ts`;
  - the database connection and transactions, beyond each handler being one atomic step;
  - `ws.send` and the confirmation message on connect;
  - the client's reconnect timer, the cron schedule and the 30-second polling;
  - e-mail composition and sending (only whether the mail went out is a parameter);
  - `console` output.
  None of these changes the data the model tracks.
- UUID keys are nat keys drawn from a counter. The model only needs them fresh and unique.
- Dates are integer milliseconds, and `new Date()` within one handler is a single `now`.
- `setDate(getDate() + 3)` is taken as exactly three days. Daylight-saving shifts in local
  time are not modelled.
- String lengths count characters. JavaScript counts UTF-16 code units, and `toLowerCase` is
  modelled for ASCII letters only.
- The server sends a WebSocket message after borrowing and after a password reset. These are
  not modelled: they change no table.
- Joined attributes are not part of the rows: the book title and author in `getUserBorrows`,
  and the user columns in `getAllBookRequests`.
- The borrow fields `notificationSent` and `reminderSent` are not modelled. They are not
  attributes of the Borrow model, so they are never stored.
- BorrowController.ReturnBook: performs the corrected return, which also sets `status` to
  `returned`. The code only stamps `actualReturnDate`, which is
  `BorrowController.MarkReturnedAsWritten`. The stock ensures hold for both, because stock
  reads `actualReturnDate`. The "returned borrows stay `returned`" ensures holds only for the
  corrected return (`BorrowController.ReturnAsWrittenBreaksRecorded`).
- Failures thrown by the database or by a missing request field are left out. These are 500
  answers such as "Error borrowing book" and "Error updating notification".
- BorrowController.GetUserBorrows: rows with equal `borrowDate` may come in any order. The
  model fixes one order and states only sortedness and contents.
  BookRequestController.GetAllBookRequests and NotificationController.GetUserNotifications
  are handled the same way.
- NotificationController.SweepOverdue, NotificationController.GatherReminders,
  NotificationController.OverdueNoticesPerSelected and
  NotificationController.RemindersForSelected: both sweeps' `findAll` has no `order`, so the
  code creates notices in whatever order the database returns the rows. The model fixes table
  order.
- AuthController.Register: bcrypt's salt is inside the `hash` parameter, and the token
  lifetimes ('24h', '1h') are inside `sign` and `signReset`.
- AuthController.ResetPassword and AuthMiddleware.Authenticate: `jwt.verify` also rejects a
  token past its lifetime, checked against the clock at request time. The `verify` and
  `verifyReset` parameters take no time, so their expiry check is not tied to `now`. The model
  cannot say that a reset token past its hour gets the 500 "Invalid or expired token" rather
  than the 400 from the lookup. The lookup's own expiry test is modelled
  (`AuthController.ResetTokenLastsOneHour`).
- AuthSlice.AuthState.Rejected: the error text of `login.rejected` is a parameter. With
  `rejectWithValue`, Redux Toolkit puts a generic message there, not the server's.
- `resetPassword` is imported by ResetPasswordForm but is not exported by authSlice. The
  dispatch is modelled as the `Dispatch(token, newPassword)` outcome.
- The `unreadCount` that NotificationBell selects does not exist in the slice, so it is left
  out. So is the `addNotification` action that `services/notificationService.ts`
  dispatches.
- Rendering, and the components with no logic beyond it, are not modelled: BookForm,
  BookDetails, BorrowModal, RequestBookModal, RejectRequestModal, LoginForm, RegisterForm,
  ForgotPasswordForm, RequestsPage, App and BookScanner.

## Findings

| source | as written | input that shows it | evidently intended | confidence | as-written member | corrected member |
|---|---|---|---|---|---|---|
| server/src/controllers/borrowController.ts:87-92 | `returnBook` stamps `actualReturnDate` but leaves `status` at `borrowed`, and the overdue sweep selects on `status` and the due date | a borrow made at day 0, due on day 10 and returned on day 1 is selected by the sweep on day 11, and its borrower is told to return a book already returned | a return also sets `status` to `returned`, so returned borrows are never swept | not executed | NotificationController.ReturnedBorrowFlaggedOverdue | BorrowController.MarkReturned |
