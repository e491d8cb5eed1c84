/**
 * The rows of the library's tables (the files under server/src/models) and the shape of a
 * handler's HTTP reply. Primary keys are UUIDs in the database; here they are
 * naturals handed out by the store's counter. Dates are integer milliseconds.
 */
module Records {
  import opened Wrappers

  /** A primary key (a UUID in the database). */
  type Id = nat

  /** A point in time: milliseconds since the epoch, as `Date.getTime()` gives it. */
  type Time = int

  const SecondMs: int := 1000
  const HourMs: int := 3_600_000
  const DayMs: int := 86_400_000

  /** What an Express handler sends: a success body, or a status code with a `message`. */
  datatype Response<T> = Success(value: T) | Failure(status: int, message: string)

  /** models/Book.ts. The borrow controller's `available_quantity` is this record's `availableQuantity`. */
  datatype Book = Book(
    id: Id,
    title: string,
    author: string,
    isbn: string,
    quantity: int,
    availableQuantity: int,
    category: string,
    barcode: Option<string>)

  /** The stored `status` column of a borrow (models/Borrow.ts); it defaults to `Borrowed`. */
  datatype BorrowStatus = Borrowed | Returned | Overdue

  /** models/Borrow.ts: `returnDate` is the due date, `actualReturnDate` stays null until the return. */
  datatype Borrow = Borrow(
    id: Id,
    userId: Id,
    bookId: Id,
    borrowDate: Time,
    returnDate: Time,
    actualReturnDate: Option<Time>,
    status: BorrowStatus)

  /** The five values of the `status` enum of models/BookRequest.ts. */
  datatype RequestStatus = Pending | InProgress | Approved | Rejected | Completed

  /** models/BookRequest.ts, with the `created_at` timestamp Sequelize maintains. */
  datatype BookRequest = BookRequest(
    id: Id,
    userId: Id,
    title: string,
    author: string,
    externalLink: Option<string>,
    status: RequestStatus,
    adminComment: Option<string>,
    createdAt: Time)

  /** The `type` enum of models/Notification.ts: 'overdue', 'reminder' and 'return'. */
  datatype NotificationType = OverdueNotice | ReminderNotice | ReturnNotice

  /** The text of a notification type as it travels in JSON. */
  function TypeName(t: NotificationType): string {
    match t
    case OverdueNotice => "overdue"
    case ReminderNotice => "reminder"
    case ReturnNotice => "return"
  }

  /** models/Notification.ts, with the `createdAt` timestamp Sequelize maintains. */
  datatype Notification = Notification(
    id: Id,
    userId: Id,
    message: string,
    kind: NotificationType,
    read: bool,
    borrowId: Option<Id>,
    createdAt: Time)

  /** The `role` enum of models/User.ts. */
  datatype Role = Admin | Librarian | Member

  function RoleName(r: Role): string {
    match r
    case Admin => "admin"
    case Librarian => "librarian"
    case Member => "member"
  }

  /** models/User.ts; `password` holds the bcrypt hash, never the password itself. */
  datatype User = User(
    id: Id,
    email: string,
    password: string,
    firstName: string,
    lastName: string,
    role: Role,
    resetToken: Option<string>,
    resetTokenExpiry: Option<Time>)

  // Primary keys, as functions for the table invariants.
  function BookKey(b: Book): Id { b.id }
  function BorrowKey(b: Borrow): Id { b.id }
  function RequestKey(r: BookRequest): Id { r.id }
  function NotificationKey(n: Notification): Id { n.id }
  function UserKey(u: User): Id { u.id }
  function UserEmail(u: User): string { u.email }

  // Lookups by primary key (`findByPk`), as conditions for Seqs.FindFirst.
  function BookWithId(id: Id): Book -> bool { (b: Book) => b.id == id }
  function BorrowWithId(id: Id): Borrow -> bool { (b: Borrow) => b.id == id }
  function RequestWithId(id: Id): BookRequest -> bool { (r: BookRequest) => r.id == id }
  function NotificationWithId(id: Id): Notification -> bool { (n: Notification) => n.id == id }
  function UserWithEmail(email: string): User -> bool { (u: User) => u.email == email }
}
