/**
 * server/src/controllers/borrowController.ts: lending a copy of a book and taking
 * it back. Each handler runs in one database transaction, so each method below is
 * one atomic step: it either rejects and leaves every table as it was, or makes
 * all of its changes. The invariant that matters is conservation: for every book,
 * the copies on the shelf plus the copies out on loan never change.
 */
module BorrowController {
  import opened Wrappers
  import opened Records
  import opened Seqs
  import opened Store

  /** A borrow of `bookId` whose `actualReturnDate` is still null. */
  function OutstandingFor(bookId: Id): Borrow -> bool {
    (b: Borrow) => b.bookId == bookId && b.actualReturnDate.None?
  }

  /** The number of copies of `bookId` out on loan. */
  function Outstanding(borrows: seq<Borrow>, bookId: Id): nat {
    |Filter(borrows, OutstandingFor(bookId))|
  }

  /** The available count of the book with key `bookId`, or 0 when there is no such book. */
  function Available(books: seq<Book>, bookId: Id): int {
    match FindFirst(books, BookWithId(bookId))
    case None => 0
    case Some(i) => books[i].availableQuantity
  }

  /** Copies on the shelf plus copies on loan: what borrowing and returning conserve. */
  function Stock(books: seq<Book>, borrows: seq<Borrow>, bookId: Id): int {
    Available(books, bookId) + Outstanding(borrows, bookId)
  }

  /** The book table after `book.update({ available_quantity: ... + delta })` on row `i`. */
  function Adjusted(books: seq<Book>, i: nat, delta: int): (r: seq<Book>)
    requires i < |books|
    ensures |r| == |books| && r[i].id == books[i].id
  {
    books[i := books[i].(availableQuantity := books[i].availableQuantity + delta)]
  }

  /** The record `Borrow.create` stores for a successful borrow (its `status` takes the default). */
  function NewBorrow(id: Id, userId: Id, bookId: Id, returnDate: Time, now: Time): Borrow {
    Borrow(id, userId, bookId, now, returnDate, None, Borrowed)
  }

  /**
   * What `borrow.update({ actualReturnDate: new Date() })` makes of the record, as
   * written: only the date changes and the status stays `borrowed` (or `overdue`).
   */
  function MarkReturnedAsWritten(b: Borrow, now: Time): (r: Borrow)
    ensures r.actualReturnDate == Some(now)
    ensures r.(actualReturnDate := b.actualReturnDate) == b
  {
    b.(actualReturnDate := Some(now))
  }

  /**
   * The return as evidently intended, and as the rest of this model performs it: the
   * return date is stamped and the status becomes `returned`.
   */
  function MarkReturned(b: Borrow, now: Time): (r: Borrow)
    ensures r.actualReturnDate == Some(now) && r.status == Returned
    ensures r.(actualReturnDate := b.actualReturnDate, status := b.status) == b
  {
    b.(actualReturnDate := Some(now), status := Returned)
  }

  /** Every returned borrow in the table has status `returned`: what the corrected return keeps. */
  ghost predicate ReturnsRecorded(s: seq<Borrow>) {
    forall k :: 0 <= k < |s| ==> s[k].actualReturnDate.Some? ==> s[k].status == Returned
  }

  /** The corrected return keeps every returned borrow recorded as returned. */
  lemma ReturnKeepsRecorded(s: seq<Borrow>, j: nat, now: Time)
    requires ReturnsRecorded(s) && j < |s|
    ensures ReturnsRecorded(s[j := MarkReturned(s[j], now)])
  {
  }

  /** The return as written breaks it: the returned borrow keeps its `borrowed` status. */
  lemma ReturnAsWrittenBreaksRecorded(b: Borrow, now: Time)
    requires b.status == Borrowed
    ensures !ReturnsRecorded([MarkReturnedAsWritten(b, now)])
  {
    assert [MarkReturnedAsWritten(b, now)][0] == MarkReturnedAsWritten(b, now);
  }

  /** Changing the available count of one book changes that book's count by the same amount and no other. */
  lemma AdjustedAvailable(books: seq<Book>, i: nat, delta: int, k: Id)
    requires i < |books| && FindFirst(books, BookWithId(books[i].id)) == Some(i)
    ensures Available(Adjusted(books, i, delta), k) ==
      Available(books, k) + (if k == books[i].id then delta else 0)
  {
    var x := books[i].(availableQuantity := books[i].availableQuantity + delta);
    var after := Adjusted(books, i, delta);
    assert after == books[i := x];
    FindFirstUpdate(books, BookWithId(k), i, x);
    var found := FindFirst(books, BookWithId(k));
    assert FindFirst(after, BookWithId(k)) == found;
    if found.Some? {
      var m := found.value;
      if m == i {
        assert k == books[i].id && after[m] == x;
      } else {
        assert after[m] == books[m];
        assert k != books[i].id;
      }
    }
  }

  /** Lending: one copy leaves the shelf and one outstanding borrow appears, so every book's stock is kept. */
  lemma {:induction false} BorrowKeepsStock(books: seq<Book>, borrows: seq<Borrow>, i: nat, b: Borrow, k: Id)
    requires i < |books| && FindFirst(books, BookWithId(books[i].id)) == Some(i)
    requires b.bookId == books[i].id && b.actualReturnDate.None?
    ensures Stock(Adjusted(books, i, -1), borrows + [b], k) == Stock(books, borrows, k)
  {
    AdjustedAvailable(books, i, -1, k);
    FilterAppend(borrows, [b], OutstandingFor(k));
    FilterSingle(b, OutstandingFor(k));
  }

  /** Returning: one copy goes back on the shelf and its borrow stops being outstanding. */
  lemma {:induction false} ReturnKeepsStock(books: seq<Book>, borrows: seq<Borrow>, i: nat, j: nat, now: Time, k: Id)
    requires i < |books| && j < |borrows|
    requires FindFirst(books, BookWithId(books[i].id)) == Some(i)
    requires borrows[j].bookId == books[i].id && borrows[j].actualReturnDate.None?
    ensures Stock(Adjusted(books, i, 1), borrows[j := MarkReturned(borrows[j], now)], k) == Stock(books, borrows, k)
  {
    AdjustedAvailable(books, i, 1, k);
    FilterUpdateLength(borrows, j, MarkReturned(borrows[j], now), OutstandingFor(k));
  }

  /**
   * `borrowBook`: 404 when no book has the key, 400 when none is available; otherwise
   * one new borrow (due `returnDate`, borrowed `now`, not yet returned) and one copy
   * fewer on the shelf, as a single step.
   */
  method BorrowBook(db: Database, userId: Id, bookId: Id, returnDate: Time, now: Time)
    returns (r: Response<Borrow>)
    requires db.Valid()
    modifies db`books, db`borrows, db`nextId
    ensures db.Valid()
    ensures match FindFirst(old(db.books), BookWithId(bookId))
      case None =>
        && r == Failure(404, "Book not found")
        && db.books == old(db.books) && db.borrows == old(db.borrows) && db.nextId == old(db.nextId)
      case Some(i) =>
        if old(db.books)[i].availableQuantity <= 0 then
          && r == Failure(400, "Book is not available")
          && db.books == old(db.books) && db.borrows == old(db.borrows) && db.nextId == old(db.nextId)
        else
          && r == Success(NewBorrow(old(db.nextId), userId, bookId, returnDate, now))
          && db.borrows == old(db.borrows) + [r.value]
          && db.books == Adjusted(old(db.books), i, -1)
          && db.nextId == old(db.nextId) + 1
    ensures forall k :: Stock(db.books, db.borrows, k) == Stock(old(db.books), old(db.borrows), k)
    ensures ReturnsRecorded(old(db.borrows)) ==> ReturnsRecorded(db.borrows)
  {
    var found := FindFirst(db.books, BookWithId(bookId));
    if found.None? {
      return Failure(404, "Book not found");
    }
    var i := found.value;
    var book := db.books[i];
    if book.availableQuantity <= 0 {
      return Failure(400, "Book is not available");
    }
    var borrow := NewBorrow(db.nextId, userId, bookId, returnDate, now);
    KeyedAppend(db.borrows, BorrowKey, db.nextId, borrow);
    KeyedGrow(db.books, BookKey, db.nextId, db.nextId + 1);
    KeyedGrow(db.requests, RequestKey, db.nextId, db.nextId + 1);
    KeyedGrow(db.notifications, NotificationKey, db.nextId, db.nextId + 1);
    KeyedGrow(db.users, UserKey, db.nextId, db.nextId + 1);
    KeyedUpdate(db.books, BookKey, db.nextId + 1, i, Adjusted(db.books, i, -1)[i]);
    forall k ensures Stock(Adjusted(db.books, i, -1), db.borrows + [borrow], k) == Stock(db.books, db.borrows, k) {
      BorrowKeepsStock(db.books, db.borrows, i, borrow, k);
    }
    db.borrows := db.borrows + [borrow];
    db.books := Adjusted(db.books, i, -1);
    db.nextId := db.nextId + 1;
    r := Success(borrow);
  }

  /**
   * `returnBook`: 404 when no borrow has the key, 400 when it was already returned, 404
   * when its book is gone; otherwise the return date is stamped and one copy goes back
   * on the shelf, as a single step. The borrow becomes `returned` as well: the code
   * leaves its status as it was, which lets the overdue sweep flag returned books.
   */
  method ReturnBook(db: Database, borrowId: Id, now: Time) returns (r: Response<Borrow>)
    requires db.Valid()
    modifies db`books, db`borrows
    ensures db.Valid()
    ensures match FindFirst(old(db.borrows), BorrowWithId(borrowId))
      case None =>
        r == Failure(404, "Borrow record not found") && db.books == old(db.books) && db.borrows == old(db.borrows)
      case Some(j) =>
        if old(db.borrows)[j].actualReturnDate.Some? then
          r == Failure(400, "Book already returned") && db.books == old(db.books) && db.borrows == old(db.borrows)
        else match FindFirst(old(db.books), BookWithId(old(db.borrows)[j].bookId))
          case None =>
            r == Failure(404, "Book not found") && db.books == old(db.books) && db.borrows == old(db.borrows)
          case Some(i) =>
            && r == Success(MarkReturned(old(db.borrows)[j], now))
            && db.borrows == old(db.borrows)[j := r.value]
            && db.books == Adjusted(old(db.books), i, 1)
    ensures forall k :: Stock(db.books, db.borrows, k) == Stock(old(db.books), old(db.borrows), k)
    ensures ReturnsRecorded(old(db.borrows)) ==> ReturnsRecorded(db.borrows)
  {
    var foundBorrow := FindFirst(db.borrows, BorrowWithId(borrowId));
    if foundBorrow.None? {
      return Failure(404, "Borrow record not found");
    }
    var j := foundBorrow.value;
    var borrow := db.borrows[j];
    if borrow.actualReturnDate.Some? {
      return Failure(400, "Book already returned");
    }
    var foundBook := FindFirst(db.books, BookWithId(borrow.bookId));
    if foundBook.None? {
      return Failure(404, "Book not found");
    }
    var i := foundBook.value;
    var updated := MarkReturned(borrow, now);
    KeyedUpdate(db.borrows, BorrowKey, db.nextId, j, updated);
    KeyedUpdate(db.books, BookKey, db.nextId, i, Adjusted(db.books, i, 1)[i]);
    forall k ensures Stock(Adjusted(db.books, i, 1), db.borrows[j := updated], k) == Stock(db.books, db.borrows, k) {
      ReturnKeepsStock(db.books, db.borrows, i, j, now, k);
    }
    db.borrows := db.borrows[j := updated];
    db.books := Adjusted(db.books, i, 1);
    r := Success(updated);
  }

  /** The borrows of `userId`, as a condition on rows. */
  function OfUser(userId: Id): Borrow -> bool {
    (b: Borrow) => b.userId == userId
  }

  function BorrowDateKey(b: Borrow): int { b.borrowDate }

  /**
   * `getUserBorrows`: exactly the caller's borrows, most recent `borrowDate` first.
   * Rows with equal dates may come in any order; this model fixes one.
   */
  function GetUserBorrows(borrows: seq<Borrow>, userId: Id): (r: seq<Borrow>)
    ensures forall k :: 0 <= k < |r| ==> r[k].userId == userId && r[k] in borrows
    ensures forall k :: 0 <= k < |borrows| && borrows[k].userId == userId ==> borrows[k] in r
    ensures multiset(r) == multiset(Filter(borrows, OfUser(userId)))
    ensures SortedDesc(r, BorrowDateKey)
  {
    var mine := Filter(borrows, OfUser(userId));
    var r := SortDesc(mine, BorrowDateKey);
    assert forall k :: 0 <= k < |r| ==> r[k] in multiset(mine);
    assert forall k :: 0 <= k < |borrows| && borrows[k].userId == userId ==> borrows[k] in multiset(r);
    r
  }
}
