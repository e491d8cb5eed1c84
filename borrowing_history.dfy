/**
 * client/src/components/borrowing/BorrowingHistory.tsx: the borrower's history table.
 * The status shown is not the stored one but is derived again on the client from the
 * dates, which is why a returned borrow shows as `returned` even though the server as
 * written (server/src/controllers/borrowController.ts:87-92) still stores it as `borrowed`.
 */
module BorrowingHistory {
  import opened Records

  /** The status derived in `fetchBorrows`, at instant `today`. */
  function DeriveStatus(b: Borrow, today: Time): (s: BorrowStatus)
    ensures s == Returned <==> b.actualReturnDate.Some?
    ensures s == Overdue <==> b.actualReturnDate.None? && b.returnDate < today
    ensures s == Borrowed <==> b.actualReturnDate.None? && today <= b.returnDate
  {
    if b.actualReturnDate.Some? then Returned
    else if b.returnDate < today then Overdue
    else Borrowed
  }

  /** `{ ...borrow, status }` for every row: same length, same order, only the status replaced. */
  function WithStatus(borrows: seq<Borrow>, today: Time): (r: seq<Borrow>)
    ensures |r| == |borrows|
    ensures forall k :: 0 <= k < |r| ==> r[k].status == DeriveStatus(borrows[k], today)
    ensures forall k :: 0 <= k < |r| ==> r[k].(status := borrows[k].status) == borrows[k]
  {
    seq(|borrows|, k requires 0 <= k < |borrows| => borrows[k].(status := DeriveStatus(borrows[k], today)))
  }

  /** The derivation ignores the stored status, so deriving again changes nothing. */
  lemma WithStatusIdempotent(borrows: seq<Borrow>, today: Time)
    ensures WithStatus(WithStatus(borrows, today), today) == WithStatus(borrows, today)
  {
    var once := WithStatus(borrows, today);
    var twice := WithStatus(once, today);
    forall k | 0 <= k < |twice| ensures twice[k] == once[k] {
      assert DeriveStatus(once[k], today) == DeriveStatus(borrows[k], today);
    }
  }

  /** The Return button is shown for `borrowed` and `overdue` rows. */
  predicate ShowsReturn(s: BorrowStatus) {
    s == Borrowed || s == Overdue
  }

  /** A row offers Return exactly when the book has not come back. */
  lemma ReturnShownIffOut(b: Borrow, today: Time)
    ensures ShowsReturn(DeriveStatus(b, today)) <==> b.actualReturnDate.None?
  {
  }
}
