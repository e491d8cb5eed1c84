/**
 * client/src/components/dashboard/Dashboard.tsx: the counters on the dashboard. They
 * are recomputed from the book list and the caller's borrows whenever the book list is
 * non-empty, and shown with a fallback of 0 while none have been computed.
 */
module Dashboard {
  import opened Wrappers
  import opened Records
  import opened Seqs
  import opened Strings

  datatype Stats = Stats(totalBooks: nat, availableBooks: nat, borrowedBooks: nat, overdueBooks: nat)

  function InStock(b: Book): bool { b.availableQuantity > 0 }

  function HasStatus(s: BorrowStatus): Borrow -> bool {
    (b: Borrow) => b.status == s
  }

  /** `calculatedStats`. */
  function Calculate(books: seq<Book>, borrows: seq<Borrow>): (s: Stats)
    ensures s.totalBooks == |books|
    ensures s.availableBooks <= s.totalBooks
    ensures s.borrowedBooks + s.overdueBooks <= |borrows|
    ensures s.availableBooks == |Filter(books, InStock)|
    ensures s.borrowedBooks == |Filter(borrows, HasStatus(Borrowed))|
    ensures s.overdueBooks == |Filter(borrows, HasStatus(Overdue))|
  {
    FilterDisjointCount(borrows, HasStatus(Borrowed), HasStatus(Overdue));
    Stats(|books|, |Filter(books, InStock)|,
          |Filter(borrows, HasStatus(Borrowed))|, |Filter(borrows, HasStatus(Overdue))|)
  }

  /** The effect on `[books, recentBorrows]`: with no books the previous stats stay. */
  function NextStats(stats: Option<Stats>, books: seq<Book>, borrows: seq<Borrow>): (r: Option<Stats>)
    ensures |books| == 0 ==> r == stats
    ensures |books| > 0 ==> r == Some(Calculate(books, borrows))
  {
    if |books| > 0 then Some(Calculate(books, borrows)) else stats
  }

  /** The four numbers `displayStats` shows. */
  datatype Display = Display(total: nat, available: nat, borrowed: nat, overdue: nat)

  /** `stats?.x ?? 0` for each counter. */
  function DisplayStats(stats: Option<Stats>): (d: Display)
    ensures stats.None? ==> d == Display(0, 0, 0, 0)
    ensures stats.Some? ==> d == Display(stats.value.totalBooks, stats.value.availableBooks,
                                         stats.value.borrowedBooks, stats.value.overdueBooks)
  {
    match stats
    case None => Display(0, 0, 0, 0)
    case Some(s) => Display(s.totalBooks, s.availableBooks, s.borrowedBooks, s.overdueBooks)
  }

  /** The captions under the first two counters. */
  function AvailableCaption(d: Display): string { NatToString(d.available) + " available" }
  function OverdueCaption(d: Display): string { NatToString(d.overdue) + " overdue" }

  /** `user ? 1 : 0`. */
  function ActiveReaders(signedIn: bool): nat { if signedIn then 1 else 0 }

  /** Whatever the state, the shown counts keep the bounds the computed ones have. */
  lemma DisplayBounds(books: seq<Book>, borrows: seq<Borrow>, stats: Option<Stats>)
    requires stats.None? || stats == Some(Calculate(books, borrows))
    ensures var d := DisplayStats(NextStats(stats, books, borrows));
      d.available <= d.total && (|books| > 0 ==> d.total == |books| && d.borrowed + d.overdue <= |borrows|)
  {
  }
}
