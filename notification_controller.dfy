/**
 * server/src/controllers/notificationController.ts: reading and acknowledging
 * notifications, and the two daily sweeps over the borrow table that create them.
 * The overdue sweep marks each selected borrow `overdue` and appends one
 * notification for it, so a second run at the same instant selects nothing. The
 * upcoming-due sweep only appends reminders. The sweeps select by the stored
 * `status` and the due date alone; `actualReturnDate` is never consulted.
 */
module NotificationController {
  import opened Wrappers
  import opened Records
  import opened Seqs
  import opened Store
  import BorrowController

  /** The notifications addressed to `userId`, as a condition on rows. */
  function ForRecipient(userId: Id): Notification -> bool {
    (n: Notification) => n.userId == userId
  }

  function NotificationDate(n: Notification): int { n.createdAt }

  /** `getUserNotifications`: exactly the caller's notifications, newest first. */
  function GetUserNotifications(notifications: seq<Notification>, userId: Id): (r: seq<Notification>)
    ensures forall k :: 0 <= k < |r| ==> r[k].userId == userId && r[k] in notifications
    ensures forall k :: 0 <= k < |notifications| && notifications[k].userId == userId ==> notifications[k] in r
    ensures multiset(r) == multiset(Filter(notifications, ForRecipient(userId)))
    ensures SortedDesc(r, NotificationDate)
  {
    var mine := Filter(notifications, ForRecipient(userId));
    var r := SortDesc(mine, NotificationDate);
    assert forall k :: 0 <= k < |r| ==> r[k] in multiset(mine);
    assert forall k :: 0 <= k < |notifications| && notifications[k].userId == userId ==> notifications[k] in multiset(r);
    r
  }

  /** `notification.update({ read: true })`. */
  function MarkRead(n: Notification): (m: Notification)
    ensures m.read
    ensures m.(read := n.read) == n
  {
    n.(read := true)
  }

  /** The notification table after marking the one with key `id` read (unchanged when there is none). */
  function MarkReadTable(notifications: seq<Notification>, id: Id): seq<Notification> {
    UpdateFirst(notifications, NotificationWithId(id), MarkRead)
  }

  /**
   * `markNotificationAsRead`: 404 for an unknown key; otherwise that notification is read
   * and no other row changes. Any caller may mark any notification: there is no owner check.
   */
  method MarkNotificationAsRead(db: Database, id: Id) returns (r: Response<Notification>)
    requires db.Valid()
    modifies db`notifications
    ensures db.Valid()
    ensures db.notifications == MarkReadTable(old(db.notifications), id)
    ensures match FindFirst(old(db.notifications), NotificationWithId(id))
      case None => r == Failure(404, "Notification not found")
      case Some(i) => r == Success(MarkRead(old(db.notifications)[i])) && db.notifications[i] == r.value
  {
    var found := FindFirst(db.notifications, NotificationWithId(id));
    if found.None? {
      return Failure(404, "Notification not found");
    }
    var i := found.value;
    var updated := MarkRead(db.notifications[i]);
    KeyedUpdate(db.notifications, NotificationKey, db.nextId, i, updated);
    db.notifications := db.notifications[i := updated];
    r := Success(updated);
  }

  /** Marking a notification read twice is marking it once. */
  lemma MarkReadIdempotent(notifications: seq<Notification>, id: Id)
    ensures MarkReadTable(MarkReadTable(notifications, id), id) == MarkReadTable(notifications, id)
  {
    UpdateFirstIdempotent(notifications, NotificationWithId(id), MarkRead);
  }

  // ---------------------------------------------------------------------------
  // The overdue sweep (`checkOverdueBooks`)

  /** The query of the overdue sweep: stored status `borrowed` and a due date strictly before `now`. */
  predicate SelectedOverdue(b: Borrow, now: Time) {
    b.status == Borrowed && b.returnDate < now
  }

  function OverdueAt(now: Time): Borrow -> bool {
    (b: Borrow) => SelectedOverdue(b, now)
  }

  const OverdueMessage: string := "Your borrowed book is overdue. Please return it as soon as possible."

  /** The notification the sweep creates for borrow `b`, with key `id`. */
  function OverdueNotification(b: Borrow, id: Id, now: Time): Notification {
    Notification(id, b.userId, OverdueMessage, OverdueNotice, false, Some(b.id), now)
  }

  /** What the sweep makes of one row: `borrow.update({ status: 'overdue' })` when it is selected. */
  function Sweep(b: Borrow, now: Time): (r: Borrow)
    ensures !SelectedOverdue(r, now)
    ensures SelectedOverdue(b, now) ==> r == b.(status := Overdue)
    ensures !SelectedOverdue(b, now) ==> r == b
  {
    if SelectedOverdue(b, now) then b.(status := Overdue) else b
  }

  /** The borrow table after the sweep. */
  function SweptBorrows(s: seq<Borrow>, now: Time): (r: seq<Borrow>)
    ensures |r| == |s|
    ensures forall k :: 0 <= k < |s| ==> r[k] == Sweep(s[k], now)
  {
    seq(|s|, k requires 0 <= k < |s| => Sweep(s[k], now))
  }

  /** The notifications the sweep appends, keys handed out from `firstId` on, in table order. */
  function OverdueNotices(s: seq<Borrow>, now: Time, firstId: Id): seq<Notification> {
    if |s| == 0 then []
    else
      var before := OverdueNotices(s[..|s| - 1], now, firstId);
      var b := s[|s| - 1];
      if SelectedOverdue(b, now) then before + [OverdueNotification(b, firstId + |before|, now)]
      else before
  }

  /**
   * Exactly one notification per selected borrow, in table order: the k-th is for the
   * k-th selected borrow, unread, of type 'overdue', carrying that borrow's key.
   */
  lemma {:induction false} OverdueNoticesPerSelected(s: seq<Borrow>, now: Time, firstId: Id)
    ensures var sel := Filter(s, OverdueAt(now));
      && |OverdueNotices(s, now, firstId)| == |sel|
      && forall k :: 0 <= k < |sel| ==> OverdueNotices(s, now, firstId)[k] == OverdueNotification(sel[k], firstId + k, now)
  {
    if |s| > 0 {
      var init, b := s[..|s| - 1], s[|s| - 1];
      assert s == init + [b];
      OverdueNoticesPerSelected(init, now, firstId);
      FilterAppend(init, [b], OverdueAt(now));
      FilterSingle(b, OverdueAt(now));
    }
  }

  /** After a sweep nothing is selected any more, so a second sweep at the same `now` adds nothing. */
  lemma SweepAgainSelectsNothing(s: seq<Borrow>, now: Time, firstId: Id)
    ensures Filter(SweptBorrows(s, now), OverdueAt(now)) == []
    ensures OverdueNotices(SweptBorrows(s, now), now, firstId) == []
    ensures SweptBorrows(SweptBorrows(s, now), now) == SweptBorrows(s, now)
  {
    var t := SweptBorrows(s, now);
    OverdueNoticesPerSelected(t, now, firstId);
  }

  /** Whether a borrow is selected does not depend on its `actualReturnDate`. */
  lemma SelectionIgnoresActualReturn(b: Borrow, now: Time, t: Option<Time>)
    ensures SelectedOverdue(b.(actualReturnDate := t), now) == SelectedOverdue(b, now)
    ensures SelectedUpcoming(b.(actualReturnDate := t), now) == SelectedUpcoming(b, now)
  {
  }

  /** One step of the sweep over row `i`: how the notices grow. */
  lemma SweepStep(s: seq<Borrow>, i: nat, now: Time, firstId: Id)
    requires i < |s|
    ensures OverdueNotices(s[..i + 1], now, firstId) ==
      OverdueNotices(s[..i], now, firstId) +
      (if SelectedOverdue(s[i], now) then [OverdueNotification(s[i], firstId + |OverdueNotices(s[..i], now, firstId)|, now)] else [])
  {
    assert s[..i + 1][..i] == s[..i];
  }

  /** The notices take consecutive keys from `firstId` on. */
  lemma OverdueNoticeKeys(s: seq<Borrow>, now: Time, firstId: Id)
    ensures forall k :: 0 <= k < |OverdueNotices(s, now, firstId)| ==> OverdueNotices(s, now, firstId)[k].id == firstId + k
  {
    OverdueNoticesPerSelected(s, now, firstId);
  }

  /**
   * The loop of `checkOverdueBooks` over the rows the query returned: each selected row
   * is marked `overdue` and gets a notice with the next key.
   */
  method SweepOverdue(b0: seq<Borrow>, now: Time, id0: Id) returns (borrows: seq<Borrow>, notes: seq<Notification>)
    ensures borrows == SweptBorrows(b0, now)
    ensures notes == OverdueNotices(b0, now, id0)
  {
    borrows, notes := b0, [];
    var i := 0;
    while i < |b0|
      invariant 0 <= i <= |b0| == |borrows|
      invariant forall k :: 0 <= k < i ==> borrows[k] == Sweep(b0[k], now)
      invariant forall k :: i <= k < |b0| ==> borrows[k] == b0[k]
      invariant notes == OverdueNotices(b0[..i], now, id0)
    {
      SweepStep(b0, i, now, id0);
      var b := b0[i];
      if SelectedOverdue(b, now) {
        borrows := borrows[i := b.(status := Overdue)];
        notes := notes + [OverdueNotification(b, id0 + |notes|, now)];
      }
      i := i + 1;
    }
    assert b0[..i] == b0;
  }

  /**
   * `checkOverdueBooks`: every borrow the query selects is marked `overdue` and gets one
   * notification. The query is run once before the loop; as marking one row does not
   * change whether another is selected, walking the table and testing each row gives
   * the same rows in the same order. The rows and notices are gathered first and
   * written at the end, which leaves the tables as the row-by-row writes do.
   */
  method CheckOverdueBooks(db: Database, now: Time)
    requires db.Valid()
    modifies db`borrows, db`notifications, db`nextId
    ensures db.Valid()
    ensures db.borrows == SweptBorrows(old(db.borrows), now)
    ensures db.notifications == old(db.notifications) + OverdueNotices(old(db.borrows), now, old(db.nextId))
    ensures db.nextId == old(db.nextId) + |OverdueNotices(old(db.borrows), now, old(db.nextId))|
    ensures BorrowController.ReturnsRecorded(old(db.borrows)) ==> BorrowController.ReturnsRecorded(db.borrows)
  {
    var borrows, notes := SweepOverdue(db.borrows, now, db.nextId);
    OverdueNoticeKeys(db.borrows, now, db.nextId);
    if BorrowController.ReturnsRecorded(db.borrows) {
      SweepKeepsRecorded(db.borrows, now);
    }
    db.SetBorrows(borrows);
    db.AddNotifications(notes);
  }

  // ---------------------------------------------------------------------------
  // The upcoming-due sweep (`checkUpcomingDueBooks`)

  /** Three days, as `setDate(getDate() + 3)` adds them (daylight-saving shifts are not modelled). */
  const ThreeDaysMs: int := 3 * DayMs

  /** The query of the upcoming sweep: status `borrowed`, due strictly after `now` and strictly within three days. */
  predicate SelectedUpcoming(b: Borrow, now: Time) {
    b.status == Borrowed && now < b.returnDate < now + ThreeDaysMs
  }

  function UpcomingAt(now: Time): Borrow -> bool {
    (b: Borrow) => SelectedUpcoming(b, now)
  }

  function ReminderMessage(title: string): string {
    "Your borrowed book \"" + title + "\" is due in 3 days."
  }

  /** The reminders the sweep appends: selected borrows whose book exists, keys from `firstId` on. */
  function ReminderNotices(s: seq<Borrow>, books: seq<Book>, now: Time, firstId: Id): seq<Notification> {
    if |s| == 0 then []
    else
      var before := ReminderNotices(s[..|s| - 1], books, now, firstId);
      var b := s[|s| - 1];
      if !SelectedUpcoming(b, now) then before
      else match FindFirst(books, BookWithId(b.bookId))
        case None => before
        case Some(j) =>
          before + [Notification(firstId + |before|, b.userId, ReminderMessage(books[j].title),
                                 ReminderNotice, false, Some(b.id), now)]
  }

  /** The borrows that get a reminder: selected by the query and with a book found for them. */
  function RemindedAt(books: seq<Book>, now: Time): Borrow -> bool {
    (b: Borrow) => SelectedUpcoming(b, now) && FindFirst(books, BookWithId(b.bookId)).Some?
  }

  /** The reminder for borrow `b` with key `id`: unread, of type 'reminder', naming the book's title. */
  function Reminder(b: Borrow, books: seq<Book>, id: Id, now: Time): Notification
    requires FindFirst(books, BookWithId(b.bookId)).Some?
  {
    Notification(id, b.userId, ReminderMessage(books[FindFirst(books, BookWithId(b.bookId)).value].title),
                 ReminderNotice, false, Some(b.id), now)
  }

  /**
   * Exactly one reminder per selected borrow whose book is found, in table order: the
   * k-th is the reminder for the k-th such borrow, with the k-th fresh key.
   */
  lemma {:induction false} RemindersForSelected(s: seq<Borrow>, books: seq<Book>, now: Time, firstId: Id)
    ensures var sel := Filter(s, RemindedAt(books, now));
      && |ReminderNotices(s, books, now, firstId)| == |sel|
      && forall k :: 0 <= k < |sel| ==> ReminderNotices(s, books, now, firstId)[k] == Reminder(sel[k], books, firstId + k, now)
  {
    if |s| > 0 {
      var init, b := s[..|s| - 1], s[|s| - 1];
      assert s == init + [b];
      RemindersForSelected(init, books, now, firstId);
      FilterAppend(init, [b], RemindedAt(books, now));
      FilterSingle(b, RemindedAt(books, now));
    }
  }

  /** The loop of `checkUpcomingDueBooks`: a reminder with the next key for each selected borrow whose book is found. */
  method GatherReminders(s: seq<Borrow>, books: seq<Book>, now: Time, id0: Id) returns (notes: seq<Notification>)
    ensures notes == ReminderNotices(s, books, now, id0)
  {
    notes := [];
    var i := 0;
    while i < |s|
      invariant 0 <= i <= |s|
      invariant notes == ReminderNotices(s[..i], books, now, id0)
    {
      assert s[..i + 1][..i] == s[..i];
      var b := s[i];
      if SelectedUpcoming(b, now) {
        var found := FindFirst(books, BookWithId(b.bookId));
        if found.Some? {
          notes := notes + [Notification(id0 + |notes|, b.userId, ReminderMessage(books[found.value].title),
                                         ReminderNotice, false, Some(b.id), now)];
        }
      }
      i := i + 1;
    }
    assert s[..i] == s;
  }

  /**
   * `checkUpcomingDueBooks`: appends one reminder per selected borrow that has a book and
   * skips the others. The borrow table is outside its frame, so it is left unchanged.
   */
  method CheckUpcomingDueBooks(db: Database, now: Time)
    requires db.Valid()
    modifies db`notifications, db`nextId
    ensures db.Valid()
    ensures db.notifications == old(db.notifications) + ReminderNotices(db.borrows, db.books, now, old(db.nextId))
    ensures db.nextId == old(db.nextId) + |ReminderNotices(db.borrows, db.books, now, old(db.nextId))|
  {
    var notes := GatherReminders(db.borrows, db.books, now, db.nextId);
    RemindersForSelected(db.borrows, db.books, now, db.nextId);
    db.AddNotifications(notes);
  }

  /** No borrow is picked by both sweeps at the same instant: one needs a due date before `now`, the other after. */
  lemma SweepsAreDisjoint(b: Borrow, now: Time)
    ensures !(SelectedOverdue(b, now) && SelectedUpcoming(b, now))
  {
  }

  // ---------------------------------------------------------------------------
  // A returned borrow keeps status `borrowed`, so the overdue sweep still flags it.

  /**
   * As written: a copy borrowed at 0, due on day 10 and returned on day 1 is still
   * selected by the overdue sweep on day 11, and its borrower is told to return it.
   */
  lemma ReturnedBorrowFlaggedOverdue()
    ensures var b := BorrowController.NewBorrow(0, 1, 2, 10 * DayMs, 0);
      var back := BorrowController.MarkReturnedAsWritten(b, DayMs);
      && back.actualReturnDate.Some?
      && SelectedOverdue(back, 11 * DayMs)
      && OverdueNotices([back], 11 * DayMs, 3) == [OverdueNotification(back, 3, 11 * DayMs)]
  {
    var b := BorrowController.NewBorrow(0, 1, 2, 10 * DayMs, 0);
    var back := BorrowController.MarkReturnedAsWritten(b, DayMs);
    assert [back][..0] == [];
  }

  /** Each sweep step keeps every returned borrow recorded as returned. */
  lemma SweepKeepsRecorded(s: seq<Borrow>, now: Time)
    requires BorrowController.ReturnsRecorded(s)
    ensures BorrowController.ReturnsRecorded(SweptBorrows(s, now))
  {
  }

  /**
   * With the corrected return, the overdue sweep selects only borrows that are still
   * out, so no overdue notification is ever sent for a book already returned.
   */
  lemma CorrectedSweepSparesReturned(s: seq<Borrow>, now: Time, firstId: Id)
    requires BorrowController.ReturnsRecorded(s)
    ensures var sel := Filter(s, OverdueAt(now));
      && |OverdueNotices(s, now, firstId)| == |sel|
      && forall k :: 0 <= k < |sel| ==>
           sel[k].actualReturnDate.None? && OverdueNotices(s, now, firstId)[k].borrowId == Some(sel[k].id)
  {
    OverdueNoticesPerSelected(s, now, firstId);
    var sel := Filter(s, OverdueAt(now));
    forall k | 0 <= k < |sel| ensures sel[k].actualReturnDate.None? {
      assert OverdueAt(now)(sel[k]);
      assert sel[k] in s;
    }
  }
}
