/**
 * The relational database as one object whose tables are sequences of rows. The
 * controllers' `create` appends a row, `update` replaces one in place, and
 * `findByPk`/`findOne` are first-match lookups. `nextId` stands for the UUID
 * generator: every new row takes it as its key and it then moves on.
 */
module Store {
  import opened Records

  /** Every key is below `bound` and no two rows share one: a primary key column. */
  ghost predicate Keyed<T>(rows: seq<T>, key: T -> Id, bound: nat) {
    && (forall i :: 0 <= i < |rows| ==> key(rows[i]) < bound)
    && (forall i, j :: 0 <= i < j < |rows| ==> key(rows[i]) != key(rows[j]))
  }

  /** No two rows share a value of `key`: a unique column. */
  ghost predicate Unique<T, K>(rows: seq<T>, key: T -> K) {
    forall i, j :: 0 <= i < j < |rows| ==> key(rows[i]) != key(rows[j])
  }

  lemma KeyedAppend<T>(rows: seq<T>, key: T -> Id, bound: nat, x: T)
    requires Keyed(rows, key, bound) && key(x) == bound
    ensures Keyed(rows + [x], key, bound + 1)
  {
  }

  lemma KeyedUpdate<T>(rows: seq<T>, key: T -> Id, bound: nat, i: nat, x: T)
    requires Keyed(rows, key, bound) && i < |rows| && key(x) == key(rows[i])
    ensures Keyed(rows[i := x], key, bound)
  {
    var r := rows[i := x];
    forall a | 0 <= a < |r| ensures key(r[a]) == key(rows[a]) {
    }
  }

  lemma KeyedGrow<T>(rows: seq<T>, key: T -> Id, bound: nat, bound': nat)
    requires Keyed(rows, key, bound) && bound <= bound'
    ensures Keyed(rows, key, bound')
  {
  }

  class Database {
    var books: seq<Book>
    var borrows: seq<Borrow>
    var requests: seq<BookRequest>
    var notifications: seq<Notification>
    var users: seq<User>
    var nextId: nat

    /** Primary keys are unique and below the generator; e-mail addresses are unique. */
    ghost predicate Valid()
      reads this
    {
      && Keyed(books, BookKey, nextId)
      && Keyed(borrows, BorrowKey, nextId)
      && Keyed(requests, RequestKey, nextId)
      && Keyed(notifications, NotificationKey, nextId)
      && Keyed(users, UserKey, nextId)
      && Unique(users, UserEmail)
    }

    /** A database with empty tables. */
    constructor ()
      ensures Valid()
      ensures books == [] && borrows == [] && requests == [] && notifications == [] && users == []
    {
      books, borrows, requests, notifications, users := [], [], [], [], [];
      nextId := 0;
    }

    /** `Notification.create`: appends `n`, which takes the next key. */
    method AddNotification(n: Notification)
      requires Valid() && n.id == nextId
      modifies this`notifications, this`nextId
      ensures Valid()
      ensures notifications == old(notifications) + [n] && nextId == old(nextId) + 1
    {
      KeyedAppend(notifications, NotificationKey, nextId, n);
      KeyedGrow(books, BookKey, nextId, nextId + 1);
      KeyedGrow(borrows, BorrowKey, nextId, nextId + 1);
      KeyedGrow(requests, RequestKey, nextId, nextId + 1);
      KeyedGrow(users, UserKey, nextId, nextId + 1);
      notifications := notifications + [n];
      nextId := nextId + 1;
    }

    /** `Notification.create` for each of `ns` in turn: they take consecutive keys from `nextId` on. */
    method AddNotifications(ns: seq<Notification>)
      requires Valid()
      requires forall k :: 0 <= k < |ns| ==> ns[k].id == nextId + k
      modifies this`notifications, this`nextId
      ensures Valid()
      ensures notifications == old(notifications) + ns && nextId == old(nextId) + |ns|
    {
      var i := 0;
      while i < |ns|
        invariant 0 <= i <= |ns|
        invariant notifications == old(notifications) + ns[..i] && nextId == old(nextId) + i
        invariant Valid()
      {
        assert ns[..i + 1] == ns[..i] + [ns[i]];
        AddNotification(ns[i]);
        i := i + 1;
      }
      assert ns[..i] == ns;
    }

    /** `User.create`: appends `u`, which takes the next key and an e-mail address no row has. */
    method AddUser(u: User)
      requires Valid() && u.id == nextId
      requires forall k :: 0 <= k < |users| ==> users[k].email != u.email
      modifies this`users, this`nextId
      ensures Valid()
      ensures users == old(users) + [u] && nextId == old(nextId) + 1
    {
      KeyedAppend(users, UserKey, nextId, u);
      KeyedGrow(books, BookKey, nextId, nextId + 1);
      KeyedGrow(borrows, BorrowKey, nextId, nextId + 1);
      KeyedGrow(requests, RequestKey, nextId, nextId + 1);
      KeyedGrow(notifications, NotificationKey, nextId, nextId + 1);
      users := users + [u];
      nextId := nextId + 1;
    }

    /** `user.update(...)` on the row at index `i`, keeping its key and e-mail address. */
    method SetUser(i: nat, u: User)
      requires Valid() && i < |users| && u.id == users[i].id && u.email == users[i].email
      modifies this`users
      ensures Valid()
      ensures users == old(users)[i := u]
    {
      KeyedUpdate(users, UserKey, nextId, i, u);
      var r := users[i := u];
      forall a | 0 <= a < |r| ensures UserEmail(r[a]) == UserEmail(users[a]) {
      }
      users := r;
    }

    /** `borrow.update(...)` on any number of rows: every row keeps its key. */
    method SetBorrows(bs: seq<Borrow>)
      requires Valid() && |bs| == |borrows|
      requires forall k :: 0 <= k < |bs| ==> bs[k].id == borrows[k].id
      modifies this`borrows
      ensures Valid()
      ensures borrows == bs
    {
      forall a | 0 <= a < |bs| ensures BorrowKey(bs[a]) == BorrowKey(borrows[a]) {
      }
      borrows := bs;
    }

    /** `borrow.update(...)` on the row at index `i`, keeping its key. */
    method SetBorrow(i: nat, b: Borrow)
      requires Valid() && i < |borrows| && b.id == borrows[i].id
      modifies this`borrows
      ensures Valid()
      ensures borrows == old(borrows)[i := b]
    {
      KeyedUpdate(borrows, BorrowKey, nextId, i, b);
      borrows := borrows[i := b];
    }
  }
}
