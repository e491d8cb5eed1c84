/**
 * server/src/controllers/bookRequestController.ts: a member asks the library to
 * acquire a book; an administrator approves or rejects the request. Creation
 * always stores `pending`. Approval and rejection overwrite the status whatever
 * it was: the handlers check only that the request exists, so there is no
 * lifecycle guard (a rejected request can be approved, an approved one rejected).
 */
module BookRequestController {
  import opened Wrappers
  import opened Records
  import opened Seqs
  import opened Store

  /** `request.update({ status: 'approved' })`. */
  function Approve(r: BookRequest): (a: BookRequest)
    ensures a.status == Approved
    ensures a.(status := r.status) == r
  {
    r.(status := Approved)
  }

  /**
   * The comment a rejection leaves. `None` is a body without `comment`: an instance
   * update skips undefined values, so the stored comment stays.
   */
  function CommentAfterReject(stored: Option<string>, comment: Option<string>): Option<string> {
    if comment.Some? then comment else stored
  }

  /** `request.update({ status: 'rejected', admin_comment: comment })`. */
  function RejectWith(comment: Option<string>): BookRequest -> BookRequest {
    (r: BookRequest) => r.(status := Rejected, adminComment := CommentAfterReject(r.adminComment, comment))
  }

  /** The request table after approving the request with key `id` (unchanged when there is none). */
  function ApproveTable(requests: seq<BookRequest>, id: Id): seq<BookRequest> {
    UpdateFirst(requests, RequestWithId(id), Approve)
  }

  /** The request table after rejecting the request with key `id` (unchanged when there is none). */
  function RejectTable(requests: seq<BookRequest>, id: Id, comment: Option<string>): seq<BookRequest> {
    UpdateFirst(requests, RequestWithId(id), RejectWith(comment))
  }

  /** `createBookRequest`: appends the request with the requester's id, status `pending` and no comment. */
  method CreateBookRequest(db: Database, userId: Id, title: string, author: string,
                           externalLink: Option<string>, now: Time)
    returns (r: Response<BookRequest>)
    requires db.Valid()
    modifies db`requests, db`nextId
    ensures db.Valid()
    ensures r.Success? && r.value.status == Pending && r.value.adminComment.None?
    ensures r.value == BookRequest(old(db.nextId), userId, title, author, externalLink, Pending, None, now)
    ensures db.requests == old(db.requests) + [r.value] && db.nextId == old(db.nextId) + 1
  {
    var request := BookRequest(db.nextId, userId, title, author, externalLink, Pending, None, now);
    KeyedAppend(db.requests, RequestKey, db.nextId, request);
    KeyedGrow(db.books, BookKey, db.nextId, db.nextId + 1);
    KeyedGrow(db.borrows, BorrowKey, db.nextId, db.nextId + 1);
    KeyedGrow(db.notifications, NotificationKey, db.nextId, db.nextId + 1);
    KeyedGrow(db.users, UserKey, db.nextId, db.nextId + 1);
    db.requests := db.requests + [request];
    db.nextId := db.nextId + 1;
    r := Success(request);
  }

  /** `approveBookRequest`: 404 for an unknown key; otherwise the status becomes `approved`, whatever it was. */
  method ApproveBookRequest(db: Database, id: Id) returns (r: Response<BookRequest>)
    requires db.Valid()
    modifies db`requests
    ensures db.Valid()
    ensures db.requests == ApproveTable(old(db.requests), id)
    ensures match FindFirst(old(db.requests), RequestWithId(id))
      case None => r == Failure(404, "Request not found")
      case Some(i) => r == Success(Approve(old(db.requests)[i])) && db.requests[i] == r.value
  {
    var found := FindFirst(db.requests, RequestWithId(id));
    if found.None? {
      return Failure(404, "Request not found");
    }
    var i := found.value;
    var updated := Approve(db.requests[i]);
    KeyedUpdate(db.requests, RequestKey, db.nextId, i, updated);
    db.requests := db.requests[i := updated];
    r := Success(updated);
  }

  /**
   * `rejectBookRequest`: 404 for an unknown key; otherwise the status becomes `rejected`
   * and `admin_comment` the body's `comment`, whatever the status was. A body without
   * a comment leaves the stored comment as it was.
   */
  method RejectBookRequest(db: Database, id: Id, comment: Option<string>) returns (r: Response<BookRequest>)
    requires db.Valid()
    modifies db`requests
    ensures db.Valid()
    ensures db.requests == RejectTable(old(db.requests), id, comment)
    ensures match FindFirst(old(db.requests), RequestWithId(id))
      case None => r == Failure(404, "Request not found")
      case Some(i) =>
        && r.Success? && db.requests[i] == r.value
        && r.value.status == Rejected
        && r.value.adminComment == (if comment.Some? then comment else old(db.requests)[i].adminComment)
        && r.value.(status := old(db.requests)[i].status, adminComment := old(db.requests)[i].adminComment) == old(db.requests)[i]
  {
    var found := FindFirst(db.requests, RequestWithId(id));
    if found.None? {
      return Failure(404, "Request not found");
    }
    var i := found.value;
    var updated := RejectWith(comment)(db.requests[i]);
    KeyedUpdate(db.requests, RequestKey, db.nextId, i, updated);
    db.requests := db.requests[i := updated];
    r := Success(updated);
  }

  /** Approving twice gives the same table as approving once. */
  lemma ApproveIdempotent(requests: seq<BookRequest>, id: Id)
    ensures ApproveTable(ApproveTable(requests, id), id) == ApproveTable(requests, id)
  {
    UpdateFirstIdempotent(requests, RequestWithId(id), Approve);
  }

  /** Rejecting twice with the same comment gives the same table as rejecting once. */
  lemma RejectIdempotent(requests: seq<BookRequest>, id: Id, comment: Option<string>)
    ensures RejectTable(RejectTable(requests, id, comment), id, comment) == RejectTable(requests, id, comment)
  {
    UpdateFirstIdempotent(requests, RequestWithId(id), RejectWith(comment));
  }

  /**
   * No guard: a request that was rejected can still be approved; it ends `approved`
   * and keeps the rejection comment.
   */
  lemma ApproveAfterReject(requests: seq<BookRequest>, id: Id, comment: Option<string>, i: nat)
    requires FindFirst(requests, RequestWithId(id)) == Some(i)
    ensures var t := ApproveTable(RejectTable(requests, id, comment), id);
      t[i].status == Approved && t[i].adminComment == (if comment.Some? then comment else requests[i].adminComment)
  {
    FindFirstUpdate(requests, RequestWithId(id), i, RejectWith(comment)(requests[i]));
  }

  function CreatedAtKey(r: BookRequest): int { r.createdAt }

  /** `getAllBookRequests`: every request, newest `created_at` first. */
  function GetAllBookRequests(requests: seq<BookRequest>): (r: seq<BookRequest>)
    ensures multiset(r) == multiset(requests)
    ensures SortedDesc(r, CreatedAtKey)
  {
    SortDesc(requests, CreatedAtKey)
  }
}
