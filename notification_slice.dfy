/**
 * client/src/features/notifications/notificationSlice.ts: the client's copy of the
 * caller's notifications. Each reducer case is a method on the slice state; state the
 * case does not assign is outside its frame.
 */
module NotificationSlice {
  import opened Wrappers
  import opened Records
  import opened Seqs
  import NotificationController

  const FetchFailedMessage: string := "Failed to fetch notifications"

  /** `action.error.message || 'Failed to fetch notifications'`: an empty message is falsy too. */
  function ErrorOrDefault(message: Option<string>): (r: string)
    ensures r != ""
    ensures message.Some? && message.value != "" ==> r == message.value
    ensures message.None? || message.value == "" ==> r == FetchFailedMessage
  {
    match message
    case Some(m) => if m == "" then FetchFailedMessage else m
    case None => FetchFailedMessage
  }

  /** `markAsRead.fulfilled` on a list: the first entry with the key is marked read, the rest kept. */
  function MarkAsRead(notifications: seq<Notification>, id: Id): (r: seq<Notification>)
    ensures |r| == |notifications|
    ensures match FindFirst(notifications, NotificationWithId(id))
      case None => r == notifications
      case Some(i) =>
        && r[i].read && r[i].(read := notifications[i].read) == notifications[i]
        && forall k :: 0 <= k < |r| && k != i ==> r[k] == notifications[k]
  {
    NotificationController.MarkReadTable(notifications, id)
  }

  /** Marking read is idempotent on the client as on the server. */
  lemma MarkAsReadIdempotent(notifications: seq<Notification>, id: Id)
    ensures MarkAsRead(MarkAsRead(notifications, id), id) == MarkAsRead(notifications, id)
  {
    NotificationController.MarkReadIdempotent(notifications, id);
  }

  class NotificationState {
    var notifications: seq<Notification>
    var loading: bool
    var error: Option<string>

    /** `initialState`. */
    constructor ()
      ensures notifications == [] && !loading && error.None?
    {
      notifications, loading, error := [], false, None;
    }

    /** `fetchNotifications.pending`. */
    method FetchPending()
      modifies this`loading
      ensures loading
    {
      loading := true;
    }

    /** `fetchNotifications.fulfilled`: the list is replaced; an earlier error stays. */
    method FetchFulfilled(payload: seq<Notification>)
      modifies this`notifications, this`loading
      ensures notifications == payload && !loading
    {
      notifications := payload;
      loading := false;
    }

    /** `fetchNotifications.rejected`: the list stays as it was. */
    method FetchRejected(message: Option<string>)
      modifies this`loading, this`error
      ensures !loading && error == Some(ErrorOrDefault(message))
    {
      loading := false;
      error := Some(ErrorOrDefault(message));
    }

    /** `markAsRead.fulfilled`, with the key of the notification the server returned. */
    method MarkAsReadFulfilled(id: Id)
      modifies this`notifications
      ensures notifications == MarkAsRead(old(notifications), id)
    {
      var found := FindFirst(notifications, NotificationWithId(id));
      if found.Some? {
        var i := found.value;
        notifications := notifications[i := notifications[i].(read := true)];
      }
    }
  }
}
