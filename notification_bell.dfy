/**
 * client/src/components/notifications/NotificationBell.tsx: the relative age shown next
 * to each notification and the icon chosen by its type.
 */
module NotificationBell {
  import opened Records
  import opened Strings

  /** `Math.floor((now - past) / 1000)`: Dafny's division rounds down for a positive divisor, as `Math.floor` does. */
  function ElapsedSeconds(nowMs: Time, pastMs: Time): (s: int)
    ensures s * 1000 <= nowMs - pastMs < s * 1000 + 1000
  {
    (nowMs - pastMs) / 1000
  }

  /** The four shapes of `formatTimeAgo`'s text. */
  datatype TimeAgo = JustNow | MinutesAgo(minutes: int) | HoursAgo(hours: int) | DaysAgo(days: int)

  /** `formatTimeAgo`: the bucket for an age of `s` whole seconds, and the whole units in it. */
  function Bucket(s: int): (t: TimeAgo)
    ensures t == JustNow <==> s < 60
    ensures t.MinutesAgo? <==> 60 <= s < 3600
    ensures t.HoursAgo? <==> 3600 <= s < 86400
    ensures t.DaysAgo? <==> 86400 <= s
    ensures t.MinutesAgo? ==> 1 <= t.minutes <= 59 && t.minutes * 60 <= s < t.minutes * 60 + 60
    ensures t.HoursAgo? ==> 1 <= t.hours <= 23 && t.hours * 3600 <= s < t.hours * 3600 + 3600
    ensures t.DaysAgo? ==> 1 <= t.days && t.days * 86400 <= s < t.days * 86400 + 86400
  {
    if s < 60 then JustNow
    else if s < 3600 then MinutesAgo(s / 60)
    else if s < 86400 then HoursAgo(s / 3600)
    else DaysAgo(s / 86400)
  }

  function FormatTimeAgo(nowMs: Time, pastMs: Time): TimeAgo {
    Bucket(ElapsedSeconds(nowMs, pastMs))
  }

  /** A notification from the future (a clock ahead of the client's) reads "just now". */
  lemma FutureIsJustNow(nowMs: Time, pastMs: Time)
    requires nowMs <= pastMs
    ensures FormatTimeAgo(nowMs, pastMs) == JustNow
  {
  }

  /** The text shown. */
  function TimeAgoText(t: TimeAgo): string {
    match t
    case JustNow => "just now"
    case MinutesAgo(m) => NatToString(if m < 0 then 0 else m) + "m ago"
    case HoursAgo(h) => NatToString(if h < 0 then 0 else h) + "h ago"
    case DaysAgo(d) => NatToString(if d < 0 then 0 else d) + "d ago"
  }

  /** The icons of `getNotificationIcon`. */
  datatype Icon = BooksIcon | ApprovedIcon | RejectedIcon | MailboxIcon

  function NotificationIcon(kind: string): (i: Icon)
    ensures i == BooksIcon <==> kind == "book_request"
    ensures i == ApprovedIcon <==> kind == "request_approved"
    ensures i == RejectedIcon <==> kind == "request_rejected"
  {
    if kind == "book_request" then BooksIcon
    else if kind == "request_approved" then ApprovedIcon
    else if kind == "request_rejected" then RejectedIcon
    else MailboxIcon
  }

  /** None of the types the server creates has an icon of its own: all show the default. */
  lemma ServerTypesShowDefaultIcon(kind: NotificationType)
    ensures NotificationIcon(TypeName(kind)) == MailboxIcon
  {
  }
}
