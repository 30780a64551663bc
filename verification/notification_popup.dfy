/**
  The per-notification popup: which auto-dismiss timer it arms, what its
  cleanup does, the alert severity, the card-priority chip colour, and the
  close and click actions.  Only the chosen delay is modelled, not elapsed time:
  `Fire` is the timer callback running.
 */
module NotificationPopup {
  import opened Cards
  import opened DeadlineRules
  import opened NotificationStore

  const LOW_DISMISS_MS: nat := 8_000
  const MEDIUM_DISMISS_MS: nat := 12_000

  /** The popup's timer handle. */
  datatype Timer =
    | NoTimer
    | Armed(target: NotificationId, delayMs: nat)
    | Cleared(target: NotificationId, delayMs: nat)

  /** The effect run when the popup mounts: low and medium notifications arm a
      timer that dismisses their own identifier, high ones arm nothing. */
  function ScheduleAutoDismiss(n: Notification): (t: Timer)
    ensures t.NoTimer? <==> n.priority == High
    ensures !t.Cleared?
    ensures t.Armed? ==> t.target == n.id
    ensures n.priority == Low ==> t == Armed(n.id, LOW_DISMISS_MS)
    ensures n.priority == Medium ==> t == Armed(n.id, MEDIUM_DISMISS_MS)
  {
    match n.priority
    case Low => Armed(n.id, LOW_DISMISS_MS)
    case Medium => Armed(n.id, MEDIUM_DISMISS_MS)
    case High => NoTimer
  }

  /** The effect's cleanup: clears a pending timer, does nothing otherwise. */
  function Cleanup(t: Timer): (t': Timer)
    ensures !t'.Armed?
    ensures t.NoTimer? ==> t' == NoTimer
  {
    match t
    case Armed(target, delay) => Cleared(target, delay)
    case _ => t
  }

  /** The timer callback firing against the current store. */
  function Fire(t: Timer, s: seq<Notification>): (r: seq<Notification>)
    ensures t.Armed? ==> r == Dismiss(s, t.target)
    ensures !t.Armed? ==> r == s
  {
    if t.Armed? then Dismiss(s, t.target) else s
  }

  /** A cleared timer never dismisses anything. */
  lemma ClearedTimerNeverDismisses(t: Timer, s: seq<Notification>)
    ensures Fire(Cleanup(t), s) == s
  {
  }

  /** What auto-dismissal does to the store: a low or medium notification's
      timer removes exactly the entries carrying its identifier and leaves every
      other identifier's entries alone; a high one stays until dismissed by hand. */
  lemma AutoDismissEffect(n: Notification, s: seq<Notification>, other: NotificationId)
    requires other != n.id
    ensures n.priority == High ==> Fire(ScheduleAutoDismiss(n), s) == s
    ensures n.priority != High ==> n.id !in Ids(Fire(ScheduleAutoDismiss(n), s))
    ensures CountId(Fire(ScheduleAutoDismiss(n), s), other) == CountId(s, other)
  {
    if n.priority != High {
      DismissKeepsOthers(s, n.id, other);
    }
  }

  /** The alert severity ('error' | 'warning' | 'info'). */
  datatype Severity = Error | Warning | Info

  function SeverityRank(v: Severity): nat {
    match v
    case Error => 2
    case Warning => 1
    case Info => 0
  }

  function GetSeverity(p: Priority): (v: Severity)
    ensures SeverityRank(v) == Urgency(p)
  {
    match p
    case High => Error
    case Medium => Warning
    case Low => Info
  }

  /** Severity follows urgency one-to-one, and the alerts that never time out
      are exactly the error-severity ones. */
  lemma SeverityMatchesTimer(n: Notification, p1: Priority, p2: Priority)
    ensures GetSeverity(p1) == GetSeverity(p2) <==> p1 == p2
    ensures Urgency(p1) < Urgency(p2) <==> SeverityRank(GetSeverity(p1)) < SeverityRank(GetSeverity(p2))
    ensures ScheduleAutoDismiss(n).NoTimer? <==> GetSeverity(n.priority) == Error
  {
  }

  /** The colour of the card-priority chip. */
  datatype ChipColor = ErrorColor | WarningColor | SuccessColor | DefaultColor

  function GetPriorityColor(p: CardPriority): (c: ChipColor)
    ensures c == ErrorColor <==> p == HIGH
    ensures c == WarningColor <==> p == MEDIUM
    ensures c == SuccessColor <==> p == LOW
    ensures c == DefaultColor <==> p.OtherPriority?
  {
    match p
    case HIGH => ErrorColor
    case MEDIUM => WarningColor
    case LOW => SuccessColor
    case OtherPriority => DefaultColor
  }

  /** The close button: dismisses this notification's identifier. */
  function HandleClose(n: Notification, s: seq<Notification>): (r: seq<Notification>)
    ensures n.id !in Ids(r)
    ensures forall x :: x in r <==> x in s && x.id != n.id
    ensures n.id !in Ids(s) ==> r == s
  {
    Dismiss(s, n.id)
  }

  /** A click on the alert: dismisses this notification's identifier too
      (navigation is not implemented by the popup). */
  function HandleCardClick(n: Notification, s: seq<Notification>): (r: seq<Notification>)
    ensures n.id !in Ids(r)
    ensures forall x :: x in r <==> x in s && x.id != n.id
    ensures n.id !in Ids(s) ==> r == s
  {
    Dismiss(s, n.id)
  }

  /** Closing and clicking have the same effect, and a second close is harmless. */
  lemma CloseAndClickAgree(n: Notification, s: seq<Notification>)
    ensures HandleClose(n, s) == HandleCardClick(n, s)
    ensures HandleClose(n, HandleClose(n, s)) == HandleClose(n, s)
  {
  }
}
