/**
  The pure decision rules of the deadline notification provider: urgency
  priority, the human-readable message, the threshold windows and the
  (card, minute-bucket) de-duplication test.  `t` is always the signed number
  of milliseconds left until a deadline.
 */
module DeadlineRules {
  import opened JsMath

  const MINUTE_MS: int := 60_000
  const TEN_MINUTES_MS: int := 600_000
  const HOUR_MS: int := 3_600_000
  const DAY_MS: int := 86_400_000
  /** Width of the window just below the one-day threshold (5 minutes). */
  const DAY_WINDOW_MS: int := 300_000
  /** Width of the window just below the one-hour threshold (2 minutes). */
  const HOUR_WINDOW_MS: int := 120_000

  // ---------------------------------------------------------------------------
  // Priority
  // ---------------------------------------------------------------------------

  /** The urgency of a notification ('high' | 'medium' | 'low'). */
  datatype Priority = High | Medium | Low

  /** Numeric urgency: a more urgent priority has a larger rank. */
  function Urgency(p: Priority): nat {
    match p
    case High => 2
    case Medium => 1
    case Low => 0
  }

  /** Ten minutes or less is high, one hour or less is medium, anything later is low. */
  function GetNotificationPriority(t: int): (p: Priority)
    ensures p == High <==> t <= TEN_MINUTES_MS
    ensures p == Medium <==> TEN_MINUTES_MS < t <= HOUR_MS
    ensures p == Low <==> HOUR_MS < t
  {
    if t <= TEN_MINUTES_MS then High
    else if t <= HOUR_MS then Medium
    else Low
  }

  /** Less time left never means a less urgent notification. */
  lemma PriorityMonotone(t1: int, t2: int)
    requires t1 <= t2
    ensures Urgency(GetNotificationPriority(t2)) <= Urgency(GetNotificationPriority(t1))
  {
  }

  // ---------------------------------------------------------------------------
  // Message
  // ---------------------------------------------------------------------------

  datatype TimeUnit = Day | Hour | Minute

  /** `Task "<title>" is due in <amount> <unit>[s]` or `Task "<title>" is overdue!`;
      `plural` records whether the trailing "s" is written. */
  datatype Message =
    | DueIn(title: string, amount: int, unit: TimeUnit, plural: bool)
    | Overdue(title: string)

  /** Whole hours left pick days or hours; below one hour the minute component
      of the JavaScript remainder picks minutes, and zero minutes reads as overdue. */
  function CreateNotificationMessage(t: int, title: string): (m: Message)
    ensures m.title == title
    ensures m.DueIn? ==> 1 <= m.amount && (m.plural <==> m.amount > 1)
  {
    var hours := t / HOUR_MS;
    var minutes := JsRem(t, HOUR_MS) / MINUTE_MS;
    if hours >= 24 then
      var days := hours / 24;
      DueIn(title, days, Day, days > 1)
    else if hours >= 1 then
      DueIn(title, hours, Hour, hours > 1)
    else if minutes > 0 then
      DueIn(title, minutes, Minute, minutes > 1)
    else
      Overdue(title)
  }

  /** The message as a function of the time left alone: whole days from one day on,
      whole hours from one hour on, whole minutes from one minute on, and
      "overdue" for anything under one minute -- including a deadline that is
      still up to 59.999 seconds away. */
  lemma MessageByRange(t: int, title: string)
    ensures DAY_MS <= t ==>
      CreateNotificationMessage(t, title) == DueIn(title, t / DAY_MS, Day, 2 * DAY_MS <= t)
    ensures HOUR_MS <= t < DAY_MS ==>
      CreateNotificationMessage(t, title) == DueIn(title, t / HOUR_MS, Hour, 2 * HOUR_MS <= t)
    ensures MINUTE_MS <= t < HOUR_MS ==>
      CreateNotificationMessage(t, title) == DueIn(title, t / MINUTE_MS, Minute, 2 * MINUTE_MS <= t)
    ensures t < MINUTE_MS <==> CreateNotificationMessage(t, title).Overdue?
  {
    var m := CreateNotificationMessage(t, title);
    if DAY_MS <= t {
      DivDiv(t, HOUR_MS, 24);
      assert t / HOUR_MS >= 24;
      DivUnique(t, DAY_MS, t / DAY_MS, t % DAY_MS);
    } else if HOUR_MS <= t {
      DivUnique(t, HOUR_MS, t / HOUR_MS, t % HOUR_MS);
    } else if 0 <= t {
      assert t / HOUR_MS == 0;
      assert JsRem(t, HOUR_MS) == t;
    } else {
      assert t / HOUR_MS < 0;
      assert JsRem(t, HOUR_MS) <= 0;
    }
  }

  /** Two worked examples: nine minutes reads "9 minutes",
      23 h 58 min reads "23 hours". */
  lemma MessageExamples(title: string)
    ensures CreateNotificationMessage(9 * MINUTE_MS, title) == DueIn(title, 9, Minute, true)
    ensures GetNotificationPriority(9 * MINUTE_MS) == High
    ensures CreateNotificationMessage(23 * HOUR_MS + 58 * MINUTE_MS, title) == DueIn(title, 23, Hour, true)
    ensures GetNotificationPriority(23 * HOUR_MS + 58 * MINUTE_MS) == Low
  {
    MessageByRange(9 * MINUTE_MS, title);
    MessageByRange(23 * HOUR_MS + 58 * MINUTE_MS, title);
  }

  // ---------------------------------------------------------------------------
  // Threshold windows and de-duplication
  // ---------------------------------------------------------------------------

  /** Each window is half-open: (threshold - width, threshold]. */
  predicate InDayWindow(t: int) {
    DAY_MS - DAY_WINDOW_MS < t <= DAY_MS
  }

  predicate InHourWindow(t: int) {
    HOUR_MS - HOUR_WINDOW_MS < t <= HOUR_MS
  }

  predicate InTenMinuteWindow(t: int) {
    0 < t <= TEN_MINUTES_MS
  }

  predicate InThresholdWindow(t: int) {
    InDayWindow(t) || InHourWindow(t) || InTenMinuteWindow(t)
  }

  /** What each window means for the notification it lets through: the
      one-day window is low priority and reads "23 hours" or "1 day"; the
      one-hour window is medium and reads "58 minutes", "59 minutes" or
      "1 hour"; the ten-minute window is high and reads at most ten minutes,
      or "overdue" under one minute.  The three windows are disjoint and
      every one of them lies strictly before the deadline. */
  lemma WindowClassification(t: int, title: string)
    requires InThresholdWindow(t)
    ensures 0 < t
    ensures InDayWindow(t) ==> !InHourWindow(t) && !InTenMinuteWindow(t)
    ensures InHourWindow(t) ==> !InTenMinuteWindow(t)
    ensures InDayWindow(t) ==>
      && GetNotificationPriority(t) == Low
      && (CreateNotificationMessage(t, title) == DueIn(title, 23, Hour, true)
          || CreateNotificationMessage(t, title) == DueIn(title, 1, Day, false))
    ensures InHourWindow(t) ==>
      && GetNotificationPriority(t) == Medium
      && (CreateNotificationMessage(t, title) == DueIn(title, 1, Hour, false)
          || CreateNotificationMessage(t, title) == DueIn(title, 59, Minute, true)
          || CreateNotificationMessage(t, title) == DueIn(title, 58, Minute, true))
    ensures InTenMinuteWindow(t) ==>
      && GetNotificationPriority(t) == High
      && (CreateNotificationMessage(t, title).Overdue? <==> t < MINUTE_MS)
      && (CreateNotificationMessage(t, title).DueIn? ==>
            CreateNotificationMessage(t, title).unit == Minute
            && CreateNotificationMessage(t, title).amount <= 10)
  {
    MessageByRange(t, title);
    if InDayWindow(t) {
      if t < DAY_MS {
        DivUnique(t, HOUR_MS, 23, t - 23 * HOUR_MS);
      } else {
        assert t / DAY_MS == 1;
      }
    } else if InHourWindow(t) {
      if t < HOUR_MS {
        if t < 59 * MINUTE_MS {
          DivUnique(t, MINUTE_MS, 58, t - 58 * MINUTE_MS);
        } else {
          DivUnique(t, MINUTE_MS, 59, t - 59 * MINUTE_MS);
        }
      } else {
        assert t / HOUR_MS == 1;
      }
    } else if MINUTE_MS <= t {
      assert t / MINUTE_MS <= 10;
    }
  }

  /** The de-duplication key: the card and the time left in whole minutes. */
  datatype DedupKey = DedupKey(cardId: string, bucket: int)

  /** The bucket is the floor of the time left in minutes. */
  function KeyFor(cardId: string, t: int): (k: DedupKey)
    ensures k.cardId == cardId
    ensures k.bucket * MINUTE_MS <= t < (k.bucket + 1) * MINUTE_MS
  {
    DedupKey(cardId, t / MINUTE_MS)
  }

  /** One minute less left moves the bucket down by exactly one. */
  lemma BucketShift(cardId: string, t: int)
    ensures KeyFor(cardId, t - MINUTE_MS).bucket == KeyFor(cardId, t).bucket - 1
  {
    DivUnique(t - MINUTE_MS, MINUTE_MS, t / MINUTE_MS - 1, t % MINUTE_MS);
  }

  /** One call of the threshold test.  The test reads `snapshot`, the shown-key
      set as it was when the enclosing check began (the state update is deferred
      until the next render); the key of a passing test is added to `pending`,
      which accumulates every update queued during that check. */
  function ShouldShowNotification(t: int, cardId: string, snapshot: set<DedupKey>, pending: set<DedupKey>)
    : (r: (bool, set<DedupKey>))
    ensures r.0 <==> InThresholdWindow(t) && KeyFor(cardId, t) !in snapshot
    ensures r.0 ==> r.1 == pending + {KeyFor(cardId, t)}
    ensures !r.0 ==> r.1 == pending
  {
    var key := KeyFor(cardId, t);
    if InThresholdWindow(t) && key !in snapshot then (true, pending + {key})
    else (false, pending)
  }

  /** Once a test has passed and its update has landed, the same card with the
      same minute bucket never passes again; a test only ever passes for a
      deadline still in the future. */
  lemma ShownKeySuppresses(t: int, t': int, cardId: string, shown: set<DedupKey>, later: set<DedupKey>, pending: set<DedupKey>)
    requires ShouldShowNotification(t, cardId, shown, shown).0
    requires ShouldShowNotification(t, cardId, shown, shown).1 <= later
    requires t / MINUTE_MS == t' / MINUTE_MS
    ensures 0 < t
    ensures !ShouldShowNotification(t', cardId, later, pending).0
    ensures ShouldShowNotification(t', cardId, later, pending).1 == pending
  {
  }
}
