/**
  `checkDeadlines`: filter the cards, test each remaining one against the
  threshold windows and the shown-key set, build a notification for each card
  that passes and add them all to the store.

  React state is explicit here: a `Monitor` value carries the notification list
  and the shown-key set from one call to the next.  Inside one call every test
  reads the shown set as it was when the call began, and every queued update
  lands after the call, in order.
 */
module DeadlineCheck {
  import opened Wrappers
  import opened Cards
  import opened DeadlineRules
  import opened NotificationStore
  import opened JsMath

  datatype Monitor = Monitor(notifications: seq<Notification>, shown: set<DedupKey>)

  /** A card is considered while not done and while its deadline is set and still ahead. */
  predicate IsActive(c: Card, now: int) {
    c.status != DONE && c.deadline.Some? && c.deadline.value > now
  }

  /** The order-preserving filter of the cards that are considered. */
  function ActiveCards(cards: seq<Card>, now: int): (r: seq<Card>)
    ensures forall c :: c in r <==> c in cards && IsActive(c, now)
    ensures |r| <= |cards|
    decreases |cards|
  {
    if |cards| == 0 then []
    else
      var rest := ActiveCards(cards[1..], now);
      assert forall c :: c in cards <==> c == cards[0] || c in cards[1..];
      if IsActive(cards[0], now) then [cards[0]] + rest else rest
  }

  /** A single card is kept exactly when it is considered. */
  lemma ActiveCardsSingleton(c: Card, now: int)
    ensures ActiveCards([c], now) == if IsActive(c, now) then [c] else []
  {
    assert [c][1..] == [];
  }

  /** The filter distributes over concatenation: it keeps the cards in their
      order, duplicates included. */
  lemma {:induction false} ActiveCardsAppend(a: seq<Card>, b: seq<Card>, now: int)
    ensures ActiveCards(a + b, now) == ActiveCards(a, now) + ActiveCards(b, now)
    decreases |a|
  {
    if |a| == 0 {
      assert a + b == b;
    } else {
      assert (a + b)[0] == a[0];
      assert (a + b)[1..] == a[1..] + b;
      ActiveCardsAppend(a[1..], b, now);
    }
  }

  /** The notification issued for card `c`, `t` milliseconds before its deadline, at `now`. */
  function MakeNotification(c: Card, t: int, now: int): Notification {
    Notification(
      NotificationId(c.id, now),
      c,
      t,
      GetNotificationPriority(t),
      CreateNotificationMessage(t, c.title),
      false)
  }

  /** The de-duplication key a notification was issued under. */
  function KeyOf(n: Notification): DedupKey {
    KeyFor(n.card.id, n.timeUntilDeadline)
  }

  function KeysOf(ns: seq<Notification>): set<DedupKey> {
    set i | 0 <= i < |ns| :: KeyOf(ns[i])
  }

  lemma {:induction false} KeysOfCons(n: Notification, ns: seq<Notification>)
    ensures KeysOf([n] + ns) == {KeyOf(n)} + KeysOf(ns)
  {
    var s := [n] + ns;
    forall k | k in KeysOf(s) ensures k in {KeyOf(n)} + KeysOf(ns) {
      var i :| 0 <= i < |s| && KeyOf(s[i]) == k;
      if i > 0 { assert s[i] == ns[i - 1]; }
    }
    forall k | k in KeysOf(ns) ensures k in KeysOf(s) {
      var i :| 0 <= i < |ns| && KeyOf(ns[i]) == k;
      assert s[i + 1] == ns[i];
    }
    assert s[0] == n;
  }

  /** A card passes the test of one check: its deadline is set, the time left
      lies in a threshold window and its key was not in the shown set when the
      check began. */
  predicate Passes(c: Card, now: int, snapshot: set<DedupKey>) {
    && c.deadline.Some?
    && InThresholdWindow(c.deadline.value - now)
    && KeyFor(c.id, c.deadline.value - now) !in snapshot
  }

  /** The `forEach` over the considered cards: decisions read `snapshot`, key
      updates accumulate in `pending`. */
  function Collect(cards: seq<Card>, now: int, snapshot: set<DedupKey>, pending: set<DedupKey>)
    : (r: (seq<Notification>, set<DedupKey>))
    ensures r.0 == Build(cards, now, snapshot)
    ensures r.1 == pending + KeysOf(r.0)
    decreases |cards|
  {
    if |cards| == 0 then ([], pending)
    else
      var c := cards[0];
      match c.deadline
      case None => Collect(cards[1..], now, snapshot, pending)
      case Some(deadline) =>
        var t := deadline - now;
        var (show, pending1) := ShouldShowNotification(t, c.id, snapshot, pending);
        var (rest, pending2) := Collect(cards[1..], now, snapshot, pending1);
        if show then
          var n := MakeNotification(c, t, now);
          KeysOfCons(n, rest);
          ([n] + rest, pending2)
        else
          (rest, pending2)
  }

  /** The notifications one check builds from `cards`, as a plain in-order
      filter-map: the notification of each passing card, in card order. */
  function Build(cards: seq<Card>, now: int, snapshot: set<DedupKey>): seq<Notification>
    decreases |cards|
  {
    if |cards| == 0 then []
    else
      var c := cards[0];
      (if Passes(c, now, snapshot) then [MakeNotification(c, c.deadline.value - now, now)] else [])
        + Build(cards[1..], now, snapshot)
  }

  /** Building distributes over concatenation: the notifications come out in
      the order of their cards, one per passing card. */
  lemma {:induction false} BuildAppend(a: seq<Card>, b: seq<Card>, now: int, snapshot: set<DedupKey>)
    ensures Build(a + b, now, snapshot) == Build(a, now, snapshot) + Build(b, now, snapshot)
    decreases |a|
  {
    if |a| == 0 {
      assert a + b == b;
    } else {
      assert (a + b)[0] == a[0];
      assert (a + b)[1..] == a[1..] + b;
      BuildAppend(a[1..], b, now, snapshot);
    }
  }

  /** Membership: a notification is built exactly for each card of the input
      that passes, and it is that card's notification. */
  lemma BuildMembers(cards: seq<Card>, now: int, snapshot: set<DedupKey>)
    ensures forall n :: n in Build(cards, now, snapshot) ==>
      && n.card in cards
      && Passes(n.card, now, snapshot)
      && n == MakeNotification(n.card, n.card.deadline.value - now, now)
    ensures forall c :: c in cards && Passes(c, now, snapshot) ==>
      MakeNotification(c, c.deadline.value - now, now) in Build(cards, now, snapshot)
  {
    BuildSound(cards, now, snapshot);
    BuildComplete(cards, now, snapshot);
  }

  lemma {:induction false} BuildSound(cards: seq<Card>, now: int, snapshot: set<DedupKey>)
    ensures forall n :: n in Build(cards, now, snapshot) ==>
      && n.card in cards
      && Passes(n.card, now, snapshot)
      && n == MakeNotification(n.card, n.card.deadline.value - now, now)
    decreases |cards|
  {
    if |cards| > 0 {
      var c, tail := cards[0], cards[1..];
      BuildSound(tail, now, snapshot);
      var head := if Passes(c, now, snapshot) then [MakeNotification(c, c.deadline.value - now, now)] else [];
      assert Build(cards, now, snapshot) == head + Build(tail, now, snapshot);
      forall n | n in Build(cards, now, snapshot)
        ensures n.card in cards && Passes(n.card, now, snapshot)
        ensures n == MakeNotification(n.card, n.card.deadline.value - now, now)
      {
        if n in head {
          assert n.card == c == cards[0];
        } else {
          assert n.card in tail;
          assert n.card in cards;
        }
      }
    }
  }

  lemma {:induction false} BuildComplete(cards: seq<Card>, now: int, snapshot: set<DedupKey>)
    ensures forall c :: c in cards && Passes(c, now, snapshot) ==>
      MakeNotification(c, c.deadline.value - now, now) in Build(cards, now, snapshot)
    decreases |cards|
  {
    if |cards| > 0 {
      var c0, tail := cards[0], cards[1..];
      BuildComplete(tail, now, snapshot);
      var head := if Passes(c0, now, snapshot) then [MakeNotification(c0, c0.deadline.value - now, now)] else [];
      assert Build(cards, now, snapshot) == head + Build(tail, now, snapshot);
      forall c | c in cards && Passes(c, now, snapshot)
        ensures MakeNotification(c, c.deadline.value - now, now) in Build(cards, now, snapshot)
      {
        if c != c0 {
          assert c in tail;
        }
      }
    }
  }

  /** A single card yields its notification exactly when it passes. */
  lemma BuildSingleton(c: Card, now: int, snapshot: set<DedupKey>)
    ensures Build([c], now, snapshot)
         == if Passes(c, now, snapshot) then [MakeNotification(c, c.deadline.value - now, now)] else []
  {
    assert [c][1..] == [];
  }

  /** The functional updaters queued by one check run one after another. */
  function AddAll(s: seq<Notification>, ns: seq<Notification>): (r: seq<Notification>)
    ensures Ids(r) == Ids(s) + Ids(ns)
    ensures forall i :: 0 <= i < |s| && s[i].id !in Ids(ns) ==> i < |r| && r[i] == s[i]
    ensures |s| <= |r| <= |s| + |ns|
    decreases |ns|
  {
    if |ns| == 0 then s
    else
      IdsCons(ns);
      AddAll(Add(s, ns[0]), ns[1..])
  }

  /** One call of `checkDeadlines` at time `now`. */
  function CheckDeadlines(m: Monitor, cards: seq<Card>, now: int): (r: Monitor)
    ensures r.notifications == AddAll(m.notifications, Emitted(m, cards, now))
    ensures r.shown == m.shown + KeysOf(Emitted(m, cards, now))
    ensures Ids(r.notifications) == Ids(m.notifications) + Ids(Emitted(m, cards, now))
  {
    var (ns, shown) := Collect(ActiveCards(cards, now), now, m.shown, m.shown);
    Monitor(AddAll(m.notifications, ns), shown)
  }

  /** The notifications one call of `checkDeadlines` creates. */
  function Emitted(m: Monitor, cards: seq<Card>, now: int): seq<Notification> {
    Build(ActiveCards(cards, now), now, m.shown)
  }

  /** Everything one call emits comes from a card of the input that is not done,
      has a deadline strictly after `now`, lies in a threshold window and has
      not been shown under its minute bucket; it carries the time left, the two
      classifications of that time and an identifier made of the card and `now`. */
  lemma EmittedSound(m: Monitor, cards: seq<Card>, now: int)
    ensures forall n :: n in Emitted(m, cards, now) ==>
      && n.card in cards
      && n.card.status != DONE
      && n.card.deadline.Some?
      && n.timeUntilDeadline == n.card.deadline.value - now > 0
      && InThresholdWindow(n.timeUntilDeadline)
      && KeyOf(n) !in m.shown
      && n.priority == GetNotificationPriority(n.timeUntilDeadline)
      && n.message == CreateNotificationMessage(n.timeUntilDeadline, n.card.title)
      && n.id == NotificationId(n.card.id, now)
      && !n.isShown
  {
    var active := ActiveCards(cards, now);
    var ns := Emitted(m, cards, now);
    BuildMembers(active, now, m.shown);
    forall n | n in ns
      ensures n.card in cards && IsActive(n.card, now) && Passes(n.card, now, m.shown)
      ensures n == MakeNotification(n.card, n.card.deadline.value - now, now)
    {
      assert n.card in active;
    }
  }

  /** Every card that is active, in a window and not yet shown is emitted. */
  lemma EmittedComplete(m: Monitor, cards: seq<Card>, now: int, c: Card)
    requires c in cards && IsActive(c, now) && Passes(c, now, m.shown)
    ensures MakeNotification(c, c.deadline.value - now, now) in Emitted(m, cards, now)
  {
    BuildMembers(ActiveCards(cards, now), now, m.shown);
  }

  /** An emitted notification's card is in the input, is considered and passes. */
  lemma EmittedPasses(m: Monitor, cards: seq<Card>, now: int, n: Notification)
    requires n in Emitted(m, cards, now)
    ensures n.card in cards && IsActive(n.card, now) && Passes(n.card, now, m.shown)
  {
    BuildMembers(ActiveCards(cards, now), now, m.shown);
  }

  /** The key of every card that passes is among the keys the call records. */
  lemma EmittedKeyRecorded(m: Monitor, cards: seq<Card>, now: int, c: Card)
    requires c in cards && IsActive(c, now) && Passes(c, now, m.shown)
    ensures KeyFor(c.id, c.deadline.value - now) in KeysOf(Emitted(m, cards, now))
  {
    var n := MakeNotification(c, c.deadline.value - now, now);
    EmittedComplete(m, cards, now, c);
    KeyOfIn(n, Emitted(m, cards, now));
  }

  lemma KeyOfIn(n: Notification, ns: seq<Notification>)
    requires n in ns
    ensures KeyOf(n) in KeysOf(ns)
  {
    var i :| 0 <= i < |ns| && ns[i] == n;
  }

  /** The shown set only grows, by exactly the keys of what was emitted, and
      every key it gains has a non-negative bucket; the store keeps every
      identifier it had and gains exactly the emitted ones. */
  lemma CheckDeadlinesUpdates(m: Monitor, cards: seq<Card>, now: int)
    ensures CheckDeadlines(m, cards, now).shown == m.shown + KeysOf(Emitted(m, cards, now))
    ensures forall k :: k in CheckDeadlines(m, cards, now).shown - m.shown ==> k.bucket >= 0
    ensures Ids(CheckDeadlines(m, cards, now).notifications) == Ids(m.notifications) + Ids(Emitted(m, cards, now))
  {
    var ns := Emitted(m, cards, now);
    EmittedSound(m, cards, now);
    forall k | k in KeysOf(ns) ensures k.bucket >= 0 {
      var i :| 0 <= i < |ns| && KeyOf(ns[i]) == k;
      assert ns[i] in ns;
    }
  }

  /** Running the check again with the same cards and clock, against the state
      the first run left, emits nothing. */
  lemma NothingNewOnRepeat(m: Monitor, cards: seq<Card>, now: int)
    ensures Emitted(CheckDeadlines(m, cards, now), cards, now) == []
  {
    NothingNewOnceRecorded(m, CheckDeadlines(m, cards, now), cards, now);
  }

  /** Any state whose shown set holds the old one and the keys a call emitted
      lets nothing through for the same cards and clock. */
  lemma NothingNewOnceRecorded(m: Monitor, m1: Monitor, cards: seq<Card>, now: int)
    requires m.shown + KeysOf(Emitted(m, cards, now)) <= m1.shown
    ensures Emitted(m1, cards, now) == []
  {
    var again := Emitted(m1, cards, now);
    // A card emitted again would have passed the first test as well, so its
    // key is in the shown set the second test reads.
    if |again| > 0 {
      assert again[0] in again;
      EmittedPasses(m1, cards, now, again[0]);
      EmittedKeyRecorded(m, cards, now, again[0].card);
      assert false;
    }
  }

  /** A repeated check with the same cards and clock changes nothing. */
  lemma CheckDeadlinesIdempotent(m: Monitor, cards: seq<Card>, now: int)
    ensures CheckDeadlines(CheckDeadlines(m, cards, now), cards, now) == CheckDeadlines(m, cards, now)
  {
    var m1 := CheckDeadlines(m, cards, now);
    NothingNewOnRepeat(m, cards, now);
    assert KeysOf([]) == {};
    assert AddAll(m1.notifications, []) == m1.notifications;
  }

  /** A key that fired in one call never fires again: not in any call of any
      run of later polls, whatever cards and clocks those polls see. */
  lemma KeyFiresOnce(m: Monitor, cards: seq<Card>, now: int, polls: seq<Poll>,
                     cards': seq<Card>, now': int, n: Notification)
    requires n in Emitted(m, cards, now)
    ensures forall n' :: n' in Emitted(Run(CheckDeadlines(m, cards, now), polls), cards', now') ==>
      KeyOf(n') != KeyOf(n)
  {
    var m1 := CheckDeadlines(m, cards, now);
    var ns := Emitted(m, cards, now);
    var i :| 0 <= i < |ns| && ns[i] == n;
    assert KeyOf(n) in KeysOf(ns);
    RunMonotone(m1, polls);
    EmittedSound(Run(m1, polls), cards', now');
  }

  /** The key only suppresses repeats inside one minute bucket: a card that
      fired at `now` and is still inside a window one minute later fires again
      at that poll, unless the next bucket was already shown. */
  lemma RefiresNextMinute(m: Monitor, c: Card, now: int)
    requires IsActive(c, now)
    requires InThresholdWindow(c.deadline.value - now)
    requires InThresholdWindow(c.deadline.value - now - MINUTE_MS)
    requires KeyFor(c.id, c.deadline.value - now) !in m.shown
    requires KeyFor(c.id, c.deadline.value - now - MINUTE_MS) !in m.shown
    ensures Emitted(m, [c], now) == [MakeNotification(c, c.deadline.value - now, now)]
    ensures Emitted(CheckDeadlines(m, [c], now), [c], now + MINUTE_MS)
         == [MakeNotification(c, c.deadline.value - now - MINUTE_MS, now + MINUTE_MS)]
  {
    // The first check: the card passes and its key is recorded.
    FiresAlone(m, c, now);
    RecordsItsKey(m, c, now);
    FiresNextMinute(m, CheckDeadlines(m, [c], now), c, now);
  }

  /** The second half of `RefiresNextMinute`, for any state whose shown set
      adds only the first call's key. */
  lemma FiresNextMinute(m: Monitor, m1: Monitor, c: Card, now: int)
    requires c.status != DONE && c.deadline.Some?
    requires InThresholdWindow(c.deadline.value - now - MINUTE_MS)
    requires KeyFor(c.id, c.deadline.value - now - MINUTE_MS) !in m.shown
    requires m1.shown == m.shown + {KeyFor(c.id, c.deadline.value - now)}
    ensures Emitted(m1, [c], now + MINUTE_MS)
         == [MakeNotification(c, c.deadline.value - now - MINUTE_MS, now + MINUTE_MS)]
  {
    var t := c.deadline.value - now;
    // One minute later the bucket has moved on by one, so the key is new.
    BucketShift(c.id, t);
    assert c.deadline.value - (now + MINUTE_MS) == t - MINUTE_MS;
    FiresAlone(m1, c, now + MINUTE_MS);
  }

  /** A check on a single considered card that passes emits exactly its notification. */
  lemma FiresAlone(m: Monitor, c: Card, now: int)
    requires IsActive(c, now) && Passes(c, now, m.shown)
    ensures Emitted(m, [c], now) == [MakeNotification(c, c.deadline.value - now, now)]
  {
    ActiveCardsSingleton(c, now);
    BuildSingleton(c, now, m.shown);
  }

  /** A check on a single considered card that passes records exactly its key. */
  lemma RecordsItsKey(m: Monitor, c: Card, now: int)
    requires IsActive(c, now) && Passes(c, now, m.shown)
    ensures CheckDeadlines(m, [c], now).shown == m.shown + {KeyFor(c.id, c.deadline.value - now)}
  {
    FiresAlone(m, c, now);
    KeysOfSingleton(MakeNotification(c, c.deadline.value - now, now));
  }

  lemma KeysOfSingleton(n: Notification)
    ensures KeysOf([n]) == {KeyOf(n)}
  {
    assert [n][0] == n;
  }

  /** When the emitted identifiers are new to the store and distinct, the
      store simply grows by the emitted notifications, in order. */
  lemma {:induction false} AddAllFresh(s: seq<Notification>, ns: seq<Notification>)
    requires UniqueIds(ns)
    requires Ids(s) !! Ids(ns)
    ensures AddAll(s, ns) == s + ns
    decreases |ns|
  {
    if |ns| > 0 {
      var n, rest := ns[0], ns[1..];
      FreshStep(s, ns);
      AddAllFresh(s + [n], rest);
      SplitFirst(s, ns);
    }
  }

  lemma SplitFirst<T>(a: seq<T>, b: seq<T>)
    requires |b| > 0
    ensures (a + [b[0]]) + b[1..] == a + b
  {
    assert b == [b[0]] + b[1..];
  }

  /** One step of `AddAllFresh`: the first add appends and freshness carries over. */
  lemma FreshStep(s: seq<Notification>, ns: seq<Notification>)
    requires |ns| > 0 && UniqueIds(ns) && Ids(s) !! Ids(ns)
    ensures AddAll(s, ns) == AddAll(s + [ns[0]], ns[1..])
    ensures UniqueIds(ns[1..])
    ensures Ids(s + [ns[0]]) !! Ids(ns[1..])
  {
    IdsCons(ns);
    var n, rest := ns[0], ns[1..];
    assert Add(s, n) == s + [n];
    assert UniqueIds(rest) by {
      forall i, j | 0 <= i < j < |rest| ensures rest[i].id != rest[j].id {
        assert rest[i] == ns[i + 1] && rest[j] == ns[j + 1];
      }
    }
  }

  /** Identifiers stay unique in the store across a check. */
  lemma {:induction false} AddAllPreservesUniqueIds(s: seq<Notification>, ns: seq<Notification>)
    requires UniqueIds(s)
    ensures UniqueIds(AddAll(s, ns))
    decreases |ns|
  {
    if |ns| > 0 {
      AddPreservesUniqueIds(s, ns[0]);
      AddAllPreservesUniqueIds(Add(s, ns[0]), ns[1..]);
    }
  }

  /** One poll: the cards fetched and the clock at that moment. */
  datatype Poll = Poll(cards: seq<Card>, now: int)

  /** Successive checks, each on the state the previous one left. */
  function Run(m: Monitor, polls: seq<Poll>): Monitor
    decreases |polls|
  {
    if |polls| == 0 then m
    else Run(CheckDeadlines(m, polls[0].cards, polls[0].now), polls[1..])
  }

  /** Over any run the shown set only grows and the store never loses an
      identifier: nothing but dismissal removes a notification. */
  lemma {:induction false} RunMonotone(m: Monitor, polls: seq<Poll>)
    ensures m.shown <= Run(m, polls).shown
    ensures Ids(m.notifications) <= Ids(Run(m, polls).notifications)
    decreases |polls|
  {
    if |polls| > 0 {
      CheckDeadlinesUpdates(m, polls[0].cards, polls[0].now);
      RunMonotone(CheckDeadlines(m, polls[0].cards, polls[0].now), polls[1..]);
    }
  }
}
