/**
  The ordered store of deadline notifications: `addNotification` replaces
  entries in place or appends, `dismissNotification` filters entries out.
  Display order is the order of the sequence.
 */
module NotificationStore {
  import opened Cards
  import opened DeadlineRules

  /** A notification is identified by its card and the instant it was issued. */
  datatype NotificationId = NotificationId(cardId: string, issuedAt: int)

  datatype Notification = Notification(
    id: NotificationId,
    card: Card,                // snapshot of the card at emission
    timeUntilDeadline: int,    // milliseconds, at emission
    priority: Priority,
    message: Message,
    isShown: bool
  )

  /** The identifiers present in a store. */
  function Ids(s: seq<Notification>): set<NotificationId> {
    set i | 0 <= i < |s| :: s[i].id
  }

  /** How many entries of `s` carry identifier `id`. */
  function CountId(s: seq<Notification>, id: NotificationId): nat {
    if |s| == 0 then 0
    else (if s[0].id == id then 1 else 0) + CountId(s[1..], id)
  }

  predicate UniqueIds(s: seq<Notification>) {
    forall i, j :: 0 <= i < j < |s| ==> s[i].id != s[j].id
  }

  lemma {:induction false} IdsCons(s: seq<Notification>)
    requires |s| > 0
    ensures Ids(s) == {s[0].id} + Ids(s[1..])
  {
    forall x | x in Ids(s) ensures x in {s[0].id} + Ids(s[1..]) {
      var i :| 0 <= i < |s| && s[i].id == x;
      if i > 0 { assert s[1..][i - 1].id == x; }
    }
    forall x | x in Ids(s[1..]) ensures x in Ids(s) {
      var i :| 0 <= i < |s[1..]| && s[1..][i].id == x;
      assert s[i + 1].id == x;
    }
  }

  lemma {:induction false} CountIdPositive(s: seq<Notification>, id: NotificationId)
    ensures CountId(s, id) > 0 <==> id in Ids(s)
    decreases |s|
  {
    if |s| > 0 {
      IdsCons(s);
      CountIdPositive(s[1..], id);
    }
  }

  // ---------------------------------------------------------------------------
  // dismissNotification
  // ---------------------------------------------------------------------------

  /** Keeps, in order, every entry whose identifier differs from `id`. */
  function Dismiss(s: seq<Notification>, id: NotificationId): (r: seq<Notification>)
    ensures forall n :: n in r <==> n in s && n.id != id
    ensures id !in Ids(r)
    ensures |r| == |s| - CountId(s, id)
    ensures id !in Ids(s) ==> r == s
    decreases |s|
  {
    if |s| == 0 then []
    else
      IdsCons(s);
      var rest := Dismiss(s[1..], id);
      if s[0].id == id then rest
      else
        assert s == [s[0]] + s[1..];
        IdsCons([s[0]] + rest);
        [s[0]] + rest
  }

  /** A single entry is kept exactly when its identifier differs from `id`. */
  lemma DismissSingleton(n: Notification, id: NotificationId)
    ensures Dismiss([n], id) == (if n.id == id then [] else [n])
  {
    assert [n][1..] == [];
  }

  /** Dismissal distributes over concatenation, so it keeps the relative order of
      what it keeps: together with `DismissSingleton` it pins the result down. */
  lemma {:induction false} DismissAppend(a: seq<Notification>, b: seq<Notification>, id: NotificationId)
    ensures Dismiss(a + b, id) == Dismiss(a, id) + Dismiss(b, id)
    decreases |a|
  {
    if |a| > 0 {
      var ab := a + b;
      assert ab[0] == a[0];
      assert ab[1..] == a[1..] + b;
      DismissAppend(a[1..], b, id);
      if a[0].id == id {
        assert Dismiss(ab, id) == Dismiss(ab[1..], id);
        assert Dismiss(a, id) == Dismiss(a[1..], id);
      } else {
        assert Dismiss(ab, id) == [a[0]] + Dismiss(ab[1..], id);
        assert Dismiss(a, id) == [a[0]] + Dismiss(a[1..], id);
      }
    } else {
      assert a + b == b;
    }
  }

  /** Dismissing twice is dismissing once. */
  lemma DismissIdempotent(s: seq<Notification>, id: NotificationId)
    ensures Dismiss(Dismiss(s, id), id) == Dismiss(s, id)
  {
  }

  /** Dismissing one identifier leaves every other identifier's entries as they were. */
  lemma {:induction false} DismissKeepsOthers(s: seq<Notification>, id: NotificationId, other: NotificationId)
    requires other != id
    ensures CountId(Dismiss(s, id), other) == CountId(s, other)
    decreases |s|
  {
    if |s| > 0 {
      DismissKeepsOthers(s[1..], id, other);
    }
  }

  // ---------------------------------------------------------------------------
  // addNotification
  // ---------------------------------------------------------------------------

  /** Every entry carrying `n.id` replaced by `n`, positions unchanged. */
  function ReplaceById(s: seq<Notification>, n: Notification): (r: seq<Notification>)
    ensures |r| == |s|
  {
    seq(|s|, i requires 0 <= i < |s| => if s[i].id == n.id then n else s[i])
  }

  /** Replace in place when the identifier is already stored, otherwise append. */
  function Add(s: seq<Notification>, n: Notification): (r: seq<Notification>)
    ensures n in r
    ensures Ids(r) == Ids(s) + {n.id}
    ensures n.id !in Ids(s) ==> r == s + [n]
    ensures n.id in Ids(s) ==> |r| == |s|
    ensures forall i :: 0 <= i < |s| && s[i].id != n.id ==> r[i] == s[i]
    ensures forall i :: 0 <= i < |s| && s[i].id == n.id ==> r[i] == n
    ensures forall i :: 0 <= i < |r| && r[i].id == n.id ==> r[i] == n
  {
    if n.id in Ids(s) then
      var r := ReplaceById(s, n);
      var i :| 0 <= i < |s| && s[i].id == n.id;
      assert r[i] == n;
      assert Ids(r) == Ids(s) by {
        forall x | x in Ids(s) ensures x in Ids(r) {
          var j :| 0 <= j < |s| && s[j].id == x;
          assert r[j].id == x;
        }
      }
      r
    else
      assert (s + [n])[|s|] == n;
      assert Ids(s + [n]) == Ids(s) + {n.id} by {
        forall x | x in Ids(s) ensures x in Ids(s + [n]) {
          var j :| 0 <= j < |s| && s[j].id == x;
          assert (s + [n])[j].id == x;
        }
      }
      s + [n]
  }

  /** Adding keeps identifiers unique. */
  lemma AddPreservesUniqueIds(s: seq<Notification>, n: Notification)
    requires UniqueIds(s)
    ensures UniqueIds(Add(s, n))
  {
  }

  /** Adding the same identifier twice leaves the second notification and
      nothing else changed, in the position the identifier first took. */
  lemma AddTwice(s: seq<Notification>, n1: Notification, n2: Notification)
    requires n1.id == n2.id
    ensures Add(Add(s, n1), n2) == Add(s, n2)
  {
    var a1 := Add(s, n1);
    if n1.id in Ids(s) {
      assert Add(a1, n2) == Add(s, n2);
    } else {
      assert a1 == s + [n1];
      assert Add(a1, n2) == s + [n2];
    }
  }

  /** A fresh identifier occurs exactly once after two adds under it. */
  lemma {:induction false} AddTwiceSingleEntry(s: seq<Notification>, n1: Notification, n2: Notification)
    requires n1.id == n2.id && n1.id !in Ids(s)
    ensures CountId(Add(Add(s, n1), n2), n2.id) == 1
  {
    AddTwice(s, n1, n2);
    CountIdAppend(s, [n2], n2.id);
    CountIdPositive(s, n2.id);
    assert [n2][1..] == [];
  }

  lemma {:induction false} CountIdAppend(a: seq<Notification>, b: seq<Notification>, id: NotificationId)
    ensures CountId(a + b, id) == CountId(a, id) + CountId(b, id)
    decreases |a|
  {
    if |a| > 0 {
      assert (a + b)[1..] == a[1..] + b;
      CountIdAppend(a[1..], b, id);
    } else {
      assert a + b == b;
    }
  }

  /** Dismissing what was just added undoes the add when the identifier was
      fresh; in general it is the same as dismissing from the old store. */
  lemma DismissAfterAdd(s: seq<Notification>, n: Notification)
    ensures Dismiss(Add(s, n), n.id) == Dismiss(s, n.id)
    ensures n.id !in Ids(s) ==> Dismiss(Add(s, n), n.id) == s
  {
    if n.id in Ids(s) {
      ReplaceThenDismiss(s, n);
    } else {
      DismissAppend(s, [n], n.id);
      DismissSingleton(n, n.id);
    }
  }

  lemma {:induction false} ReplaceThenDismiss(s: seq<Notification>, n: Notification)
    ensures Dismiss(ReplaceById(s, n), n.id) == Dismiss(s, n.id)
    decreases |s|
  {
    if |s| > 0 {
      var r := ReplaceById(s, n);
      assert |r| > 0;
      assert r[0] == (if s[0].id == n.id then n else s[0]);
      assert r[1..] == ReplaceById(s[1..], n);
      ReplaceThenDismiss(s[1..], n);
    }
  }
}
