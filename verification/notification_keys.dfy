/**
  The string forms the provider really builds: the shown-set key
  `${cardId}-${bucket}` and the notification identifier `${cardId}-${Date.now()}`.
  The rest of the model uses the pairs; this module shows that the string
  key tells pairs apart whenever the bucket is non-negative, which is the
  case for every key that is ever recorded, and that it does not for
  negative buckets.
 */
module NotificationKeys {
  import opened DeadlineRules
  import opened NotificationStore
  import opened DeadlineCheck

  function DigitChar(d: int): (c: char)
    requires 0 <= d < 10
    ensures '0' <= c <= '9'
  {
    ('0' as int + d) as char
  }

  /** Decimal digits of a natural number, without leading zeros. */
  function NatToString(n: nat): (s: string)
    ensures |s| >= 1
    ensures forall i :: 0 <= i < |s| ==> '0' <= s[i] <= '9'
    ensures n >= 10 ==> |s| >= 2
    decreases n
  {
    if n < 10 then [DigitChar(n)] else NatToString(n / 10) + [DigitChar(n % 10)]
  }

  /** An integer as a template literal prints it. */
  function IntToString(i: int): string {
    if i < 0 then "-" + NatToString(-i) else NatToString(i)
  }

  /** The shown-set key as written: `${cardId}-${bucket}`. */
  function KeyText(k: DedupKey): string {
    k.cardId + "-" + IntToString(k.bucket)
  }

  /** The notification identifier as written: `${card.id}-${Date.now()}`. */
  function IdText(id: NotificationId): string {
    id.cardId + "-" + IntToString(id.issuedAt)
  }

  lemma {:induction false} NatToStringInjective(m: nat, n: nat)
    requires NatToString(m) == NatToString(n)
    ensures m == n
    decreases m
  {
    var sm, sn := NatToString(m), NatToString(n);
    if m >= 10 && n >= 10 {
      var pm, pn := NatToString(m / 10), NatToString(n / 10);
      assert sm == pm + [DigitChar(m % 10)];
      assert sn == pn + [DigitChar(n % 10)];
      assert sm[|sm| - 1] == DigitChar(m % 10) && sn[|sn| - 1] == DigitChar(n % 10);
      assert pm == sm[..|sm| - 1] && pn == sn[..|sn| - 1];
      NatToStringInjective(m / 10, n / 10);
    } else if m < 10 && n < 10 {
      assert sm[0] == DigitChar(m) && sn[0] == DigitChar(n);
    }
  }

  /** `prefix + "-" + digits` determines both parts when `digits` holds no '-'. */
  lemma {:induction false} SplitAtLastDash(a: string, da: string, b: string, db: string)
    requires forall i :: 0 <= i < |da| ==> '0' <= da[i] <= '9'
    requires forall i :: 0 <= i < |db| ==> '0' <= db[i] <= '9'
    requires a + "-" + da == b + "-" + db
    ensures a == b && da == db
  {
    var s := a + "-" + da;
    var t := b + "-" + db;
    // A shorter digit string would put the other side's dash among digits.
    // The dash before the digits is the last dash of the string on both sides.
    assert s[|s| - |da| - 1] == '-' && t[|t| - |db| - 1] == '-';
    assert forall i :: |s| - |da| <= i < |s| ==> s[i] == da[i - (|s| - |da|)];
    assert forall i :: |t| - |db| <= i < |t| ==> t[i] == db[i - (|t| - |db|)];
    assert |da| == |db|;
    assert a == s[..|a|] && b == t[..|b|];
    assert da == s[|a| + 1..] && db == t[|b| + 1..];
  }

  /** The string key tells keys apart when both buckets are non-negative. */
  lemma KeyTextInjective(k1: DedupKey, k2: DedupKey)
    requires k1.bucket >= 0 && k2.bucket >= 0
    requires KeyText(k1) == KeyText(k2)
    ensures k1 == k2
  {
    SplitAtLastDash(k1.cardId, NatToString(k1.bucket), k2.cardId, NatToString(k2.bucket));
    NatToStringInjective(k1.bucket, k2.bucket);
  }

  /** The identifier string tells notifications apart for non-negative clocks. */
  lemma IdTextInjective(i1: NotificationId, i2: NotificationId)
    requires i1.issuedAt >= 0 && i2.issuedAt >= 0
    requires IdText(i1) == IdText(i2)
    ensures i1 == i2
  {
    SplitAtLastDash(i1.cardId, NatToString(i1.issuedAt), i2.cardId, NatToString(i2.issuedAt));
    NatToStringInjective(i1.issuedAt, i2.issuedAt);
  }

  /** With a negative bucket the string key collides: card "a" one minute
      overdue and card "a-" one minute ahead share the key "a--1". */
  lemma KeyTextCollidesOnNegativeBucket()
    ensures KeyText(DedupKey("a", -1)) == KeyText(DedupKey("a-", 1))
    ensures DedupKey("a", -1) != DedupKey("a-", 1)
  {
    assert NatToString(1) == "1";
  }

  function KeyTexts(shown: set<DedupKey>): set<string> {
    set k | k in shown :: KeyText(k)
  }

  /** On a shown set whose buckets are all non-negative, testing the string key
      and testing the pair agree. */
  lemma TextMembershipAgrees(shown: set<DedupKey>, k: DedupKey)
    requires forall x :: x in shown ==> x.bucket >= 0
    requires k.bucket >= 0
    ensures KeyText(k) in KeyTexts(shown) <==> k in shown
  {
    if KeyText(k) in KeyTexts(shown) {
      var x :| x in shown && KeyText(x) == KeyText(k);
      KeyTextInjective(x, k);
    }
  }

  /** Every shown set reachable from the empty one through checks holds only
      non-negative buckets, so the pair model and the string keys agree on it. */
  lemma {:induction false} RunKeepsBucketsNonNegative(m: Monitor, polls: seq<Poll>)
    requires forall x :: x in m.shown ==> x.bucket >= 0
    ensures forall x :: x in Run(m, polls).shown ==> x.bucket >= 0
    decreases |polls|
  {
    if |polls| > 0 {
      CheckDeadlinesUpdates(m, polls[0].cards, polls[0].now);
      RunKeepsBucketsNonNegative(CheckDeadlines(m, polls[0].cards, polls[0].now), polls[1..]);
    }
  }
}
