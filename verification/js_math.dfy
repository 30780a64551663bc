/**
  Integer arithmetic as the JavaScript sources use it (`%` truncating toward
  zero, `Math.floor` of a quotient by a positive divisor), and the small
  facts about multiplication and division the proofs need.
 */
module JsMath {

  /** JavaScript's `a % d` for a positive divisor: truncates toward zero, so the
      remainder takes the sign of `a` (Dafny's `%` never goes negative). */
  function JsRem(a: int, d: int): (r: int)
    requires d > 0
    ensures -d < r < d
    ensures 0 <= a ==> 0 <= r
    ensures a <= 0 ==> r <= 0
    ensures (a - r) % d == 0
  {
    if a >= 0 then
      DivUnique(a - a % d, d, a / d, 0);
      a % d
    else
      var q := (-a) / d;
      assert a + (-a) % d == d * (-q);
      DivUnique(d * (-q), d, -q, 0);
      -((-a) % d)
  }

  /** A positive factor of at least one does not shrink a positive number. */
  lemma MulAtLeast(n: int, k: int)
    requires n > 0 && k >= 1
    ensures n * k >= n
  {
    var j := k - 1;
    assert n * k == n + n * j;
    assert n * j >= 0;
  }

  /** Dividing by `a` and then by `b` (both positive, floor division) is dividing by `a * b`. */
  lemma DivDiv(t: int, a: int, b: int)
    requires a > 0 && b > 0
    ensures (t / a) / b == t / (a * b)
  {
    var h, r1 := t / a, t % a;
    var d, s := h / b, h % b;
    assert t == a * h + r1;
    assert h == b * d + s;
    MulRegroup(a, b, d, s);
    MulBelow(a, s, b);
    DivUnique(t, a * b, d, a * s + r1);
  }

  /** `a * (b * d + s)` regrouped around `a * b`. */
  lemma MulRegroup(a: int, b: int, d: int, s: int)
    ensures a * (b * d + s) == (a * b) * d + a * s
  {
  }

  /** With `0 <= s < b`, the multiple `a * s` of a positive `a` leaves room for
      a remainder below `a`: `a * s + a <= a * b`. */
  lemma MulBelow(a: int, s: int, b: int)
    requires a > 0 && 0 <= s < b
    ensures 0 <= a * s
    ensures a * s + a <= a * b
  {
    assert a * b == a * s + a * (b - s);
    MulAtLeast(a, b - s);
  }

  /** Floor division is determined by the quotient/remainder decomposition. */
  lemma DivUnique(t: int, n: int, q: int, r: int)
    requires n > 0 && 0 <= r < n && t == n * q + r
    ensures t / n == q
    ensures t % n == r
  {
    var q0, r0 := t / n, t % n;
    assert n * q0 + r0 == n * q + r;
    if q > q0 {
      assert n * q == n * q0 + n * (q - q0);
      MulAtLeast(n, q - q0);
    } else if q < q0 {
      assert n * q0 == n * q + n * (q0 - q);
      MulAtLeast(n, q0 - q);
    }
  }

  /** Cancelling a positive factor from an inequality. */
  lemma ScaleCancel(t: int, a: int, b: int)
    requires t > 0
    ensures t * a <= t * b ==> a <= b
    ensures t * a < t * b ==> a < b
  {
    if a > b {
      assert t * a - t * b == t * (a - b);
      assert t * (a - b) >= t by { MulAtLeast(t, a - b); }
    }
  }

}
