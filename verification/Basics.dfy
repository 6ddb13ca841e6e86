/** What several of the driver's files share: octets, the clock comparison, and sequences without
    repetition. */
module Basics {
  type u8 = x: int | 0 <= x < 256

  // Clocks are unsigned long; RTMP_TIME_AFTER looks at the sign of the wrapped difference.
  const ULONG_SPACE := 0x1_0000_0000_0000_0000

  predicate TimeAfter(a: nat, b: nat) {
    (b - a) % ULONG_SPACE >= ULONG_SPACE / 2
  }

  ghost predicate Distinct<T>(s: seq<T>) {
    forall i, j :: 0 <= i < j < |s| ==> s[i] != s[j]
  }

  /** Quotient and remainder, from the equation that defines them. */
  lemma DivIs(x: int, a: nat, q: int, r: nat)
    requires a > 0 && x == q * a + r && r < a
    ensures x / a == q && x % a == r
  {
    var d := x / a - q;
    assert a * d == r - x % a;
    MulSign(a, d);
  }

  lemma MulSign(a: int, d: int)
    requires a >= 0
    ensures d >= 1 ==> a * d >= a
    ensures d <= -1 ==> a * d <= -a
  {
  }

  /** Counting on in a register of a values. */
  lemma NextRemainder(i: nat, a: nat)
    requires a > 1
    ensures (i % a + 1) % a == (i + 1) % a
  {
    var q, r := i / a, i % a;
    assert i == q * a + r;
    if r < a - 1 {
      DivIs(i + 1, a, q, r + 1);
      DivIs(r + 1, a, 0, r + 1);
    } else {
      assert (q + 1) * a == q * a + a;
      DivIs(i + 1, a, q + 1, 0);
      DivIs(a, a, 1, 0);
    }
  }

  /** The clock comparison in elapsed ticks: `now` is after `at` plus a time-out exactly when more
      ticks than that have gone by, on a clock that wraps at 2^64, as long as no more than half of
      its range has and the time-out is shorter than a quarter. */
  lemma AfterMeans(now: nat, at: nat, wait: nat)
    requires wait < 0x4000_0000_0000_0000
    requires (now - at) % 0x1_0000_0000_0000_0000 <= 0x8000_0000_0000_0000
    ensures TimeAfter(now, at + wait) <==> (now - at) % 0x1_0000_0000_0000_0000 > wait
  {
    var e, q := (now - at) % 0x1_0000_0000_0000_0000, (now - at) / 0x1_0000_0000_0000_0000;
    assert at + wait - now == 0x1_0000_0000_0000_0000 * -q + (wait - e);
    if e > wait {
      ClockIs(at + wait - now, -q - 1, wait - e + 0x1_0000_0000_0000_0000);
    } else {
      ClockIs(at + wait - now, -q, wait - e);
    }
  }

  lemma ClockIs(x: int, q: int, r: int)
    requires x == 0x1_0000_0000_0000_0000 * q + r && 0 <= r < 0x1_0000_0000_0000_0000
    ensures x % ULONG_SPACE == r
  {
  }
}
