/** Remainders, for round-robin counters and ring positions. */
module Modulo {

  lemma ModOf(k: int, n: int, q: int, r: int)
    requires n > 0 && k == q * n + r && 0 <= r < n
    ensures k % n == r
  {
    var d := k / n - q;
    assert k == (k / n) * n + k % n;
    assert d * n == r - k % n by {
      assert (k / n - q) * n == (k / n) * n - q * n;
    }
    Multiple(d, n);
  }

  lemma Multiple(d: int, n: int)
    requires n > 0
    ensures d >= 1 ==> d * n >= n
    ensures d <= -1 ==> d * n <= -n
  {
  }

  lemma ModShift(k: int, n: int)
    requires n > 0
    ensures (k + n) % n == k % n
  {
    ModOf(k + n, n, k / n + 1, k % n);
  }

  lemma ModInner(k: int, i: int, n: int)
    requires n > 0
    ensures (k % n + i) % n == (k + i) % n
  {
    var r := k % n + i;
    ModOf(k + i, n, k / n + r / n, r % n);
  }

  lemma ModApart(a: int, b: int, n: int)
    requires n > 0 && a < b < a + n
    ensures a % n != b % n
  {
    var r := a % n + (b - a);
    if r < n {
      ModOf(b, n, a / n, r);
    } else {
      ModOf(b, n, a / n + 1, r - n);
    }
  }

  /** Advancing a position round a ring of `n`. */
  lemma NextRound(p: int, n: int)
    requires 0 <= p < n
    ensures (p + 1) % n == if p + 1 == n then 0 else p + 1
  {
    ModOf(p + 1, n, if p + 1 == n then 1 else 0, if p + 1 == n then 0 else p + 1);
  }
}
