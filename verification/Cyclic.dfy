/** Arithmetic of counters kept modulo a power of two or modulo a buffer size. */
module Cyclic {
  import opened Powers

  function Next(x: nat, n: nat): nat {
    if x + 1 == n then 0 else x + 1
  }

  lemma ModStep(q: nat, r: nat, n: nat)
    requires r < n
    ensures (n * q + r) % n == r
  {
    SplitUnique(n * q + r, n, q, r);
  }

  lemma SmallMod(x: nat, n: nat)
    requires x < n
    ensures x % n == x
  {
    ModStep(0, x, n);
  }

  lemma ModAddN(a: nat, n: nat)
    requires n > 0
    ensures (a + n) % n == a % n
  {
    Split(a, n);
    assert (a / n + 1) * n == (a / n) * n + n;
    SplitUnique(a + n, n, a / n + 1, a % n);
  }

  /** Moving by less than a lap either stays in the lap or wraps once. */
  lemma ModShift(a: nat, d: nat, n: nat)
    requires d < n
    ensures (a + d) % n == if a % n + d < n then a % n + d else a % n + d - n
  {
    var q, r := a / n, a % n;
    assert a == n * q + r;
    if r + d < n {
      ModStep(q, r + d, n);
    } else {
      assert n * q + r + d == n * (q + 1) + (r + d - n);
      ModStep(q + 1, r + d - n, n);
    }
  }

  lemma ModNext(a: nat, n: nat)
    requires n > 1
    ensures (a + 1) % n == Next(a % n, n)
  {
    ModShift(a, 1, n);
  }

  /** Within one lap, equal residues mean equal positions. */
  lemma ModInjective(a: nat, b: nat, n: nat)
    requires a <= b < a + n
    ensures a % n == b % n <==> a == b
  {
    ModShift(a, b - a, n);
  }

  /** cyclic_mask: the positions from `lo` up to `hi`, wrapping past the end. */
  predicate InCyclic(x: nat, lo: nat, hi: nat) {
    if lo <= hi then lo <= x <= hi else lo <= x || x <= hi
  }

  /** Seen from a window starting at `tail`, the cyclic range from t+1 to tail-1 holds exactly
      the positions above t. */
  lemma CyclicSuffix(tail: nat, t: nat, x: nat, n: nat)
    requires n > 1 && tail <= t < tail + n - 1 && tail <= x < tail + n
    ensures InCyclic(x % n, (t + 1) % n, (tail + n - 1) % n) <==> x > t
  {
    ModShift(tail, x - tail, n);
    ModShift(tail, t + 1 - tail, n);
    ModShift(tail, n - 1, n);
  }
}
