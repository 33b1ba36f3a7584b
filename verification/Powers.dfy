/** Powers of two, the weights of bit positions. */
module Powers {

  function Pow2(k: nat): (r: nat)
    ensures r > 0
  {
    if k == 0 then 1 else 2 * Pow2(k - 1)
  }

  function Quot(x: nat, d: nat): nat
    requires d > 0
  {
    x / d
  }

  lemma Reassociate(a: nat, b: nat, c: nat)
    ensures a * (b * c) == (a * b) * c
  {
  }

  lemma {:induction false} Pow2Add(a: nat, b: nat)
    ensures Pow2(a + b) == Pow2(a) * Pow2(b)
  {
    if a > 0 {
      Pow2Add(a - 1, b);
      Reassociate(2, Pow2(a - 1), Pow2(b));
    }
  }

  lemma {:induction false} Pow2Mono(a: nat, b: nat)
    requires a <= b
    ensures Pow2(a) <= Pow2(b)
  {
    if a < b { Pow2Mono(a, b - 1); }
  }

  lemma ScaleMono(a: nat, b: nat, w: nat)
    requires a <= b
    ensures a * w <= b * w
  {
  }

  lemma BelowScaled(x: nat, bound: nat, w: nat, rest: nat)
    requires x < bound && rest < w
    ensures x * w + rest < bound * w
  {
    assert x * w + w == (x + 1) * w <= bound * w;
  }

  /** Splitting a number at a weight is unique. */
  lemma SplitUnique(x: nat, w: nat, high: nat, low: nat)
    requires w > 0 && x == high * w + low && low < w
    ensures x / w == high && x % w == low
  {
    var q, r := x / w, x % w;
    assert x == q * w + r;
    if q < high { ScaleMono(q + 1, high, w); }
    if q > high { ScaleMono(high + 1, q, w); }
  }

  lemma Split(x: nat, w: nat)
    requires w > 0
    ensures x == (x / w) * w + x % w && x % w < w
  {
  }

  lemma SplitBelow(x: nat, a: nat, w: nat)
    requires w > 0 && x < a * w
    ensures x / w < a
  {
    Split(x, w);
    var q := x / w;
    if q >= a { ScaleMono(a, q, w); }
  }
}
