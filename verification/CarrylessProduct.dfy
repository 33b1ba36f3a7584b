/** Polynomials over GF(2) as bit sequences, least significant bit first, and their product. */
module CarrylessProduct {

  function Xor(a: bool, b: bool): bool {
    a != b
  }

  function At(a: seq<bool>, i: int): bool {
    0 <= i < |a| && a[i]
  }

  function Term(a: seq<bool>, b: seq<bool>, k: int, i: int): bool {
    At(a, i) && At(b, k - i)
  }

  /** The first `m` terms of coefficient `k`. */
  function Sum(a: seq<bool>, b: seq<bool>, k: int, m: int): bool
    decreases m
  {
    if m <= 0 then false else Xor(Sum(a, b, k, m - 1), Term(a, b, k, m - 1))
  }

  /** Coefficient `k` of the product: the sum of a[i] * b[k - i]. */
  function Coef(a: seq<bool>, b: seq<bool>, k: int): bool {
    Sum(a, b, k, k + 1)
  }

  function Product(a: seq<bool>, b: seq<bool>): seq<bool> {
    seq(|a| + |b|, k => Coef(a, b, k))
  }

  predicate Zero(a: seq<bool>) {
    forall i :: 0 <= i < |a| ==> !a[i]
  }

  function Zeros(n: nat): (s: seq<bool>)
    ensures |s| == n && Zero(s)
  {
    seq(n, _ => false)
  }

  /** The positions below `m` that contribute to coefficient `k`. */
  function Pairs(a: seq<bool>, b: seq<bool>, k: int, m: int): set<int> {
    set i | 0 <= i < m && i < |a| && a[i] && 0 <= k - i < |b| && b[k - i]
  }

  lemma {:induction false} SumIsParity(a: seq<bool>, b: seq<bool>, k: int, m: int)
    ensures Sum(a, b, k, m) <==> |Pairs(a, b, k, m)| % 2 == 1
    decreases m
  {
    if m <= 0 {
      assert Pairs(a, b, k, m) == {};
    } else {
      SumIsParity(a, b, k, m - 1);
      if Term(a, b, k, m - 1) {
        assert Pairs(a, b, k, m) == Pairs(a, b, k, m - 1) + {m - 1};
      } else {
        assert Pairs(a, b, k, m) == Pairs(a, b, k, m - 1);
      }
    }
  }

  /** A coefficient of the product is set exactly when an odd number of bit pairs meet in it. */
  lemma CoefIsParity(a: seq<bool>, b: seq<bool>, k: int)
    ensures Coef(a, b, k) <==> |set i | 0 <= i <= k && i < |a| && a[i] && k - i < |b| && b[k - i]| % 2 == 1
  {
    SumIsParity(a, b, k, k + 1);
    assert Pairs(a, b, k, k + 1) == set i | 0 <= i <= k && i < |a| && a[i] && k - i < |b| && b[k - i];
  }

  // ---- sums ----

  lemma {:induction false} SumDead(a: seq<bool>, b: seq<bool>, k: int, m: int, n: int)
    requires m <= n && forall i :: m <= i < n ==> !Term(a, b, k, i)
    ensures Sum(a, b, k, n) == Sum(a, b, k, m)
    decreases n - m
  {
    if m < n && n > 0 { SumDead(a, b, k, m, n - 1); }
  }

  /** Only k + 1 terms can be non-zero. */
  lemma SumTail(a: seq<bool>, b: seq<bool>, k: int, n: int)
    requires k + 1 <= n
    ensures Sum(a, b, k, n) == Coef(a, b, k)
  {
    SumDead(a, b, k, k + 1, n);
  }

  lemma CoefDead(a: seq<bool>, b: seq<bool>, k: int)
    requires k < 0 || k >= |a| + |b| - 1
    ensures !Coef(a, b, k)
  {
    SumDead(a, b, k, if k + 1 < 0 then k + 1 else 0, k + 1);
  }

  lemma {:induction false} SumSplitLeft(a: seq<bool>, b: seq<bool>, h: nat, k: int, m: int)
    requires h <= |a|
    ensures Sum(a, b, k, m) == Xor(Sum(a[..h], b, k, m), Sum(a[h..], b, k - h, m - h))
    decreases m
  {
    if m > 0 { SumSplitLeft(a, b, h, k, m - 1); }
  }

  lemma {:induction false} SumSplitRight(a: seq<bool>, b: seq<bool>, h: nat, k: int, m: int)
    requires h <= |b|
    ensures Sum(a, b, k, m) == Xor(Sum(a, b[..h], k, m), Sum(a, b[h..], k - h, m))
    decreases m
  {
    if m > 0 {
      SumSplitRight(a, b, h, k, m - 1);
      assert At(b, k - m + 1) == Xor(At(b[..h], k - m + 1), At(b[h..], k - h - m + 1));
    }
  }

  lemma CoefSplitLeft(a: seq<bool>, b: seq<bool>, h: nat, k: int)
    requires h <= |a|
    ensures Coef(a, b, k) == Xor(Coef(a[..h], b, k), Coef(a[h..], b, k - h))
  {
    SumSplitLeft(a, b, h, k, k + 1);
  }

  lemma CoefSplitRight(a: seq<bool>, b: seq<bool>, h: nat, k: int)
    requires h <= |b|
    ensures Coef(a, b, k) == Xor(Coef(a, b[..h], k), Coef(a, b[h..], k - h))
  {
    SumSplitRight(a, b, h, k, k + 1);
    SumTail(a, b[h..], k - h, k + 1);
  }

  /** The schoolbook split into halves. */
  lemma Quarters(a: seq<bool>, b: seq<bool>, h: nat, k: int)
    requires h <= |a| && h <= |b|
    ensures Coef(a, b, k) ==
            Xor(Xor(Xor(Coef(a[h..], b[h..], k - 2 * h), Coef(a[..h], b[h..], k - h)),
                    Coef(a[h..], b[..h], k - h)), Coef(a[..h], b[..h], k))
  {
    CoefSplitLeft(a, b, h, k);
    CoefSplitRight(a[..h], b, h, k);
    CoefSplitRight(a[h..], b, h, k - h);
  }

  // ---- shift and add ----

  function ShiftLeft(a: seq<bool>): seq<bool>
    requires |a| > 0
  {
    [false] + a[..|a| - 1]
  }

  function ShiftRight(b: seq<bool>): seq<bool>
    requires |b| > 0
  {
    b[1..] + [false]
  }

  function XorBits(a: seq<bool>, b: seq<bool>): seq<bool>
    requires |a| == |b|
  {
    seq(|a|, i requires 0 <= i < |a| => Xor(a[i], b[i]))
  }

  lemma {:induction false} SumShift(a: seq<bool>, b: seq<bool>, k: int, m: nat)
    requires |a| > 0 && |b| > 0 && k < |a| && m <= k + 1
    ensures m > 0 ==> Sum(ShiftLeft(a), ShiftRight(b), k, m) == Sum(a, b, k, m - 1)
    decreases m
  {
    if m > 0 {
      SumShift(a, b, k, m - 1);
      var i := m - 1;
      assert At(ShiftLeft(a), i) == At(a, i - 1);
      assert i <= k ==> At(ShiftRight(b), k - i) == At(b, k - i + 1);
    }
  }

  /** One step moves the lowest bit of `b` out of the product. */
  lemma ShiftStep(a: seq<bool>, b: seq<bool>, k: int)
    requires |b| > 0 && 0 <= k < |a|
    ensures Coef(a, b, k) == Xor(b[0] && a[k], Coef(ShiftLeft(a), ShiftRight(b), k))
  {
    SumShift(a, b, k, k + 1);
  }

  lemma ZeroFactor(a: seq<bool>, b: seq<bool>, k: int)
    requires Zero(b)
    ensures !Coef(a, b, k)
  {
    SumDead(a, b, k, if k + 1 < 0 then k + 1 else 0, k + 1);
  }

  lemma {:induction false} SumExtend(a: seq<bool>, b: seq<bool>, n: nat, k: int, m: int)
    ensures Sum(a + Zeros(n), b, k, m) == Sum(a, b, k, m)
    decreases m
  {
    if m > 0 { SumExtend(a, b, n, k, m - 1); }
  }

  // ---- reversal ----

  function Reverse(a: seq<bool>): (r: seq<bool>)
    ensures |r| == |a|
  {
    seq(|a|, i requires 0 <= i < |a| => a[|a| - 1 - i])
  }

  function Window(a: seq<bool>, b: seq<bool>, k: int, lo: int, hi: int): bool
    decreases hi - lo
  {
    if lo >= hi then false else Xor(Term(a, b, k, lo), Window(a, b, k, lo + 1, hi))
  }

  lemma {:induction false} WindowExtends(a: seq<bool>, b: seq<bool>, k: int, lo: int, hi: int)
    requires lo <= hi
    ensures Window(a, b, k, lo, hi + 1) == Xor(Window(a, b, k, lo, hi), Term(a, b, k, hi))
    decreases hi - lo
  {
    if lo < hi { WindowExtends(a, b, k, lo + 1, hi); }
  }

  lemma {:induction false} SumIsWindow(a: seq<bool>, b: seq<bool>, k: int, m: nat)
    ensures Sum(a, b, k, m) == Window(a, b, k, 0, m)
  {
    if m > 0 {
      SumIsWindow(a, b, k, m - 1);
      WindowExtends(a, b, k, 0, m - 1);
    }
  }

  lemma {:induction false} WindowSkips(a: seq<bool>, b: seq<bool>, k: int, lo: int, from: int, hi: int)
    requires lo <= from <= hi && forall i :: lo <= i < from ==> !Term(a, b, k, i)
    ensures Window(a, b, k, lo, hi) == Window(a, b, k, from, hi)
    decreases from - lo
  {
    if lo < from { WindowSkips(a, b, k, lo + 1, from, hi); }
  }

  lemma {:induction false} ReversedSum(a: seq<bool>, b: seq<bool>, k: int, m: nat)
    requires |a| == |b| && m <= |a|
    ensures Sum(Reverse(a), Reverse(b), k, m) == Window(a, b, 2 * |a| - 2 - k, |a| - m, |a|)
  {
    if m > 0 {
      ReversedSum(a, b, k, m - 1);
      var n := |a|;
      assert At(Reverse(a), m - 1) == At(a, n - m);
      assert At(Reverse(b), k - (m - 1)) == At(b, (2 * n - 2 - k) - (n - m));
    }
  }

  /** The product of reversed factors is the reversed product. */
  lemma ReversedCoef(a: seq<bool>, b: seq<bool>, k: nat)
    requires |a| == |b| && k < |a|
    ensures Coef(Reverse(a), Reverse(b), k) == Coef(a, b, 2 * |a| - 2 - k)
  {
    var n := |a|;
    var top := 2 * n - 2 - k;
    ReversedSum(a, b, k, k + 1);
    WindowSkips(a, b, top, 0, n - 1 - k, n);
    SumIsWindow(a, b, top, n);
    SumDead(a, b, top, n, top + 1);
  }
}
