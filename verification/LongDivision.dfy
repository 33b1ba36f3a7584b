/** The multi-step long divider: a combinational array that produces a few quotient bits, reused
    over several clock cycles, with a shorter last stage when the width is not a multiple. */
module LongDivision {
  import opened Powers

  datatype Out = Out(quotient: nat, remainder: nat, partial: nat)

  function Bit(x: nat, i: nat): (b: nat)
    ensures b < 2
  {
    (x / Pow2(i)) % 2
  }

  /** The bits of `x` from position `k` up. */
  function Lead(x: nat, k: nat): nat {
    Quot(x, Pow2(k))
  }

  /** The next dividend bit shifted into the remainder, kept to `size` bits. */
  function Concat(size: nat, r: nat, bit: nat): nat {
    (2 * r + bit) % Pow2(size)
  }

  /** `steps` chained compare-and-subtract cells. `part` counts down to the cell whose incoming
      remainder is also brought out. */
  function Array(steps: nat, size: nat, dividend: nat, divisor: nat, r: nat, part: int): Out
    decreases steps
  {
    if steps == 0 then Out(0, r, r)
    else
      var concat := Concat(size, r, Bit(dividend, steps - 1));
      var hit := concat >= divisor;
      var rest := Array(steps - 1, size, dividend, divisor,
                        Subtracted(concat, divisor), part - 1);
      Out((if hit then Pow2(steps - 1) else 0) + rest.quotient, rest.remainder,
          if part == 0 then r else rest.partial)
  }

  /** What `n` steps owe: the remainder extended by the `n` dividend bits is split by the divisor.
      A zero divisor always "fits", so it yields all ones and an untouched remainder. */
  ghost predicate Divides(n: nat, value: nat, divisor: nat, quotient: nat, remainder: nat) {
    && value == quotient * divisor + remainder
    && quotient < Pow2(n)
    && (divisor > 0 ==> remainder < divisor)
    && (divisor == 0 ==> quotient == Pow2(n) - 1)
  }

  lemma LowBits(x: nat, n: nat)
    requires n > 0
    ensures x % Pow2(n) == Bit(x, n - 1) * Pow2(n - 1) + x % Pow2(n - 1)
  {
    HalfWeight(x, Pow2(n - 1));
  }

  lemma HalfWeight(x: nat, w: nat)
    requires w > 0
    ensures x % (2 * w) == ((x / w) % 2) * w + x % w
  {
    var q: nat := x / w;
    Split(x, w);
    Split(q, 2);
    assert x == (q / 2) * (2 * w) + ((q % 2) * w + x % w);
    BelowScaled(q % 2, 2, w, x % w);
    SplitUnique(x, 2 * w, q / 2, (q % 2) * w + x % w);
  }

  function Subtracted(c: nat, divisor: nat): nat {
    if c >= divisor then c - divisor else c
  }

  lemma ShiftedIn(r: nat, w: nat, bit: nat, low: nat)
    requires w > 0
    ensures r * (2 * w) + (bit * w + low) == (2 * r + bit) * w + low
    ensures 2 * r + bit <= (2 * r + bit) * w + low
  {
    ScaleMono(1, w, 2 * r + bit);
  }

  lemma OneCell(n: nat, c: nat, low: nat, divisor: nat, q: nat, r: nat)
    requires n > 0
    requires Divides(n - 1, Subtracted(c, divisor) * Pow2(n - 1) + low, divisor, q, r)
    ensures Divides(n, c * Pow2(n - 1) + low, divisor, (if c >= divisor then Pow2(n - 1) else 0) + q, r)
  {
    var w := Pow2(n - 1);
    if c >= divisor {
      assert (c - divisor) * w == c * w - divisor * w;
      assert (w + q) * divisor == divisor * w + q * divisor;
    }
  }

  /** The array is exact as long as remainder and consumed bits fit the word: then the truncation
      of the concatenation drops nothing. */
  lemma {:induction false} ArrayExact(steps: nat, size: nat, dividend: nat, divisor: nat, r: nat, part: int)
    requires divisor > 0 ==> r < divisor
    requires r * Pow2(steps) + dividend % Pow2(steps) < Pow2(size)
    ensures var o := Array(steps, size, dividend, divisor, r, part);
            Divides(steps, r * Pow2(steps) + dividend % Pow2(steps), divisor, o.quotient, o.remainder)
    decreases steps
  {
    if steps == 0 { return; }
    var w := Pow2(steps - 1);
    var low := dividend % w;
    var bit := Bit(dividend, steps - 1);
    var c := 2 * r + bit;
    LowBits(dividend, steps);
    ShiftedIn(r, w, bit, low);
    var value := c * w + low;
    assert value == r * Pow2(steps) + dividend % Pow2(steps);
    assert Concat(size, r, bit) == c by { SplitUnique(c, Pow2(size), 0, c); }
    var next := Subtracted(c, divisor);
    ScaleMono(next, c, w);
    ArrayExact(steps - 1, size, dividend, divisor, next, part - 1);
    var o := Array(steps - 1, size, dividend, divisor, next, part - 1);
    OneCell(steps, c, low, divisor, o.quotient, o.remainder);
  }

  /** The partial outputs are those of the shorter array over the leading bits: this is what lets
      the same cells serve the last, shorter stage. */
  lemma {:induction false} PartialIsShorter(steps: nat, size: nat, dividend: nat, divisor: nat, r: nat, part: nat)
    requires part <= steps
    ensures var o := Array(steps, size, dividend, divisor, r, part);
            var s := Array(part, size, Lead(dividend, steps - part), divisor, r, part);
            && o.partial == s.remainder
            && Lead(o.quotient, steps - part) == s.quotient
    decreases steps
  {
    if part == 0 {
      QuotientFits(steps, size, dividend, divisor, r, part);
      var q := Array(steps, size, dividend, divisor, r, part).quotient;
      SplitUnique(q, Pow2(steps), 0, q);
    } else {
      hide Bit, Concat, Pow2, Lead;
      LeadingBit(dividend, steps, part);
      var concat := Concat(size, r, Bit(dividend, steps - 1));
      var next := Subtracted(concat, divisor);
      PartialIsShorter(steps - 1, size, dividend, divisor, next, part - 1);
      var inner := Array(steps - 1, size, dividend, divisor, next, part - 1);
      if concat >= divisor { TopQuotientBit(inner.quotient, steps, part); }
    }
  }

  lemma LeadingBit(x: nat, n: nat, part: nat)
    requires 0 < part <= n
    ensures Bit(x, n - 1) == Bit(Lead(x, n - part), part - 1)
  {
    Pow2Add(n - part, part - 1);
    DivDiv(x, Pow2(n - part), Pow2(part - 1));
  }

  lemma TopQuotientBit(q: nat, n: nat, part: nat)
    requires 0 < part <= n
    ensures Lead(Pow2(n - 1) + q, n - part) == Pow2(part - 1) + Lead(q, n - part)
  {
    Pow2Add(n - part, part - 1);
    DivPlus(q, Pow2(n - part), Pow2(part - 1));
  }

  lemma DivPlus(q: nat, w: nat, top: nat)
    requires w > 0
    ensures (w * top + q) / w == top + q / w
  {
    var d := q / w;
    Split(q, w);
    assert (top + d) * w == w * top + d * w;
    SplitUnique(w * top + q, w, top + d, q % w);
  }

  lemma {:induction false} QuotientFits(steps: nat, size: nat, dividend: nat, divisor: nat, r: nat, part: int)
    ensures Array(steps, size, dividend, divisor, r, part).quotient < Pow2(steps)
    decreases steps
  {
    if steps > 0 {
      var concat := Concat(size, r, Bit(dividend, steps - 1));
      QuotientFits(steps - 1, size, dividend, divisor, Subtracted(concat, divisor), part - 1);
    }
  }

  lemma DivDiv(x: nat, a: nat, b: nat)
    requires a > 0 && b > 0
    ensures a * b > 0 && x / (a * b) == (x / a) / b
  {
    Split(x, a);
    var y := x / a;
    Split(y, b);
    assert x == ((y / b) * b + y % b) * a + x % a;
    assert x == (y / b) * (a * b) + ((y % b) * a + x % a);
    BelowScaled(y % b, b, a, x % a);
    SplitUnique(x, a * b, y / b, (y % b) * a + x % a);
  }

  // ---- several stages ----

  /** After `c` dividend bits: the leading `c` bits are divided, the rest sits at the top of the
      shift register. */
  ghost predicate Progress(w: nat, c: nat, x: nat, divisor: nat, dividend: nat, quotient: nat, remainder: nat) {
    && c <= w
    && dividend == (x % Pow2(w - c)) * Pow2(c)
    && Divides(c, Lead(x, w - c), divisor, quotient, remainder)
  }

  lemma NextBits(x: nat, k: nat, n: nat)
    requires n <= k
    ensures var low := x % Pow2(k);
            && Lead(low, k - n) < Pow2(n)
            && Lead(x, k - n) == Lead(x, k) * Pow2(n) + Lead(low, k - n)
            && x % Pow2(k - n) == low % Pow2(k - n)
  {
    hide Pow2;
    var v := Pow2(k - n);
    var low := x % Pow2(k);
    Pow2Add(n, k - n);
    Split(x, Pow2(k));
    SplitBelow(low, Pow2(n), v);
    Split(low, v);
    NextBitsSplit(x, Lead(x, k), Pow2(n), v, Lead(low, k - n), low % v);
  }

  lemma NextBitsSplit(x: nat, high: nat, m: nat, v: nat, mid: nat, low: nat)
    requires v > 0 && low < v && x == high * (m * v) + (mid * v + low)
    ensures x / v == high * m + mid && x % v == low
  {
    assert (high * m + mid) * v == high * (m * v) + mid * v;
    SplitUnique(x, v, high * m + mid, low);
  }

  lemma Chain(c: nat, n: nat, prefix: nat, bits: nat, divisor: nat, q: nat, r: nat, q1: nat, r1: nat)
    requires Divides(c, prefix, divisor, q, r)
    requires Divides(n, r * Pow2(n) + bits, divisor, q1, r1)
    ensures Divides(c + n, prefix * Pow2(n) + bits, divisor, q * Pow2(n) + q1, r1)
  {
    hide Pow2;
    var m, k := Pow2(n), Pow2(c);
    Pow2Add(c, n);
    ScaledSum(q, divisor, r, m, q1);
    BelowScaled(q, k, m, q1);
    if divisor == 0 { assert (k - 1) * m == k * m - m; }
  }

  lemma ScaledSum(q: nat, b: nat, r: nat, m: nat, q1: nat)
    ensures (q * b + r) * m == (q * m) * b + r * m
    ensures (q * m + q1) * b == (q * m) * b + q1 * b
  {
    assert (q * b) * m == (q * m) * b;
  }

  lemma LeadBelow(x: nat, k: nat, m: nat)
    requires x < Pow2(k) * Pow2(m)
    ensures Lead(x, m) < Pow2(k)
  {
    hide Pow2;
    SplitBelow(x, Pow2(k), Pow2(m));
  }

  /** The running remainder never exceeds the consumed prefix, so a stage never overflows. */
  lemma NoOverflow(w: nat, c: nat, n: nat, x: nat, divisor: nat, q: nat, r: nat)
    requires x < Pow2(w) && c + n <= w
    requires Divides(c, Lead(x, w - c), divisor, q, r)
    ensures var bits := Lead(x % Pow2(w - c), w - c - n);
            && r * Pow2(n) + bits <= Lead(x, w - c - n) < Pow2(c + n)
            && r * Pow2(n) + bits < Pow2(w)
  {
    hide Pow2, Lead;
    NextBits(x, w - c, n);
    ScaleMono(r, Lead(x, w - c), Pow2(n));
    Pow2Add(c + n, w - c - n);
    LeadBelow(x, c + n, w - c - n);
    Pow2Mono(c + n, w);
  }

  /** The shift register presents the next `n` bits at its top and shifts them out. */
  lemma ShiftRegister(w: nat, c: nat, n: nat, rest: nat)
    requires c + n <= w && rest < Pow2(w - c)
    ensures Lead(rest * Pow2(c), w - n) == Lead(rest, w - c - n)
    ensures (rest * Pow2(c)) * Pow2(n) % Pow2(w) == (rest % Pow2(w - c - n)) * Pow2(c + n)
  {
    hide Pow2;
    var v, pc, pn := Pow2(w - c - n), Pow2(c), Pow2(n);
    Split(rest, v);
    Pow2Add(w - c - n, c);
    Pow2Add(c, n);
    Pow2Add(w - c - n, c + n);
    Shifted(rest, v, pc, pn, rest / v, rest % v);
    assert Pow2(w) == v * (pc * pn) && Pow2(w - n) == v * pc;
  }

  lemma Shifted(rest: nat, v: nat, pc: nat, pn: nat, top: nat, low: nat)
    requires v > 0 && pc > 0 && pn > 0 && rest == top * v + low && low < v
    ensures (rest * pc) / (v * pc) == top
    ensures (rest * pc) * pn % (v * (pc * pn)) == low * (pc * pn)
  {
    BelowScaled(low, v, pc, 0);
    assert rest * pc == top * (v * pc) + low * pc;
    SplitUnique(rest * pc, v * pc, top, low * pc);
    var pp := pc * pn;
    BelowScaled(low, v, pp, 0);
    assert (rest * pc) * pn == rest * pp == top * (v * pp) + low * pp;
    SplitUnique((rest * pc) * pn, v * pp, top, low * pp);
  }

  function NextDividend(w: nat, ipc: nat, dividend: nat): nat {
    (dividend * Pow2(ipc)) % Pow2(w)
  }

  /** `n` new quotient bits enter at the bottom. */
  function NextQuotient(w: nat, n: nat, quotient: nat, bits: nat): nat {
    (quotient * Pow2(n) + bits % Pow2(n)) % Pow2(w)
  }

  lemma QuotientAppends(w: nat, c: nat, n: nat, q: nat, bits: nat)
    requires c + n <= w && q < Pow2(c) && bits < Pow2(n)
    ensures NextQuotient(w, n, q, bits) == q * Pow2(n) + bits
  {
    hide Pow2;
    Pow2Add(c, n);
    Pow2Mono(c + n, w);
    AppendFits(q, Pow2(c), bits, Pow2(n), Pow2(w));
  }

  lemma AppendFits(q: nat, k: nat, bits: nat, m: nat, top: nat)
    requires q < k && bits < m && k * m <= top
    ensures (q * m + bits % m) % top == q * m + bits
  {
    BelowScaled(q, k, m, bits);
    SplitUnique(bits, m, 0, bits);
    SplitUnique(q * m + bits, top, 0, q * m + bits);
  }

  lemma StageExact(w: nat, c: nat, n: nat, x: nat, divisor: nat, dividend: nat, q: nat, r: nat, part: int)
    requires x < Pow2(w) && c + n <= w
    requires Progress(w, c, x, divisor, dividend, q, r)
    ensures var bits := Lead(x % Pow2(w - c), w - c - n);
            var o := Array(n, w, bits, divisor, r, part);
            && bits < Pow2(n)
            && o.quotient < Pow2(n)
            && Divides(c + n, Lead(x, w - c - n), divisor, NextQuotient(w, n, q, o.quotient), o.remainder)
  {
    hide Pow2, Lead, Array, NextQuotient;
    var bits := Lead(x % Pow2(w - c), w - c - n);
    NextBits(x, w - c, n);
    NoOverflow(w, c, n, x, divisor, q, r);
    SplitUnique(bits, Pow2(n), 0, bits);
    ArrayExact(n, w, bits, divisor, r, part);
    var o := Array(n, w, bits, divisor, r, part);
    Chain(c, n, Lead(x, w - c), bits, divisor, q, r, o.quotient, o.remainder);
    QuotientAppends(w, c, n, q, o.quotient);
  }

  /** A full stage consumes `ipc` more bits. */
  lemma FullStage(w: nat, ipc: nat, c: nat, x: nat, divisor: nat, dividend: nat, q: nat, r: nat, part: int)
    requires x < Pow2(w) && c + ipc <= w
    requires Progress(w, c, x, divisor, dividend, q, r)
    ensures var o := Array(ipc, w, Lead(dividend, w - ipc), divisor, r, part);
            Progress(w, c + ipc, x, divisor, NextDividend(w, ipc, dividend),
                     NextQuotient(w, ipc, q, o.quotient), o.remainder)
  {
    hide Pow2, Lead, Array, NextQuotient, Divides;
    Split(x, Pow2(w - c));
    StageExact(w, c, ipc, x, divisor, dividend, q, r, part);
    ShiftRegister(w, c, ipc, x % Pow2(w - c));
    NextBits(x, w - c, ipc);
  }

  /** The short last stage consumes the remaining `part` bits out of the same array. */
  lemma ShortStage(w: nat, ipc: nat, part: nat, x: nat, divisor: nat, dividend: nat, q: nat, r: nat)
    requires x < Pow2(w) && part <= ipc <= w
    requires Progress(w, w - part, x, divisor, dividend, q, r)
    ensures var o := Array(ipc, w, Lead(dividend, w - ipc), divisor, r, part);
            Progress(w, w, x, divisor, NextDividend(w, ipc, dividend),
                     NextQuotient(w, part, q, Lead(o.quotient, ipc - part)), o.partial)
  {
    hide Pow2, Lead, Array, NextQuotient, Divides;
    var c := w - part;
    var rest := x % Pow2(part);
    var top := Lead(dividend, w - ipc);
    StageExact(w, c, part, x, divisor, dividend, q, r, part);
    PartialIsShorter(ipc, w, top, divisor, r, part);
    LastShift(w, ipc, part, rest);
    LeadAll(rest);
    ModOne(x);
  }

  lemma LeadAll(x: nat)
    ensures Lead(x, 0) == x
  {
  }

  lemma ModOne(x: nat)
    ensures x % Pow2(0) == 0
  {
  }

  lemma LastShift(w: nat, ipc: nat, part: nat, rest: nat)
    requires part <= ipc <= w
    ensures Lead(Lead(rest * Pow2(w - part), w - ipc), ipc - part) == rest
    ensures NextDividend(w, ipc, rest * Pow2(w - part)) == 0
  {
    hide Pow2;
    var pp, pi := Pow2(w - part), Pow2(ipc);
    Pow2Add(w - ipc, ipc - part);
    DivDiv(rest * pp, Pow2(w - ipc), Pow2(ipc - part));
    SplitUnique(rest * pp, pp, rest, 0);
    Pow2Add(w - part, part);
    Pow2Add(part, ipc - part);
    var k := rest * Pow2(ipc - part);
    Rescaled(rest, pp, Pow2(part), Pow2(ipc - part));
    SplitUnique(rest * pp * pi, Pow2(w), k, 0);
  }

  lemma Rescaled(a: nat, b: nat, c: nat, d: nat)
    ensures a * b * (c * d) == (a * d) * (b * c)
  {
    assert a * b * (c * d) == a * (b * (c * d)) == a * ((b * c) * d);
    assert (a * d) * (b * c) == a * (d * (b * c));
  }
}
