/** The division unit: sign handling around the unsigned divider, for the four M-extension
    division operations. */
module DivUnit {
  import opened Powers
  import opened Wrappers
  import opened LongDivision

  datatype Op = Div | Divu | Rem | Remu

  datatype Request = Request(op: Op, s1: nat, s2: nat, imm: nat, robId: nat, rpDst: nat) {
    /** A non-zero immediate replaces the second operand. */
    function Second(): nat {
      if imm != 0 then imm else s2
    }
  }

  datatype Params = Params(robId: nat, rpDst: nat, flip: bool, rem: bool)
  datatype Result = Result(robId: nat, rpDst: nat, value: nat)

  predicate Word(w: nat, x: nat) {
    x < Pow2(w)
  }

  predicate SignBit(w: nat, x: nat)
    requires w > 0
  {
    Bit(x, w - 1) == 1
  }

  function Negate(w: nat, x: nat): (r: nat)
    ensures Word(w, r)
  {
    (0 - x) % Pow2(w)
  }

  function Magnitude(w: nat, x: nat): nat
    requires w > 0
  {
    if SignBit(w, x) then Negate(w, x) else x
  }

  function ParamsOf(w: nat, q: Request): Params
    requires w > 0
  {
    var a, b := SignBit(w, q.s1), SignBit(w, q.Second());
    Params(q.robId, q.rpDst, (q.op.Div? && a != b) || (q.op.Rem? && a), q.op.Rem? || q.op.Remu?)
  }

  function Operand(w: nat, op: Op, x: nat): nat
    requires w > 0
  {
    if op.Div? || op.Rem? then Magnitude(w, x) else x
  }

  /** Negate when asked to, unless the sign bit is already set. */
  function Flip(w: nat, x: nat, flip: bool): nat
    requires w > 0
  {
    if flip && !SignBit(w, x) then Negate(w, x) else x
  }

  function Finish(w: nat, p: Params, quotient: nat, remainder: nat): Result
    requires w > 0
  {
    Result(p.robId, p.rpDst, Flip(w, if p.rem then remainder else quotient, p.flip))
  }

  // ---- what section 7.2 of the RISC-V Unprivileged ISA asks for ----

  function Signed(w: nat, x: nat): int
    requires w > 0
  {
    if x >= Pow2(w - 1) then x - Pow2(w) else x
  }

  function Encode(w: nat, v: int): (r: nat)
    ensures Word(w, r)
  {
    v % Pow2(w)
  }

  function Abs(v: int): nat {
    if v < 0 then -v else v
  }

  /** Unsigned division: by zero it gives all ones and the dividend. */
  function Quotient(w: nat, a: nat, b: nat): nat {
    if b == 0 then Pow2(w) - 1 else a / b
  }

  function Remainder(a: nat, b: nat): nat {
    if b == 0 then a else a % b
  }

  /** Division rounding towards zero. */
  function Truncated(a: int, b: int): int
    requires b != 0
  {
    var q := Abs(a) / Abs(b);
    if (a < 0) == (b < 0) then q else -q
  }

  function TruncatedRem(a: int, b: int): int
    requires b != 0
  {
    a - Truncated(a, b) * b
  }

  function Expected(w: nat, op: Op, a: nat, b: nat): nat
    requires w > 0
  {
    var x, y := Signed(w, a), Signed(w, b);
    var overflow := x == 0 - Pow2(w - 1) && y == -1;
    match op
    case Divu => Quotient(w, a, b)
    case Remu => Remainder(a, b)
    case Div => if y == 0 then Encode(w, -1) else if overflow then Encode(w, x) else Encode(w, Truncated(x, y))
    case Rem => if y == 0 then Encode(w, x) else if overflow then 0 else Encode(w, TruncatedRem(x, y))
  }

  /** The remainder is that of the magnitudes, with the dividend's sign. */
  lemma RemainderValue(a: int, b: int)
    requires b != 0
    ensures TruncatedRem(a, b) == if a < 0 then 0 - Abs(a) % Abs(b) else Abs(a) % Abs(b)
  {
    var x: int, y: int := Abs(a), Abs(b);
    var q: int := x / y;
    Split(x, y);
    Products(q, y);
  }

  lemma Products(q: int, y: int)
    ensures (0 - q) * y == 0 - q * y && (0 - q) * (0 - y) == q * y && q * (0 - y) == 0 - q * y
  {
  }

  /** Rounding towards zero is the division whose remainder is smaller than the divisor and never
      has the sign opposite to the dividend's. */
  lemma TruncatedLaw(a: int, b: int)
    requires b != 0
    ensures a == Truncated(a, b) * b + TruncatedRem(a, b)
    ensures Abs(TruncatedRem(a, b)) == Abs(a) % Abs(b) < Abs(b)
    ensures TruncatedRem(a, b) != 0 ==> (TruncatedRem(a, b) < 0) == (a < 0)
  {
    RemainderValue(a, b);
  }

  // ---- sign handling ----

  lemma SignIsComparison(w: nat, x: nat)
    requires w > 0 && Word(w, x)
    ensures SignBit(w, x) <==> x >= Pow2(w - 1)
    ensures SignBit(w, x) <==> Signed(w, x) < 0
    ensures Magnitude(w, x) == Abs(Signed(w, x)) <= Pow2(w - 1)
    ensures Encode(w, Signed(w, x)) == x
  {
    var h := Pow2(w - 1);
    if x >= h {
      SplitUnique(x, h, 1, x - h);
      ModIs(0 - x, Pow2(w), -1, Pow2(w) - x);
      ModIs(x - Pow2(w), Pow2(w), -1, x);
    } else {
      SplitUnique(x, h, 0, x);
      ModIs(x, Pow2(w), 0, x);
    }
  }

  lemma ModIs(v: int, m: nat, k: int, r: nat)
    requires m > 0 && r < m && v == k * m + r
    ensures v % m == r
  {
    var q, s := v / m, v % m;
    assert v == q * m + s;
    assert (q - k) * m == r - s && (k - q) * m == s - r;
    if q > k { ScaleMono(1, q - k, m); }
    if q < k { ScaleMono(1, k - q, m); }
  }

  /** Conditional negation: a magnitude that fits, negated unless its sign bit is set already. */
  lemma FlipExact(w: nat, m: nat, flip: bool)
    requires w > 0 && m <= Pow2(w - 1)
    ensures Word(w, m)
    ensures Flip(w, m, flip) == Encode(w, if flip then 0 - m else m)
  {
    SignIsComparison(w, m);
    if m < Pow2(w) { ModIs(m, Pow2(w), 0, m); }
    if m == Pow2(w - 1) { ModIs(0 - m, Pow2(w), -1, m); }
  }

  lemma DividesIsUnique(w: nat, a: nat, b: nat, q: nat, r: nat)
    requires Divides(w, a, b, q, r)
    ensures q == Quotient(w, a, b) && r == Remainder(a, b)
  {
    if b > 0 { SplitUnique(a, b, q, r); }
  }

  lemma AllOnes(w: nat, flip: bool)
    requires w > 0
    ensures Flip(w, Pow2(w) - 1, flip) == Pow2(w) - 1 == Encode(w, -1)
  {
    SignIsComparison(w, Pow2(w) - 1);
    ModIs(-1, Pow2(w), -1, Pow2(w) - 1);
  }

  /** The unit's answer, given the unsigned divider's on the operands it passes on. */
  function Answer(w: nat, q: Request): Result
    requires w > 0
  {
    var a, b := Operand(w, q.op, q.s1), Operand(w, q.op, q.Second());
    Finish(w, ParamsOf(w, q), Quotient(w, a, b), Remainder(a, b))
  }

  lemma SignedDivision(w: nat, q: Request)
    requires w > 0 && Word(w, q.s1) && Word(w, q.Second()) && q.op.Div?
    ensures Answer(w, q).value == Expected(w, q.op, q.s1, if q.imm == 0 then q.s2 else q.imm)
  {
    hide Flip, Encode, Signed, SignBit, Magnitude, Pow2;
    var b := q.Second();
    SignIsComparison(w, q.s1);
    SignIsComparison(w, b);
    var x, y := Signed(w, q.s1), Signed(w, b);
    if y == 0 {
      ZeroIsZero(w, b);
      AllOnes(w, (x < 0) != (y < 0));
    } else {
      ZeroIsZero(w, b);
      Shrinks(Abs(x), Abs(y));
      FlipExact(w, Abs(x) / Abs(y), (x < 0) != (y < 0));
      if x == 0 - Pow2(w - 1) && y == -1 { Wraps(w); }
    }
  }

  lemma ZeroIsZero(w: nat, x: nat)
    requires w > 0 && Word(w, x)
    ensures x == 0 <==> Signed(w, x) == 0
    ensures x == 0 <==> Magnitude(w, x) == 0
  {
    SignIsComparison(w, x);
  }

  lemma Wraps(w: nat)
    requires w > 0
    ensures Encode(w, 0 - Pow2(w - 1)) == Encode(w, Pow2(w - 1)) && Encode(w, 0) == 0
  {
    var h: int := Pow2(w - 1);
    ModIs(0 - h, Pow2(w), -1, h);
    ModIs(h, Pow2(w), 0, h);
  }

  lemma Shrinks(a: nat, b: nat)
    requires b > 0
    ensures a / b <= a && a % b <= a && (b == 1 ==> a / b == a && a % b == 0)
  {
    Split(a, b);
    ScaleMono(1, b, a / b);
    if b == 1 { SplitUnique(a, 1, a, 0); }
  }

  lemma SignedRemainder(w: nat, q: Request)
    requires w > 0 && Word(w, q.s1) && Word(w, q.Second()) && q.op.Rem?
    ensures Answer(w, q).value == Expected(w, q.op, q.s1, if q.imm == 0 then q.s2 else q.imm)
  {
    hide Flip, Encode, Signed, SignBit, Magnitude, Pow2, Truncated, TruncatedRem;
    var b := q.Second();
    SignIsComparison(w, q.s1);
    SignIsComparison(w, b);
    ZeroIsZero(w, b);
    var x, y := Signed(w, q.s1), Signed(w, b);
    if y == 0 {
      FlipExact(w, Abs(x), x < 0);
    } else {
      Shrinks(Abs(x), Abs(y));
      FlipExact(w, Abs(x) % Abs(y), x < 0);
      RemainderValue(x, y);
      if x == 0 - Pow2(w - 1) && y == -1 { Wraps(w); }
    }
  }

  /** Every operation on every pair of words gives the value section 7.2 prescribes, division by
      zero and signed overflow included. */
  lemma AnswerIsExpected(w: nat, q: Request)
    requires w > 0 && Word(w, q.s1) && Word(w, q.Second())
    ensures Answer(w, q) == Result(q.robId, q.rpDst, Expected(w, q.op, q.s1, if q.imm == 0 then q.s2 else q.imm))
  {
    match q.op
    case Div => SignedDivision(w, q);
    case Rem => SignedRemainder(w, q);
    case Divu =>
    case Remu =>
  }

  lemma OperandFits(w: nat, op: Op, x: nat)
    requires w > 0 && Word(w, x)
    ensures Word(w, Operand(w, op, x))
  {
    SignIsComparison(w, x);
  }

  // ---- the machine ----

  function Stages(w: nat, ipc: nat): nat
    requires ipc > 0
  {
    w / ipc + if w % ipc > 0 then 1 else 0
  }

  /** Dividend bits consumed after `stage` stages. */
  function Consumed(w: nat, ipc: nat, stage: nat): nat {
    if stage * ipc <= w then stage * ipc else w
  }

  lemma StageSizes(w: nat, ipc: nat, stage: nat)
    requires 0 < ipc && stage < Stages(w, ipc)
    ensures var short := stage + 1 == Stages(w, ipc) && w % ipc != 0;
            && (short ==> Consumed(w, ipc, stage) == w - w % ipc && Consumed(w, ipc, stage + 1) == w)
            && (!short ==> Consumed(w, ipc, stage) + ipc == Consumed(w, ipc, stage + 1) <= w)
  {
    var d := w / ipc;
    Split(w, ipc);
    assert (stage + 1) * ipc == stage * ipc + ipc;
    if stage < d { ScaleMono(stage + 1, d, ipc); }
  }

  lemma AllConsumed(w: nat, ipc: nat)
    requires ipc > 0
    ensures Consumed(w, ipc, Stages(w, ipc)) == w
  {
    Split(w, ipc);
    assert (w / ipc + 1) * ipc == (w / ipc) * ipc + ipc;
  }

  class LongDivider {
    const w: nat
    const ipc: nat
    var ready: bool
    var dividend: nat
    var divisor: nat
    var quotient: nat
    var remainder: nat
    var stage: nat
    ghost var input: nat          // the dividend as issued

    ghost predicate Valid()
      reads this
    {
      && 0 < ipc <= w
      && (!ready ==> stage <= Stages(w, ipc) && input < Pow2(w)
                     && Progress(w, Consumed(w, ipc, stage), input, divisor, dividend, quotient, remainder))
    }

    predicate Finished()
      requires ipc > 0
      reads this
    {
      !ready && stage == Stages(w, ipc)
    }

    constructor (w: nat, ipc: nat)
      requires 0 < ipc <= w
      ensures Valid() && ready && this.w == w && this.ipc == ipc
    {
      this.w, this.ipc := w, ipc;
      ready, stage := true, 0;
      dividend, divisor, quotient, remainder, input := 0, 0, 0, 0, 0;
    }

    /** One clock cycle. A `clear` in the cycle of an issue or of a stage wins over `ready`, not
        over the stage counter. */
    method Clock(issue: Option<(nat, nat)>, accept: bool, clear: bool) returns (out: (nat, nat))
      requires Valid()
      requires issue.Some? ==> ready && Word(w, issue.value.0) && Word(w, issue.value.1)
      requires accept ==> Finished()
      modifies this
      ensures Valid()
      ensures ready <==> clear || accept || (old(ready) && issue.None?)
      ensures accept ==> out == (Quotient(w, old(input), old(divisor)), Remainder(old(input), old(divisor)))
      ensures issue.Some? ==> input == issue.value.0 && divisor == issue.value.1
      ensures issue.None? ==> input == old(input) && divisor == old(divisor)
      ensures issue.Some? && !clear ==> stage == 0
      ensures !old(ready) && !clear ==> stage == if old(stage) < Stages(w, ipc) then old(stage) + 1 else old(stage)
    {
      out := (quotient, remainder);
      ghost var c := Consumed(w, ipc, stage);
      if accept {
        AllConsumed(w, ipc);
        DividesIsUnique(w, input, divisor, quotient, remainder);
      }
      var calculating := !ready && stage != Stages(w, ipc);
      var next := ready;
      if issue.Some? {
        dividend, divisor := issue.value.0, issue.value.1;
        remainder, quotient, stage := 0, 0, 0;
        input := dividend;
        next := false;
        NothingConsumed(w, input, divisor);
      }
      if accept { next := true; }
      if clear { next := true; }
      if calculating {
        Calculate();
      } else if clear {
        stage := 0;
      }
      ready := next;
    }

    method Calculate()
      requires Valid() && !ready && stage < Stages(w, ipc)
      modifies this
      ensures Valid() && !ready
      ensures stage == old(stage) + 1 && input == old(input) && divisor == old(divisor)
    {
      var part := w % ipc;
      var o := Array(ipc, w, Lead(dividend, w - ipc), divisor, remainder, part);
      ghost var c := Consumed(w, ipc, stage);
      StageSizes(w, ipc, stage);
      if stage + 1 == Stages(w, ipc) && part != 0 {
        ShortStage(w, ipc, part, input, divisor, dividend, quotient, remainder);
        remainder := o.partial;
        quotient := NextQuotient(w, part, quotient, Lead(o.quotient, ipc - part));
      } else {
        FullStage(w, ipc, c, input, divisor, dividend, quotient, remainder, part);
        remainder := o.remainder;
        quotient := NextQuotient(w, ipc, quotient, o.quotient);
      }
      dividend := NextDividend(w, ipc, dividend);
      stage := stage + 1;
    }
  }

  lemma NothingConsumed(w: nat, x: nat, b: nat)
    requires Word(w, x)
    ensures Progress(w, 0, x, b, x, 0, 0)
  {
    SplitUnique(x, Pow2(w), 0, x);
  }

  class Unit {
    const divider: LongDivider
    var params: seq<Params>
    ghost var request: Request        // of the computation in the divider

    /** The queued parameters are those of the computation in the divider, and nothing else. */
    ghost predicate Paired()
      reads this, divider
      requires divider.w > 0
    {
      params == if divider.ready then [] else [ParamsOf(divider.w, request)]
    }

    ghost predicate Valid()
      reads this, divider
    {
      && divider.Valid()
      && Word(divider.w, request.s1) && Word(divider.w, request.Second())
      && (!divider.ready ==>
            && divider.input == Operand(divider.w, request.op, request.s1)
            && divider.divisor == Operand(divider.w, request.op, request.Second()))
    }

    constructor (w: nat, ipc: nat)
      requires 0 < ipc <= w
      ensures Valid() && Paired() && fresh(divider) && divider.w == w && divider.ipc == ipc
      ensures divider.ready && params == []
    {
      divider := new LongDivider(w, ipc);
      params := [];
      request := Request(Divu, 0, 0, 0, 0, 0);
    }

    /** One cycle. What is delivered combines the oldest queued parameters with the divider's
        result, and is the prescribed answer as long as the two belong together. A `clear` empties
        the divider but not the parameter queue, and unpairs them exactly when a computation is
        dropped. */
    method Clock(issue: Option<Request>, deliver: bool, clear: bool) returns (out: Result)
      requires Valid()
      requires issue.Some? ==> divider.ready && |params| < 2
      requires issue.Some? ==> Word(divider.w, issue.value.s1) && Word(divider.w, issue.value.Second())
      requires deliver ==> divider.Finished() && params != []
      modifies this, divider
      ensures Valid()
      ensures params == (if deliver then old(params)[1..] else old(params))
                        + (if issue.Some? then [ParamsOf(divider.w, issue.value)] else [])
      ensures request == if issue.Some? then issue.value else old(request)
      ensures divider.ready <==> clear || deliver || (old(divider.ready) && issue.None?)
      ensures deliver ==> out == Delivered(divider.w, old(params)[0], old(request))
      ensures old(Paired()) ==> (Paired() <==> !(clear && (issue.Some? || (!old(divider.ready) && !deliver))))
      ensures old(Paired()) && deliver ==>
                var q := old(request);
                var b := if q.imm == 0 then q.s2 else q.imm;
                out == Result(q.robId, q.rpDst, Expected(divider.w, q.op, q.s1, b))
      ensures issue.Some? && !clear ==> divider.stage == 0
      ensures !old(divider.ready) && !clear && !old(divider.Finished()) ==> divider.stage == old(divider.stage) + 1
    {
      var w := divider.w;
      var head := if deliver then params[0] else Params(0, 0, false, false);
      if deliver { params := params[1..]; }
      var operands := None;
      if issue.Some? {
        var q := issue.value;
        params := params + [ParamsOf(w, q)];
        operands := Some((Operand(w, q.op, q.s1), Operand(w, q.op, q.Second())));
        OperandFits(w, q.op, q.s1);
        OperandFits(w, q.op, q.Second());
      }
      ghost var was := request;
      var response := divider.Clock(operands, deliver, clear);
      out := Finish(w, head, response.0, response.1);
      if deliver { AnswerIsExpected(w, was); }
      if issue.Some? { request := issue.value; }
    }
  }

  /** The divider's result on the operands of `q`, finished under the parameters `p`. */
  function Delivered(w: nat, p: Params, q: Request): Result
    requires w > 0
  {
    var a, b := Operand(w, q.op, q.s1), Operand(w, q.op, q.Second());
    Finish(w, p, Quotient(w, a, b), Remainder(a, b))
  }

  /** What a clear does to pairing: issue `a`, clear it, issue `b`, and the result of `b` comes out
      under the identifiers and with the sign and part selection of `a`. */
  method ClearMispairs(w: nat, ipc: nat, a: Request, b: Request) returns (out: Result)
    requires 0 < ipc <= w && Word(w, a.s1) && Word(w, a.Second()) && Word(w, b.s1) && Word(w, b.Second())
    ensures out.robId == a.robId && out.rpDst == a.rpDst
    ensures out == Delivered(w, ParamsOf(w, a), b)
  {
    hide Progress, ParamsOf, Operand, Expected, Delivered, Quotient, Remainder, Stages, Consumed, Word;
    var u := new Unit(w, ipc);
    var r := u.Clock(Some(a), false, false);
    r := u.Clock(None, false, true);
    r := u.Clock(Some(b), false, false);
    out := RunToEnd(u);
    DeliveredNames(w, a, b);
  }

  /** Let the computation in the divider finish and deliver it. */
  method RunToEnd(u: Unit) returns (out: Result)
    requires u.Valid() && !u.divider.ready && u.params != []
    modifies u, u.divider
    ensures u.divider.w > 0 && out == Delivered(u.divider.w, old(u.params)[0], old(u.request))
  {
    hide Progress, ParamsOf, Operand, Expected, Delivered, Quotient, Remainder, Stages, Consumed, Word;
    while u.divider.stage != Stages(u.divider.w, u.divider.ipc)
      modifies u, u.divider
      invariant u.Valid() && !u.divider.ready && u.params == old(u.params) && u.request == old(u.request)
      decreases Stages(u.divider.w, u.divider.ipc) - u.divider.stage
    {
      var r := u.Clock(None, false, false);
    }
    out := u.Clock(None, true, false);
  }

  lemma DeliveredNames(w: nat, a: Request, b: Request)
    requires w > 0
    ensures var r := Delivered(w, ParamsOf(w, a), b); r.robId == a.robId && r.rpDst == a.rpDst
  {
  }

  /** For instance, 7 remu 2 after a cleared divu is answered with the quotient. */
  lemma MispairedExample()
    ensures var a := Request(Divu, 1, 1, 0, 4, 5); var b := Request(Remu, 7, 2, 0, 6, 7);
            && Delivered(3, ParamsOf(3, a), b) == Result(4, 5, 3)
            && Expected(3, Remu, 7, 2) == 1
  {
    SplitUnique(7, 2, 3, 1);
  }
}
