/** The carry-less multiplier, iterative at the leaves of a recursion of any depth, and the unit
    executing clmul, clmulh and clmulr on it. */
module Zbc {
  import opened Wrappers
  import opened CarrylessProduct

  type Bits = seq<bool>

  /** The registers of a multiplier: one iterative multiplier, or four of half the width. `lu`
      multiplies the upper half of the first factor by the lower half of the second. */
  datatype Mul =
    | Leaf(v1: Bits, v2: Bits, result: Bits, busy: bool)
    | Node(ll: Mul, lu: Mul, ul: Mul, uu: Mul)

  ghost predicate Shaped(m: Mul, n: nat)
    decreases m
  {
    match m
    case Leaf(v1, v2, result, _) => n > 0 && |v1| == 2 * n && |v2| == n && |result| == 2 * n
    case Node(ll, lu, ul, uu) =>
      n > 0 && n % 2 == 0 && Shaped(ll, n / 2) && Shaped(lu, n / 2) && Shaped(ul, n / 2) && Shaped(uu, n / 2)
  }

  predicate Busy(m: Mul) {
    match m
    case Leaf(_, _, _, busy) => busy
    case Node(ll, lu, ul, uu) => Busy(ll) || Busy(lu) || Busy(ul) || Busy(uu)
  }

  function Result(m: Mul, n: nat): (r: Bits)
    requires Shaped(m, n)
    ensures |r| == 2 * n
    decreases m
  {
    match m
    case Leaf(_, _, result, _) => result
    case Node(ll, lu, ul, uu) =>
      var h := n / 2;
      var (x, y, z, w) := (Result(uu, h), Result(ul, h), Result(lu, h), Result(ll, h));
      seq(2 * n, k => Xor(Xor(Xor(At(x, k - n), At(y, k - h)), At(z, k - h)), At(w, k)))
  }

  /** One clock cycle of the iterative multiplier. */
  function ClockLeaf(m: Mul, n: nat, reset: bool, i1: Bits, i2: Bits): (r: Mul)
    requires m.Leaf? && Shaped(m, n) && |i1| == |i2| == n
    ensures r.Leaf? && Shaped(r, n)
  {
    if reset then Leaf(i1 + Zeros(n), i2, Zeros(2 * n), true)
    else if Zero(m.v2) then m.(busy := false)
    else Leaf(ShiftLeft(m.v1), ShiftRight(m.v2), if m.v2[0] then XorBits(m.result, m.v1) else m.result, true)
  }

  function Clock(m: Mul, n: nat, reset: bool, i1: Bits, i2: Bits): (r: Mul)
    requires Shaped(m, n) && |i1| == |i2| == n
    ensures Shaped(r, n)
    decreases m
  {
    match m
    case Leaf(_, _, _, _) => ClockLeaf(m, n, reset, i1, i2)
    case Node(ll, lu, ul, uu) =>
      var h := n / 2;
      Node(Clock(ll, h, reset, i1[..h], i2[..h]), Clock(lu, h, reset, i1[h..], i2[..h]),
           Clock(ul, h, reset, i1[..h], i2[h..]), Clock(uu, h, reset, i1[h..], i2[h..]))
  }

  // ---- what the registers stand for ----

  /** The accumulated part and the part still to be added make up the product of `a` and `b`. */
  ghost predicate Computes(m: Mul, n: nat, a: Bits, b: Bits)
    requires |a| == |b| == n
    decreases m
  {
    && Shaped(m, n)
    && match m
       case Leaf(v1, v2, result, busy) =>
         && (forall k :: 0 <= k < 2 * n ==> Xor(result[k], Coef(v1, v2, k)) == Coef(a, b, k))
         && (!busy ==> Zero(v2))
       case Node(ll, lu, ul, uu) =>
         var h := n / 2;
         && Computes(ll, h, a[..h], b[..h]) && Computes(lu, h, a[h..], b[..h])
         && Computes(ul, h, a[..h], b[h..]) && Computes(uu, h, a[h..], b[h..])
  }

  lemma LeafLoads(m: Mul, n: nat, a: Bits, b: Bits)
    requires m.Leaf? && Shaped(m, n) && |a| == |b| == n
    ensures Computes(ClockLeaf(m, n, true, a, b), n, a, b)
  {
    forall k | 0 <= k < 2 * n
      ensures Coef(a + Zeros(n), b, k) == Coef(a, b, k)
    {
      SumExtend(a, b, n, k, k + 1);
    }
  }

  lemma LeafSteps(m: Mul, n: nat, a: Bits, b: Bits, i1: Bits, i2: Bits)
    requires m.Leaf? && |a| == |b| == |i1| == |i2| == n && Computes(m, n, a, b)
    ensures Computes(ClockLeaf(m, n, false, i1, i2), n, a, b)
  {
    hide Coef;
    forall k | 0 <= k < 2 * n && !Zero(m.v2)
      ensures Coef(m.v1, m.v2, k) == Xor(m.v2[0] && m.v1[k], Coef(ShiftLeft(m.v1), ShiftRight(m.v2), k))
    {
      ShiftStep(m.v1, m.v2, k);
    }
  }

  /** A reset starts the product of the inputs from any state, at every depth. */
  lemma {:induction false} ResetComputes(m: Mul, n: nat, a: Bits, b: Bits)
    requires Shaped(m, n) && |a| == |b| == n
    ensures Computes(Clock(m, n, true, a, b), n, a, b)
    decreases m
  {
    if m.Leaf? {
      LeafLoads(m, n, a, b);
    } else {
      var h := n / 2;
      ResetComputes(m.ll, h, a[..h], b[..h]);
      ResetComputes(m.lu, h, a[h..], b[..h]);
      ResetComputes(m.ul, h, a[..h], b[h..]);
      ResetComputes(m.uu, h, a[h..], b[h..]);
    }
  }

  /** Without a reset the inputs are ignored and the product stays the same. */
  lemma {:induction false} StepComputes(m: Mul, n: nat, a: Bits, b: Bits, i1: Bits, i2: Bits)
    requires |a| == |b| == |i1| == |i2| == n && Computes(m, n, a, b)
    ensures Computes(Clock(m, n, false, i1, i2), n, a, b)
    decreases m
  {
    if m.Leaf? {
      LeafSteps(m, n, a, b, i1, i2);
    } else {
      var h := n / 2;
      StepComputes(m.ll, h, a[..h], b[..h], i1[..h], i2[..h]);
      StepComputes(m.lu, h, a[h..], b[..h], i1[h..], i2[..h]);
      StepComputes(m.ul, h, a[..h], b[h..], i1[..h], i2[h..]);
      StepComputes(m.uu, h, a[h..], b[h..], i1[h..], i2[h..]);
    }
  }

  lemma ProductAt(a: Bits, b: Bits, r: Bits, k: int)
    requires r == Product(a, b)
    ensures At(r, k) == Coef(a, b, k)
  {
    if !(0 <= k < |a| + |b|) { CoefDead(a, b, k); }
  }

  /** Four products of the halves, shifted and added, are the product. */
  lemma CombinedIsProduct(m: Mul, n: nat, a: Bits, b: Bits)
    requires Shaped(m, n) && m.Node? && |a| == |b| == n
    requires var h := n / 2;
             && Result(m.ll, h) == Product(a[..h], b[..h]) && Result(m.lu, h) == Product(a[h..], b[..h])
             && Result(m.ul, h) == Product(a[..h], b[h..]) && Result(m.uu, h) == Product(a[h..], b[h..])
    ensures Result(m, n) == Product(a, b)
  {
    hide Coef, Product;
    var h := n / 2;
    forall k | 0 <= k < 2 * n
      ensures Result(m, n)[k] == Coef(a, b, k)
    {
      Quarters(a, b, h, k);
      ProductAt(a[h..], b[h..], Result(m.uu, h), k - n);
      ProductAt(a[..h], b[h..], Result(m.ul, h), k - h);
      ProductAt(a[h..], b[..h], Result(m.lu, h), k - h);
      ProductAt(a[..h], b[..h], Result(m.ll, h), k);
    }
    ProductIs(a, b, Result(m, n));
  }

  lemma ProductIs(a: Bits, b: Bits, r: Bits)
    requires |r| == |a| + |b| && forall k :: 0 <= k < |r| ==> r[k] == Coef(a, b, k)
    ensures r == Product(a, b)
  {
  }

  /** The result is final whenever busy is low. */
  lemma {:induction false} IdleIsProduct(m: Mul, n: nat, a: Bits, b: Bits)
    requires |a| == |b| == n && Computes(m, n, a, b) && !Busy(m)
    ensures Result(m, n) == Product(a, b)
    decreases m
  {
    hide Coef, Product;
    if m.Leaf? {
      forall k | 0 <= k < 2 * n
        ensures m.result[k] == Coef(a, b, k)
      {
        ZeroFactor(m.v1, m.v2, k);
      }
      ProductIs(a, b, m.result);
    } else {
      var h := n / 2;
      IdleIsProduct(m.ll, h, a[..h], b[..h]);
      IdleIsProduct(m.lu, h, a[h..], b[..h]);
      IdleIsProduct(m.ul, h, a[..h], b[h..]);
      IdleIsProduct(m.uu, h, a[h..], b[h..]);
      CombinedIsProduct(m, n, a, b);
    }
  }

  // ---- the multiplier terminates ----

  /** All bits still to be added lie below position `left`. */
  ghost predicate Bounded(m: Mul, n: nat, left: nat)
    requires Shaped(m, n)
    decreases m
  {
    match m
    case Leaf(_, v2, _, _) => forall i :: left <= i < n ==> !v2[i]
    case Node(ll, lu, ul, uu) =>
      Bounded(ll, n / 2, left) && Bounded(lu, n / 2, left) && Bounded(ul, n / 2, left) && Bounded(uu, n / 2, left)
  }

  lemma {:induction false} BoundDrops(m: Mul, n: nat, left: nat, i1: Bits, i2: Bits)
    requires Shaped(m, n) && |i1| == |i2| == n && Bounded(m, n, left)
    ensures left > 0 ==> Bounded(Clock(m, n, false, i1, i2), n, left - 1)
    ensures left == 0 ==> !Busy(Clock(m, n, false, i1, i2))
    decreases m
  {
    if m.Node? {
      var h := n / 2;
      BoundDrops(m.ll, h, left, i1[..h], i2[..h]);
      BoundDrops(m.lu, h, left, i1[h..], i2[..h]);
      BoundDrops(m.ul, h, left, i1[..h], i2[h..]);
      BoundDrops(m.uu, h, left, i1[h..], i2[h..]);
    }
  }

  lemma {:induction false} WidthBounds(m: Mul, n: nat)
    requires Shaped(m, n)
    ensures Bounded(m, n, n)
    decreases m
  {
    if m.Node? {
      WidthBounds(m.ll, n / 2);
      WidthBounds(m.lu, n / 2);
      WidthBounds(m.ul, n / 2);
      WidthBounds(m.uu, n / 2);
      BoundGrows(m.ll, n / 2, n / 2, n);
      BoundGrows(m.lu, n / 2, n / 2, n);
      BoundGrows(m.ul, n / 2, n / 2, n);
      BoundGrows(m.uu, n / 2, n / 2, n);
    }
  }

  lemma {:induction false} BoundGrows(m: Mul, n: nat, left: nat, more: nat)
    requires Shaped(m, n) && Bounded(m, n, left) && left <= more
    ensures Bounded(m, n, more)
    decreases m
  {
    if m.Node? {
      BoundGrows(m.ll, n / 2, left, more);
      BoundGrows(m.lu, n / 2, left, more);
      BoundGrows(m.ul, n / 2, left, more);
      BoundGrows(m.uu, n / 2, left, more);
    }
  }

  /** Cycles without a reset; the inputs of each are arbitrary. */
  function Run(m: Mul, n: nat, inputs: seq<(Bits, Bits)>): (r: Mul)
    requires Shaped(m, n) && forall i :: 0 <= i < |inputs| ==> |inputs[i].0| == |inputs[i].1| == n
    ensures Shaped(r, n)
    decreases |inputs|
  {
    if inputs == [] then m
    else Run(Clock(m, n, false, inputs[0].0, inputs[0].1), n, inputs[1..])
  }

  lemma {:induction false} RunBounded(m: Mul, n: nat, a: Bits, b: Bits, left: nat, inputs: seq<(Bits, Bits)>)
    requires |a| == |b| == n && Computes(m, n, a, b)
    requires forall i :: 0 <= i < |inputs| ==> |inputs[i].0| == |inputs[i].1| == n
    requires |inputs| == 0 ==> !Busy(m)
    requires |inputs| > 0 ==> |inputs| == left + 1 && Bounded(m, n, left)
    ensures Computes(Run(m, n, inputs), n, a, b) && !Busy(Run(m, n, inputs))
    decreases |inputs|
  {
    if inputs != [] {
      var (i1, i2) := inputs[0];
      StepComputes(m, n, a, b, i1, i2);
      BoundDrops(m, n, left, i1, i2);
      RunBounded(Clock(m, n, false, i1, i2), n, a, b, if left == 0 then 0 else left - 1, inputs[1..]);
    }
  }

  /** From any state, a reset followed by n + 1 cycles without one leaves the product in the
      result and busy low, whatever the inputs do meanwhile. */
  lemma ResetThenRun(m: Mul, n: nat, a: Bits, b: Bits, inputs: seq<(Bits, Bits)>)
    requires Shaped(m, n) && |a| == |b| == n && |inputs| == n + 1
    requires forall i :: 0 <= i < |inputs| ==> |inputs[i].0| == |inputs[i].1| == n
    ensures var r := Run(Clock(m, n, true, a, b), n, inputs);
            !Busy(r) && Result(r, n) == Product(a, b)
  {
    var s := Clock(m, n, true, a, b);
    ResetComputes(m, n, a, b);
    WidthBounds(s, n);
    RunBounded(s, n, a, b, n, inputs);
    IdleIsProduct(Run(s, n, inputs), n, a, b);
  }

  // ---- the iterative multiplier, register by register ----

  class Iterative {
    const n: nat
    var v1: Bits
    var v2: Bits
    var result: Bits
    var busy: bool

    function View(): Mul
      reads this
    {
      Leaf(v1, v2, result, busy)
    }

    ghost predicate Valid()
      reads this
    {
      Shaped(View(), n)
    }

    constructor (n: nat)
      requires n > 0
      ensures Valid() && this.n == n && Computes(View(), n, Zeros(n), Zeros(n))
    {
      this.n := n;
      v1, v2, result, busy := Zeros(2 * n), Zeros(n), Zeros(2 * n), false;
      new;
      forall k | 0 <= k < 2 * n
        ensures !Coef(v1, v2, k) && !Coef(Zeros(n), Zeros(n), k)
      {
        ZeroFactor(v1, v2, k);
        ZeroFactor(Zeros(n), Zeros(n), k);
      }
    }

    method Tick(reset: bool, i1: Bits, i2: Bits)
      requires Valid() && |i1| == |i2| == n
      modifies this
      ensures Valid() && View() == Clock(old(View()), n, reset, i1, i2)
    {
      busy := false;
      if reset {
        result := Zeros(2 * n);
        v1, v2 := i1 + Zeros(n), i2;
        busy := true;
      } else if !Zero(v2) {
        if v2[0] { result := XorBits(result, v1); }
        v1, v2 := ShiftLeft(v1), ShiftRight(v2);
        busy := true;
      }
    }
  }

  // ---- the unit ----

  datatype Op = Clmul | Clmulh | Clmulr

  datatype Request = Request(op: Op, s1: Bits, s2: Bits, imm: Bits, robId: nat, rpDst: nat) {
    function Second(): Bits {
      if Zero(imm) then s2 else imm
    }

    predicate Fits(n: nat) {
      |s1| == |s2| == |imm| == n
    }
  }

  datatype Params = Params(robId: nat, rpDst: nat, high: bool, rev: bool)
  datatype Reply = Reply(robId: nat, rpDst: nat, value: Bits)

  function ParamsOf(q: Request): Params {
    Params(q.robId, q.rpDst, q.op.Clmulh?, q.op.Clmulr?)
  }

  function Factor(op: Op, x: Bits): Bits {
    if op.Clmulr? then Reverse(x) else x
  }

  function Finish(p: Params, n: nat, output: Bits): Reply
    requires |output| == 2 * n
  {
    var x := if p.high then output[n..] else output[..n];
    Reply(p.robId, p.rpDst, if p.rev then Reverse(x) else x)
  }

  /** Lowest product bit each operation returns. */
  function Offset(op: Op, n: nat): int {
    match op case Clmul => 0 case Clmulh => n case Clmulr => n - 1
  }

  /** n consecutive product bits starting at the operation's offset; an immediate with a bit set
      stands for the second register. */
  function Expected(q: Request, n: nat): Reply {
    var b := if exists i :: 0 <= i < |q.imm| && q.imm[i] then q.imm else q.s2;
    Reply(q.robId, q.rpDst, seq(n, j => Coef(q.s1, b, Offset(q.op, n) + j)))
  }

  lemma ReplyIsExpected(q: Request, n: nat, output: Bits)
    requires q.Fits(n) && output == Product(Factor(q.op, q.s1), Factor(q.op, q.Second()))
    ensures Finish(ParamsOf(q), n, output) == Expected(q, n)
  {
    hide Coef;
    var x := Finish(ParamsOf(q), n, output).value;
    forall j | 0 <= j < n
      ensures x[j] == Coef(q.s1, q.Second(), Offset(q.op, n) + j)
    {
      if q.op.Clmulr? { ReversedCoef(q.s1, q.Second(), n - 1 - j); }
    }
  }

  class ZbcUnit {
    const n: nat
    var mul: Mul
    var params: seq<Params>
    ghost var request: Request

    /** At most one operation is in flight, and the multiplier works on its factors. */
    ghost predicate Valid()
      reads this
    {
      && Shaped(mul, n)
      && (params == [] || params == [ParamsOf(request)])
      && (params != [] ==>
            && request.Fits(n)
            && Computes(mul, n, Factor(request.op, request.s1), Factor(request.op, request.Second())))
    }

    constructor (n: nat, mul: Mul)
      requires Shaped(mul, n)
      ensures Valid() && params == [] && this.n == n
    {
      this.n, this.mul, params := n, mul, [];
      request := Request(Clmul, [], [], [], 0, 0);
    }

    /** One cycle: the reply delivered while busy is low carries the specified product bits. */
    method Tick(issue: Option<Request>, deliver: bool) returns (out: Reply)
      requires Valid()
      requires issue.Some? ==> params == [] && issue.value.Fits(n)
      requires deliver ==> params != [] && !Busy(mul)
      modifies this
      ensures Valid()
      ensures deliver ==> out == Expected(old(request), n)
      ensures issue.Some? ==> params != [] && request == issue.value
      ensures issue.None? ==> request == old(request) && params == if deliver then [] else old(params)
    {
      out := Reply(0, 0, []);
      if deliver {
        out := Finish(params[0], n, Result(mul, n));
        IdleIsProduct(mul, n, Factor(request.op, request.s1), Factor(request.op, request.Second()));
        ReplyIsExpected(request, n, Result(mul, n));
        params := [];
      }
      if issue.Some? {
        var q := issue.value;
        var a, b := Factor(q.op, q.s1), Factor(q.op, q.Second());
        ResetComputes(mul, n, a, b);
        params, request := [ParamsOf(q)], q;
        mul := Clock(mul, n, true, a, b);
      } else {
        if params != [] {
          var a, b := Factor(request.op, request.s1), Factor(request.op, request.Second());
          StepComputes(mul, n, a, b, Zeros(n), Zeros(n));
        }
        mul := Clock(mul, n, false, Zeros(n), Zeros(n));
      }
    }
  }
}
