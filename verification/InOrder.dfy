/** The out-of-order core computes what an in-order machine computes. Operations are any function of
    their operation code and two operands; the architectural registers are what the retired table
    and the register file hold together. */
module InOrder {
  import opened RatModel
  import opened BitMask
  import opened Retirement
  import opened Wrappers
  import opened CratSpec
  import opened RenameCore
  import opened RenameProofs
  import opened CheckpointRat
  import opened CoreCycle

  type Semantics = (nat, int, int) -> int

  // ---- the in-order machine ----

  function Reg(regs: seq<int>, l: nat): int {
    if l < |regs| then regs[l] else 0
  }

  function Result(f: Semantics, regs: seq<int>, op: Op): int {
    f(op.code, Reg(regs, op.rs1), Reg(regs, op.rs2))
  }

  function Execute(f: Semantics, regs: seq<int>, op: Op): (r: seq<int>)
    ensures |r| == |regs|
  {
    if 0 < op.rl < |regs| then regs[op.rl := Result(f, regs, op)] else regs
  }

  function Interpret(f: Semantics, regs: seq<int>, ops: seq<Op>): (r: seq<int>)
    ensures |r| == |regs|
    decreases |ops|
  {
    if ops == [] then regs else Execute(f, Interpret(f, regs, ops[..|ops| - 1]), ops[|ops| - 1])
  }

  lemma {:induction false} InterpretAppend(f: Semantics, regs: seq<int>, xs: seq<Op>, ys: seq<Op>)
    ensures Interpret(f, regs, xs + ys) == Interpret(f, Interpret(f, regs, xs), ys)
    decreases |ys|
  {
    if ys == [] {
      assert xs + ys == xs;
    } else {
      var n := |ys| - 1;
      assert (xs + ys)[..|xs + ys| - 1] == xs + ys[..n];
      InterpretAppend(f, regs, xs, ys[..n]);
    }
  }

  // ---- instructions in flight ----

  function ExecuteIf(f: Semantics, regs: seq<int>, i: Instr, act: set<nat>): (r: seq<int>)
    ensures |r| == |regs|
  {
    if i.tag in act then Execute(f, regs, i.op) else regs
  }

  /** The live instructions, interpreted in program order. */
  function Ahead(f: Semantics, regs: seq<int>, es: seq<Instr>, act: set<nat>): (r: seq<int>)
    ensures |r| == |regs|
    decreases es
  {
    if es == [] then regs else Ahead(f, ExecuteIf(f, regs, es[0], act), es[1..], act)
  }

  function Val(rf: seq<int>, r: nat): int {
    if 0 < r < |rf| then rf[r] else 0
  }

  predicate Known(valid: set<nat>, r: nat) {
    r == 0 || r in valid
  }

  /** Every live result in the register file is the one the in-order machine computes. */
  ghost predicate ResultsOk(f: Semantics, regs: seq<int>, es: seq<Instr>, act: set<nat>, valid: set<nat>, rf: seq<int>)
    decreases es
  {
    es != [] ==>
      && (es[0].tag in act && es[0].op.rp in valid && es[0].op.rp > 0 ==>
            Val(rf, es[0].op.rp) == Result(f, regs, es[0].op))
      && ResultsOk(f, ExecuteIf(f, regs, es[0], act), es[1..], act, valid, rf)
  }

  /** A table and the in-order registers agree wherever the file's value is known. */
  ghost predicate Agree(rat: Rat, regs: seq<int>, valid: set<nat>, rf: seq<int>) {
    |rat| == |regs| && forall l :: 0 <= l < |rat| && Known(valid, rat[l]) ==> regs[l] == Val(rf, rat[l])
  }

  lemma {:induction false} AgreeAhead(f: Semantics, rat: Rat, regs: seq<int>, es: seq<Instr>, act: set<nat>,
                                      valid: set<nat>, rf: seq<int>)
    requires Agree(rat, regs, valid, rf) && ResultsOk(f, regs, es, act, valid, rf)
    requires forall i :: 0 <= i < |es| ==> (es[i].op.rl == 0 <==> es[i].op.rp == 0)
    ensures Agree(Overlay(rat, es, act), Ahead(f, regs, es, act), valid, rf)
    decreases es
  {
    if es != [] {
      AgreeAhead(f, WriteIf(rat, es[0], act), ExecuteIf(f, regs, es[0], act), es[1..], act, valid, rf);
    }
  }

  lemma {:induction false} AheadAppend(f: Semantics, regs: seq<int>, xs: seq<Instr>, ys: seq<Instr>, act: set<nat>)
    ensures Ahead(f, regs, xs + ys, act) == Ahead(f, Ahead(f, regs, xs, act), ys, act)
    decreases xs
  {
    if xs == [] {
      assert xs + ys == ys;
    } else {
      assert (xs + ys)[1..] == xs[1..] + ys;
      AheadAppend(f, ExecuteIf(f, regs, xs[0], act), xs[1..], ys, act);
    }
  }

  lemma {:induction false} ResultsAppend(f: Semantics, regs: seq<int>, xs: seq<Instr>, ys: seq<Instr>, act: set<nat>,
                                         valid: set<nat>, rf: seq<int>)
    ensures ResultsOk(f, regs, xs + ys, act, valid, rf) <==>
            ResultsOk(f, regs, xs, act, valid, rf) && ResultsOk(f, Ahead(f, regs, xs, act), ys, act, valid, rf)
    decreases xs
  {
    if xs == [] {
      assert xs + ys == ys;
    } else {
      assert (xs + ys)[1..] == xs[1..] + ys;
      ResultsAppend(f, ExecuteIf(f, regs, xs[0], act), xs[1..], ys, act, valid, rf);
    }
  }

  /** Only the activity of the tags that occur matters, and forgetting results is harmless. */
  lemma {:induction false} ResultsAgree(f: Semantics, regs: seq<int>, es: seq<Instr>, a: set<nat>, b: set<nat>,
                                        valid: set<nat>, less: set<nat>, rf: seq<int>)
    requires ResultsOk(f, regs, es, a, valid, rf) && less <= valid
    requires forall i :: 0 <= i < |es| ==> (es[i].tag in a <==> es[i].tag in b)
    ensures ResultsOk(f, regs, es, b, less, rf)
    decreases es
  {
    if es != [] {
      ResultsAgree(f, ExecuteIf(f, regs, es[0], a), es[1..], a, b, valid, less, rf);
    }
  }

  lemma {:induction false} ResultsUnknown(f: Semantics, regs: seq<int>, es: seq<Instr>, act: set<nat>,
                                          valid: set<nat>, rf: seq<int>)
    requires forall i :: 0 <= i < |es| ==> es[i].op.rp == 0 || es[i].op.rp !in valid || es[i].tag !in act
    ensures ResultsOk(f, regs, es, act, valid, rf)
    decreases es
  {
    if es != [] { ResultsUnknown(f, ExecuteIf(f, regs, es[0], act), es[1..], act, valid, rf); }
  }

  /** Deactivating every tag above `t` keeps what stays live. */
  lemma {:induction false} ResultsCut(f: Semantics, prev: nat, regs: seq<int>, es: seq<Instr>, act: set<nat>,
                                      valid: set<nat>, rf: seq<int>, t: nat)
    requires ResultsOk(f, regs, es, act, valid, rf) && Chain(prev, es)
    ensures ResultsOk(f, regs, es, Upto(act, t), valid, rf)
    decreases es
  {
    if es != [] {
      if es[0].tag <= t {
        ResultsCut(f, es[0].tag, ExecuteIf(f, regs, es[0], act), es[1..], act, valid, rf, t);
      } else {
        ChainMono(prev, es);
        ResultsUnknown(f, regs, es, Upto(act, t), valid, rf);
      }
    }
  }

  /** Announcing the right result of the i-th instruction keeps all of them right. */
  lemma {:induction false} ResultsAnnounce(f: Semantics, regs: seq<int>, es: seq<Instr>, act: set<nat>,
                                           valid: set<nat>, rf: seq<int>, i: nat, val: int)
    requires ResultsOk(f, regs, es, act, valid, rf) && i < |es| && 0 < es[i].op.rp < |rf|
    requires forall j :: 0 <= j < |es| && j != i ==> es[j].op.rp != es[i].op.rp
    requires es[i].tag in act ==> val == Result(f, Ahead(f, regs, es[..i], act), es[i].op)
    ensures ResultsOk(f, regs, es, act, valid + {es[i].op.rp}, rf[es[i].op.rp := val])
    decreases es
  {
    var r := es[i].op.rp;
    if i == 0 {
      assert es[..0] == [];
      ResultsFrame(f, ExecuteIf(f, regs, es[0], act), es[1..], act, valid, rf, r, val);
    } else {
      assert es[..i][1..] == es[1..][..i - 1];
      ResultsAnnounce(f, ExecuteIf(f, regs, es[0], act), es[1..], act, valid, rf, i - 1, val);
    }
  }

  lemma {:induction false} ResultsFrame(f: Semantics, regs: seq<int>, es: seq<Instr>, act: set<nat>, valid: set<nat>,
                                        rf: seq<int>, r: nat, val: int)
    requires ResultsOk(f, regs, es, act, valid, rf) && 0 < r < |rf|
    requires forall j :: 0 <= j < |es| ==> es[j].op.rp != r
    ensures ResultsOk(f, regs, es, act, valid + {r}, rf[r := val])
    decreases es
  {
    if es != [] { ResultsFrame(f, ExecuteIf(f, regs, es[0], act), es[1..], act, valid, rf, r, val); }
  }

  // ---- the core ----

  /** The architectural registers. */
  function Arch(s: Core): (regs: seq<int>)
    ensures |regs| == |s.rrat|
  {
    seq(|s.rrat|, l requires 0 <= l < |s.rrat| => Val(s.rf, s.rrat[l]))
  }

  ghost predicate InOrderOk(f: Semantics, s: Core) {
    s.fsm == Normal ==> ResultsOk(f, Arch(s), s.rob, s.spec.active, s.valid, s.rf)
  }

  /** Functional units compute the operation on the operands they were given. */
  ghost predicate Computed(f: Semantics, s: Core, e: Event) {
    e.Announce? && e.i < |s.ph| == |s.rob| && s.ph[e.i].Executing? ==>
      e.val == f(s.rob[e.i].op.code, s.ph[e.i].v1, s.ph[e.i].v2)
  }

  /** A valid source of a live instruction holds the in-order value. */
  lemma SourceValue(f: Semantics, p: Params, s: Core, i: nat)
    requires Inv(p, s) && InOrderOk(f, s) && s.fsm == Normal && i < |s.rob| && s.rob[i].tag in s.spec.active
    ensures var regs := Ahead(f, Arch(s), s.rob[..i], s.spec.active); var e := s.rob[i];
            && (RegValid(s, e.s1) ==> Val(s.rf, e.s1) == Reg(regs, e.op.rs1))
            && (RegValid(s, e.s2) ==> Val(s.rf, e.s2) == Reg(regs, e.op.rs2))
  {
    hide Partition; hide ValidBits; hide Wakeups; hide Values; hide SpecInv; hide TagsOk; hide ResultsOk;
    hide SourcesOk;
    var act := s.spec.active;
    SourceIsOverlay(s.rrat, s.rob, act, i);
    assert s.rob == s.rob[..i] + s.rob[i..];
    ResultsAppend(f, Arch(s), s.rob[..i], s.rob[i..], act, s.valid, s.rf);
    assert Agree(s.rrat, Arch(s), s.valid, s.rf);
    AgreeAhead(f, s.rrat, Arch(s), s.rob[..i], act, s.valid, s.rf);
  }

  lemma AnnounceArch(p: Params, s: Core, i: nat, exc: bool, val: int)
    requires Inv(p, s) && Enabled(p, s, Announce(i, exc, val))
    ensures Arch(Step(p, s, Announce(i, exc, val))) == Arch(s)
  {
    hide Wakeups; hide Values; hide SpecInv; hide TagsOk; hide Speculation;
    if s.rob[i].op.rp > 0 { UniqueOwner(p, s, i); }
  }

  lemma AnnounceInOrder(f: Semantics, p: Params, s: Core, i: nat, exc: bool, val: int)
    requires Inv(p, s) && InOrderOk(f, s) && Enabled(p, s, Announce(i, exc, val))
    requires Computed(f, s, Announce(i, exc, val))
    ensures InOrderOk(f, Step(p, s, Announce(i, exc, val)))
  {
    AnnounceArch(p, s, i, exc, val);
    var r := s.rob[i].op.rp;
    if s.fsm == Normal && r > 0 {
      UniqueOwner(p, s, i);
      if s.rob[i].tag in s.spec.active {
        SourceValue(f, p, s, i);
        assert OperandOk(s, s.rob[i].s1, s.ph[i].v1) && OperandOk(s, s.rob[i].s2, s.ph[i].v2);
      }
      hide Partition; hide ValidBits; hide Wakeups; hide SpecInv; hide TagsOk; hide Speculation; hide ResultsOk;
      ResultsAnnounce(f, Arch(s), s.rob, s.spec.active, s.valid, s.rf, i, val);
    }
  }

  // ---- retirement ----

  /** What sequential retirement of the first `k` entries commits, in order. */
  function Committed(rrat: Rat, es: seq<Instr>, live: Mask, exc: Mask, async: bool, k: nat): seq<Op>
    requires k <= |es| <= |live| && |es| <= |exc|
  {
    if k == 0 then []
    else
      var ops := Committed(rrat, es, live, exc, async, k - 1);
      if CommitsAt(rrat, es, live, exc, async, k - 1) then ops + [es[k - 1].op] else ops
  }

  /** Nothing before it trapped, it is live, and it does not fault itself. */
  predicate CommitsAt(rrat: Rat, es: seq<Instr>, live: Mask, exc: Mask, async: bool, j: nat)
    requires j < |es| <= |live| && |es| <= |exc|
  {
    !RetireSeq(rrat, es, live, exc, async, j).trapped && live[j] && !(exc[j] && !async)
  }

  lemma {:induction false} ResultsAt(f: Semantics, regs: seq<int>, es: seq<Instr>, act: set<nat>, valid: set<nat>,
                                     rf: seq<int>, i: nat)
    requires ResultsOk(f, regs, es, act, valid, rf) && i < |es| && es[i].tag in act
    requires es[i].op.rp in valid && es[i].op.rp > 0
    ensures Val(rf, es[i].op.rp) == Result(f, Ahead(f, regs, es[..i], act), es[i].op)
    decreases i
  {
    if i > 0 {
      assert es[..i][1..] == es[1..][..i - 1];
      ResultsAt(f, ExecuteIf(f, regs, es[0], act), es[1..], act, valid, rf, i - 1);
    }
  }

  lemma AheadNext(f: Semantics, regs: seq<int>, es: seq<Instr>, act: set<nat>, k: nat)
    requires k < |es|
    ensures Ahead(f, regs, es[..k + 1], act) == ExecuteIf(f, Ahead(f, regs, es[..k], act), es[k], act)
  {
    assert es[..k + 1] == es[..k] + [es[k]];
    AheadAppend(f, regs, es[..k], [es[k]], act);
    var r := Ahead(f, regs, es[..k], act);
    assert [es[k]][1..] == [];
    assert Ahead(f, ExecuteIf(f, r, es[k], act), [], act) == ExecuteIf(f, r, es[k], act);
  }

  ghost predicate AllKnown(rat: Rat, valid: set<nat>) {
    forall l :: 0 <= l < |rat| ==> Known(valid, rat[l])
  }

  /** The retired table and the register file hold what the in-order machine holds after the
      committed operations, trap or not. */
  lemma {:induction false} CommitMatches(f: Semantics, rrat: Rat, regs: seq<int>, es: seq<Instr>, live: Mask, exc: Mask,
                                         async: bool, act: set<nat>, valid: set<nat>, rf: seq<int>, k: nat)
    requires k <= |es| == |live| == |exc| && |rrat| > 0 && rrat[0] == 0
    requires Agree(rrat, regs, valid, rf) && AllKnown(rrat, valid) && ResultsOk(f, regs, es, act, valid, rf)
    requires forall i :: 0 <= i < |es| ==> live[i] == (es[i].tag in act)
    requires forall i :: 0 <= i < |es| ==> es[i].op.rl < |rrat| && (es[i].op.rl == 0 <==> es[i].op.rp == 0)
    requires forall i :: 0 <= i < k ==> Known(valid, es[i].op.rp)
    ensures var o := RetireSeq(rrat, es, live, exc, async, k); var ops := Committed(rrat, es, live, exc, async, k);
            && Agree(o.rrat, Interpret(f, regs, ops), valid, rf) && AllKnown(o.rrat, valid) && o.rrat[0] == 0
            && (!o.trapped ==> Interpret(f, regs, ops) == Ahead(f, regs, es[..k], act))
    decreases k
  {
    if k == 0 {
      assert es[..0] == [];
    } else {
      var j := k - 1;
      CommitMatches(f, rrat, regs, es, live, exc, async, act, valid, rf, j);
      AheadNext(f, regs, es, act, j);
      CommitUnfolds(f, rrat, regs, es, live, exc, async, j);
      hide Agree; hide AllKnown; hide ResultsOk; hide Ahead; hide Val; hide Result; hide RetireSeq; hide Committed;
      hide Interpret;
      var ops := Committed(rrat, es, live, exc, async, j);
      if CommitsAt(rrat, es, live, exc, async, j) {
        if es[j].op.rp > 0 { ResultsAt(f, regs, es, act, valid, rf, j); }
        CommitOne(f, RetireSeq(rrat, es, live, exc, async, j).rrat, Interpret(f, regs, ops), es[j].op, valid, rf);
      }
    }
  }

  lemma CommitUnfolds(f: Semantics, rrat: Rat, regs: seq<int>, es: seq<Instr>, live: Mask, exc: Mask, async: bool,
                      j: nat)
    requires j < |es| <= |live| && |es| <= |exc|
    ensures var o, n := RetireSeq(rrat, es, live, exc, async, j), RetireSeq(rrat, es, live, exc, async, j + 1);
            var ops := Interpret(f, regs, Committed(rrat, es, live, exc, async, j));
            var more := Interpret(f, regs, Committed(rrat, es, live, exc, async, j + 1));
            && n.rrat == (if CommitsAt(rrat, es, live, exc, async, j) then Commit(o.rrat, es[j].op) else o.rrat)
            && more == (if CommitsAt(rrat, es, live, exc, async, j) then Execute(f, ops, es[j].op) else ops)
            && (!n.trapped ==> !o.trapped && (live[j] ==> CommitsAt(rrat, es, live, exc, async, j)))
  {
    var c := Committed(rrat, es, live, exc, async, j);
    assert (c + [es[j].op])[..|c|] == c;
  }

  lemma CommitOne(f: Semantics, rat: Rat, regs: seq<int>, op: Op, valid: set<nat>, rf: seq<int>)
    requires Agree(rat, regs, valid, rf) && AllKnown(rat, valid) && |rat| > 0 && rat[0] == 0
    requires op.rl < |rat| && (op.rl == 0 <==> op.rp == 0) && Known(valid, op.rp)
    requires op.rp > 0 ==> Val(rf, op.rp) == Result(f, regs, op)
    ensures Agree(Commit(rat, op), Execute(f, regs, op), valid, rf)
    ensures AllKnown(Commit(rat, op), valid) && Commit(rat, op)[0] == 0
  {
  }

  lemma {:induction false} NothingLive(rrat: Rat, es: seq<Instr>, live: Mask, exc: Mask, async: bool, k: nat)
    requires k <= |es| == |live| == |exc| && forall i :: 0 <= i < |es| ==> !live[i]
    ensures var o := RetireSeq(rrat, es, live, exc, async, k); o.rrat == rrat && !o.trapped
    ensures Committed(rrat, es, live, exc, async, k) == []
    decreases k
  {
    if k > 0 { NothingLive(rrat, es, live, exc, async, k - 1); }
  }

  function CommittedBy(s: Core, k: nat, async: bool): seq<Op>
    requires k <= |s.rob| == |s.ph|
  {
    Committed(s.rrat, s.rob, LiveMask(s), ExcMask(s), async, k)
  }

  /** Done instructions and mapped registers have valid values. */
  lemma RetiringKnown(p: Params, s: Core, k: nat, async: bool)
    requires Inv(p, s) && Enabled(p, s, Retire(k, async))
    ensures AllKnown(s.rrat, s.valid) && forall i :: 0 <= i < k ==> Known(s.valid, s.rob[i].op.rp)
  {
    hide Partition; hide Speculation; hide Wakeups; hide Values; hide SpecInv; hide TagsOk;
    forall i | 0 <= i < k ensures Known(s.valid, s.rob[i].op.rp) {
      if s.rob[i].op.rp > 0 { assert Finished(s, s.rob[i].op.rp); }
    }
  }

  lemma RetireArch(f: Semantics, p: Params, s: Core, k: nat, async: bool)
    requires Inv(p, s) && InOrderOk(f, s) && Enabled(p, s, Retire(k, async))
    ensures var n := RetireStep(s, k, async);
            && Arch(n) == Interpret(f, Arch(s), CommittedBy(s, k, async))
            && (s.fsm == Normal && !Retired(s, k, async).trapped ==>
                  Arch(n) == Ahead(f, Arch(s), s.rob[..k], s.spec.active))
  {
    hide Partition; hide ValidBits; hide Speculation; hide Wakeups; hide Values; hide SpecInv; hide TagsOk;
    hide ResultsOk; hide RetireSeq; hide Committed;
    var n := RetireStep(s, k, async);
    if s.fsm == Normal {
      RetiringKnown(p, s, k, async);
      assert Agree(s.rrat, Arch(s), s.valid, s.rf);
      CommitMatches(f, s.rrat, Arch(s), s.rob, LiveMask(s), ExcMask(s), async, s.spec.active, s.valid, s.rf, k);
      assert Arch(n) == Interpret(f, Arch(s), CommittedBy(s, k, async));
    } else {
      NothingLive(s.rrat, s.rob, LiveMask(s), ExcMask(s), async, k);
    }
  }

  lemma RetireInOrder(f: Semantics, p: Params, s: Core, k: nat, async: bool)
    requires Inv(p, s) && InOrderOk(f, s) && Enabled(p, s, Retire(k, async))
    ensures InOrderOk(f, RetireStep(s, k, async))
  {
    hide Inv; hide InOrderOk;
    var n := RetireStep(s, k, async);
    if n.fsm == Normal {
      RetireArch(f, p, s, k, async);
      SurvivingTags(p, s, k, async);
      RestInOrder(f, s, n, k);
    } else {
      TrappedInOrder(f, n);
    }
  }

  lemma TrappedInOrder(f: Semantics, n: Core)
    requires n.fsm != Normal
    ensures InOrderOk(f, n)
  {
  }

  lemma RestInOrder(f: Semantics, s: Core, n: Core, k: nat)
    requires InOrderOk(f, s) && s.fsm == Normal && k <= |s.rob|
    requires n.rob == s.rob[k..] && n.valid <= s.valid && n.rf == s.rf
    requires Arch(n) == Ahead(f, Arch(s), s.rob[..k], s.spec.active)
    requires forall i :: 0 <= i < |n.rob| ==> (n.rob[i].tag in s.spec.active <==> n.rob[i].tag in n.spec.active)
    ensures InOrderOk(f, n)
  {
    hide ResultsOk; hide Arch; hide Ahead;
    assert s.rob == s.rob[..k] + s.rob[k..];
    ResultsRest(f, Arch(s), s.rob[..k], s.rob[k..], s.spec.active, n.spec.active, s.valid, n.valid, s.rf);
  }

  lemma ResultsRest(f: Semantics, regs: seq<int>, xs: seq<Instr>, ys: seq<Instr>, a: set<nat>, b: set<nat>,
                    valid: set<nat>, less: set<nat>, rf: seq<int>)
    requires ResultsOk(f, regs, xs + ys, a, valid, rf) && less <= valid
    requires forall i :: 0 <= i < |ys| ==> (ys[i].tag in a <==> ys[i].tag in b)
    ensures ResultsOk(f, Ahead(f, regs, xs, a), ys, b, less, rf)
  {
    hide ResultsOk; hide Ahead;
    ResultsAppend(f, regs, xs, ys, a, valid, rf);
    ResultsAgree(f, Ahead(f, regs, xs, a), ys, a, b, valid, less, rf);
  }

  /** Freeing a tag touches no instruction that stays. */
  lemma SurvivingTags(p: Params, s: Core, k: nat, async: bool)
    requires Inv(p, s) && Enabled(p, s, Retire(k, async)) && RetireStep(s, k, async).fsm == Normal
    ensures var n := RetireStep(s, k, async);
            && s.fsm == Normal && !Retired(s, k, async).trapped
            && n.rob == s.rob[k..] && n.valid <= s.valid && n.rf == s.rf
            && forall i :: 0 <= i < |n.rob| ==> (n.rob[i].tag in s.spec.active <==> n.rob[i].tag in n.spec.active)
  {
    RetireTags(p, s, k, async);
    hide Inv; hide Retired;
    var n := RetireStep(s, k, async);
    forall i | 0 <= i < |n.rob| ensures n.rob[i].tag in s.spec.active <==> n.rob[i].tag in n.spec.active {
      assert n.rob[i] == s.rob[k + i];
    }
  }

  // ---- the other steps ----

  lemma TagInOrder(f: Semantics, p: Params, s: Core)
    requires Inv(p, s) && InOrderOk(f, s) && Enabled(p, s, Tag)
    ensures InOrderOk(f, Step(p, s, Tag))
  {
    hide Partition; hide ValidBits; hide Speculation; hide Wakeups; hide Values; hide Phases; hide RingOk;
    hide ResultsOk;
    if s.fsm == Normal {
      ChainMono(s.spec.tail, s.rob);
      ResultsAgree(f, Arch(s), s.rob, s.spec.active, Step(p, s, Tag).spec.active, s.valid, s.valid, s.rf);
    }
  }

  /** A group about to be renamed has no valid destination. */
  lemma GroupUnknown(p: Params, s: Core, i: nat)
    requires Inv(p, s) && s.tagBuf.Some? && i < |s.tagBuf.value.ops| && s.tagBuf.value.ops[i].rp > 0
    ensures s.tagBuf.value.ops[i].rp !in s.valid
  {
    hide Speculation; hide Wakeups; hide Values; hide SpecInv; hide TagsOk;
    var r := s.tagBuf.value.ops[i].rp;
    assert OpDsts(TagOps(s))[i] == r;
    assert Bag(s)[r] <= 1;
    assert forall j :: 0 <= j < |s.rob| ==> Dsts(s.rob)[j] == s.rob[j].op.rp;
  }

  lemma {:induction false} GroupOps(r: Rat, ops: seq<Op>, tag: nat, incr: bool, write: bool)
    ensures forall i :: 0 <= i < |ops| ==> RenameGroup(r, ops, tag, incr, write)[i].op == ops[i]
    decreases ops
  {
    if ops != [] { GroupOps(if write then Write(r, ops[0]) else r, ops[1..], tag, false, write); }
  }

  lemma RenameInOrder(f: Semantics, p: Params, s: Core)
    requires Inv(p, s) && InOrderOk(f, s) && Enabled(p, s, Rename)
    ensures InOrderOk(f, Step(p, s, Rename))
  {
    if s.fsm == Normal {
      var g := s.tagBuf.value;
      var grp := RenameGroup(s.spec.frat, g.ops, g.t.tag, g.t.incr, MayWrite(s.spec, g.t.tag));
      GroupOps(s.spec.frat, g.ops, g.t.tag, g.t.incr, MayWrite(s.spec, g.t.tag));
      forall i | 0 <= i < |grp| ensures grp[i].op.rp == 0 || grp[i].op.rp !in s.valid {
        if g.ops[i].rp > 0 { GroupUnknown(p, s, i); }
      }
      hide Inv; hide ResultsOk; hide RenameGroup;
      var act := s.spec.active;
      ResultsUnknown(f, Ahead(f, Arch(s), s.rob, act), grp, act, s.valid, s.rf);
      ResultsAppend(f, Arch(s), s.rob, grp, act, s.valid, s.rf);
    }
  }

  lemma RollbackInOrder(f: Semantics, p: Params, s: Core, j: nat)
    requires Inv(p, s) && InOrderOk(f, s) && Enabled(p, s, Rollback(j))
    ensures InOrderOk(f, Step(p, s, Rollback(j)))
  {
    hide Partition; hide ValidBits; hide Speculation; hide Wakeups; hide Values; hide SpecInv; hide ResultsOk;
    ResultsCut(f, s.spec.tail, Arch(s), s.rob, s.spec.active, s.valid, s.rf, s.spec.ring[j].tag);
  }

  function StepCommits(p: Params, s: Core, e: Event): seq<Op>
    requires Enabled(p, s, e)
  {
    if e.Retire? then CommittedBy(s, e.k, e.async) else []
  }

  /** Every step keeps the in-order results, and moves the architectural registers exactly by the
      operations it commits. */
  lemma StepInOrder(f: Semantics, p: Params, s: Core, e: Event)
    requires Inv(p, s) && InOrderOk(f, s) && Enabled(p, s, e) && Computed(f, s, e)
    ensures InOrderOk(f, Step(p, s, e))
    ensures Arch(Step(p, s, e)) == Interpret(f, Arch(s), StepCommits(p, s, e))
  {
    match e {
      case Tag => TagInOrder(f, p, s);
      case Rename => RenameInOrder(f, p, s);
      case Announce(i, exc, val) => AnnounceArch(p, s, i, exc, val); AnnounceInOrder(f, p, s, i, exc, val);
      case Retire(k, async) => RetireArch(f, p, s, k, async); RetireInOrder(f, p, s, k, async);
      case Rollback(j) => RollbackInOrder(f, p, s, j);
      case Restart => RestartEmpty(p, s);
      case _ =>
    }
  }

  lemma RestartEmpty(p: Params, s: Core)
    requires Inv(p, s) && s.fsm == Resume
    ensures s.rob == []
  {
  }

  // ---- every run ----

  /** The operations committed along a run, in order. */
  ghost function Program(p: Params, s: Core, es: seq<Event>, t: Core): seq<Op>
    requires Runs(p, s, es, t)
    decreases es
  {
    if es == [] then [] else StepCommits(p, s, es[0]) + Program(p, Step(p, s, es[0]), es[1..], t)
  }

  ghost predicate AllComputed(f: Semantics, p: Params, s: Core, es: seq<Event>, t: Core)
    requires Runs(p, s, es, t)
    decreases es
  {
    es != [] ==> Computed(f, s, es[0]) && AllComputed(f, p, Step(p, s, es[0]), es[1..], t)
  }

  lemma {:induction false} RunInOrder(f: Semantics, p: Params, s: Core, es: seq<Event>, t: Core)
    requires Inv(p, s) && InOrderOk(f, s) && Runs(p, s, es, t) && AllComputed(f, p, s, es, t)
    ensures Arch(t) == Interpret(f, Arch(s), Program(p, s, es, t)) && InOrderOk(f, t) && Inv(p, t)
    decreases es
  {
    hide Inv; hide InOrderOk;
    if es != [] {
      var n := Step(p, s, es[0]);
      StepInOrder(f, p, s, es[0]);
      StepInv(p, s, es[0]);
      RunInOrder(f, p, n, es[1..], t);
      InterpretAppend(f, Arch(s), StepCommits(p, s, es[0]), Program(p, n, es[1..], t));
    }
  }

  /** For every semantics of the operations and every interleaving of allocation, tagging, renaming,
      issue, announcement, group retirement, rollbacks and traps: the architectural registers are
      those of the in-order machine after the committed operations. */
  lemma InOrderEquivalence(f: Semantics, p: Params, es: seq<Event>, t: Core)
    requires p.Ok() && Runs(p, RenameCore.Init(p), es, t) && AllComputed(f, p, RenameCore.Init(p), es, t)
    ensures Arch(t) == Interpret(f, seq(p.logical, _ => 0), Program(p, RenameCore.Init(p), es, t))
  {
    var s := RenameCore.Init(p);
    RenameCore.InitInv(p);
    assert Arch(s) == seq(p.logical, _ => 0);
    RunInOrder(f, p, s, es, t);
  }

  // ---- clock cycles ----

  /** All steps of a history of clock cycles. */
  function AllSteps(h: seq<Moment>): seq<Event> {
    if h == [] then [] else AllSteps(h[..|h| - 1]) + Steps(h[|h| - 1].tick)
  }

  lemma {:induction false} HistoryRuns(p: Params, h: seq<Moment>, s: Core, c: Regs)
    requires p.Ok() && History(p, h, s, c)
    ensures Runs(p, RenameCore.Init(p), AllSteps(h), s)
    decreases h
  {
    hide Ready; hide Cycle; hide InputsOf;
    if h != [] {
      var l := h[|h| - 1];
      HistoryRuns(p, h[..|h| - 1], l.core, l.regs);
      JoinRuns(p, RenameCore.Init(p), AllSteps(h[..|h| - 1]), l.core, Steps(l.tick), s);
    }
  }

  /** So too for every history of clock cycles of the core with its checkpoint table's registers. */
  lemma InOrderHistory(f: Semantics, p: Params, h: seq<Moment>, s: Core, c: Regs)
    requires p.Ok() && History(p, h, s, c)
    ensures Runs(p, RenameCore.Init(p), AllSteps(h), s)
    ensures AllComputed(f, p, RenameCore.Init(p), AllSteps(h), s) ==>
              Arch(s) == Interpret(f, seq(p.logical, _ => 0), Program(p, RenameCore.Init(p), AllSteps(h), s))
  {
    hide History; hide Runs;
    HistoryRuns(p, h, s, c);
    if AllComputed(f, p, RenameCore.Init(p), AllSteps(h), s) { InOrderEquivalence(f, p, AllSteps(h), s); }
  }
}
