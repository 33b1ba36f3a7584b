/** The committed operations are the program's own path. Every operation has a true successor that
    depends on its operands; the frontend guesses successors, and a wrong guess is rolled back
    before the operation that reveals it finishes. */
module ProgramPath {
  import opened RatModel
  import opened BitMask
  import opened Retirement
  import opened Wrappers
  import opened CratSpec
  import opened RenameCore
  import opened RenameProofs
  import opened InOrder

  /** The code of the operation that follows, given the operands. */
  type Control = (nat, int, int) -> nat

  function NextCode(nx: Control, regs: seq<int>, op: Op): nat {
    nx(op.code, Reg(regs, op.rs1), Reg(regs, op.rs2))
  }

  // ---- paths of the in-order machine ----

  /** Where the machine stands after `ops`, having started at `start`. */
  function CodeAfter(f: Semantics, nx: Control, start: nat, regs: seq<int>, ops: seq<Op>): nat {
    if ops == [] then start else NextCode(nx, Interpret(f, regs, ops[..|ops| - 1]), ops[|ops| - 1])
  }

  /** Each operation is the one the machine stands at. */
  ghost predicate IsPath(f: Semantics, nx: Control, start: nat, regs: seq<int>, ops: seq<Op>)
    decreases |ops|
  {
    ops != [] ==>
      && IsPath(f, nx, start, regs, ops[..|ops| - 1])
      && ops[|ops| - 1].code == CodeAfter(f, nx, start, regs, ops[..|ops| - 1])
  }

  lemma {:induction false} PathAppend(f: Semantics, nx: Control, start: nat, regs: seq<int>, xs: seq<Op>, ys: seq<Op>)
    requires IsPath(f, nx, start, regs, xs)
    requires IsPath(f, nx, CodeAfter(f, nx, start, regs, xs), Interpret(f, regs, xs), ys)
    ensures IsPath(f, nx, start, regs, xs + ys)
    ensures CodeAfter(f, nx, start, regs, xs + ys)
            == CodeAfter(f, nx, CodeAfter(f, nx, start, regs, xs), Interpret(f, regs, xs), ys)
    decreases |ys|
  {
    if ys == [] {
      assert xs + ys == xs;
    } else {
      var n := |ys| - 1;
      assert (xs + ys)[..|xs + ys| - 1] == xs + ys[..n];
      PathAppend(f, nx, start, regs, xs, ys[..n]);
      InterpretAppend(f, regs, xs, ys[..n]);
    }
  }

  // ---- instructions in flight ----

  /** The code known to follow: after a live instruction that finished cleanly its successor, after
      one that did not nothing is known yet. */
  function Known1(nx: Control, pc: Option<nat>, regs: seq<int>, i: Instr, clean: bool, act: set<nat>): Option<nat> {
    if i.tag !in act then pc else if clean then Some(NextCode(nx, regs, i.op)) else None
  }

  function KnownAfter(f: Semantics, nx: Control, pc: Option<nat>, regs: seq<int>, es: seq<Instr>, clean: Mask,
                      act: set<nat>): Option<nat>
    requires |es| == |clean|
    decreases es
  {
    if es == [] then pc
    else KnownAfter(f, nx, Known1(nx, pc, regs, es[0], clean[0], act), ExecuteIf(f, regs, es[0], act), es[1..],
                    clean[1..], act)
  }

  /** Every live instruction has the code known to follow the one before it. */
  ghost predicate Links(f: Semantics, nx: Control, pc: Option<nat>, regs: seq<int>, es: seq<Instr>, clean: Mask,
                        act: set<nat>)
    requires |es| == |clean|
    decreases es
  {
    es != [] ==>
      && (es[0].tag in act && pc.Some? ==> es[0].op.code == pc.value)
      && Links(f, nx, Known1(nx, pc, regs, es[0], clean[0], act), ExecuteIf(f, regs, es[0], act), es[1..], clean[1..],
               act)
  }

  /** The next live instruction, if there is one, has this code. */
  ghost predicate NextLiveIs(es: seq<Instr>, act: set<nat>, code: nat)
    decreases es
  {
    es != [] ==> if es[0].tag in act then es[0].op.code == code else NextLiveIs(es[1..], act, code)
  }

  lemma {:induction false} LinksAppend(f: Semantics, nx: Control, pc: Option<nat>, regs: seq<int>, xs: seq<Instr>,
                                       cx: Mask, ys: seq<Instr>, cy: Mask, act: set<nat>)
    requires |xs| == |cx| && |ys| == |cy|
    ensures Links(f, nx, pc, regs, xs + ys, cx + cy, act) <==>
              && Links(f, nx, pc, regs, xs, cx, act)
              && Links(f, nx, KnownAfter(f, nx, pc, regs, xs, cx, act), Ahead(f, regs, xs, act), ys, cy, act)
    decreases xs
  {
    if xs == [] {
      assert xs + ys == ys && cx + cy == cy;
    } else {
      assert (xs + ys)[1..] == xs[1..] + ys && (cx + cy)[1..] == cx[1..] + cy;
      LinksAppend(f, nx, Known1(nx, pc, regs, xs[0], cx[0], act), ExecuteIf(f, regs, xs[0], act), xs[1..], cx[1..],
                  ys, cy, act);
    }
  }

  lemma {:induction false} LinksAgree(f: Semantics, nx: Control, pc: Option<nat>, regs: seq<int>, es: seq<Instr>,
                                      clean: Mask, a: set<nat>, b: set<nat>)
    requires |es| == |clean| && Links(f, nx, pc, regs, es, clean, a)
    requires forall i :: 0 <= i < |es| ==> (es[i].tag in a <==> es[i].tag in b)
    ensures Links(f, nx, pc, regs, es, clean, b)
    decreases es
  {
    if es != [] {
      LinksAgree(f, nx, Known1(nx, pc, regs, es[0], clean[0], a), ExecuteIf(f, regs, es[0], a), es[1..], clean[1..],
                 a, b);
    }
  }

  lemma {:induction false} LinksDead(f: Semantics, nx: Control, pc: Option<nat>, regs: seq<int>, es: seq<Instr>,
                                     clean: Mask, act: set<nat>)
    requires |es| == |clean| && forall i :: 0 <= i < |es| ==> es[i].tag !in act
    ensures Links(f, nx, pc, regs, es, clean, act)
    decreases es
  {
    if es != [] { LinksDead(f, nx, pc, regs, es[1..], clean[1..], act); }
  }

  lemma {:induction false} LinksCut(f: Semantics, nx: Control, prev: nat, pc: Option<nat>, regs: seq<int>,
                                    es: seq<Instr>, clean: Mask, act: set<nat>, t: nat)
    requires |es| == |clean| && Links(f, nx, pc, regs, es, clean, act) && Chain(prev, es)
    ensures Links(f, nx, pc, regs, es, clean, Upto(act, t))
    decreases es
  {
    if es != [] {
      if es[0].tag <= t {
        LinksCut(f, nx, es[0].tag, Known1(nx, pc, regs, es[0], clean[0], act), ExecuteIf(f, regs, es[0], act), es[1..],
                 clean[1..], act, t);
      } else {
        ChainMono(prev, es);
        LinksDead(f, nx, pc, regs, es, clean, Upto(act, t));
      }
    }
  }

  /** Learning what follows is consistent if the next live instruction is it. */
  lemma {:induction false} LinksLearn(f: Semantics, nx: Control, code: nat, regs: seq<int>, es: seq<Instr>, clean: Mask,
                                      act: set<nat>)
    requires |es| == |clean| && Links(f, nx, None, regs, es, clean, act) && NextLiveIs(es, act, code)
    ensures Links(f, nx, Some(code), regs, es, clean, act)
    decreases es
  {
    if es != [] && es[0].tag !in act { LinksLearn(f, nx, code, regs, es[1..], clean[1..], act); }
  }

  /** The i-th instruction finishes cleanly. */
  lemma {:induction false} LinksFinish(f: Semantics, nx: Control, pc: Option<nat>, regs: seq<int>, es: seq<Instr>,
                                       clean: Mask, act: set<nat>, i: nat)
    requires |es| == |clean| && Links(f, nx, pc, regs, es, clean, act) && i < |es| && !clean[i]
    requires es[i].tag in act ==>
               NextLiveIs(es[i + 1..], act, NextCode(nx, Ahead(f, regs, es[..i], act), es[i].op))
    ensures Links(f, nx, pc, regs, es, clean[i := true], act)
    decreases es
  {
    if i == 0 {
      assert es[..0] == [] && clean[0 := true][1..] == clean[1..];
      if es[0].tag in act {
        LinksLearn(f, nx, NextCode(nx, regs, es[0].op), ExecuteIf(f, regs, es[0], act), es[1..], clean[1..], act);
      }
    } else {
      assert es[..i][1..] == es[1..][..i - 1] && es[i + 1..] == es[1..][i..];
      assert clean[i := true][1..] == clean[1..][i - 1 := true];
      LinksFinish(f, nx, Known1(nx, pc, regs, es[0], clean[0], act), ExecuteIf(f, regs, es[0], act), es[1..],
                  clean[1..], act, i - 1);
    }
  }

  /** New instructions, none finished, have to begin where the path is known to go on. */
  lemma {:induction false} LinksFresh(f: Semantics, nx: Control, pc: Option<nat>, regs: seq<int>, es: seq<Instr>,
                                      clean: Mask, act: set<nat>)
    requires |es| == |clean| && forall i :: 0 <= i < |es| ==> !clean[i]
    requires pc.Some? ==> NextLiveIs(es, act, pc.value)
    ensures Links(f, nx, pc, regs, es, clean, act)
    decreases es
  {
    if es != [] {
      LinksFresh(f, nx, Known1(nx, pc, regs, es[0], clean[0], act), ExecuteIf(f, regs, es[0], act), es[1..],
                 clean[1..], act);
    }
  }

  /** A live instruction has the code known before it. */
  lemma {:induction false} LinksAt(f: Semantics, nx: Control, pc: Option<nat>, regs: seq<int>, es: seq<Instr>,
                                   clean: Mask, act: set<nat>, i: nat)
    requires |es| == |clean| && Links(f, nx, pc, regs, es, clean, act) && i < |es| && es[i].tag in act
    ensures var k := KnownAfter(f, nx, pc, regs, es[..i], clean[..i], act); k.Some? ==> es[i].op.code == k.value
    decreases i
  {
    if i > 0 {
      assert es[..i][1..] == es[1..][..i - 1] && clean[..i][1..] == clean[1..][..i - 1];
      LinksAt(f, nx, Known1(nx, pc, regs, es[0], clean[0], act), ExecuteIf(f, regs, es[0], act), es[1..], clean[1..],
              act, i - 1);
    }
  }

  lemma {:induction false} KnownNext(f: Semantics, nx: Control, pc: Option<nat>, regs: seq<int>, es: seq<Instr>,
                                     clean: Mask, act: set<nat>, k: nat)
    requires |es| == |clean| && k < |es|
    ensures KnownAfter(f, nx, pc, regs, es[..k + 1], clean[..k + 1], act)
            == Known1(nx, KnownAfter(f, nx, pc, regs, es[..k], clean[..k], act), Ahead(f, regs, es[..k], act), es[k],
                      clean[k], act)
    decreases k
  {
    if k == 0 {
      assert es[..1][1..] == [] && clean[..1][1..] == [];
    } else {
      assert es[..k + 1][1..] == es[1..][..k] && clean[..k + 1][1..] == clean[1..][..k];
      assert es[..k][1..] == es[1..][..k - 1] && clean[..k][1..] == clean[1..][..k - 1];
      KnownNext(f, nx, Known1(nx, pc, regs, es[0], clean[0], act), ExecuteIf(f, regs, es[0], act), es[1..],
                clean[1..], act, k - 1);
    }
  }

  // ---- the core ----

  /** Finished without an exception. */
  function CleanMask(s: Core): (m: Mask)
    ensures |m| == |s.ph|
    ensures forall i :: 0 <= i < |m| ==> m[i] == (s.ph[i].Done? && !s.ph[i].exc)
  {
    seq(|s.ph|, i requires 0 <= i < |s.ph| => s.ph[i].Done? && !s.ph[i].exc)
  }

  /** The instructions in flight continue the path from `at`, as far as it is known. */
  ghost predicate OnTrack(f: Semantics, nx: Control, at: nat, s: Core) {
    s.fsm == Normal ==>
      |s.rob| == |s.ph| && Links(f, nx, Some(at), Arch(s), s.rob, CleanMask(s), s.spec.active)
  }

  /** What the frontend and the branch unit owe. An instruction finishes cleanly only when the next
      live one is its true successor: otherwise the rollback comes first. A live group begins where
      the path is known to go on; where it is not known yet, anywhere. */
  ghost predicate Guided(f: Semantics, nx: Control, at: nat, s: Core, e: Event) {
    && (e.Announce? && e.i < |s.ph| == |s.rob| && s.ph[e.i].Executing? && !e.exc && s.fsm == Normal
        && s.rob[e.i].tag in s.spec.active ==>
          NextLiveIs(s.rob[e.i + 1..], s.spec.active, nx(s.rob[e.i].op.code, s.ph[e.i].v1, s.ph[e.i].v2)))
    && (e.Rename? && s.tagBuf.Some? && s.tagBuf.value.ops != [] && |s.ph| == |s.rob| && s.fsm == Normal
        && s.tagBuf.value.t.tag in s.spec.active ==>
          var k := KnownAfter(f, nx, Some(at), Arch(s), s.rob, CleanMask(s), s.spec.active);
          k.Some? ==> s.tagBuf.value.ops[0].code == k.value)
  }

  /** A live executing instruction holds the operands its true successor depends on. */
  lemma SuccessorKnown(f: Semantics, nx: Control, p: Params, s: Core, i: nat)
    requires Inv(p, s) && InOrderOk(f, s) && s.fsm == Normal && i < |s.rob| == |s.ph|
    requires s.rob[i].tag in s.spec.active && s.ph[i].Executing?
    ensures NextCode(nx, Ahead(f, Arch(s), s.rob[..i], s.spec.active), s.rob[i].op)
            == nx(s.rob[i].op.code, s.ph[i].v1, s.ph[i].v2)
  {
    SourceValue(f, p, s, i);
    hide Partition; hide ValidBits; hide Wakeups; hide SpecInv; hide TagsOk; hide Speculation; hide InOrderOk;
    hide Ahead; hide Arch; hide Shape;
    assert OperandOk(s, s.rob[i].s1, s.ph[i].v1) && OperandOk(s, s.rob[i].s2, s.ph[i].v2);
  }

  lemma AnnounceOnTrack(f: Semantics, nx: Control, at: nat, p: Params, s: Core, i: nat, exc: bool, val: int)
    requires Inv(p, s) && InOrderOk(f, s) && OnTrack(f, nx, at, s) && Enabled(p, s, Announce(i, exc, val))
    requires Guided(f, nx, at, s, Announce(i, exc, val))
    ensures OnTrack(f, nx, at, Step(p, s, Announce(i, exc, val)))
  {
    hide Inv; hide Links; hide NextLiveIs; hide InOrderOk; hide Arch; hide Ahead; hide NextCode; hide KnownAfter;
    var n := Step(p, s, Announce(i, exc, val));
    AnnounceArch(p, s, i, exc, val);
    if s.fsm == Normal {
      if exc {
        assert CleanMask(n) == CleanMask(s);
      } else {
        assert CleanMask(n) == CleanMask(s)[i := true];
        if s.rob[i].tag in s.spec.active { SuccessorKnown(f, nx, p, s, i); }
        LinksFinish(f, nx, Some(at), Arch(s), s.rob, CleanMask(s), s.spec.active, i);
      }
    }
  }

  lemma GroupLive(r: Rat, ops: seq<Op>, tag: nat, incr: bool, write: bool, act: set<nat>, code: nat)
    requires ops != [] && (tag in act ==> ops[0].code == code)
    ensures NextLiveIs(RenameGroup(r, ops, tag, incr, write), act, code)
  {
    var g := RenameGroup(r, ops, tag, incr, write);
    if tag !in act {
      GroupTags(r, ops, tag, incr, write);
      NoneLive(g, act, code);
    }
  }

  lemma {:induction false} GroupTags(r: Rat, ops: seq<Op>, tag: nat, incr: bool, write: bool)
    ensures forall i :: 0 <= i < |ops| ==> RenameGroup(r, ops, tag, incr, write)[i].tag == tag
    decreases ops
  {
    if ops != [] { GroupTags(if write then Write(r, ops[0]) else r, ops[1..], tag, false, write); }
  }

  lemma {:induction false} NoneLive(es: seq<Instr>, act: set<nat>, code: nat)
    requires forall i :: 0 <= i < |es| ==> es[i].tag !in act
    ensures NextLiveIs(es, act, code)
    decreases es
  {
    if es != [] { NoneLive(es[1..], act, code); }
  }

  lemma RenameOnTrack(f: Semantics, nx: Control, at: nat, p: Params, s: Core)
    requires Inv(p, s) && OnTrack(f, nx, at, s) && Enabled(p, s, Rename) && Guided(f, nx, at, s, Rename)
    ensures OnTrack(f, nx, at, Step(p, s, Rename))
  {
    var n := Step(p, s, Rename);
    if s.fsm == Normal {
      var g, act := s.tagBuf.value, s.spec.active;
      var write := MayWrite(s.spec, g.t.tag);
      var grp := RenameGroup(s.spec.frat, g.ops, g.t.tag, g.t.incr, write);
      var fresh1: Mask := seq(|grp|, _ => false);
      assert CleanMask(n) == CleanMask(s) + fresh1;
      assert Arch(n) == Arch(s);
      var k := KnownAfter(f, nx, Some(at), Arch(s), s.rob, CleanMask(s), act);
      if k.Some? { GroupLive(s.spec.frat, g.ops, g.t.tag, g.t.incr, write, act, k.value); }
      hide Inv; hide Links; hide RenameGroup; hide KnownAfter; hide NextLiveIs;
      LinksFresh(f, nx, k, Ahead(f, Arch(s), s.rob, act), grp, fresh1, act);
      LinksAppend(f, nx, Some(at), Arch(s), s.rob, CleanMask(s), grp, fresh1, act);
    }
  }

  // ---- retirement ----

  /** What retires is the next stretch of the path, and the known code after it is where the
      in-order machine then stands, unless a trap ended it. */
  lemma {:induction false} CommitPath(f: Semantics, nx: Control, at: nat, rrat: Rat, regs: seq<int>, es: seq<Instr>,
                                      live: Mask, exc: Mask, clean: Mask, async: bool, act: set<nat>, k: nat)
    requires k <= |es| == |live| == |exc| == |clean| && Links(f, nx, Some(at), regs, es, clean, act)
    requires forall i :: 0 <= i < |es| ==> live[i] == (es[i].tag in act)
    requires forall i :: 0 <= i < k ==> clean[i] == !exc[i]
    ensures var ops := Committed(rrat, es, live, exc, async, k);
            && IsPath(f, nx, at, regs, ops)
            && (!RetireSeq(rrat, es, live, exc, async, k).trapped ==>
                  && Interpret(f, regs, ops) == Ahead(f, regs, es[..k], act)
                  && KnownAfter(f, nx, Some(at), regs, es[..k], clean[..k], act)
                     == Some(CodeAfter(f, nx, at, regs, ops)))
    decreases k
  {
    if k == 0 {
      assert es[..0] == [] && clean[..0] == [];
    } else {
      var j := k - 1;
      CommitPath(f, nx, at, rrat, regs, es, live, exc, clean, async, act, j);
      AheadNext(f, regs, es, act, j);
      KnownNext(f, nx, Some(at), regs, es, clean, act, j);
      CommitUnfolds(f, rrat, regs, es, live, exc, async, j);
      CommittedNext(rrat, es, live, exc, async, j);
      if CommitsAt(rrat, es, live, exc, async, j) {
        LinksAt(f, nx, Some(at), regs, es, clean, act, j);
        var ops := Committed(rrat, es, live, exc, async, j);
        hide Links; hide KnownAfter; hide Ahead; hide RetireSeq; hide Committed; hide CommitsAt;
        PathNext(f, nx, at, regs, ops, es[j].op);
      } else {
        hide Links; hide KnownAfter; hide Ahead; hide Committed; hide IsPath; hide CodeAfter;
      }
    }
  }

  lemma PathNext(f: Semantics, nx: Control, at: nat, regs: seq<int>, ops: seq<Op>, op: Op)
    requires IsPath(f, nx, at, regs, ops) && op.code == CodeAfter(f, nx, at, regs, ops)
    ensures IsPath(f, nx, at, regs, ops + [op])
    ensures CodeAfter(f, nx, at, regs, ops + [op]) == NextCode(nx, Interpret(f, regs, ops), op)
  {
    assert (ops + [op])[..|ops|] == ops;
  }

  lemma CommittedNext(rrat: Rat, es: seq<Instr>, live: Mask, exc: Mask, async: bool, j: nat)
    requires j < |es| <= |live| && |es| <= |exc|
    ensures Committed(rrat, es, live, exc, async, j + 1)
            == if CommitsAt(rrat, es, live, exc, async, j) then Committed(rrat, es, live, exc, async, j) + [es[j].op]
               else Committed(rrat, es, live, exc, async, j)
    ensures var n := RetireSeq(rrat, es, live, exc, async, j + 1);
            && (!n.trapped && live[j] ==> CommitsAt(rrat, es, live, exc, async, j) && !exc[j])
            && (!n.trapped ==> !RetireSeq(rrat, es, live, exc, async, j).trapped)
  {
  }

  lemma RetirePath(f: Semantics, nx: Control, at: nat, p: Params, s: Core, k: nat, async: bool)
    requires Inv(p, s) && OnTrack(f, nx, at, s) && Enabled(p, s, Retire(k, async))
    ensures var ops := CommittedBy(s, k, async);
            && IsPath(f, nx, at, Arch(s), ops)
            && (s.fsm == Normal && !Retired(s, k, async).trapped ==>
                  KnownAfter(f, nx, Some(at), Arch(s), s.rob[..k], CleanMask(s)[..k], s.spec.active)
                  == Some(CodeAfter(f, nx, at, Arch(s), ops)))
  {
    hide Links; hide KnownAfter; hide RetireSeq; hide Committed; hide Arch;
    if s.fsm == Normal {
      CommitPath(f, nx, at, s.rrat, Arch(s), s.rob, LiveMask(s), ExcMask(s), CleanMask(s), async, s.spec.active, k);
    } else {
      NothingLive(s.rrat, s.rob, LiveMask(s), ExcMask(s), async, k);
    }
  }

  lemma RetireOnTrack(f: Semantics, nx: Control, at: nat, p: Params, s: Core, k: nat, async: bool)
    requires Inv(p, s) && InOrderOk(f, s) && OnTrack(f, nx, at, s) && Enabled(p, s, Retire(k, async))
    ensures OnTrack(f, nx, CodeAfter(f, nx, at, Arch(s), CommittedBy(s, k, async)), RetireStep(s, k, async))
  {
    var n := RetireStep(s, k, async);
    if n.fsm == Normal {
      RetirePath(f, nx, at, p, s, k, async);
      RetireArch(f, p, s, k, async);
      SurvivingTags(p, s, k, async);
      assert CleanMask(n) == CleanMask(s)[k..];
      RestOnTrack(f, nx, at, s, n, k, CodeAfter(f, nx, at, Arch(s), CommittedBy(s, k, async)));
    }
  }

  lemma RestOnTrack(f: Semantics, nx: Control, at: nat, s: Core, n: Core, k: nat, next: nat)
    requires OnTrack(f, nx, at, s) && s.fsm == Normal && k <= |s.rob| == |s.ph| && n.rob == s.rob[k..]
    requires CleanMask(n) == CleanMask(s)[k..] && Arch(n) == Ahead(f, Arch(s), s.rob[..k], s.spec.active)
    requires KnownAfter(f, nx, Some(at), Arch(s), s.rob[..k], CleanMask(s)[..k], s.spec.active) == Some(next)
    requires forall i :: 0 <= i < |n.rob| ==> (n.rob[i].tag in s.spec.active <==> n.rob[i].tag in n.spec.active)
    ensures OnTrack(f, nx, next, n)
  {
    hide Links; hide KnownAfter; hide Arch; hide Ahead;
    var c := CleanMask(s);
    assert s.rob == s.rob[..k] + s.rob[k..] && c == c[..k] + c[k..];
    LinksAppend(f, nx, Some(at), Arch(s), s.rob[..k], c[..k], s.rob[k..], c[k..], s.spec.active);
    LinksAgree(f, nx, Some(next), Arch(n), n.rob, CleanMask(n), s.spec.active, n.spec.active);
  }

  // ---- the other steps ----

  lemma TagOnTrack(f: Semantics, nx: Control, at: nat, p: Params, s: Core)
    requires Inv(p, s) && OnTrack(f, nx, at, s) && Enabled(p, s, Tag)
    ensures OnTrack(f, nx, at, Step(p, s, Tag))
  {
    hide Partition; hide ValidBits; hide Speculation; hide Wakeups; hide Values; hide Phases; hide RingOk; hide Links;
    if s.fsm == Normal {
      ChainMono(s.spec.tail, s.rob);
      LinksAgree(f, nx, Some(at), Arch(s), s.rob, CleanMask(s), s.spec.active, Step(p, s, Tag).spec.active);
    }
  }

  lemma RollbackOnTrack(f: Semantics, nx: Control, at: nat, p: Params, s: Core, j: nat)
    requires Inv(p, s) && OnTrack(f, nx, at, s) && Enabled(p, s, Rollback(j))
    ensures OnTrack(f, nx, at, Step(p, s, Rollback(j)))
  {
    hide Partition; hide ValidBits; hide Speculation; hide Wakeups; hide Values; hide SpecInv; hide Links;
    LinksCut(f, nx, s.spec.tail, Some(at), Arch(s), s.rob, CleanMask(s), s.spec.active, s.spec.ring[j].tag);
  }

  lemma RowOnTrack(f: Semantics, nx: Control, at: nat, p: Params, s: Core, e: Event)
    requires Inv(p, s) && OnTrack(f, nx, at, s) && Enabled(p, s, e) && (e.Alloc? || e.Insert? || e.Take?)
    ensures OnTrack(f, nx, at, Step(p, s, e))
  {
    hide Partition; hide ValidBits; hide Speculation; hide Wakeups; hide Values; hide SpecInv; hide Links;
    var n := Step(p, s, e);
    assert CleanMask(n) == CleanMask(s) && Arch(n) == Arch(s);
  }

  /** Every step but the restart after a trap keeps the instructions in flight on track, and commits
      a stretch of the path. */
  lemma StepOnTrack(f: Semantics, nx: Control, at: nat, p: Params, s: Core, e: Event)
    requires Inv(p, s) && InOrderOk(f, s) && OnTrack(f, nx, at, s) && Enabled(p, s, e) && Guided(f, nx, at, s, e)
    requires !e.Restart?
    ensures var ops := StepCommits(p, s, e);
            && IsPath(f, nx, at, Arch(s), ops)
            && OnTrack(f, nx, CodeAfter(f, nx, at, Arch(s), ops), Step(p, s, e))
  {
    hide OnTrack; hide Inv; hide InOrderOk; hide Guided;
    match e {
      case Tag => TagOnTrack(f, nx, at, p, s);
      case Rename => RenameOnTrack(f, nx, at, p, s);
      case Announce(i, exc, val) => AnnounceOnTrack(f, nx, at, p, s, i, exc, val);
      case Retire(k, async) => RetirePath(f, nx, at, p, s, k, async); RetireOnTrack(f, nx, at, p, s, k, async);
      case Rollback(j) => RollbackOnTrack(f, nx, at, p, s, j);
      case _ => RowOnTrack(f, nx, at, p, s, e);
    }
  }

  // ---- every run ----

  ghost predicate AllGuided(f: Semantics, nx: Control, at: nat, p: Params, s: Core, es: seq<Event>, t: Core)
    requires Runs(p, s, es, t)
    decreases es
  {
    es != [] ==>
      && Guided(f, nx, at, s, es[0]) && !es[0].Restart?
      && AllGuided(f, nx, CodeAfter(f, nx, at, Arch(s), StepCommits(p, s, es[0])), p, Step(p, s, es[0]), es[1..], t)
  }

  /** From reset or from the restart after a trap, with nothing in flight, up to the next restart: the
      operations committed are the path of the program from where the frontend was started, however
      it guessed and whatever was rolled back. */
  lemma {:induction false} CommitsThePath(f: Semantics, nx: Control, at: nat, p: Params, s: Core, es: seq<Event>,
                                          t: Core)
    requires Inv(p, s) && InOrderOk(f, s) && OnTrack(f, nx, at, s) && Runs(p, s, es, t)
    requires AllComputed(f, p, s, es, t) && AllGuided(f, nx, at, p, s, es, t)
    ensures IsPath(f, nx, at, Arch(s), Program(p, s, es, t))
    decreases es
  {
    hide Inv; hide InOrderOk; hide OnTrack; hide IsPath; hide Guided; hide Computed;
    if es != [] {
      var n, ops := Step(p, s, es[0]), StepCommits(p, s, es[0]);
      StepOnTrack(f, nx, at, p, s, es[0]);
      StepInOrder(f, p, s, es[0]);
      StepInv(p, s, es[0]);
      CommitsThePath(f, nx, CodeAfter(f, nx, at, Arch(s), ops), p, n, es[1..], t);
      PathAppend(f, nx, at, Arch(s), ops, Program(p, n, es[1..], t));
    } else {
      NoPath(f, nx, at, Arch(s));
    }
  }

  lemma NoPath(f: Semantics, nx: Control, at: nat, regs: seq<int>)
    ensures IsPath(f, nx, at, regs, [])
  {
  }

  /** Nothing in flight is on track from anywhere. */
  lemma EmptyOnTrack(f: Semantics, nx: Control, at: nat, s: Core)
    requires s.rob == [] && s.ph == []
    ensures OnTrack(f, nx, at, s)
  {
  }

  /** From reset: the in-order machine started at `at` runs through exactly the committed operations,
      and ends with the core's architectural registers. */
  lemma RunsTheProgram(f: Semantics, nx: Control, at: nat, p: Params, es: seq<Event>, t: Core)
    requires p.Ok() && Runs(p, RenameCore.Init(p), es, t) && AllComputed(f, p, RenameCore.Init(p), es, t)
    requires AllGuided(f, nx, at, p, RenameCore.Init(p), es, t)
    ensures var regs: seq<int> := seq(p.logical, _ => 0); var ops := Program(p, RenameCore.Init(p), es, t);
            IsPath(f, nx, at, regs, ops) && Arch(t) == Interpret(f, regs, ops)
  {
    var s := RenameCore.Init(p);
    RenameCore.InitInv(p);
    EmptyOnTrack(f, nx, at, s);
    assert Arch(s) == seq(p.logical, _ => 0);
    hide Runs; hide AllGuided; hide AllComputed;
    CommitsThePath(f, nx, at, p, s, es, t);
    InOrderEquivalence(f, p, es, t);
  }

  /** From the restart after any trap of any run: what commits from there on is the path from where
      the frontend resumes, on the registers the run before it left. */
  lemma ResumesTheProgram(f: Semantics, nx: Control, at: nat, p: Params, es: seq<Event>, s: Core, fs: seq<Event>,
                          t: Core)
    requires p.Ok() && Runs(p, RenameCore.Init(p), es, s) && AllComputed(f, p, RenameCore.Init(p), es, s)
    requires Enabled(p, s, Restart) && Runs(p, Step(p, s, Restart), fs, t)
    requires AllComputed(f, p, Step(p, s, Restart), fs, t) && AllGuided(f, nx, at, p, Step(p, s, Restart), fs, t)
    ensures var regs := Interpret(f, seq(p.logical, _ => 0), Program(p, RenameCore.Init(p), es, s));
            var ops := Program(p, Step(p, s, Restart), fs, t);
            IsPath(f, nx, at, regs, ops) && Arch(t) == Interpret(f, regs, ops)
  {
    hide *;
    Reached(f, p, es, s);
    InOrderEquivalence(f, p, es, s);
    Restarted(f, nx, at, p, s);
    CommitsThePath(f, nx, at, p, Step(p, s, Restart), fs, t);
    RunInOrder(f, p, Step(p, s, Restart), fs, t);
  }

  lemma Reached(f: Semantics, p: Params, es: seq<Event>, s: Core)
    requires p.Ok() && Runs(p, RenameCore.Init(p), es, s) && AllComputed(f, p, RenameCore.Init(p), es, s)
    ensures Inv(p, s) && InOrderOk(f, s)
  {
    RenameCore.InitInv(p);
    assert InOrderOk(f, RenameCore.Init(p));
    hide *;
    RunInOrder(f, p, RenameCore.Init(p), es, s);
  }

  lemma Restarted(f: Semantics, nx: Control, at: nat, p: Params, s: Core)
    requires Inv(p, s) && InOrderOk(f, s) && Enabled(p, s, Restart)
    ensures var n := Step(p, s, Restart);
            Inv(p, n) && InOrderOk(f, n) && OnTrack(f, nx, at, n) && Arch(n) == Arch(s)
  {
    hide Inv; hide InOrderOk; hide OnTrack; hide Arch;
    NothingInFlight(p, s);
    EmptyOnTrack(f, nx, at, Step(p, s, Restart));
    StepInOrder(f, p, s, Restart);
    StepInv(p, s, Restart);
    assert StepCommits(p, s, Restart) == [];
  }

  lemma NothingInFlight(p: Params, s: Core)
    requires Inv(p, s) && s.fsm == Resume
    ensures s.rob == [] && s.ph == []
  {
    hide Partition; hide ValidBits; hide Speculation; hide Wakeups; hide Values; hide SpecInv; hide TagsOk;
  }
}
