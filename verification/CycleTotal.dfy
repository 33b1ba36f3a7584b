/** No cycle the registers allow is missing from the histories: whenever the checkpoint table and the
    queues are ready for a set of simultaneous actions, the core's steps can perform them. */
module CycleTotal {
  import opened Wrappers
  import opened CratSpec
  import opened RenameCore
  import opened RenameProofs
  import opened CheckpointRat
  import opened CoreCycle

  function Front(k: Tick): seq<Event> {
    Opt(k.restart, Restart) + Opt(k.rename, Rename) + Opt(k.tag, Tag)
  }

  function Back(k: Tick): seq<Event> {
    (if k.rollback.Some? then [Rollback(k.rollback.value)] else [])
    + (if k.retire.Some? then [Retire(k.retire.value.0, k.retire.value.1)] else [])
  }

  lemma OneRun(p: Params, s: Core, e: Event)
    requires Enabled(p, s, e)
    ensures Runs(p, s, [e], Step(p, s, e))
  {
    assert [e][1..] == [];
    assert Runs(p, Step(p, s, e), [], Step(p, s, e));
  }

  /** Restart and rename. */
  lemma RenamePossible(p: Params, s: Core, c: Regs, k: Tick) returns (m: Core)
    requires p.Ok() && PairInv(p, s, c) && Ready(p, s, c, k)
    ensures Runs(p, s, Opt(k.restart, Restart) + Opt(k.rename, Rename), m)
  {
    AfterPipe(p, s, c, k);
    m := s;
    if k.restart {
      NoRenameInResume(p, s, c);
      OneRun(p, s, Restart);
      m := Step(p, s, Restart);
      assert [Restart] + [] == [Restart];
    } else if k.rename {
      RenameTick(p, s, PipeWrite(c));
      OneRun(p, s, Rename);
      m := Step(p, s, Rename);
      assert [] + [Rename] == [Rename];
    }
  }

  lemma FrontPossible(p: Params, s: Core, c: Regs, k: Tick) returns (m: Core)
    requires p.Ok() && PairInv(p, s, c) && Awaited(s, c) && Ready(p, s, c, k)
    ensures Runs(p, s, Front(k), m)
  {
    hide Runs; hide Inv; hide Rep; hide Enabled; hide Step;
    m := RenamePossible(p, s, c, k);
    if k.tag {
      AfterPipe(p, s, c, k);
      var d := RestartRename(p, s, PipeWrite(c), k, m);
      TagOkFrame(p, s, c, m, d);
      TagTick(p, m, d);
      OneRun(p, m, Tag);
      JoinRuns(p, s, Opt(k.restart, Restart) + Opt(k.rename, Rename), m, [Tag], Step(p, m, Tag));
      m := Step(p, m, Tag);
    } else {
      assert Front(k) == Opt(k.restart, Restart) + Opt(k.rename, Rename);
    }
  }

  /** Quiet steps finish instructions, and undo none. */
  lemma {:induction false} QuietDone(p: Params, s: Core, es: seq<Event>, t: Core)
    requires Runs(p, s, es, t) && forall i :: 0 <= i < |es| ==> IsQuiet(es[i])
    ensures |t.ph| == |s.ph| && t.rob == s.rob && t.spec == s.spec && t.fsm == s.fsm
    ensures forall i :: 0 <= i < |s.ph| && s.ph[i].Done? ==> t.ph[i].Done?
    decreases es
  {
    if es != [] {
      var n := Step(p, s, es[0]);
      QuietDone(p, n, es[1..], t);
    }
  }

  lemma RollbackPossible(p: Params, s: Core, m: Core, j: nat)
    requires RollbackOk(s, j) && s.spec.ring <= m.spec.ring && s.rob <= m.rob && m.fsm == s.fsm
    ensures Enabled(p, m, Rollback(j))
  {
    var i :| 0 <= i < |s.rob| == |s.ph| && s.rob[i].tag == s.spec.ring[j].tag && !s.ph[i].Done?;
    assert m.rob[i].tag == m.spec.ring[j].tag;
  }

  lemma RetirePossible(p: Params, s: Core, m: Core, n: nat, async: bool)
    requires RetireOk(s, n) && s.rob <= m.rob && |m.ph| == |m.rob| && m.fsm == s.fsm
    requires forall i :: 0 <= i < |s.ph| && s.ph[i].Done? ==> m.ph[i].Done?
    ensures Enabled(p, m, Retire(n, async))
  {
    assert m.rob[..n] == s.rob[..n];
  }

  /** Rollback and retirement after any quiet steps. */
  lemma BackPossible(p: Params, s: Core, k: Tick, m: Core) returns (t: Core)
    requires s.spec.ring <= m.spec.ring && s.rob <= m.rob && |m.ph| == |m.rob| && m.fsm == s.fsm
    requires forall i :: 0 <= i < |s.ph| && s.ph[i].Done? ==> i < |m.ph| && m.ph[i].Done?
    requires k.rollback.Some? ==> RollbackOk(s, k.rollback.value)
    requires k.retire.Some? ==> RetireOk(s, k.retire.value.0)
    ensures Runs(p, m, Back(k), t)
  {
    hide Runs; hide RollbackOk; hide RetireOk;
    var roll := if k.rollback.Some? then [Rollback(k.rollback.value)] else [];
    var ret := if k.retire.Some? then [Retire(k.retire.value.0, k.retire.value.1)] else [];
    var n := m;
    if k.rollback.Some? {
      RollbackPossible(p, s, m, k.rollback.value);
      OneRun(p, m, roll[0]);
      n := Step(p, m, roll[0]);
    } else {
      NoRun(p, m);
    }
    t := n;
    if k.retire.Some? {
      RetirePossible(p, s, n, k.retire.value.0, k.retire.value.1);
      OneRun(p, n, ret[0]);
      t := Step(p, n, ret[0]);
    } else {
      NoRun(p, n);
    }
    JoinRuns(p, m, roll, n, ret, t);
  }

  lemma NoRun(p: Params, s: Core)
    ensures Runs(p, s, [], s)
  {
  }

  /** A cycle the registers are ready for can be performed, together with any quiet steps possible
      after its front part: the history goes on. */
  lemma TickPossible(p: Params, h: seq<Moment>, s: Core, c: Regs, k: Tick, m: Core, n: Core) returns (t: Core)
    requires p.Ok() && History(p, h, s, c) && Ready(p, s, c, k)
    requires Runs(p, s, Front(k), m) && Runs(p, m, k.quiet, n)
    ensures History(p, h + [Moment(s, c, k)], t, Cycle(p, c, InputsOf(p, s, k)))
  {
    HistoryInv(p, h, s, c);
    t := StepsPossible(p, s, c, k, m, n);
    hide Ready; hide Runs; hide Cycle;
    var l := h + [Moment(s, c, k)];
    assert l[..|l| - 1] == h;
  }

  lemma StepsPossible(p: Params, s: Core, c: Regs, k: Tick, m: Core, n: Core) returns (t: Core)
    requires p.Ok() && PairInv(p, s, c) && Awaited(s, c) && Ready(p, s, c, k)
    requires Runs(p, s, Front(k), m) && Runs(p, m, k.quiet, n)
    ensures Runs(p, s, Steps(k), t)
  {
    hide Runs; hide PairInv; hide Awaited; hide Ready; hide RollbackOk; hide RetireOk; hide Steps; hide Front;
    hide Back;
    FrontFacts(p, s, c, k, m);
    ReadyBack(p, s, c, k);
    QuietDone(p, m, k.quiet, n);
    if k.restart {
      t := n;
      NoRun(p, n);
    } else {
      t := BackPossible(p, s, k, n);
    }
    JoinRuns(p, m, k.quiet, n, Back(k), t);
    JoinRuns(p, s, Front(k), m, k.quiet + Back(k), t);
    StepsAre(k);
  }

  lemma StepsAre(k: Tick)
    ensures Steps(k) == Front(k) + (k.quiet + Back(k))
  {
  }

  lemma FrontFacts(p: Params, s: Core, c: Regs, k: Tick, m: Core)
    requires p.Ok() && PairInv(p, s, c) && Awaited(s, c) && Ready(p, s, c, k) && Runs(p, s, Front(k), m)
    ensures s.spec.ring <= m.spec.ring && s.rob <= m.rob && s.ph <= m.ph && (!k.restart ==> m.fsm == s.fsm)
    ensures |m.ph| == |m.rob|
  {
    var d := FrontTick(p, s, c, k, m);
    SameLengths(p, m);
  }

  lemma ReadyBack(p: Params, s: Core, c: Regs, k: Tick)
    requires p.Ok() && Ready(p, s, c, k)
    ensures k.rollback.Some? ==> RollbackOk(s, k.rollback.value)
    ensures k.retire.Some? ==> RetireOk(s, k.retire.value.0)
    ensures k.restart ==> Back(k) == []
    ensures forall i :: 0 <= i < |k.quiet| ==> IsQuiet(k.quiet[i])
  {
  }

  lemma SameLengths(p: Params, m: Core)
    requires Inv(p, m)
    ensures |m.ph| == |m.rob|
  {
  }
}
