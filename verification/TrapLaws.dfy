/** Which instructions commit: retirement follows what the functional units announced, live
    instructions in order up to the first that faults. */
module TrapLaws {
  import opened RatModel
  import opened BitMask
  import opened Retirement
  import opened RenameCore
  import opened RenameProofs
  import opened InOrder
  import opened CratSpec
  import opened Wrappers

  /** The operations of the live instructions, in order. */
  function LiveOps(es: seq<Instr>, act: set<nat>): seq<Op>
    decreases |es|
  {
    if es == [] then []
    else
      var n := |es| - 1;
      LiveOps(es[..n], act) + if es[n].tag in act then [es[n].op] else []
  }

  predicate Live(s: Core, i: nat) {
    i < |s.rob| && s.rob[i].tag in s.spec.active
  }

  lemma LiveNext(es: seq<Instr>, act: set<nat>, k: nat)
    requires k < |es|
    ensures LiveOps(es[..k + 1], act) == LiveOps(es[..k], act) + if es[k].tag in act then [es[k].op] else []
  {
    assert es[..k + 1][..k] == es[..k];
  }

  // ---- one group ----

  lemma {:induction false} CleanPrefix(rrat: Rat, es: seq<Instr>, live: Mask, exc: Mask, async: bool, act: set<nat>,
                                       k: nat)
    requires k <= |es| == |live| == |exc| && forall i :: 0 <= i < |es| ==> live[i] == (es[i].tag in act)
    requires forall i :: 0 <= i < k && live[i] ==> !exc[i]
    ensures !RetireSeq(rrat, es, live, exc, async, k).trapped
    ensures Committed(rrat, es, live, exc, async, k) == LiveOps(es[..k], act)
    decreases k
  {
    if k > 0 {
      CleanPrefix(rrat, es, live, exc, async, act, k - 1);
      LiveNext(es, act, k - 1);
    } else {
      assert es[..0] == [];
    }
  }

  /** Nothing commits after a trap. */
  lemma {:induction false} TrapEnds(rrat: Rat, es: seq<Instr>, live: Mask, exc: Mask, async: bool, j: nat, k: nat)
    requires j <= k <= |es| == |live| == |exc| && RetireSeq(rrat, es, live, exc, async, j).trapped
    ensures RetireSeq(rrat, es, live, exc, async, k).trapped
    ensures RetireSeq(rrat, es, live, exc, async, k).rrat == RetireSeq(rrat, es, live, exc, async, j).rrat
    ensures Committed(rrat, es, live, exc, async, k) == Committed(rrat, es, live, exc, async, j)
    decreases k
  {
    if k > j { TrapEnds(rrat, es, live, exc, async, j, k - 1); }
  }

  lemma ShapeMasks(p: Params, s: Core)
    requires Inv(p, s) && s.fsm == Normal
    ensures |s.rob| == |s.ph| && |s.rrat| > 0 && s.rrat[0] == 0
    ensures forall i :: 0 <= i < |s.rob| ==>
              && LiveMask(s)[i] == (s.rob[i].tag in s.spec.active)
              && s.rob[i].op.rl < |s.rrat| && (s.rob[i].op.rl == 0 ==> s.rob[i].op.rp == 0)
  {
    hide Partition; hide ValidBits; hide Speculation; hide Wakeups; hide Values; hide SpecInv; hide TagsOk;
  }

  /** What a group does to the core, given the outcome of retiring its entries one at a time. */
  lemma RetireIs(p: Params, s: Core, k: nat, async: bool)
    requires Enabled(p, s, Retire(k, async)) && |s.rob| == |s.ph| && s.fsm != Resume
    ensures var n := Step(p, s, Retire(k, async)); var o := Retired(s, k, async);
            && n.rrat == o.rrat && n.rob == s.rob[k..] && n.allocBuf == s.allocBuf && n.tagBuf == s.tagBuf
            && StepCommits(p, s, Retire(k, async)) == CommittedBy(s, k, async)
            && n.fsm == (if s.fsm == Normal && !o.trapped then Normal
                         else if n.rob == [] && n.allocBuf.None? && n.tagBuf.None? then Resume else Flush)
  {
    hide RetireSeq; hide Committed; hide CountIncr; hide FreeStep;
  }

  /** A group without a live fault commits its live instructions and no other. */
  lemma CleanRetires(p: Params, s: Core, k: nat, async: bool)
    requires Inv(p, s) && s.fsm == Normal && Enabled(p, s, Retire(k, async))
    requires forall i :: 0 <= i < k && Live(s, i) ==> s.ph[i] == Done(false)
    ensures var n := Step(p, s, Retire(k, async));
            && n.fsm == Normal && n.rrat == Overlay(s.rrat, s.rob[..k], s.spec.active)
            && StepCommits(p, s, Retire(k, async)) == LiveOps(s.rob[..k], s.spec.active)
  {
    ShapeMasks(p, s);
    CleanPrefix(s.rrat, s.rob, LiveMask(s), ExcMask(s), async, s.spec.active, k);
    RetireIsOverlay(s.rrat, s.rob, LiveMask(s), ExcMask(s), async, s.spec.active, k);
    RetireIs(p, s, k, async);
    hide Inv; hide LiveOps; hide Overlay; hide Step; hide StepCommits; hide RetireSeq; hide Committed; hide Enabled;
  }

  /** The first live fault of a group. */
  lemma FaultyPrefix(rrat: Rat, es: seq<Instr>, live: Mask, exc: Mask, async: bool, act: set<nat>, j: nat, k: nat)
    requires j < k <= |es| == |live| == |exc| && forall i :: 0 <= i < |es| ==> live[i] == (es[i].tag in act)
    requires |rrat| > 0 && rrat[0] == 0
    requires forall i :: 0 <= i < |es| ==> es[i].op.rl < |rrat| && (es[i].op.rl == 0 ==> es[i].op.rp == 0)
    requires (forall i :: 0 <= i < j && live[i] ==> !exc[i]) && live[j] && exc[j]
    ensures var o := RetireSeq(rrat, es, live, exc, async, k); var ends := if async then j + 1 else j;
            && o.trapped && o.rrat == Overlay(rrat, es[..ends], act)
            && Committed(rrat, es, live, exc, async, k) == LiveOps(es[..ends], act)
  {
    CleanPrefix(rrat, es, live, exc, async, act, j);
    RetireIsOverlay(rrat, es, live, exc, async, act, j);
    LiveNext(es, act, j);
    OverlayNext(rrat, es, act, j);
    assert RetireSeq(rrat, es, live, exc, async, j + 1)
        == RetireOne(RetireSeq(rrat, es, live, exc, async, j), es[j], true, true, async);
    hide Overlay; hide LiveOps;
    TrapEnds(rrat, es, live, exc, async, j + 1, k);
  }

  /** The first live fault traps. What precedes it commits, and it does itself exactly if it carries
      an asynchronous interrupt; the rest is dropped. */
  lemma FaultTraps(p: Params, s: Core, k: nat, async: bool, j: nat)
    requires Inv(p, s) && s.fsm == Normal && Enabled(p, s, Retire(k, async))
    requires j < k && Live(s, j) && s.ph[j] == Done(true)
    requires forall i :: 0 <= i < j && Live(s, i) ==> s.ph[i] == Done(false)
    ensures var n := Step(p, s, Retire(k, async)); var ends := if async then j + 1 else j;
            && n.fsm == (if n.rob == [] && n.allocBuf.None? && n.tagBuf.None? then Resume else Flush)
            && n.rrat == Overlay(s.rrat, s.rob[..ends], s.spec.active)
            && StepCommits(p, s, Retire(k, async)) == LiveOps(s.rob[..ends], s.spec.active)
  {
    ShapeMasks(p, s);
    FaultyPrefix(s.rrat, s.rob, LiveMask(s), ExcMask(s), async, s.spec.active, j, k);
    RetireIs(p, s, k, async);
    hide Inv; hide LiveOps; hide Overlay; hide Step; hide StepCommits; hide RetireSeq; hide Committed; hide Enabled;
  }

  lemma OverlayNext(base: Rat, es: seq<Instr>, act: set<nat>, j: nat)
    requires j < |es| && es[j].tag in act && |base| > 0 && base[0] == 0
    requires forall i :: 0 <= i < |es| ==> es[i].op.rl < |base| && (es[i].op.rl == 0 ==> es[i].op.rp == 0)
    ensures Overlay(base, es[..j + 1], act) == Commit(Overlay(base, es[..j], act), es[j].op)
  {
    assert es[..j + 1] == es[..j] + [es[j]];
    OverlayAppend(base, es[..j], [es[j]], act);
    OverlayZero(base, es[..j], act);
  }

  // ---- what was announced ----

  /** How many instructions a run has retired. */
  function Retirements(es: seq<Event>): nat
    decreases |es|
  {
    if es == [] then 0
    else
      var n := |es| - 1;
      Retirements(es[..n]) + if es[n].Retire? then es[n].k else 0
  }

  /** What was announced of the m-th instruction renamed: whether it has an exception. */
  function Announced(es: seq<Event>, m: nat): Option<bool>
    decreases |es|
  {
    if es == [] then None
    else
      var n := |es| - 1;
      var e := es[n];
      if e.Announce? && Retirements(es[..n]) + e.i == m then Some(e.exc) else Announced(es[..n], m)
  }

  function Outcome(f: Phase): Option<bool> {
    if f.Done? then Some(f.exc) else None
  }

  /** A run splits before its last step. */
  lemma {:induction false} LastStep(p: Params, s: Core, es: seq<Event>, t: Core) returns (m: Core)
    requires es != [] && Runs(p, s, es, t)
    ensures Runs(p, s, es[..|es| - 1], m) && Enabled(p, m, es[|es| - 1]) && t == Step(p, m, es[|es| - 1])
    decreases es
  {
    if |es| == 1 {
      m := s;
    } else {
      m := LastStep(p, Step(p, s, es[0]), es[1..], t);
      assert es[1..][..|es| - 2] == es[..|es| - 1][1..];
    }
  }

  /** How many instructions leave the reorder buffer. */
  function Leaving(e: Event): nat {
    if e.Retire? then e.k else 0
  }

  /** The outcome at one place of the reorder buffer; there is none past its end. */
  function OutcomeAt(s: Core, i: nat): Option<bool> {
    if i < |s.ph| then Outcome(s.ph[i]) else None
  }

  /** Only an announcement finishes an instruction, with the exception bit it carries. */
  lemma OutcomeStep(p: Params, s: Core, e: Event, i: nat)
    requires Enabled(p, s, e)
    ensures e.Announce? ==> e.i < |s.ph|
    ensures OutcomeAt(Step(p, s, e), i)
            == if e.Announce? && e.i == i then Some(e.exc) else OutcomeAt(s, i + Leaving(e))
  {
    hide RetireSeq; hide CountIncr; hide FreeStep; hide RenameStep; hide TagStep; hide RollbackStep;
    hide RestoreStep; hide NonZero; hide OpDsts; hide Retired; hide AllocOk; hide TagOut;
    match e {
      case Rename => hide RenameGroup;
      case Announce(_, _, _) =>
      case Retire(_, _) =>
      case Insert(_) =>
      case Take(_) =>
      case _ => assert Step(p, s, e).ph == s.ph;
    }
  }

  lemma AnnouncedNext(es: seq<Event>, m: nat)
    requires es != []
    ensures var n := |es| - 1; var e := es[n];
            && Announced(es, m) == (if e.Announce? && Retirements(es[..n]) + e.i == m then Some(e.exc)
                                    else Announced(es[..n], m))
            && Retirements(es) == Retirements(es[..n]) + Leaving(e)
  {
  }

  /** The reorder buffer holds what was announced of the same instruction, and nothing was announced
      of instructions not renamed yet. */
  lemma {:induction false} OutcomeAnnounced(p: Params, s: Core, es: seq<Event>, t: Core, i: nat)
    requires s.ph == [] && Runs(p, s, es, t)
    ensures Announced(es, Retirements(es) + i) == OutcomeAt(t, i)
    decreases |es|
  {
    if es != [] {
      var m := LastStep(p, s, es, t);
      var init, e := es[..|es| - 1], es[|es| - 1];
      OutcomeAnnounced(p, s, init, m, i + Leaving(e));
      OutcomeStep(p, m, e, i);
      AnnouncedNext(es, Retirements(es) + i);
      hide Step; hide Enabled; hide Runs; hide Announced; hide Retirements; hide OutcomeAt;
    }
  }

  // ---- every run ----

  /** The i-th instruction of the reorder buffer is live and was announced with an exception. */
  ghost predicate Faulty(es: seq<Event>, s: Core, i: nat) {
    Live(s, i) && Announced(es, Retirements(es) + i) == Some(true)
  }

  /** A finished instruction is faulty exactly if its reorder buffer entry says so. */
  lemma FaultsInBuffer(p: Params, es: seq<Event>, s: Core)
    requires p.Ok() && Runs(p, RenameCore.Init(p), es, s)
    ensures Inv(p, s) && |s.rob| == |s.ph|
    ensures forall i :: 0 <= i < |s.ph| && s.ph[i].Done? ==> (Faulty(es, s, i) <==> Live(s, i) && s.ph[i] == Done(true))
  {
    RenameCore.InitInv(p);
    RunInv(p, RenameCore.Init(p), es, s);
    forall i | 0 <= i < |s.ph| ensures Announced(es, Retirements(es) + i) == Outcome(s.ph[i]) {
      OutcomeAnnounced(p, RenameCore.Init(p), es, s, i);
    }
    hide Runs; hide Announced; hide Retirements;
    hide Partition; hide ValidBits; hide Speculation; hide Wakeups; hide Values; hide SpecInv; hide TagsOk;
  }

  /** In every run from reset: a group with no live instruction announced faulty commits exactly its
      live instructions; otherwise exactly those before the first such one commit, with it if it
      carries an asynchronous interrupt, and the core leaves normal operation. */
  lemma CommitsAsAnnounced(p: Params, es: seq<Event>, s: Core, k: nat, async: bool)
    requires p.Ok() && Runs(p, RenameCore.Init(p), es, s) && s.fsm == Normal && Enabled(p, s, Retire(k, async))
    ensures var n := Step(p, s, Retire(k, async)); var act := s.spec.active;
            && ((forall i :: 0 <= i < k ==> !Faulty(es, s, i)) ==>
                  && n.fsm == Normal && n.rrat == Overlay(s.rrat, s.rob[..k], act)
                  && StepCommits(p, s, Retire(k, async)) == LiveOps(s.rob[..k], act))
            && forall j :: 0 <= j < k && Faulty(es, s, j) && (forall i :: 0 <= i < j ==> !Faulty(es, s, i)) ==>
                 var ends := if async then j + 1 else j;
                 && n.fsm == (if n.rob == [] && n.allocBuf.None? && n.tagBuf.None? then Resume else Flush)
                 && n.rrat == Overlay(s.rrat, s.rob[..ends], act)
                 && StepCommits(p, s, Retire(k, async)) == LiveOps(s.rob[..ends], act)
  {
    FaultsInBuffer(p, es, s);
    assert k <= |s.ph| && forall i :: 0 <= i < k ==> s.ph[i].Done?;
    hide Inv; hide Step; hide StepCommits; hide Overlay; hide LiveOps; hide Runs; hide Faulty; hide Enabled;
    if forall i :: 0 <= i < k ==> !Faulty(es, s, i) {
      CleanRetires(p, s, k, async);
    }
    forall j | 0 <= j < k && Faulty(es, s, j) && (forall i :: 0 <= i < j ==> !Faulty(es, s, i))
      ensures var n := Step(p, s, Retire(k, async)); var ends := if async then j + 1 else j;
              && n.fsm == (if n.rob == [] && n.allocBuf.None? && n.tagBuf.None? then Resume else Flush)
              && n.rrat == Overlay(s.rrat, s.rob[..ends], s.spec.active)
              && StepCommits(p, s, Retire(k, async)) == LiveOps(s.rob[..ends], s.spec.active)
    {
      FaultTraps(p, s, k, async, j);
    }
  }

  /** While a trap is flushed nothing commits, and retiring the last instruction ends the flush. */
  lemma FlushDrains(p: Params, s: Core, k: nat, async: bool)
    requires Inv(p, s) && s.fsm == Flush && Enabled(p, s, Retire(k, async))
    ensures var n := Step(p, s, Retire(k, async));
            && n.rrat == s.rrat && StepCommits(p, s, Retire(k, async)) == []
            && n.fsm == (if n.rob == [] && n.allocBuf.None? && n.tagBuf.None? then Resume else Flush)
  {
    NothingLive(s.rrat, s.rob, LiveMask(s), ExcMask(s), async, k);
    RetireIs(p, s, k, async);
    hide Inv; hide RetireSeq; hide Committed; hide Step; hide StepCommits;
  }
}
