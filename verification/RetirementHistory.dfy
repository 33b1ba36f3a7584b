/** The clocked retirement unit inside the core: its table, tag and trap state follow the core's
    retirement steps after any history, also in the cycle of a rollback. */
module RetirementHistory {
  import opened RatModel
  import opened BitMask
  import opened Retirement
  import opened Wrappers
  import opened CratSpec
  import opened RenameCore
  import opened RenameProofs
  import opened CheckpointRat
  import opened CoreCycle
  import opened CycleTotal
  import opened RenameTheorems
  import opened RetirementClock

  /** A rollback is asked for by an unfinished instruction, so what retires beside it is older and
      keeps its activity: retiring before and after the rollback is the same. */
  lemma RollbackKeepsRetired(p: Params, s: Core, j: nat, k: nat, async: bool)
    requires Inv(p, s) && RollbackOk(s, j) && RetireOk(s, k)
    ensures Enabled(p, s, Rollback(j)) && Enabled(p, Step(p, s, Rollback(j)), Retire(k, async))
    ensures Retired(Step(p, s, Rollback(j)), k, async) == Retired(s, k, async)
  {
    hide Partition; hide ValidBits; hide Speculation; hide Wakeups; hide Values; hide SpecInv; hide RetireSeq;
    var u :| 0 <= u < |s.rob| == |s.ph| && s.rob[u].tag == s.spec.ring[j].tag && !s.ph[u].Done?;
    var n := Step(p, s, Rollback(j));
    ChainMono(s.spec.tail, s.rob);
    assert k <= u;
    RetirePrefix(s.rrat, s.rob, n.rob, LiveMask(s), LiveMask(n), ExcMask(s), ExcMask(n), async, k);
  }

  /** The core's retirement state in the unit's registers. */
  ghost predicate Mirrors(p: Params, x: RetirementUnit, s: Core)
    reads x, x.rrat.entries
  {
    && x.tags == p.tags && x.rrat.entries[..] == s.rrat
    && x.fsm == s.fsm && p.tags > 0 && x.lastRetired == s.lastRetired % p.tags
  }

  /** Instructions between the frontend and retirement. */
  function InCore(s: Core): nat {
    |s.rob| + |AllocOps(s)| + |TagOps(s)|
  }

  /** What one retirement step does to the mirrored state. */
  lemma RetireMirror(p: Params, s: Core, k: nat, async: bool)
    requires Inv(p, s) && Enabled(p, s, Retire(k, async))
    ensures var n, o := Step(p, s, Retire(k, async)), Retired(s, k, async);
            && n.rrat == o.rrat && n.lastRetired == s.lastRetired + CountIncr(s.rob[..k])
            && n.fsm == (if s.fsm == Flush || o.trapped then (if k == InCore(s) then Resume else Flush) else s.fsm)
  {
    hide Retired; hide Partition; hide ValidBits; hide Speculation; hide Wakeups; hide Values; hide SpecInv;
    hide TagsOk;
  }

  /** The window's live mask is the core's, in normal operation and during a flush. */
  lemma WindowLive(p: Params, h: seq<Moment>, s: Core, c: Regs, w: nat, i: nat)
    requires p.Ok() && History(p, h, s, c) && s.fsm != Resume && i < w <= |s.rob|
    requires |c.active| == p.tags && c.tagsTail < p.tags
    ensures (if s.fsm == Normal then OwnLive(Incrs(s.rob[..w]), c.active, c.tagsTail) else Dead(w))[i] == LiveMask(s)[i]
  {
    hide History; hide OwnLive;
    if s.fsm == Normal { OwnLiveIsLive(p, h, s, c, w, i); }
  }

  /** The unit's outcome on a window of the reorder buffer is the core's. */
  lemma WindowRetired(p: Params, h: seq<Moment>, s: Core, c: Regs, w: nat, live: Mask, async: bool, k: nat)
    requires p.Ok() && History(p, h, s, c) && s.fsm != Resume && k <= w <= |s.rob| == |s.ph| && |live| == w
    requires |c.active| == p.tags && c.tagsTail < p.tags
    requires live == if s.fsm == Normal then OwnLive(Incrs(s.rob[..w]), c.active, c.tagsTail) else Dead(w)
    ensures RetireSeq(s.rrat, s.rob[..w], live, ExcMask(s)[..w], async, k) == Retired(s, k, async)
  {
    hide History; hide RetireSeq; hide OwnLive; hide Dead;
    forall i | 0 <= i < k ensures live[i] == LiveMask(s)[i] { WindowLive(p, h, s, c, w, i); }
    RetirePrefix(s.rrat, s.rob[..w], s.rob, live, LiveMask(s), ExcMask(s)[..w], ExcMask(s), async, k);
  }

  lemma MirrorTag(a: nat, n: nat, incr: nat)
    requires n > 0 && incr <= 1
    ensures (a + incr) % n == if incr == 1 then (a % n + 1) % n else a % n
  {
    if incr == 1 { ModAbsorb(a, 1, n); }
  }

  /** A rollback touches the checkpoint table alone. */
  lemma RollbackFrame(p: Params, s: Core, j: nat)
    requires Enabled(p, s, Rollback(j))
    ensures var n := Step(p, s, Rollback(j));
            && n.rob == s.rob && n.ph == s.ph && n.rrat == s.rrat && n.fsm == s.fsm && n.lastRetired == s.lastRetired
            && n.allocBuf == s.allocBuf && n.tagBuf == s.tagBuf && InCore(n) == InCore(s)
  {
  }

  /** Beside a rollback the mirrored state moves as without it. */
  lemma BesideRollback(p: Params, s: Core, j: nat, k: nat, async: bool)
    requires Inv(p, s) && RollbackOk(s, j) && RetireOk(s, k)
    ensures Enabled(p, s, Rollback(j)) && Enabled(p, s, Retire(k, async))
    ensures var n := Step(p, s, Rollback(j));
            && Enabled(p, n, Retire(k, async)) && Retired(n, k, async) == Retired(s, k, async)
            && var a, b := Step(p, n, Retire(k, async)), Step(p, s, Retire(k, async));
               a.rrat == b.rrat && a.lastRetired == b.lastRetired && a.fsm == b.fsm
  {
    RollbackKeepsRetired(p, s, j, k, async);
    RetireIsEnabled(p, s, k, async);
    hide Step; hide Enabled; hide Inv; hide Retired; hide InCore; hide RollbackOk; hide RetireOk;
    RollbackFrame(p, s, j);
    StepInv(p, s, Rollback(j));
    RetireMirror(p, s, k, async);
    RetireMirror(p, Step(p, s, Rollback(j)), k, async);
  }

  lemma TailMirrors(p: Params, s: Core, c: Regs)
    requires PairInv(p, s, c)
    ensures c.tagsTail == s.lastRetired % p.tags
  {
  }

  /** The longest finished prefix is an enabled retirement. */
  lemma LongestIsOk(s: Core, w: nat, es: seq<Instr>, done: Mask, k: nat)
    requires k <= w <= |s.rob| == |s.ph| && 0 < w && s.fsm != Resume
    requires es == s.rob[..w] && done == DoneMask(s)[..w] && done[0]
    requires (forall i :: 0 <= i < k ==> done[i]) && Count(Incrs(es)[..k]) <= 1
    requires forall n :: k < n <= w && Count(Incrs(es)[..n]) <= 1 ==> exists i :: 0 <= i < n && !done[i]
    ensures RetireOk(s, k) && Count(Incrs(es)[..k]) == CountIncr(s.rob[..k])
  {
    CountIncrs(es, k);
    assert es[..k] == s.rob[..k];
    if k == 0 { CountIncrs(es, 1); }
    forall i | 0 <= i < k ensures s.ph[i].Done? { assert done[i]; }
  }

  function RollbackOf(j: Option<nat>): seq<Event> {
    if j.Some? then [Rollback(j.value)] else []
  }

  /** After any history with a finished instruction at the front, one cycle of the unit over a window
      of the reorder buffer performs an enabled retirement of the core, beside a rollback or not. */
  method Follow(x: RetirementUnit, p: Params, w: nat, es: seq<Instr>, done: Mask, exc: Mask, active: Mask, async: bool,
                inCore: nat, ghost h: seq<Moment>, ghost s: Core, ghost c: Regs, ghost j: Option<nat>)
    returns (count: nat, freed: seq<nat>, ghost t: Core)
    requires p.Ok() && History(p, h, s, c) && Mirrors(p, x, s) && s.fsm != Resume && inCore == InCore(s)
    requires 0 < w <= |s.rob| == |s.ph| && es == s.rob[..w] && done == DoneMask(s)[..w] && exc == ExcMask(s)[..w]
    requires active == c.active && done[0] && (j.Some? ==> RollbackOk(s, j.value))
    modifies x, x.rrat.entries
    ensures RetireOk(s, count) && Runs(p, s, RollbackOf(j) + [Retire(count, async)], t) && Mirrors(p, x, t)
    ensures freed == Retired(s, count, async).freed
  {
    hide History; hide RetireSeq; hide Retired; hide RetireOk; hide RollbackOk; hide Runs; hide InCore; hide DoneMask;
    hide ExcMask;
    RetireShapes(p, h, s, c);
    FollowTail(p, h, s, c);
    ghost var trapped;
    count, freed, trapped := CycleRetires(x, p, w, es, done, exc, active, async, inCore, h, s, c);
    t := FollowState(p, h, s, c, count, async, j);
    MirrorTag(s.lastRetired, p.tags, CountIncr(s.rob[..count]));
  }

  /** The cycle in the core's terms. */
  method CycleRetires(x: RetirementUnit, p: Params, w: nat, es: seq<Instr>, done: Mask, exc: Mask, active: Mask,
                      async: bool, inCore: nat, ghost h: seq<Moment>, ghost s: Core, ghost c: Regs)
    returns (count: nat, freed: seq<nat>, ghost trapped: bool)
    requires p.Ok() && History(p, h, s, c) && s.fsm != Resume && |c.active| == p.tags && c.tagsTail < p.tags
    requires x.tags == p.tags && x.rrat.entries[..] == s.rrat && x.fsm == s.fsm && x.lastRetired == c.tagsTail
    requires forall i :: 0 <= i < |s.rob| ==> s.rob[i].op.rl < |s.rrat|
    requires 0 < w <= |s.rob| == |s.ph| && es == s.rob[..w] && done == DoneMask(s)[..w] && exc == ExcMask(s)[..w]
    requires active == c.active && done[0]
    modifies x, x.rrat.entries
    ensures RetireOk(s, count) && count <= |s.rob| && CountIncr(s.rob[..count]) <= 1
    ensures Outcome(x.rrat.entries[..], freed, trapped) == Retired(s, count, async)
    ensures x.lastRetired == if CountIncr(s.rob[..count]) == 1 then (c.tagsTail + 1) % p.tags else c.tagsTail
    ensures x.fsm == if s.fsm == Flush || trapped then (if count == inCore then Resume else Flush) else s.fsm
  {
    hide History; hide RetireSeq; hide Retired; hide RetireOk; hide OwnLive; hide Dead; hide DoneMask; hide ExcMask;
    hide Incrs;
    hide Count; hide CountIncr;
    var freeTag;
    ghost var live := x.Live(es, active);
    count, freed, freeTag, trapped := x.Cycle(es, done, exc, active, async, inCore);
    LongestIsOk(s, w, es, done, count);
    RetireIsEnabled(p, s, count, async);
    WindowRetired(p, h, s, c, w, live, async, count);
  }

  lemma FollowTail(p: Params, h: seq<Moment>, s: Core, c: Regs)
    requires p.Ok() && History(p, h, s, c)
    ensures c.tagsTail == s.lastRetired % p.tags
  {
    hide History;
    HistoryInv(p, h, s, c);
    TailMirrors(p, s, c);
  }

  /** The mirrored state after the core's retirement, beside a rollback or not. */
  lemma FollowState(p: Params, h: seq<Moment>, s: Core, c: Regs, k: nat, async: bool, j: Option<nat>) returns (t: Core)
    requires p.Ok() && History(p, h, s, c) && RetireOk(s, k) && (j.Some? ==> RollbackOk(s, j.value))
    ensures k <= |s.rob| == |s.ph| && CountIncr(s.rob[..k]) <= 1
    ensures Runs(p, s, RollbackOf(j) + [Retire(k, async)], t)
    ensures var o := Retired(s, k, async);
            && t.rrat == o.rrat && t.lastRetired == s.lastRetired + CountIncr(s.rob[..k])
            && t.fsm == (if s.fsm == Flush || o.trapped then (if k == InCore(s) then Resume else Flush) else s.fsm)
  {
    hide History; hide Retired; hide PairInv; hide InCore;
    HistoryInv(p, h, s, c);
    PairIsInv(p, s, c);
    RetireIsEnabled(p, s, k, async);
    RetireMirror(p, s, k, async);
    hide Step; hide Enabled; hide Inv; hide RetireOk; hide RollbackOk; hide Runs;
    if j.Some? {
      BesideRollback(p, s, j.value, k, async);
      var n := Step(p, s, Rollback(j.value));
      t := Step(p, n, Retire(k, async));
      OneRun(p, s, Rollback(j.value));
      OneRun(p, n, Retire(k, async));
      JoinRuns(p, s, [Rollback(j.value)], n, [Retire(k, async)], t);
    } else {
      t := Step(p, s, Retire(k, async));
      OneRun(p, s, Retire(k, async));
      assert RollbackOf(j) + [Retire(k, async)] == [Retire(k, async)];
    }
  }

  lemma RetireIsEnabled(p: Params, s: Core, k: nat, async: bool)
    requires RetireOk(s, k)
    ensures Enabled(p, s, Retire(k, async)) && CountIncr(s.rob[..k]) <= 1
  {
  }

  lemma PairIsInv(p: Params, s: Core, c: Regs)
    requires PairInv(p, s, c)
    ensures Inv(p, s)
  {
  }
}
