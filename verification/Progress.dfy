/** The core never gets stuck: whatever happened, the clock cycles that remain possible without
    fetching anything new empty it. */
module Progress {
  import opened RatModel
  import opened Wrappers
  import opened CratSpec
  import opened RenameCore
  import opened RenameProofs
  import opened CheckpointRat
  import opened CratRefinement
  import opened CoreCycle

  /** Nothing in flight and ready to fetch. */
  predicate Drained(s: Core) {
    s.rob == [] && s.ph == [] && s.allocBuf.None? && s.tagBuf.None? && s.fsm != Resume
  }

  /** Steps that neither fetch nor roll back. */
  predicate Forward(e: Event) {
    !e.Alloc? && !e.Rollback?
  }

  // ---- some step is always possible ----

  /** Two checkpoints take two tags besides that of the group about to be renamed. */
  lemma CheckpointsTakeTags(p: Params, a: Spec, buf: Option<Tagged>)
    requires SpecInv(p, a, buf)
    ensures |a.ring| >= 2 ==> a.lastIssued > a.tail && (buf.Some? ==> a.lastIssued > a.tail + 1)
  {
    if |a.ring| >= 2 {
      assert a.tail <= a.ring[0].tag < a.ring[1].tag <= a.lastIssued;
    }
  }

  /** With an empty reorder buffer there are a free tag and a free checkpoint slot. */
  lemma RoomWhenEmpty(p: Params, s: Core)
    requires Inv(p, s) && s.rob == []
    ensures s.allocBuf.Some? && s.tagBuf.None? ==> Enabled(p, s, Tag)
    ensures s.tagBuf.Some? ==> Enabled(p, s, Rename)
  {
    CheckpointsTakeTags(p, s.spec, Tagging(s));
    hide Partition; hide ValidBits; hide Speculation; hide Wakeups; hide Values; hide Shape; hide RingOk;
  }

  /** The oldest unfinished instruction, or none. */
  function Oldest(ph: seq<Phase>): (i: nat)
    ensures i <= |ph| && (forall j :: 0 <= j < i ==> ph[j].Done?) && (i < |ph| ==> !ph[i].Done?)
  {
    if ph == [] || !ph[0].Done? then 0 else 1 + Oldest(ph[1..])
  }

  /** The oldest unfinished instruction has nothing to wait for. */
  lemma OldestMoves(p: Params, s: Core) returns (e: Event)
    requires Inv(p, s) && s.rob != []
    ensures Forward(e) && !e.Tag? && !e.Rename? && Enabled(p, s, e)
  {
    hide Partition; hide ValidBits; hide Speculation; hide Values; hide SpecInv; hide TagsOk;
    var i := Oldest(s.ph);
    if i == 0 {
      e := if s.ph[0].Queued? then Insert(0) else if s.ph[0].Waiting? then Take(0) else Announce(0, false, 0);
    } else if i < |s.ph| && s.ph[i].Queued? {
      e := Insert(i);
    } else if i < |s.ph| && s.ph[i].Waiting? {
      e := Take(i);
    } else if i < |s.ph| {
      e := Announce(i, false, 0);
    } else {
      e := Retire(1, false);
      assert s.rob[..1] == [s.rob[0]] && [s.rob[0]][1..] == [];
      assert CountIncr([s.rob[0]]) == Bit(s.rob[0].incr) + CountIncr([]);
    }
  }

  /** A core that is not drained can go on without fetching. */
  lemma NeverStuck(p: Params, s: Core) returns (e: Event)
    requires Inv(p, s) && !Drained(s)
    ensures Forward(e) && Enabled(p, s, e)
  {
    if s.rob != [] {
      e := OldestMoves(p, s);
    } else {
      RoomWhenEmpty(p, s);
      SameLength(p, s);
      e := if s.tagBuf.Some? then Rename else if s.allocBuf.Some? then Tag else Restart;
    }
  }

  lemma SameLength(p: Params, s: Core)
    requires Inv(p, s)
    ensures |s.rob| == |s.ph|
  {
  }

  // ---- no step goes on for ever ----

  function Weight(f: Phase): (w: nat)
    ensures w > 1
  {
    match f case Queued => 5 case Waiting(_, _, _, _) => 4 case Executing(_, _) => 3 case Done(_) => 2
  }

  function Sum(ph: seq<Phase>): nat {
    if ph == [] then 0 else Weight(ph[0]) + Sum(ph[1..])
  }

  /** What is still to be done. */
  function Work(s: Core): nat {
    7 * |AllocOps(s)| + 6 * |TagOps(s)| + Sum(s.ph) + if s.fsm == Resume then 1 else 0
  }

  lemma {:induction false} SumAppend(a: seq<Phase>, b: seq<Phase>)
    ensures Sum(a + b) == Sum(a) + Sum(b)
    decreases a
  {
    if a == [] {
      assert a + b == b;
    } else {
      assert (a + b)[1..] == a[1..] + b;
      SumAppend(a[1..], b);
    }
  }

  lemma {:induction false} SumQueued(n: nat)
    ensures Sum(seq(n, i => Queued)) == 5 * n
  {
    if n > 0 {
      assert seq(n, i => Queued)[1..] == seq(n - 1, i => Queued);
      SumQueued(n - 1);
    }
  }

  /** One phase gets lighter, the others weigh the same. */
  lemma {:induction false} SumLighter(a: seq<Phase>, b: seq<Phase>, i: nat)
    requires |a| == |b| && i < |a| && Weight(b[i]) < Weight(a[i])
    requires forall j :: 0 <= j < |a| && j != i ==> Weight(b[j]) == Weight(a[j])
    ensures Sum(b) < Sum(a)
    decreases a
  {
    if i == 0 { SumEqual(a[1..], b[1..]); } else { SumLighter(a[1..], b[1..], i - 1); }
  }

  lemma {:induction false} SumEqual(a: seq<Phase>, b: seq<Phase>)
    requires |a| == |b| && forall j :: 0 <= j < |a| ==> Weight(b[j]) == Weight(a[j])
    ensures Sum(b) == Sum(a)
    decreases a
  {
    if a != [] { SumEqual(a[1..], b[1..]); }
  }

  lemma {:induction false} SumAtLeast(a: seq<Phase>)
    ensures Sum(a) >= 2 * |a|
    decreases a
  {
    if a != [] { SumAtLeast(a[1..]); }
  }

  lemma RenameWork(p: Params, s: Core)
    requires Inv(p, s) && Enabled(p, s, Rename)
    ensures Work(Step(p, s, Rename)) < Work(s)
  {
    hide Partition; hide ValidBits; hide Speculation; hide Wakeups; hide Values; hide SpecInv; hide TagsOk;
    var n := |s.tagBuf.value.ops|;
    SumAppend(s.ph, seq(n, i => Queued));
    SumQueued(n);
  }

  lemma RetireWork(p: Params, s: Core, k: nat, async: bool)
    requires Inv(p, s) && Enabled(p, s, Retire(k, async))
    ensures Work(Step(p, s, Retire(k, async))) < Work(s)
  {
    hide Inv; hide Retired; hide CountIncr; hide FreeStep;
    assert s.ph == s.ph[..k] + s.ph[k..];
    SumAppend(s.ph[..k], s.ph[k..]);
    SumAtLeast(s.ph[..k]);
  }

  lemma RowWork(p: Params, s: Core, e: Event)
    requires Enabled(p, s, e) && (e.Insert? || e.Take? || e.Announce?)
    ensures Work(Step(p, s, e)) < Work(s)
  {
    SumLighter(s.ph, Step(p, s, e).ph, e.i);
  }

  /** Every step forward leaves less to do: at most `Work(s)` of them are possible in a row. */
  lemma ForwardWork(p: Params, s: Core, e: Event)
    requires Inv(p, s) && Forward(e) && Enabled(p, s, e)
    ensures Work(Step(p, s, e)) < Work(s)
  {
    match e {
      case Rename => RenameWork(p, s);
      case Retire(k, async) => RetireWork(p, s, k, async);
      case Tag => TagWork(p, s);
      case Restart => hide Inv;
      case _ => hide Inv; RowWork(p, s, e);
    }
  }

  lemma TagWork(p: Params, s: Core)
    requires Inv(p, s) && Enabled(p, s, Tag)
    ensures Work(Step(p, s, Tag)) < Work(s)
  {
    hide Partition; hide ValidBits; hide Speculation; hide Wakeups; hide Values; hide SpecInv; hide TagsOk;
  }

  // ---- in clock cycles ----

  const IDLE := Tick(false, false, false, [], None, None)

  /** The cycle that performs just this step. */
  function TickOf(e: Event): Tick {
    match e
    case Tag => IDLE.(tag := true)
    case Rename => IDLE.(rename := true)
    case Restart => IDLE.(restart := true)
    case Retire(k, async) => IDLE.(retire := Some((k, async)))
    case Rollback(j) => IDLE.(rollback := Some(j))
    case _ => IDLE.(quiet := [e])
  }

  lemma TickSteps(e: Event)
    ensures Steps(TickOf(e)) == [e]
  {
  }

  /** With no restore under way the registers are ready for every step the core can make. */
  lemma RegistersReady(p: Params, s: Core, c: Regs, e: Event)
    requires p.Ok() && PairInv(p, s, c) && c.finished && Forward(e) && Enabled(p, s, e)
    ensures Ready(p, s, c, TickOf(e))
  {
    match e {
      case Rename => RenameReadyRegs(p, s, c);
      case Tag => TagReadyRegs(p, s, c);
      case _ => hide Inv; hide Rep;
    }
  }

  lemma RenameReadyRegs(p: Params, s: Core, c: Regs)
    requires p.Ok() && PairInv(p, s, c) && c.finished && Enabled(p, s, Rename)
    ensures RenameOk(p, s, c)
  {
    hide Shape; hide Partition; hide ValidBits; hide Speculation; hide Wakeups; hide Values; hide TagsOk;
    TagValidIsMayWrite(p, c, s.spec, s.tagBuf.value.t);
    hide SpecInv; hide RepTags; hide RepBits; hide RepStore;
  }

  lemma TagReadyRegs(p: Params, s: Core, c: Regs)
    requires p.Ok() && PairInv(p, s, c) && c.finished && Enabled(p, s, Tag)
    ensures TagOk(p, s, c) && s.tagBuf.None?
  {
    hide Shape; hide Partition; hide ValidBits; hide Speculation; hide Wakeups; hide Values; hide TagsOk; hide SpecInv;
    hide RepBits; hide RepRing; hide RepStore;
    ResumesIsMatches(p, c, s.spec, s.allocBuf.value.rb, s.allocBuf.value.ckpt);
    TagSpace(p, c, s.spec, Tagging(s));
  }

  lemma Extend(p: Params, h: seq<Moment>, s: Core, c: Regs, k: Tick, t: Core)
    requires p.Ok() && History(p, h, s, c) && Ready(p, s, c, k) && Runs(p, s, Steps(k), t)
    ensures History(p, h + [Moment(s, c, k)], t, Cycle(p, c, InputsOf(p, s, k)))
  {
    hide Ready; hide Runs; hide Cycle; hide InputsOf;
    assert (h + [Moment(s, c, k)])[..|h|] == h;
  }

  /** A cycle without inputs moves a restore on by one stage. */
  lemma IdleCycle(p: Params, h: seq<Moment>, s: Core, c: Regs) returns (d: Regs)
    requires p.Ok() && History(p, h, s, c)
    ensures History(p, h + [Moment(s, c, IDLE)], s, d)
    ensures d.mapResp.None? && (c.mapResp.None? ==> d.storeResp.None?)
  {
    assert Steps(IDLE) == [];
    assert Ready(p, s, c, IDLE) && Runs(p, s, [], s);
    hide History;
    Extend(p, h, s, c, IDLE, s);
    d := Cycle(p, c, InputsOf(p, s, IDLE));
    hide DoFree; hide DoRollback;
    IdleRegs(p, c);
  }

  lemma IdleRegs(p: Params, c: Regs)
    requires p.Ok()
    ensures var d := Cycle(p, c, Inputs(None, None, false, None, None));
            d.mapResp.None? && (c.mapResp.None? ==> d.storeResp.None?)
  {
  }

  /** Nothing was fetched and nothing rolled back in the cycles from `n` on. */
  ghost predicate Quietly(h: seq<Moment>, n: nat) {
    forall i :: n <= i < |h| ==> forall e :: e in Steps(h[i].tick) ==> Forward(e)
  }

  lemma QuietlyNext(h: seq<Moment>, n: nat, m: Moment)
    requires Quietly(h, n) && forall e :: e in Steps(m.tick) ==> Forward(e)
    ensures Quietly(h + [m], n)
  {
  }

  /** Two idle cycles finish any restore. */
  lemma RestoreFinishes(p: Params, h: seq<Moment>, s: Core, c: Regs) returns (g: seq<Moment>, d: Regs)
    requires p.Ok() && History(p, h, s, c)
    ensures h <= g && History(p, g, s, d) && d.finished && Quietly(g, |h|)
  {
    hide History;
    var c1 := IdleCycle(p, h, s, c);
    var h1 := h + [Moment(s, c, IDLE)];
    d := IdleCycle(p, h1, s, c1);
    g := h1 + [Moment(s, c1, IDLE)];
    HistoryInv(p, g, s, d);
    hide Inv; hide RepTags; hide RepBits; hide RepRing; hide RepStore;
  }

  /** From a core that is not drained the clock gets on with the work. */
  lemma GoesOn(p: Params, h: seq<Moment>, s: Core, c: Regs) returns (g: seq<Moment>, t: Core, d: Regs)
    requires p.Ok() && History(p, h, s, c) && !Drained(s)
    ensures h <= g && History(p, g, t, d) && Quietly(g, |h|) && Work(t) < Work(s)
  {
    hide History; hide Work; hide Steps; hide Inv; hide Rep; hide Ready; hide Drained; hide Enabled; hide Step;
    hide Runs; hide Cycle; hide InputsOf;
    var h1, c1 := RestoreFinishes(p, h, s, c);
    HistoryInv(p, h1, s, c1);
    var e := NeverStuck(p, s);
    RegistersReady(p, s, c1, e);
    var m := Moment(s, c1, TickOf(e));
    t, d := Step(p, s, e), Cycle(p, c1, InputsOf(p, s, m.tick));
    TickSteps(e);
    SingleRun(p, s, e);
    Extend(p, h1, s, c1, m.tick, t);
    ForwardWork(p, s, e);
    g := h1 + [m];
    QuietlyNext(h1, |h|, m);
  }

  /** From every history the clock can drain the core, without fetching or rolling back. */
  lemma {:induction false} AlwaysDrains(p: Params, h: seq<Moment>, s: Core, c: Regs)
    returns (g: seq<Moment>, t: Core, d: Regs)
    requires p.Ok() && History(p, h, s, c)
    ensures h <= g && History(p, g, t, d) && Drained(t) && Quietly(g, |h|)
    decreases Work(s)
  {
    hide History; hide Work; hide Steps; hide Drained;
    if Drained(s) {
      g, t, d := h, s, c;
    } else {
      var h1, s1, c1 := GoesOn(p, h, s, c);
      g, t, d := AlwaysDrains(p, h1, s1, c1);
      assert forall i :: |h| <= i < |h1| ==> g[i] == h1[i];
    }
  }

  lemma SingleRun(p: Params, s: Core, e: Event)
    requires Enabled(p, s, e)
    ensures Runs(p, s, [e], Step(p, s, e))
  {
    assert [e][1..] == [];
    assert Runs(p, Step(p, s, e), [], Step(p, s, e));
  }
}
