/** Whole clock cycles of the renaming core: the checkpoint RAT's registers move by their cycle
    function while the abstract core performs the corresponding steps. */
module CoreCycle {
  import opened RatModel
  import opened Wrappers
  import opened CratSpec
  import opened RenameCore
  import opened RenameProofs
  import opened CheckpointRat
  import opened CratRefinement

  /** What happens in one cycle. `quiet` are the steps that do not involve the table:
      allocation, row insertion, issue and announcement. */
  datatype Tick = Tick(restart: bool, rename: bool, tag: bool, quiet: seq<Event>,
                       rollback: Option<nat>, retire: Option<(nat, bool)>)

  function RenameInput(p: Params, s: Core): RenameIn
    requires p.Ok() && s.tagBuf.Some?
  {
    RenameIn(s.tagBuf.value.t.tag % p.tags, s.tagBuf.value.t.ckpt, s.tagBuf.value.ops)
  }

  function TagInput(p: Params, s: Core): TagIn
    requires p.Ok() && s.allocBuf.Some?
  {
    TagInOf(p, s.allocBuf.value.rb, s.allocBuf.value.ckpt)
  }

  predicate IsQuiet(e: Event) {
    e.Alloc? || e.Insert? || e.Take? || e.Announce?
  }

  ghost predicate RenameOk(p: Params, s: Core, c: Regs)
    requires p.Ok()
  {
    && s.tagBuf.Some?
    && (s.tagBuf.value.t.ckpt && TagValid(c, RenameInput(p, s).tag) ==> !c.ckFull)
  }

  ghost predicate TagOk(p: Params, s: Core, c: Regs)
    requires p.Ok()
  {
    && s.allocBuf.Some? && !Stalls(c, TagInput(p, s))
    && (AllocatesTag(c, TagInput(p, s)) ==> c.tagsHead != c.tagsTail)
  }

  /** A rollback is asked for by an unfinished instruction that owns the checkpoint. */
  ghost predicate RollbackOk(s: Core, j: nat) {
    && s.fsm == Normal && j < |s.spec.ring|
    && exists i :: 0 <= i < |s.rob| == |s.ph| && s.rob[i].tag == s.spec.ring[j].tag && !s.ph[i].Done?
  }

  ghost predicate RetireOk(s: Core, n: nat) {
    && s.fsm != Resume && 0 < n <= |s.rob| == |s.ph| && CountIncr(s.rob[..n]) <= 1
    && forall i :: 0 <= i < n ==> s.ph[i].Done?
  }

  /** Conditions read from the registers and queues at the start of the cycle. */
  ghost predicate Ready(p: Params, s: Core, c: Regs, k: Tick)
    requires p.Ok()
  {
    && (k.restart ==> s.fsm == Resume && c.finished)
    && (k.rename ==> RenameOk(p, s, c))
    && (k.tag ==> TagOk(p, s, c) && (s.tagBuf.None? || k.rename))
    && (k.rollback.Some? ==> RollbackOk(s, k.rollback.value))
    && (k.retire.Some? ==> RetireOk(s, k.retire.value.0))
    && forall i :: 0 <= i < |k.quiet| ==> IsQuiet(k.quiet[i])
  }

  function InputsOf(p: Params, s: Core, k: Tick): Inputs
    requires p.Ok()
    requires (k.rename ==> s.tagBuf.Some?) && (k.tag ==> s.allocBuf.Some?)
    requires k.retire.Some? ==> k.retire.value.0 <= |s.rob|
    requires k.rollback.Some? ==> k.rollback.value < |s.spec.ring|
  {
    Inputs(if k.rename then Some(RenameInput(p, s)) else None,
           if k.tag then Some(TagInput(p, s)) else None,
           k.retire.Some? && CountIncr(s.rob[..k.retire.value.0]) > 0,
           if k.rollback.Some? then Some(s.spec.ring[k.rollback.value].tag % p.tags) else None,
           if k.restart then Some(s.rrat) else None)
  }

  /** The same cycle as steps of the core, one after another. */
  function Steps(k: Tick): seq<Event> {
    (if k.restart then [Restart] else []) + (if k.rename then [Rename] else []) + (if k.tag then [Tag] else [])
    + k.quiet
    + (if k.rollback.Some? then [Rollback(k.rollback.value)] else [])
    + (if k.retire.Some? then [Retire(k.retire.value.0, k.retire.value.1)] else [])
  }

  ghost predicate Ticks(p: Params, s: Core, c: Regs, k: Tick, t: Core, d: Regs)
    requires p.Ok()
  {
    Ready(p, s, c, k) && Runs(p, s, Steps(k), t) && d == Cycle(p, c, InputsOf(p, s, k))
  }

  // ---- invariant of the pair ----

  ghost predicate CarriedOk(p: Params, s: Core) {
    s.allocBuf.Some? && s.allocBuf.value.rb.Some? ==>
      && s.spec.rbActive
      && s.spec.target <= s.allocBuf.value.rb.value < s.spec.target + p.tags
      && s.allocBuf.value.rb.value < s.spec.head
  }

  /** In the cycle after a rollback, when its slot is being read, the group waiting for a tag was
      fetched before it: the comparison with the tag restored last is not yet needed. */
  ghost predicate Awaited(s: Core, c: Regs) {
    c.mapResp.Some? && s.allocBuf.Some? ==> !Matches(s.spec, s.allocBuf.value.rb)
  }

  ghost predicate PairInv(p: Params, s: Core, c: Regs) {
    Inv(p, s) && CarriedOk(p, s) && Rep(p, c, s.spec) && Boundary(c, s.spec)
  }

  lemma InitPair(p: Params)
    requires p.Ok()
    ensures PairInv(p, RenameCore.Init(p), InitRegs(p))
  {
    RenameCore.InitInv(p);
    InitRep(p);
  }

  lemma {:induction false} RunsSplit(p: Params, s: Core, xs: seq<Event>, ys: seq<Event>, t: Core) returns (m: Core)
    requires Runs(p, s, xs + ys, t)
    ensures Runs(p, s, xs, m) && Runs(p, m, ys, t)
    decreases xs
  {
    if xs == [] {
      assert xs + ys == ys;
      m := s;
    } else {
      assert (xs + ys)[1..] == xs[1..] + ys;
      m := RunsSplit(p, Step(p, s, xs[0]), xs[1..], ys, t);
    }
  }

  /** Quiet steps do not touch the table, the buffer between tag and rename, or the order of
      the instructions already renamed. */
  lemma {:induction false} QuietRun(p: Params, s: Core, es: seq<Event>, t: Core)
    requires Inv(p, s) && CarriedOk(p, s) && Runs(p, s, es, t)
    requires forall i :: 0 <= i < |es| ==> IsQuiet(es[i])
    ensures Inv(p, t) && CarriedOk(p, t)
    ensures t.spec == s.spec && t.rob == s.rob && t.rrat == s.rrat && t.tagBuf == s.tagBuf && t.fsm == s.fsm
    decreases es
  {
    hide Shape; hide SpecInv; hide Partition; hide ValidBits; hide Speculation; hide Wakeups; hide Values; hide TagsOk;
    if es != [] {
      var n := Step(p, s, es[0]);
      StepInv(p, s, es[0]);
      assert n.spec == s.spec && n.rob == s.rob && n.rrat == s.rrat && n.tagBuf == s.tagBuf && n.fsm == s.fsm;
      AllocCarried(p, s, es[0]);
      QuietRun(p, n, es[1..], t);
    }
  }

  lemma AllocCarried(p: Params, s: Core, e: Event)
    requires Inv(p, s) && CarriedOk(p, s) && Enabled(p, s, e) && IsQuiet(e)
    ensures CarriedOk(p, Step(p, s, e))
  {
    hide Partition; hide ValidBits; hide Speculation; hide Wakeups; hide Values; hide TagsOk; hide RingOk;
  }

  // ---- the parts of a cycle ----

  lemma RestartTick(p: Params, s: Core, c: Regs)
    requires PairInv(p, s, c) && c.pipe.None? && c.finished && Enabled(p, s, Restart)
    ensures PairInv(p, Step(p, s, Restart), RestoreTable(c, Some(s.rrat)))
  {
    hide Shape; hide SpecInv; hide Partition; hide ValidBits; hide Speculation; hide Wakeups; hide Values; hide TagsOk;
    hide Rep;
    StepInv(p, s, Restart);
    RestoreRep(p, c, s.spec, s.rrat);
  }

  lemma RenameTick(p: Params, s: Core, c: Regs)
    requires PairInv(p, s, c) && c.pipe.None? && RenameOk(p, s, c)
    ensures Enabled(p, s, Rename)
    ensures var n := Step(p, s, Rename); var d := DoRename(p, c, Some(RenameInput(p, s)));
            && PairInv(p, n, d) && (d.storeResp.Some? ==> d.pipe.None?)
            && n.tagBuf.None? && n.allocBuf == s.allocBuf
            && s.spec.ring <= n.spec.ring && (d.pipe.Some? ==> |s.spec.ring| < |n.spec.ring|)
            && s.rob <= n.rob && s.ph <= n.ph && n.spec.tail == s.spec.tail && n.fsm == s.fsm
  {
    hide Shape; hide SpecInv; hide Partition; hide ValidBits; hide Speculation; hide Wakeups; hide Values; hide TagsOk;
    hide RepBits; hide RepRing; hide RepStore; hide RepPipe;
    var g := s.tagBuf.value;
    TagValidIsMayWrite(p, c, s.spec, g.t);
    RenameRep(p, c, s.spec, g.t, g.ops);
    StepInv(p, s, Rename);
  }

  lemma TagTick(p: Params, s: Core, c: Regs)
    requires Inv(p, s) && CarriedOk(p, s) && Rep(p, c, s.spec) && s.tagBuf.None? && TagOk(p, s, c) && Awaited(s, c)
    ensures Enabled(p, s, Tag)
    ensures var n := Step(p, s, Tag); var d := DoTag(p, c, Some(TagInput(p, s)));
            && Inv(p, n) && CarriedOk(p, n) && Rep(p, d, n.spec)
            && n.spec.ring == s.spec.ring && n.rob == s.rob && n.ph == s.ph
            && n.spec.tail == s.spec.tail && n.fsm == s.fsm
  {
    hide Partition; hide ValidBits; hide Speculation; hide Wakeups; hide Values; hide TagsOk;
    hide RepBits; hide RepRing; hide RepStore;
    var g := s.allocBuf.value;
    ResumesIsMatches(p, c, s.spec, g.rb, g.ckpt);
    TagSpace(p, c, s.spec, None);
    TagRep(p, c, s.spec, g.rb, g.ckpt);
    StepInv(p, s, Tag);
  }

  lemma DrainTick(p: Params, s: Core, c: Regs)
    requires Inv(p, s) && Rep(p, c, s.spec) && (c.storeResp.Some? ==> c.pipe.None?)
    ensures var d := Stage2(Stage3(c)); Rep(p, d, s.spec) && d.mapResp.None? && Boundary(d, s.spec) && d.pipe == c.pipe
  {
    hide Shape; hide SpecInv; hide Partition; hide ValidBits; hide Speculation; hide Wakeups; hide Values; hide TagsOk;
    hide Rep;
    Stage3Rep(p, c, s.spec);
    Stage2Rep(p, Stage3(c), s.spec, Tagging(s));
  }

  /** Freeing the oldest tag and rolling back to a younger one commute. */
  lemma FreeRollbackCommute(p: Params, a: Spec, buf: Option<Tagged>, j: nat)
    requires SpecInv(p, a, buf) && j < |a.ring| && a.ring[j].tag != a.tail
    ensures var i := if FreesCheckpoint(a) then j - 1 else j;
            && 0 <= i < |FreeStep(a).ring| && FreeStep(a).ring[i] == a.ring[j]
            && RollbackStep(FreeStep(a), i) == FreeStep(RollbackStep(a, j))
  {
    var b, t := FreeStep(a), a.ring[j].tag;
    assert FreesCheckpoint(a) ==> j > 0;
    assert Upto(a.active - {a.tail}, t) == Upto(a.active, t) - {a.tail};
    if FreesCheckpoint(a) {
      assert a.ring[..j][1..] == a.ring[1..][..j - 1];
      assert FreesCheckpoint(RollbackStep(a, j));
    } else {
      assert !FreesCheckpoint(RollbackStep(a, j));
    }
  }

  /** Free and rollback on the registers, in the order in which their assignments win. */
  lemma BackTick(p: Params, a: Spec, buf: Option<Tagged>, c: Regs, free: bool, j: Option<nat>)
    requires p.Ok() && Rep(p, c, a) && SpecInv(p, a, buf) && c.mapResp.None? && Boundary(c, a)
    requires free ==> a.tail + 1 < a.head
    requires j.Some? ==> j.value < |a.ring| && (free ==> a.ring[j.value].tag != a.tail)
    requires j.Some? && c.pipe.Some? ==> j.value < |a.ring| - 1
    ensures var d := DoRollback(p, DoFree(p, c, free), if j.Some? then Some(a.ring[j.value].tag % p.tags) else None);
            var a1 := if j.Some? then RollbackStep(a, j.value) else a;
            var b := if free then FreeStep(a1) else a1;
            Rep(p, d, b) && Boundary(d, b)
  {
    hide Rep; hide SpecInv;
    IdleParts(p, c);
    IdleParts(p, DoFree(p, c, free));
    if free {
      FreeRep(p, c, a, buf);
      FreeInv(p, a, buf);
      if j.Some? {
        FreeRollbackCommute(p, a, buf, j.value);
        var i := if FreesCheckpoint(a) then j.value - 1 else j.value;
        RollbackRep(p, DoFree(p, c, true), FreeStep(a), buf, i);
      }
    } else if j.Some? {
      RollbackRep(p, c, a, buf, j.value);
    }
  }

  /** The restart and rename parts, after the snapshot of the previous cycle was stored. */
  lemma RestartRename(p: Params, s: Core, c: Regs, k: Tick, m: Core) returns (d: Regs)
    requires p.Ok() && PairInv(p, s, c) && c.pipe.None?
    requires (k.restart ==> c.finished && s.fsm == Resume) && (k.rename ==> RenameOk(p, s, c))
    requires Runs(p, s, Opt(k.restart, Restart) + Opt(k.rename, Rename), m)
    ensures d == DoRename(p, RestoreTable(c, if k.restart then Some(s.rrat) else None),
                          if k.rename then Some(RenameInput(p, s)) else None)
    ensures PairInv(p, m, d) && (d.storeResp.Some? ==> d.pipe.None?)
    ensures m.allocBuf == s.allocBuf && (s.tagBuf.None? || k.rename ==> m.tagBuf.None?)
    ensures s.spec.ring <= m.spec.ring && (d.pipe.Some? ==> |s.spec.ring| < |m.spec.ring|)
    ensures s.rob <= m.rob && s.ph <= m.ph && m.spec.tail == s.spec.tail && (!k.restart ==> m.fsm == s.fsm)
    ensures m.spec == s.spec.(frat := m.spec.frat, lock := m.spec.lock, ring := m.spec.ring)
  {
    hide PairInv; hide Rep; hide Inv;
    var m1 := RunsSplit(p, s, Opt(k.restart, Restart), Opt(k.rename, Rename), m);
    RunsOpt(p, s, k.restart, Restart, m1);
    RunsOpt(p, m1, k.rename, Rename, m);
    IdleParts(p, c);
    d := RestoreTable(c, if k.restart then Some(s.rrat) else None);
    if k.restart {
      RestartTick(p, s, c);
      NoRenameInResume(p, s, c);
    }
    IdleParts(p, d);
    if k.rename {
      RenameTick(p, m1, d);
    }
    d := DoRename(p, d, if k.rename then Some(RenameInput(p, s)) else None);
  }

  lemma NoRenameInResume(p: Params, s: Core, c: Regs)
    requires PairInv(p, s, c) && s.fsm == Resume
    ensures s.tagBuf.None?
  {
    ResumeIsEmpty(p, s);
  }

  lemma TagOkFrame(p: Params, s: Core, c: Regs, m: Core, d: Regs)
    requires p.Ok() && TagOk(p, s, c) && Awaited(s, c) && m.allocBuf == s.allocBuf
    requires m.spec == s.spec.(frat := m.spec.frat, lock := m.spec.lock, ring := m.spec.ring)
    requires d == c.(frat := d.frat, storage := d.storage, pipe := d.pipe, lock := d.lock, ckHead := d.ckHead,
                     ckFull := d.ckFull, ckptd := d.ckptd, tagMap := d.tagMap)
    ensures TagOk(p, m, d) && Awaited(m, d) && TagInput(p, m) == TagInput(p, s)
  {
  }

  /** The tag part followed by the restore pipeline. */
  lemma TagDrain(p: Params, s: Core, c: Regs, tag: bool, m: Core)
    requires p.Ok() && PairInv(p, s, c) && (c.storeResp.Some? ==> c.pipe.None?)
    requires (tag ==> s.tagBuf.None? && TagOk(p, s, c) && Awaited(s, c)) && Runs(p, s, Opt(tag, Tag), m)
    ensures var d := Stage2(Stage3(DoTag(p, c, if tag then Some(TagInput(p, s)) else None)));
            && Inv(p, m) && CarriedOk(p, m) && Rep(p, d, m.spec) && Boundary(d, m.spec) && d.mapResp.None?
            && d.pipe == c.pipe
    ensures m.spec.ring == s.spec.ring && m.rob == s.rob && m.ph == s.ph && m.spec.tail == s.spec.tail && m.fsm == s.fsm
  {
    hide Inv; hide Rep; hide TagOk; hide CarriedOk;
    RunsOpt(p, s, tag, Tag, m);
    if tag {
      TagTick(p, s, c);
      DrainTick(p, m, DoTag(p, c, Some(TagInput(p, s))));
    } else {
      IdleParts(p, c);
      DrainTick(p, m, c);
    }
  }

  /** State of the pair after the restart, rename and tag parts and the restore pipeline. */
  lemma FrontTick(p: Params, s: Core, c: Regs, k: Tick, m: Core) returns (d: Regs)
    requires p.Ok() && PairInv(p, s, c) && Awaited(s, c) && Ready(p, s, c, k)
    requires Runs(p, s, Opt(k.restart, Restart) + Opt(k.rename, Rename) + Opt(k.tag, Tag), m)
    ensures d == FrontRegs(p, c, InputsOf(p, s, k))
    ensures Inv(p, m) && CarriedOk(p, m) && Rep(p, d, m.spec) && Boundary(d, m.spec) && d.mapResp.None?
    ensures s.spec.ring <= m.spec.ring && (d.pipe.Some? ==> |s.spec.ring| < |m.spec.ring|)
    ensures s.rob <= m.rob && s.ph <= m.ph && m.spec.tail == s.spec.tail && (!k.restart ==> m.fsm == s.fsm)
  {
    hide PairInv; hide Inv; hide Rep; hide CarriedOk; hide Boundary; hide TagOk; hide RollbackOk; hide RetireOk;
    hide Runs;
    hide Stage2; hide Stage3; hide DoTag; hide RenameInput; hide TagInput; hide RenameOk;
    var m2 := RunsSplit(p, s, Opt(k.restart, Restart) + Opt(k.rename, Rename), Opt(k.tag, Tag), m);
    AfterPipe(p, s, c, k);
    var c3 := RestartRename(p, s, PipeWrite(c), k, m2);
    if k.tag { TagOkFrame(p, s, c, m2, c3); }
    TagDrain(p, m2, c3, k.tag, m);
    d := Stage2(Stage3(DoTag(p, c3, if k.tag then Some(TagInput(p, s)) else None)));
  }

  lemma AfterPipe(p: Params, s: Core, c: Regs, k: Tick)
    requires PairInv(p, s, c) && Ready(p, s, c, k)
    ensures PairInv(p, s, PipeWrite(c)) && PipeWrite(c).pipe.None?
    ensures k.rename ==> RenameOk(p, s, PipeWrite(c))
  {
    hide Shape; hide SpecInv; hide Partition; hide ValidBits; hide Speculation; hide Wakeups; hide Values; hide TagsOk;
    hide Rep;
    PipeWriteRep(p, c, s.spec);
  }

  lemma ResumeIsEmpty(p: Params, s: Core)
    requires Inv(p, s) && s.fsm == Resume
    ensures s.tagBuf.None? && s.allocBuf.None? && s.rob == []
  {
  }

  function Opt(b: bool, e: Event): seq<Event> {
    if b then [e] else []
  }

  lemma RunsOpt(p: Params, s: Core, b: bool, e: Event, t: Core)
    requires Runs(p, s, Opt(b, e), t)
    ensures b ==> Enabled(p, s, e) && t == Step(p, s, e)
    ensures !b ==> t == s
  {
    if b {
      assert [e][1..] == [];
      assert Runs(p, Step(p, s, e), [], t);
    }
  }

  lemma RunsOne(p: Params, s: Core, es: seq<Event>, t: Core)
    requires Runs(p, s, es, t) && |es| <= 1
    ensures if es == [] then t == s else Enabled(p, s, es[0]) && t == Step(p, s, es[0])
  {
    if es != [] {
      assert es[1..] == [];
      assert Runs(p, Step(p, s, es[0]), [], t);
    }
  }

  /** Parts of a cycle that are not exercised leave the registers alone. */
  lemma IdleParts(p: Params, c: Regs)
    ensures RestoreTable(c, None) == c && DoRename(p, c, None) == c && DoTag(p, c, None) == c
    ensures DoFree(p, c, false) == c && DoRollback(p, c, None) == c
  {
  }

  /** An unfinished instruction survives the retirement, so its tag is not the one freed. */
  lemma RollbackTagNotFreed(p: Params, s: Core, j: nat, n: nat)
    requires Inv(p, s) && RollbackOk(s, j) && RetireOk(s, n) && CountIncr(s.rob[..n]) > 0
    ensures s.spec.ring[j].tag > s.spec.tail
  {
    hide SpecInv; hide Partition; hide ValidBits; hide Speculation; hide Wakeups; hide Values;
    var i :| 0 <= i < |s.rob| && s.rob[i].tag == s.spec.ring[j].tag && !s.ph[i].Done?;
    RetireChain(s.spec.tail, s.rob, n);
  }

  lemma TailBelowHead(p: Params, s: Core, n: nat)
    requires Inv(p, s) && n <= |s.rob| && CountIncr(s.rob[..n]) == 1
    ensures s.spec.tail + 1 < s.spec.head
  {
    hide Partition; hide ValidBits; hide Speculation; hide Wakeups; hide Values; hide RingOk; hide Phases;
    RetireChain(s.spec.tail, s.rob, n);
  }

  lemma CarriedBack(p: Params, s: Core, e: Event)
    requires Inv(p, s) && CarriedOk(p, s) && Enabled(p, s, e) && (e.Rollback? || e.Retire?)
    ensures CarriedOk(p, Step(p, s, e))
  {
    hide Shape; hide Partition; hide ValidBits; hide Speculation; hide Wakeups; hide Values; hide TagsOk; hide Retired;
  }

  /** Every live checkpoint is older than the tag carried by a waiting group, so rolling back to
      one leaves the group on an older path. */
  lemma AwaitedBack(p: Params, m: Core, k: Tick, n: Core, t: Core, c: Regs, r: Option<nat>)
    requires Inv(p, m) && CarriedOk(p, m) && c.mapResp.None?
    requires if k.rollback.Some? then Enabled(p, m, Rollback(k.rollback.value))
                                      && n == Step(p, m, Rollback(k.rollback.value))
             else n == m && r.None?
    requires if k.retire.Some? then Enabled(p, n, Retire(k.retire.value.0, k.retire.value.1))
                                    && t == Step(p, n, Retire(k.retire.value.0, k.retire.value.1))
             else t == n
    ensures Awaited(t, DoRollback(p, c, r))
  {
    hide Shape; hide Partition; hide ValidBits; hide Speculation; hide Wakeups; hide Values; hide TagsOk; hide Retired;
    hide Phases; hide Window;
  }

  /** The rollback and retirement parts of a cycle. */
  lemma TickBack(p: Params, s: Core, c: Regs, k: Tick, m: Core, n: Core, t: Core, c5: Regs)
    requires PairInv(p, s, c) && Ready(p, s, c, k)
    requires Inv(p, m) && CarriedOk(p, m) && Rep(p, c5, m.spec) && Boundary(c5, m.spec) && c5.mapResp.None?
    requires s.spec.ring <= m.spec.ring && (c5.pipe.Some? ==> |s.spec.ring| < |m.spec.ring|)
    requires s.rob <= m.rob && m.spec.tail == s.spec.tail
    requires if k.rollback.Some? then Enabled(p, m, Rollback(k.rollback.value))
                                      && n == Step(p, m, Rollback(k.rollback.value))
             else n == m
    requires if k.retire.Some? then Enabled(p, n, Retire(k.retire.value.0, k.retire.value.1))
                                    && t == Step(p, n, Retire(k.retire.value.0, k.retire.value.1))
             else t == n
    ensures var i := InputsOf(p, s, k);
            PairInv(p, t, DoRollback(p, DoFree(p, c5, i.free), i.rollback))
  {
    hide Shape; hide SpecInv; hide Partition; hide ValidBits; hide Speculation; hide Wakeups; hide Values; hide TagsOk;
    hide RepTags; hide RepBits; hide RepRing; hide RepStore; hide RepPipe; hide Retired;
    var free := InputsOf(p, s, k).free;
    if k.rollback.Some? {
      StepInv(p, m, Rollback(k.rollback.value));
      CarriedBack(p, m, Rollback(k.rollback.value));
    }
    if k.retire.Some? {
      StepInv(p, n, Retire(k.retire.value.0, k.retire.value.1));
      CarriedBack(p, n, Retire(k.retire.value.0, k.retire.value.1));
      assert m.rob[..k.retire.value.0] == s.rob[..k.retire.value.0];
    }
    if free {
      TailBelowHead(p, m, k.retire.value.0);
      if k.rollback.Some? { RollbackTagNotFreed(p, s, k.rollback.value, k.retire.value.0); }
    }
    BackTick(p, m.spec, Tagging(m), c5, free, k.rollback);
  }

  lemma TickAwaited(p: Params, s: Core, c: Regs, k: Tick, m: Core, n: Core, t: Core, c5: Regs)
    requires p.Ok() && Ready(p, s, c, k) && Inv(p, m) && CarriedOk(p, m) && c5.mapResp.None?
    requires if k.rollback.Some? then Enabled(p, m, Rollback(k.rollback.value))
                                      && n == Step(p, m, Rollback(k.rollback.value))
             else n == m
    requires if k.retire.Some? then Enabled(p, n, Retire(k.retire.value.0, k.retire.value.1))
                                    && t == Step(p, n, Retire(k.retire.value.0, k.retire.value.1))
             else t == n
    ensures var i := InputsOf(p, s, k); Awaited(t, DoRollback(p, DoFree(p, c5, i.free), i.rollback))
  {
    hide Inv; hide CarriedOk; hide Enabled; hide Step; hide Awaited;
    var i := InputsOf(p, s, k);
    AwaitedBack(p, m, k, n, t, DoFree(p, c5, i.free), i.rollback);
  }

  /** One clock cycle keeps the core's invariant and the representation of its table. */
  lemma TickInv(p: Params, s: Core, c: Regs, k: Tick, t: Core, d: Regs)
    requires PairInv(p, s, c) && Awaited(s, c) && Ticks(p, s, c, k, t, d)
    ensures PairInv(p, t, d) && Awaited(t, d)
  {
    hide Shape; hide SpecInv; hide Partition; hide ValidBits; hide Speculation; hide Wakeups; hide Values; hide TagsOk;
    hide RepTags; hide RepBits; hide RepRing; hide RepStore; hide RepPipe; hide Ready; hide Awaited;
    var front := Opt(k.restart, Restart) + Opt(k.rename, Rename) + Opt(k.tag, Tag);
    var roll := if k.rollback.Some? then [Rollback(k.rollback.value)] else [];
    var ret := if k.retire.Some? then [Retire(k.retire.value.0, k.retire.value.1)] else [];
    assert Steps(k) == front + k.quiet + roll + ret;
    var m3 := RunsSplit(p, s, front + k.quiet + roll, ret, t);
    var m2 := RunsSplit(p, s, front + k.quiet, roll, m3);
    var m1 := RunsSplit(p, s, front, k.quiet, m2);
    var c5 := FrontTick(p, s, c, k, m1);
    assert forall i :: 0 <= i < |k.quiet| ==> IsQuiet(k.quiet[i]) by {
      assert Ready(p, s, c, k);
      QuietOnly(p, s, c, k);
    }
    QuietRun(p, m1, k.quiet, m2);
    RunsOne(p, m2, roll, m3);
    RunsOne(p, m3, ret, t);
    TickBack(p, s, c, k, m2, m3, t, c5);
    TickAwaited(p, s, c, k, m2, m3, t, c5);
  }

  lemma QuietOnly(p: Params, s: Core, c: Regs, k: Tick)
    requires p.Ok() && Ready(p, s, c, k)
    ensures forall i :: 0 <= i < |k.quiet| ==> IsQuiet(k.quiet[i])
  {
  }

  // ---- every run of cycles ----

  datatype Moment = Moment(core: Core, regs: Regs, tick: Tick)

  /** A history of whole cycles starting at reset. */
  ghost predicate History(p: Params, h: seq<Moment>, s: Core, c: Regs)
    requires p.Ok()
    decreases h
  {
    if h == [] then s == RenameCore.Init(p) && c == InitRegs(p)
    else
      var l := h[|h| - 1];
      History(p, h[..|h| - 1], l.core, l.regs) && Ticks(p, l.core, l.regs, l.tick, s, c)
  }

  lemma {:induction false} HistoryInv(p: Params, h: seq<Moment>, s: Core, c: Regs)
    requires p.Ok() && History(p, h, s, c)
    ensures PairInv(p, s, c) && Awaited(s, c)
    decreases h
  {
    hide PairInv; hide Ticks;
    if h == [] {
      InitPair(p);
    } else {
      var l := h[|h| - 1];
      HistoryInv(p, h[..|h| - 1], l.core, l.regs);
      TickInv(p, l.core, l.regs, l.tick, s, c);
    }
  }
}
