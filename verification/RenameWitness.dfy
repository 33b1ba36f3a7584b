/** A concrete history, so that the theorems about histories speak of something: an instruction is
    allocated, tagged and renamed with a checkpoint, and then the core rolls back to it. */
module RenameWitness {
  import opened RatModel
  import opened Wrappers
  import opened CratSpec
  import opened RenameCore
  import opened RenameProofs
  import opened CheckpointRat
  import opened CoreCycle

  const P := Params(4, 2, 2, 8)
  const BRANCH := Op(1, 0, 0, 1, 0)

  const IDLE := Tick(false, false, false, [], None, None)

  function After(s: Core, c: Regs, k: Tick): Regs
    requires (k.rename ==> s.tagBuf.Some?) && (k.tag ==> s.allocBuf.Some?)
    requires k.retire.Some? ==> k.retire.value.0 <= |s.rob|
    requires k.rollback.Some? ==> k.rollback.value < |s.spec.ring|
  {
    Cycle(P, c, InputsOf(P, s, k))
  }

  lemma OneStep(s: Core, c: Regs, k: Tick, e: Event, h: seq<Moment>)
    requires History(P, h, s, c) && Ready(P, s, c, k) && Steps(k) == [e] && Enabled(P, s, e)
    ensures History(P, h + [Moment(s, c, k)], Step(P, s, e), After(s, c, k))
  {
    var l := h + [Moment(s, c, k)];
    assert l[..|l| - 1] == h;
    assert Runs(P, Step(P, s, e), [], Step(P, s, e));
    assert Steps(k)[1..] == [];
  }

  lemma NoStep(s: Core, c: Regs, h: seq<Moment>)
    requires History(P, h, s, c)
    ensures History(P, h + [Moment(s, c, IDLE)], s, After(s, c, IDLE))
  {
    var l := h + [Moment(s, c, IDLE)];
    assert l[..|l| - 1] == h;
    assert Ready(P, s, c, IDLE) && Steps(IDLE) == [];
  }

  /** No rollback is under way and no tag or slot has been taken. */
  ghost predicate Calm(s: Core, c: Regs) {
    && s.fsm == Normal && s.rob == [] && s.ph == []
    && s.spec == CratSpec.Init(P)
    && !c.rbJust && !c.nextIncr && !c.lock && !c.ckFull && Quiet(c)
  }

  /** Nothing is being restored and slot 0 is the next one. */
  ghost predicate Quiet(c: Regs) {
    c.mapResp.None? && c.storeResp.None? && c.pipe.None? && c.ckHead == 0 && c.frat == [0, 0]
    && |c.tagMap| == 4 && |c.storage| == 2
  }

  lemma Allocated() returns (h: seq<Moment>, s: Core, c: Regs)
    ensures History(P, h, s, c) && Calm(s, c)
    ensures s.allocBuf == Some(AllocGroup([BRANCH], true, None)) && s.tagBuf.None?
  {
    var s0, c0 := RenameCore.Init(P), InitRegs(P);
    var e := Alloc([BRANCH], true, None);
    var k := IDLE.(quiet := [e]);
    assert Steps(k) == [e];
    OneStep(s0, c0, k, e, []);
    h, s, c := [] + [Moment(s0, c0, k)], Step(P, s0, e), After(s0, c0, k);
  }

  lemma TaggedGroup() returns (h: seq<Moment>, s: Core, c: Regs)
    ensures History(P, h, s, c) && s.fsm == Normal && s.rob == [] && s.ph == []
    ensures s.tagBuf == Some(TagGroup([BRANCH], Tagged(0, false, true))) && s.allocBuf.None?
    ensures !s.spec.lock && s.spec.ring == [] && !c.lock && !c.ckFull && Quiet(c)
  {
    hide History;
    var h1, s1, c1 := Allocated();
    var k := IDLE.(tag := true);
    assert Steps(k) == [Tag];
    assert Ready(P, s1, c1, k) && Enabled(P, s1, Tag);
    OneStep(s1, c1, k, Tag, h1);
    h, s, c := h1 + [Moment(s1, c1, k)], Step(P, s1, Tag), After(s1, c1, k);
  }

  lemma RenamedBranch() returns (h: seq<Moment>, s: Core, c: Regs)
    ensures History(P, h, s, c) && s.fsm == Normal
    ensures |s.rob| == |s.ph| == 1 && s.rob[0].op == BRANCH && s.rob[0].tag == 0 && s.ph[0] == Queued
    ensures |s.spec.ring| == 1 && s.spec.ring[0].tag == 0
    ensures c.mapResp.None? && c.storeResp.None? && c.pipe == Some(0) && c.frat == [0, 1]
    ensures |c.tagMap| == 4 && c.tagMap[0] == 0 && |c.storage| == 2
  {
    hide History;
    var h1, s1, c1 := TaggedGroup();
    var k := IDLE.(rename := true);
    assert Steps(k) == [Rename];
    assert [BRANCH][1..] == [] && Write([0, 0], BRANCH) == [0, 1];
    assert WriteAll([0, 0], [BRANCH]) == WriteAll([0, 1], []) == [0, 1];
    assert Ready(P, s1, c1, k) && Enabled(P, s1, Rename);
    OneStep(s1, c1, k, Rename, h1);
    h, s, c := h1 + [Moment(s1, c1, k)], Step(P, s1, Rename), After(s1, c1, k);
  }

  /** A history that ends in a rollback whose restore is still pending. */
  lemma RolledBack() returns (h: seq<Moment>, s: Core, c: Regs)
    ensures History(P, h, s, c) && s.fsm == Normal && s.spec.rbActive && !c.finished
    ensures |s.rob| == 1 && s.rob[0].op == BRANCH && s.rob[0].tag == 0
    ensures c.mapResp == Some(0) && c.storeResp.None? && c.pipe.None? && c.s1 == c.target
    ensures |c.storage| == 2 && c.storage[0] == [0, 1]
  {
    hide History;
    var h1, s1, c1 := RenamedBranch();
    var k := IDLE.(rollback := Some(0));
    assert Steps(k) == [Rollback(0)];
    assert s1.rob[0].tag == s1.spec.ring[0].tag && !s1.ph[0].Done?;
    OneStep(s1, c1, k, Rollback(0), h1);
    h, s, c := h1 + [Moment(s1, c1, k)], Step(P, s1, Rollback(0)), After(s1, c1, k);
  }

  /** Two idle cycles later the restore has finished and the branch's own rename is back. */
  lemma Restored() returns (h: seq<Moment>, s: Core, c: Regs)
    ensures History(P, h, s, c) && s.fsm == Normal && s.spec.rbActive && c.finished
    ensures c.frat == [0, 1]
  {
    hide History;
    var h1, s1, c1 := RolledBack();
    NoStep(s1, c1, h1);
    var c2, h2 := After(s1, c1, IDLE), h1 + [Moment(s1, c1, IDLE)];
    NoStep(s1, c2, h2);
    var c3, h3 := After(s1, c2, IDLE), h2 + [Moment(s1, c2, IDLE)];
    h, s, c := h3, s1, c3;
  }
}
