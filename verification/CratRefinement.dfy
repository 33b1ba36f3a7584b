/** The registers of the checkpoint RAT refine its specification, cycle by cycle. */
module CratRefinement {
  import opened RatModel
  import opened Wrappers
  import opened CratSpec
  import opened Cyclic
  import opened CheckpointRat

  // ---- residues inside the tag window and inside the ring ----

  lemma TagsDiffer(p: Params, x: nat, y: nat, lo: nat)
    requires p.Ok() && lo <= x < lo + p.tags && lo <= y < lo + p.tags
    ensures x % p.tags == y % p.tags <==> x == y
  {
    if x <= y { ModInjective(x, y, p.tags); } else { ModInjective(y, x, p.tags); }
  }

  lemma SlotsDiffer(p: Params, a: Spec, i: nat, j: nat)
    requires p.Ok() && i < p.slots && j < p.slots
    ensures Slot(p, a, i) == Slot(p, a, j) <==> i == j
  {
    var b := a.ringBase;
    if i <= j { ModInjective(b + i, b + j, p.slots); } else { ModInjective(b + j, b + i, p.slots); }
  }

  // ---- initial state ----

  lemma InitRep(p: Params)
    requires p.Ok()
    ensures Rep(p, InitRegs(p), Init(p)) && Boundary(InitRegs(p), Init(p))
  {
    var c, a := InitRegs(p), Init(p);
    forall x | 0 <= x < p.tags ensures x % p.tags == x {
      ModStep(0, x, p.tags);
    }
  }

  // ---- snapshot write ----

  lemma PipeWriteRep(p: Params, c: Regs, a: Spec)
    requires p.Ok() && Rep(p, c, a)
    ensures Rep(p, PipeWrite(c), a) && PipeWrite(c).pipe.None?
  {
    hide RepTags; hide RepBits;
    var n := PipeWrite(c);
    MapSize(p, c, a);
    assert RepTags(p, n, a) by { TagsPipeFrame(p, c, n, a); }
    assert RepBits(p, n, a) by { TagsPipeFrame(p, c, n, a); }
    assert RepPipe(p, n, a);
    RingFrame(p, c, n, a);
  }

  lemma TagsPipeFrame(p: Params, c: Regs, n: Regs, a: Spec)
    requires p.Ok() && RepTags(p, c, a) && RepBits(p, c, a)
    requires n == c.(storage := n.storage, pipe := n.pipe)
    ensures RepTags(p, n, a) && RepBits(p, n, a)
  {
  }

  // ---- rename ----

  lemma TagValidIsMayWrite(p: Params, c: Regs, a: Spec, g: Tagged)
    requires p.Ok() && RepTags(p, c, a) && SpecInv(p, a, Some(g))
    ensures TagValid(c, g.tag % p.tags) <==> MayWrite(a, g.tag)
  {
  }

  lemma RenameTagsRep(p: Params, c: Regs, a: Spec, g: Tagged, ops: seq<Op>)
    requires p.Ok() && Rep(p, c, a) && SpecInv(p, a, Some(g))
    ensures var n := DoRename(p, c, Some(RenameIn(g.tag % p.tags, g.ckpt, ops))); var b := RenameStep(a, g, ops);
            RepTags(p, n, b) && RepPipe(p, n, b)
  {
    hide RepBits; hide RepRing; hide RepStore; hide RingOk;
    TagValidIsMayWrite(p, c, a, g);
  }

  lemma RenameBitsRep(p: Params, c: Regs, a: Spec, g: Tagged, ops: seq<Op>)
    requires p.Ok() && Rep(p, c, a) && SpecInv(p, a, Some(g))
    ensures var n := DoRename(p, c, Some(RenameIn(g.tag % p.tags, g.ckpt, ops))); var b := RenameStep(a, g, ops);
            RepBits(p, n, b)
  {
    hide RepRing; hide RepStore; hide RepPipe; hide RingOk; hide WriteAll;
    TagValidIsMayWrite(p, c, a, g);
    var n, b := DoRename(p, c, Some(RenameIn(g.tag % p.tags, g.ckpt, ops))), RenameStep(a, g, ops);
    if MakesCheckpoint(a, g) {
      forall x | a.tail <= x < a.tail + p.tags && x != g.tag ensures n.ckptd[x % p.tags] == c.ckptd[x % p.tags] {
        TagsDiffer(p, x, g.tag, a.tail);
      }
      forall x: nat ensures OnRing(b, x) <==> OnRing(a, x) || x == g.tag {
        if OnRing(a, x) {
          var i :| 0 <= i < |a.ring| && a.ring[i].tag == x;
          assert b.ring[i].tag == x;
        }
        assert b.ring[|a.ring|].tag == g.tag;
      }
    } else {
      forall x: nat ensures OnRing(b, x) <==> OnRing(a, x) { }
    }
  }

  lemma RenameRingRep(p: Params, c: Regs, a: Spec, g: Tagged, ops: seq<Op>)
    requires p.Ok() && Rep(p, c, a) && SpecInv(p, a, Some(g))
    requires MakesCheckpoint(a, g) ==> !c.ckFull
    ensures var n := DoRename(p, c, Some(RenameIn(g.tag % p.tags, g.ckpt, ops))); var b := RenameStep(a, g, ops);
            RepRing(p, n, b)
    ensures RenameReady(p, a, g)
  {
    hide RepStore; hide RepPipe; hide WriteAll;
    TagValidIsMayWrite(p, c, a, g);
    var n, b := DoRename(p, c, Some(RenameIn(g.tag % p.tags, g.ckpt, ops))), RenameStep(a, g, ops);
    if MakesCheckpoint(a, g) {
      ModNext(a.ringBase + |a.ring|, p.slots);
      ModInjectiveWrap(a.ringBase, |a.ring| + 1, p.slots);
      forall i | 0 <= i < |a.ring| ensures n.tagMap[a.ring[i].tag % p.tags] == Slot(p, a, i) {
        TagsDiffer(p, a.ring[i].tag, g.tag, a.tail);
      }
    }
  }

  lemma ModInjectiveWrap(b: nat, d: nat, n: nat)
    requires 0 < d <= n
    ensures (b + 0) % n == (b + d) % n <==> d == n
  {
    if d < n { ModInjective(b, b + d, n); } else { ModAddN(b, n); }
  }

  lemma RenameStoreRep(p: Params, c: Regs, a: Spec, g: Tagged, ops: seq<Op>)
    requires p.Ok() && Rep(p, c, a) && SpecInv(p, a, Some(g)) && c.pipe.None? && Boundary(c, a)
    requires RenameReady(p, a, g)
    ensures var n := DoRename(p, c, Some(RenameIn(g.tag % p.tags, g.ckpt, ops))); var b := RenameStep(a, g, ops);
            RepStore(p, n, b)
  {
    hide RepPipe; hide WriteAll; hide RepBits;
    TagValidIsMayWrite(p, c, a, g);
    var n, b := DoRename(p, c, Some(RenameIn(g.tag % p.tags, g.ckpt, ops))), RenameStep(a, g, ops);
    assert MayWrite(a, g.tag) ==> !a.rbActive;
    if MakesCheckpoint(a, g) {
      assert c.mapResp.None? by { assert RepBits(p, c, a); MapRespMeansRollback(p, c, a); }
      forall i | 0 <= i < |a.ring| ensures Slot(p, a, i) != Slot(p, a, |a.ring|) {
        SlotsDiffer(p, a, i, |a.ring|);
      }
    } else if MayWrite(a, g.tag) {
      MapRespMeansRollback(p, c, a);
    }
  }

  lemma MapRespMeansRollback(p: Params, c: Regs, a: Spec)
    requires p.Ok() && Rep(p, c, a)
    ensures c.mapResp.Some? ==> a.rbActive
  {
  }

  lemma RenameRep(p: Params, c: Regs, a: Spec, g: Tagged, ops: seq<Op>)
    requires p.Ok() && Rep(p, c, a) && SpecInv(p, a, Some(g)) && c.pipe.None? && Boundary(c, a)
    requires MakesCheckpoint(a, g) ==> !c.ckFull
    ensures var n := DoRename(p, c, Some(RenameIn(g.tag % p.tags, g.ckpt, ops))); var b := RenameStep(a, g, ops);
            && Rep(p, n, b) && Boundary(n, b)
            && (n.storeResp.Some? ==> n.pipe.None?)
    ensures RenameReady(p, a, g)
  {
    hide RepTags; hide RepBits; hide RepRing; hide RepStore; hide RepPipe; hide WriteAll; hide SpecInv;
    RenameRingRep(p, c, a, g, ops);
    RenameTagsRep(p, c, a, g, ops);
    RenameBitsRep(p, c, a, g, ops);
    RenameStoreRep(p, c, a, g, ops);
    PendingBlocksWrite(p, c, a, g);
  }

  lemma PendingBlocksWrite(p: Params, c: Regs, a: Spec, g: Tagged)
    requires p.Ok() && Rep(p, c, a) && SpecInv(p, a, Some(g)) && Boundary(c, a)
    ensures c.storeResp.Some? ==> !TagValid(c, g.tag % p.tags)
  {
    TagValidIsMayWrite(p, c, a, g);
  }

  // ---- tag ----

  /** Frontend assumption on the rollback tag a group carries: it names the current rollback
      or one it superseded, so both tags lie in one window. */
  ghost predicate Carried(p: Params, a: Spec, rb: Option<nat>) {
    a.rbActive && rb.Some? ==> a.target <= rb.value < a.target + p.tags
  }

  function TagInOf(p: Params, rb: Option<nat>, ckpt: bool): TagIn
    requires p.Ok()
  {
    TagIn(if rb.Some? then rb.value % p.tags else 0, rb.Some?, ckpt)
  }

  /** Once the restore passed its middle stage, the register comparison recognises exactly the
      first group of the new path. */
  lemma ResumesIsMatches(p: Params, c: Regs, a: Spec, rb: Option<nat>, ckpt: bool)
    requires p.Ok() && Rep(p, c, a) && Carried(p, a, rb)
    requires Matches(a, rb) ==> c.mapResp.None?
    ensures var t := TagInOf(p, rb, ckpt);
            (Resumes(c, t) <==> Matches(a, rb)) && !Stalls(c, t)
  {
    hide RepBits; hide RepRing; hide RepStore;
    if a.rbActive && rb.Some? {
      TagsDiffer(p, a.target, rb.value, a.target);
    }
  }

  /** A free tag exists exactly when the cyclic head differs from the tail. */
  lemma TagSpace(p: Params, c: Regs, a: Spec, buf: Option<Tagged>)
    requires p.Ok() && Rep(p, c, a) && SpecInv(p, a, buf)
    ensures c.tagsHead != c.tagsTail <==> a.head - a.tail < p.tags
  {
    hide RepBits; hide RepRing; hide RepStore; hide RepPipe; hide Phases; hide RingOk;
    ModInjectiveWrap(a.tail, a.head - a.tail, p.tags);
  }

  lemma TagActiveRep(p: Params, c: Regs, a: Spec, rb: Option<nat>, ckpt: bool)
    requires p.Ok() && Rep(p, c, a) && SpecInv(p, a, None) && Carried(p, a, rb) && TagReady(p, a, rb)
    requires Matches(a, rb) ==> c.mapResp.None?
    ensures RepTags(p, DoTag(p, c, Some(TagInOf(p, rb, ckpt))), TagStep(a, rb, ckpt))
  {
    hide RepBits; hide RepRing; hide RepStore; hide RepPipe; hide RingOk;
    var t := TagInOf(p, rb, ckpt);
    ResumesIsMatches(p, c, a, rb, ckpt);
    var n, b := DoTag(p, c, Some(t)), TagStep(a, rb, ckpt);
    ModNext(a.head, p.tags);
    if TagAllocates(a, rb) {
      forall x | a.tail <= x < a.tail + p.tags ensures n.active[x % p.tags] <==> x in b.active {
        TagsDiffer(p, x, a.head, a.tail);
      }
    }
  }

  lemma TagRestRep(p: Params, c: Regs, a: Spec, rb: Option<nat>, ckpt: bool)
    requires p.Ok() && Rep(p, c, a) && SpecInv(p, a, None) && Carried(p, a, rb) && TagReady(p, a, rb)
    requires Matches(a, rb) ==> c.mapResp.None?
    ensures var n := DoTag(p, c, Some(TagInOf(p, rb, ckpt))); var b := TagStep(a, rb, ckpt);
            RepBits(p, n, b) && RepRing(p, n, b) && RepStore(p, n, b) && RepPipe(p, n, b)
  {
    var n, b := DoTag(p, c, Some(TagInOf(p, rb, ckpt))), TagStep(a, rb, ckpt);
    ResumesIsMatches(p, c, a, rb, ckpt);
    forall x: nat ensures OnRing(b, x) <==> OnRing(a, x) { }
  }

  /** The tag handed out is the specification's tag, cut to its number. */
  lemma TagRep(p: Params, c: Regs, a: Spec, rb: Option<nat>, ckpt: bool)
    requires p.Ok() && Rep(p, c, a) && SpecInv(p, a, None) && Carried(p, a, rb) && TagReady(p, a, rb)
    requires Matches(a, rb) ==> c.mapResp.None?
    ensures Rep(p, DoTag(p, c, Some(TagInOf(p, rb, ckpt))), TagStep(a, rb, ckpt))
    ensures var o := TagOut(a, rb, ckpt); TagResult(c, TagInOf(p, rb, ckpt)) == o.(tag := o.tag % p.tags)
  {
    hide RepBits; hide RepRing; hide RepStore; hide RepPipe; hide RingOk;
    TagActiveRep(p, c, a, rb, ckpt);
    TagRestRep(p, c, a, rb, ckpt);
    ResumesIsMatches(p, c, a, rb, ckpt);
  }

  // ---- restore pipeline ----

  lemma Stage3Rep(p: Params, c: Regs, a: Spec)
    requires p.Ok() && Rep(p, c, a) && (c.storeResp.Some? ==> c.pipe.None?)
    ensures Rep(p, Stage3(c), a) && Stage3(c).storeResp.None?
  {
    hide RepTags; hide RepRing;
    MapSize(p, c, a);
    TagsFrame(p, c, Stage3(c), a);
    RingFrame(p, c, Stage3(c), a);
    TargetNumber(p, c, a);
  }

  lemma TargetNumber(p: Params, c: Regs, a: Spec)
    requires p.Ok() && RepTags(p, c, a)
    ensures c.target == a.target % p.tags
  {
  }

  lemma TagsFrame(p: Params, c: Regs, n: Regs, a: Spec)
    requires p.Ok() && RepTags(p, c, a)
    requires n == c.(frat := n.frat, storeResp := n.storeResp, finished := n.finished, ckHead := n.ckHead,
                     ckFull := n.ckFull, ckptd := n.ckptd, s2 := n.s2, mapResp := n.mapResp) && |n.ckptd| == |c.ckptd|
    ensures RepTags(p, n, a)
  {
  }

  lemma RingFrame(p: Params, c: Regs, n: Regs, a: Spec)
    requires p.Ok() && |c.tagMap| == p.tags && RepRing(p, c, a)
    requires n.tagMap == c.tagMap && n.ckTail == c.ckTail && n.ckHead == c.ckHead && n.ckFull == c.ckFull
    requires n.mapResp == c.mapResp
    ensures RepRing(p, n, a)
  {
  }

  lemma Stage2Bits(p: Params, c: Regs, a: Spec, buf: Option<Tagged>)
    requires p.Ok() && Rep(p, c, a) && SpecInv(p, a, buf)
    ensures RepBits(p, Stage2(c), a)
  {
    hide RepRing; hide RepStore; hide RepPipe;
    if c.mapResp.Some? {
      forall x | a.tail <= x < a.tail + p.tags ensures x % p.tags == c.target <==> x == a.target {
        TagsDiffer(p, x, a.target, a.tail);
      }
    }
  }

  lemma Stage2Rep(p: Params, c: Regs, a: Spec, buf: Option<Tagged>)
    requires p.Ok() && Rep(p, c, a) && SpecInv(p, a, buf) && c.storeResp.None?
    ensures var n := Stage2(c); Rep(p, n, a) && n.mapResp.None? && Boundary(n, a)
  {
    hide RepTags; hide RepBits; hide Window; hide Phases; hide RingOk;
    Stage2Bits(p, c, a, buf);
    TagsFrame(p, c, Stage2(c), a);
    MapRespMeansRollback(p, c, a);
  }

  // ---- freeing the oldest tag ----

  lemma FreesMeans(p: Params, c: Regs, a: Spec, buf: Option<Tagged>)
    requires p.Ok() && Rep(p, c, a) && SpecInv(p, a, buf) && c.mapResp.None?
    ensures FreesCheckpoint(a) <==> c.active[c.tagsTail] && c.ckptd[c.tagsTail]
  {
    hide RepRing; hide RepStore; hide RepPipe; hide Phases;
    assert c.active[c.tagsTail] <==> a.tail in a.active;
    if a.ring != [] && a.ring[0].tag == a.tail {
      assert OnRing(a, a.tail);
    }
  }

  lemma FreeTagsRep(p: Params, c: Regs, a: Spec, buf: Option<Tagged>)
    requires p.Ok() && Rep(p, c, a) && SpecInv(p, a, buf) && a.tail + 1 < a.head
    ensures RepTags(p, DoFree(p, c, true), FreeStep(a))
  {
    hide RepBits; hide RepRing; hide RepStore; hide RepPipe; hide RingOk; hide Phases;
    var n, b := DoFree(p, c, true), FreeStep(a);
    ModNext(a.tail, p.tags);
    forall x | b.tail <= x < b.tail + p.tags ensures n.active[x % p.tags] <==> x in b.active {
      if x == a.tail + p.tags {
        ModAddN(a.tail, p.tags);
      } else {
        TagsDiffer(p, x, a.tail, a.tail);
      }
    }
  }

  lemma FreeBitsRep(p: Params, c: Regs, a: Spec, buf: Option<Tagged>)
    requires p.Ok() && Rep(p, c, a) && SpecInv(p, a, buf) && a.tail + 1 < a.head && c.mapResp.None?
    ensures RepBits(p, DoFree(p, c, true), FreeStep(a))
  {
    hide RepRing; hide RepStore; hide RepPipe; hide Phases; hide OnRing;
    var n, b := DoFree(p, c, true), FreeStep(a);
    FreeOnRing(a);
    forall x | b.tail <= x < b.tail + p.tags
      ensures n.ckptd[x % p.tags] == (x < a.tail + p.tags && c.ckptd[x % p.tags])
    {
      if x == a.tail + p.tags {
        ModAddN(a.tail, p.tags);
      } else {
        TagsDiffer(p, x, a.tail, a.tail);
      }
    }
  }

  lemma FreeOnRing(a: Spec)
    ensures forall x: nat :: x != a.tail ==> (OnRing(FreeStep(a), x) <==> OnRing(a, x))
  {
    var b := FreeStep(a);
    forall x: nat | x != a.tail ensures OnRing(b, x) <==> OnRing(a, x) {
      if i :| 0 <= i < |a.ring| && a.ring[i].tag == x {
        if FreesCheckpoint(a) { assert b.ring[i - 1].tag == x; } else { assert b.ring[i].tag == x; }
      }
      if i :| 0 <= i < |b.ring| && b.ring[i].tag == x {
        if FreesCheckpoint(a) { assert a.ring[i + 1].tag == x; } else { assert a.ring[i].tag == x; }
      }
    }
  }

  lemma FreeRingRep(p: Params, c: Regs, a: Spec, buf: Option<Tagged>)
    requires p.Ok() && Rep(p, c, a) && SpecInv(p, a, buf) && a.tail + 1 < a.head && c.mapResp.None?
    ensures RepRing(p, DoFree(p, c, true), FreeStep(a)) && RepStore(p, DoFree(p, c, true), FreeStep(a))
    ensures RepPipe(p, DoFree(p, c, true), FreeStep(a))
  {
    hide Phases;
    FreesMeans(p, c, a, buf);
    var n, b := DoFree(p, c, true), FreeStep(a);
    ModNext(a.ringBase, p.slots);
    if FreesCheckpoint(a) {
      forall i | 0 <= i <= |b.ring| ensures Slot(p, b, i) == Slot(p, a, i + 1) {
        assert b.ringBase + i == a.ringBase + (i + 1);
      }
      assert forall i :: 0 <= i < |b.ring| ==> b.ring[i] == a.ring[i + 1];
    } else {
      assert forall i :: 0 <= i <= |b.ring| ==> Slot(p, b, i) == Slot(p, a, i);
    }
  }

  lemma FreeRep(p: Params, c: Regs, a: Spec, buf: Option<Tagged>)
    requires p.Ok() && Rep(p, c, a) && SpecInv(p, a, buf) && a.tail + 1 < a.head && c.mapResp.None?
    ensures Rep(p, DoFree(p, c, true), FreeStep(a))
  {
    hide RepTags; hide RepBits; hide RepRing; hide RepStore; hide RepPipe; hide SpecInv;
    FreeTagsRep(p, c, a, buf);
    FreeBitsRep(p, c, a, buf);
    FreeRingRep(p, c, a, buf);
  }

  // ---- rollback ----

  /** The cyclic invalidation mask clears exactly the allocated tags younger than the target. */
  lemma RollbackTagsRep(p: Params, c: Regs, a: Spec, buf: Option<Tagged>, j: nat)
    requires p.Ok() && Rep(p, c, a) && SpecInv(p, a, buf) && j < |a.ring|
    ensures RepTags(p, DoRollback(p, c, Some(a.ring[j].tag % p.tags)), RollbackStep(a, j))
  {
    hide RepBits; hide RepRing; hide RepStore; hide RepPipe; hide Phases;
    var t := a.ring[j].tag;
    var n, b := DoRollback(p, c, Some(t % p.tags)), RollbackStep(a, j);
    ModNext(t, p.tags);
    ModAddN(a.tail, p.tags);
    forall x | a.tail <= x < a.tail + p.tags ensures n.active[x % p.tags] <==> x in b.active {
      if t + 1 == a.tail + p.tags {
      } else {
        TagsDiffer(p, t + 1, a.tail, a.tail);
        ModShift(a.tail, p.tags - 1, p.tags);
        CyclicSuffix(a.tail, t, x, p.tags);
      }
    }
  }

  lemma RollbackBitsRep(p: Params, c: Regs, a: Spec, buf: Option<Tagged>, j: nat)
    requires p.Ok() && Rep(p, c, a) && SpecInv(p, a, buf) && j < |a.ring| && c.mapResp.None?
    ensures RepBits(p, DoRollback(p, c, Some(a.ring[j].tag % p.tags)), RollbackStep(a, j))
  {
    hide RepRing; hide RepStore; hide RepPipe; hide Phases;
    var t, b := a.ring[j].tag, RollbackStep(a, j);
    forall x: nat | x <= t ensures OnRing(a, x) <==> OnRing(b, x) || x == t {
      if i :| 0 <= i < |a.ring| && a.ring[i].tag == x {
        assert i <= j;
        if i < j { assert b.ring[i].tag == x; }
      }
      if i :| 0 <= i < |b.ring| && b.ring[i].tag == x { assert a.ring[i].tag == x; }
      assert a.ring[j].tag == t;
    }
  }

  lemma RollbackRingRep(p: Params, c: Regs, a: Spec, buf: Option<Tagged>, j: nat)
    requires p.Ok() && Rep(p, c, a) && SpecInv(p, a, buf) && j < |a.ring| && c.mapResp.None?
    requires c.pipe.Some? ==> j < |a.ring| - 1
    ensures var n := DoRollback(p, c, Some(a.ring[j].tag % p.tags)); var b := RollbackStep(a, j);
            RepRing(p, n, b) && RepStore(p, n, b)
  {
    hide RepTags; hide RepBits; hide RepPipe; hide Phases;
    var t := a.ring[j].tag;
    var n, b := DoRollback(p, c, Some(t % p.tags)), RollbackStep(a, j);
    assert forall i :: 0 <= i <= j ==> Slot(p, b, i) == Slot(p, a, i);
    assert |c.tagMap| == p.tags by { MapSize(p, c, a); }
  }

  lemma MapSize(p: Params, c: Regs, a: Spec)
    requires p.Ok() && RepTags(p, c, a)
    ensures |c.tagMap| == p.tags
  {
  }

  lemma RollbackRep(p: Params, c: Regs, a: Spec, buf: Option<Tagged>, j: nat)
    requires p.Ok() && Rep(p, c, a) && SpecInv(p, a, buf) && j < |a.ring| && c.mapResp.None? && Boundary(c, a)
    requires c.pipe.Some? ==> j < |a.ring| - 1
    ensures Rep(p, DoRollback(p, c, Some(a.ring[j].tag % p.tags)), RollbackStep(a, j))
  {
    hide RepTags; hide RepBits; hide RepRing; hide RepStore;
    RollbackTagsRep(p, c, a, buf, j);
    RollbackBitsRep(p, c, a, buf, j);
    RollbackRingRep(p, c, a, buf, j);
    MapSize(p, c, a);
    if c.storeResp.Some? {
      TagsDiffer(p, a.target, a.ring[j].tag, a.tail);
    }
  }

  lemma RestoreRep(p: Params, c: Regs, a: Spec, r: Rat)
    requires p.Ok() && Rep(p, c, a) && c.pipe.None? && c.finished
    ensures Rep(p, c.(frat := r), RestoreStep(a, r))
  {
    var b := RestoreStep(a, r);
    forall x: nat ensures OnRing(b, x) <==> OnRing(a, x) { }
  }
}
