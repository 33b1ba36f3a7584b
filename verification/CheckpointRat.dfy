/** The registers of the checkpoint RAT: cyclic tag counters, tag bit vectors, a ring of
    snapshot slots and a two-stage restore pipeline. One clock cycle is a sequence of small
    register updates in the order in which same-cycle assignments win. */
module CheckpointRat {
  import opened RatModel
  import opened Wrappers
  import opened CratSpec
  import opened Cyclic

  datatype Regs = Regs(
    tagsHead: nat, tagsTail: nat,
    ckHead: nat, ckTail: nat, ckFull: bool,
    active: seq<bool>, ckptd: seq<bool>,
    storage: seq<Rat>, tagMap: seq<nat>,
    rbJust: bool, target: nat,
    lock: bool, unlock: nat,
    finished: bool,
    lastIssued: nat, nextIncr: bool,
    s1: nat, s2: nat,            // tag entering, tag leaving the restore pipeline
    mapResp: Option<nat>,        // slot read for the rolled back tag
    storeResp: Option<Rat>,      // snapshot read for the rolled back tag
    pipe: Option<nat>,           // slot whose snapshot is written next cycle
    frat: Rat)

  datatype TagIn = TagIn(rbTag: nat, rbV: bool, ckpt: bool)
  datatype RenameIn = RenameIn(tag: nat, ckpt: bool, ops: seq<Op>)
  datatype Inputs = Inputs(rename: Option<RenameIn>, tag: Option<TagIn>, free: bool,
                           rollback: Option<nat>, restore: Option<Rat>)

  function InitRegs(p: Params): Regs
    requires p.Ok()
  {
    Regs(1 % p.tags, 0, 0, 0, false, seq(p.tags, i => i == 0), seq(p.tags, i => false),
         seq(p.slots, i => []), seq(p.tags, i => 0), false, 0, false, 0, true, 0, false, 0, 0,
         None, None, None, seq(p.logical, i => 0))
  }

  // ---- register updates, oldest effect first ----

  function PutBit(m: seq<bool>, i: nat, b: bool): (r: seq<bool>)
    ensures |r| == |m|
  {
    if i < |m| then m[i := b] else m
  }

  /** A checkpoint allocated in the previous cycle stores the table as it is now. */
  function PipeWrite(c: Regs): Regs {
    c.(storage := if c.pipe.Some? && c.pipe.value < |c.storage| then c.storage[c.pipe.value := c.frat] else c.storage,
       pipe := None)
  }

  /** After a trap the table is overwritten by the retired one. */
  function RestoreTable(c: Regs, r: Option<Rat>): Regs {
    c.(frat := if r.Some? then r.value else c.frat)
  }

  predicate TagValid(c: Regs, tag: nat) {
    !c.lock || tag == c.unlock
  }

  predicate RenameRuns(c: Regs, r: Option<RenameIn>) {
    r.Some? && TagValid(c, r.value.tag)
  }

  predicate AllocatesSlot(c: Regs, r: Option<RenameIn>) {
    RenameRuns(c, r) && r.value.ckpt
  }

  /** Renaming a group that may write the table, and reserving a slot after a checkpointing one. */
  function DoRename(p: Params, c: Regs, r: Option<RenameIn>): Regs {
    var ok, ck := RenameRuns(c, r), AllocatesSlot(c, r);
    c.(frat := if ok then WriteAll(c.frat, r.value.ops) else c.frat,
       lock := c.lock && !ok,
       ckHead := if ck then Next(c.ckHead, p.slots) else c.ckHead,
       ckFull := if ck then c.ckTail == Next(c.ckHead, p.slots) else c.ckFull,
       ckptd := if ck then PutBit(c.ckptd, r.value.tag, true) else c.ckptd,
       tagMap := if ck && r.value.tag < |c.tagMap| then c.tagMap[r.value.tag := c.ckHead] else c.tagMap,
       pipe := if ck then Some(c.ckHead) else c.pipe)
  }

  predicate TargetValid(c: Regs, t: TagIn) {
    t.rbV && t.rbTag == c.target
  }

  predicate FratReady(c: Regs, t: TagIn) {
    t.rbV && t.rbTag == c.s2
  }

  predicate Stalls(c: Regs, t: TagIn) {
    c.rbJust && TargetValid(c, t) && !FratReady(c, t)
  }

  predicate Resumes(c: Regs, t: TagIn) {
    c.rbJust && TargetValid(c, t) && FratReady(c, t)
  }

  predicate AllocatesTag(c: Regs, t: TagIn) {
    c.nextIncr || Resumes(c, t)
  }

  predicate TagLive(c: Regs, t: TagIn) {
    !c.rbJust || Resumes(c, t)
  }

  function TagResult(c: Regs, t: TagIn): Tagged {
    Tagged(if AllocatesTag(c, t) then c.tagsHead else c.lastIssued, AllocatesTag(c, t), t.ckpt && TagLive(c, t))
  }

  function DoTag(p: Params, c: Regs, t: Option<TagIn>): Regs {
    var incr := t.Some? && AllocatesTag(c, t.value);
    var back := t.Some? && Resumes(c, t.value);
    c.(tagsHead := if incr then Next(c.tagsHead, p.tags) else c.tagsHead,
       active := if incr && TagLive(c, t.value) then PutBit(c.active, c.tagsHead, true) else c.active,
       lastIssued := if t.Some? then TagResult(c, t.value).tag else c.lastIssued,
       nextIncr := if t.Some? then t.value.ckpt && TagLive(c, t.value) else c.nextIncr,
       rbJust := c.rbJust && !back,
       unlock := if back then TagResult(c, t.value).tag else c.unlock)
  }

  /** Last restore stage: the snapshot reaches the table. */
  function Stage3(c: Regs): Regs {
    c.(frat := if c.storeResp.Some? then c.storeResp.value else c.frat,
       finished := if c.storeResp.Some? then c.target == c.s2 else c.finished,
       storeResp := None)
  }

  /** Middle restore stage: the slot of the target tag is known; it and all younger slots are
      given back and its contents are requested. */
  function Stage2(c: Regs): Regs {
    var on := c.mapResp.Some?;
    c.(ckHead := if on then c.mapResp.value else c.ckHead,
       ckFull := c.ckFull && !on,
       ckptd := if on then PutBit(c.ckptd, c.target, false) else c.ckptd,
       s2 := if on then c.s1 else c.s2,
       storeResp := if on && c.mapResp.value < |c.storage| then Some(c.storage[c.mapResp.value]) else c.storeResp,
       mapResp := None)
  }

  /** The tail tag is active and owns a checkpoint. */
  predicate TailOwnsSlot(c: Regs) {
    c.tagsTail < |c.active| && c.tagsTail < |c.ckptd| && c.active[c.tagsTail] && c.ckptd[c.tagsTail]
  }

  function DoFree(p: Params, c: Regs, free: bool): Regs {
    var owns := free && TailOwnsSlot(c);
    c.(active := if free then PutBit(c.active, c.tagsTail, false) else c.active,
       ckptd := if free then PutBit(c.ckptd, c.tagsTail, false) else c.ckptd,
       tagsTail := if free then Next(c.tagsTail, p.tags) else c.tagsTail,
       ckTail := if owns then Next(c.ckTail, p.slots) else c.ckTail,
       ckFull := c.ckFull && !owns)
  }

  /** Clears the cyclic range of tags younger than `t`. */
  function Invalidate(m: seq<bool>, t: nat, tail: nat): (r: seq<bool>)
    ensures |r| == |m|
  {
    var lo := Next(t, |m|);
    var hi := if tail == 0 then |m| - 1 else tail - 1;
    if lo == tail || m == [] then m
    else seq(|m|, i requires 0 <= i < |m| => m[i] && !InCyclic(i, lo, hi))
  }

  function DoRollback(p: Params, c: Regs, t: Option<nat>): Regs {
    var on := t.Some?;
    c.(active := if on then Invalidate(c.active, t.value, c.tagsTail) else c.active,
       mapResp := if on && t.value < |c.tagMap| then Some(c.tagMap[t.value]) else c.mapResp,
       s1 := if on then t.value else c.s1,
       target := if on then t.value else c.target,
       finished := c.finished && !on,
       rbJust := c.rbJust || on,
       lock := c.lock || on,
       unlock := if on then p.tags else c.unlock)
  }

  /** A clock cycle. */
  function Cycle(p: Params, c: Regs, i: Inputs): Regs {
    DoRollback(p, DoFree(p, FrontRegs(p, c, i), i.free), i.rollback)
  }

  /** The part before freeing and rollback. */
  function FrontRegs(p: Params, c: Regs, i: Inputs): Regs {
    Stage2(Stage3(DoTag(p, DoRename(p, RestoreTable(PipeWrite(c), i.restore), i.rename), i.tag)))
  }

  // ---- representation ----

  ghost predicate OnRing(a: Spec, x: nat) {
    exists i :: 0 <= i < |a.ring| && a.ring[i].tag == x
  }

  function Slot(p: Params, a: Spec, i: nat): nat
    requires p.Ok()
  {
    (a.ringBase + i) % p.slots
  }

  ghost predicate RepTags(p: Params, c: Regs, a: Spec)
    requires p.Ok()
  {
    && |c.active| == |c.ckptd| == |c.tagMap| == p.tags
    && c.tagsHead == a.head % p.tags && c.tagsTail == a.tail % p.tags
    && c.lastIssued == a.lastIssued % p.tags && c.nextIncr == a.nextIncr
    && c.rbJust == a.rbActive && c.target == a.target % p.tags
    && c.lock == a.lock
    && (a.lock ==> c.unlock == if a.unlock.Some? then a.unlock.value % p.tags else p.tags)
    && forall x :: a.tail <= x < a.tail + p.tags ==> (c.active[x % p.tags] <==> x in a.active)
  }

  ghost predicate RepBits(p: Params, c: Regs, a: Spec)
    requires p.Ok() && |c.ckptd| == p.tags
  {
    && (forall x :: x in a.active ==>
          (c.ckptd[x % p.tags] <==> OnRing(a, x) || (c.mapResp.Some? && x == a.target)))
    && (forall x :: a.head <= x < a.tail + p.tags ==> !c.ckptd[x % p.tags])
    && (c.mapResp.Some? ==> a.rbActive && a.target in a.active)
  }

  /** The checkpoints of active tags occupy consecutive slots from the tail to the head. */
  ghost predicate RepRing(p: Params, c: Regs, a: Spec)
    requires p.Ok() && |c.tagMap| == p.tags
  {
    && |a.ring| <= p.slots && c.ckTail == Slot(p, a, 0)
    && (forall i :: 0 <= i < |a.ring| ==> c.tagMap[a.ring[i].tag % p.tags] == Slot(p, a, i))
    && (match c.mapResp
        case Some(v) => v == Slot(p, a, |a.ring|) && |a.ring| < p.slots
        case None => c.ckHead == Slot(p, a, |a.ring|) && (c.ckFull <==> |a.ring| == p.slots))
  }

  /** Slot contents: the snapshot of every live checkpoint is stored, or is the current table
      and about to be stored. */
  ghost predicate RepStore(p: Params, c: Regs, a: Spec)
    requires p.Ok()
  {
    && |c.storage| == p.slots && (c.pipe.Some? ==> c.pipe.value < p.slots)
    && (forall i :: 0 <= i < |a.ring| ==>
          if c.pipe == Some(Slot(p, a, i)) then i == |a.ring| - 1 && a.ring[i].rat == c.frat
          else c.storage[Slot(p, a, i)] == a.ring[i].rat)
    && (match c.mapResp
        case Some(v) => v < p.slots && c.storage[v] == a.frat && c.pipe != Some(v)
        case None => (if c.storeResp.Some? then c.storeResp.value else c.frat) == a.frat)
  }

  ghost predicate RepPipe(p: Params, c: Regs, a: Spec)
    requires p.Ok()
  {
    && (c.mapResp.Some? ==> c.s1 == a.target % p.tags)
    && (c.mapResp.None? && (a.rbActive || c.storeResp.Some?) ==> c.s2 == a.target % p.tags)
    && (c.mapResp.Some? && c.storeResp.Some? ==> c.s2 != a.target % p.tags)
    && (c.finished <==> c.mapResp.None? && c.storeResp.None?)
  }

  ghost predicate Rep(p: Params, c: Regs, a: Spec)
    requires p.Ok()
  {
    RepTags(p, c, a) && RepBits(p, c, a) && RepRing(p, c, a) && RepStore(p, c, a) && RepPipe(p, c, a)
  }

  /** Between cycles a pending restore implies a pending rollback. */
  ghost predicate Boundary(c: Regs, a: Spec) {
    c.storeResp.Some? ==> a.rbActive
  }
}
