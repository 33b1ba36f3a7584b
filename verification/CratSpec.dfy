/** The checkpoint RAT as a specification: unbounded tags, an ordered list of live
    checkpoints and an instantaneous rollback. The registers of the hardware table refine
    this one (module CheckpointRat). */
module CratSpec {
  import opened Wrappers
  import opened RatModel

  /** tags = 2**tag_bits, slots = checkpoint_count. */
  datatype Params = Params(tags: nat, slots: nat, logical: nat, phys: nat) {
    predicate Ok() { 1 < slots < tags && 0 < logical && 0 < phys }
  }

  datatype Snap = Snap(tag: nat, rat: Rat)

  datatype Spec = Spec(
    tail: nat,             // oldest allocated tag
    head: nat,             // next tag to allocate
    active: set<nat>,      // tags on the valid speculation path
    lastIssued: nat,
    nextIncr: bool,        // the last tagged group ended with a checkpointing instruction
    rbActive: bool,        // a rollback waits for its first newly fetched group
    target: nat,           // tag of the last rollback
    lock: bool,            // renames may not write the table ...
    unlock: Option<nat>,   // ... except by the group carrying this tag
    ring: seq<Snap>,       // live checkpoints, oldest first
    ringBase: nat,         // number of checkpoints ever freed from the old end
    frat: Rat)

  function Init(p: Params): Spec {
    Spec(0, 1, {0}, 0, false, false, 0, false, None, [], 0, seq(p.logical, i => 0))
  }

  /** Contents of the buffer between the tag and the rename stage. */
  datatype Tagged = Tagged(tag: nat, incr: bool, ckpt: bool)

  predicate MayWrite(s: Spec, tag: nat) {
    !s.lock || s.unlock == Some(tag)
  }

  // ---- tag stage ----

  predicate Matches(s: Spec, rb: Option<nat>) {
    s.rbActive && rb == Some(s.target)
  }

  predicate TagAllocates(s: Spec, rb: Option<nat>) {
    s.nextIncr || Matches(s, rb)
  }

  predicate TagReady(p: Params, s: Spec, rb: Option<nat>) {
    TagAllocates(s, rb) ==> s.head - s.tail < p.tags
  }

  function TagOut(s: Spec, rb: Option<nat>, ckpt: bool): Tagged {
    var incr := TagAllocates(s, rb);
    Tagged(if incr then s.head else s.lastIssued, incr, ckpt && (!s.rbActive || Matches(s, rb)))
  }

  function TagStep(s: Spec, rb: Option<nat>, ckpt: bool): Spec {
    var o := TagOut(s, rb, ckpt);
    var live := !s.rbActive || Matches(s, rb);
    s.(head := if o.incr then s.head + 1 else s.head,
       active := if o.incr && live then s.active + {s.head} else s.active,
       lastIssued := o.tag,
       nextIncr := o.ckpt,
       rbActive := s.rbActive && !live,
       unlock := if Matches(s, rb) then Some(o.tag) else s.unlock)
  }

  // ---- rename stage ----

  function WriteAll(r: Rat, ops: seq<Op>): (w: Rat)
    ensures |w| == |r|
    decreases ops
  {
    if ops == [] then r else WriteAll(Write(r, ops[0]), ops[1..])
  }

  predicate MakesCheckpoint(s: Spec, g: Tagged) {
    g.ckpt && MayWrite(s, g.tag)
  }

  predicate RenameReady(p: Params, s: Spec, g: Tagged) {
    MakesCheckpoint(s, g) ==> |s.ring| < p.slots
  }

  function RenameStep(s: Spec, g: Tagged, ops: seq<Op>): Spec {
    var f := if MayWrite(s, g.tag) then WriteAll(s.frat, ops) else s.frat;
    s.(frat := f,
       lock := s.lock && !MayWrite(s, g.tag),
       ring := if MakesCheckpoint(s, g) then s.ring + [Snap(g.tag, f)] else s.ring)
  }

  // ---- rollback, in-order freeing, restore after a trap ----

  function RollbackStep(s: Spec, j: nat): Spec
    requires j < |s.ring|
  {
    var t := s.ring[j].tag;
    s.(active := Upto(s.active, t), rbActive := true, target := t, lock := true, unlock := None,
       ring := s.ring[..j], frat := s.ring[j].rat)
  }

  predicate FreesCheckpoint(s: Spec) {
    s.ring != [] && s.ring[0].tag == s.tail
  }

  function FreeStep(s: Spec): Spec {
    s.(tail := s.tail + 1, active := s.active - {s.tail},
       ring := if FreesCheckpoint(s) then s.ring[1..] else s.ring,
       ringBase := if FreesCheckpoint(s) then s.ringBase + 1 else s.ringBase)
  }

  function RestoreStep(s: Spec, r: Rat): Spec {
    s.(frat := r)
  }

  // ---- invariant ----

  ghost predicate Window(p: Params, s: Spec) {
    && s.tail < s.head <= s.tail + p.tags
    && s.head == s.lastIssued + 1
    && forall x :: x in s.active ==> s.tail <= x < s.head
  }

  /** While a rollback is pending only tags up to its target live and the table is locked;
      otherwise the newest tag lives and a lock is about to be released by the next group. */
  ghost predicate Phases(s: Spec, buf: Option<Tagged>) {
    && (s.rbActive ==>
          && s.lock && s.unlock.None?
          && (s.target < s.lastIssued || (s.target == s.lastIssued && s.nextIncr))
          && forall x :: x in s.active ==> x <= s.target)
    && (!s.rbActive ==>
          && s.lastIssued in s.active
          && (s.lock ==> buf.Some? && s.unlock == Some(buf.value.tag)))
    && (buf.Some? ==>
          && buf.value.tag == s.lastIssued
          && (MayWrite(s, buf.value.tag) <==> buf.value.tag in s.active)
          && (buf.value.ckpt ==> s.nextIncr))
  }

  ghost predicate RingOk(p: Params, s: Spec, buf: Option<Tagged>) {
    && |s.ring| <= p.slots
    && (forall i :: 0 <= i < |s.ring| ==>
          && s.ring[i].tag in s.active && |s.ring[i].rat| == p.logical
          && (s.ring[i].tag < s.lastIssued || (s.ring[i].tag == s.lastIssued && s.nextIncr && buf.None?))
          && (s.rbActive ==> s.ring[i].tag < s.target))
    && (forall i, j :: 0 <= i < j < |s.ring| ==> s.ring[i].tag < s.ring[j].tag)
  }

  ghost predicate SpecInv(p: Params, s: Spec, buf: Option<Tagged>) {
    && Window(p, s) && Phases(s, buf) && RingOk(p, s, buf) && |s.frat| == p.logical
  }

  lemma InitInv(p: Params)
    requires p.Ok()
    ensures SpecInv(p, Init(p), None)
  {
  }

  lemma TagInv(p: Params, s: Spec, rb: Option<nat>, ckpt: bool)
    requires p.Ok() && SpecInv(p, s, None) && TagReady(p, s, rb)
    ensures SpecInv(p, TagStep(s, rb, ckpt), Some(TagOut(s, rb, ckpt)))
  {
  }

  lemma RenameInv(p: Params, s: Spec, g: Tagged, ops: seq<Op>)
    requires p.Ok() && SpecInv(p, s, Some(g)) && RenameReady(p, s, g)
    ensures SpecInv(p, RenameStep(s, g, ops), None)
  {
  }

  /** A rollback leaves exactly the allocated tags up to its target active. */
  lemma RollbackInv(p: Params, s: Spec, buf: Option<Tagged>, j: nat)
    requires p.Ok() && SpecInv(p, s, buf) && j < |s.ring|
    ensures SpecInv(p, RollbackStep(s, j), buf)
  {
  }

  lemma FreeInv(p: Params, s: Spec, buf: Option<Tagged>)
    requires p.Ok() && SpecInv(p, s, buf) && s.tail + 1 < s.head
    ensures SpecInv(p, FreeStep(s), buf)
    ensures forall i :: 0 <= i < |FreeStep(s).ring| ==> FreeStep(s).ring[i].tag > s.tail
  {
    if s.ring != [] && s.ring[0].tag != s.tail {
      assert forall i :: 0 < i < |s.ring| ==> s.ring[0].tag < s.ring[i].tag;
    }
  }

  lemma RestoreInv(p: Params, s: Spec, buf: Option<Tagged>, r: Rat)
    requires SpecInv(p, s, buf) && |r| == p.logical
    ensures SpecInv(p, RestoreStep(s, r), buf)
  {
  }
}
