/** The checkpoint RAT as clocked hardware: within a cycle every method reads the registers as
    they were, and the last assignment to a register wins. The class below is that form; it is
    proved to perform the step-by-step cycle of module CheckpointRat. */
module CratClock {
  import opened RatModel
  import opened Wrappers
  import opened CratSpec
  import opened Cyclic
  import opened CheckpointRat
  import opened CratRefinement

  /** What the rest of the core guarantees about the methods called in one cycle. `rb` and `j`
      name the carried rollback tag and the rolled back checkpoint. */
  ghost predicate Legal(p: Params, c: Regs, a: Spec, buf: Option<Tagged>, i: Inputs, rb: Option<nat>, j: nat)
    requires p.Ok()
  {
    && Rep(p, c, a) && SpecInv(p, a, buf) && Boundary(c, a)
    && (i.rename.Some? ==>
          && buf.Some? && i.rename.value.tag == buf.value.tag % p.tags && i.rename.value.ckpt == buf.value.ckpt
          && (i.rename.value.ckpt && TagValid(c, i.rename.value.tag) ==> !c.ckFull))
    && (i.tag.Some? ==>
          && (buf.None? || i.rename.Some?) && i.tag.value == TagInOf(p, rb, i.tag.value.ckpt) && Carried(p, a, rb)
          && !Stalls(c, i.tag.value) && (AllocatesTag(c, i.tag.value) ==> c.tagsHead != c.tagsTail))
    && (i.free ==> a.tail + 1 < a.head)
    && (i.rollback.Some? ==>
          && j < |a.ring| && i.rollback.value == a.ring[j].tag % p.tags && (i.free ==> a.ring[j].tag != a.tail))
    && (i.restore.Some? ==> c.finished && i.rename.None? && i.rollback.None?)
  }

  /** frat_get: the stored entry overridden by each earlier active rename of the group. */
  function FratGet(frat: Rat, earlier: seq<Op>, rl: nat): nat
    decreases earlier
  {
    if earlier == [] then Look(frat, rl)
    else
      var o := earlier[|earlier| - 1];
      if o.rl != 0 && o.rl == rl then o.rp else FratGet(frat, earlier[..|earlier| - 1], rl)
  }

  lemma {:induction false} WriteAllLast(r: Rat, ops: seq<Op>)
    requires ops != []
    ensures WriteAll(r, ops) == Write(WriteAll(r, ops[..|ops| - 1]), ops[|ops| - 1])
    decreases ops
  {
    if |ops| > 1 {
      WriteAllLast(Write(r, ops[0]), ops[1..]);
      assert ops[..|ops| - 1][1..] == ops[1..][..|ops| - 2];
    } else {
      assert ops[1..] == [] && ops[..0] == [];
    }
  }

  /** The bypass chain reads the table as the earlier instructions of the group leave it. */
  lemma {:induction false} BypassSeesGroup(frat: Rat, earlier: seq<Op>, rl: nat)
    requires rl < |frat|
    ensures FratGet(frat, earlier, rl) == WriteAll(frat, earlier)[rl]
    decreases earlier
  {
    if earlier != [] {
      BypassSeesGroup(frat, earlier[..|earlier| - 1], rl);
      WriteAllLast(frat, earlier);
    }
  }

  // ---- what each register holds after the step-by-step cycle, in terms of old values ----

  predicate NewTag(c: Regs, i: Inputs) {
    i.tag.Some? && AllocatesTag(c, i.tag.value)
  }

  predicate TagResumes(c: Regs, i: Inputs) {
    i.tag.Some? && Resumes(c, i.tag.value)
  }

  /** The tail owns a slot, not counting a checkpoint dropped by a restore in this cycle. */
  predicate FreesSlot(c: Regs, i: Inputs) {
    i.free && TailOwnsSlot(c) && !(c.mapResp.Some? && c.target == c.tagsTail)
  }

  function OutTag(c: Regs, i: Inputs): nat {
    if NewTag(c, i) then c.tagsHead else c.lastIssued
  }

  lemma CycleTagging(p: Params, c: Regs, i: Inputs)
    ensures var d := Cycle(p, c, i);
            && d.tagsHead == (if NewTag(c, i) then Next(c.tagsHead, p.tags) else c.tagsHead)
            && d.tagsTail == (if i.free then Next(c.tagsTail, p.tags) else c.tagsTail)
            && d.lastIssued == (if i.tag.Some? then OutTag(c, i) else c.lastIssued)
            && d.nextIncr == (if i.tag.Some? then i.tag.value.ckpt && TagLive(c, i.tag.value) else c.nextIncr)
  {
    hide PutBit; hide Next; hide WriteAll; hide Invalidate;
  }

  lemma CycleControl(p: Params, c: Regs, i: Inputs)
    ensures var d := Cycle(p, c, i);
            && d.rbJust == ((c.rbJust && !TagResumes(c, i)) || i.rollback.Some?)
            && d.target == (if i.rollback.Some? then i.rollback.value else c.target)
            && d.lock == ((c.lock && !RenameRuns(c, i.rename)) || i.rollback.Some?)
            && d.unlock == (if i.rollback.Some? then p.tags else if TagResumes(c, i) then OutTag(c, i) else c.unlock)
            && d.s1 == (if i.rollback.Some? then i.rollback.value else c.s1)
            && d.s2 == (if c.mapResp.Some? then c.s1 else c.s2)
            && d.finished == ((if c.storeResp.Some? then c.target == c.s2 else c.finished) && i.rollback.None?)
  {
    hide PutBit; hide Next; hide WriteAll; hide Invalidate;
  }

  lemma CycleData(p: Params, c: Regs, i: Inputs)
    ensures var d := Cycle(p, c, i);
            var f := if i.restore.Some? then i.restore.value else c.frat;
            && d.frat == (if c.storeResp.Some? then c.storeResp.value
                          else if RenameRuns(c, i.rename) then WriteAll(f, i.rename.value.ops) else f)
            && d.storage == PipeWrite(c).storage
            && d.tagMap == DoRename(p, c, i.rename).tagMap
            && d.pipe == (if AllocatesSlot(c, i.rename) then Some(c.ckHead) else None)
            && d.ckHead == (if c.mapResp.Some? then c.mapResp.value
                            else if AllocatesSlot(c, i.rename) then Next(c.ckHead, p.slots) else c.ckHead)
  {
  }

  lemma CycleBits(p: Params, c: Regs, i: Inputs)
    ensures Cycle(p, c, i).ckptd
            == (var a := if AllocatesSlot(c, i.rename) then PutBit(c.ckptd, i.rename.value.tag, true) else c.ckptd;
                var b := if c.mapResp.Some? then PutBit(a, c.target, false) else a;
                if i.free then PutBit(b, c.tagsTail, false) else b)
  {
  }

  /** Numbers of distinct tags stay distinct: what is renamed, freed and rolled back. */
  lemma LegalNumbers(p: Params, c: Regs, a: Spec, buf: Option<Tagged>, i: Inputs, rb: Option<nat>, j: nat)
    requires p.Ok() && Legal(p, c, a, buf, i, rb, j)
    ensures c.tagsTail < p.tags && |c.active| == |c.ckptd| == |c.tagMap| == p.tags && |c.storage| == p.slots
    ensures i.free && i.rename.Some? ==> i.rename.value.tag != c.tagsTail
    ensures i.free && i.rollback.Some? ==> i.rollback.value != c.tagsTail
    ensures i.rename.Some? && i.rollback.Some? ==> i.rename.value.tag != i.rollback.value
    ensures i.rollback.Some? ==> i.rollback.value < p.tags
    ensures c.mapResp.Some? ==> c.mapResp.value < p.slots && c.pipe != c.mapResp
    ensures c.mapResp.Some? ==> !RenameRuns(c, i.rename)
    ensures NewTag(c, i) ==> c.tagsHead != c.tagsTail
  {
    hide RepBits; hide RepRing; hide RepPipe;
    if i.free && i.rename.Some? { TagsDiffer(p, buf.value.tag, a.tail, a.tail); }
    if i.rollback.Some? {
      TagsDiffer(p, a.ring[j].tag, a.tail, a.tail);
      if i.rename.Some? { TagsDiffer(p, a.ring[j].tag, buf.value.tag, a.tail); }
    }
    if c.mapResp.Some? {
      MapRespMeansRollback(p, c, a);
      if i.rename.Some? { TagValidIsMayWrite(p, c, a, buf.value); }
    }
  }

  lemma CycleResponses(p: Params, c: Regs, a: Spec, buf: Option<Tagged>, i: Inputs, rb: Option<nat>, j: nat)
    requires p.Ok() && Legal(p, c, a, buf, i, rb, j)
    ensures var d := Cycle(p, c, i);
            && d.mapResp == (if i.rollback.Some? && i.rollback.value < |c.tagMap|
                             then Some(c.tagMap[i.rollback.value]) else None)
            && d.storeResp == (if c.mapResp.Some? && c.mapResp.value < |c.storage|
                               then Some(c.storage[c.mapResp.value]) else None)
  {
    LegalNumbers(p, c, a, buf, i, rb, j);
    hide Legal;
  }

  /** Freeing moves the tail past one position that freeing clears anyway. */
  lemma InvalidateMoves(m: seq<bool>, t: nat, tail: nat)
    requires t < |m| && tail < |m| && t != tail && |m| > 1
    ensures Invalidate(PutBit(m, tail, false), t, Next(tail, |m|)) == PutBit(Invalidate(m, t, tail), tail, false)
  {
    var x := Invalidate(PutBit(m, tail, false), t, Next(tail, |m|));
    var y := PutBit(Invalidate(m, t, tail), tail, false);
    forall k | 0 <= k < |m| ensures x[k] == y[k] {
      InvalidBit(PutBit(m, tail, false), t, Next(tail, |m|), k);
      InvalidBit(m, t, tail, k);
    }
  }

  lemma InvalidBit(m: seq<bool>, t: nat, tail: nat, k: nat)
    requires k < |m|
    ensures Invalidate(m, t, tail)[k]
            == (m[k] && (Next(t, |m|) == tail || !InCyclic(k, Next(t, |m|), if tail == 0 then |m| - 1 else tail - 1)))
  {
  }

  lemma FrontActive(p: Params, c: Regs, i: Inputs)
    ensures FrontRegs(p, c, i).active == DoTag(p, c, i.tag).active && FrontRegs(p, c, i).tagsTail == c.tagsTail
  {
    hide PutBit; hide Next; hide WriteAll;
  }

  lemma CycleActive(p: Params, c: Regs, a: Spec, buf: Option<Tagged>, i: Inputs, rb: Option<nat>, j: nat)
    requires p.Ok() && Legal(p, c, a, buf, i, rb, j)
    ensures Cycle(p, c, i).active
            == (var m := DoTag(p, c, i.tag).active;
                var n := if i.rollback.Some? then Invalidate(m, i.rollback.value, c.tagsTail) else m;
                if i.free then PutBit(n, c.tagsTail, false) else n)
  {
    LegalNumbers(p, c, a, buf, i, rb, j);
    FrontActive(p, c, i);
    assert |DoTag(p, c, i.tag).active| == |c.active|;
    hide Legal; hide Invalidate; hide PutBit; hide Next; hide FrontRegs; hide DoTag;
    if i.free && i.rollback.Some? {
      InvalidateMoves(DoTag(p, c, i.tag).active, i.rollback.value, c.tagsTail);
    }
  }

  /** Tagging and renaming do not touch the tail's bits; the restore stage may clear one. */
  lemma TailAfterFront(p: Params, c: Regs, i: Inputs)
    requires |c.active| == |c.ckptd|
    requires i.free && i.rename.Some? ==> i.rename.value.tag != c.tagsTail
    requires NewTag(c, i) ==> c.tagsHead != c.tagsTail
    ensures i.free && TailOwnsSlot(FrontRegs(p, c, i)) <==> FreesSlot(c, i)
  {
    var f := FrontRegs(p, c, i);
    assert f.tagsTail == c.tagsTail;
    assert f.active == DoTag(p, c, i.tag).active;
  }

  lemma CycleOwns(p: Params, c: Regs, a: Spec, buf: Option<Tagged>, i: Inputs, rb: Option<nat>, j: nat)
    requires p.Ok() && Legal(p, c, a, buf, i, rb, j)
    ensures Cycle(p, c, i).ckTail == (if FreesSlot(c, i) then Next(c.ckTail, p.slots) else c.ckTail)
    ensures Cycle(p, c, i).ckFull == ((if c.mapResp.Some? then false
                                       else if AllocatesSlot(c, i.rename) then c.ckTail == Next(c.ckHead, p.slots)
                                       else c.ckFull) && !FreesSlot(c, i))
  {
    LegalNumbers(p, c, a, buf, i, rb, j);
    hide Legal; hide FreesSlot;
    TailAfterFront(p, c, i);
    FrontRing(p, c, i);
    hide FrontRegs; hide TailOwnsSlot; hide PutBit; hide Next; hide Invalidate;
  }

  lemma FrontRing(p: Params, c: Regs, i: Inputs)
    ensures FrontRegs(p, c, i).ckTail == c.ckTail
    ensures FrontRegs(p, c, i).ckFull == (if c.mapResp.Some? then false
                                          else if AllocatesSlot(c, i.rename) then c.ckTail == Next(c.ckHead, p.slots)
                                          else c.ckFull)
  {
    hide PutBit; hide Next; hide WriteAll;
  }

  /** Allocating and freeing a slot in one cycle leaves the ring neither empty nor full. */
  lemma AllocateAndFree(p: Params, c: Regs, a: Spec, buf: Option<Tagged>, i: Inputs, rb: Option<nat>, j: nat)
    requires p.Ok() && Legal(p, c, a, buf, i, rb, j) && AllocatesSlot(c, i.rename) && FreesSlot(c, i)
    ensures Next(c.ckTail, p.slots) != Next(c.ckHead, p.slots)
  {
    hide RepStore; hide RepPipe;
    LegalNumbers(p, c, a, buf, i, rb, j);
    FreesMeans(p, c, a, buf);
    ModNext(a.ringBase, p.slots);
    ModNext(a.ringBase + |a.ring|, p.slots);
    ModInjective(a.ringBase + 1, a.ringBase + |a.ring| + 1, p.slots);
  }

  class Crat {
    const p: Params
    var tagsHead: nat
    var tagsTail: nat
    var ckHead: nat
    var ckTail: nat
    var ckFull: bool
    var active: seq<bool>
    var ckptd: seq<bool>
    var storage: seq<Rat>
    var tagMap: seq<nat>
    var rbJust: bool
    var target: nat
    var lock: bool
    var unlock: nat
    var finished: bool
    var lastIssued: nat
    var nextIncr: bool
    var s1: nat
    var s2: nat
    var mapResp: Option<nat>
    var storeResp: Option<Rat>
    var pipe: Option<nat>
    var frat: Rat

    ghost function State(): Regs
      reads this
    {
      Regs(tagsHead, tagsTail, ckHead, ckTail, ckFull, active, ckptd, storage, tagMap, rbJust, target, lock,
           unlock, finished, lastIssued, nextIncr, s1, s2, mapResp, storeResp, pipe, frat)
    }

    constructor (params: Params)
      requires params.Ok()
      ensures p == params && State() == InitRegs(p)
      ensures Rep(p, State(), Init(p)) && Boundary(State(), Init(p))
    {
      p := params;
      tagsHead, tagsTail, ckHead, ckTail, ckFull := 1 % params.tags, 0, 0, 0, false;
      active, ckptd := seq(params.tags, i => i == 0), seq(params.tags, i => false);
      storage, tagMap := seq(params.slots, i => []), seq(params.tags, i => 0);
      rbJust, target, lock, unlock, finished := false, 0, false, 0, true;
      lastIssued, nextIncr, s1, s2 := 0, false, 0, 0;
      mapResp, storeResp, pipe, frat := None, None, None, seq(params.logical, i => 0);
      new;
      InitRep(params);
    }

    method LatchControl(n: Regs)
      modifies `tagsHead, `tagsTail, `lastIssued, `nextIncr, `rbJust, `target, `lock, `unlock, `finished, `s1, `s2
      ensures tagsHead == n.tagsHead && tagsTail == n.tagsTail && lastIssued == n.lastIssued && nextIncr == n.nextIncr
      ensures rbJust == n.rbJust && target == n.target && lock == n.lock && unlock == n.unlock
      ensures finished == n.finished && s1 == n.s1 && s2 == n.s2
    {
      tagsHead, tagsTail, lastIssued, nextIncr := n.tagsHead, n.tagsTail, n.lastIssued, n.nextIncr;
      rbJust, target, lock, unlock := n.rbJust, n.target, n.lock, n.unlock;
      finished, s1, s2 := n.finished, n.s1, n.s2;
    }

    method LatchData(n: Regs)
      modifies `ckHead, `ckTail, `ckFull, `pipe, `active, `ckptd, `storage, `tagMap, `mapResp, `storeResp, `frat
      ensures ckHead == n.ckHead && ckTail == n.ckTail && ckFull == n.ckFull && pipe == n.pipe
      ensures active == n.active && ckptd == n.ckptd && storage == n.storage && tagMap == n.tagMap
      ensures mapResp == n.mapResp && storeResp == n.storeResp && frat == n.frat
    {
      ckHead, ckTail, ckFull, pipe := n.ckHead, n.ckTail, n.ckFull, n.pipe;
      active, ckptd, storage, tagMap := n.active, n.ckptd, n.storage, n.tagMap;
      mapResp, storeResp, frat := n.mapResp, n.storeResp, n.frat;
    }

    /** The clock edge: every register takes its next value. */
    method Latch(n: Regs)
      modifies this
      ensures State() == n
    {
      LatchControl(n);
      LatchData(n);
    }

    /** One cycle: next values are computed from the old registers, then latched. */
    method Clock(i: Inputs, ghost a: Spec, ghost buf: Option<Tagged>, ghost rb: Option<nat>, ghost j: nat)
      requires p.Ok() && Legal(p, State(), a, buf, i, rb, j)
      modifies this
      ensures State() == Cycle(p, old(State()), i)
    {
      var c := Regs(tagsHead, tagsTail, ckHead, ckTail, ckFull, active, ckptd, storage, tagMap, rbJust, target, lock,
                    unlock, finished, lastIssued, nextIncr, s1, s2, mapResp, storeResp, pipe, frat);
      hide Legal; hide Cycle;
      var n := NextTagging(p, c, i);
      n := NextControl(p, c, i, n);
      n := NextBits(p, c, i, n, a, buf, rb, j);
      n := NextRing(p, c, i, n, a, buf, rb, j);
      n := NextTable(p, c, i, n);
      n := NextMemories(p, c, i, n, a, buf, rb, j);
      Latch(n);
    }
  }

  /** Tag counters: a tag is allocated, the oldest one is freed. */
  method NextTagging(p: Params, c: Regs, i: Inputs) returns (n: Regs)
    ensures var d := Cycle(p, c, i);
            n == c.(tagsHead := d.tagsHead, tagsTail := d.tagsTail, lastIssued := d.lastIssued, nextIncr := d.nextIncr)
  {
    CycleTagging(p, c, i);
    hide Cycle; hide Next;
    n := c;
    if i.tag.Some? {
      var t := i.tag.value;
      var resumes := c.rbJust && t.rbV && t.rbTag == c.target && t.rbTag == c.s2;
      if c.nextIncr || resumes {
        n := n.(tagsHead := Next(c.tagsHead, p.tags), lastIssued := c.tagsHead);
      }
      n := n.(nextIncr := t.ckpt && (!c.rbJust || resumes));
    }
    if i.free {
      n := n.(tagsTail := Next(c.tagsTail, p.tags));
    }
  }

  /** Control registers. Later statements override earlier ones: rename, tag, rollback, the
      restore stages. */
  method NextControl(p: Params, c: Regs, i: Inputs, m: Regs) returns (n: Regs)
    ensures var d := Cycle(p, c, i);
            n == m.(rbJust := d.rbJust, target := d.target, lock := d.lock, unlock := d.unlock, s1 := d.s1,
                    s2 := d.s2, finished := d.finished)
  {
    CycleControl(p, c, i);
    hide Cycle;
    var rb, lock, unlock, fin := c.rbJust, c.lock, c.unlock, c.finished;
    if i.rename.Some? && (!c.lock || i.rename.value.tag == c.unlock) {
      lock := false;
    }
    if i.tag.Some? {
      var t := i.tag.value;
      if c.rbJust && t.rbV && t.rbTag == c.target && t.rbTag == c.s2 {
        rb, unlock := false, c.tagsHead;
      }
    }
    if i.rollback.Some? {
      rb, lock, unlock, fin := true, true, p.tags, false;
    }
    if c.storeResp.Some? {
      fin := c.target == c.s2 && i.rollback.None?;
    }
    n := m.(rbJust := rb, lock := lock, unlock := unlock, finished := fin,
            s1 := if i.rollback.Some? then i.rollback.value else c.s1,
            target := if i.rollback.Some? then i.rollback.value else c.target,
            s2 := if c.mapResp.Some? then c.s1 else c.s2);
  }

  /** Tag bit vectors: the set masks are applied first, then all reset masks. */
  method NextBits(p: Params, c: Regs, i: Inputs, m: Regs, ghost a: Spec, ghost buf: Option<Tagged>,
                  ghost rb: Option<nat>, ghost j: nat) returns (n: Regs)
    requires p.Ok() && Legal(p, c, a, buf, i, rb, j)
    ensures n == m.(active := Cycle(p, c, i).active, ckptd := Cycle(p, c, i).ckptd)
  {
    hide Legal; hide Cycle; hide Invalidate; hide PutBit;
    CycleBits(p, c, i);
    CycleActive(p, c, a, buf, i, rb, j);
    var act, ck := c.active, c.ckptd;
    if i.tag.Some? && AllocatesTag(c, i.tag.value) && TagLive(c, i.tag.value) {
      act := PutBit(act, c.tagsHead, true);
    }
    if AllocatesSlot(c, i.rename) {
      ck := PutBit(ck, i.rename.value.tag, true);
    }
    if i.rollback.Some? {
      act := Invalidate(act, i.rollback.value, c.tagsTail);
    }
    if c.mapResp.Some? {
      ck := PutBit(ck, c.target, false);
    }
    if i.free {
      act, ck := PutBit(act, c.tagsTail, false), PutBit(ck, c.tagsTail, false);
    }
    n := m.(active := act, ckptd := ck);
  }

  /** Ring pointers: allocation, then the restore stage, then freeing. The full flag of an
      allocation already accounts for a slot freed in the same cycle. */
  method NextRing(p: Params, c: Regs, i: Inputs, m: Regs, ghost a: Spec, ghost buf: Option<Tagged>,
                  ghost rb: Option<nat>, ghost j: nat) returns (n: Regs)
    requires p.Ok() && Legal(p, c, a, buf, i, rb, j)
    ensures var d := Cycle(p, c, i); n == m.(ckHead := d.ckHead, ckTail := d.ckTail, ckFull := d.ckFull, pipe := d.pipe)
  {
    hide Legal; hide Cycle; hide WriteAll; hide PipeWrite; hide DoRename;
    CycleData(p, c, i);
    CycleOwns(p, c, a, buf, i, rb, j);
    if AllocatesSlot(c, i.rename) && FreesSlot(c, i) { AllocateAndFree(p, c, a, buf, i, rb, j); }
    LegalNumbers(p, c, a, buf, i, rb, j);
    hide Next;
    var allocates := AllocatesSlot(c, i.rename);
    var freesSlot := i.free && TailOwnsSlot(c) && !(c.mapResp.Some? && c.target == c.tagsTail);
    var nextTail := if freesSlot then Next(c.ckTail, p.slots) else c.ckTail;
    n := m.(ckHead := c.ckHead, ckTail := c.ckTail, ckFull := c.ckFull, pipe := None);
    if allocates {
      var next := Next(c.ckHead, p.slots);
      n := n.(ckHead := next, ckFull := nextTail == next, pipe := Some(c.ckHead));
    }
    if c.mapResp.Some? {
      n := n.(ckHead := c.mapResp.value, ckFull := false);
    }
    if freesSlot {
      n := n.(ckTail := nextTail);
      if !allocates {
        n := n.(ckFull := false);
      }
    }
  }

  /** The renames of a group, written one after another. */
  method WriteGroup(frat: Rat, ops: seq<Op>) returns (r: Rat)
    ensures r == WriteAll(frat, ops)
  {
    r := frat;
    var k := 0;
    while k < |ops|
      invariant 0 <= k <= |ops| && WriteAll(r, ops[k..]) == WriteAll(frat, ops)
    {
      assert ops[k..][0] == ops[k] && ops[k..][1..] == ops[k + 1..];
      if ops[k].rl != 0 && ops[k].rl < |r| {
        r := r[ops[k].rl := ops[k].rp];
      }
      k := k + 1;
    }
  }

  /** The table takes a restore after a trap, then renames in group order, then a finished
      checkpoint restore. */
  method NextTable(p: Params, c: Regs, i: Inputs, m: Regs) returns (n: Regs)
    ensures n == m.(frat := Cycle(p, c, i).frat)
  {
    hide Cycle; hide WriteAll;
    CycleData(p, c, i);
    var f := if i.restore.Some? then i.restore.value else c.frat;
    if i.rename.Some? && (!c.lock || i.rename.value.tag == c.unlock) {
      f := WriteGroup(f, i.rename.value.ops);
    }
    if c.storeResp.Some? {
      f := c.storeResp.value;
    }
    n := m.(frat := f);
  }

  /** The two memories and their read responses; reads see the memories before this cycle's
      writes. */
  method NextMemories(p: Params, c: Regs, i: Inputs, m: Regs, ghost a: Spec, ghost buf: Option<Tagged>,
                      ghost rb: Option<nat>, ghost j: nat) returns (n: Regs)
    requires p.Ok() && Legal(p, c, a, buf, i, rb, j)
    ensures var d := Cycle(p, c, i);
            n == m.(storage := d.storage, tagMap := d.tagMap, mapResp := d.mapResp, storeResp := d.storeResp)
  {
    hide Legal; hide Cycle; hide WriteAll;
    CycleData(p, c, i);
    CycleResponses(p, c, a, buf, i, rb, j);
    var storage, tagMap := c.storage, c.tagMap;
    if c.pipe.Some? && c.pipe.value < |c.storage| {
      storage := c.storage[c.pipe.value := c.frat];
    }
    if AllocatesSlot(c, i.rename) && i.rename.value.tag < |c.tagMap| {
      tagMap := c.tagMap[i.rename.value.tag := c.ckHead];
    }
    n := m.(storage := storage, tagMap := tagMap, mapResp := None, storeResp := None);
    if i.rollback.Some? && i.rollback.value < |c.tagMap| {
      n := n.(mapResp := Some(c.tagMap[i.rollback.value]));
    }
    if c.mapResp.Some? && c.mapResp.value < |c.storage| {
      n := n.(storeResp := Some(c.storage[c.mapResp.value]));
    }
  }
}
