/** What the renaming core promises, for every run of clock cycles from reset. */
module RenameTheorems {
  import opened RatModel
  import opened BitMask
  import opened Retirement
  import opened Wrappers
  import opened CratSpec
  import opened RenameCore
  import opened Cyclic
  import opened CheckpointRat
  import opened CratRefinement
  import opened CoreCycle

  /** Tags of the given instructions whose active bit is set in the registers. */
  function LiveTags(p: Params, c: Regs, es: seq<Instr>): set<nat>
    requires p.Ok()
  {
    set i | 0 <= i < |es| && es[i].tag % p.tags < |c.active| && c.active[es[i].tag % p.tags] :: es[i].tag
  }

  lemma LiveTagsAreActive(p: Params, c: Regs, s: Core, i: nat)
    requires PairInv(p, s, c) && i < |s.rob|
    ensures s.spec.tail <= s.rob[i].tag < s.spec.head
    ensures s.rob[i].tag in LiveTags(p, c, s.rob) <==> s.rob[i].tag in s.spec.active
    ensures c.active[s.rob[i].tag % p.tags] <==> s.rob[i].tag in s.spec.active
  {
    hide Shape; hide Partition; hide ValidBits; hide Speculation; hide Wakeups; hide Values;
    hide RepBits; hide RepRing; hide RepStore; hide RepPipe; hide RingOk; hide Phases;
    ChainMono(s.spec.tail, s.rob);
  }

  /** With no restore pending and no trap in progress, the FRAT register is the RRAT overlaid,
      in program order, with the renames of in-flight instructions whose tag bit is set. */
  lemma SpeculativeTable(p: Params, h: seq<Moment>, s: Core, c: Regs)
    requires p.Ok() && History(p, h, s, c) && s.fsm == Normal && c.finished
    ensures c.frat == Overlay(s.rrat, s.rob, LiveTags(p, c, s.rob))
  {
    hide History; hide Partition; hide ValidBits; hide Wakeups; hide Values; hide SpecInv; hide RepTags; hide RepBits;
    hide RepRing; hide LiveTags; hide SourcesOk;
    HistoryInv(p, h, s, c);
    forall i | 0 <= i < |s.rob|
      ensures s.rob[i].tag in s.spec.active <==> s.rob[i].tag in LiveTags(p, c, s.rob)
    {
      LiveTagsAreActive(p, c, s, i);
    }
    OverlayAgree(s.rrat, s.rob, s.spec.active, LiveTags(p, c, s.rob));
  }

  /** Number of leading instructions whose tag is at most `t`. */
  function CutAt(es: seq<Instr>, t: nat): (k: nat)
    ensures k <= |es|
  {
    if es == [] || es[0].tag > t then 0 else 1 + CutAt(es[1..], t)
  }

  lemma {:induction false} CutOverlay(prev: nat, base: Rat, es: seq<Instr>, act: set<nat>, t: nat)
    requires Chain(prev, es)
    ensures Overlay(base, es, Upto(act, t)) == Overlay(base, es[..CutAt(es, t)], act)
    decreases es
  {
    if es != [] {
      if es[0].tag > t {
        ChainMono(prev, es);
        OverlayInactive(base, es, Upto(act, t));
      } else {
        CutOverlay(es[0].tag, WriteIf(base, es[0], act), es[1..], act, t);
        assert es[..CutAt(es, t)][1..] == es[1..][..CutAt(es[1..], t)];
      }
    }
  }

  /** The snapshot a rollback will restore is, in every reachable state and however much has
      retired since it was taken, the table just after the checkpointing instruction: the
      RRAT overlaid with the live instructions up to the rolled back tag. */
  lemma RollbackRestoresCut(p: Params, h: seq<Moment>, s: Core, c: Regs, j: nat)
    requires p.Ok() && History(p, h, s, c) && RollbackOk(s, j)
    ensures |c.tagMap| == p.tags
    ensures var t := s.spec.ring[j].tag; var slot := c.tagMap[t % p.tags];
            && slot < |c.storage|
            && (if c.pipe == Some(slot) then c.frat else c.storage[slot])
               == Overlay(s.rrat, s.rob[..CutAt(s.rob, t)], s.spec.active)
  {
    hide History; hide Partition; hide ValidBits; hide Wakeups; hide Values; hide SpecInv; hide RepBits; hide SourcesOk;
    HistoryInv(p, h, s, c);
    var t := s.spec.ring[j].tag;
    var i :| 0 <= i < |s.rob| && s.rob[i].tag == t && !s.ph[i].Done?;
    assert InRob(s, t);
    CutOverlay(s.spec.tail, s.rrat, s.rob, s.spec.active, t);
  }

  /** Checkpoint ring: with no slot read pending, the tags that are active and checkpointed
      are exactly the live ring in increasing order, and the i-th of them owns the i-th slot
      after the tail; head and full flag agree with their number. */
  lemma CheckpointRing(p: Params, h: seq<Moment>, s: Core, c: Regs)
    requires p.Ok() && History(p, h, s, c) && c.mapResp.None?
    ensures var ring := s.spec.ring;
            && |ring| <= p.slots
            && (forall i, j :: 0 <= i < j < |ring| ==> ring[i].tag < ring[j].tag)
            && (forall x :: s.spec.tail <= x < s.spec.tail + p.tags ==>
                  (|c.active| == |c.ckptd| == p.tags)
                  && (c.active[x % p.tags] && c.ckptd[x % p.tags] <==> OnRing(s.spec, x)))
            && (forall i :: 0 <= i < |ring| ==>
                  |c.tagMap| == p.tags && c.tagMap[ring[i].tag % p.tags] == (c.ckTail + i) % p.slots)
            && c.ckHead == (c.ckTail + |ring|) % p.slots && (c.ckFull <==> |ring| == p.slots)
  {
    hide History; hide Partition; hide ValidBits; hide Wakeups; hide Values; hide Shape; hide TagsOk; hide Speculation;
    hide RepStore; hide RepPipe; hide Phases;
    HistoryInv(p, h, s, c);
    forall i: nat | i <= |s.spec.ring| ensures Slot(p, s.spec, i) == (c.ckTail + i) % p.slots {
      ModAbsorb(s.spec.ringBase, i, p.slots);
    }
    forall x | OnRing(s.spec, x) ensures x in s.spec.active {
      var i :| 0 <= i < |s.spec.ring| && s.spec.ring[i].tag == x;
    }
  }

  lemma ModAbsorb(a: nat, i: nat, n: nat)
    requires n > 0
    ensures (a + i) % n == (a % n + i) % n
    decreases i
  {
    if i == 0 {
      ModStep(0, a % n, n);
    } else if n > 1 {
      ModAbsorb(a, i - 1, n);
      ModNext(a + i - 1, n);
      ModNext(a % n + i - 1, n);
    }
  }

  /** The tag rebuilt from the one-bit increments of the reorder buffer, starting at the last
      retired tag, is the issued tag of every in-flight instruction, in spite of wrap-around;
      the last retired tag is the table's tail. */
  lemma TagRebuilt(p: Params, h: seq<Moment>, s: Core, c: Regs, i: nat)
    requires p.Ok() && History(p, h, s, c) && i < |s.rob|
    ensures c.tagsTail == s.lastRetired % p.tags
    ensures s.rob[i].tag % p.tags == (c.tagsTail + CountIncr(s.rob[..i + 1])) % p.tags
  {
    hide History; hide Partition; hide ValidBits; hide Wakeups; hide Values; hide Speculation; hide SpecInv;
    hide RepStore; hide RepPipe; hide RepRing; hide RepBits;
    HistoryInv(p, h, s, c);
    ChainSplit(s.spec.tail, s.rob, i + 1);
    assert s.rob[..i + 1][i] == s.rob[i];
    ModAbsorb(s.spec.tail, CountIncr(s.rob[..i + 1]), p.tags);
  }

  /** A rollback to tag t clears the bit of exactly the tags above t in the window; tags that
      are not allocated are never active. */
  lemma TagWindow(p: Params, h: seq<Moment>, s: Core, c: Regs, j: nat, x: nat)
    requires p.Ok() && History(p, h, s, c) && s.spec.tail <= x < s.spec.tail + p.tags
    ensures |c.active| == p.tags && (x >= s.spec.head ==> !c.active[x % p.tags])
    ensures j < |s.spec.ring| ==>
              var t := s.spec.ring[j].tag;
              DoRollback(p, c, Some(t % p.tags)).active[x % p.tags] <==> c.active[x % p.tags] && x <= t
  {
    hide History; hide Partition; hide ValidBits; hide Wakeups; hide Values; hide Speculation; hide Shape; hide TagsOk;
    hide RepStore; hide RepPipe; hide RepRing; hide RepBits; hide Phases;
    HistoryInv(p, h, s, c);
    if j < |s.spec.ring| {
      RollbackTagsRep(p, c, s.spec, Tagging(s), j);
    }
  }

  /** Physical registers other than 0 are split, without duplicates or leaks, between the free
      set, the nonzero image of the RRAT and the destinations in flight. */
  lemma RegistersPartitioned(p: Params, h: seq<Moment>, s: Core, c: Regs, r: nat)
    requires p.Ok() && History(p, h, s, c) && 0 < r < p.phys
    ensures multiset(s.free)[r] + multiset(s.rrat)[r] + multiset(Dsts(s.rob))[r]
            + multiset(OpDsts(TagOps(s)))[r] + multiset(OpDsts(AllocOps(s)))[r] == 1
  {
    hide History; hide ValidBits; hide Wakeups; hide Values; hide Speculation; hide Shape; hide TagsOk; hide SpecInv;
    hide Rep;
    HistoryInv(p, h, s, c);
    assert Bag(s)[r] == 1;
  }

  /** No lost wakeup: an operand still naming a register names the destination of an older
      instruction in flight that is not done, whose announcement will supply the value. */
  lemma NoLostWakeup(p: Params, h: seq<Moment>, s: Core, c: Regs, i: nat)
    requires p.Ok() && History(p, h, s, c) && i < |s.ph| && s.ph[i].Waiting?
    ensures |s.rob| == |s.ph|
    ensures s.ph[i].r1 != 0 ==> exists j :: 0 <= j < i && s.rob[j].op.rp == s.ph[i].r1 && !s.ph[j].Done?
    ensures s.ph[i].r2 != 0 ==> exists j :: 0 <= j < i && s.rob[j].op.rp == s.ph[i].r2 && !s.ph[j].Done?
  {
    hide History; hide ValidBits; hide Partition; hide Values; hide Speculation; hide TagsOk; hide SpecInv; hide Rep;
    HistoryInv(p, h, s, c);
  }

  /** No operand deadlock: the oldest unfinished instruction, once in a reservation station,
      has both operands. */
  lemma OldestIsReady(p: Params, h: seq<Moment>, s: Core, c: Regs, i: nat)
    requires p.Ok() && History(p, h, s, c) && i < |s.ph| && s.ph[i].Waiting?
    requires forall j :: 0 <= j < i ==> s.ph[j].Done?
    ensures Enabled(p, s, Take(i))
  {
    hide History;
    NoLostWakeup(p, h, s, c, i);
  }

  /** A live instruction executes with the current contents of its source registers, and
      those registers are valid. */
  lemma OperandValues(p: Params, h: seq<Moment>, s: Core, c: Regs, i: nat)
    requires p.Ok() && History(p, h, s, c) && s.fsm == Normal
    requires i < |s.ph| && s.ph[i].Executing? && i < |s.rob| && s.rob[i].tag in LiveTags(p, c, s.rob)
    ensures OperandOk(s, s.rob[i].s1, s.ph[i].v1) && OperandOk(s, s.rob[i].s2, s.ph[i].v2)
    ensures s.rob[i].s1 == Look(Overlay(s.rrat, s.rob[..i], s.spec.active), s.rob[i].op.rs1)
    ensures s.rob[i].s2 == Look(Overlay(s.rrat, s.rob[..i], s.spec.active), s.rob[i].op.rs2)
  {
    hide History; hide ValidBits; hide Partition; hide Wakeups; hide TagsOk; hide SpecInv; hide Rep; hide LiveTags;
    hide RegValid;
    HistoryInv(p, h, s, c);
    LiveTagsAreActive(p, c, s, i);
    SourceIsOverlay(s.rrat, s.rob, s.spec.active, i);
  }

  // ---- the masks on the registers retire what the core retires ----

  lemma {:induction false} CountIncrs(es: seq<Instr>, k: nat)
    requires k <= |es|
    ensures Count(Incrs(es)[..k]) == CountIncr(es[..k])
    decreases k
  {
    if k > 0 {
      CountIncrs(es[1..], k - 1);
      assert Incrs(es)[..k][1..] == Incrs(es[1..])[..k - 1];
      assert es[..k][1..] == es[1..][..k - 1];
    }
  }

  lemma {:induction false} RetirePrefix(rrat: Rat, es: seq<Instr>, fs: seq<Instr>, live: Mask, live': Mask,
                                        exc: Mask, exc': Mask, async: bool, k: nat)
    requires k <= |es| <= |live| && |es| <= |exc| && k <= |fs| <= |live'| && |fs| <= |exc'|
    requires forall i :: 0 <= i < k ==> es[i] == fs[i] && live[i] == live'[i] && exc[i] == exc'[i]
    ensures RetireSeq(rrat, es, live, exc, async, k) == RetireSeq(rrat, fs, live', exc', async, k)
    decreases k
  {
    if k > 0 {
      RetirePrefix(rrat, es, fs, live, live', exc, exc', async, k - 1);
    }
  }

  function DoneMask(s: Core): (m: Mask)
    ensures |m| == |s.ph|
  {
    seq(|s.ph|, i requires 0 <= i < |s.ph| => s.ph[i].Done?)
  }

  /** Activity of each entry's own tag, as the masks see it through numbers, is the activity of
      the instruction. */
  lemma OwnLiveIsLive(p: Params, h: seq<Moment>, s: Core, c: Regs, w: nat, i: nat)
    requires p.Ok() && History(p, h, s, c) && s.fsm == Normal && i < w <= |s.rob|
    ensures |c.active| == p.tags && c.tagsTail < p.tags
    ensures OwnLive(Incrs(s.rob[..w]), c.active, c.tagsTail)[i] == LiveMask(s)[i]
  {
    hide History; hide PairInv; hide TagAt;
    HistoryInv(p, h, s, c);
    ActiveSize(p, s, c);
    LiveTagsAreActive(p, c, s, i);
    OwnNumber(p, h, s, c, w, i);
  }

  lemma OwnNumber(p: Params, h: seq<Moment>, s: Core, c: Regs, w: nat, i: nat)
    requires p.Ok() && History(p, h, s, c) && i < w <= |s.rob| && c.tagsTail < p.tags
    ensures TagAt(Incrs(s.rob[..w]), p.tags, c.tagsTail, i) == s.rob[i].tag % p.tags
  {
    hide History;
    TagRebuilt(p, h, s, c, i);
    CountIncrs(s.rob[..w], i + 1);
    assert s.rob[..w][..i + 1] == s.rob[..i + 1];
  }

  lemma ActiveSize(p: Params, s: Core, c: Regs)
    requires PairInv(p, s, c)
    ensures |c.active| == p.tags && c.tagsTail < p.tags
  {
  }

  lemma RetireShapes(p: Params, h: seq<Moment>, s: Core, c: Regs)
    requires p.Ok() && History(p, h, s, c)
    ensures |s.rob| == |s.ph| && |c.active| == p.tags && c.tagsTail < p.tags
    ensures forall i :: 0 <= i < |s.rob| ==> s.rob[i].op.rl < |s.rrat|
  {
    hide History;
    HistoryInv(p, h, s, c);
    ActiveSize(p, s, c);
  }

  /** For any retirement width, the masks computed from the registers retire an enabled prefix
      and produce exactly the sequential outcome of the core. */
  lemma RegistersRetire(p: Params, h: seq<Moment>, s: Core, c: Regs, w: nat, async: bool)
    requires p.Ok() && History(p, h, s, c) && s.fsm == Normal && w <= |s.rob|
    ensures |s.rob| == |s.ph| && |c.active| == p.tags && c.tagsTail < p.tags
    ensures var m := ComputeMasks(Incrs(s.rob[..w]), DoneMask(s)[..w], ExcMask(s)[..w], c.active, c.tagsTail);
            && (m.retireCount > 0 ==> RetireOk(s, m.retireCount))
            && GroupOutcome(s.rrat, s.rob[..w], m, async) == Retired(s, m.retireCount, async)
            && (m.freeTag <==> CountIncr(s.rob[..m.retireCount]) > 0)
  {
    hide History; hide ComputeMasks; hide GroupOutcome; hide RetireSeq; hide OwnLive;
    RetireShapes(p, h, s, c);
    var es := s.rob[..w];
    var incr, done, exc := Incrs(es), DoneMask(s)[..w], ExcMask(s)[..w];
    var m := ComputeMasks(incr, done, exc, c.active, c.tagsTail);
    var k := m.retireCount;
    LongestPrefix(incr, done, exc, c.active, c.tagsTail);
    FreesOnIncrement(incr, done, exc, c.active, c.tagsTail);
    CountIncrs(es, k);
    assert es[..k] == s.rob[..k];
    GroupIsSequential(s.rrat, es, done, exc, c.active, c.tagsTail, async);
    var live := OwnLive(incr, c.active, c.tagsTail);
    forall i | 0 <= i < k ensures live[i] == LiveMask(s)[i] {
      OwnLiveIsLive(p, h, s, c, w, i);
    }
    RetirePrefix(s.rrat, es, s.rob, live, LiveMask(s), exc, ExcMask(s), async, k);
    forall i | 0 <= i < k ensures s.ph[i].Done? { assert done[i]; }
  }
}
