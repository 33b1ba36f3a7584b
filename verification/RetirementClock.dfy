/** The retirement unit cycle by cycle: masks over the reorder buffer's front, one commit or free
    port per entry, and the trap state machine. */
module RetirementClock {
  import opened BitMask
  import opened RatModel
  import opened Retirement
  import opened RenameCore
  import opened CoreStructs

  function Dead(n: nat): (m: Mask)
    ensures |m| == n
  {
    seq(n, _ => false)
  }

  /** Nothing live: every entry gives its own destination back and the table stays. */
  lemma {:induction false} DeadRetires(rrat: Rat, es: seq<Instr>, exc: Mask, async: bool, k: nat)
    requires k <= |es| <= |exc|
    ensures RetireSeq(rrat, es, Dead(|es|), exc, async, k) == Outcome(rrat, Dsts(es)[..k], false)
    decreases k
  {
    if k > 0 {
      DeadRetires(rrat, es, exc, async, k - 1);
      assert Dsts(es)[..k] == Dsts(es)[..k - 1] + [es[k - 1].op.rp];
    }
  }

  class RetirementUnit {
    const tags: nat
    const rrat: RetiredTable
    var fsm: Fsm
    var lastRetired: nat

    ghost predicate Valid()
      reads this
    {
      lastRetired < tags
    }

    constructor (tags: nat, logical: nat)
      requires tags > 0
      ensures Valid() && fsm == Normal && lastRetired == 0 && fresh(rrat) && fresh(rrat.entries)
      ensures this.tags == tags && rrat.entries[..] == seq(logical, _ => 0)
    {
      this.tags := tags;
      rrat := new RetiredTable(logical);
      fsm, lastRetired := Normal, 0;
    }

    /** Activity of each entry's own tag; during a trap flush nothing is live. */
    ghost function Live(es: seq<Instr>, active: Mask): (m: Mask)
      requires Valid() && |active| == tags
      reads this
      ensures |m| == |es|
    {
      if fsm == Normal then OwnLive(Incrs(es), active, lastRetired) else Dead(|es|)
    }

    /** One cycle over the window `es`, with `inCore` the number of instructions in the core. The
        table, the registers given back and the trap decision are those of retiring the longest
        possible prefix one instruction at a time. */
    method Cycle(es: seq<Instr>, done: Mask, exc: Mask, active: Mask, async: bool, inCore: nat)
      returns (count: nat, freed: seq<nat>, freeTag: bool, ghost trapped: bool)
      requires Valid() && fsm != Resume && |active| == tags && |es| == |done| == |exc|
      requires forall i :: 0 <= i < |es| ==> es[i].op.rl < rrat.entries.Length
      modifies this, rrat.entries
      ensures Valid() && count <= |es|
      ensures (forall i :: 0 <= i < count ==> done[i]) && Count(Incrs(es)[..count]) <= 1
      ensures forall n :: count < n <= |es| && Count(Incrs(es)[..n]) <= 1 ==> exists i :: 0 <= i < n && !done[i]
      ensures Outcome(rrat.entries[..], freed, trapped)
              == RetireSeq(old(rrat.entries[..]), es, old(Live(es, active)), exc, async, count)
      ensures freeTag <==> Count(Incrs(es)[..count]) == 1
      ensures lastRetired == if freeTag then (old(lastRetired) + 1) % tags else old(lastRetired)
      ensures fsm == if old(fsm) == Flush || trapped then (if count == inCore then Resume else Flush) else Normal
    {
      hide ComputeMasks, RetireSeq, OwnLive, Written, FirstSet;
      var incr := Incrs(es);
      var m := ComputeMasks(incr, done, exc, active, lastRetired);
      LongestPrefix(incr, done, exc, active, lastRetired);
      FreesOnIncrement(incr, done, exc, active, lastRetired);
      count, freeTag := m.retireCount, m.freeTag;
      if fsm == Normal {
        GroupIsSequential(rrat.entries[..], es, done, exc, active, lastRetired, async);
        freed := CommitGroup(es, m, async);
        trapped := m.exception;
        if m.exception { fsm := if count == inCore then Resume else Flush; }
      } else {
        DeadRetires(rrat.entries[..], es, exc, async, count);
        freed, trapped := Dsts(es)[..count], false;
        if count == inCore { fsm := Resume; }
      }
      if freeTag { lastRetired := (lastRetired + 1) % tags; }
    }

    /** Live entries before the trap point commit and give back the mapping they replace; the
        other leaving entries give back their own destination. */
    method CommitGroup(es: seq<Instr>, m: Masks, async: bool) returns (freed: seq<nat>)
      requires |m.tagActive| == |es| && m.retireCount <= |es|
      requires forall i :: 0 <= i < |es| ==> es[i].op.rl < rrat.entries.Length
      modifies rrat.entries
      ensures Outcome(rrat.entries[..], freed, m.exception) == GroupOutcome(old(rrat.entries[..]), es, m, async)
    {
      hide Written, Bypass, Commits;
      var ports := Ports(es, m, async);
      ghost var before := rrat.entries[..];
      var olds := rrat.Commit(ports);
      freed := [];
      var i := 0;
      while i < m.retireCount
        invariant i == |freed| <= m.retireCount && rrat.entries[..] == Written(before, ports)
        invariant forall k :: 0 <= k < i ==> freed[k] == GroupFreed(before, es, m, async)[k]
      {
        BypassReadsWritten(before, ports[..i], es[i].op.rl);
        freed := freed + [if ports[i].run then olds[i] else es[i].op.rp];
        i := i + 1;
      }
      assert freed == GroupFreed(before, es, m, async);
    }

    /** After the flush the retired table is handed to the checkpoint table and the core runs on. */
    method Restore() returns (restored: seq<nat>)
      requires Valid() && fsm == Resume
      modifies this`fsm
      ensures Valid() && fsm == Normal && restored == rrat.entries[..]
    {
      restored := rrat.entries[..];
      fsm := Normal;
    }
  }
}
