/** The TLB with the page table walker behind it: the clocked pair performs the steps of the TLB
    machine, whose walks are therefore the walker's, reading memory as it changes. */
module TlbPath {
  import opened Wrappers
  import opened PageTable
  import opened Tlb
  import opened TlbHardware
  import W = Walker

  class Path {
    const tlb: FullyAssociativeTlb
    const walker: W.PageTableWalker

    /** The walker is busy exactly while a port waits for its refill, with that port's page, at the
        position the machine's walk has reached, in the same memory. */
    ghost predicate Valid()
      reads this, tlb, tlb.entries, tlb.ports, walker
    {
      && tlb.Valid() && TlbInv(tlb.View()) && walker.Valid() && walker.t == tlb.env
      && (walker.state == W.Idle <==> !tlb.walking)
      && (tlb.walking ==>
            && tlb.walkPort < tlb.ports.Length
            && walker.vpn == tlb.ports[tlb.walkPort].vpn && walker.store == tlb.ports[tlb.walkPort].store
            && walker.At() == tlb.at)
    }

    constructor (ways: nat, portCount: nat, tables: Tables)
      requires ways > 0 && tables.Ok() && GlobalsAgree(tables)
      ensures Valid() && Start(tlb.View()) && fresh(tlb) && fresh(walker) && fresh(tlb.entries) && fresh(tlb.ports)
    {
      tlb := new FullyAssociativeTlb(ways, portCount, tables);
      walker := new W.PageTableWalker(tables, tables.fanout, tables.levels, tables.maxPpn);
    }

    /** A lookup on any port, also beside a walk for another one. */
    method Request(i: nat, v: nat, w: bool) returns (r: Option<Answer>)
      requires Valid() && Enabled(tlb.View(), Tlb.Request(i, v, w))
      modifies tlb.ports
      ensures Valid() && tlb.View() == Step(old(tlb.View()), Tlb.Request(i, v, w))
      ensures var o := Output(old(tlb.View()), Tlb.Request(i, v, w));
              r == if o.Some? then Some(o.value.answer) else None
    {
      ghost var s := tlb.View();
      r := tlb.Request(i, v, w);
      StepInv(s, Tlb.Request(i, v, w));
    }

    method IssueFence(f: Fence)
      requires Valid()
      modifies tlb
      ensures Valid() && tlb.View() == Step(old(tlb.View()), Enqueue(f))
    {
      ghost var s := tlb.View();
      tlb.IssueFence(f);
      StepInv(s, Enqueue(f));
    }

    /** A fence is carried out only while the walker is idle. */
    method DoFlush()
      requires Valid() && tlb.queue != [] && walker.state == W.Idle
      modifies tlb, tlb.entries
      ensures Valid() && tlb.View() == Step(old(tlb.View()), Tlb.DoFlush)
    {
      ghost var s := tlb.View();
      tlb.DoFlush();
      StepInv(s, Tlb.DoFlush);
    }

    /** A lookup that has to wait is retried: a hit is answered, a miss hands the page to the
        walker, which samples satp. */
    method Retry(i: nat, root: nat) returns (r: Option<Answer>)
      requires Valid() && i < tlb.ports.Length && tlb.ports[i].slow && !tlb.ports[i].handling && tlb.queue == []
      requires tlb.walking ==> Lookup(tlb.fanout, tlb.entries[..], tlb.asid, tlb.ports[i].vpn).Some?
      requires root == tlb.env.root(tlb.asid)
      modifies tlb, tlb.ports, walker
      ensures Valid()
      ensures var l := Lookup(tlb.fanout, old(tlb.entries[..]), tlb.asid, old(tlb.ports[i].vpn));
              var e := if l.Some? then LateHit(i) else StartRefill(i);
              && Enabled(old(tlb.View()), e) && tlb.View() == Step(old(tlb.View()), e)
              && r == if l.Some? then Some(AnswerOf(l.value)) else None
    {
      ghost var s := tlb.View();
      ghost var l := Lookup(tlb.fanout, tlb.entries[..], tlb.asid, tlb.ports[i].vpn);
      ghost var e := if l.Some? then LateHit(i) else StartRefill(i);
      var v, w := tlb.ports[i].vpn, tlb.ports[i].store;
      r := tlb.Retry(i);
      StepInv(s, e);
      KeepsPorts(s, e, i);
      hide TlbInv, Step, Enabled, Lookup;
      if r.None? {
        walker.Request(v, w, tlb.asid, root, false);
      }
    }

    /** The walker checks and reads: one step of the machine's walk. */
    method WalkerReads(pmpOk: bool, response: Bus)
      requires Valid() && walker.state == W.Issue
      requires var addr := walker.ppn * walker.fanout + Index(walker.fanout, walker.vpn, walker.level);
               pmpOk == walker.t.pmpOk(addr) && response == walker.t.read(addr)
      modifies tlb, walker
      ensures Valid() && Enabled(old(tlb.View()), WalkRead) && tlb.View() == Step(old(tlb.View()), WalkRead)
    {
      ghost var s := tlb.View();
      walker.IssueStep(pmpOk, response);
      tlb.WalkerReads();
      StepInv(s, WalkRead);
    }

    /** Judging the response moves the walker's registers, not the walk. */
    method WalkerJudges()
      requires Valid() && walker.state == W.Eval
      modifies walker
      ensures Valid() && walker.state != W.Eval && tlb.View() == old(tlb.View())
    {
      walker.EvalStep();
    }

    /** The walker's answer is one the machine allows, faults with any contents included. */
    method Finish() returns (r: Answer)
      requires Valid() && walker.state == W.Done
      modifies tlb, tlb.entries, tlb.ports, walker
      ensures Valid() && Enabled(old(tlb.View()), FinishRefill(old(tlb.walkPort), r))
      ensures tlb.View() == Step(old(tlb.View()), FinishRefill(old(tlb.walkPort), r))
    {
      ghost var s := tlb.View();
      r := walker.Accept();
      tlb.FinishRefill(r);
      StepInv(s, FinishRefill(s.walk.value.port, r));
    }

    /** Memory changes under both. */
    ghost method TablesChange(n: Tables, d: Debt)
      requires Valid() && Enabled(tlb.View(), Change(n, d))
      modifies tlb, walker
      ensures Valid() && tlb.View() == Step(old(tlb.View()), Change(n, d))
    {
      var s := tlb.View();
      tlb.TablesChange(n, d);
      walker.Change(n);
      StepInv(s, Change(n, d));
    }
  }

  /** A retry leaves the page and kind of every waiting request. */
  lemma KeepsPorts(s: State, e: Event, i: nat)
    requires Wf(s) && Enabled(s, e) && (e == LateHit(i) || e == StartRefill(i)) && i < |s.ports|
    ensures var n := Step(s, e);
            && |n.ports| == |s.ports| && n.env == s.env
            && forall k :: 0 <= k < |s.ports| ==>
                 n.ports[k].vpn == s.ports[k].vpn && n.ports[k].store == s.ports[k].store
  {
  }
}
