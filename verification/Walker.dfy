/** The hardware page table walker: a machine that issues one bus read per level. Memory may change
    between its steps. */
module Walker {
  import opened PageTable
  import opened Cyclic

  datatype State = Idle | Issue | Eval | Done

  class PageTableWalker {
    ghost var t: Tables       // what memory, PMP and satp hold now
    const fanout: nat
    const levels: nat
    const maxPpn: nat
    var state: State
    var level: nat
    var vpn: nat
    var store: bool
    var ppn: nat
    var fetched: Bus          // response of the outstanding bus read
    var accessFault: bool
    var pageFault: bool
    var asid: nat
    var accessed: bool
    var perms: Perms
    ghost var stop: Stop      // how the walk ended
    ghost var issued: nat     // bus reads issued in this walk

    constructor (ghost tables: Tables, fanout: nat, levels: nat, maxPpn: nat)
      requires tables.Ok() && tables.fanout == fanout && tables.levels == levels && tables.maxPpn == maxPpn
      ensures t == tables && Valid() && state == Idle
    {
      t, stop := tables, NoPage(0);
      this.fanout, this.levels, this.maxPpn := fanout, levels, maxPpn;
      state, level, vpn, store, ppn, asid, issued := Idle, 0, 0, false, 0, 0, 0;
      fetched, accessFault, pageFault, accessed, perms := BusError, false, false, false, NO_PERMS;
    }

    /** What the registers say once the walk ended with stop `s`. */
    ghost predicate Reports(s: Stop)
      reads this
    {
      && (accessFault <==> s.NoAccess?)
      && (pageFault <==> s.NoPage?)
      && (s.Found? ==> ppn == s.pte.ppn && perms == PermsOf(s.pte) && accessed == s.pte.a && level == s.level)
    }

    ghost predicate Valid()
      reads this
    {
      && t.Ok() && t.fanout == fanout && t.levels == levels && t.maxPpn == maxPpn
      && level < levels && issued <= levels
      && (state == Issue || state == Eval ==>
            !accessFault && !pageFault && issued + level + 1 <= levels + (if state == Eval then 1 else 0))
      && (state == Done ==> Reports(stop))
    }

    /** The walk as the algorithm sees it. */
    ghost function At(): Progress
      reads this
      requires state != Idle
    {
      match state
      case Issue => Reading(level, ppn)
      case Eval => FromBus(maxPpn, fetched, level)
      case Done => Holding(stop)
    }

    /** Memory, PMP settings and roots change under the walk. */
    ghost method Change(n: Tables)
      requires Valid() && n.Ok() && n.fanout == fanout && n.levels == levels && n.maxPpn == maxPpn
      modifies `t
      ensures Valid() && t == n && (state != Idle ==> At() == old(At()))
    {
      t := n;
    }

    /** satp is sampled here and nowhere else. An untranslated mode is an immediate fault. */
    method Request(v: nat, isStore: bool, satpAsid: nat, satpRoot: nat, bare: bool)
      requires Valid() && state == Idle && satpRoot == t.root(satpAsid)
      modifies this
      ensures Valid() && t == old(t) && vpn == v && store == isStore && asid == satpAsid
      ensures state != Idle && state != Eval
      ensures At() == if bare then Holding(NoPage(0)) else Reading(levels - 1, t.root(satpAsid))
    {
      level, vpn, store, accessFault, pageFault := 0, v, isStore, false, false;
      ppn, asid, issued := satpRoot, satpAsid, 0;
      if bare {
        pageFault, state, stop := true, Done, NoPage(0);
      } else {
        level, state := levels - 1, Issue;
      }
    }

    /** PMP check, then the bus read: one level of the algorithm on what memory holds now. */
    method IssueStep(pmpOk: bool, response: Bus)
      requires Valid() && state == Issue
      requires var addr := ppn * fanout + Index(fanout, vpn, level); pmpOk == t.pmpOk(addr) && response == t.read(addr)
      modifies `state, `accessFault, `fetched, `issued, `stop
      ensures Valid() && (state == Eval || state == Done)
      ensures At() == ReadStep(t, level, ppn, vpn)
      ensures issued == old(issued) + (if state == Eval then 1 else 0)
    {
      if !pmpOk {
        accessFault, state, stop := true, Done, NoAccess(level);
      } else {
        fetched, state := response, Eval;
        issued := issued + 1;
      }
    }

    /** Judging the fetched entry, whatever memory holds by now. */
    method EvalStep()
      requires Valid() && state == Eval
      modifies `state, `level, `ppn, `accessFault, `pageFault, `perms, `accessed, `stop
      ensures Valid() && (state == Done || (state == Issue && level < old(level)))
      ensures At() == old(At())
    {
      ghost var end := At();
      if fetched.BusError? {
        accessFault, state, stop := true, Done, end.stop;
        return;
      }
      var p := fetched.pte;
      if p.ppn <= maxPpn { SmallMod(p.ppn, maxPpn + 1); }
      var low := p.ppn % (maxPpn + 1);
      perms, accessed, ppn := PermsOf(p), p.a, low;
      if Invalid(p) {
        pageFault, state, stop := true, Done, end.stop;
      } else if p.ppn > maxPpn {
        accessFault, state, stop := true, Done, end.stop;
      } else if Leaf(p) {
        state, stop := Done, end.stop;
      } else if level == 0 {
        pageFault, state, stop := true, Done, end.stop;
      } else {
        level, state := level - 1, Issue;
      }
    }

    /** The result selection is the algorithm's judgement of the stop the walk came to. */
    method Accept() returns (r: Answer)
      requires Valid() && state == Done
      modifies `state
      ensures Valid() && state == Idle
      ensures r.result == Judge(fanout, stop, store)
      ensures Agrees(r, AnswerFrom(fanout, stop, store))
    {
      var misaligned := !LowZero(fanout, ppn, level);
      var result :=
        if accessFault then AccessFault
        else if pageFault || misaligned then PageFault
        else if !accessed || (store && !perms.d) then PageFault
        else Hit;
      r := Answer(result, ppn, perms, level);
      state := Idle;
    }
  }

  /** A whole walk over memory that stays as it is: it ends within one bus read per level with the
      prescribed answer. */
  method Translate(k: PageTableWalker, t: Tables, v: nat, isStore: bool, asid: nat) returns (r: Answer)
    requires k.Valid() && k.state == Idle && k.t == t
    modifies k
    ensures k.Valid() && k.state == Idle && k.issued <= k.levels
    ensures Agrees(r, Fresh(t, asid, v, isStore))
  {
    k.Request(v, isStore, asid, t.root(asid), false);
    while k.state != Done
      modifies k
      invariant k.Valid() && k.t == t && (k.state == Issue || k.state == Done)
      invariant k.vpn == v && k.store == isStore
      invariant Walk(t, asid, v) == match k.At() case Holding(s) => s case Reading(l, p) => WalkFrom(t, l, p, v)
      decreases if k.state == Done then 0 else k.level + 1
    {
      var addr := k.ppn * k.fanout + Index(k.fanout, v, k.level);
      k.IssueStep(t.pmpOk(addr), t.read(addr));
      if k.state == Eval { k.EvalStep(); }
    }
    r := k.Accept();
  }
}
