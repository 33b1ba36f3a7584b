/** The TLB as clocked hardware, with any number of ports: way-by-way matching, replacement and
    flushing. */
module TlbHardware {
  import opened Wrappers
  import opened PageTable
  import opened Tlb

  class FullyAssociativeTlb {
    const fanout: nat
    const entries: array<Entry>
    const ports: array<Port>
    var rr: nat
    var walking: bool         // the refill semaphore is taken
    var walkPort: nat
    var walkAsid: nat
    var queue: seq<Fence>
    var asid: nat             // satp.ASID
    ghost var at: Progress    // the walker's position while a refill is handled
    ghost var debt: Debt      // and what its answer depends on
    ghost var env: Tables
    ghost var stale: Debt
    ghost var owed: Debt

    ghost predicate Valid()
      reads this
    {
      env.Ok() && env.fanout == fanout && rr < entries.Length
    }

    ghost function Walk(): Option<Flight>
      reads this
    {
      if walking then Some(Flight(walkPort, walkAsid, at, debt)) else None
    }

    ghost function View(): State
      reads this, entries, ports
    {
      State(entries[..], rr, ports[..], queue, Walk(), asid, env, stale, owed)
    }

    constructor (ways: nat, portCount: nat, tables: Tables)
      requires ways > 0 && tables.Ok() && GlobalsAgree(tables)
      ensures Valid() && fresh(entries) && fresh(ports) && ports.Length == portCount
      ensures Start(View()) && TlbInv(View()) && env == tables && !walking
    {
      entries := new Entry[ways](_ => EMPTY);
      ports := new Port[portCount](_ => Port(false, false, 0, false));
      fanout := tables.fanout;
      rr, walking, walkPort, walkAsid, queue := 0, false, 0, 0, [];
      asid, env, stale, owed, at, debt := 0, tables, NO_DEBT, NO_DEBT, Reading(0, 0), NO_DEBT;
      new;
      StartInv(View());
    }

    /** The content addressable match with priority to the lowest way. */
    method Match(a: nat, v: nat) returns (r: Option<Entry>)
      requires fanout > 0
      ensures r == Lookup(fanout, entries[..], a, v)
    {
      r := None;
      var i := entries.Length;
      while i > 0
        invariant 0 <= i <= entries.Length && r == Lookup(fanout, entries[i..], a, v)
      {
        i := i - 1;
        assert entries[i..][0] == entries[i] && entries[i..][1..] == entries[i + 1..];
        if FullMatch(fanout, entries[i], a, v) {
          r := Some(entries[i]);
        }
      }
      assert entries[0..] == entries[..];
    }

    /** The replacement candidate: later assignments override earlier ones. */
    method Candidate(a: nat, v: nat) returns (w: nat)
      requires fanout > 0 && rr < entries.Length
      ensures w == Victim(fanout, entries[..], rr, a, v) && w < entries.Length
    {
      ghost var es := entries[..];
      w := rr;
      for i := 0 to entries.Length
        invariant w < entries.Length
        invariant var n := LastWhere(es, i, (e: Entry) => !e.valid); w == if n.Some? then n.value else rr
      {
        if !entries[i].valid {
          w := i;
        }
      }
      for i := 0 to entries.Length
        invariant w < entries.Length
        invariant var m := LastWhere(es, i, e => FullMatch(fanout, e, a, v));
                  var n := LastWhere(es, |es|, (e: Entry) => !e.valid);
                  w == if m.Some? then m.value else if n.Some? then n.value else rr
      {
        if FullMatch(fanout, entries[i], a, v) {
          w := i;
        }
      }
    }

    /** A lookup on a port: an answer at once, or the slow path. */
    method Request(i: nat, v: nat, w: bool) returns (r: Option<Answer>)
      requires Valid() && Enabled(View(), Tlb.Request(i, v, w))
      modifies ports
      ensures Valid() && View() == Step(old(View()), Tlb.Request(i, v, w))
      ensures var o := Output(old(View()), Tlb.Request(i, v, w)); r == if o.Some? then Some(o.value.answer) else None
    {
      ghost var s := View();
      var m := Match(asid, v);
      if m.Some? {
        r := Some(AnswerOf(m.value));
      } else {
        r := None;
        ports[i] := Port(true, false, v, w);
      }
      assert View().ports == Step(s, Tlb.Request(i, v, w)).ports;
    }

    /** The pending request of a port looks again: a hit is answered, a miss starts a walk once the
        semaphore is free. */
    method Retry(i: nat) returns (r: Option<Answer>)
      requires Valid() && i < ports.Length && ports[i].slow && !ports[i].handling && queue == []
      requires walking ==> Lookup(fanout, entries[..], asid, ports[i].vpn).Some?
      modifies ports, `walking, `walkPort, `walkAsid, `at, `debt
      ensures Valid()
      ensures var l := Lookup(fanout, old(entries[..]), asid, old(ports[i].vpn));
              var e := if l.Some? then LateHit(i) else StartRefill(i);
              && Enabled(old(View()), e) && View() == Step(old(View()), e)
              && r == if l.Some? then Some(AnswerOf(l.value)) else None
    {
      ghost var s := View();
      var m := Match(asid, ports[i].vpn);
      if m.Some? {
        r := Some(AnswerOf(m.value));
        ports[i] := ports[i].(slow := false);
        assert View().ports == Step(s, LateHit(i)).ports;
      } else {
        r, walking, walkPort, walkAsid := None, true, i, asid;
        at, debt := Reading(env.levels - 1, env.root(asid)), owed;
        ports[i] := ports[i].(handling := true);
        assert View().ports == Step(s, StartRefill(i)).ports;
      }
    }

    /** The walker reads one level from memory as it is now. */
    ghost method WalkerReads()
      requires Valid() && Enabled(View(), WalkRead)
      modifies `at, `debt, `stale, `owed
      ensures Valid() && View() == Step(old(View()), WalkRead)
    {
      var d := EventDebt(View(), WalkRead);
      at, debt := ReadStep(env, at.level, at.table, ports[walkPort].vpn), Plus(debt, d);
      stale, owed := Plus(stale, d), Plus(owed, Unsettled(old(View()), d));
    }

    /** The walker answers: the answer is passed on, and a hit replaces an entry. A fault may come
        with any contents. */
    method FinishRefill(resp: Answer)
      requires Valid() && walking && Enabled(View(), Tlb.FinishRefill(walkPort, resp))
      modifies entries, ports, `walking, `rr
      ensures Valid() && View() == Step(old(View()), Tlb.FinishRefill(walkPort, resp))
    {
      ghost var s := View();
      var v := ports[walkPort].vpn;
      ports[walkPort] := ports[walkPort].(slow := false, handling := false);
      walking := false;
      if resp.result == Hit {
        var w := Candidate(walkAsid, v);
        rr := (rr + 1) % entries.Length;
        entries[w] := EntryOf(walkAsid, v, resp);
      }
      assert View().ports == Step(s, Tlb.FinishRefill(walkPort, resp)).ports;
      assert View().entries == Step(s, Tlb.FinishRefill(walkPort, resp)).entries;
    }

    /** SFENCE.VMA queues a fence. */
    method IssueFence(f: Fence)
      requires Valid()
      modifies `queue, `owed
      ensures Valid() && View() == Step(old(View()), Enqueue(f))
    {
      queue, owed := queue + [f], Settle(fanout, f, owed);
    }

    /** The page tables change in memory. */
    ghost method TablesChange(n: Tables, d: Debt)
      requires Valid() && Enabled(View(), Change(n, d))
      modifies `env, `stale, `owed, `debt
      ensures Valid() && View() == Step(old(View()), Change(n, d))
    {
      env, stale, owed := n, Plus(stale, d), Plus(owed, d);
      if walking { debt := Plus(debt, d); }
    }

    /** Carries out the oldest fence, way by way. */
    method DoFlush()
      requires Valid() && Enabled(View(), Tlb.DoFlush)
      modifies entries, `queue, `stale
      ensures Valid() && View() == Step(old(View()), Tlb.DoFlush)
    {
      ghost var s := View();
      var f := queue[0];
      for i := 0 to entries.Length
        modifies entries
        invariant forall k :: 0 <= k < i ==> entries[k] == Flush(fanout, f, s.entries)[k]
        invariant forall k :: i <= k < entries.Length ==> entries[k] == s.entries[k]
      {
        if (f.allAsids || AsidMatch(entries[i], f.asid)) && (f.allVpns || AddrMatch(fanout, entries[i], f.vpn)) {
          entries[i] := EMPTY;
        }
      }
      queue, stale := queue[1..], Settle(fanout, f, stale);
      assert View().entries == Flush(fanout, f, s.entries);
    }
  }
}
