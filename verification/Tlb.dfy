/** The fully associative TLB in front of the page table walker, and the address translator
    that uses it. */
module Tlb {
  import opened Wrappers
  import opened PageTable

  datatype Entry = Entry(valid: bool, asid: nat, size: nat, vpn: nat, ppn: nat, perms: Perms)

  const EMPTY := Entry(false, 0, 0, 0, 0, NO_PERMS)

  // ---- matching ----

  predicate AddrMatch(fanout: nat, e: Entry, v: nat)
    requires fanout > 0
  {
    Above(fanout, v, e.size) == Above(fanout, e.vpn, e.size)
  }

  predicate AsidMatch(e: Entry, asid: nat) {
    !e.perms.g && e.asid == asid
  }

  predicate FullMatch(fanout: nat, e: Entry, asid: nat, v: nat)
    requires fanout > 0
  {
    e.valid && AddrMatch(fanout, e, v) && (AsidMatch(e, asid) || e.perms.g)
  }

  /** The matching way of lowest index. */
  function Lookup(fanout: nat, es: seq<Entry>, asid: nat, v: nat): (r: Option<Entry>)
    requires fanout > 0
    ensures r.Some? ==> r.value in es && FullMatch(fanout, r.value, asid, v)
    ensures r.None? ==> forall e :: e in es ==> !FullMatch(fanout, e, asid, v)
  {
    if es == [] then None
    else if FullMatch(fanout, es[0], asid, v) then Some(es[0])
    else Lookup(fanout, es[1..], asid, v)
  }

  /** Replacement order: a way already matching, else an invalid way, else round robin; among
      several the highest index. */
  function Victim(fanout: nat, es: seq<Entry>, rr: nat, asid: nat, v: nat): (i: nat)
    requires fanout > 0 && rr < |es|
    ensures i < |es|
  {
    var m := LastWhere(es, |es|, e => FullMatch(fanout, e, asid, v));
    var n := LastWhere(es, |es|, (e: Entry) => !e.valid);
    if m.Some? then m.value else if n.Some? then n.value else rr
  }

  function LastWhere(es: seq<Entry>, k: nat, f: Entry -> bool): (i: Option<nat>)
    requires k <= |es|
    ensures i.Some? ==> i.value < k && f(es[i.value])
  {
    if k == 0 then None else if f(es[k - 1]) then Some(k - 1) else LastWhere(es, k - 1, f)
  }

  function EntryOf(asid: nat, v: nat, r: Answer): Entry {
    Entry(true, asid, r.size, v, r.ppn, r.perms)
  }

  function AnswerOf(e: Entry): Answer {
    Answer(Hit, e.ppn, e.perms, e.size)
  }

  // ---- SFENCE.VMA ----

  datatype Fence = Fence(asid: nat, vpn: nat, allAsids: bool, allVpns: bool)

  predicate Flushed(fanout: nat, f: Fence, e: Entry)
    requires fanout > 0
  {
    (f.allAsids || AsidMatch(e, f.asid)) && (f.allVpns || AddrMatch(fanout, e, f.vpn))
  }

  function Flush(fanout: nat, f: Fence, es: seq<Entry>): (r: seq<Entry>)
    requires fanout > 0
    ensures |r| == |es|
  {
    seq(|es|, i requires 0 <= i < |es| => if Flushed(fanout, f, es[i]) then EMPTY else es[i])
  }

  // ---- the machine ----

  datatype Port = Port(slow: bool, handling: bool, vpn: nat, store: bool)

  /** The walk in flight, holding the refill semaphore. `debt` is what was owed when it started and
      what was added since: fences issued later do not concern it. */
  datatype Flight = Flight(port: nat, asid: nat, at: Progress, debt: Debt)

  /** Changes a fence has yet to cover. (a, v, z) in `own`: in address space a, an entry of size z
      or larger may be wrong about page v. (v, z) in `global`: so may an entry marked global. */
  datatype Debt = Debt(own: iset<(nat, nat, nat)>, global: iset<(nat, nat)>)

  const NO_DEBT := Debt(iset{}, iset{})

  datatype State = State(
    entries: seq<Entry>,
    rr: nat,
    ports: seq<Port>,
    queue: seq<Fence>,          // fences issued and not yet carried out
    walk: Option<Flight>,
    asid: nat,                  // current satp.ASID
    env: Tables,                // page tables as memory holds them now
    stale: Debt,                // not covered by a carried out fence
    owed: Debt)                 // not covered by an issued fence

  datatype Response = Response(asid: nat, vpn: nat, store: bool, answer: Answer)

  datatype Event =
    | Request(port: nat, vpn: nat, store: bool)
    | StartRefill(port: nat)
    | LateHit(port: nat)
    | WalkRead
    | FinishRefill(port: nat, answer: Answer)
    | Enqueue(fence: Fence)
    | DoFlush
    | SwitchAsid(asid: nat)
    | Change(env: Tables, debt: Debt)

  /** Software promise on global mappings: they are the same in every address space. */
  ghost predicate GlobalsAgree(t: Tables)
    requires t.Ok()
  {
    forall a, b, v :: GlobalHit(t, a, v) ==> Fresh(t, b, v, false) == Fresh(t, a, v, false)
  }

  predicate GlobalHit(t: Tables, a: nat, v: nat)
    requires t.Ok()
  {
    Fresh(t, a, v, false).result == Hit && Fresh(t, a, v, false).perms.g
  }

  /** Every table the walk of a page goes through is still gone through. */
  ghost predicate PathKept(t: Tables, n: Tables, a: nat, v: nat)
    requires t.Ok() && n.Ok()
  {
    forall l, p :: OnPath(t, a, v, l, p) ==> OnPath(n, a, v, l, p)
  }

  /** What a change of the tables from `t` to `n` adds to the debt. An entry read last, at level z,
      that changed: entries of size z. A table pointer above it that changed: entries of any size. */
  ghost predicate Records(t: Tables, n: Tables, d: Debt)
    requires t.Ok() && n.Ok()
  {
    && (forall a: nat, v: nat :: Walk(t, a, v) != Walk(n, a, v) ==> (a, v, Walk(t, a, v).level) in d.own)
    && (forall a: nat, v: nat :: !PathKept(t, n, a, v) ==> (a, v, 0) in d.own)
    && (forall a: nat, v: nat :: GlobalHit(t, a, v) && Fresh(n, a, v, false) != Fresh(t, a, v, false) ==>
          (v, Fresh(t, a, v, false).size) in d.global)
  }

  /** The page `v` shares the entry read at level `l` of table `p` by a walk for `v0`, yet the table
      is no longer on its path. */
  ghost predicate OffPath(t: Tables, a: nat, v: nat, v0: nat, l: nat, p: nat)
    requires t.Ok()
  {
    Above(t.fanout, v, l) == Above(t.fanout, v0, l) && !OnPath(t, a, v, l, p)
  }

  predicate GlobalLeaf(at: Progress) {
    at.Holding? && at.stop.Found? && at.stop.pte.g
  }

  /** What a read adds to the debt: a leaf marked global found in a table that was abandoned. */
  ghost function Torn(t: Tables, a: nat, v0: nat, l: nat, p: nat): Debt
    requires t.Ok()
  {
    Debt(iset{}, iset v: nat | GlobalLeaf(ReadStep(t, l, p, v0)) && OffPath(t, a, v, v0, l, p) :: (v, 0))
  }

  predicate SameGeometry(t: Tables, n: Tables) {
    t.fanout == n.fanout && t.levels == n.levels && t.maxPpn == n.maxPpn
  }

  ghost predicate Enabled(s: State, e: Event)
    requires s.env.Ok()
  {
    match e
    case Request(i, v, w) =>
      i < |s.ports| && !s.ports[i].slow && !s.ports[i].handling && s.queue == []
    case StartRefill(i) =>
      && i < |s.ports| && s.ports[i].slow && !s.ports[i].handling && s.queue == [] && s.walk.None?
      && Lookup(s.env.fanout, s.entries, s.asid, s.ports[i].vpn).None?
    case LateHit(i) =>
      && i < |s.ports| && s.ports[i].slow && !s.ports[i].handling && s.queue == []
      && Lookup(s.env.fanout, s.entries, s.asid, s.ports[i].vpn).Some?
    case WalkRead => s.walk.Some? && s.walk.value.at.Reading? && s.walk.value.port < |s.ports|
    case FinishRefill(i, r) =>
      && i < |s.ports| && s.ports[i].handling && s.walk.Some? && s.walk.value.port == i && s.walk.value.at.Holding?
      && Agrees(r, AnswerFrom(s.env.fanout, s.walk.value.at.stop, s.ports[i].store))
    case Enqueue(f) => true
    case DoFlush => s.queue != [] && s.walk.None?
    case SwitchAsid(a) => true
    case Change(n, d) =>
      n.Ok() && SameGeometry(s.env, n) && GlobalsAgree(n) && Records(s.env, n, d)
  }

  /** A fence names a page at a size: the page agrees with its address above that size. */
  predicate NamesPage(fanout: nat, f: Fence, v: nat, z: nat)
    requires fanout > 0
  {
    f.allVpns || Above(fanout, v, z) == Above(fanout, f.vpn, z)
  }

  ghost function Settle(fanout: nat, f: Fence, d: Debt): Debt
    requires fanout > 0
  {
    Debt(iset x | x in d.own && !Settles(fanout, f, x.0, x.1, x.2),
         iset x | x in d.global && !SettlesGlobal(fanout, f, x.0, x.1))
  }

  predicate Settles(fanout: nat, f: Fence, a: nat, v: nat, z: nat)
    requires fanout > 0
  {
    (f.allAsids || a == f.asid) && NamesPage(fanout, f, v, z)
  }

  predicate SettlesGlobal(fanout: nat, f: Fence, v: nat, z: nat)
    requires fanout > 0
  {
    f.allAsids && NamesPage(fanout, f, v, z)
  }

  /** The part of `d` that no waiting fence will settle. */
  ghost function Unsettled(s: State, d: Debt): Debt
    requires s.env.Ok()
  {
    Debt(iset x | x in d.own && forall f :: f in s.queue ==> !Settles(s.env.fanout, f, x.0, x.1, x.2),
         iset x | x in d.global && forall f :: f in s.queue ==> !SettlesGlobal(s.env.fanout, f, x.0, x.1))
  }

  ghost function Plus(a: Debt, b: Debt): Debt {
    Debt(a.own + b.own, a.global + b.global)
  }

  ghost predicate Wf(s: State) {
    s.env.Ok() && s.rr < |s.entries|
  }

  ghost function Changed(s: State, n: Tables, d: Debt): State {
    s.(env := n, stale := Plus(s.stale, d), owed := Plus(s.owed, d),
       walk := if s.walk.Some? then Some(s.walk.value.(debt := Plus(s.walk.value.debt, d))) else None)
  }

  /** The debt an event adds. */
  ghost function EventDebt(s: State, e: Event): Debt
    requires s.env.Ok() && Enabled(s, e)
  {
    match e
    case Change(_, d) => d
    case WalkRead =>
      var f := s.walk.value;
      Torn(s.env, f.asid, s.ports[f.port].vpn, f.at.level, f.at.table)
    case _ => NO_DEBT
  }

  ghost function Step(s: State, e: Event): (n: State)
    requires Wf(s) && Enabled(s, e)
    ensures Wf(n)
  {
    match e
    case Request(i, v, w) =>
      if Lookup(s.env.fanout, s.entries, s.asid, v).Some? then s
      else s.(ports := s.ports[i := Port(true, false, v, w)])
    case StartRefill(i) =>
      s.(ports := s.ports[i := s.ports[i].(handling := true)],
         walk := Some(Flight(i, s.asid, Reading(s.env.levels - 1, s.env.root(s.asid)), s.owed)))
    case LateHit(i) => s.(ports := s.ports[i := s.ports[i].(slow := false)])
    case WalkRead =>
      var f, d := s.walk.value, EventDebt(s, e);
      s.(walk := Some(f.(at := ReadStep(s.env, f.at.level, f.at.table, s.ports[f.port].vpn), debt := Plus(f.debt, d))),
         stale := Plus(s.stale, d), owed := Plus(s.owed, Unsettled(s, d)))
    case FinishRefill(i, r) =>
      var a := s.walk.value.asid;
      var hit := r.result == Hit;
      var w := Victim(s.env.fanout, s.entries, s.rr, a, s.ports[i].vpn);
      s.(ports := s.ports[i := s.ports[i].(slow := false, handling := false)], walk := None,
         rr := if hit then (s.rr + 1) % |s.entries| else s.rr,
         entries := if hit then s.entries[w := EntryOf(a, s.ports[i].vpn, r)] else s.entries)
    case Enqueue(f) => s.(queue := s.queue + [f], owed := Settle(s.env.fanout, f, s.owed))
    case DoFlush =>
      s.(queue := s.queue[1..], entries := Flush(s.env.fanout, s.queue[0], s.entries),
         stale := Settle(s.env.fanout, s.queue[0], s.stale))
    case SwitchAsid(a) => s.(asid := a)
    case Change(n, d) => Changed(s, n, d)
  }

  /** The answer a step gives to its port, if any. */
  ghost function Output(s: State, e: Event): Option<Response>
    requires s.env.Ok() && Enabled(s, e)
  {
    match e
    case Request(i, v, w) =>
      var l := Lookup(s.env.fanout, s.entries, s.asid, v);
      if l.Some? then Some(Response(s.asid, v, w, AnswerOf(l.value))) else None
    case LateHit(i) =>
      Some(Response(s.asid, s.ports[i].vpn, s.ports[i].store,
                    AnswerOf(Lookup(s.env.fanout, s.entries, s.asid, s.ports[i].vpn).value)))
    case FinishRefill(i, r) => Some(Response(s.walk.value.asid, s.ports[i].vpn, s.ports[i].store, r))
    case _ => None
  }

  // ---- invariant ----

  ghost predicate InDebt(d: Debt, a: nat, v: nat, z: nat) {
    exists y :: 0 <= y <= z && (a, v, y) in d.own
  }

  ghost predicate InGlobalDebt(d: Debt, v: nat, z: nat) {
    exists y :: 0 <= y <= z && (v, y) in d.global
  }

  /** The answer `r` of size z, given in address space `a`, is a fresh walk's for page `v`, for all
      address spaces if it is global, unless that is in debt. */
  ghost predicate AnswerOk(s: State, a: nat, v: nat, r: Answer)
    requires s.env.Ok()
  {
    && (!r.perms.g && !InDebt(s.stale, a, v, r.size) ==> Fresh(s.env, a, v, false) == r)
    && (r.perms.g && !InGlobalDebt(s.stale, v, r.size) ==> forall b: nat :: Fresh(s.env, b, v, false) == r)
  }

  ghost predicate EntryOk(s: State, e: Entry)
    requires s.env.Ok()
  {
    e.valid ==> forall v: nat :: AddrMatch(s.env.fanout, e, v) ==> AnswerOk(s, e.asid, v, AnswerOf(e))
  }

  /** The tables walked so far are still on the path of every page that shares them. */
  ghost predicate ReadingOk(s: State, a: nat, v0: nat, l: nat, p: nat)
    requires s.env.Ok()
  {
    forall v: nat :: Above(s.env.fanout, v, l + 1) == Above(s.env.fanout, v0, l + 1) ==>
      OnPath(s.env, a, v, l, p) || (a, v, 0) in s.stale.own
  }

  ghost predicate HoldingOk(s: State, a: nat, v0: nat, stop: Stop)
    requires s.env.Ok()
  {
    forall v: nat :: Above(s.env.fanout, v, stop.level) == Above(s.env.fanout, v0, stop.level) ==>
      HeldOk(s, a, v, stop)
  }

  ghost predicate HeldOk(s: State, a: nat, v: nat, stop: Stop)
    requires s.env.Ok()
  {
    var r := AnswerFrom(s.env.fanout, stop, false);
    && (!InDebt(s.stale, a, v, stop.level) ==> Walk(s.env, a, v) == stop)
    && (r.result == Hit ==> AnswerOk(s, a, v, r))
  }

  ghost predicate FlightOk(s: State)
    requires s.env.Ok()
  {
    && (forall i :: 0 <= i < |s.ports| && s.ports[i].handling ==> s.walk.Some? && s.walk.value.port == i)
    && (s.walk.Some? ==>
          var f := s.walk.value;
          && f.port < |s.ports| && s.ports[f.port].handling
          && match f.at
             case Reading(l, p) => ReadingOk(s, f.asid, s.ports[f.port].vpn, l, p)
             case Holding(stop) => HoldingOk(s, f.asid, s.ports[f.port].vpn, stop))
  }

  ghost predicate Within(a: Debt, b: Debt) {
    a.own <= b.own && a.global <= b.global
  }

  /** Whatever is stale is owed, or a waiting fence will settle it; none is settled under a walk. */
  ghost predicate DebtOk(s: State)
    requires s.env.Ok()
  {
    && (s.walk.Some? ==> Within(s.stale, s.walk.value.debt))
    && (forall x :: x in s.stale.own && x !in s.owed.own ==>
          exists f :: f in s.queue && Settles(s.env.fanout, f, x.0, x.1, x.2))
    && (forall x :: x in s.stale.global && x !in s.owed.global ==>
          exists f :: f in s.queue && SettlesGlobal(s.env.fanout, f, x.0, x.1))
  }

  ghost predicate EntriesOk(s: State)
    requires s.env.Ok()
  {
    forall i :: 0 <= i < |s.entries| ==> EntryOk(s, s.entries[i])
  }

  ghost predicate TlbInv(s: State) {
    Wf(s) && GlobalsAgree(s.env) && EntriesOk(s) && FlightOk(s) && DebtOk(s)
  }

  // ---- fences ----

  /** An entry that survives a fence loses no excuse by it. */
  lemma FlushKeeps(s: State, e: Entry)
    requires s.env.Ok() && s.queue != [] && EntryOk(s, e) && !Flushed(s.env.fanout, s.queue[0], e)
    ensures EntryOk(s.(queue := s.queue[1..], entries := Flush(s.env.fanout, s.queue[0], s.entries),
                       stale := Settle(s.env.fanout, s.queue[0], s.stale)), e)
  {
    var f := s.queue[0];
    var d := Settle(s.env.fanout, f, s.stale);
    forall v: nat | e.valid && AddrMatch(s.env.fanout, e, v)
      ensures !e.perms.g && InDebt(s.stale, e.asid, v, e.size) ==> InDebt(d, e.asid, v, e.size)
      ensures e.perms.g && InGlobalDebt(s.stale, v, e.size) ==> InGlobalDebt(d, v, e.size)
    {
      if !e.perms.g && InDebt(s.stale, e.asid, v, e.size) {
        var y :| 0 <= y <= e.size && (e.asid, v, y) in s.stale.own;
        if Above(s.env.fanout, v, y) == Above(s.env.fanout, f.vpn, y) { AgreeUp(s.env.fanout, v, f.vpn, y, e.size); }
        assert (e.asid, v, y) in d.own;
      }
      if e.perms.g && InGlobalDebt(s.stale, v, e.size) {
        var y :| 0 <= y <= e.size && (v, y) in s.stale.global;
        if Above(s.env.fanout, v, y) == Above(s.env.fanout, f.vpn, y) { AgreeUp(s.env.fanout, v, f.vpn, y, e.size); }
        assert (v, y) in d.global;
      }
    }
  }

  // ---- changes of the tables ----

  lemma ChangeAnswer(s: State, n: Tables, d: Debt, a: nat, v: nat, r: Answer)
    requires s.env.Ok() && Enabled(s, Change(n, d)) && r.result == Hit && AnswerOk(s, a, v, r)
    ensures AnswerOk(Changed(s, n, d), a, v, r)
  {
    var m := Changed(s, n, d);
    if !r.perms.g && !InDebt(m.stale, a, v, r.size) {
      KeepsClean(s, d, a, v, r.size);
      assert Fresh(s.env, a, v, false) == r;
      assert Walk(s.env, a, v).level == r.size;
      assert Walk(s.env, a, v) == Walk(n, a, v);
    }
    if r.perms.g && !InGlobalDebt(m.stale, v, r.size) {
      KeepsClean(s, d, a, v, r.size);
      forall b: nat ensures Fresh(n, b, v, false) == r {
        assert Fresh(s.env, b, v, false) == r;
        assert GlobalHit(s.env, b, v);
      }
    }
  }

  /** What is clean after a change was clean before, and the change recorded nothing on it. */
  lemma KeepsClean(s: State, d: Debt, a: nat, v: nat, z: nat)
    ensures InDebt(s.stale, a, v, z) || InDebt(d, a, v, z) ==> InDebt(Plus(s.stale, d), a, v, z)
    ensures InGlobalDebt(s.stale, v, z) || InGlobalDebt(d, v, z) ==> InGlobalDebt(Plus(s.stale, d), v, z)
    ensures forall y :: 0 <= y <= z && (a, v, y) in d.own ==> InDebt(Plus(s.stale, d), a, v, z)
    ensures forall y :: 0 <= y <= z && (v, y) in d.global ==> InGlobalDebt(Plus(s.stale, d), v, z)
  {
    var p := Plus(s.stale, d);
    forall y | 0 <= y <= z && ((a, v, y) in s.stale.own || (a, v, y) in d.own) ensures InDebt(p, a, v, z) {
      assert (a, v, y) in p.own;
    }
    forall y | 0 <= y <= z && ((v, y) in s.stale.global || (v, y) in d.global) ensures InGlobalDebt(p, v, z) {
      assert (v, y) in p.global;
    }
  }

  lemma ChangeKeeps(s: State, n: Tables, d: Debt, e: Entry)
    requires s.env.Ok() && Enabled(s, Change(n, d)) && EntryOk(s, e)
    ensures EntryOk(Changed(s, n, d), e)
  {
    if e.valid {
      forall v: nat | AddrMatch(s.env.fanout, e, v) ensures AnswerOk(Changed(s, n, d), e.asid, v, AnswerOf(e)) {
        ChangeAnswer(s, n, d, e.asid, v, AnswerOf(e));
      }
    }
  }

  lemma ChangeFlight(s: State, n: Tables, d: Debt)
    requires s.env.Ok() && Enabled(s, Change(n, d)) && FlightOk(s)
    ensures FlightOk(Changed(s, n, d))
  {
    var m := Changed(s, n, d);
    if s.walk.Some? {
      var f := s.walk.value;
      var v0 := s.ports[f.port].vpn;
      match f.at
      case Reading(l, p) =>
        forall v: nat | Above(n.fanout, v, l + 1) == Above(n.fanout, v0, l + 1)
          ensures OnPath(n, f.asid, v, l, p) || (f.asid, v, 0) in m.stale.own
        {
          if OnPath(s.env, f.asid, v, l, p) && !OnPath(n, f.asid, v, l, p) {
            assert !PathKept(s.env, n, f.asid, v);
          }
        }
      case Holding(stop) =>
        forall v: nat | Above(n.fanout, v, stop.level) == Above(n.fanout, v0, stop.level)
          ensures HeldOk(m, f.asid, v, stop)
        {
          assert HeldOk(s, f.asid, v, stop);
          KeepsClean(s, d, f.asid, v, stop.level);
          var r := AnswerFrom(n.fanout, stop, false);
          if r.result == Hit { ChangeAnswer(s, n, d, f.asid, v, r); }
        }
    }
  }

  // ---- the walk ----

  lemma {:induction false} ReachesAgrees(t: Tables, from: nat, root: nat, v: nat, w: nat, l: nat, p: nat)
    requires t.Ok() && Above(t.fanout, v, l + 1) == Above(t.fanout, w, l + 1)
    requires Reaches(t, from, root, v, l, p)
    ensures Reaches(t, from, root, w, l, p)
    decreases from
  {
    if !(from == l && root == p) {
      var n := ReadStep(t, from, root, v);
      ReachesWalk(t, n.level, n.table, v, l, p);
      AgreeUp(t.fanout, v, w, l + 1, from);
      ReachesAgrees(t, n.level, n.table, v, w, l, p);
    }
  }

  lemma StartReads(s: State, i: nat)
    requires TlbInv(s) && Enabled(s, StartRefill(i))
    ensures FlightOk(Step(s, StartRefill(i)))
  {
  }

  /** One read keeps the walk on the path of all pages that share it, or stops with their entry. */
  lemma ReadKeeps(s: State)
    requires TlbInv(s) && Enabled(s, WalkRead)
    ensures FlightOk(Step(s, WalkRead))
  {
    var f := s.walk.value;
    var v0, l, p := s.ports[f.port].vpn, f.at.level, f.at.table;
    var m := Step(s, WalkRead);
    match m.walk.value.at
    case Reading(k, q) =>
      forall v: nat | Above(s.env.fanout, v, k + 1) == Above(s.env.fanout, v0, k + 1)
        ensures OnPath(s.env, f.asid, v, k, q) || (f.asid, v, 0) in m.stale.own
      {
        AgreeUp(s.env.fanout, v, v0, k + 1, l + 1);
        AgreeUp(s.env.fanout, v, v0, k + 1, l);
        if OnPath(s.env, f.asid, v, l, p) {
          ReachesDown(s.env, s.env.levels - 1, s.env.root(f.asid), v, l, p);
        }
      }
    case Holding(stop) =>
      forall v: nat | Above(s.env.fanout, v, l) == Above(s.env.fanout, v0, l)
        ensures HeldOk(m, f.asid, v, stop)
      {
        AgreeUp(s.env.fanout, v, v0, l, l + 1);
        StopHeld(m, f.asid, v, l, p, stop);
      }
  }

  lemma StopHeld(s: State, a: nat, v: nat, l: nat, p: nat, stop: Stop)
    requires s.env.Ok() && GlobalsAgree(s.env) && ReadStep(s.env, l, p, v) == Holding(stop)
    requires OnPath(s.env, a, v, l, p) || (a, v, 0) in s.stale.own
    requires OnPath(s.env, a, v, l, p) || !GlobalLeaf(Holding(stop)) || (v, 0) in s.stale.global
    ensures HeldOk(s, a, v, stop)
  {
    if OnPath(s.env, a, v, l, p) {
      ReachesWalk(s.env, s.env.levels - 1, s.env.root(a), v, l, p);
      assert Walk(s.env, a, v) == stop;
      var r := AnswerFrom(s.env.fanout, stop, false);
      if r.result == Hit && r.perms.g { assert GlobalHit(s.env, a, v); }
    }
  }

  /** The refilled entry is right for every page it covers. */
  lemma RefillOk(s: State, i: nat, r: Answer)
    requires TlbInv(s) && Enabled(s, FinishRefill(i, r)) && r.result == Hit
    ensures EntryOk(s, EntryOf(s.walk.value.asid, s.ports[i].vpn, r))
  {
    var f := s.walk.value;
    var e := EntryOf(f.asid, s.ports[i].vpn, r);
    forall v: nat | AddrMatch(s.env.fanout, e, v) ensures AnswerOk(s, e.asid, v, AnswerOf(e)) {
      assert HeldOk(s, f.asid, v, f.at.stop);
    }
  }

  // ---- steps ----

  lemma DebtGrows(a: Debt, b: Debt, asid: nat, v: nat, z: nat)
    requires Within(a, b)
    ensures InDebt(a, asid, v, z) ==> InDebt(b, asid, v, z)
    ensures InGlobalDebt(a, v, z) ==> InGlobalDebt(b, v, z)
  {
  }

  /** With the same tables and no less debt, entries stay right. */
  lemma SameEntries(s: State, n: State)
    requires s.env.Ok() && EntriesOk(s) && n.env == s.env && Within(s.stale, n.stale)
    requires forall i :: 0 <= i < |n.entries| ==> n.entries[i] in s.entries
    ensures EntriesOk(n)
  {
    forall i | 0 <= i < |n.entries| ensures EntryOk(n, n.entries[i]) {
      var k :| 0 <= k < |s.entries| && s.entries[k] == n.entries[i];
      var e := s.entries[k];
      assert EntryOk(s, e);
      forall v: nat | e.valid && AddrMatch(s.env.fanout, e, v) ensures AnswerOk(n, e.asid, v, AnswerOf(e)) {
        DebtGrows(s.stale, n.stale, e.asid, v, e.size);
      }
    }
  }

  lemma RefillEntries(s: State, i: nat, r: Answer)
    requires TlbInv(s) && Enabled(s, FinishRefill(i, r))
    ensures EntriesOk(Step(s, FinishRefill(i, r)))
  {
    if r.result == Hit { RefillOk(s, i, r); }
    hide FlightOk; hide DebtOk; hide GlobalsAgree; hide AnswerOk; hide Agrees; hide FullMatch;
    var n := Step(s, FinishRefill(i, r));
    forall k | 0 <= k < |n.entries| ensures EntryOk(n, n.entries[k]) {
      assert EntryOk(s, n.entries[k]);
    }
  }

  lemma FlushEntries(s: State)
    requires TlbInv(s) && Enabled(s, DoFlush)
    ensures EntriesOk(Step(s, DoFlush))
  {
    hide FlightOk; hide DebtOk; hide GlobalsAgree; hide AnswerOk;
    var n := Step(s, DoFlush);
    forall k | 0 <= k < |n.entries| ensures EntryOk(n, n.entries[k]) {
      if !Flushed(s.env.fanout, s.queue[0], s.entries[k]) { FlushKeeps(s, s.entries[k]); }
    }
  }

  lemma ChangeEntries(s: State, t: Tables, d: Debt)
    requires TlbInv(s) && Enabled(s, Change(t, d))
    ensures EntriesOk(Changed(s, t, d))
  {
    var n := Changed(s, t, d);
    hide FlightOk; hide DebtOk; hide GlobalsAgree; hide EntryOk; hide Records;
    forall k | 0 <= k < |n.entries| ensures EntryOk(n, n.entries[k]) {
      ChangeKeeps(s, t, d, s.entries[k]);
    }
  }

  /** The other steps leave entries and tables alone and settle nothing. */
  lemma KeepsEntries(s: State, e: Event)
    requires Wf(s) && Enabled(s, e) && !e.FinishRefill? && !e.DoFlush? && !e.Change?
    ensures var n := Step(s, e); n.entries == s.entries && n.env == s.env && Within(s.stale, n.stale)
  {
  }

  lemma StepEntries(s: State, e: Event)
    requires TlbInv(s) && Enabled(s, e)
    ensures EntriesOk(Step(s, e))
  {
    match e {
      case FinishRefill(i, r) => RefillEntries(s, i, r);
      case DoFlush => FlushEntries(s);
      case Change(t, d) => ChangeEntries(s, t, d);
      case _ =>
        KeepsEntries(s, e);
        hide Step; hide Enabled; hide FlightOk; hide DebtOk; hide EntriesOk;
        SameEntries(s, Step(s, e));
    }
  }

  lemma StepFlight(s: State, e: Event)
    requires TlbInv(s) && Enabled(s, e)
    ensures FlightOk(Step(s, e))
  {
    match e {
      case StartRefill(i) => StartReads(s, i);
      case WalkRead => ReadKeeps(s);
      case Change(t, d) => ChangeFlight(s, t, d);
      case _ =>
    }
  }

  lemma StepDebt(s: State, e: Event)
    requires TlbInv(s) && Enabled(s, e)
    ensures DebtOk(Step(s, e))
  {
  }

  lemma StepInv(s: State, e: Event)
    requires TlbInv(s) && Enabled(s, e)
    ensures TlbInv(Step(s, e))
  {
    StepEntries(s, e);
    StepFlight(s, e);
    StepDebt(s, e);
  }

  // ---- every run ----

  ghost predicate Start(s: State) {
    && Wf(s) && GlobalsAgree(s.env) && s.queue == [] && s.walk.None? && s.stale == NO_DEBT
    && (forall i :: 0 <= i < |s.ports| ==> !s.ports[i].handling)
    && forall i :: 0 <= i < |s.entries| ==> s.entries[i] == EMPTY
  }

  ghost predicate Run(s: State, es: seq<Event>, t: State)
    requires Wf(s)
    decreases es
  {
    if es == [] then s == t else Enabled(s, es[0]) && Run(Step(s, es[0]), es[1..], t)
  }

  lemma StartInv(s: State)
    requires Start(s)
    ensures TlbInv(s)
  {
  }

  lemma {:induction false} RunInv(s: State, es: seq<Event>, t: State)
    requires TlbInv(s) && Run(s, es, t)
    ensures TlbInv(t)
    decreases es
  {
    if es != [] {
      StepInv(s, es[0]);
      RunInv(Step(s, es[0]), es[1..], t);
    }
  }

  lemma {:induction false} JoinRuns(s: State, es: seq<Event>, u: State, fs: seq<Event>, t: State)
    requires Wf(s) && Wf(u) && Run(s, es, u) && Run(u, fs, t)
    ensures Run(s, es + fs, t)
    decreases es
  {
    if es == [] {
      assert es + fs == fs;
    } else {
      assert (es + fs)[1..] == es[1..] + fs;
      JoinRuns(Step(s, es[0]), es[1..], u, fs, t);
    }
  }

  /** No change of this page in this address space is left uncovered in `d`. */
  ghost predicate Clear(d: Debt, asid: nat, v: nat) {
    forall z: nat :: (asid, v, z) !in d.own && (v, z) !in d.global
  }

  lemma ClearHasNoDebt(d: Debt, asid: nat, v: nat, z: nat)
    requires Clear(d, asid, v)
    ensures !InDebt(d, asid, v, z) && !InGlobalDebt(d, v, z)
  {
  }

  /** With no fence waiting, what is not owed is not stale. */
  lemma IssuedIsDone(s: State, asid: nat, v: nat)
    requires s.env.Ok() && DebtOk(s) && s.queue == [] && Clear(s.owed, asid, v)
    ensures Clear(s.stale, asid, v)
  {
  }

  /** What matters for an answer: for a refill the debt of its walk, for a lookup what is owed. */
  ghost function Concerns(s: State, e: Event): Debt {
    if e.FinishRefill? && s.walk.Some? then s.walk.value.debt else s.owed
  }

  ghost predicate Promised(s: State, e: Event, asid: nat, v: nat) {
    Clear(Concerns(s, e), asid, v)
  }

  /** The answer of a refill is a fresh walk's for a page without stale changes, whatever fences
      wait by then. */
  lemma RefillIsFresh(s: State, i: nat, r: Answer)
    requires TlbInv(s) && Enabled(s, FinishRefill(i, r)) && Clear(s.stale, s.walk.value.asid, s.ports[i].vpn)
    ensures Agrees(r, Fresh(s.env, s.walk.value.asid, s.ports[i].vpn, s.ports[i].store))
  {
    var f := s.walk.value;
    assert HeldOk(s, f.asid, s.ports[i].vpn, f.at.stop);
    ClearHasNoDebt(s.stale, f.asid, s.ports[i].vpn, f.at.stop.level);
  }

  /** An answer of the TLB for a page whose changes have all been fenced, by the time of the lookup
      or of the start of its refill, is the fresh answer, except that a store through a page that
      is not dirty is still reported as a hit, to be refused by its permissions. */
  lemma OutputIsFresh(s: State, e: Event)
    requires TlbInv(s) && Enabled(s, e) && Output(s, e).Some?
    ensures var o := Output(s, e).value;
            Promised(s, e, o.asid, o.vpn) ==>
              var f := Fresh(s.env, o.asid, o.vpn, o.store);
              || Agrees(o.answer, f)
              || (o.store && !o.answer.perms.d && o.answer.result == Hit && f == o.answer.(result := PageFault))
  {
    var o := Output(s, e).value;
    if Promised(s, e, o.asid, o.vpn) {
      if e.FinishRefill? {
        RefillIsFresh(s, e.port, e.answer);
      } else {
        IssuedIsDone(s, o.asid, o.vpn);
        var m := Lookup(s.env.fanout, s.entries, o.asid, o.vpn).value;
        var i :| 0 <= i < |s.entries| && s.entries[i] == m;
        assert EntryOk(s, s.entries[i]);
        ClearHasNoDebt(s.stale, o.asid, o.vpn, m.size);
        assert Fresh(s.env, o.asid, o.vpn, false) == AnswerOf(m);
        StoreVersusLoad(s.env, o.asid, o.vpn);
      }
    }
  }

  // ---- what a fence settles ----

  /** The fence covers every change still owed for a page. */
  ghost predicate Covers(s: State, f: Fence, asid: nat, v: nat)
    requires s.env.Ok()
  {
    forall z: nat ::
      && ((asid, v, z) in s.owed.own ==> Settles(s.env.fanout, f, asid, v, z))
      && ((v, z) in s.owed.global ==> SettlesGlobal(s.env.fanout, f, v, z))
  }

  /** What an event adds to what is owed. */
  ghost function Charge(s: State, e: Event): Debt
    requires s.env.Ok() && Enabled(s, e)
  {
    if e.WalkRead? then Unsettled(s, EventDebt(s, e)) else EventDebt(s, e)
  }

  /** Along the events the page is not changed, and no walk finds a global entry for it in a table
      it no longer uses, unless a waiting fence will remove what was found. */
  ghost predicate Untouched(s: State, es: seq<Event>, asid: nat, v: nat)
    requires Wf(s)
    decreases es
  {
    es != [] && Enabled(s, es[0]) ==>
      Clear(Charge(s, es[0]), asid, v) && Untouched(Step(s, es[0]), es[1..], asid, v)
  }

  ghost predicate FlightClear(s: State, asid: nat, v: nat) {
    s.walk.Some? && s.walk.value.asid == asid ==> Clear(s.walk.value.debt, asid, v)
  }

  ghost predicate Starts(es: seq<Event>) {
    exists i :: 0 <= i < |es| && es[i].StartRefill?
  }

  /** A walk whose page has no debt reads nothing torn for it. */
  lemma NothingTorn(s: State, v: nat)
    requires TlbInv(s) && Enabled(s, WalkRead)
    requires (s.walk.value.asid, v, 0) !in s.stale.own
    ensures (v, 0) !in EventDebt(s, WalkRead).global
  {
    var f := s.walk.value;
    var v0, l, p := s.ports[f.port].vpn, f.at.level, f.at.table;
    if Above(s.env.fanout, v, l) == Above(s.env.fanout, v0, l) {
      AgreeUp(s.env.fanout, v, v0, l, l + 1);
      assert OnPath(s.env, f.asid, v, l, p);
    }
  }

  lemma ReadStaysClear(s: State, asid: nat, v: nat)
    requires TlbInv(s) && Enabled(s, WalkRead) && Clear(Charge(s, WalkRead), asid, v) && Clear(s.owed, asid, v)
    ensures Clear(Step(s, WalkRead).owed, asid, v)
    ensures FlightClear(s, asid, v) ==> FlightClear(Step(s, WalkRead), asid, v)
  {
    if FlightClear(s, asid, v) && s.walk.value.asid == asid {
      assert (asid, v, 0) !in s.walk.value.debt.own;
      NothingTorn(s, v);
    }
  }

  lemma StepStaysClear(s: State, e: Event, asid: nat, v: nat)
    requires TlbInv(s) && Enabled(s, e) && Clear(Charge(s, e), asid, v) && Clear(s.owed, asid, v)
    ensures Clear(Step(s, e).owed, asid, v)
    ensures FlightClear(s, asid, v) || e.StartRefill? ==> FlightClear(Step(s, e), asid, v)
  {
    if e.WalkRead? {
      ReadStaysClear(s, asid, v);
    } else {
      hide TlbInv;
    }
  }

  /** A page with nothing owed stays so, and so does what a refill started meanwhile depends on. */
  lemma {:induction false} StaysClear(s: State, es: seq<Event>, t: State, asid: nat, v: nat)
    requires TlbInv(s) && Run(s, es, t) && Untouched(s, es, asid, v) && Clear(s.owed, asid, v)
    ensures Clear(t.owed, asid, v)
    ensures FlightClear(s, asid, v) || Starts(es) ==> FlightClear(t, asid, v)
    decreases es
  {
    if es != [] {
      var n := Step(s, es[0]);
      StepStaysClear(s, es[0], asid, v);
      StepInv(s, es[0]);
      StaysClear(n, es[1..], t, asid, v);
      if Starts(es) && !es[0].StartRefill? {
        var i :| 0 <= i < |es| && es[i].StartRefill?;
        assert es[1..][i - 1].StartRefill?;
      }
    }
  }

  /** A refill is worth its walk: right after it every page of the superpage hits, in every address
      space if the entry is global. */
  lemma RefillThenHit(s: State, i: nat, r: Answer, a: nat, v: nat)
    requires Wf(s) && Enabled(s, FinishRefill(i, r)) && r.result == Hit
    requires Above(s.env.fanout, v, r.size) == Above(s.env.fanout, s.ports[i].vpn, r.size)
    requires a == s.walk.value.asid || r.perms.g
    ensures var n := Step(s, FinishRefill(i, r)); Lookup(n.env.fanout, n.entries, a, v).Some?
  {
    var n := Step(s, FinishRefill(i, r));
    var w := Victim(s.env.fanout, s.entries, s.rr, s.walk.value.asid, s.ports[i].vpn);
    assert n.entries[w] == EntryOf(s.walk.value.asid, s.ports[i].vpn, r);
    assert n.entries[w] in n.entries && FullMatch(s.env.fanout, n.entries[w], a, v);
  }

  // ---- fences software can rely on ----

  /** A change records nothing on the page, in any address space. */
  ghost predicate Spares(d: Debt, v: nat) {
    (forall a: nat, z: nat :: (a, v, z) !in d.own) && forall z: nat :: (v, z) !in d.global
  }

  /** No change among the events concerns the page. */
  ghost predicate Unchanged(es: seq<Event>, v: nat) {
    forall i :: 0 <= i < |es| && es[i].Change? ==> Spares(es[i].debt, v)
  }

  predicate Full(f: Fence) {
    f.allAsids && f.allVpns
  }

  /** A full fence is still to come, or no address space has anything stale on the page. */
  ghost predicate Guarded(s: State, v: nat) {
    (exists f :: f in s.queue && Full(f)) || forall a: nat, z: nat :: (a, v, z) !in s.stale.own
  }

  lemma GuardedCharge(s: State, e: Event, v: nat)
    requires TlbInv(s) && Enabled(s, e) && Guarded(s, v) && (e.Change? ==> Spares(e.debt, v))
    ensures forall asid: nat :: Clear(Charge(s, e), asid, v)
  {
    if e.WalkRead? {
      if f :| f in s.queue && Full(f) {
        forall z: nat ensures SettlesGlobal(s.env.fanout, f, v, z) { }
      } else {
        NothingTorn(s, v);
      }
    }
  }

  lemma GuardedStep(s: State, e: Event, v: nat)
    requires Wf(s) && Enabled(s, e) && Guarded(s, v) && (e.Change? ==> Spares(e.debt, v))
    ensures Guarded(Step(s, e), v)
  {
    var n := Step(s, e);
    if f :| f in s.queue && Full(f) {
      if e.DoFlush? && f == s.queue[0] {
        forall a: nat, z: nat ensures (a, v, z) !in n.stale.own { assert Settles(s.env.fanout, f, a, v, z); }
      } else {
        assert f in n.queue;
      }
    }
  }

  /** After a full fence nothing but a new change touches the page: what walks find meanwhile, the
      fence removes. */
  lemma {:induction false} GuardedRun(s: State, es: seq<Event>, t: State, asid: nat, v: nat)
    requires TlbInv(s) && Run(s, es, t) && Guarded(s, v) && Unchanged(es, v)
    ensures Untouched(s, es, asid, v)
    decreases es
  {
    if es != [] {
      GuardedCharge(s, es[0], v);
      GuardedStep(s, es[0], v);
      StepInv(s, es[0]);
      assert forall i :: 0 <= i < |es| - 1 ==> es[1..][i] == es[i + 1];
      GuardedRun(Step(s, es[0]), es[1..], t, asid, v);
    }
  }

  /** No entry that can be read is marked global. */
  ghost predicate Plain(t: Tables) {
    forall addr :: t.read(addr).BusData? ==> !t.read(addr).pte.g
  }

  /** The events keep the tables free of global entries, and record nothing global on the page. */
  ghost predicate PlainEvents(es: seq<Event>, v: nat) {
    forall i :: 0 <= i < |es| && es[i].Change? ==>
      Plain(es[i].env) && forall z: nat :: (v, z) !in es[i].debt.global
  }

  lemma PlainIsNotTorn(t: Tables, a: nat, v0: nat, l: nat, p: nat)
    requires t.Ok() && Plain(t)
    ensures Torn(t, a, v0, l, p).global == iset{}
  {
    assert !GlobalLeaf(ReadStep(t, l, p, v0));
  }

  lemma PlainStep(s: State, e: Event, v: nat)
    requires Wf(s) && Enabled(s, e) && Plain(s.env)
    requires e.Change? ==> Plain(e.env) && forall z: nat :: (v, z) !in e.debt.global
    requires forall z: nat :: (v, z) !in s.owed.global
    ensures Plain(Step(s, e).env) && forall z: nat :: (v, z) !in Step(s, e).owed.global
    ensures forall z: nat :: (v, z) !in Charge(s, e).global
    ensures e.WalkRead? ==> forall asid: nat :: Clear(Charge(s, e), asid, v)
  {
    if e.WalkRead? {
      var f := s.walk.value;
      PlainIsNotTorn(s.env, f.asid, s.ports[f.port].vpn, f.at.level, f.at.table);
    }
  }

  /** Without global entries nothing global is ever owed. */
  lemma {:induction false} PlainRun(s: State, es: seq<Event>, t: State, v: nat)
    requires Wf(s) && Run(s, es, t) && Plain(s.env) && PlainEvents(es, v) && forall z: nat :: (v, z) !in s.owed.global
    ensures Plain(t.env) && forall z: nat :: (v, z) !in t.owed.global
    decreases es
  {
    if es != [] {
      assert es[0].Change? ==> Plain(es[0].env) && forall z: nat :: (v, z) !in es[0].debt.global;
      PlainStep(s, es[0], v);
      assert forall i :: 0 <= i < |es| - 1 ==> es[1..][i] == es[i + 1];
      PlainRun(Step(s, es[0]), es[1..], t, v);
    }
  }

  /** No change among the events concerns the page in one address space. */
  ghost predicate UnchangedIn(es: seq<Event>, asid: nat, v: nat) {
    forall i :: 0 <= i < |es| && es[i].Change? ==> Clear(es[i].debt, asid, v)
  }

  lemma {:induction false} PlainUntouched(s: State, es: seq<Event>, t: State, asid: nat, v: nat)
    requires Wf(s) && Run(s, es, t) && Plain(s.env) && PlainEvents(es, v) && UnchangedIn(es, asid, v)
    requires forall z: nat :: (v, z) !in s.owed.global
    ensures Untouched(s, es, asid, v)
    decreases es
  {
    if es != [] {
      assert es[0].Change? ==> Plain(es[0].env) && Clear(es[0].debt, asid, v);
      PlainStep(s, es[0], v);
      assert forall i :: 0 <= i < |es| - 1 ==> es[1..][i] == es[i + 1];
      PlainUntouched(Step(s, es[0]), es[1..], t, asid, v);
    }
  }
}
