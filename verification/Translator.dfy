/** The address translator: canonical-address and permission checks around a TLB answer. */
module Translator {
  import opened PageTable
  import opened Tlb
  import opened Powers

  /** Machine state a translation depends on besides the tables. `signUnit` and `signMax` give
      the unit and the all-ones value of the bits that must repeat the top page number bit. */
  datatype Context = Context(instruction: bool, user: bool, mxr: bool, sum: bool, bare: bool,
                             signUnit: nat, signMax: nat)

  datatype Result = Result(page: nat, pageFault: bool, accessFault: bool)

  predicate VpnInvalid(c: Context, v: nat)
    requires c.signUnit > 0
  {
    var top := v / c.signUnit;
    top != 0 && top != c.signMax
  }

  /** Read, write and execute rights, with MXR; a store also needs the dirty bit. */
  predicate RightsFault(c: Context, store: bool, p: Perms) {
    if c.instruction then !p.x
    else if store then !p.w || !p.d
    else !p.r && !(c.mxr && p.x)
  }

  /** User and supervisor pages; SUM does not affect instruction fetches. */
  predicate PrivilegeFault(c: Context, p: Perms) {
    if c.instruction then c.user != p.u
    else if c.user then !p.u
    else p.u && !c.sum
  }

  /** The accept method, given what the TLB answered. */
  function Accept(fanout: nat, maxPpn: nat, c: Context, v: nat, store: bool, r: Answer): Result
    requires fanout > 0 && c.signUnit > 0
  {
    if c.bare then Result(v, false, v > maxPpn)
    else if VpnInvalid(c, v) then Result(0, true, false)
    else
      var access := r.result == AccessFault;
      var page := r.result == PageFault || RightsFault(c, store, r.perms) || PrivilegeFault(c, r.perms);
      Result(Splice(fanout, v, r.ppn, r.size), page && !access, access)
  }

  /** Same fault flags, and the same page when there is no fault. */
  ghost predicate SameOutcome(a: Result, b: Result) {
    a.pageFault == b.pageFault && a.accessFault == b.accessFault
    && (!a.pageFault && !a.accessFault ==> a.page == b.page)
  }

  lemma SameAccept(fanout: nat, maxPpn: nat, c: Context, v: nat, store: bool, r: Answer, f: Answer)
    requires fanout > 0 && c.signUnit > 0 && (c.instruction ==> !store)
    requires Agrees(r, f) || (store && !r.perms.d && r.result == Hit && f == r.(result := PageFault))
    ensures SameOutcome(Accept(fanout, maxPpn, c, v, store, r), Accept(fanout, maxPpn, c, v, store, f))
  {
  }

  /** The TLB is invisible. For every run of requests, walks, refills, fences, address space
      switches and page table changes, also under a walk, an answer for a page whose changes have
      all been covered by fences issued before its lookup, or before its refill started, leads to
      the same outcome as a fresh page walk, in every context. */
  lemma TlbIsInvisible(s: State, es: seq<Event>, t: State, e: Event, c: Context)
    requires Start(s) && Run(s, es, t) && t.env.Ok() && Enabled(t, e) && Output(t, e).Some?
    requires c.signUnit > 0 && (c.instruction ==> !Output(t, e).value.store)
    ensures var o := Output(t, e).value;
            Promised(t, e, o.asid, o.vpn) ==>
              SameOutcome(Accept(t.env.fanout, t.env.maxPpn, c, o.vpn, o.store, o.answer),
                          Accept(t.env.fanout, t.env.maxPpn, c, o.vpn, o.store,
                                 Fresh(t.env, o.asid, o.vpn, o.store)))
  {
    StartInv(s);
    RunInv(s, es, t);
    OutputIsFresh(t, e);
    var o := Output(t, e).value;
    if Promised(t, e, o.asid, o.vpn) {
      SameAccept(t.env.fanout, t.env.maxPpn, c, o.vpn, o.store, o.answer, Fresh(t.env, o.asid, o.vpn, o.store));
    }
  }

  /** SFENCE.VMA at work: issue a fence covering what is owed for a page, then run on without
      changing that page. Every answer to a lookup of the page, from the very next step on, and
      every answer of a refill started since, has the outcome of a fresh walk, although the fence,
      or later ones, may still be waiting for a refill. */
  lemma FencedIsInvisible(s: State, es: seq<Event>, u: State, f: Fence, fs: seq<Event>, t: State, e: Event, c: Context)
    requires Start(s) && Run(s, es, u) && u.env.Ok() && Wf(u)
    requires Run(Step(u, Enqueue(f)), fs, t) && t.env.Ok() && Enabled(t, e) && Output(t, e).Some?
    requires e.FinishRefill? ==> Starts(fs)
    requires c.signUnit > 0 && (c.instruction ==> !Output(t, e).value.store)
    ensures var o := Output(t, e).value;
            Covers(u, f, o.asid, o.vpn) && Untouched(Step(u, Enqueue(f)), fs, o.asid, o.vpn) ==>
              SameOutcome(Accept(t.env.fanout, t.env.maxPpn, c, o.vpn, o.store, o.answer),
                          Accept(t.env.fanout, t.env.maxPpn, c, o.vpn, o.store,
                                 Fresh(t.env, o.asid, o.vpn, o.store)))
  {
    var o, n := Output(t, e).value, Step(u, Enqueue(f));
    if Covers(u, f, o.asid, o.vpn) && Untouched(n, fs, o.asid, o.vpn) {
      StartInv(s);
      RunInv(s, es, u);
      StepInv(u, Enqueue(f));
      StaysClear(n, fs, t, o.asid, o.vpn);
      JoinRuns(s, es, u, [Enqueue(f)] + fs, t);
      TlbIsInvisible(s, es + ([Enqueue(f)] + fs), t, e, c);
    }
  }

  /** SFENCE.VMA for everything always suffices: from the step after it is issued, as long as no
      change of the tables concerns a page, lookups of the page and refills started since are
      answered as by a fresh walk. What walks under way find in tables abandoned before the fence
      is removed by it. */
  lemma FullFenceIsInvisible(s: State, es: seq<Event>, u: State, f: Fence, fs: seq<Event>, t: State, e: Event,
                             c: Context)
    requires Start(s) && Run(s, es, u) && u.env.Ok() && Wf(u) && Full(f)
    requires Run(Step(u, Enqueue(f)), fs, t) && t.env.Ok() && Enabled(t, e) && Output(t, e).Some?
    requires e.FinishRefill? ==> Starts(fs)
    requires c.signUnit > 0 && (c.instruction ==> !Output(t, e).value.store)
    ensures var o := Output(t, e).value;
            Unchanged(fs, o.vpn) ==>
              SameOutcome(Accept(t.env.fanout, t.env.maxPpn, c, o.vpn, o.store, o.answer),
                          Accept(t.env.fanout, t.env.maxPpn, c, o.vpn, o.store,
                                 Fresh(t.env, o.asid, o.vpn, o.store)))
  {
    var o, n := Output(t, e).value, Step(u, Enqueue(f));
    if Unchanged(fs, o.vpn) {
      StartInv(s);
      RunInv(s, es, u);
      StepInv(u, Enqueue(f));
      assert f in n.queue;
      GuardedRun(n, fs, t, o.asid, o.vpn);
      FencedIsInvisible(s, es, u, f, fs, t, e, c);
    }
  }

  /** SFENCE.VMA for one address space suffices for it where no readable entry is marked global: the
      exception needs a global entry in an abandoned table. */
  lemma OneSpaceIsInvisible(s: State, es: seq<Event>, u: State, f: Fence, fs: seq<Event>, t: State, e: Event,
                            c: Context)
    requires Start(s) && s.owed == NO_DEBT && Run(s, es, u) && u.env.Ok() && Wf(u) && f.allVpns
    requires Run(Step(u, Enqueue(f)), fs, t) && t.env.Ok() && Enabled(t, e) && Output(t, e).Some?
    requires e.FinishRefill? ==> Starts(fs)
    requires c.signUnit > 0 && (c.instruction ==> !Output(t, e).value.store)
    requires Plain(s.env)
    ensures var o := Output(t, e).value;
            o.asid == f.asid && PlainEvents(es + fs, o.vpn) && UnchangedIn(fs, o.asid, o.vpn) ==>
              SameOutcome(Accept(t.env.fanout, t.env.maxPpn, c, o.vpn, o.store, o.answer),
                          Accept(t.env.fanout, t.env.maxPpn, c, o.vpn, o.store,
                                 Fresh(t.env, o.asid, o.vpn, o.store)))
  {
    var o, n := Output(t, e).value, Step(u, Enqueue(f));
    if o.asid == f.asid && PlainEvents(es + fs, o.vpn) && UnchangedIn(fs, o.asid, o.vpn) {
      assert PlainEvents(es, o.vpn) by { assert forall i :: 0 <= i < |es| ==> (es + fs)[i] == es[i]; }
      assert PlainEvents(fs, o.vpn) by { assert forall i :: 0 <= i < |fs| ==> (es + fs)[|es| + i] == fs[i]; }
      PlainRun(s, es, u, o.vpn);
      PlainStep(u, Enqueue(f), o.vpn);
      PlainUntouched(n, fs, t, o.asid, o.vpn);
      FencedIsInvisible(s, es, u, f, fs, t, e, c);
    }
  }

  /** A fence for one address covers a changed superpage leaf for all its pages. */
  lemma OneAddressCoversSuperpage(u: State, f: Fence, asid: nat, v: nat, z: nat)
    requires u.env.Ok() && f.asid == asid && Above(u.env.fanout, v, z) == Above(u.env.fanout, f.vpn, z)
    requires forall y: nat :: (asid, v, y) in u.owed.own ==> y >= z
    requires forall y: nat :: (v, y) !in u.owed.global
    ensures Covers(u, f, asid, v)
  {
    forall y: nat | (asid, v, y) in u.owed.own ensures NamesPage(u.env.fanout, f, v, y) {
      AgreeUp(u.env.fanout, v, f.vpn, z, y);
    }
  }

  /** The lowest levels of the translated page come from the virtual page, the rest from the
      leaf: removing the low levels of the result gives the leaf's frame. */
  lemma {:induction false} SpliceAbove(fanout: nat, v: nat, p: nat, l: nat)
    requires fanout > 0
    ensures Above(fanout, Splice(fanout, v, p, l), l) == Above(fanout, p, l)
    decreases l
  {
    if l > 0 {
      SpliceAbove(fanout, v / fanout, p / fanout, l - 1);
      var q := Splice(fanout, v / fanout, p / fanout, l - 1);
      SplitUnique(v % fanout + fanout * q, fanout, q, v % fanout);
      AboveShift(fanout, Splice(fanout, v, p, l), l);
      AboveShift(fanout, p, l);
    }
  }

  lemma {:induction false} AboveShift(fanout: nat, v: nat, l: nat)
    requires fanout > 0 && l > 0
    ensures Above(fanout, v, l) == Above(fanout, v / fanout, l - 1)
    decreases l
  {
    if l > 1 {
      AboveShift(fanout, v, l - 1);
    }
  }
}
