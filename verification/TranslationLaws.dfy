/** What address translation means in entry bits and page numbers: which accesses succeed and where
    they go, in the terms of section 4.3.2 of the RISC-V Privileged Architecture. */
module TranslationLaws {
  import opened PageTable
  import opened Tlb
  import opened Translator
  import opened Powers

  // ---- page numbers ----

  /** Pages covered by an entry at level `l`. */
  function Weight(fanout: nat, l: nat): (w: nat)
    requires fanout > 0
    ensures w > 0
  {
    if l == 0 then 1 else Weight(fanout, l - 1) * fanout
  }

  lemma DivTwice(v: nat, a: nat, b: nat)
    requires a > 0 && b > 0
    ensures a * b > 0 && v / a / b == v / (a * b) && v % (a * b) == v / a % b * a + v % a
  {
    var q, r := v / a, v % a;
    var h, m := q / b, q % b;
    Split(v, a);
    Split(q, b);
    assert v == (h * b + m) * a + r;
    assert (h * b + m) * a == h * (a * b) + m * a;
    BelowScaled(m, b, a, r);
    assert b * a == a * b;
    SplitUnique(v, a * b, h, m * a + r);
  }

  /** Dropping levels is division by the level's weight; an index is one digit. */
  lemma {:induction false} AboveIsQuotient(fanout: nat, v: nat, l: nat)
    requires fanout > 0
    ensures Above(fanout, v, l) == v / Weight(fanout, l)
    ensures Index(fanout, v, l) == v / Weight(fanout, l) % fanout
    ensures v % Weight(fanout, l + 1) == Index(fanout, v, l) * Weight(fanout, l) + v % Weight(fanout, l)
    decreases l
  {
    if l > 0 {
      AboveIsQuotient(fanout, v, l - 1);
      DivTwice(v, Weight(fanout, l - 1), fanout);
    }
    DivTwice(v, Weight(fanout, l), fanout);
  }

  /** Low levels are zero exactly when the weight divides. */
  lemma {:induction false} LowZeroIsMultiple(fanout: nat, v: nat, l: nat)
    requires fanout > 0
    ensures LowZero(fanout, v, l) <==> v % Weight(fanout, l) == 0
    decreases l
  {
    if l > 0 {
      var w := Weight(fanout, l - 1);
      LowZeroIsMultiple(fanout, v / fanout, l - 1);
      DivTwice(v, fanout, w);
      assert fanout * w == w * fanout;
      var x := v / fanout % w;
      if x > 0 { ScaleMono(1, x, fanout); }
    }
  }

  lemma Regroup(f: nat, a: nat, b: nat, w: nat, r: nat)
    ensures r + f * (a * w + b) == a * (w * f) + (b * f + r)
  {
  }

  /** The translated page: the frame's part above the level, the page's own part below. */
  lemma {:induction false} SpliceIsSum(fanout: nat, v: nat, p: nat, l: nat)
    requires fanout > 0
    ensures Splice(fanout, v, p, l) == p / Weight(fanout, l) * Weight(fanout, l) + v % Weight(fanout, l)
    decreases l
  {
    if l > 0 {
      var w := Weight(fanout, l - 1);
      SpliceIsSum(fanout, v / fanout, p / fanout, l - 1);
      DivTwice(v, fanout, w);
      DivTwice(p, fanout, w);
      assert fanout * w == w * fanout == Weight(fanout, l);
      Regroup(fanout, p / fanout / w, v / fanout % w, w, v % fanout);
    }
  }

  // ---- entries ----

  predicate Pointer(p: Pte, maxPpn: nat) {
    p.v && !p.r && !p.w && !p.x && !p.a && !p.d && !p.u && !p.reserved && p.ppn <= maxPpn
  }

  predicate Mapping(p: Pte, maxPpn: nat) {
    p.v && (p.r || p.x) && (p.w ==> p.r) && !p.reserved && p.ppn <= maxPpn
  }

  /** Well formed, but beyond physical memory. */
  predicate Outside(p: Pte, maxPpn: nat) {
    p.v && (p.w ==> p.r) && !p.reserved && (p.r || p.x || !(p.a || p.d || p.u)) && p.ppn > maxPpn
  }

  /** What a walk does with a fetched entry, bit by bit. */
  lemma EntryBits(maxPpn: nat, p: Pte, l: nat)
    ensures var n := FromBus(maxPpn, BusData(p), l);
            && (n == Holding(Found(p, l)) <==> Mapping(p, maxPpn))
            && (n.Reading? <==> Pointer(p, maxPpn) && l > 0)
            && (n.Reading? ==> n == Reading(l - 1, p.ppn))
            && (n == Holding(NoAccess(l)) <==> Outside(p, maxPpn))
            && (n.Holding? && n.stop.Found? ==> n.stop.pte == p)
  {
  }

  // ---- walks ----

  /** Where the i-th entry of a walk lies, the entries before it being `path`. */
  function EntryAt(t: Tables, root: nat, top: nat, v: nat, path: seq<Pte>, i: nat): nat
    requires t.Ok() && i <= |path| && i <= top
  {
    (if i == 0 then root else path[i - 1].ppn) * t.fanout + v / Weight(t.fanout, top - i) % t.fanout
  }

  /** `path` leads down from the root at level `top`. */
  ghost predicate Leads(t: Tables, root: nat, top: nat, v: nat, path: seq<Pte>)
    requires t.Ok()
  {
    |path| <= top && forall i :: 0 <= i < |path| ==>
      && t.pmpOk(EntryAt(t, root, top, v, path, i)) && t.read(EntryAt(t, root, top, v, path, i)) == BusData(path[i])
      && Pointer(path[i], t.maxPpn)
  }

  /** It ends at the mapping `p`. */
  ghost predicate MapsTo(t: Tables, root: nat, top: nat, v: nat, path: seq<Pte>, p: Pte)
    requires t.Ok()
  {
    && Leads(t, root, top, v, path)
    && t.pmpOk(EntryAt(t, root, top, v, path, |path|)) && t.read(EntryAt(t, root, top, v, path, |path|)) == BusData(p)
    && Mapping(p, t.maxPpn)
  }

  /** It ends where memory may not or cannot be read, or at a frame that does not exist. */
  ghost predicate Denied(t: Tables, root: nat, top: nat, v: nat, path: seq<Pte>)
    requires t.Ok()
  {
    Leads(t, root, top, v, path) &&
    var addr := EntryAt(t, root, top, v, path, |path|);
    !t.pmpOk(addr) || t.read(addr).BusError? || Outside(t.read(addr).pte, t.maxPpn)
  }

  lemma LeadsDown(t: Tables, root: nat, top: nat, v: nat, path: seq<Pte>)
    requires t.Ok() && path != [] && |path| <= top
    ensures Leads(t, root, top, v, path) <==>
              && t.pmpOk(EntryAt(t, root, top, v, path, 0))
              && t.read(EntryAt(t, root, top, v, path, 0)) == BusData(path[0])
              && Pointer(path[0], t.maxPpn) && Leads(t, path[0].ppn, top - 1, v, path[1..])
    ensures EntryAt(t, root, top, v, path, |path|) == EntryAt(t, path[0].ppn, top - 1, v, path[1..], |path| - 1)
  {
    var first, low, rest := path[0].ppn, top - 1, path[1..];
    assert forall i :: 0 <= i < |path| ==> EntryAt(t, first, low, v, rest, i) == EntryAt(t, root, top, v, path, i + 1);
    hide EntryAt; hide Pointer;
    if Leads(t, path[0].ppn, top - 1, v, path[1..]) {
      forall i | 1 <= i < |path|
        ensures t.pmpOk(EntryAt(t, root, top, v, path, i))
        ensures t.read(EntryAt(t, root, top, v, path, i)) == BusData(path[i]) && Pointer(path[i], t.maxPpn)
      {
        assert path[1..][i - 1] == path[i];
        assert EntryAt(t, path[0].ppn, top - 1, v, path[1..], i - 1) == EntryAt(t, root, top, v, path, i);
      }
    }
  }

  /** One read of a walk. */
  lemma ReadIs(t: Tables, l: nat, table: nat, v: nat, path: seq<Pte>)
    requires t.Ok()
    ensures var addr := EntryAt(t, table, l, v, path, 0); var n := ReadStep(t, l, table, v);
            if t.pmpOk(addr) && t.read(addr).BusData? then
              var p := t.read(addr).pte;
              && (n == Holding(Found(p, l)) <==> Mapping(p, t.maxPpn))
              && (n.Reading? <==> Pointer(p, t.maxPpn) && l > 0)
              && (n.Reading? ==> n == Reading(l - 1, p.ppn))
              && (n == Holding(NoAccess(l)) <==> Outside(p, t.maxPpn))
              && (n.Holding? && n.stop.Found? ==> n.stop.pte == p)
            else n == Holding(NoAccess(l))
  {
    AboveIsQuotient(t.fanout, v, l);
    var addr := EntryAt(t, table, l, v, path, 0);
    if t.read(addr).BusData? { EntryBits(t.maxPpn, t.read(addr).pte, l); }
  }

  /** A chain of entries decides what the walk comes to. */
  lemma {:induction false} PathDecides(t: Tables, l: nat, table: nat, v: nat, path: seq<Pte>, p: Pte)
    requires t.Ok()
    ensures MapsTo(t, table, l, v, path, p) ==> WalkFrom(t, l, table, v) == Found(p, l - |path|)
    ensures Denied(t, table, l, v, path) ==> WalkFrom(t, l, table, v) == NoAccess(l - |path|)
    decreases l
  {
    hide EntryAt; hide ReadStep; hide FromBus; hide Mapping; hide Pointer; hide Outside;
    ReadIs(t, l, table, v, path);
    if path != [] && Leads(t, table, l, v, path) {
      LeadsDown(t, table, l, v, path);
      PathDecides(t, l - 1, path[0].ppn, v, path[1..], p);
    }
  }

  /** Every walk that finds a mapping or is denied access has such a chain. */
  lemma {:induction false} WalkHasPath(t: Tables, l: nat, table: nat, v: nat) returns (path: seq<Pte>)
    requires t.Ok()
    ensures var s := WalkFrom(t, l, table, v);
            && |path| == l - s.level
            && (s.Found? ==> MapsTo(t, table, l, v, path, s.pte))
            && (s.NoAccess? ==> Denied(t, table, l, v, path))
    decreases l
  {
    hide EntryAt; hide FromBus; hide Mapping; hide Pointer; hide Outside;
    ReadIs(t, l, table, v, []);
    var n := ReadStep(t, l, table, v);
    path := [];
    if n.Reading? {
      var p := t.read(EntryAt(t, table, l, v, [], 0)).pte;
      var rest := WalkHasPath(t, n.level, n.table, v);
      path := [p] + rest;
      assert path[1..] == rest;
      FirstEntry(t, table, l, v, path);
      LeadsDown(t, table, l, v, path);
    }
    hide ReadStep;
  }

  lemma FirstEntry(t: Tables, root: nat, top: nat, v: nat, path: seq<Pte>)
    requires t.Ok()
    ensures EntryAt(t, root, top, v, path, 0) == EntryAt(t, root, top, v, [], 0)
  {
  }

  // ---- accesses ----

  /** Fetches need X on a page of their own privilege; stores need W and D, loads R, or X with MXR;
      users need U, and the supervisor must not touch user data unless SUM allows it. */
  predicate Allowed(c: Context, store: bool, p: Pte) {
    && p.a
    && (c.instruction ==> p.x && (p.u <==> c.user))
    && (!c.instruction && store ==> p.w && p.d)
    && (!c.instruction && !store ==> p.r || (c.mxr && p.x))
    && (!c.instruction && c.user ==> p.u)
    && (!c.instruction && !c.user && p.u ==> c.sum)
  }

  ghost predicate Maps(t: Tables, asid: nat, v: nat, path: seq<Pte>, p: Pte)
    requires t.Ok()
  {
    MapsTo(t, t.root(asid), t.levels - 1, v, path, p)
  }

  ghost predicate Refuses(t: Tables, asid: nat, v: nat, path: seq<Pte>)
    requires t.Ok()
  {
    Denied(t, t.root(asid), t.levels - 1, v, path)
  }

  /** The tables map `v` through `path` to `p`, an aligned entry that allows the access. */
  ghost predicate Grants(t: Tables, asid: nat, v: nat, store: bool, c: Context, path: seq<Pte>, p: Pte)
    requires t.Ok()
  {
    && Maps(t, asid, v, path, p)
    && p.ppn % Weight(t.fanout, t.levels - 1 - |path|) == 0
    && Allowed(c, store, p)
  }

  /** The meaning of an outcome in the tables' own terms. */
  ghost predicate Prescribed(t: Tables, asid: nat, v: nat, store: bool, c: Context, r: Result)
    requires t.Ok()
  {
    && (!r.pageFault && !r.accessFault <==> exists path, p :: Grants(t, asid, v, store, c, path, p))
    && (!r.pageFault && !r.accessFault ==>
          forall path, p :: Grants(t, asid, v, store, c, path, p) ==>
            r.page == p.ppn + v % Weight(t.fanout, t.levels - 1 - |path|))
    && (r.accessFault <==> exists path :: Refuses(t, asid, v, path))
    && !(r.accessFault && r.pageFault)
  }

  /** A leaf that was found answers as its bits say. */
  lemma FoundOutcome(t: Tables, c: Context, v: nat, store: bool, p: Pte, l: nat)
    requires t.Ok() && c.signUnit > 0 && !c.bare && !VpnInvalid(c, v) && (c.instruction ==> !store)
    ensures var r := Accept(t.fanout, t.maxPpn, c, v, store, AnswerFrom(t.fanout, Found(p, l), store));
            && !r.accessFault
            && (!r.pageFault <==> p.ppn % Weight(t.fanout, l) == 0 && Allowed(c, store, p))
            && (!r.pageFault ==> r.page == p.ppn + v % Weight(t.fanout, l))
  {
    LowZeroIsMultiple(t.fanout, p.ppn, l);
    SpliceIsSum(t.fanout, v, p.ppn, l);
    Split(p.ppn, Weight(t.fanout, l));
    hide LowZero; hide Splice; hide Weight;
  }

  /** The walk finds the entry the tables map the page to, and there is at most one. */
  lemma WalkIsChain(t: Tables, asid: nat, v: nat) returns (path: seq<Pte>)
    requires t.Ok()
    ensures var s := Walk(t, asid, v);
            && |path| == t.levels - 1 - s.level
            && (s.Found? ==> Maps(t, asid, v, path, s.pte)) && (s.NoAccess? ==> Refuses(t, asid, v, path))
            && (forall q, p :: Maps(t, asid, v, q, p) ==> s == Found(p, t.levels - 1 - |q|))
            && (forall q :: Refuses(t, asid, v, q) ==> s.NoAccess?)
  {
    var top, root := t.levels - 1, t.root(asid);
    path := WalkHasPath(t, top, root, v);
    forall q, p | Maps(t, asid, v, q, p) ensures Walk(t, asid, v) == Found(p, top - |q|) {
      PathDecides(t, top, root, v, q, p);
    }
    forall q | Refuses(t, asid, v, q) ensures Walk(t, asid, v).NoAccess? { PathDecides(t, top, root, v, q, EMPTY); }
  }

  /** Exactly the accesses the entries allow succeed, at the page the entry and the page number's
      low levels give; exactly the walks that must not or cannot read are access faults. */
  lemma AccessSucceeds(t: Tables, asid: nat, v: nat, store: bool, c: Context)
    requires t.Ok() && c.signUnit > 0 && !c.bare && !VpnInvalid(c, v) && (c.instruction ==> !store)
    ensures Prescribed(t, asid, v, store, c,
                       Accept(t.fanout, t.maxPpn, c, v, store, Fresh(t, asid, v, store)))
  {
    var s := Walk(t, asid, v);
    var r := Accept(t.fanout, t.maxPpn, c, v, store, Fresh(t, asid, v, store));
    var path := WalkIsChain(t, asid, v);
    assert s.NoAccess? <==> r.accessFault;
    assert s.NoPage? ==> r.pageFault;
    hide Maps; hide Refuses; hide Allowed; hide Weight; hide Walk; hide VpnInvalid;
    if s.Found? {
      FoundOutcome(t, c, v, store, s.pte, s.level);
      assert !r.pageFault ==> Grants(t, asid, v, store, c, path, s.pte);
    }
    hide Accept;
  }

  const EMPTY := Pte(false, false, false, false, false, false, false, false, false, 0)

  /** An address is canonical exactly when it is the sign extension of its lower part; anything else
      page faults whatever the tables say. */
  lemma Canonical(c: Context, n: nat, e: nat, v: nat)
    requires n > 0 && c.signUnit == Pow2(n - 1) && c.signMax == Pow2(e + 1) - 1 && v < Pow2(n + e)
    ensures VpnInvalid(c, v) <==> Pow2(n - 1) <= v < Pow2(n + e) - Pow2(n - 1)
  {
    Pow2Add(e + 1, n - 1);
    hide Pow2;
    TopBits(v, c.signUnit, c.signMax);
  }

  lemma TopBits(v: nat, u: nat, m: nat)
    requires u > 0 && v < (m + 1) * u
    ensures v / u == 0 <==> v < u
    ensures v / u == m <==> v >= (m + 1) * u - u
  {
    var q := v / u;
    Split(v, u);
    SplitBelow(v, m + 1, u);
    if q < m { ScaleMono(q + 1, m, u); }
    if q >= 1 { ScaleMono(1, q, u); }
  }

  /** Without translation, or for a page number that is not canonical, the tables do not matter. */
  lemma WithoutTables(fanout: nat, maxPpn: nat, c: Context, v: nat, store: bool, r: Answer)
    requires fanout > 0 && c.signUnit > 0 && (c.bare || VpnInvalid(c, v))
    ensures var o := Accept(fanout, maxPpn, c, v, store, r);
            if c.bare then o.page == v && !o.pageFault && (o.accessFault <==> v > maxPpn)
            else o.pageFault && !o.accessFault
  {
  }

  /** Through the TLB: whatever runs of requests, walks, fences and changes went before, an answer
      for a page all of whose changes are covered by fences is the one the tables prescribe now. */
  lemma TlbAnswersPrescribed(s: State, es: seq<Event>, t: State, e: Event, c: Context)
    requires Start(s) && Run(s, es, t) && t.env.Ok() && Enabled(t, e) && Output(t, e).Some?
    requires c.signUnit > 0 && !c.bare && !VpnInvalid(c, Output(t, e).value.vpn)
    requires c.instruction ==> !Output(t, e).value.store
    ensures var o := Output(t, e).value;
            Promised(t, e, o.asid, o.vpn) ==>
              Prescribed(t.env, o.asid, o.vpn, o.store, c,
                         Accept(t.env.fanout, t.env.maxPpn, c, o.vpn, o.store, o.answer))
  {
    var o := Output(t, e).value;
    TlbIsInvisible(s, es, t, e, c);
    AccessSucceeds(t.env, o.asid, o.vpn, o.store, c);
    hide Grants; hide Refuses; hide Accept; hide Promised; hide Weight; hide Enabled; hide Output; hide Run;
  }
}
