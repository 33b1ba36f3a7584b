/** Page tables and the translation algorithm of section 4.3.2 of the RISC-V Privileged
    Architecture, for any number of levels and any number of entries per table. */
module PageTable {

  /** Flags and frame of a page table entry; `reserved` stands for any reserved bit set. */
  datatype Pte = Pte(v: bool, r: bool, w: bool, x: bool, u: bool, g: bool, a: bool, d: bool,
                     reserved: bool, ppn: nat)

  datatype Bus = BusError | BusData(pte: Pte)

  /** Everything a walk depends on: geometry, memory, PMP verdicts and the table roots. */
  datatype Tables = Tables(fanout: nat, levels: nat, maxPpn: nat, read: nat -> Bus, pmpOk: nat -> bool,
                           root: nat -> nat) {
    predicate Ok() { fanout > 0 && levels > 0 }
  }

  datatype Perms = Perms(r: bool, w: bool, x: bool, u: bool, d: bool, g: bool)
  datatype Verdict = Hit | PageFault | AccessFault
  datatype Answer = Answer(result: Verdict, ppn: nat, perms: Perms, size: nat)

  /** A page number without its lowest `l` levels of index bits. */
  function Above(fanout: nat, v: nat, l: nat): nat
    requires fanout > 0
    decreases l
  {
    if l == 0 then v else Above(fanout, v, l - 1) / fanout
  }

  function Index(fanout: nat, v: nat, l: nat): nat
    requires fanout > 0
  {
    Above(fanout, v, l) % fanout
  }

  /** The lowest `l` levels of index bits are all zero. */
  predicate LowZero(fanout: nat, v: nat, l: nat)
    requires fanout > 0
    decreases l
  {
    l == 0 || (v % fanout == 0 && LowZero(fanout, v / fanout, l - 1))
  }

  /** Low `l` levels from `v`, the rest from `p`. */
  function Splice(fanout: nat, v: nat, p: nat, l: nat): nat
    requires fanout > 0
    decreases l
  {
    if l == 0 then p else v % fanout + fanout * Splice(fanout, v / fanout, p / fanout, l - 1)
  }

  predicate Leaf(p: Pte) { p.r || p.x }

  predicate Invalid(p: Pte) {
    !p.v || (p.w && !p.r) || p.reserved || (!Leaf(p) && (p.a || p.d || p.u))
  }

  function PermsOf(p: Pte): Perms { Perms(p.r, p.w, p.x, p.u, p.d, p.g) }

  const NO_PERMS := Perms(false, false, false, false, false, false)

  /** How a walk ends: with a leaf at some level, or with a fault there. */
  datatype Stop = Found(pte: Pte, level: nat) | NoPage(level: nat) | NoAccess(level: nat)

  /** Where a walk stands: about to read a table at some level, or stopped. */
  datatype Progress = Reading(level: nat, table: nat) | Holding(stop: Stop)

  /** What follows from the bus response at level `l`. */
  function FromBus(maxPpn: nat, r: Bus, l: nat): (p: Progress)
    ensures p.Reading? ==> p.level < l
    ensures p.Holding? ==> p.stop.level == l
  {
    match r
    case BusError => Holding(NoAccess(l))
    case BusData(p) =>
      if Invalid(p) then Holding(NoPage(l))
      else if p.ppn > maxPpn then Holding(NoAccess(l))
      else if Leaf(p) then Holding(Found(p, l))
      else if l == 0 then Holding(NoPage(0))
      else Reading(l - 1, p.ppn)
  }

  /** One level: the check, the read and what follows from the entry found now. */
  function ReadStep(t: Tables, l: nat, table: nat, v: nat): (p: Progress)
    requires t.Ok()
    ensures p.Reading? ==> p.level < l
    ensures p.Holding? ==> p.stop.level == l
  {
    var addr := table * t.fanout + Index(t.fanout, v, l);
    if t.pmpOk(addr) then FromBus(t.maxPpn, t.read(addr), l) else Holding(NoAccess(l))
  }

  /** Steps 2 to 4 of the algorithm, from a table at level `l`. */
  function WalkFrom(t: Tables, l: nat, table: nat, v: nat): (s: Stop)
    requires t.Ok()
    ensures s.level <= l
    decreases l
  {
    match ReadStep(t, l, table, v)
    case Holding(s) => s
    case Reading(m, p) => WalkFrom(t, m, p, v)
  }

  /** The walk from `from` passes through the table `p` at level `l`. */
  predicate Reaches(t: Tables, from: nat, root: nat, v: nat, l: nat, p: nat)
    requires t.Ok()
    decreases from
  {
    (from == l && root == p) ||
    match ReadStep(t, from, root, v)
    case Holding(_) => false
    case Reading(m, q) => Reaches(t, m, q, v, l, p)
  }

  predicate OnPath(t: Tables, asid: nat, v: nat, l: nat, p: nat)
    requires t.Ok()
  {
    Reaches(t, t.levels - 1, t.root(asid), v, l, p)
  }

  lemma {:induction false} ReachesWalk(t: Tables, from: nat, root: nat, v: nat, l: nat, p: nat)
    requires t.Ok() && Reaches(t, from, root, v, l, p)
    ensures WalkFrom(t, from, root, v) == WalkFrom(t, l, p, v) && l <= from
    decreases from
  {
    if !(from == l && root == p) {
      var n := ReadStep(t, from, root, v);
      ReachesWalk(t, n.level, n.table, v, l, p);
    }
  }

  lemma {:induction false} ReachesDown(t: Tables, from: nat, root: nat, v: nat, l: nat, p: nat)
    requires t.Ok() && Reaches(t, from, root, v, l, p) && ReadStep(t, l, p, v).Reading?
    ensures var n := ReadStep(t, l, p, v); Reaches(t, from, root, v, n.level, n.table)
    decreases from
  {
    if !(from == l && root == p) {
      var n := ReadStep(t, from, root, v);
      ReachesDown(t, n.level, n.table, v, l, p);
    }
  }

  /** Steps 6 and 7, with a page fault instead of setting A or D (Svade). */
  function Judge(fanout: nat, s: Stop, store: bool): Verdict
    requires fanout > 0
  {
    match s
    case NoAccess(_) => AccessFault
    case NoPage(_) => PageFault
    case Found(p, l) =>
      if !LowZero(fanout, p.ppn, l) || !p.a || (store && !p.d) then PageFault else Hit
  }

  function Walk(t: Tables, asid: nat, v: nat): (s: Stop)
    requires t.Ok()
    ensures s.level < t.levels
  {
    WalkFrom(t, t.levels - 1, t.root(asid), v)
  }

  /** Permissions and frame matter only for a leaf. */
  function AnswerFrom(fanout: nat, s: Stop, store: bool): Answer
    requires fanout > 0
  {
    var j := Judge(fanout, s, store);
    if s.Found? then Answer(j, s.pte.ppn, PermsOf(s.pte), s.level) else Answer(j, 0, NO_PERMS, s.level)
  }

  function Fresh(t: Tables, asid: nat, v: nat, store: bool): (r: Answer)
    requires t.Ok()
    ensures r.size < t.levels
  {
    AnswerFrom(t.fanout, Walk(t, asid, v), store)
  }

  /** Same verdict, and on a leaf the same contents. A fault carries no contents. */
  ghost predicate Agrees(r: Answer, f: Answer) {
    r.result == f.result && (f.result == Hit ==> r == f)
  }

  // ---- superpages ----

  lemma {:induction false} AgreeUp(fanout: nat, v: nat, w: nat, m: nat, l: nat)
    requires fanout > 0 && m <= l && Above(fanout, v, m) == Above(fanout, w, m)
    ensures Above(fanout, v, l) == Above(fanout, w, l)
    decreases l
  {
    if l > m {
      AgreeUp(fanout, v, w, m, l - 1);
    }
  }

  /** Page numbers that agree above the level at which a walk stops get the same stop. */
  lemma {:induction false} SameStopFrom(t: Tables, l: nat, table: nat, v: nat, w: nat)
    requires t.Ok()
    requires var z := WalkFrom(t, l, table, v).level; Above(t.fanout, v, z) == Above(t.fanout, w, z)
    ensures WalkFrom(t, l, table, w) == WalkFrom(t, l, table, v)
    decreases l
  {
    var s := WalkFrom(t, l, table, v);
    AgreeUp(t.fanout, v, w, s.level, l);
    var n := ReadStep(t, l, table, v);
    if n.Reading? { SameStopFrom(t, n.level, n.table, v, w); }
  }

  /** Any two page numbers agreeing above a leaf's level get the same leaf, size and verdict. */
  lemma SamePage(t: Tables, asid: nat, v: nat, w: nat, store: bool)
    requires t.Ok() && Above(t.fanout, v, Walk(t, asid, v).level) == Above(t.fanout, w, Walk(t, asid, v).level)
    ensures Walk(t, asid, w) == Walk(t, asid, v) && Fresh(t, asid, w, store) == Fresh(t, asid, v, store)
  {
    SameStopFrom(t, t.levels - 1, t.root(asid), v, w);
  }

  /** A store differs from a load only by the dirty bit. */
  lemma StoreVersusLoad(t: Tables, asid: nat, v: nat)
    requires t.Ok() && Fresh(t, asid, v, false).result == Hit
    ensures var f := Fresh(t, asid, v, false);
            Fresh(t, asid, v, true) == if f.perms.d then f else f.(result := PageFault)
  {
  }
}
