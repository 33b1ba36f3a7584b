/** The renaming core as one step machine: register allocation, tagging, renaming, reservation
    stations, announcement, group retirement, trap flush and speculative rollback. A clock
    cycle of the core performs several of these steps. */
module RenameCore {
  import opened RatModel
  import opened BitMask
  import opened Retirement
  import opened Wrappers
  import opened CratSpec

  /** Where an instruction of the reorder buffer is. `r1`/`r2` are the registers a reservation
      station row still waits for, 0 meaning that the operand value is captured. */
  datatype Phase =
    | Queued
    | Waiting(r1: nat, v1: int, r2: nat, v2: int)
    | Executing(v1: int, v2: int)
    | Done(exc: bool)

  datatype Fsm = Normal | Flush | Resume

  datatype AllocGroup = AllocGroup(ops: seq<Op>, ckpt: bool, rb: Option<nat>)
  datatype TagGroup = TagGroup(ops: seq<Op>, t: Tagged)

  datatype Core = Core(
    free: set<nat>,
    allocBuf: Option<AllocGroup>,
    tagBuf: Option<TagGroup>,
    rob: seq<Instr>,
    ph: seq<Phase>,
    rrat: Rat,
    spec: Spec,
    fsm: Fsm,
    lastRetired: nat,
    valid: set<nat>,
    rf: seq<int>)

  /** Register 0 is never allocated. */
  function AllRegs(n: nat): (r: set<nat>)
    ensures forall x: nat :: x in r <==> 0 < x < n
  {
    if n <= 1 then {} else AllRegs(n - 1) + {n - 1}
  }

  function Init(p: Params): Core {
    Core(AllRegs(p.phys), None, None, [], [], seq(p.logical, i => 0), CratSpec.Init(p),
         Normal, 0, {}, seq(p.phys, i => 0))
  }

  datatype Event =
    | Alloc(ops: seq<Op>, ckpt: bool, rb: Option<nat>)
    | Tag
    | Rename
    | Insert(i: nat)
    | Take(i: nat)
    | Announce(i: nat, exc: bool, val: int)
    | Retire(k: nat, async: bool)
    | Rollback(j: nat)
    | Restart

  // ---- steps ----

  function Tagging(s: Core): Option<Tagged> {
    if s.tagBuf.Some? then Some(s.tagBuf.value.t) else None
  }

  /** Renaming a group in order: each instruction sees the writes of those before it. */
  function RenameGroup(r: Rat, ops: seq<Op>, tag: nat, incr: bool, write: bool): (g: seq<Instr>)
    ensures |g| == |ops|
    decreases ops
  {
    if ops == [] then []
    else
      [Instr(ops[0], tag, incr, Look(r, ops[0].rs1), Look(r, ops[0].rs2))]
      + RenameGroup(if write then Write(r, ops[0]) else r, ops[1..], tag, false, write)
  }

  predicate OpOk(p: Params, op: Op) {
    op.rl < p.logical && op.rs1 < p.logical && op.rs2 < p.logical && op.rp < p.phys
    && (op.rl == 0 <==> op.rp == 0)
  }

  /** Each instruction with a destination takes its own free register. */
  predicate AllocOk(p: Params, free: set<nat>, ops: seq<Op>) {
    && (forall i :: 0 <= i < |ops| ==> OpOk(p, ops[i]) && (ops[i].rp != 0 ==> ops[i].rp in free))
    && (forall i, j :: 0 <= i < j < |ops| && ops[i].rp != 0 ==> ops[i].rp != ops[j].rp)
  }

  predicate Enabled(p: Params, s: Core, e: Event) {
    match e
    case Alloc(ops, ckpt, rb) =>
      && s.allocBuf.None? && s.fsm != Resume && ops != [] && AllocOk(p, s.free, ops)
      && (rb.Some? ==> s.spec.rbActive && rb.value == s.spec.target)
    case Tag => s.allocBuf.Some? && s.tagBuf.None? && TagReady(p, s.spec, s.allocBuf.value.rb)
    case Rename => s.tagBuf.Some? && RenameReady(p, s.spec, s.tagBuf.value.t)
    case Insert(i) => i < |s.ph| == |s.rob| && s.ph[i].Queued?
    case Take(i) => i < |s.ph| && s.ph[i].Waiting? && s.ph[i].r1 == 0 == s.ph[i].r2
    case Announce(i, exc, val) => i < |s.ph| == |s.rob| && s.ph[i].Executing?
    case Retire(k, async) =>
      && s.fsm != Resume && 0 < k <= |s.ph| == |s.rob| && CountIncr(s.rob[..k]) <= 1
      && forall i :: 0 <= i < k ==> s.ph[i].Done?
    case Rollback(j) =>
      && s.fsm == Normal && j < |s.spec.ring|
      && exists i :: 0 <= i < |s.rob| && s.rob[i].tag == s.spec.ring[j].tag
    case Restart => s.fsm == Resume
  }

  predicate RegValid(s: Core, r: nat) {
    r == 0 || r in s.valid
  }

  function RegValue(s: Core, r: nat): int {
    if 0 < r < |s.rf| then s.rf[r] else 0
  }

  predicate LiveTag(s: Core, tag: nat) {
    s.fsm != Flush && tag in s.spec.active
  }

  function Operand(s: Core, i: Instr, r: nat): nat {
    if RegValid(s, r) || !LiveTag(s, i.tag) then 0 else r
  }

  function Captured(s: Core, r: nat): int {
    if RegValid(s, r) then RegValue(s, r) else 0
  }

  function InsertRow(s: Core, i: Instr): Phase {
    Waiting(Operand(s, i, i.s1), Captured(s, i.s1), Operand(s, i, i.s2), Captured(s, i.s2))
  }

  /** The wakeup broadcast seen by one row; destination 0 is never broadcast. */
  function Wake(f: Phase, r: nat, val: int): Phase {
    if !f.Waiting? || r == 0 then f
    else Waiting(if f.r1 == r then 0 else f.r1, if f.r1 == r then val else f.v1,
                 if f.r2 == r then 0 else f.r2, if f.r2 == r then val else f.v2)
  }

  function LiveMask(s: Core): (m: Mask)
    ensures |m| == |s.rob|
    ensures forall i :: 0 <= i < |m| ==> m[i] == (s.fsm == Normal && s.rob[i].tag in s.spec.active)
  {
    seq(|s.rob|, i requires 0 <= i < |s.rob| => s.fsm == Normal && s.rob[i].tag in s.spec.active)
  }

  function ExcMask(s: Core): (m: Mask)
    ensures |m| == |s.ph|
  {
    seq(|s.ph|, i requires 0 <= i < |s.ph| => s.ph[i].Done? && s.ph[i].exc)
  }

  function Retired(s: Core, k: nat, async: bool): (o: Outcome)
    requires k <= |s.rob| == |s.ph|
    ensures |o.rrat| == |s.rrat|
  {
    RetireSeq(s.rrat, s.rob, LiveMask(s), ExcMask(s), async, k)
  }

  function NonZero(f: seq<nat>): set<nat> {
    set r | r in f && r != 0
  }

  function RetireStep(s: Core, k: nat, async: bool): Core
    requires k <= |s.rob| == |s.ph|
  {
    var o := Retired(s, k, async);
    var n := CountIncr(s.rob[..k]);
    var empty := k == |s.rob| && s.allocBuf.None? && s.tagBuf.None?;
    s.(rrat := o.rrat, free := s.free + NonZero(o.freed), valid := s.valid - NonZero(o.freed),
       rob := s.rob[k..], ph := s.ph[k..],
       spec := if n > 0 then FreeStep(s.spec) else s.spec,
       lastRetired := s.lastRetired + n,
       fsm := if s.fsm == Flush || o.trapped then (if empty then Resume else Flush) else s.fsm)
  }

  function Step(p: Params, s: Core, e: Event): Core
    requires Enabled(p, s, e)
  {
    match e
    case Alloc(ops, ckpt, rb) =>
      s.(free := s.free - NonZero(OpDsts(ops)), allocBuf := Some(AllocGroup(ops, ckpt, rb)))
    case Tag =>
      var g := s.allocBuf.value;
      s.(allocBuf := None, tagBuf := Some(TagGroup(g.ops, TagOut(s.spec, g.rb, g.ckpt))),
         spec := TagStep(s.spec, g.rb, g.ckpt))
    case Rename =>
      var g := s.tagBuf.value;
      s.(tagBuf := None, spec := RenameStep(s.spec, g.t, g.ops),
         rob := s.rob + RenameGroup(s.spec.frat, g.ops, g.t.tag, g.t.incr, MayWrite(s.spec, g.t.tag)),
         ph := s.ph + seq(|g.ops|, i => Queued))
    case Insert(i) => s.(ph := s.ph[i := InsertRow(s, s.rob[i])])
    case Take(i) => s.(ph := s.ph[i := Executing(s.ph[i].v1, s.ph[i].v2)])
    case Announce(i, exc, val) =>
      var r := s.rob[i].op.rp;
      s.(ph := seq(|s.ph|, n requires 0 <= n < |s.ph| => if n == i then Done(exc) else Wake(s.ph[n], r, val)),
         valid := if r != 0 then s.valid + {r} else s.valid,
         rf := if 0 < r < |s.rf| then s.rf[r := val] else s.rf)
    case Retire(k, async) => RetireStep(s, k, async)
    case Rollback(j) => s.(spec := RollbackStep(s.spec, j))
    case Restart => s.(spec := RestoreStep(s.spec, s.rrat), fsm := Normal)
  }

  // ---- invariant ----

  ghost predicate OpsOk(p: Params, ops: seq<Op>) {
    ops != [] && forall i :: 0 <= i < |ops| ==> OpOk(p, ops[i])
  }

  ghost predicate Shape(p: Params, s: Core) {
    && |s.rob| == |s.ph| && |s.rrat| == p.logical && Look(s.rrat, 0) == 0 && |s.rf| == p.phys
    && s.lastRetired == s.spec.tail
    && (forall i :: 0 <= i < |s.rob| ==> OpOk(p, s.rob[i].op))
    && (s.tagBuf.Some? ==> OpsOk(p, s.tagBuf.value.ops))
    && (s.allocBuf.Some? ==> OpsOk(p, s.allocBuf.value.ops))
    && (s.fsm == Resume ==> s.rob == [] && s.allocBuf.None? && s.tagBuf.None?)
  }

  /** Tags rebuilt from one-bit increments, starting at the last retired tag, are the tags the
      instructions were issued with; the newest one is the last issued tag. */
  ghost predicate TagsOk(s: Core) {
    && Chain(s.spec.tail, s.rob)
    && s.spec.lastIssued == LastTag(s.spec.tail, s.rob)
                            + (if s.tagBuf.Some? then Bit(s.tagBuf.value.t.incr) else 0)
  }

  function AllocOps(s: Core): seq<Op> {
    if s.allocBuf.Some? then s.allocBuf.value.ops else []
  }

  function TagOps(s: Core): seq<Op> {
    if s.tagBuf.Some? then s.tagBuf.value.ops else []
  }

  /** Everything that owns a physical register, with multiplicity. */
  ghost function Bag(s: Core): multiset<nat> {
    multiset(s.free) + multiset(s.rrat) + multiset(Dsts(s.rob))
    + multiset(OpDsts(AllocOps(s))) + multiset(OpDsts(TagOps(s)))
  }

  /** No register is lost or owned twice. */
  ghost predicate Partition(p: Params, s: Core) {
    forall r: nat :: r > 0 ==> Bag(s)[r] == if r < p.phys then 1 else 0
  }

  /** The register file's valid bits are exactly the mapped and the finished registers. */
  ghost predicate ValidBits(s: Core) {
    forall r: nat :: r in s.valid <==> r > 0 && (r in s.rrat || Finished(s, r))
  }

  ghost predicate Finished(s: Core, r: nat) {
    exists i :: 0 <= i < |s.rob| == |s.ph| && s.rob[i].op.rp == r && s.ph[i].Done?
  }

  ghost predicate InRob(s: Core, tag: nat) {
    exists i :: 0 <= i < |s.rob| && s.rob[i].tag == tag
  }

  /** The speculative table, every usable checkpoint and every source operand. */
  ghost predicate Speculation(s: Core) {
    s.fsm == Normal ==>
      && s.spec.frat == Overlay(s.rrat, s.rob, s.spec.active)
      && SourcesOk(s.rrat, s.rob, s.spec.active)
      && forall j :: 0 <= j < |s.spec.ring| && InRob(s, s.spec.ring[j].tag) ==>
           s.spec.ring[j].rat == Overlay(s.rrat, s.rob, Upto(s.spec.active, s.spec.ring[j].tag))
  }

  ghost predicate Producer(s: Core, i: nat, r: nat) {
    exists j :: 0 <= j < i && j < |s.rob| == |s.ph| && s.rob[j].op.rp == r && !s.ph[j].Done?
  }

  /** An operand still naming a register names an older unfinished instruction's result. */
  ghost predicate Wakeups(s: Core) {
    forall i :: 0 <= i < |s.ph| == |s.rob| && s.ph[i].Waiting? ==>
      && (s.ph[i].r1 != 0 ==> s.ph[i].r1 == s.rob[i].s1 && Producer(s, i, s.ph[i].r1))
      && (s.ph[i].r2 != 0 ==> s.ph[i].r2 == s.rob[i].s2 && Producer(s, i, s.ph[i].r2))
  }

  ghost predicate OperandOk(s: Core, src: nat, v: int) {
    RegValid(s, src) && v == RegValue(s, src)
  }

  /** A captured operand of a live instruction is the current value of its source register. */
  ghost predicate Values(s: Core) {
    s.fsm == Normal ==>
      forall i :: 0 <= i < |s.ph| == |s.rob| && s.rob[i].tag in s.spec.active ==>
        && (s.ph[i].Executing? || (s.ph[i].Waiting? && s.ph[i].r1 == 0) ==> OperandOk(s, s.rob[i].s1, s.ph[i].v1))
        && (s.ph[i].Executing? || (s.ph[i].Waiting? && s.ph[i].r2 == 0) ==> OperandOk(s, s.rob[i].s2, s.ph[i].v2))
  }

  ghost predicate Inv(p: Params, s: Core) {
    && p.Ok() && Shape(p, s) && SpecInv(p, s.spec, Tagging(s)) && TagsOk(s)
    && Partition(p, s) && ValidBits(s) && Speculation(s) && Wakeups(s) && Values(s)
  }

  lemma InitInv(p: Params)
    requires p.Ok()
    ensures Inv(p, Init(p))
  {
    var s := Init(p);
    CratSpec.InitInv(p);
    forall r: nat | r > 0
      ensures Bag(s)[r] == if r < p.phys then 1 else 0
    {
      assert r !in s.rrat;
    }
  }
}
