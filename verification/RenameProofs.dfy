/** Every step of the renaming core keeps its invariant. */
module RenameProofs {
  import opened RatModel
  import opened BitMask
  import opened Retirement
  import opened Wrappers
  import opened CratSpec
  import opened RenameCore

  // ---- frames: what a step that leaves some parts alone keeps ----

  lemma KeepWakeups(s: Core, n: Core)
    requires Wakeups(s) && n.rob == s.rob && n.ph == s.ph
    ensures Wakeups(n)
  {
    forall i: nat, r: nat | Producer(s, i, r) ensures Producer(n, i, r) {
    }
  }

  lemma KeepPartition(p: Params, s: Core, n: Core)
    requires Partition(p, s) && n.free == s.free && n.rrat == s.rrat && n.rob == s.rob
    requires n.allocBuf == s.allocBuf && n.tagBuf == s.tagBuf
    ensures Partition(p, n)
  {
    assert Bag(n) == Bag(s);
  }

  lemma KeepValues(s: Core, n: Core)
    requires Values(s) && n == s.(spec := n.spec) && n.spec.active <= s.spec.active
    ensures Values(n)
  {
  }

  /** The set of active tags may change on tags no renamed instruction carries. */
  lemma KeepSpeculation(s: Core, n: Core)
    requires Speculation(s) && n.fsm == s.fsm
    requires n.rrat == s.rrat && n.rob == s.rob && n.spec.frat == s.spec.frat && n.spec.ring == s.spec.ring
    requires forall i :: 0 <= i < |s.rob| ==> (s.rob[i].tag in s.spec.active <==> s.rob[i].tag in n.spec.active)
    ensures Speculation(n)
  {
    if s.fsm == Normal {
      OverlayAgree(s.rrat, s.rob, s.spec.active, n.spec.active);
      SourcesAgree(s.rrat, s.rob, s.spec.active, n.spec.active);
      forall j | 0 <= j < |n.spec.ring| && InRob(n, n.spec.ring[j].tag)
        ensures n.spec.ring[j].rat == Overlay(n.rrat, n.rob, Upto(n.spec.active, n.spec.ring[j].tag))
      {
        var t := s.spec.ring[j].tag;
        assert InRob(s, t);
        OverlayAgree(s.rrat, s.rob, Upto(s.spec.active, t), Upto(n.spec.active, t));
      }
    }
  }

  // ---- allocation and tagging ----

  lemma {:induction false} DistinctBag(ops: seq<Op>)
    requires forall i, j :: 0 <= i < j < |ops| && ops[i].rp != 0 ==> ops[i].rp != ops[j].rp
    ensures forall r: nat :: r > 0 ==> multiset(OpDsts(ops))[r] == if r in NonZero(OpDsts(ops)) then 1 else 0
    decreases ops
  {
    if ops != [] {
      var t := ops[..|ops| - 1];
      DistinctBag(t);
      assert OpDsts(ops) == OpDsts(t) + [ops[|ops| - 1].rp];
    }
  }

  lemma AllocPartition(p: Params, s: Core, ops: seq<Op>, ckpt: bool, rb: Option<nat>)
    requires Partition(p, s) && Enabled(p, s, Alloc(ops, ckpt, rb))
    ensures Partition(p, Step(p, s, Alloc(ops, ckpt, rb)))
  {
    var n := Step(p, s, Alloc(ops, ckpt, rb));
    DistinctBag(ops);
    assert OpDsts(AllocOps(s)) == [];
    forall r: nat | r > 0
      ensures Bag(n)[r] == Bag(s)[r]
    {
      if r in NonZero(OpDsts(ops)) {
        var i :| 0 <= i < |ops| && OpDsts(ops)[i] == r;
        assert ops[i].rp == r;
      }
    }
  }

  lemma AllocInv(p: Params, s: Core, ops: seq<Op>, ckpt: bool, rb: Option<nat>)
    requires Inv(p, s) && Enabled(p, s, Alloc(ops, ckpt, rb))
    ensures Inv(p, Step(p, s, Alloc(ops, ckpt, rb)))
  {
    hide Partition; hide SpecInv; hide Wakeups;
    var n := Step(p, s, Alloc(ops, ckpt, rb));
    AllocPartition(p, s, ops, ckpt, rb);
    KeepWakeups(s, n);
    KeepSpeculation(s, n);
  }

  lemma TagPartition(p: Params, s: Core)
    requires Partition(p, s) && Enabled(p, s, Tag)
    ensures Partition(p, Step(p, s, Tag))
  {
    var n := Step(p, s, Tag);
    assert OpDsts(TagOps(s)) == [] && OpDsts(AllocOps(n)) == [];
    assert Bag(n) == Bag(s);
  }

  lemma TagStepInv(p: Params, s: Core)
    requires Inv(p, s) && Enabled(p, s, Tag)
    ensures Inv(p, Step(p, s, Tag))
  {
    hide Partition; hide Wakeups; hide Speculation;
    var n := Step(p, s, Tag);
    TagInv(p, s.spec, s.allocBuf.value.rb, s.allocBuf.value.ckpt);
    TagPartition(p, s);
    KeepWakeups(s, n);
    ChainMono(s.spec.tail, s.rob);
    KeepSpeculation(s, n);
  }

  // ---- renaming ----

  lemma {:induction false} RenamedGroup(prev: nat, r: Rat, ops: seq<Op>, tag: nat, incr: bool, write: bool)
    requires tag == prev + Bit(incr)
    ensures var g := RenameGroup(r, ops, tag, incr, write);
            && (forall i :: 0 <= i < |g| ==> g[i].tag == tag)
            && Chain(prev, g)
    decreases ops
  {
    if ops != [] {
      RenamedGroup(tag, if write then Write(r, ops[0]) else r, ops[1..], tag, false, write);
      var g := RenameGroup(r, ops, tag, incr, write);
      assert g[1..] == RenameGroup(if write then Write(r, ops[0]) else r, ops[1..], tag, false, write);
      assert forall i :: 0 < i < |g| ==> g[i] == g[1..][i - 1];
    }
  }

  /** A group allowed to write extends the overlay; its sources follow the bypass order. */
  lemma {:induction false} RenamedOverlay(r: Rat, ops: seq<Op>, tag: nat, incr: bool, act: set<nat>)
    requires tag in act
    ensures var g := RenameGroup(r, ops, tag, incr, true);
            && Overlay(r, g, act) == WriteAll(r, ops)
            && SourcesOk(r, g, act)
    decreases ops
  {
    if ops != [] {
      RenamedOverlay(Write(r, ops[0]), ops[1..], tag, false, act);
      var g := RenameGroup(r, ops, tag, incr, true);
      assert g[1..] == RenameGroup(Write(r, ops[0]), ops[1..], tag, false, true);
    }
  }

  lemma RenamePartition(p: Params, s: Core)
    requires Partition(p, s) && Enabled(p, s, Rename)
    ensures Partition(p, Step(p, s, Rename))
  {
    var n := Step(p, s, Rename);
    var g := s.tagBuf.value;
    RenamedDsts(s.spec.frat, g.ops, g.t.tag, g.t.incr, MayWrite(s.spec, g.t.tag));
    assert Dsts(n.rob) == Dsts(s.rob) + OpDsts(g.ops);
    assert OpDsts(TagOps(n)) == [];
    assert Bag(n) == Bag(s);
  }

  lemma {:induction false} RenamedDsts(r: Rat, ops: seq<Op>, tag: nat, incr: bool, write: bool)
    ensures Dsts(RenameGroup(r, ops, tag, incr, write)) == OpDsts(ops)
    ensures forall i :: 0 <= i < |ops| ==> RenameGroup(r, ops, tag, incr, write)[i].op == ops[i]
    decreases ops
  {
    if ops != [] {
      RenamedDsts(if write then Write(r, ops[0]) else r, ops[1..], tag, false, write);
      var g := RenameGroup(r, ops, tag, incr, write);
      assert g[1..] == RenameGroup(if write then Write(r, ops[0]) else r, ops[1..], tag, false, write);
      assert forall i :: 0 < i < |g| ==> g[i] == g[1..][i - 1];
    }
  }

  lemma RenameTags(p: Params, s: Core)
    requires Inv(p, s) && Enabled(p, s, Rename)
    ensures TagsOk(Step(p, s, Rename))
  {
    hide Partition; hide Wakeups; hide Speculation; hide Values; hide ValidBits; hide RingOk;
    var g := s.tagBuf.value;
    var t := LastTag(s.spec.tail, s.rob);
    var w := MayWrite(s.spec, g.t.tag);
    var grp := RenameGroup(s.spec.frat, g.ops, g.t.tag, g.t.incr, w);
    RenamedGroup(t, s.spec.frat, g.ops, g.t.tag, g.t.incr, w);
    ChainAppend(s.spec.tail, s.rob, grp);
    hide RenameGroup; hide Chain; hide Shape;
  }

  lemma RenameShape(p: Params, s: Core)
    requires Inv(p, s) && Enabled(p, s, Rename)
    ensures Shape(p, Step(p, s, Rename))
  {
    hide Partition; hide Wakeups; hide Speculation; hide Values; hide ValidBits; hide SpecInv; hide TagsOk;
    var g := s.tagBuf.value;
    var w := MayWrite(s.spec, g.t.tag);
    RenamedDsts(s.spec.frat, g.ops, g.t.tag, g.t.incr, w);
    hide RenameGroup; hide OpOk;
  }

  lemma RenameSpeculation(p: Params, s: Core)
    requires Inv(p, s) && Enabled(p, s, Rename) && s.fsm == Normal
    ensures Speculation(Step(p, s, Rename))
  {
    hide Partition; hide Wakeups; hide Values; hide ValidBits; hide Shape;
    var n := Step(p, s, Rename);
    var g := s.tagBuf.value;
    var w, act := MayWrite(s.spec, g.t.tag), s.spec.active;
    var grp := RenameGroup(s.spec.frat, g.ops, g.t.tag, g.t.incr, w);
    var t := LastTag(s.spec.tail, s.rob);
    RenamedGroup(t, s.spec.frat, g.ops, g.t.tag, g.t.incr, w);
    ChainMono(s.spec.tail, s.rob);
    OverlayAppend(s.rrat, s.rob, grp, act);
    if w {
      RenamedOverlay(s.spec.frat, g.ops, g.t.tag, g.t.incr, act);
    } else {
      OverlayInactive(s.spec.frat, grp, act);
      SourcesInactive(s.spec.frat, grp, act);
    }
    SourcesAppend(s.rrat, s.rob, grp, act);
    hide SourcesOk; hide RenameGroup;
    forall j | 0 <= j < |n.spec.ring| && InRob(n, n.spec.ring[j].tag)
      ensures n.spec.ring[j].rat == Overlay(n.rrat, n.rob, Upto(act, n.spec.ring[j].tag))
    {
      var tj := n.spec.ring[j].tag;
      if j < |s.spec.ring| {
        RenameOldSnapshot(s, n, grp, j, g.t.tag);
      } else {
        OverlayAgree(s.rrat, n.rob, Upto(act, tj), act);
      }
    }
  }

  lemma RenameOldSnapshot(s: Core, n: Core, grp: seq<Instr>, j: nat, tag: nat)
    requires Speculation(s) && s.fsm == Normal && j < |s.spec.ring| && s.spec.ring[j].tag < tag
    requires n.rob == s.rob + grp && n.rrat == s.rrat && InRob(n, s.spec.ring[j].tag)
    requires forall i :: 0 <= i < |grp| ==> grp[i].tag == tag
    ensures s.spec.ring[j].rat == Overlay(n.rrat, n.rob, Upto(s.spec.active, s.spec.ring[j].tag))
  {
    var tj := s.spec.ring[j].tag;
    var cut := Upto(s.spec.active, tj);
    OverlayAppend(s.rrat, s.rob, grp, cut);
    OverlayInactive(Overlay(s.rrat, s.rob, cut), grp, cut);
    var i :| 0 <= i < |n.rob| && n.rob[i].tag == tj;
    assert i < |s.rob| && s.rob[i].tag == tj;
    assert InRob(s, tj);
  }

  /** Appending queued instructions disturbs neither rows nor valid bits nor values. */
  lemma RenameRows(p: Params, s: Core)
    requires Inv(p, s) && Enabled(p, s, Rename)
    ensures var n := Step(p, s, Rename); ValidBits(n) && Wakeups(n) && Values(n)
  {
    hide Partition; hide Speculation; hide SpecInv;
    var n := Step(p, s, Rename);
    assert forall i :: 0 <= i < |s.rob| ==> n.rob[i] == s.rob[i] && n.ph[i] == s.ph[i];
    assert forall i :: |s.rob| <= i < |n.rob| ==> n.ph[i] == Queued;
    forall i: nat, r: nat | i < |s.rob| && Producer(s, i, r) ensures Producer(n, i, r) {
      var j :| 0 <= j < i && s.rob[j].op.rp == r && !s.ph[j].Done?;
      assert n.rob[j].op.rp == r && !n.ph[j].Done?;
    }
    forall r: nat ensures Finished(s, r) <==> Finished(n, r) {
      if i :| 0 <= i < |s.rob| && s.rob[i].op.rp == r && s.ph[i].Done? {
        assert n.rob[i].op.rp == r && n.ph[i].Done?;
      }
      if i :| 0 <= i < |n.rob| && n.rob[i].op.rp == r && n.ph[i].Done? {
        assert s.rob[i].op.rp == r && s.ph[i].Done?;
      }
    }
  }

  lemma RenameStepInv(p: Params, s: Core)
    requires Inv(p, s) && Enabled(p, s, Rename)
    ensures Inv(p, Step(p, s, Rename))
  {
    hide Partition; hide Wakeups; hide Values; hide ValidBits; hide TagsOk; hide Shape; hide SpecInv;
    RenamePartition(p, s);
    RenameTags(p, s);
    RenameShape(p, s);
    RenameRows(p, s);
    RenameInv(p, s.spec, s.tagBuf.value.t, s.tagBuf.value.ops);
    if s.fsm == Normal { RenameSpeculation(p, s); }
  }

  // ---- reservation stations ----

  /** A row inserted with an unavailable operand waits for an older unfinished instruction. */
  lemma InsertFindsProducer(p: Params, s: Core, i: nat)
    requires Inv(p, s) && i < |s.rob|
    ensures Operand(s, s.rob[i], s.rob[i].s1) != 0 ==> Producer(s, i, s.rob[i].s1)
    ensures Operand(s, s.rob[i], s.rob[i].s2) != 0 ==> Producer(s, i, s.rob[i].s2)
  {
    hide Partition; hide Wakeups; hide Values; hide SpecInv; hide TagsOk;
    var e := s.rob[i];
    if LiveTag(s, e.tag) {
      SourceOrigin(s.rrat, s.rob, s.spec.active, i);
      forall r: nat | !RegValid(s, r) && r !in s.rrat
        && exists j :: 0 <= j < i && s.rob[j].tag in s.spec.active && s.rob[j].op.rp == r
        ensures Producer(s, i, r)
      {
        var j :| 0 <= j < i && s.rob[j].tag in s.spec.active && s.rob[j].op.rp == r;
        assert s.ph[j].Done? ==> Finished(s, r);
      }
    }
  }

  lemma InsertRows(p: Params, s: Core, i: nat)
    requires Inv(p, s) && Enabled(p, s, Insert(i))
    ensures var n := Step(p, s, Insert(i)); ValidBits(n) && Wakeups(n) && Values(n)
  {
    hide Partition; hide Speculation; hide SpecInv; hide TagsOk;
    var n := Step(p, s, Insert(i));
    InsertFindsProducer(p, s, i);
    forall k: nat, r: nat | Producer(s, k, r) ensures Producer(n, k, r) {
      var j :| 0 <= j < k && j < |s.rob| && s.rob[j].op.rp == r && !s.ph[j].Done?;
      assert !n.ph[j].Done?;
    }
    SameFinished(s, n);
  }

  lemma SameFinished(s: Core, n: Core)
    requires n.rob == s.rob && |n.ph| == |s.ph|
    requires forall i :: 0 <= i < |s.ph| ==> (s.ph[i].Done? <==> n.ph[i].Done?)
    ensures forall r: nat :: Finished(s, r) <==> Finished(n, r)
  {
    forall r: nat ensures Finished(s, r) <==> Finished(n, r) {
      if i :| 0 <= i < |s.rob| == |s.ph| && s.rob[i].op.rp == r && s.ph[i].Done? {
        assert n.rob[i].op.rp == r && n.ph[i].Done?;
      }
      if i :| 0 <= i < |n.rob| == |n.ph| && n.rob[i].op.rp == r && n.ph[i].Done? {
        assert s.rob[i].op.rp == r && s.ph[i].Done?;
      }
    }
  }

  lemma TakeRows(p: Params, s: Core, i: nat)
    requires Inv(p, s) && Enabled(p, s, Take(i))
    ensures var n := Step(p, s, Take(i)); ValidBits(n) && Wakeups(n) && Values(n)
  {
    hide Partition; hide Speculation; hide SpecInv; hide TagsOk;
    var n := Step(p, s, Take(i));
    forall k: nat, r: nat | Producer(s, k, r) ensures Producer(n, k, r) {
      var j :| 0 <= j < k && j < |s.rob| && s.rob[j].op.rp == r && !s.ph[j].Done?;
      assert !n.ph[j].Done?;
    }
    SameFinished(s, n);
  }

  /** Only phases, valid bits and values changed. */
  lemma KeepRest(p: Params, s: Core, n: Core)
    requires Inv(p, s)
    requires n == s.(ph := n.ph, valid := n.valid, rf := n.rf) && |n.ph| == |s.ph| && |n.rf| == |s.rf|
    requires ValidBits(n) && Wakeups(n) && Values(n)
    ensures Inv(p, n)
  {
    hide ValidBits; hide Wakeups; hide Values; hide SpecInv;
    KeepPartition(p, s, n);
    KeepSpeculation(s, n);
  }

  // ---- announcement ----

  lemma {:induction false} CountTwice(d: seq<nat>, i: nat, j: nat)
    requires i < j < |d| && d[i] == d[j]
    ensures multiset(d)[d[i]] >= 2
  {
    assert d == d[..j] + d[j..];
    assert d[..j][i] == d[i] && d[j..][0] == d[j];
    assert multiset(d) == multiset(d[..j]) + multiset(d[j..]);
  }

  /** A destination in flight is owned by nobody else. */
  lemma UniqueOwner(p: Params, s: Core, i: nat)
    requires Partition(p, s) && i < |s.rob| && s.rob[i].op.rp > 0
    ensures s.rob[i].op.rp !in s.rrat && s.rob[i].op.rp !in s.free
    ensures forall j :: 0 <= j < |s.rob| && j != i ==> s.rob[j].op.rp != s.rob[i].op.rp
  {
    var r, d := s.rob[i].op.rp, Dsts(s.rob);
    assert d[i] == r;
    assert Bag(s)[r] <= 1;
    assert multiset(d)[r] >= 1;
    forall j | 0 <= j < |s.rob| && j != i ensures s.rob[j].op.rp != r {
      assert d[j] == s.rob[j].op.rp;
      if d[j] == r {
        CountTwice(d, if i < j then i else j, if i < j then j else i);
      }
    }
  }

  /** The announced register was not valid before, so captured values are not disturbed. */
  lemma AnnounceFresh(p: Params, s: Core, i: nat)
    requires Inv(p, s) && i < |s.rob| && !s.ph[i].Done? && s.rob[i].op.rp > 0
    ensures s.rob[i].op.rp !in s.valid
  {
    hide Wakeups; hide Values; hide SpecInv; hide Speculation;
    UniqueOwner(p, s, i);
  }

  lemma AnnounceRows(p: Params, s: Core, i: nat, exc: bool, val: int)
    requires Inv(p, s) && Enabled(p, s, Announce(i, exc, val))
    ensures var n := Step(p, s, Announce(i, exc, val)); Wakeups(n) && Values(n)
  {
    hide Partition; hide Speculation; hide SpecInv; hide TagsOk; hide ValidBits;
    var n := Step(p, s, Announce(i, exc, val));
    var r := s.rob[i].op.rp;
    if r > 0 { AnnounceFresh(p, s, i); }
    forall k: nat, q: nat | Producer(s, k, q) && q > 0 && q != r ensures Producer(n, k, q) {
      var j :| 0 <= j < k && j < |s.rob| && s.rob[j].op.rp == q && !s.ph[j].Done?;
      assert n.rob[j].op.rp == q && !n.ph[j].Done?;
    }
  }

  lemma AnnounceValid(p: Params, s: Core, i: nat, exc: bool, val: int)
    requires Inv(p, s) && Enabled(p, s, Announce(i, exc, val))
    ensures ValidBits(Step(p, s, Announce(i, exc, val)))
  {
    hide Partition; hide Speculation; hide SpecInv; hide TagsOk; hide Wakeups; hide Values;
    var n := Step(p, s, Announce(i, exc, val));
    forall r: nat ensures Finished(n, r) <==> Finished(s, r) || r == s.rob[i].op.rp {
      if j :| 0 <= j < |n.rob| == |n.ph| && n.rob[j].op.rp == r && n.ph[j].Done? {
        if j != i { assert s.rob[j].op.rp == r && s.ph[j].Done?; }
      }
      if j :| 0 <= j < |s.rob| == |s.ph| && s.rob[j].op.rp == r && s.ph[j].Done? {
        assert n.rob[j].op.rp == r && n.ph[j].Done?;
      }
      assert n.rob[i].op.rp == s.rob[i].op.rp && n.ph[i].Done?;
    }
  }

  lemma RowStepInv(p: Params, s: Core, e: Event)
    requires Inv(p, s) && Enabled(p, s, e) && (e.Insert? || e.Take? || e.Announce?)
    ensures Inv(p, Step(p, s, e))
  {
    hide Inv; hide ValidBits; hide Wakeups; hide Values;
    match e {
      case Insert(i) => InsertRows(p, s, i);
      case Take(i) => TakeRows(p, s, i);
      case Announce(i, exc, val) => AnnounceRows(p, s, i, exc, val); AnnounceValid(p, s, i, exc, val);
    }
    KeepRest(p, s, Step(p, s, e));
  }

  // ---- rollback and restart ----

  lemma RollbackSpeculation(p: Params, s: Core, j: nat)
    requires Inv(p, s) && Enabled(p, s, Rollback(j))
    ensures Speculation(Step(p, s, Rollback(j)))
  {
    hide Partition; hide Wakeups; hide Values; hide ValidBits; hide Shape; hide Window; hide Phases;
    var n := Step(p, s, Rollback(j));
    var t := s.spec.ring[j].tag;
    assert InRob(s, t);
    SourcesCut(s.spec.tail, s.rrat, s.rob, s.spec.active, t);
    forall m | 0 <= m < |n.spec.ring| && InRob(n, n.spec.ring[m].tag)
      ensures n.spec.ring[m].rat == Overlay(n.rrat, n.rob, Upto(n.spec.active, n.spec.ring[m].tag))
    {
      var tm := s.spec.ring[m].tag;
      assert InRob(s, tm);
      assert Upto(Upto(s.spec.active, t), tm) == Upto(s.spec.active, tm);
    }
  }

  lemma RollbackStepInv(p: Params, s: Core, j: nat)
    requires Inv(p, s) && Enabled(p, s, Rollback(j))
    ensures Inv(p, Step(p, s, Rollback(j)))
  {
    hide Partition; hide Wakeups; hide ValidBits; hide Speculation; hide SpecInv; hide Values;
    var n := Step(p, s, Rollback(j));
    KeepValues(s, n);
    RollbackInv(p, s.spec, Tagging(s), j);
    RollbackSpeculation(p, s, j);
    KeepPartition(p, s, n);
    KeepWakeups(s, n);
    SameValid(s, n);
  }

  lemma SameValid(s: Core, n: Core)
    requires ValidBits(s) && n.rob == s.rob && n.ph == s.ph && n.rrat == s.rrat && n.valid == s.valid
    ensures ValidBits(n)
  {
    SameFinished(s, n);
  }

  lemma RestartInv(p: Params, s: Core)
    requires Inv(p, s) && Enabled(p, s, Restart)
    ensures Inv(p, Step(p, s, Restart))
  {
    hide Partition; hide ValidBits; hide SpecInv;
    var n := Step(p, s, Restart);
    RestoreInv(p, s.spec, Tagging(s), s.rrat);
    KeepPartition(p, s, n);
    SameValid(s, n);
  }

  // ---- retirement ----

  /** Without a trap, the retired table becomes the overlay of the retired prefix. */
  lemma {:induction false} RetireIsOverlay(rrat: Rat, es: seq<Instr>, live: Mask, exc: Mask, async: bool,
                                           act: set<nat>, k: nat)
    requires k <= |es| == |live| == |exc| && |rrat| > 0 && rrat[0] == 0
    requires forall i :: 0 <= i < |es| ==> live[i] == (es[i].tag in act)
    requires forall i :: 0 <= i < |es| ==> es[i].op.rl < |rrat| && (es[i].op.rl == 0 ==> es[i].op.rp == 0)
    requires !RetireSeq(rrat, es, live, exc, async, k).trapped
    ensures RetireSeq(rrat, es, live, exc, async, k).rrat == Overlay(rrat, es[..k], act)
    decreases k
  {
    if k > 0 {
      RetireIsOverlay(rrat, es, live, exc, async, act, k - 1);
      assert es[..k] == es[..k - 1] + [es[k - 1]];
      OverlayAppend(rrat, es[..k - 1], [es[k - 1]], act);
      OverlayZero(rrat, es[..k - 1], act);
    }
  }

  lemma {:induction false} RetireKeepsZero(rrat: Rat, es: seq<Instr>, live: Mask, exc: Mask, async: bool, k: nat)
    requires k <= |es| == |live| == |exc| && Look(rrat, 0) == 0
    requires forall i :: 0 <= i < |es| ==> (es[i].op.rl == 0 ==> es[i].op.rp == 0)
    ensures Look(RetireSeq(rrat, es, live, exc, async, k).rrat, 0) == 0
    decreases k
  {
    if k > 0 {
      RetireKeepsZero(rrat, es, live, exc, async, k - 1);
    }
  }

  /** The tag tail after the retirement is the tag of the last retired instruction. */
  lemma RetireChain(tail: nat, rob: seq<Instr>, k: nat)
    requires Chain(tail, rob) && k <= |rob|
    ensures var t := tail + CountIncr(rob[..k]);
            && Chain(t, rob[k..]) && LastTag(t, rob[k..]) == LastTag(tail, rob)
            && t <= LastTag(tail, rob)
            && forall i :: k <= i < |rob| ==> rob[i].tag >= t
  {
    ChainSplit(tail, rob, k);
    var t := LastTag(tail, rob[..k]);
    ChainMono(t, rob[k..]);
    forall i | k <= i < |rob| ensures rob[i].tag >= t {
      assert rob[i] == rob[k..][i - k];
    }
  }

  lemma RetireTags(p: Params, s: Core, k: nat, async: bool)
    requires Inv(p, s) && Enabled(p, s, Retire(k, async))
    ensures var n := RetireStep(s, k, async); TagsOk(n) && SpecInv(p, n.spec, Tagging(n))
    ensures forall i :: k <= i < |s.rob| && CountIncr(s.rob[..k]) > 0 ==> s.rob[i].tag > s.spec.tail
  {
    hide Partition; hide Wakeups; hide ValidBits; hide Speculation; hide Values; hide RingOk; hide Phases;
    hide Shape; hide Retired;
    RetireChain(s.spec.tail, s.rob, k);
    if CountIncr(s.rob[..k]) > 0 {
      FreeInv(p, s.spec, Tagging(s));
    }
  }

  lemma RetireShape(p: Params, s: Core, k: nat, async: bool)
    requires Inv(p, s) && Enabled(p, s, Retire(k, async))
    ensures Shape(p, RetireStep(s, k, async))
  {
    hide Partition; hide Wakeups; hide ValidBits; hide Speculation; hide Values; hide SpecInv; hide TagsOk;
    hide RetireSeq;
    RetireKeepsZero(s.rrat, s.rob, LiveMask(s), ExcMask(s), async, k);
  }

  /** Splitting off the retired prefix, before any tag is freed. */
  lemma RetireMiddle(p: Params, s: Core, k: nat, async: bool)
    requires Inv(p, s) && Enabled(p, s, Retire(k, async)) && s.fsm == Normal && !Retired(s, k, async).trapped
    ensures Speculation(s.(rob := s.rob[k..], ph := s.ph[k..], rrat := Retired(s, k, async).rrat))
  {
    hide Partition; hide Wakeups; hide ValidBits; hide Values; hide SpecInv;
    var act, xs, ys := s.spec.active, s.rob[..k], s.rob[k..];
    assert s.rob == xs + ys;
    RetireIsOverlay(s.rrat, s.rob, LiveMask(s), ExcMask(s), async, act, k);
    OverlayAppend(s.rrat, xs, ys, act);
    SourcesSplit(s.rrat, xs, ys, act);
    RetireSnapshots(s, s.(rob := ys, ph := s.ph[k..], rrat := Retired(s, k, async).rrat), k);
  }

  lemma RetireSpeculation(p: Params, s: Core, k: nat, async: bool)
    requires Inv(p, s) && Enabled(p, s, Retire(k, async))
    ensures Speculation(RetireStep(s, k, async))
  {
    hide Inv; hide Retired;
    var n := RetireStep(s, k, async);
    if n.fsm == Normal {
      hide Speculation;
      var mid := s.(rob := s.rob[k..], ph := s.ph[k..], rrat := n.rrat);
      RetireMiddle(p, s, k, async);
      RetireTags(p, s, k, async);
      var cut := mid.(spec := mid.spec.(active := n.spec.active));
      assert forall i :: 0 <= i < |mid.rob| ==> mid.rob[i] == s.rob[k + i];
      KeepSpeculation(mid, cut);
      DropSnapshots(cut, n);
    }
  }

  /** A checkpoint still usable after the retirement covers the whole retired prefix. */
  lemma RetireSnapshots(s: Core, mid: Core, k: nat)
    requires s.fsm == Normal && Speculation(s) && TagsOk(s) && k <= |s.rob|
    requires mid == s.(rob := s.rob[k..], ph := mid.ph, rrat := Overlay(s.rrat, s.rob[..k], s.spec.active))
    requires s.spec.frat == Overlay(mid.rrat, mid.rob, s.spec.active)
    requires SourcesOk(mid.rrat, mid.rob, s.spec.active)
    ensures Speculation(mid)
  {
    var xs, ys := s.rob[..k], s.rob[k..];
    ChainMono(s.spec.tail, s.rob);
    forall j | 0 <= j < |mid.spec.ring| && InRob(mid, mid.spec.ring[j].tag)
      ensures mid.spec.ring[j].rat == Overlay(mid.rrat, ys, Upto(s.spec.active, mid.spec.ring[j].tag))
    {
      var t := mid.spec.ring[j].tag;
      var i :| 0 <= i < |ys| && ys[i].tag == t;
      assert s.rob[k + i].tag == t;
      assert InRob(s, t);
      assert s.rob == xs + ys;
      forall m | 0 <= m < |xs| ensures xs[m].tag <= t { assert xs[m] == s.rob[m]; }
      OverlayAgree(s.rrat, xs, s.spec.active, Upto(s.spec.active, t));
      OverlayAppend(s.rrat, xs, ys, Upto(s.spec.active, t));
    }
  }

  /** Freeing the oldest checkpoint leaves the others in place. */
  lemma DropSnapshots(mid: Core, n: Core)
    requires Speculation(mid) && n.rrat == mid.rrat && n.rob == mid.rob && n.spec.frat == mid.spec.frat
    requires n.spec.active == mid.spec.active && n.fsm == mid.fsm
    requires n.spec.ring == mid.spec.ring || (mid.spec.ring != [] && n.spec.ring == mid.spec.ring[1..])
    ensures Speculation(n)
  {
    if n.fsm == Normal && n.spec.ring != mid.spec.ring {
      forall j | 0 <= j < |n.spec.ring| && InRob(n, n.spec.ring[j].tag)
        ensures n.spec.ring[j].rat == Overlay(n.rrat, n.rob, Upto(n.spec.active, n.spec.ring[j].tag))
      {
        assert n.spec.ring[j] == mid.spec.ring[j + 1];
        assert InRob(mid, mid.spec.ring[j + 1].tag);
      }
    } else {
      forall t: nat | InRob(n, t) ensures InRob(mid, t) { }
    }
  }

  lemma {:induction false} SingleBag(f: seq<nat>)
    requires forall r: nat :: r > 0 ==> multiset(f)[r] <= 1
    ensures forall r: nat :: r > 0 ==> multiset(f)[r] == multiset(NonZero(f))[r]
  {
  }

  lemma RetireBag(p: Params, s: Core, k: nat, async: bool)
    requires Shape(p, s) && Enabled(p, s, Retire(k, async))
    ensures var o := Retired(s, k, async);
            Bag(s) == multiset(s.free) + multiset(o.rrat) + multiset(o.freed) + multiset(Dsts(s.rob[k..]))
                      + multiset(OpDsts(AllocOps(s))) + multiset(OpDsts(TagOps(s)))
  {
    hide RetireSeq; hide AllocOps; hide TagOps;
    RetireConserves(s.rrat, s.rob, LiveMask(s), ExcMask(s), async, k);
    DstsSplit(s.rob, k);
    var o := Retired(s, k, async);
    Regroup(multiset(s.free), multiset(s.rrat), multiset(Dsts(s.rob[..k])), multiset(Dsts(s.rob[k..])),
            multiset(o.rrat), multiset(o.freed));
  }

  lemma Regroup(f: multiset<nat>, a: multiset<nat>, b: multiset<nat>, c: multiset<nat>, d: multiset<nat>,
                e: multiset<nat>)
    requires a + b == d + e
    ensures f + a + (b + c) == f + d + e + c
  {
    assert f + a + (b + c) == f + (a + b) + c;
    assert f + (d + e) + c == f + d + e + c;
  }

  lemma DstsSplit(es: seq<Instr>, k: nat)
    requires k <= |es|
    ensures multiset(Dsts(es)) == multiset(Dsts(es[..k])) + multiset(Dsts(es[k..]))
  {
    assert Dsts(es) == Dsts(es[..k]) + Dsts(es[k..]);
  }

  lemma RetirePartition(p: Params, s: Core, k: nat, async: bool)
    requires Inv(p, s) && Enabled(p, s, Retire(k, async))
    ensures Partition(p, RetireStep(s, k, async))
  {
    hide Wakeups; hide ValidBits; hide Values; hide SpecInv; hide Speculation; hide TagsOk; hide Retired; hide Shape;
    var n, o := RetireStep(s, k, async), Retired(s, k, async);
    RetireBag(p, s, k, async);
    forall r: nat | r > 0 ensures multiset(o.freed)[r] <= 1 { assert Bag(s)[r] <= 1; }
    SingleBag(o.freed);
    forall r: nat | r > 0 ensures Bag(n)[r] == Bag(s)[r] {
      assert Bag(s)[r] <= 1;
      assert multiset(o.freed)[r] == multiset(NonZero(o.freed))[r];
    }
  }

  /** What is still mapped or in flight after a retirement was not freed by it. */
  lemma RetireKeepsOwned(p: Params, s: Core, k: nat, async: bool, r: nat)
    requires Inv(p, s) && Enabled(p, s, Retire(k, async)) && r > 0
    requires r in RetireStep(s, k, async).rrat || exists i :: k <= i < |s.rob| && s.rob[i].op.rp == r
    ensures r !in NonZero(Retired(s, k, async).freed)
  {
    hide Inv; hide Partition;
    var n := RetireStep(s, k, async);
    RetirePartition(p, s, k, async);
    OwnedNotFree(p, n, r);
  }

  lemma OwnedNotFree(p: Params, n: Core, r: nat)
    requires Partition(p, n) && r > 0
    requires r in n.rrat || exists i :: 0 <= i < |n.rob| && n.rob[i].op.rp == r
    ensures r !in n.free
  {
    assert Bag(n)[r] <= 1;
    if i :| 0 <= i < |n.rob| && n.rob[i].op.rp == r {
      assert Dsts(n.rob)[i] == r;
    }
  }

  /** Registers that survive a retirement keep their valid bit; freed ones lose it. */
  lemma RetireValid(p: Params, s: Core, k: nat, async: bool)
    requires Inv(p, s) && Enabled(p, s, Retire(k, async))
    ensures ValidBits(RetireStep(s, k, async))
  {
    hide Wakeups; hide Values; hide SpecInv; hide Speculation; hide TagsOk; hide Retired; hide Partition;
    var n, o := RetireStep(s, k, async), Retired(s, k, async);
    RetireFinished(s, n, k);
    forall r: nat | r > 0 ensures r in n.valid <==> r in n.rrat || Finished(n, r) {
      RetireMoves(p, s, k, async, r);
      if r in n.rrat || Finished(n, r) {
        if Finished(n, r) {
          var i :| 0 <= i < |n.rob| && n.rob[i].op.rp == r && n.ph[i].Done?;
          assert s.rob[k + i].op.rp == r;
        }
        RetireKeepsOwned(p, s, k, async, r);
      }
    }
  }

  /** A nonzero register was mapped or in the retired prefix iff it is now mapped or freed. */
  lemma RetireMoves(p: Params, s: Core, k: nat, async: bool, r: nat)
    requires Shape(p, s) && Enabled(p, s, Retire(k, async))
    ensures var o := Retired(s, k, async);
            (r in s.rrat || r in Dsts(s.rob[..k])) <==> (r in o.rrat || r in o.freed)
  {
    hide RetireSeq;
    var o := Retired(s, k, async);
    RetireConserves(s.rrat, s.rob, LiveMask(s), ExcMask(s), async, k);
    BagMembers(s.rrat, Dsts(s.rob[..k]), o.rrat, o.freed, r);
  }

  lemma BagMembers(a: seq<nat>, b: seq<nat>, c: seq<nat>, d: seq<nat>, r: nat)
    requires multiset(a) + multiset(b) == multiset(c) + multiset(d)
    ensures (r in a || r in b) <==> (r in c || r in d)
  {
    assert r in a || r in b <==> r in multiset(a) + multiset(b);
    assert r in c || r in d <==> r in multiset(c) + multiset(d);
  }

  lemma RetireFinished(s: Core, n: Core, k: nat)
    requires k <= |s.rob| == |s.ph| && n.rob == s.rob[k..] && n.ph == s.ph[k..]
    requires forall i :: 0 <= i < k ==> s.ph[i].Done?
    ensures forall r: nat :: Finished(s, r) <==> r in Dsts(s.rob[..k]) || Finished(n, r)
  {
    forall r: nat ensures Finished(s, r) <==> r in Dsts(s.rob[..k]) || Finished(n, r) {
      if i :| 0 <= i < |s.rob| && s.rob[i].op.rp == r && s.ph[i].Done? {
        if i < k { assert Dsts(s.rob[..k])[i] == r; } else { assert n.rob[i - k].op.rp == r && n.ph[i - k].Done?; }
      }
      if r in Dsts(s.rob[..k]) {
        var i :| 0 <= i < k && Dsts(s.rob[..k])[i] == r;
        assert s.rob[i].op.rp == r && s.ph[i].Done?;
      }
      if i :| 0 <= i < |n.rob| && n.rob[i].op.rp == r && n.ph[i].Done? {
        assert s.rob[k + i].op.rp == r && s.ph[k + i].Done?;
      }
    }
  }

  lemma RetireWakeups(p: Params, s: Core, k: nat, async: bool)
    requires Wakeups(s) && Enabled(p, s, Retire(k, async))
    ensures Wakeups(RetireStep(s, k, async))
  {
    hide Retired;
    var n := RetireStep(s, k, async);
    forall i: nat, r: nat | i < |n.rob| && Producer(s, k + i, r) ensures Producer(n, i, r) {
      var j :| 0 <= j < k + i && s.rob[j].op.rp == r && !s.ph[j].Done?;
      assert n.rob[j - k].op.rp == r && !n.ph[j - k].Done?;
    }
    assert forall i :: 0 <= i < |n.rob| ==> n.rob[i] == s.rob[k + i] && n.ph[i] == s.ph[k + i];
  }

  /** A live instruction's source is still owned, so its captured value stays current. */
  lemma RetireSourceStays(p: Params, s: Core, k: nat, async: bool, i: nat, r: nat)
    requires Inv(p, s) && Enabled(p, s, Retire(k, async)) && k <= i < |s.rob|
    requires RetireStep(s, k, async).fsm == Normal && s.rob[i].tag in RetireStep(s, k, async).spec.active
    requires RegValid(s, r) && (r == s.rob[i].s1 || r == s.rob[i].s2)
    ensures RegValid(RetireStep(s, k, async), r)
  {
    hide Inv; hide Retired;
    var n := RetireStep(s, k, async);
    RetireSpeculation(p, s, k, async);
    assert n.rob[i - k] == s.rob[i];
    SourceOrigin(n.rrat, n.rob, n.spec.active, i - k);
    if r > 0 {
      if j :| 0 <= j < i - k && n.rob[j].tag in n.spec.active && n.rob[j].op.rp == r {
        assert s.rob[k + j].op.rp == r;
      }
      RetireKeepsOwned(p, s, k, async, r);
    }
  }

  lemma RetireValues(p: Params, s: Core, k: nat, async: bool)
    requires Inv(p, s) && Enabled(p, s, Retire(k, async))
    ensures Values(RetireStep(s, k, async))
  {
    hide Retired; hide Wakeups; hide SpecInv; hide Speculation; hide TagsOk; hide Partition; hide ValidBits;
    hide RegValid;
    var n := RetireStep(s, k, async);
    if n.fsm == Normal {
      forall i | 0 <= i < |n.rob| && n.rob[i].tag in n.spec.active
        ensures RegValid(s, n.rob[i].s1) ==> RegValid(n, n.rob[i].s1)
        ensures RegValid(s, n.rob[i].s2) ==> RegValid(n, n.rob[i].s2)
      {
        assert n.rob[i] == s.rob[k + i];
        if RegValid(s, n.rob[i].s1) { RetireSourceStays(p, s, k, async, k + i, n.rob[i].s1); }
        if RegValid(s, n.rob[i].s2) { RetireSourceStays(p, s, k, async, k + i, n.rob[i].s2); }
      }
      assert forall i :: 0 <= i < |n.rob| ==> n.rob[i] == s.rob[k + i] && n.ph[i] == s.ph[k + i];
    }
  }

  lemma RetireStepInv(p: Params, s: Core, k: nat, async: bool)
    requires Inv(p, s) && Enabled(p, s, Retire(k, async))
    ensures Inv(p, Step(p, s, Retire(k, async)))
  {
    hide Partition; hide Wakeups; hide ValidBits; hide Speculation; hide Values; hide SpecInv; hide TagsOk; hide Shape;
    hide RetireStep;
    RetireShape(p, s, k, async);
    RetireTags(p, s, k, async);
    RetirePartition(p, s, k, async);
    RetireValid(p, s, k, async);
    RetireSpeculation(p, s, k, async);
    RetireWakeups(p, s, k, async);
    RetireValues(p, s, k, async);
  }

  // ---- every run ----

  lemma StepInv(p: Params, s: Core, e: Event)
    requires Inv(p, s) && Enabled(p, s, e)
    ensures Inv(p, Step(p, s, e))
  {
    hide Inv;
    match e {
      case Alloc(ops, ckpt, rb) => AllocInv(p, s, ops, ckpt, rb);
      case Tag => TagStepInv(p, s);
      case Rename => RenameStepInv(p, s);
      case Retire(k, async) => RetireStepInv(p, s, k, async);
      case Rollback(j) => RollbackStepInv(p, s, j);
      case Restart => RestartInv(p, s);
      case Insert(_) => RowStepInv(p, s, e);
      case Take(_) => RowStepInv(p, s, e);
      case Announce(_, _, _) => RowStepInv(p, s, e);
    }
  }

  /** `t` is reached from `s` by the given events, each enabled when it happens. */
  ghost predicate Runs(p: Params, s: Core, es: seq<Event>, t: Core)
    decreases es
  {
    if es == [] then s == t else Enabled(p, s, es[0]) && Runs(p, Step(p, s, es[0]), es[1..], t)
  }

  lemma {:induction false} RunInv(p: Params, s: Core, es: seq<Event>, t: Core)
    requires Inv(p, s) && Runs(p, s, es, t)
    ensures Inv(p, t)
    decreases es
  {
    if es != [] {
      StepInv(p, s, es[0]);
      RunInv(p, Step(p, s, es[0]), es[1..], t);
    }
  }

  lemma {:induction false} JoinRuns(p: Params, s: Core, xs: seq<Event>, m: Core, ys: seq<Event>, t: Core)
    requires Runs(p, s, xs, m) && Runs(p, m, ys, t)
    ensures Runs(p, s, xs + ys, t)
    decreases xs
  {
    if xs == [] {
      assert xs + ys == ys;
    } else {
      assert (xs + ys)[1..] == xs[1..] + ys;
      JoinRuns(p, Step(p, s, xs[0]), xs[1..], m, ys, t);
    }
  }

  ghost predicate Reachable(p: Params, t: Core) {
    exists es :: Runs(p, RenameCore.Init(p), es, t)
  }

  lemma ReachableInv(p: Params, t: Core)
    requires p.Ok() && Reachable(p, t)
    ensures Inv(p, t)
  {
    var es :| Runs(p, RenameCore.Init(p), es, t);
    RenameCore.InitInv(p);
    RunInv(p, RenameCore.Init(p), es, t);
  }
}
