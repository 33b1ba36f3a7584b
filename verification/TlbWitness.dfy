/** Why a table pointer changed under a walk counts as a global change: a concrete run in which a
    fence for one address space leaves a stale entry behind. */
module TlbWitness {
  import opened Wrappers
  import opened PageTable
  import opened Tlb

  function Pointer(ppn: nat): Bus {
    BusData(Pte(true, false, false, false, false, false, false, false, false, ppn))
  }

  function ReadOnly(ppn: nat, global: bool): Bus {
    BusData(Pte(true, true, false, false, false, global, true, true, false, ppn))
  }

  /** Two levels of two entries. The root is frame 0; page 0 goes through frame `via`; frame 1 holds
      frame 5, or once abandoned a global entry for frame 9, and frame 2 holds frame 5. */
  function Memory(via: nat, abandoned: bool): Tables {
    Tables(2, 2, 100,
           addr => if addr == 0 then Pointer(via)
                   else if addr == 2 then ReadOnly(if abandoned then 9 else 5, abandoned)
                   else if addr == 4 then ReadOnly(5, false)
                   else BusError,
           _ => true, _ => 0)
  }

  const BEFORE := Memory(1, false)
  const AFTER := Memory(2, true)

  lemma WalksOf(via: nat, abandoned: bool, a: nat, v: nat)
    requires (via == 1 && !abandoned) || via == 2
    ensures var t := Memory(via, abandoned);
            var leaf := ReadOnly(5, false).pte;
            && (v == 0 ==> Walk(t, a, v) == Found(leaf, 0))
            && (Walk(t, a, v) == Found(leaf, 0) || !Walk(t, a, v).Found?)
  {
    var t := Memory(via, abandoned);
    var i, j := Index(2, v, 1), Index(2, v, 0);
    assert t.read(0) == Pointer(via) && t.read(1) == t.read(3) == t.read(5) == BusError;
    assert t.read(2 * via) == ReadOnly(5, false);
    if i == 0 {
      assert ReadStep(t, 1, 0, v) == FromBus(100, t.read(0), 1) == Reading(0, via);
      assert WalkFrom(t, 1, 0, v) == WalkFrom(t, 0, via, v);
      assert ReadStep(t, 0, via, v) == FromBus(100, t.read(2 * via + j), 0);
    } else {
      assert ReadStep(t, 1, 0, v) == FromBus(100, t.read(1), 1) == Holding(NoAccess(1));
    }
  }

  lemma NoGlobals(via: nat, abandoned: bool)
    requires (via == 1 && !abandoned) || via == 2
    ensures var t := Memory(via, abandoned); GlobalsAgree(t) && forall a: nat, v: nat :: !GlobalHit(t, a, v)
  {
    var t := Memory(via, abandoned);
    forall a: nat, v: nat ensures !GlobalHit(t, a, v) {
      WalksOf(via, abandoned, a, v);
    }
  }

  /** More than the change is bound to record; nothing of it is global. */
  ghost const OWN: Debt := Debt(iset x: (nat, nat, nat) | true, iset{})
  /** What the read of the abandoned table adds. */
  ghost const TORN: Debt := Debt(iset{}, iset{(0, 0)})

  const IDLE := Port(false, false, 0, false)
  const FENCE := Fence(1, 0, false, true)
  const STALE := Answer(Hit, 9, Perms(true, false, false, false, true, true), 0)

  function Begin(): State {
    State([EMPTY], 0, [IDLE], [], None, 1, BEFORE, NO_DEBT, NO_DEBT)
  }

  ghost function Asked(): State {
    Begin().(ports := [Port(true, false, 0, false)])
  }

  ghost function Walking(at: Progress): State {
    Begin().(ports := [Port(true, true, 0, false)], walk := Some(Flight(0, 1, at, NO_DEBT)))
  }

  ghost function Caught(at: Progress, d: Debt): State {
    Walking(at).(env := AFTER, stale := d, owed := d, walk := Some(Flight(0, 1, at, d)))
  }

  ghost function Refilled(): State {
    var d := Plus(OWN, TORN);
    Begin().(entries := [EntryOf(1, 0, STALE)], env := AFTER, stale := d, owed := d)
  }

  ghost function Fenced(): State {
    var d := Settle(2, FENCE, Plus(OWN, TORN));
    Refilled().(stale := d, owed := d)
  }

  lemma StepsToWalk()
    ensures Run(Begin(), [Request(0, 0, false), StartRefill(0), WalkRead], Walking(Reading(0, 1)))
  {
    var e1, e2 := Request(0, 0, false), StartRefill(0);
    assert Step(Begin(), e1) == Asked();
    assert Step(Asked(), e2) == Walking(Reading(1, 0));
    assert BEFORE.read(0) == Pointer(1) && Index(2, 0, 1) == 0;
    assert ReadStep(BEFORE, 1, 0, 0) == FromBus(100, BEFORE.read(0), 1) == Reading(0, 1);
    assert Torn(BEFORE, 1, 0, 1, 0) == NO_DEBT && Plus(NO_DEBT, NO_DEBT) == NO_DEBT;
    assert Step(Walking(Reading(1, 0)), WalkRead) == Walking(Reading(0, 1));
    Three(Begin(), e1, Asked(), e2, Walking(Reading(1, 0)), WalkRead, Walking(Reading(0, 1)));
  }

  lemma Three(s: State, e1: Event, s1: State, e2: Event, s2: State, e3: Event, s3: State)
    requires Wf(s) && Enabled(s, e1) && s1 == Step(s, e1) && Enabled(s1, e2) && s2 == Step(s1, e2)
    requires Enabled(s2, e3) && s3 == Step(s2, e3)
    ensures Run(s, [e1, e2, e3], s3)
  {
    assert [e1, e2, e3][1..] == [e2, e3] && [e2, e3][1..] == [e3] && [e3][1..] == [];
    assert Run(s3, [], s3);
    assert Run(s2, [e3], s3);
    assert Run(s1, [e2, e3], s3);
  }

  /** Page 0 alone is off the path of the table read. */
  lemma TornIs()
    ensures Torn(AFTER, 1, 0, 0, 1) == TORN
    ensures ReadStep(AFTER, 0, 1, 0) == Holding(Found(ReadOnly(9, true).pte, 0))
  {
    assert AFTER.read(2) == ReadOnly(9, true) && AFTER.read(4) == ReadOnly(5, false) && AFTER.read(0) == Pointer(2);
    assert Index(2, 0, 0) == 0 && Index(2, 0, 1) == 0;
    assert ReadStep(AFTER, 0, 1, 0) == FromBus(100, AFTER.read(2), 0);
    assert ReadStep(AFTER, 1, 0, 0) == FromBus(100, AFTER.read(0), 1) == Reading(0, 2);
    assert ReadStep(AFTER, 0, 2, 0) == FromBus(100, AFTER.read(4), 0);
    assert !OnPath(AFTER, 1, 0, 0, 1);
    assert OffPath(AFTER, 1, 0, 0, 0, 1);
    forall v: nat ensures OffPath(AFTER, 1, v, 0, 0, 1) <==> v == 0 { }
  }

  lemma ChangeCatches()
    ensures Enabled(Walking(Reading(0, 1)), Change(AFTER, OWN))
    ensures Step(Walking(Reading(0, 1)), Change(AFTER, OWN)) == Caught(Reading(0, 1), OWN)
  {
    NoGlobals(1, false);
    NoGlobals(2, true);
    assert Plus(NO_DEBT, OWN) == OWN;
  }

  lemma StepsToRefill()
    ensures Run(Walking(Reading(0, 1)), [Change(AFTER, OWN), WalkRead, FinishRefill(0, STALE)], Refilled())
  {
    var found, d := Found(ReadOnly(9, true).pte, 0), Plus(OWN, TORN);
    ChangeCatches();
    TornIs();
    hide Torn; hide Records; hide GlobalsAgree;
    assert Step(Caught(Reading(0, 1), OWN), WalkRead) == Caught(Holding(found), d);
    assert AnswerFrom(2, found, false) == STALE;
    assert Enabled(Caught(Holding(found), d), FinishRefill(0, STALE));
    assert Step(Caught(Holding(found), d), FinishRefill(0, STALE)) == Refilled() by {
      var n := Step(Caught(Holding(found), d), FinishRefill(0, STALE));
      assert n.entries == Refilled().entries && n.rr == 0 && n.ports == Refilled().ports;
    }
    Three(Walking(Reading(0, 1)), Change(AFTER, OWN), Caught(Reading(0, 1), OWN), WalkRead, Caught(Holding(found), d),
          FinishRefill(0, STALE), Refilled());
  }

  lemma StepsToFence()
    ensures Run(Refilled(), [Enqueue(FENCE), DoFlush, SwitchAsid(1)], Fenced())
  {
    var d := Settle(2, FENCE, Plus(OWN, TORN));
    var q := Refilled().(queue := [FENCE], owed := d);
    assert Step(Refilled(), Enqueue(FENCE)) == q;
    assert Step(q, DoFlush) == Fenced() by {
      assert Step(q, DoFlush).entries == Fenced().entries;
    }
    Three(Refilled(), Enqueue(FENCE), q, DoFlush, Fenced(), SwitchAsid(1), Fenced());
  }

  /** A whole run. Page 0 is being walked in address space 1 when its table pointer changes and the
      abandoned table is reused; then address space 1 is fenced. The fence covers every other page
      and everything the change recorded, yet page 0 is answered with the global entry the walk
      found in the abandoned table: that find is all that is still owed. */
  lemma OneSpaceIsNotEnough()
    ensures Start(Begin())
    ensures exists es :: Run(Begin(), es, Fenced())
    ensures Fenced().queue == [] && forall v: nat, z: nat :: (1, v, z) !in Fenced().owed.own
    ensures Fenced().owed.global == iset{(0, 0)} && forall v: nat :: v != 0 ==> Clear(Fenced().owed, 1, v)
    ensures Enabled(Fenced(), Request(0, 0, false))
    ensures Output(Fenced(), Request(0, 0, false)) == Some(Response(1, 0, false, STALE))
    ensures Fresh(Fenced().env, 1, 0, false).ppn == 5 && STALE.ppn == 9
  {
    NoGlobals(1, false);
    WholeRun();
    FencedAnswer();
  }

  lemma WholeRun()
    ensures exists es :: Run(Begin(), es, Fenced())
  {
    StepsToWalk();
    StepsToRefill();
    StepsToFence();
    var es := [Request(0, 0, false), StartRefill(0), WalkRead];
    var fs := [Change(AFTER, OWN), WalkRead, FinishRefill(0, STALE)];
    var gs := [Enqueue(FENCE), DoFlush, SwitchAsid(1)];
    hide Run;
    JoinRuns(Begin(), es, Walking(Reading(0, 1)), fs, Refilled());
    JoinRuns(Begin(), es + fs, Refilled(), gs, Fenced());
  }

  lemma FencedAnswer()
    ensures Enabled(Fenced(), Request(0, 0, false))
    ensures Output(Fenced(), Request(0, 0, false)) == Some(Response(1, 0, false, STALE))
    ensures Fresh(Fenced().env, 1, 0, false).ppn == 5
  {
    WalksOf(2, true, 1, 0);
    assert FullMatch(2, Fenced().entries[0], 1, 0);
  }
}
