/** What becomes of fetched instructions: all of them go through the core in the order in which they
    were fetched, and those on the current path come to life. */
module GroupLaws {
  import opened RatModel
  import opened Wrappers
  import opened CratSpec
  import opened RenameCore
  import opened RenameProofs
  import opened InOrder
  import opened TrapLaws
  import ProgramPath

  /** Everything fetched in a run. */
  function Fetched(es: seq<Event>): seq<Op>
    decreases |es|
  {
    if es == [] then [] else Fetched(es[..|es| - 1]) + if es[|es| - 1].Alloc? then es[|es| - 1].ops else []
  }

  function Ops(es: seq<Instr>): (r: seq<Op>)
    ensures |r| == |es| && forall i :: 0 <= i < |es| ==> r[i] == es[i].op
  {
    seq(|es|, i requires 0 <= i < |es| => es[i].op)
  }

  /** What is in flight, oldest first. */
  function InFlight(s: Core): seq<Op> {
    Ops(s.rob) + TagOps(s) + AllocOps(s)
  }

  lemma RenamedOps(r: Rat, ops: seq<Op>, tag: nat, incr: bool, write: bool)
    ensures Ops(RenameGroup(r, ops, tag, incr, write)) == ops
  {
    GroupOps(r, ops, tag, incr, write);
  }

  lemma RenameFlight(p: Params, s: Core)
    requires Enabled(p, s, Rename)
    ensures InFlight(Step(p, s, Rename)) == InFlight(s)
  {
    hide RenameStep; hide RenameGroup; hide InFlight; hide MayWrite; hide RenameReady;
    var g := s.tagBuf.value;
    var grp := RenameGroup(s.spec.frat, g.ops, g.t.tag, g.t.incr, MayWrite(s.spec, g.t.tag));
    RenamedOps(s.spec.frat, g.ops, g.t.tag, g.t.incr, MayWrite(s.spec, g.t.tag));
    Joined(s, Step(p, s, Rename), grp);
  }

  lemma Joined(s: Core, n: Core, grp: seq<Instr>)
    requires n.rob == s.rob + grp && Ops(grp) == TagOps(s) && n.tagBuf.None? && n.allocBuf == s.allocBuf
    ensures InFlight(n) == InFlight(s)
  {
    assert Ops(n.rob) == Ops(s.rob) + Ops(grp);
  }

  lemma RetireFlight(p: Params, s: Core, k: nat, async: bool)
    requires Enabled(p, s, Retire(k, async))
    ensures k <= |s.rob| && InFlight(Step(p, s, Retire(k, async))) == InFlight(s)[k..]
  {
    hide Retired; hide CountIncr; hide FreeStep; hide NonZero; hide InFlight;
    Left(s, Step(p, s, Retire(k, async)), k);
  }

  lemma Left(s: Core, n: Core, k: nat)
    requires k <= |s.rob| && n.rob == s.rob[k..] && n.tagBuf == s.tagBuf && n.allocBuf == s.allocBuf
    ensures InFlight(n) == InFlight(s)[k..]
  {
    assert Ops(n.rob) == Ops(s.rob)[k..];
  }

  lemma OtherFlight(p: Params, s: Core, e: Event)
    requires Enabled(p, s, e) && !e.Rename? && !e.Retire?
    ensures InFlight(Step(p, s, e)) == InFlight(s) + if e.Alloc? then e.ops else []
  {
    hide TagStep; hide RollbackStep; hide RestoreStep; hide NonZero; hide OpDsts; hide AllocOk; hide TagOut;
    assert Step(p, s, e).rob == s.rob;
  }

  /** Every step leaves the order alone: the oldest leave, the newest join. */
  lemma FlightStep(p: Params, s: Core, e: Event)
    requires Enabled(p, s, e)
    ensures Leaving(e) <= |s.rob| <= |InFlight(s)|
    ensures InFlight(Step(p, s, e)) == (InFlight(s) + Joining(e))[Leaving(e)..]
  {
    match e {
      case Rename => RenameFlight(p, s);
      case Retire(k, async) => RetireFlight(p, s, k, async);
      case _ => OtherFlight(p, s, e);
    }
    hide Step; hide Enabled;
  }

  function Joining(e: Event): seq<Op> {
    if e.Alloc? then e.ops else []
  }

  lemma Shifted(f: seq<Op>, more: seq<Op>, r: nat, k: nat)
    requires r + k <= |f|
    ensures (f[r..] + more)[k..] == (f + more)[r + k..]
  {
  }

  /** Nothing is lost, repeated or reordered: what was fetched and has not retired is in flight. */
  lemma {:induction false} FetchOrder(p: Params, es: seq<Event>, s: Core)
    requires Runs(p, RenameCore.Init(p), es, s)
    ensures Retirements(es) <= |Fetched(es)| && InFlight(s) == Fetched(es)[Retirements(es)..]
    decreases |es|
  {
    hide InFlight; hide Step; hide Enabled;
    if es != [] {
      var m := LastStep(p, RenameCore.Init(p), es, s);
      var init, e := es[..|es| - 1], es[|es| - 1];
      FetchOrder(p, init, m);
      FlightStep(p, m, e);
      hide Runs;
      Shifted(Fetched(init), Joining(e), Retirements(init), Leaving(e));
    } else {
      NothingYet(p);
    }
  }

  lemma NothingYet(p: Params)
    ensures InFlight(RenameCore.Init(p)) == []
  {
  }

  /** Whether a group fetched now is on the current path: after a rollback, the one that names it. */
  predicate OnCurrentPath(s: Core, rb: Option<nat>) {
    !s.spec.rbActive || rb == Some(s.spec.target)
  }

  lemma TagFate(p: Params, a: Spec, rb: Option<nat>, ckpt: bool)
    requires SpecInv(p, a, None) && TagReady(p, a, rb)
    ensures var b := TagStep(a, rb, ckpt); var o := TagOut(a, rb, ckpt);
            var live := !a.rbActive || rb == Some(a.target);
            && (o.tag in b.active <==> live) && (MayWrite(b, o.tag) <==> live) && b.ring == a.ring && b.frat == a.frat
            && (live ==> !b.rbActive) && o.ckpt == (ckpt && live)
  {
  }

  /** A fetched group joins the end of the reorder buffer as it was fetched. On the current path it is
      live, unlocks the table, renames it and takes its checkpoint; otherwise it is dead and leaves
      table and checkpoints alone. */
  lemma GroupFate(p: Params, s: Core, ops: seq<Op>, ckpt: bool, rb: Option<nat>, t: Core)
    requires Inv(p, s) && s.tagBuf.None? && Runs(p, s, [Alloc(ops, ckpt, rb), Tag, Rename], t)
    ensures |t.rob| == |s.rob| + |ops| && t.rob[..|s.rob|] == s.rob && Ops(t.rob[|s.rob|..]) == ops
    ensures forall i :: |s.rob| <= i < |t.rob| ==> (t.rob[i].tag in t.spec.active <==> OnCurrentPath(s, rb))
    ensures OnCurrentPath(s, rb) ==>
              && !t.spec.rbActive && !t.spec.lock && t.spec.frat == WriteAll(s.spec.frat, ops)
              && |t.spec.ring| == |s.spec.ring| + (if ckpt then 1 else 0)
              && (ckpt ==> t.spec.ring[|s.spec.ring|] == Snap(t.spec.lastIssued, t.spec.frat))
    ensures !OnCurrentPath(s, rb) ==> t.spec.frat == s.spec.frat && t.spec.ring == s.spec.ring
  {
    var x := ThreeSteps(p, s, Alloc(ops, ckpt, rb), Tag, Rename, t);
    var u := Step(p, s, Alloc(ops, ckpt, rb));
    hide Runs; hide Partition; hide ValidBits; hide Speculation; hide Wakeups; hide Values; hide TagsOk;
    assert SpecInv(p, s.spec, None);
    TagFate(p, s.spec, rb, ckpt);
    var g := x.tagBuf.value;
    var grp := RenameGroup(x.spec.frat, g.ops, g.t.tag, g.t.incr, MayWrite(x.spec, g.t.tag));
    assert t.rob == s.rob + grp && t.rob[|s.rob|..] == grp;
    RenamedOps(x.spec.frat, g.ops, g.t.tag, g.t.incr, MayWrite(x.spec, g.t.tag));
    ProgramPath.GroupTags(x.spec.frat, g.ops, g.t.tag, g.t.incr, MayWrite(x.spec, g.t.tag));
    hide SpecInv; hide Shape; hide RenameGroup; hide WriteAll;
  }

  /** Three steps in a row; `x` is the state before the last. */
  lemma ThreeSteps(p: Params, s: Core, a: Event, b: Event, c: Event, t: Core) returns (x: Core)
    requires Runs(p, s, [a, b, c], t)
    ensures Enabled(p, s, a) && var u := Step(p, s, a);
            Enabled(p, u, b) && x == Step(p, u, b) && Enabled(p, x, c) && t == Step(p, x, c)
  {
    hide Enabled; hide Step;
    assert [a, b, c][1..] == [b, c] && [b, c][1..] == [c] && [c][1..] == [];
    var u := Step(p, s, a);
    assert Runs(p, u, [b, c], t);
    x := Step(p, u, b);
    assert Runs(p, x, [c], t);
    assert Runs(p, Step(p, x, c), [], t);
  }
}
