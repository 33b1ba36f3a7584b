/** The fetch target queue's pointers in terms of what happened: a run's events alone say where the
    queue stands, what may be trained and when a slot is free again. */
module FtqLaws {
  import opened FetchTargetQueue

  /** The entry named by the last commit, `c` if there was none. */
  function LastCommit(c: nat, es: seq<Event>): nat
    decreases |es|
  {
    if es == [] then c
    else if es[|es| - 1].Commit? then es[|es| - 1].p else LastCommit(c, es[..|es| - 1])
  }

  /** The last stall has not been ended, or `b` if there was none. */
  function StallOpen(b: bool, es: seq<Event>): bool
    decreases |es|
  {
    if es == [] then b
    else match es[|es| - 1]
      case Stall => true
      case Resume => false
      case _ => StallOpen(b, es[..|es| - 1])
  }

  function Trains(es: seq<Event>): nat
    decreases |es|
  {
    if es == [] then 0 else Trains(es[..|es| - 1]) + if es[|es| - 1].Train? then 1 else 0
  }

  function Allocs(es: seq<Event>): nat
    decreases |es|
  {
    if es == [] then 0 else Allocs(es[..|es| - 1]) + if es[|es| - 1].Alloc? then 1 else 0
  }

  function Sends(es: seq<Event>): nat
    decreases |es|
  {
    if es == [] then 0 else Sends(es[..|es| - 1]) + if es[|es| - 1].Send? then 1 else 0
  }

  /** Nothing steers fetch elsewhere. */
  predicate Straight(es: seq<Event>) {
    forall i :: 0 <= i < |es| ==> !es[i].Redirect? && !(es[i].Exit? && es[i].redirect)
  }

  lemma {:induction false} LastStep(s: Ftq, es: seq<Event>, t: Ftq) returns (m: Ftq)
    requires s.n == |s.cnt| > 0 && es != [] && Runs(s, es, t)
    ensures m.n == |m.cnt| == s.n && Runs(s, es[..|es| - 1], m)
    ensures Enabled(m, es[|es| - 1]) && t == Step(m, es[|es| - 1])
    decreases es
  {
    if |es| == 1 {
      m := s;
    } else {
      m := LastStep(Step(s, es[0]), es[1..], t);
      assert es[1..][..|es| - 2] == es[..|es| - 1][1..];
    }
  }

  /** Commit, training and stalls depend on nothing but their own events. */
  lemma {:induction false} EventsDecide(s: Ftq, es: seq<Event>, t: Ftq)
    requires s.n == |s.cnt| > 0 && Runs(s, es, t)
    ensures t.commit == LastCommit(s.commit, es) && t.train == s.train + Trains(es)
    ensures t.stalled == StallOpen(s.stalled, es)
    decreases |es|
  {
    if es != [] {
      var m := LastStep(s, es, t);
      EventsDecide(s, es[..|es| - 1], m);
    }
  }

  /** Training runs exactly while entries before the last committed one are untrained, allocation
      stops exactly `n` entries past the trained ones, and both stay within what was committed: each
      committed entry below the last is trained, in order and once, before its slot is used again. */
  lemma TrainedBeforeReuse(n: nat, es: seq<Event>, s: Ftq)
    requires n > 0 && Runs(Init(n), es, s) && s.n == |s.cnt| > 0
    ensures Enabled(s, Train) <==> Trains(es) < LastCommit(0, es)
    ensures Enabled(s, Alloc) <==> !StallOpen(false, es) && s.alloc < Trains(es) + n
    ensures Trains(es) <= LastCommit(0, es) <= s.fetch <= s.alloc <= Trains(es) + n
  {
    EventsDecide(Init(n), es, s);
    RunInv(Init(n), es, s);
    SameSize(Init(n), es, s);
  }

  /** Without redirects every allocation and every request takes the next position. */
  lemma {:induction false} StraightOn(s: Ftq, es: seq<Event>, t: Ftq)
    requires s.n == |s.cnt| > 0 && Runs(s, es, t) && Straight(es)
    ensures t.alloc == s.alloc + Allocs(es) && t.fetch == s.fetch + Sends(es)
    decreases |es|
  {
    if es != [] {
      var m := LastStep(s, es, t);
      StraightOn(s, es[..|es| - 1], m);
    }
  }

  /** A backend redirect starts over after the entry it names: requests for later positions are sent
      only for entries allocated since, and none of those before it is read again. */
  lemma RedirectStartsOver(n: nat, xs: seq<Event>, s: Ftq, p: nat, es: seq<Event>, t: Ftq)
    requires n > 0 && Runs(Init(n), xs, s) && s.n == |s.cnt| > 0 && Enabled(s, Redirect(p))
    requires Runs(Step(s, Redirect(p)), es, t) && Straight(es)
    ensures t.alloc == p + 1 + Allocs(es) && t.fetch == p + 1 + Sends(es) && Sends(es) <= Allocs(es)
    ensures t.pred >= p + 1
  {
    RunInv(Init(n), xs, s);
    var m := Step(s, Redirect(p));
    StepInv(s, Redirect(p));
    StraightOn(m, es, t);
    RunInv(m, es, t);
    PredictionsAdvance(m, es, t);
  }

  lemma {:induction false} PredictionsAdvance(s: Ftq, es: seq<Event>, t: Ftq)
    requires s.n == |s.cnt| > 0 && Runs(s, es, t) && Straight(es)
    ensures t.pred >= s.pred
    decreases |es|
  {
    if es != [] {
      var m := LastStep(s, es, t);
      PredictionsAdvance(s, es[..|es| - 1], m);
    }
  }

  /** So does a block that leaves unstale and redirects: its successor is the next entry. */
  lemma ExitStartsOver(n: nat, xs: seq<Event>, s: Ftq, es: seq<Event>, t: Ftq)
    requires n > 0 && Runs(Init(n), xs, s) && s.n == |s.cnt| > 0 && s.fly != [] && !Reported(s, s.fly[0])
    requires Runs(Step(s, Exit(true)), es, t) && Straight(es)
    ensures var q := s.fly[0].pos + 1;
            t.alloc == q + Allocs(es) && t.fetch == q + Sends(es) && Sends(es) <= Allocs(es)
  {
    RunInv(Init(n), xs, s);
    var m := Step(s, Exit(true));
    StepInv(s, Exit(true));
    StraightOn(m, es, t);
    RunInv(m, es, t);
  }

  /** A request that is sent goes to the next position, and its slot's generation is its own. */
  lemma SentIsNext(n: nat, es: seq<Event>, s: Ftq)
    requires n > 0 && Runs(Init(n), es, s) && s.n == |s.cnt| > 0 && Enabled(s, Send)
    ensures var t := Step(s, Send); var r := t.fly[|t.fly| - 1];
            && t.fly[..|s.fly|] == s.fly && |t.fly| == |s.fly| + 1
            && r.pos == s.fetch == t.fetch - 1 && !Reported(t, r) && r.pos < s.alloc
  {
    RunInv(Init(n), es, s);
    StepInv(s, Send);
    StaleIsDead(Step(s, Send), |s.fly|);
  }
}
