/** Whom the TLB answers, and in which address space. */
module TlbRequests {
  import opened Wrappers
  import opened PageTable
  import opened Tlb

  /** The address space switched to last, `a` if there was no switch. */
  function Space(a: nat, es: seq<Event>): nat
    decreases |es|
  {
    if es == [] then a
    else if es[|es| - 1].SwitchAsid? then es[|es| - 1].asid else Space(a, es[..|es| - 1])
  }

  /** The address space of the time the latest refill started. */
  function RefillSpace(a: nat, es: seq<Event>): nat
    decreases |es|
  {
    if es == [] then a
    else if es[|es| - 1].StartRefill? then Space(a, es[..|es| - 1]) else RefillSpace(a, es[..|es| - 1])
  }

  /** Page and kind of the latest request on a port. */
  function Asked(es: seq<Event>, i: nat): Option<(nat, bool)>
    decreases |es|
  {
    if es == [] then None
    else
      var e := es[|es| - 1];
      if e.Request? && e.port == i then Some((e.vpn, e.store)) else Asked(es[..|es| - 1], i)
  }

  lemma {:induction false} LastStep(s: State, es: seq<Event>, t: State) returns (m: State)
    requires Wf(s) && es != [] && Run(s, es, t)
    ensures Wf(m) && Run(s, es[..|es| - 1], m) && Enabled(m, es[|es| - 1]) && t == Step(m, es[|es| - 1])
    decreases es
  {
    hide Enabled; hide Step;
    if |es| == 1 {
      assert es[1..] == [] && es[..0] == [];
      m := s;
    } else {
      m := LastStep(Step(s, es[0]), es[1..], t);
      assert es[1..][..|es| - 2] == es[..|es| - 1][1..] && es[..|es| - 1][0] == es[0];
    }
  }

  ghost predicate Remembered(s: State, a: nat, es: seq<Event>) {
    && s.asid == Space(a, es)
    && (s.walk.Some? ==> s.walk.value.asid == RefillSpace(a, es) && s.walk.value.port < |s.ports|
                         && s.ports[s.walk.value.port].slow)
    && forall i :: 0 <= i < |s.ports| && s.ports[i].slow ==> Asked(es, i) == Some((s.ports[i].vpn, s.ports[i].store))
  }

  lemma StepRemembers(s: State, e: Event, a: nat, es: seq<Event>)
    requires Wf(s) && Enabled(s, e) && Remembered(s, a, es) && (s.walk.Some? ==> s.ports[s.walk.value.port].handling)
    requires forall i :: 0 <= i < |s.ports| && s.ports[i].handling ==> s.walk.Some? && s.walk.value.port == i
    ensures Remembered(Step(s, e), a, es + [e])
  {
    assert (es + [e])[..|es|] == es;
    forall i: nat
      ensures Asked(es + [e], i) == if e.Request? && e.port == i then Some((e.vpn, e.store)) else Asked(es, i)
    {
    }
    hide Asked; hide Space; hide RefillSpace;
  }

  lemma {:induction false} RunRemembers(s: State, es: seq<Event>, t: State)
    requires Start(s) && (forall i :: 0 <= i < |s.ports| ==> !s.ports[i].slow) && Run(s, es, t)
    ensures TlbInv(t) && Remembered(t, s.asid, es)
    decreases |es|
  {
    hide TlbInv; hide Step; hide Enabled;
    StartInv(s);
    RunInv(s, es, t);
    if es != [] {
      var m := LastStep(s, es, t);
      RunRemembers(s, es[..|es| - 1], m);
      Handling(m);
      StepRemembers(m, es[|es| - 1], s.asid, es[..|es| - 1]);
      assert es[..|es| - 1] + [es[|es| - 1]] == es;
    }
  }

  lemma Handling(s: State)
    requires TlbInv(s)
    ensures s.walk.Some? ==> s.walk.value.port < |s.ports| && s.ports[s.walk.value.port].handling
    ensures forall i :: 0 <= i < |s.ports| && s.ports[i].handling ==> s.walk.Some? && s.walk.value.port == i
  {
  }

  /** The port an event answers. */
  function PortOf(e: Event): nat
    requires e.Request? || e.LateHit? || e.FinishRefill?
  {
    e.port
  }

  /** Every answer is for the page and kind of access asked for last on its port: at once or late in
      the current address space, after a refill in the one current when the refill started. */
  lemma AnswersTheRequest(s: State, es: seq<Event>, t: State, e: Event)
    requires Start(s) && (forall i :: 0 <= i < |s.ports| ==> !s.ports[i].slow) && Run(s, es, t)
    requires t.env.Ok() && Enabled(t, e) && Output(t, e).Some?
    ensures var o := Output(t, e).value;
            && (e.Request? || e.LateHit? || e.FinishRefill?)
            && Asked(es + [e], PortOf(e)) == Some((o.vpn, o.store))
            && o.asid == if e.FinishRefill? then RefillSpace(s.asid, es) else Space(s.asid, es)
  {
    RunRemembers(s, es, t);
    Handling(t);
    assert (es + [e])[..|es|] == es;
    hide TlbInv; hide Run;
  }
}
