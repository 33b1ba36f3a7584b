/** Group retirement. One cycle inspects a window of the oldest reorder buffer entries,
    picks by mask arithmetic how many leave, and drives one commit or free port per entry.
    The reference is retiring the same entries one at a time. */
module Retirement {
  import opened RatModel
  import opened BitMask

  function Incrs(es: seq<Instr>): (m: Mask)
    ensures |m| == |es|
    ensures forall i :: 0 <= i < |es| ==> m[i] == es[i].incr
  {
    seq(|es|, i requires 0 <= i < |es| => es[i].incr)
  }

  // ---- the mask arithmetic of one cycle ----

  datatype Masks = Masks(retireCount: nat, retiring: Mask, freeTag: bool, tagActive: Mask,
                         noTrapCount: nat, exception: bool)

  /** active_tags is indexed by tag numbers, `last` is the number of the last retired tag. */
  function ComputeMasks(incr: Mask, done: Mask, exc: Mask, active: Mask, last: nat): (r: Masks)
    requires |incr| == |done| == |exc| && last < |active|
    ensures |r.retiring| == |r.tagActive| == |incr| && r.retireCount <= |incr|
  {
    var doneIgnore := From(Not(done));
    var limiting := Or(ClearLowest(incr), doneIgnore);
    var retiring := Before(limiting);
    var freeTag := Any(And(incr, retiring));
    var firstIncr := Or(incr, doneIgnore);
    var pos := FirstSet(firstIncr);
    var next := if freeTag then (last + 1) % |active| else last;
    var suffix := if active[last] then Before(firstIncr) else seq(|incr|, i => false);
    var prefix := seq(|incr|, i => active[next] && i >= pos);
    var tagActive := And(Or(suffix, prefix), retiring);
    var exceptionBits := And(exc, tagActive);
    Masks(FirstSet(limiting), retiring, freeTag, tagActive,
          FirstSet(Or(exceptionBits, Not(retiring))), Any(And(exceptionBits, retiring)))
  }

  /** The limiting mask starts at the second tag increment or at the first unfinished entry. */
  lemma LimitingStart(incr: Mask, done: Mask)
    requires |incr| == |done|
    ensures var k := FirstSet(Or(ClearLowest(incr), From(Not(done))));
            && k <= FirstSet(ClearLowest(incr)) && k <= FirstSet(Not(done))
            && (k == FirstSet(ClearLowest(incr)) || k == FirstSet(Not(done)))
  {
    var c, d := ClearLowest(incr), From(Not(done));
    var l := Or(c, d);
    var k := FirstSet(l);
    if k < |l| {
      assert l[k];
    }
    if FirstSet(c) < |c| { assert l[FirstSet(c)]; }
    var u := FirstSet(Not(done));
    if u < |done| { assert d[u] && l[u]; }
  }

  /** The cycle retires the longest finished prefix holding at most one tag increment. */
  lemma LongestPrefix(incr: Mask, done: Mask, exc: Mask, active: Mask, last: nat)
    requires |incr| == |done| == |exc| && last < |active|
    ensures var k := ComputeMasks(incr, done, exc, active, last).retireCount;
            && (forall i :: 0 <= i < k ==> done[i])
            && Count(incr[..k]) <= 1
            && forall n :: k < n <= |incr| && Count(incr[..n]) <= 1 ==> exists i :: 0 <= i < n && !done[i]
  {
    var k := ComputeMasks(incr, done, exc, active, last).retireCount;
    LimitingStart(incr, done);
    PrefixOne(incr, k);
    var u := FirstSet(Not(done));
    forall i | 0 <= i < k ensures done[i] { assert !Not(done)[i]; }
    forall n | k < n <= |incr| && Count(incr[..n]) <= 1
      ensures exists i :: 0 <= i < n && !done[i]
    {
      PrefixOne(incr, n);
      assert Not(done)[u] && !done[u];
    }
  }

  /** A tag is freed exactly when the retired prefix crosses an increment. */
  lemma FreesOnIncrement(incr: Mask, done: Mask, exc: Mask, active: Mask, last: nat)
    requires |incr| == |done| == |exc| && last < |active|
    ensures var m := ComputeMasks(incr, done, exc, active, last);
            m.freeTag <==> Count(incr[..m.retireCount]) == 1
  {
    var m := ComputeMasks(incr, done, exc, active, last);
    var k := m.retireCount;
    LimitingStart(incr, done);
    PrefixOne(incr, k);
    PrefixNone(incr, k);
    var f := FirstSet(incr);
    if f < k {
      assert And(incr, m.retiring)[f];
    }
  }

  /** The activity mask: below the first increment the last retired tag decides, from there
      on the next one. */
  lemma ActivityShape(incr: Mask, done: Mask, exc: Mask, active: Mask, last: nat, i: nat)
    requires |incr| == |done| == |exc| && last < |active| && i < |incr|
    ensures var m := ComputeMasks(incr, done, exc, active, last);
            var pos := FirstSet(Or(incr, From(Not(done))));
            var next := if m.freeTag then (last + 1) % |active| else last;
            m.tagActive[i] <==> i < m.retireCount && active[if i < pos then last else next]
  {
  }

  lemma FirstIncrementOrUnfinished(incr: Mask, done: Mask, k: nat)
    requires |incr| == |done| && k <= FirstSet(Not(done))
    ensures var pos := FirstSet(Or(incr, From(Not(done))));
            if FirstSet(incr) < k then pos == FirstSet(incr) else pos >= k
  {
    var first := Or(incr, From(Not(done)));
    if FirstSet(incr) < k {
      FirstSetIs(first, FirstSet(incr));
    }
  }

  function TagAt(incr: Mask, tags: nat, last: nat, i: nat): (t: nat)
    requires i < |incr| && last < tags
    ensures t < tags
  {
    (last + Count(incr[..i + 1])) % tags
  }

  lemma CountWithinPrefix(incr: Mask, n: nat)
    requires n <= |incr| && n <= FirstSet(ClearLowest(incr))
    ensures Count(incr[..n]) == if n <= FirstSet(incr) then 0 else 1
  {
    PrefixOne(incr, n);
    PrefixNone(incr, n);
  }

  /** Every retired entry is judged by the activity of its own tag, which is the last retired
      tag plus the increments up to and including the entry. */
  lemma OwnTagActivity(incr: Mask, done: Mask, exc: Mask, active: Mask, last: nat, i: nat)
    requires |incr| == |done| == |exc| && last < |active| && i < |incr|
    ensures var m := ComputeMasks(incr, done, exc, active, last);
            m.tagActive[i] <==> i < m.retireCount && active[TagAt(incr, |active|, last, i)]
  {
    var m := ComputeMasks(incr, done, exc, active, last);
    ActivityShape(incr, done, exc, active, last, i);
    if i < m.retireCount {
      FreesOnIncrement(incr, done, exc, active, last);
      LimitingStart(incr, done);
      DecidingTag(incr, done, |active|, last, i, m.retireCount, m.freeTag);
    }
  }

  lemma DecidingTag(incr: Mask, done: Mask, tags: nat, last: nat, i: nat, k: nat, freeTag: bool)
    requires |incr| == |done| && last < tags && i < k <= |incr|
    requires k <= FirstSet(ClearLowest(incr)) && k <= FirstSet(Not(done))
    requires freeTag <==> Count(incr[..k]) == 1
    ensures TagAt(incr, tags, last, i)
            == if i < FirstSet(Or(incr, From(Not(done)))) then last
               else if freeTag then (last + 1) % tags else last
  {
    FirstIncrementOrUnfinished(incr, done, k);
    CountWithinPrefix(incr, i + 1);
    CountWithinPrefix(incr, k);
  }

  // ---- one at a time ----

  /** `freed` lists, in order, the physical registers given back; entry 0 stands for "none". */
  datatype Outcome = Outcome(rrat: Rat, freed: seq<nat>, trapped: bool)

  /** An instruction commits when it is live, nothing before it trapped, and it does not fault
      itself; the carrier of an asynchronous interrupt commits and traps afterwards. */
  function RetireOne(o: Outcome, e: Instr, live: bool, exc: bool, async: bool): Outcome {
    if o.trapped || !live then o.(freed := o.freed + [e.op.rp])
    else if exc && !async then Outcome(o.rrat, o.freed + [e.op.rp], true)
    else Outcome(Commit(o.rrat, e.op), o.freed + [Look(o.rrat, e.op.rl)], exc)
  }

  function Commit(r: Rat, op: Op): (w: Rat)
    ensures |w| == |r|
  {
    if op.rl < |r| then r[op.rl := op.rp] else r
  }

  function RetireSeq(rrat: Rat, es: seq<Instr>, live: Mask, exc: Mask, async: bool, k: nat): (o: Outcome)
    requires k <= |es| <= |live| && |es| <= |exc|
    ensures |o.rrat| == |rrat| && |o.freed| == k
  {
    if k == 0 then Outcome(rrat, [], false)
    else RetireOne(RetireSeq(rrat, es, live, exc, async, k - 1), es[k - 1], live[k - 1], exc[k - 1], async)
  }

  // ---- the commit ports of the retired table ----

  datatype Port = Port(run: bool, op: Op)

  /** The table after all ports wrote, higher ports winning. */
  function Written(r: Rat, ports: seq<Port>): (w: Rat)
    ensures |w| == |r|
    decreases ports
  {
    if ports == [] then r
    else
      var w := Written(r, ports[..|ports| - 1]);
      var q := ports[|ports| - 1];
      if q.run then Commit(w, q.op) else w
  }

  /** Same-cycle bypass: the youngest earlier running port on the same register wins over
      the stored entry. */
  function Bypass(r: Rat, ports: seq<Port>, rl: nat): nat
    decreases ports
  {
    if ports == [] then Look(r, rl)
    else
      var q := ports[|ports| - 1];
      if q.run && q.op.rl == rl then q.op.rp else Bypass(r, ports[..|ports| - 1], rl)
  }

  lemma {:induction false} BypassReadsWritten(r: Rat, ports: seq<Port>, rl: nat)
    requires rl < |r|
    ensures Bypass(r, ports, rl) == Written(r, ports)[rl]
    decreases ports
  {
    if ports != [] {
      BypassReadsWritten(r, ports[..|ports| - 1], rl);
    }
  }

  // ---- the whole cycle ----

  predicate Commits(m: Masks, async: bool, i: nat)
    requires i < |m.tagActive|
  {
    i < m.noTrapCount + Bit(m.exception && async) && m.tagActive[i]
  }

  function Ports(es: seq<Instr>, m: Masks, async: bool): (q: seq<Port>)
    requires |m.tagActive| == |es|
    ensures |q| == |es|
  {
    seq(|es|, i requires 0 <= i < |es| => Port(Commits(m, async, i), es[i].op))
  }

  function GroupFreed(rrat: Rat, es: seq<Instr>, m: Masks, async: bool): (f: seq<nat>)
    requires |m.tagActive| == |es| && m.retireCount <= |es|
    ensures |f| == m.retireCount
  {
    var q := Ports(es, m, async);
    seq(m.retireCount, i requires 0 <= i < m.retireCount =>
      if q[i].run then Bypass(rrat, q[..i], es[i].op.rl) else es[i].op.rp)
  }

  function GroupOutcome(rrat: Rat, es: seq<Instr>, m: Masks, async: bool): Outcome
    requires |m.tagActive| == |es| && m.retireCount <= |es|
  {
    Outcome(Written(rrat, Ports(es, m, async)), GroupFreed(rrat, es, m, async), m.exception)
  }

  function OwnLive(incr: Mask, active: Mask, last: nat): (live: Mask)
    requires last < |active|
    ensures |live| == |incr|
  {
    seq(|incr|, i requires 0 <= i < |incr| => active[TagAt(incr, |active|, last, i)])
  }

  /** Where the trap point lies: below it nothing live faults, and if it is inside the
      retired prefix it is a live faulting entry. */
  lemma TrapPoint(incr: Mask, done: Mask, exc: Mask, active: Mask, last: nat)
    requires |incr| == |done| == |exc| && last < |active|
    ensures var m := ComputeMasks(incr, done, exc, active, last); var t := m.noTrapCount;
            && t <= m.retireCount
            && (forall i :: 0 <= i < t ==> !(exc[i] && m.tagActive[i]))
            && (t < m.retireCount ==> exc[t] && m.tagActive[t])
            && (m.exception <==> t < m.retireCount)
  {
    var m := ComputeMasks(incr, done, exc, active, last);
    var k, t := m.retireCount, m.noTrapCount;
    var bits := And(exc, m.tagActive);
    var stop := Or(bits, Not(m.retiring));
    assert forall i :: 0 <= i < |incr| ==> m.retiring[i] == (i < k);
    if k < |incr| { assert stop[k]; }
    if t < k {
      assert stop[t] && And(bits, m.retiring)[t];
    } else {
      assert forall i :: 0 <= i < k ==> !stop[i];
    }
    forall i | 0 <= i < t ensures !(exc[i] && m.tagActive[i]) { assert !stop[i]; }
  }

  /** What the masks of a cycle mean, with `live` the activity of each entry's own tag. */
  ghost predicate Meaning(m: Masks, exc: Mask, live: Mask) {
    && |m.tagActive| == |exc| == |live| && m.noTrapCount <= m.retireCount <= |exc|
    && (forall i :: 0 <= i < |exc| ==> m.tagActive[i] == (i < m.retireCount && live[i]))
    && (forall i :: 0 <= i < m.noTrapCount ==> !(exc[i] && m.tagActive[i]))
    && (m.noTrapCount < m.retireCount ==> exc[m.noTrapCount] && m.tagActive[m.noTrapCount])
    && (m.exception <==> m.noTrapCount < m.retireCount)
  }

  lemma MasksMeaning(incr: Mask, done: Mask, exc: Mask, active: Mask, last: nat)
    requires |incr| == |done| == |exc| && last < |active|
    ensures Meaning(ComputeMasks(incr, done, exc, active, last), exc, OwnLive(incr, active, last))
  {
    TrapPoint(incr, done, exc, active, last);
    forall i | 0 <= i < |incr|
      ensures ComputeMasks(incr, done, exc, active, last).tagActive[i]
              == (i < ComputeMasks(incr, done, exc, active, last).retireCount && OwnLive(incr, active, last)[i])
    {
      OwnTagActivity(incr, done, exc, active, last, i);
    }
  }

  /** One entry of the window: its port and the sequential machine agree. */
  lemma PortRefines(rrat: Rat, es: seq<Instr>, m: Masks, exc: Mask, live: Mask, async: bool, j: nat, o: Outcome)
    requires |es| == |exc| && Meaning(m, exc, live) && j < m.retireCount && es[j].op.rl < |rrat|
    requires o.rrat == Written(rrat, Ports(es, m, async)[..j]) && o.trapped == (m.noTrapCount < j)
    ensures var n := RetireOne(o, es[j], live[j], exc[j], async);
            && n.rrat == Written(rrat, Ports(es, m, async)[..j + 1])
            && n.freed == o.freed + [GroupFreed(rrat, es, m, async)[j]]
            && n.trapped == (m.noTrapCount < j + 1)
  {
    var q := Ports(es, m, async);
    assert q[..j + 1][..j] == q[..j] && q[..j + 1][j] == q[j];
    BypassReadsWritten(rrat, q[..j], es[j].op.rl);
    hide Bypass;
  }

  /** Prefix form of the refinement: after `j` entries the sequential machine holds what the
      first `j` ports produce. */
  lemma {:induction false} PrefixRefines(rrat: Rat, es: seq<Instr>, m: Masks, exc: Mask, live: Mask, async: bool,
                                         j: nat)
    requires |es| == |exc| && Meaning(m, exc, live) && j <= m.retireCount
    requires forall i :: 0 <= i < |es| ==> es[i].op.rl < |rrat|
    ensures RetireSeq(rrat, es, live, exc, async, j)
            == Outcome(Written(rrat, Ports(es, m, async)[..j]),
                       GroupFreed(rrat, es, m, async)[..j], m.noTrapCount < j)
    decreases j
  {
    if j > 0 {
      var n := j - 1;
      var f := GroupFreed(rrat, es, m, async);
      PrefixRefines(rrat, es, m, exc, live, async, n);
      PortRefines(rrat, es, m, exc, live, async, n, RetireSeq(rrat, es, live, exc, async, n));
      assert f[..j] == f[..n] + [f[n]];
    }
  }

  lemma {:induction false} IdlePorts(r: Rat, q: seq<Port>, k: nat)
    requires k <= |q| && forall i :: k <= i < |q| ==> !q[i].run
    ensures Written(r, q) == Written(r, q[..k])
    decreases |q| - k
  {
    if k < |q| {
      assert q[..|q| - 1][..k] == q[..k];
      IdlePorts(r, q[..|q| - 1], k);
    } else {
      assert q[..k] == q;
    }
  }

  /** Group retirement is sequential retirement: same table, same freed registers in the same
      order, same trap decision. */
  lemma GroupIsSequential(rrat: Rat, es: seq<Instr>, done: Mask, exc: Mask,
                          active: Mask, last: nat, async: bool)
    requires |es| == |done| == |exc| && last < |active|
    requires forall i :: 0 <= i < |es| ==> es[i].op.rl < |rrat|
    ensures var m := ComputeMasks(Incrs(es), done, exc, active, last);
            GroupOutcome(rrat, es, m, async)
            == RetireSeq(rrat, es, OwnLive(Incrs(es), active, last), exc, async, m.retireCount)
  {
    var m := ComputeMasks(Incrs(es), done, exc, active, last);
    MasksMeaning(Incrs(es), done, exc, active, last);
    GroupFollowsMeaning(rrat, es, m, exc, OwnLive(Incrs(es), active, last), async);
  }

  lemma GroupFollowsMeaning(rrat: Rat, es: seq<Instr>, m: Masks, exc: Mask, live: Mask, async: bool)
    requires |es| == |exc| && Meaning(m, exc, live)
    requires forall i :: 0 <= i < |es| ==> es[i].op.rl < |rrat|
    ensures GroupOutcome(rrat, es, m, async) == RetireSeq(rrat, es, live, exc, async, m.retireCount)
  {
    var q, f, k := Ports(es, m, async), GroupFreed(rrat, es, m, async), m.retireCount;
    PrefixRefines(rrat, es, m, exc, live, async, k);
    assert f[..k] == f;
    IdlePorts(rrat, q, k);
  }

  lemma DstsAppend(es: seq<Instr>, k: nat)
    requires k < |es|
    ensures multiset(Dsts(es[..k + 1])) == multiset(Dsts(es[..k])) + multiset{es[k].op.rp}
  {
    assert Dsts(es[..k + 1]) == Dsts(es[..k]) + [es[k].op.rp];
  }

  lemma StepConserves(o: Outcome, e: Instr, live: bool, exc: bool, async: bool)
    requires e.op.rl < |o.rrat|
    ensures var n := RetireOne(o, e, live, exc, async);
            multiset(n.rrat) + multiset(n.freed)
            == multiset(o.rrat) + multiset(o.freed) + multiset{e.op.rp}
  {
    var w := Commit(o.rrat, e.op);
    assert multiset(w) == multiset(o.rrat) - multiset{o.rrat[e.op.rl]} + multiset{e.op.rp};
    assert multiset(o.rrat)[o.rrat[e.op.rl]] > 0;
  }

  /** Registers are conserved: what was mapped or produced is afterwards mapped or freed. */
  lemma {:induction false} RetireConserves(rrat: Rat, es: seq<Instr>, live: Mask, exc: Mask, async: bool, k: nat)
    requires k <= |es| <= |live| && |es| <= |exc|
    requires forall i :: 0 <= i < |es| ==> es[i].op.rl < |rrat|
    ensures var o := RetireSeq(rrat, es, live, exc, async, k);
            multiset(rrat) + multiset(Dsts(es[..k])) == multiset(o.rrat) + multiset(o.freed)
    decreases k
  {
    if k > 0 {
      var o, e := RetireSeq(rrat, es, live, exc, async, k - 1), es[k - 1];
      assert RetireSeq(rrat, es, live, exc, async, k) == RetireOne(o, e, live[k - 1], exc[k - 1], async);
      hide RetireSeq; hide RetireOne; hide Dsts;
      RetireConserves(rrat, es, live, exc, async, k - 1);
      StepConserves(o, e, live[k - 1], exc[k - 1], async);
      DstsAppend(es, k - 1);
    }
  }
}
