/** The fetch target queue and the requests it has in flight in the fetch unit. Positions are
    unbounded here; the hardware keeps them as parity pointers and generations in two bits. */
module FetchTargetQueue {
  import opened Cyclic
  import opened FtqPointers

  /** A request in flight: its position, its two-bit generation, the running number of its
      slot's issue, and whether a redirect invalidated it. The last two are history. */
  datatype Req = Req(pos: nat, gen: nat, issue: nat, dead: bool)

  datatype Ftq = Ftq(
    n: nat,             // slots
    alloc: nat, fetch: nat, commit: nat, train: nat,
    pred: nat,          // next prediction to read
    cnt: seq<nat>,      // how often each slot was issued
    fly: seq<Req>,      // oldest first
    stalled: bool,      // an exception is pending on the speculative path
    rewound: bool)      // the backend has redirected since the stall began

  const MAX_IN_FLIGHT := 4

  function Init(n: nat): Ftq {
    Ftq(n, 0, 0, 0, 0, 0, seq(n, i => 0), [], false, true)
  }

  datatype Event =
    | Alloc
    | Send
    | Exit(redirect: bool)
    | Commit(p: nat)
    | Train
    | Redirect(p: nat)
    | Stall
    | Resume

  function Slot(s: Ftq, pos: nat): (k: nat)
    requires s.n > 0
    ensures k < s.n
  {
    pos % s.n
  }

  /** check_stale without a stall: generation mismatch, or at or past the fetch pointer. */
  predicate Stale(s: Ftq, r: Req)
    requires s.n == |s.cnt| > 0
  {
    s.cnt[Slot(s, r.pos)] % 4 != r.gen || r.pos >= s.fetch
  }

  /** check_stale: during a stall every request is reported stale. */
  predicate Reported(s: Ftq, r: Req)
    requires s.n == |s.cnt| > 0
  {
    s.stalled || Stale(s, r)
  }

  /** Retirement and the backend only name blocks that left the fetch unit, which is in order. */
  predicate Passed(s: Ftq, p: nat) {
    s.commit <= p < s.fetch && forall i :: 0 <= i < |s.fly| ==> p < s.fly[i].pos
  }

  predicate Enabled(s: Ftq, e: Event)
    requires s.n == |s.cnt| > 0
  {
    match e
    case Alloc => !s.stalled && s.alloc < s.train + s.n
    case Send => !s.stalled && s.fetch < s.alloc && |s.fly| < MAX_IN_FLIGHT
    case Exit(_) => s.fly != []
    case Commit(p) => Passed(s, p)
    case Train => s.train < s.commit
    case Redirect(p) => Passed(s, p)
    case Stall => !s.stalled
    case Resume => s.stalled && s.rewound
  }

  /** Rewinding to `q` invalidates every request at or past it. */
  function Kill(fly: seq<Req>, q: nat): (r: seq<Req>)
    ensures |r| == |fly|
    ensures forall i :: 0 <= i < |fly| ==> r[i] == fly[i].(dead := fly[i].dead || fly[i].pos >= q)
  {
    seq(|fly|, i requires 0 <= i < |fly| => fly[i].(dead := fly[i].dead || fly[i].pos >= q))
  }

  function Step(s: Ftq, e: Event): (t: Ftq)
    requires s.n == |s.cnt| > 0 && Enabled(s, e)
    ensures t.n == |t.cnt| == s.n
  {
    match e
    case Alloc => s.(alloc := s.alloc + 1)
    case Send =>
      var k := Slot(s, s.fetch);
      var c := s.cnt[k] + 1;
      s.(fetch := s.fetch + 1, cnt := s.cnt[k := c], fly := s.fly + [Req(s.fetch, c % 4, c, false)])
    case Exit(redirect) =>
      var r, rest := s.fly[0], s.fly[1..];
      if Reported(s, r) then s.(fly := rest)
      else if redirect then
        s.(fly := Kill(rest, r.pos + 1), pred := s.pred + 1, alloc := r.pos + 1, fetch := r.pos + 1)
      else s.(fly := rest, pred := s.pred + 1)
    case Commit(p) => s.(commit := p)
    case Train => s.(train := s.train + 1)
    case Redirect(p) => s.(fly := Kill(s.fly, p + 1), alloc := p + 1, fetch := p + 1, pred := p + 1, rewound := true)
    case Stall => s.(stalled := true, rewound := false)
    case Resume => s.(stalled := false)
  }

  // ---- invariant ----

  ghost predicate Order(s: Ftq) {
    && s.n == |s.cnt| > 0 && |s.fly| <= MAX_IN_FLIGHT
    && s.train <= s.commit <= s.fetch <= s.alloc <= s.train + s.n
    && forall i :: 0 <= i < |s.fly| ==> s.commit <= s.fly[i].pos < s.train + s.n
  }

  /** How many requests after `i` went to the slot of position `pos`. */
  function Later(n: nat, fly: seq<Req>, i: nat, pos: nat): (c: nat)
    requires n > 0 && i <= |fly|
    ensures c <= |fly| - i
    decreases |fly| - i
  {
    if i == |fly| then 0
    else (if fly[i].pos % n == pos % n then 1 else 0) + Later(n, fly, i + 1, pos)
  }

  /** Requests leave in order, so every issue of a slot after a request still in flight is in
      flight too. */
  ghost predicate Generations(s: Ftq)
    requires s.n == |s.cnt| > 0
  {
    forall i :: 0 <= i < |s.fly| ==> GenOk(s, i)
  }

  ghost predicate GenOk(s: Ftq, i: nat)
    requires s.n == |s.cnt| > 0 && i < |s.fly|
  {
    && s.fly[i].gen == s.fly[i].issue % 4
    && s.cnt[Slot(s, s.fly[i].pos)] == s.fly[i].issue + Later(s.n, s.fly, i + 1, s.fly[i].pos)
  }

  /** The number of invalidated requests; they are the oldest ones. */
  function Dead(fly: seq<Req>): (k: nat)
    ensures k <= |fly|
    ensures forall i :: 0 <= i < k ==> fly[i].dead
    ensures k < |fly| ==> !fly[k].dead
  {
    if fly == [] || !fly[0].dead then 0 else 1 + Dead(fly[1..])
  }

  /** Live requests are the youngest ones, at consecutive positions from the next prediction up
      to the fetch pointer. */
  ghost predicate LiveRun(s: Ftq) {
    var k := Dead(s.fly);
    && s.fetch == s.pred + (|s.fly| - k)
    && forall i :: k <= i < |s.fly| ==> !s.fly[i].dead && s.fly[i].pos == s.pred + (i - k)
  }

  /** An invalidated request is still ahead of fetch, or its position was fetched again. */
  ghost predicate DeadSeen(s: Ftq) {
    forall i :: 0 <= i < |s.fly| && s.fly[i].dead && s.fly[i].pos < s.fetch ==>
      exists j :: i < j < |s.fly| && s.fly[j].pos == s.fly[i].pos
  }

  /** A stall drops live requests without reading their predictions; the redirect that must precede
      the end of the stall brings the pointers together again. */
  predicate Synced(s: Ftq) {
    !s.stalled || s.rewound
  }

  ghost predicate Inv(s: Ftq) {
    && Order(s) && Generations(s) && (Synced(s) ==> LiveRun(s) && DeadSeen(s))
    && (s.stalled && s.rewound ==> AllDead(s))
  }

  ghost predicate AllDead(s: Ftq) {
    forall i :: 0 <= i < |s.fly| ==> s.fly[i].dead
  }

  lemma {:induction false} LaterFound(n: nat, fly: seq<Req>, i: nat, j: nat, pos: nat)
    requires n > 0 && i <= j < |fly| && fly[j].pos % n == pos % n
    ensures Later(n, fly, i, pos) > 0
    decreases j - i
  {
    if i < j { LaterFound(n, fly, i + 1, j, pos); }
  }

  lemma {:induction false} LaterNone(n: nat, fly: seq<Req>, i: nat, pos: nat)
    requires n > 0 && i <= |fly| && forall j :: i <= j < |fly| ==> fly[j].pos % n != pos % n
    ensures Later(n, fly, i, pos) == 0
    decreases |fly| - i
  {
    if i < |fly| { LaterNone(n, fly, i + 1, pos); }
  }

  /** No aliasing: with at most four requests in flight, the two-bit generations differ exactly
      when the slot was issued again after the request. */
  lemma GenerationsDontAlias(s: Ftq, i: nat)
    requires Order(s) && Generations(s) && i < |s.fly|
    ensures s.cnt[Slot(s, s.fly[i].pos)] % 4 != s.fly[i].gen <==> s.cnt[Slot(s, s.fly[i].pos)] > s.fly[i].issue
  {
    var r := s.fly[i];
    assert GenOk(s, i);
    var c := Later(s.n, s.fly, i + 1, r.pos);
    assert c <= 3;
    ModShift(r.issue, c, 4);
  }

  /** A request is stale exactly when a redirect invalidated it after it was issued. */
  lemma StaleIsDead(s: Ftq, i: nat)
    requires Inv(s) && Synced(s) && i < |s.fly|
    ensures Stale(s, s.fly[i]) <==> s.fly[i].dead
  {
    var r := s.fly[i];
    GenerationsDontAlias(s, i);
    assert GenOk(s, i);
    hide GenOk; hide Generations;
    if r.dead {
      if r.pos < s.fetch {
        var j :| i < j < |s.fly| && s.fly[j].pos == r.pos;
        LaterFound(s.n, s.fly, i + 1, j, r.pos);
      }
    } else {
      forall j | i + 1 <= j < |s.fly| ensures s.fly[j].pos % s.n != r.pos % s.n {
        ModInjective(r.pos, s.fly[j].pos, s.n);
      }
      LaterNone(s.n, s.fly, i + 1, r.pos);
    }
  }

  // ---- every step keeps the invariant ----

  lemma {:induction false} LaterAppend(n: nat, fly: seq<Req>, r: Req, i: nat, pos: nat)
    requires n > 0 && i <= |fly|
    ensures Later(n, fly + [r], i, pos) == Later(n, fly, i, pos) + (if r.pos % n == pos % n then 1 else 0)
    decreases |fly| - i
  {
    if i < |fly| { LaterAppend(n, fly, r, i + 1, pos); }
  }

  /** Only positions matter. */
  lemma {:induction false} LaterSame(n: nat, a: seq<Req>, b: seq<Req>, i: nat, k: nat, pos: nat)
    requires n > 0 && i <= |a| && k + |a| == |b| && forall j :: i <= j < |a| ==> a[j].pos == b[k + j].pos
    ensures Later(n, a, i, pos) == Later(n, b, k + i, pos)
    decreases |a| - i
  {
    if i < |a| { LaterSame(n, a, b, i + 1, k, pos); }
  }

  lemma DeadIs(fly: seq<Req>, k: nat)
    requires k <= |fly| && (forall i :: 0 <= i < k ==> fly[i].dead) && (k < |fly| ==> !fly[k].dead)
    ensures Dead(fly) == k
  {
  }

  lemma SendGenerations(s: Ftq)
    requires Inv(s) && Enabled(s, Send)
    ensures Generations(Step(s, Send))
  {
    var t := Step(s, Send);
    forall i | 0 <= i < |t.fly| ensures GenOk(t, i) {
      if i < |s.fly| {
        assert GenOk(s, i);
        LaterAppend(s.n, s.fly, t.fly[|s.fly|], i + 1, t.fly[i].pos);
      }
    }
  }

  lemma SendInv(s: Ftq)
    requires Inv(s) && Enabled(s, Send)
    ensures Inv(Step(s, Send))
  {
    hide Generations;
    var t := Step(s, Send);
    SendGenerations(s);
    DeadIs(t.fly, Dead(s.fly));
    forall i | 0 <= i < |t.fly| && t.fly[i].dead && t.fly[i].pos < t.fetch
      ensures exists j :: i < j < |t.fly| && t.fly[j].pos == t.fly[i].pos
    {
      if s.fly[i].pos < s.fetch {
        var j :| i < j < |s.fly| && s.fly[j].pos == s.fly[i].pos;
        assert t.fly[j].pos == t.fly[i].pos;
      } else {
        assert t.fly[|s.fly|].pos == t.fly[i].pos;
      }
    }
  }

  /** Dropping the `k` oldest requests and marking others dead keeps generations. */
  lemma KeepGenerations(s: Ftq, t: Ftq, k: nat)
    requires s.n == |s.cnt| > 0 && Generations(s) && t.n == s.n && t.cnt == s.cnt && |t.fly| + k == |s.fly|
    requires forall i :: 0 <= i < |t.fly| ==> t.fly[i] == s.fly[i + k].(dead := t.fly[i].dead)
    ensures Generations(t)
  {
    forall i | 0 <= i < |t.fly| ensures GenOk(t, i) {
      assert GenOk(s, i + k);
      LaterSame(s.n, t.fly, s.fly, i + 1, k, t.fly[i].pos);
    }
  }

  lemma ExitDead(s: Ftq, t: Ftq)
    requires Order(s) && LiveRun(s) && DeadSeen(s) && s.fly != [] && s.fly[0].dead && t == s.(fly := s.fly[1..])
    ensures Order(t) && LiveRun(t) && DeadSeen(t)
  {
    DeadIs(t.fly, Dead(s.fly) - 1);
    forall i | 0 <= i < |t.fly| && t.fly[i].dead && t.fly[i].pos < t.fetch
      ensures exists j :: i < j < |t.fly| && t.fly[j].pos == t.fly[i].pos
    {
      var j :| i + 1 < j < |s.fly| && s.fly[j].pos == s.fly[i + 1].pos;
      assert t.fly[j - 1].pos == t.fly[i].pos;
    }
  }

  lemma ExitLive(s: Ftq, t: Ftq)
    requires Order(s) && LiveRun(s) && s.fly != [] && !s.fly[0].dead && t == s.(fly := s.fly[1..], pred := s.pred + 1)
    ensures Order(t) && LiveRun(t) && DeadSeen(t)
  {
    assert Dead(s.fly) == 0;
    DeadIs(t.fly, 0);
  }

  /** Rewinding to `q` when every request lies at or past it. */
  lemma Rewound(s: Ftq, t: Ftq, q: nat)
    requires Order(s) && s.commit <= q <= s.alloc && forall i :: 0 <= i < |s.fly| ==> s.fly[i].pos >= q
    requires t == s.(fly := Kill(s.fly, q), alloc := q, fetch := q, pred := q, rewound := t.rewound)
    ensures Order(t) && LiveRun(t) && DeadSeen(t)
  {
    DeadIs(t.fly, |t.fly|);
  }

  /** During a stall the oldest request is dropped, whatever it is. */
  lemma DropInv(s: Ftq, redirect: bool)
    requires Inv(s) && s.fly != [] && s.stalled
    ensures Inv(Step(s, Exit(redirect)))
  {
    var t := s.(fly := s.fly[1..]);
    assert t == Step(s, Exit(redirect));
    hide Generations; hide Stale; hide DeadSeen; hide LiveRun; hide Step;
    KeepGenerations(s, t, 1);
    if s.rewound { ExitDead(s, t); }
  }

  function LeftLive(s: Ftq): Ftq
    requires s.fly != []
  {
    s.(fly := s.fly[1..], pred := s.pred + 1)
  }

  lemma ExitLiveInv(s: Ftq)
    requires Inv(s) && s.fly != [] && !s.stalled && !s.fly[0].dead
    ensures Inv(LeftLive(s))
  {
    hide Generations; hide DeadSeen;
    KeepGenerations(s, LeftLive(s), 1);
    ExitLive(s, LeftLive(s));
  }

  /** A live request that redirects rewinds over everything younger. */
  lemma ExitRedirectInv(m: Ftq, q: nat)
    requires Inv(m) && !m.stalled && m.commit <= q <= m.alloc && forall i :: 0 <= i < |m.fly| ==> m.fly[i].pos >= q
    ensures Inv(m.(fly := Kill(m.fly, q), alloc := q, fetch := q, pred := q))
  {
    hide Generations; hide DeadSeen; hide LiveRun;
    var t := m.(fly := Kill(m.fly, q), alloc := q, fetch := q, pred := q);
    KillKeeps(m, t, q);
    Rewound(m, t, q);
  }

  lemma LiveBounds(s: Ftq)
    requires Order(s) && LiveRun(s) && s.fly != [] && !s.fly[0].dead
    ensures s.commit <= s.fly[0].pos < s.alloc && s.fly[0].pos == s.pred
    ensures forall i :: 1 <= i < |s.fly| ==> s.fly[i].pos > s.fly[0].pos
  {
    assert Dead(s.fly) == 0;
  }

  lemma ExitInv(s: Ftq, redirect: bool)
    requires Inv(s) && s.fly != [] && !s.stalled
    ensures Inv(Step(s, Exit(redirect)))
  {
    StaleIsDead(s, 0);
    hide Generations; hide Stale; hide DeadSeen; hide LiveRun; hide Order;
    if s.fly[0].dead {
      var t := s.(fly := s.fly[1..]);
      KeepGenerations(s, t, 1);
      ExitDead(s, t);
    } else {
      LiveBounds(s);
      ExitLiveInv(s);
      var m, q := LeftLive(s), s.fly[0].pos + 1;
      if redirect {
        ExitRedirectInv(m, q);
        assert Step(s, Exit(redirect)) == m.(fly := Kill(m.fly, q), alloc := q, fetch := q, pred := q);
      }
    }
  }

  lemma KillKeeps(s: Ftq, t: Ftq, q: nat)
    requires s.n == |s.cnt| > 0 && Generations(s) && t.n == s.n && t.cnt == s.cnt && t.fly == Kill(s.fly, q)
    ensures Generations(t)
  {
    hide Generations; hide GenOk; hide Kill;
    forall i | 0 <= i < |t.fly| ensures t.fly[i] == s.fly[i + 0].(dead := t.fly[i].dead) { }
    KeepGenerations(s, t, 0);
  }

  lemma RedirectInv(s: Ftq, p: nat)
    requires Inv(s) && Enabled(s, Redirect(p))
    ensures Inv(Step(s, Redirect(p)))
  {
    hide Generations; hide LiveRun; hide DeadSeen;
    var t := Step(s, Redirect(p));
    KillKeeps(s, t, p + 1);
    Rewound(s, t, p + 1);
  }

  lemma PointerInv(s: Ftq, e: Event)
    requires Inv(s) && Enabled(s, e) && (e.Alloc? || e.Commit? || e.Train? || e.Stall? || e.Resume?)
    ensures Inv(Step(s, e))
  {
    var t := Step(s, e);
    assert Order(t) && (Synced(t) ==> LiveRun(t) && DeadSeen(t));
    hide Order; hide LiveRun; hide DeadSeen; hide Generations;
    KeepGenerations(s, t, 0);
  }

  lemma StepInv(s: Ftq, e: Event)
    requires Inv(s) && Enabled(s, e)
    ensures Inv(Step(s, e))
  {
    hide Generations; hide LiveRun; hide DeadSeen; hide Step;
    match e {
      case Send => SendInv(s);
      case Exit(redirect) => if s.stalled { DropInv(s, redirect); } else { ExitInv(s, redirect); }
      case Redirect(p) => RedirectInv(s, p);
      case _ => PointerInv(s, e);
    }
  }

  ghost predicate Runs(s: Ftq, es: seq<Event>, t: Ftq)
    requires s.n == |s.cnt| > 0
    decreases es
  {
    if es == [] then s == t else Enabled(s, es[0]) && Runs(Step(s, es[0]), es[1..], t)
  }

  lemma {:induction false} RunInv(s: Ftq, es: seq<Event>, t: Ftq)
    requires Inv(s) && Runs(s, es, t)
    ensures Inv(t)
    decreases es
  {
    if es != [] {
      StepInv(s, es[0]);
      RunInv(Step(s, es[0]), es[1..], t);
    }
  }

  /** Stale detection is exact on every run, exception stalls included: a request in flight is
      reported stale exactly when a redirect rewound fetch over it or the queue is stalled, and its
      generation differs from its slot's exactly when the slot was issued again. */
  lemma StaleDetection(n: nat, es: seq<Event>, s: Ftq, i: nat)
    requires n > 0 && Runs(Init(n), es, s) && i < |s.fly| && s.n == |s.cnt| > 0
    ensures Reported(s, s.fly[i]) <==> s.stalled || s.fly[i].dead
    ensures s.cnt[Slot(s, s.fly[i].pos)] % 4 != s.fly[i].gen <==> s.cnt[Slot(s, s.fly[i].pos)] > s.fly[i].issue
  {
    RunInv(Init(n), es, s);
    if !s.stalled { StaleIsDead(s, i); }
    GenerationsDontAlias(s, i);
  }

  /** Predictions are read in queue order: a request that leaves unstale is the one whose
      prediction is next, also after stalls that dropped requests with their predictions unread. */
  lemma PredictionsInOrder(n: nat, es: seq<Event>, s: Ftq)
    requires n > 0 && Runs(Init(n), es, s) && s.n == |s.cnt| > 0 && s.fly != [] && !Reported(s, s.fly[0])
    ensures s.fly[0].pos == s.pred
  {
    RunInv(Init(n), es, s);
    StaleIsDead(s, 0);
  }

  /** Every queue run keeps the four pointers ordered within one lap, so each comparison the
      hardware makes on parity pointers is a comparison of positions. */
  lemma ComparisonsInWindow(n: nat, es: seq<Event>, s: Ftq, i: nat, p: nat)
    requires n > 0 && Runs(Init(n), es, s)
    ensures s.n == n && s.train <= s.commit <= s.fetch <= s.alloc <= s.train + n
    ensures Full(At(n, s.alloc), At(n, s.train)) <==> !(s.alloc < s.train + n)
    ensures Lt(At(n, s.fetch), At(n, s.alloc)) <==> s.fetch < s.alloc
    ensures Lt(At(n, s.train), At(n, s.commit)) <==> s.train < s.commit
    ensures Passed(s, p) ==> Le(At(n, s.commit), At(n, p)) && !Empty(At(n, p + 1), At(n, s.commit))
    ensures i < |s.fly| ==> (Ge(At(n, s.fly[i].pos), At(n, s.fetch)) <==> s.fly[i].pos >= s.fetch)
  {
    RunInv(Init(n), es, s);
    SameSize(Init(n), es, s);
    FillLevel(n, s.train, s.alloc);
    LtWindow(n, s.fetch, s.alloc);
    LtWindow(n, s.train, s.commit);
    if Passed(s, p) {
      LeWindow(n, s.commit, p);
      FillLevel(n, s.commit, p + 1);
    }
    if i < |s.fly| { GeWindow(n, s.fly[i].pos, s.fetch); }
  }

  lemma {:induction false} SameSize(s: Ftq, es: seq<Event>, t: Ftq)
    requires s.n == |s.cnt| > 0 && Runs(s, es, t)
    ensures t.n == s.n
    decreases es
  {
    if es != [] { SameSize(Step(s, es[0]), es[1..], t); }
  }
}
