/** The fetch target queue's registers: parity pointers and two-bit generations. */
module FtqHardware {
  import opened Cyclic
  import opened Powers
  import opened FtqPointers
  import opened FetchTargetQueue

  /** The two bits kept of an issue count. */
  function Gen(count: nat): nat {
    count % 4
  }

  function NextGen(g: nat): nat {
    (g + 1) % 4
  }

  /** What sending does to the generation of the slot at the fetch pointer. */
  lemma SendCounts(s: Ftq, ptr: Ptr)
    requires Inv(s) && Enabled(s, Send) && ptr == At(s.n, s.fetch)
    ensures var t := Step(s, Send); var k := ptr.ptr;
            && k < s.n && NextGen(Gen(s.cnt[k])) == Gen(t.cnt[k])
            && (forall i :: 0 <= i < s.n && i != k ==> t.cnt[i] == s.cnt[i])
            && t.n == s.n && t.fetch == s.fetch + 1 && t.fly[|t.fly| - 1].gen == Gen(t.cnt[k])
            && t.alloc == s.alloc && t.commit == s.commit && t.train == s.train && t.pred == s.pred
  {
    hide Generations, LiveRun, DeadSeen;
    ModShift(s.cnt[ptr.ptr], 1, 4);
  }

  /** What the departure of the oldest request changes. */
  lemma LeaveFields(s: Ftq, redirect: bool)
    requires Inv(s) && s.fly != []
    ensures var t := Step(s, Exit(redirect)); var stale := Reported(s, s.fly[0]); var q := s.fly[0].pos + 1;
            && t.cnt == s.cnt && t.n == s.n && t.commit == s.commit && t.train == s.train && t.stalled == s.stalled
            && t.pred == (if stale then s.pred else s.pred + 1)
            && t.alloc == (if !stale && redirect then q else s.alloc)
            && t.fetch == (if !stale && redirect then q else s.fetch)
            && (!stale ==> s.fly[0].pos == s.pred)
  {
    if Synced(s) { StaleIsDead(s, 0); }
    hide Stale;
  }

  lemma RedirectFields(s: Ftq, p: nat)
    requires Inv(s) && Enabled(s, Redirect(p))
    ensures var t := Step(s, Redirect(p));
            && t.cnt == s.cnt && t.n == s.n && t.commit == s.commit && t.train == s.train && t.stalled == s.stalled
            && t.alloc == t.fetch == t.pred == p + 1
  {
    hide Generations, LiveRun, DeadSeen;
  }

  class Queue {
    const n: nat
    var alloc: Ptr
    var fetch: Ptr
    var commit: Ptr
    var train: Ptr
    var pred: Ptr
    var gen: array<nat>
    var stalled: bool         // the stall guard is not ready
    ghost var abs: Ftq

    ghost predicate Valid()
      reads this, gen
    {
      && n > 0 && gen.Length == n && abs.n == n && Inv(abs)
      && alloc == At(n, abs.alloc) && fetch == At(n, abs.fetch) && commit == At(n, abs.commit)
      && train == At(n, abs.train) && pred == At(n, abs.pred) && stalled == abs.stalled
      && forall i :: 0 <= i < n ==> gen[i] == Gen(abs.cnt[i])
    }

    constructor (size: nat)
      requires size > 0
      ensures Valid() && fresh(gen) && n == size && abs == Init(size)
    {
      n := size;
      var z := Ptr(0, false);
      alloc, fetch, commit, train, pred, stalled := z, z, z, z, z, false;
      var g := new nat[size](i => 0);
      gen, abs := g, Init(size);
      new;
      SplitUnique(0, size, 0, 0);
    }

    /** FTQ_Alloc: a slot is free only once training walked past it. */
    method AllocEntry() returns (ok: bool)
      requires Valid()
      modifies `alloc, `abs
      ensures Valid() && ok == (!old(abs).stalled && old(abs).alloc < old(abs).train + n)
      ensures abs == if ok then Step(old(abs), Alloc) else old(abs)
      ensures alloc == if ok then At(n, old(abs).alloc + 1) else old(alloc)
    {
      FillLevel(n, abs.train, abs.alloc);
      ok := !stalled && !Full(alloc, train);
      if ok {
        StepInv(abs, Alloc);
        IncIsNext(n, abs.alloc);
        alloc, abs := Inc(n, alloc), Step(abs, Alloc);
      }
    }

    /** FTQ_Send_Fetch_Requests, admitted while fewer than four requests are in flight. */
    method SendRequest() returns (ptr: Ptr, g: nat)
      requires Valid() && Enabled(abs, Send)
      modifies `fetch, `abs, gen
      ensures Valid() && abs == Step(old(abs), Send)
      ensures ptr == At(n, old(abs).fetch) && g == abs.fly[|abs.fly| - 1].gen
    {
      ghost var s := abs;
      StepInv(s, Send);
      IncIsNext(n, s.fetch);
      hide Inv, At, Inc, Step, Enabled, Gen, NextGen;
      ptr := fetch;
      SendCounts(s, ptr);
      g := NextGen(gen[ptr.ptr]);
      gen[ptr.ptr] := g;
      fetch, abs := Inc(n, fetch), Step(s, Send);
    }

    /** check_stale for the i-th request in flight. */
    method CheckStale(ptr: Ptr, g: nat, ghost i: nat) returns (stale: bool)
      requires Valid() && i < |abs.fly| && ptr == At(n, abs.fly[i].pos) && g == abs.fly[i].gen
      ensures stale <==> abs.stalled || abs.fly[i].dead
      ensures stale <==> Reported(abs, abs.fly[i])
    {
      if Synced(abs) { StaleIsDead(abs, i); }
      GeWindow(n, abs.fly[i].pos, abs.fetch);
      stale := gen[ptr.ptr] != g || Ge(ptr, fetch) || stalled;
    }

    /** The oldest request leaves the fetch unit; a live one reads its prediction and may
        redirect fetch to the entry after its own. */
    method Leave(ptr: Ptr, stale: bool, redirect: bool)
      requires Valid() && abs.fly != [] && ptr == At(n, abs.fly[0].pos) && stale == Reported(abs, abs.fly[0])
      modifies `alloc, `fetch, `pred, `abs
      ensures Valid() && abs == Step(old(abs), Exit(redirect))
      ensures !stale ==> ptr == old(pred)
    {
      ghost var s := abs;
      if Synced(s) { StaleIsDead(s, 0); }
      StepInv(s, Exit(redirect));
      LeaveFields(s, redirect);
      hide Inv, Step, Reported, Stale;
      abs := Step(s, Exit(redirect));
      if !stale {
        IncIsNext(n, s.pred);
        IncIsNext(n, s.fly[0].pos);
        pred := Inc(n, pred);
        if redirect {
          alloc, fetch := Inc(n, ptr), Inc(n, ptr);
        }
      }
    }

    /** An exception on the speculative path stalls the queue: nothing is allocated or sent, and
        what is in flight will be dropped. */
    method BeginStall()
      requires Valid() && !stalled
      modifies `stalled, `abs
      ensures Valid() && abs == Step(old(abs), Stall) && stalled
    {
      StepInv(abs, Stall);
      stalled, abs := true, Step(abs, Stall);
    }

    /** The stall ends after the backend has redirected. */
    method EndStall()
      requires Valid() && Enabled(abs, Resume)
      modifies `stalled, `abs
      ensures Valid() && abs == Step(old(abs), Resume) && !stalled
    {
      StepInv(abs, Resume);
      stalled, abs := false, Step(abs, Resume);
    }

    /** Retirement names the entry of the last committed instruction. */
    method CommitEntry(ptr: Ptr, ghost p: nat)
      requires Valid() && Enabled(abs, Commit(p)) && ptr == At(n, p)
      modifies `commit, `abs
      ensures Valid() && abs == Step(old(abs), Commit(p)) && commit == ptr
    {
      StepInv(abs, Commit(p));
      commit, abs := ptr, Step(abs, Commit(p));
    }

    /** FTQ_Train walks behind the commit pointer. */
    method TrainEntry() returns (ok: bool)
      requires Valid()
      modifies `train, `abs
      ensures Valid() && ok == (old(abs).train < old(abs).commit)
      ensures abs == if ok then Step(old(abs), Train) else old(abs)
      ensures train == if ok then At(n, old(abs).train + 1) else old(train)
    {
      LtWindow(n, abs.train, abs.commit);
      ok := Lt(train, commit);
      if ok {
        StepInv(abs, Train);
        IncIsNext(n, abs.train);
        train, abs := Inc(n, train), Step(abs, Train);
      }
    }

    /** The backend rewinds allocation, fetch and predictions past entry `p`. */
    method BackendRedirect(ptr: Ptr, ghost p: nat)
      requires Valid() && Enabled(abs, Redirect(p)) && ptr == At(n, p)
      modifies `alloc, `fetch, `pred, `abs
      ensures Valid() && abs == Step(old(abs), Redirect(p))
      ensures alloc == fetch == pred == At(n, p + 1)
    {
      ghost var s := abs;
      StepInv(s, Redirect(p));
      RedirectFields(s, p);
      IncIsNext(n, p);
      hide Inv, Step, Enabled, At, Inc, Gen;
      var next := Inc(n, ptr);
      alloc, fetch, pred, abs := next, next, next, Step(s, Redirect(p));
    }
  }

  // ---- branch resolution of one block ----

  datatype Cfi = Cfi(idx: nat, mispredict: bool, branch: bool)
  datatype Status = Status(valid: bool, idx: nat, mispredict: bool, mask: set<nat>)

  predicate KeepNew(s: Status, c: Cfi) {
    !s.valid || (if c.mispredict then !s.mispredict || c.idx < s.idx else !s.mispredict && c.idx > s.idx)
  }

  function Resolve(s: Status, c: Cfi): Status {
    Status(true, if KeepNew(s, c) then c.idx else s.idx, if KeepNew(s, c) then c.mispredict else s.mispredict,
           if c.branch then s.mask + {c.idx} else s.mask)
  }

  function ResolveAll(cs: seq<Cfi>): Status {
    if cs == [] then Status(false, 0, false, {}) else Resolve(ResolveAll(cs[..|cs| - 1]), cs[|cs| - 1])
  }

  /** Branches of a block may resolve in any order: the record ends up with the oldest
      mispredicting one, or, if all were predicted, with the furthest one. */
  lemma {:induction false} ResolutionIsOrderFree(cs: seq<Cfi>)
    requires cs != []
    ensures var s := ResolveAll(cs);
            && s.valid && (s.mispredict <==> exists c :: c in cs && c.mispredict)
            && (exists c :: c in cs && c.idx == s.idx && c.mispredict == s.mispredict)
            && (s.mispredict ==> forall c :: c in cs && c.mispredict ==> s.idx <= c.idx)
            && (!s.mispredict ==> forall c :: c in cs ==> c.idx <= s.idx)
            && (forall i :: i in s.mask <==> exists c :: c in cs && c.branch && c.idx == i)
    decreases cs
  {
    var h, l := cs[..|cs| - 1], cs[|cs| - 1];
    assert cs == h + [l];
    if h != [] {
      ResolutionIsOrderFree(h);
      var c :| c in h && c.idx == ResolveAll(h).idx && c.mispredict == ResolveAll(h).mispredict;
      assert c in cs;
    } else {
      assert cs == [l];
      assert ResolveAll(h) == Status(false, 0, false, {});
    }
    assert l in cs;
    assert forall c :: c in cs <==> c in h || c == l;
  }
}
