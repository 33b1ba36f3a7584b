/** The clocked checkpoint RAT inside the core: whatever a cycle of the core asks of it is legal, so
    the registers of the class follow every history the theorems speak of. */
module CratHistory {
  import opened Wrappers
  import opened CratSpec
  import opened RenameCore
  import opened RenameProofs
  import opened CheckpointRat
  import opened CratRefinement
  import opened CratClock
  import opened CoreCycle

  function CarriedTag(s: Core): Option<nat> {
    if s.allocBuf.Some? then s.allocBuf.value.rb else None
  }

  function RolledBackTo(k: Tick): nat {
    if k.rollback.Some? then k.rollback.value else 0
  }

  lemma ReadyTag(p: Params, s: Core, c: Regs, k: Tick)
    requires PairInv(p, s, c) && Ready(p, s, c, k) && k.tag
    ensures var t := TagInput(p, s);
            && (Tagging(s).None? || k.rename) && t == TagInOf(p, CarriedTag(s), t.ckpt)
            && Carried(p, s.spec, CarriedTag(s))
            && !Stalls(c, t) && (AllocatesTag(c, t) ==> c.tagsHead != c.tagsTail)
  {
    hide Inv; hide Rep; hide Boundary;
  }

  lemma ReadyFree(p: Params, s: Core, c: Regs, k: Tick)
    requires PairInv(p, s, c) && Ready(p, s, c, k) && InputsOf(p, s, k).free
    ensures s.spec.tail + 1 < s.spec.head
    ensures k.rollback.Some? ==> s.spec.ring[k.rollback.value].tag != s.spec.tail
  {
    hide Inv; hide Rep; hide Boundary; hide RenameOk; hide TagOk;
    TailBelowHead(p, s, k.retire.value.0);
    if k.rollback.Some? { RollbackTagNotFreed(p, s, k.rollback.value, k.retire.value.0); }
  }

  lemma ReadyRestart(p: Params, s: Core, c: Regs, k: Tick)
    requires PairInv(p, s, c) && Ready(p, s, c, k) && k.restart
    ensures c.finished && !k.rename && k.rollback.None?
  {
    hide Inv; hide Rep; hide Boundary;
    NoRenameInResume(p, s, c);
  }

  /** What the core asks of the table in a cycle is legal. */
  lemma ReadyIsLegal(p: Params, s: Core, c: Regs, k: Tick)
    requires PairInv(p, s, c) && Ready(p, s, c, k)
    ensures Legal(p, c, s.spec, Tagging(s), InputsOf(p, s, k), CarriedTag(s), RolledBackTo(k))
  {
    var i := InputsOf(p, s, k);
    if k.tag { ReadyTag(p, s, c, k); }
    if i.free { ReadyFree(p, s, c, k); }
    if k.restart { ReadyRestart(p, s, c, k); }
    hide Shape; hide Partition; hide ValidBits; hide Speculation; hide Wakeups; hide Values; hide TagsOk;
    hide Rep; hide SpecInv; hide TagInput; hide Stalls; hide AllocatesTag; hide CarriedOk; hide Carried; hide TagInOf;
  }

  /** The class as part of the core: after any history, a cycle of the core extends the history by
      one moment, and the registers are those of the extended history. */
  method Follow(x: Crat, i: Inputs, ghost h: seq<Moment>, ghost s: Core, ghost k: Tick, ghost t: Core)
    requires x.p.Ok() && History(x.p, h, s, x.State())
    requires Ready(x.p, s, x.State(), k) && Runs(x.p, s, Steps(k), t) && i == InputsOf(x.p, s, k)
    modifies x
    ensures History(x.p, h + [Moment(s, old(x.State()), k)], t, x.State())
  {
    ghost var c := x.State();
    HistoryInv(x.p, h, s, c);
    ReadyIsLegal(x.p, s, c, k);
    hide Legal; hide Cycle; hide Ready;
    x.Clock(i, s.spec, Tagging(s), CarriedTag(s), RolledBackTo(k));
    ghost var l := h + [Moment(s, c, k)];
    assert l[..|l| - 1] == h;
  }
}
