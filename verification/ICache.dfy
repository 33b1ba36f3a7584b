/** The set-associative instruction cache in front of a memory that may change under it. */
module ICache {
  import opened Wrappers

  /** The contents of a fetch block. */
  type Words = seq<nat>

  datatype Line = Line(tag: nat, index: nat)
  datatype Addr = Addr(line: Line, block: nat)
  datatype Tag = Tag(valid: bool, tag: nat)

  /** Tag and data memories: way, then set, then (data) block within the line. */
  datatype Mem = Mem(tags: seq<seq<Tag>>, data: seq<seq<seq<Words>>>)

  datatype Geometry = Geometry(ways: nat, sets: nat, blocks: nat) {
    predicate Ok() { 0 < ways && 0 < sets && 0 < blocks }
    predicate Has(a: Addr) { a.line.index < sets && a.block < blocks }
  }

  type Memory = (Line, nat) -> Words

  ghost predicate Shaped(g: Geometry, m: Mem) {
    && |m.tags| == |m.data| == g.ways
    && (forall w :: 0 <= w < g.ways ==> |m.tags[w]| == |m.data[w]| == g.sets)
    && forall w, i :: 0 <= w < g.ways && 0 <= i < g.sets ==> |m.data[w][i]| == g.blocks
  }

  predicate Hit(g: Geometry, m: Mem, w: nat, l: Line)
    requires Shaped(g, m) && w < g.ways && l.index < g.sets
  {
    m.tags[w][l.index].valid && m.tags[w][l.index].tag == l.tag
  }

  ghost predicate Present(g: Geometry, m: Mem, l: Line)
    requires Shaped(g, m) && l.index < g.sets
  {
    exists w: nat :: w < g.ways && Hit(g, m, w, l)
  }

  /** No two ways of a set hold the same valid tag. */
  ghost predicate Unique(g: Geometry, m: Mem)
    requires Shaped(g, m)
  {
    forall v: nat, w: nat, l: Line :: v < g.ways && w < g.ways && l.index < g.sets ==>
      (Hit(g, m, v, l) && Hit(g, m, w, l) ==> v == w)
  }

  /** The first `n` blocks of way `w` agree with memory's line, unless memory changed since. */
  ghost predicate Agrees(g: Geometry, m: Mem, memory: Memory, dirty: set<Line>, w: nat, l: Line, n: nat)
    requires Shaped(g, m) && w < g.ways && l.index < g.sets && n <= g.blocks
  {
    l in dirty || forall b :: 0 <= b < n ==> m.data[w][l.index][b] == memory(l, b)
  }

  /** Every valid line agrees with memory; `exempt` names a way of a set being refilled. */
  ghost predicate Coherent(g: Geometry, m: Mem, memory: Memory, dirty: set<Line>, exempt: Option<(nat, nat)>)
    requires Shaped(g, m)
  {
    forall w: nat, l: Line :: w < g.ways && l.index < g.sets && Hit(g, m, w, l) && exempt != Some((w, l.index))
      ==> Agrees(g, m, memory, dirty, w, l, g.blocks)
  }

  ghost predicate Empty(g: Geometry, m: Mem, n: nat)
    requires Shaped(g, m) && n <= g.sets
  {
    forall w, i :: 0 <= w < g.ways && 0 <= i < n ==> !m.tags[w][i].valid
  }

  // ---- memory writes ----

  function WriteTag(g: Geometry, m: Mem, w: nat, i: nat, t: Tag): (r: Mem)
    requires Shaped(g, m) && w < g.ways && i < g.sets
    ensures Shaped(g, r)
  {
    m.(tags := m.tags[w := m.tags[w][i := t]])
  }

  /** The flush enables every way. */
  function Invalidate(g: Geometry, m: Mem, i: nat): (r: Mem)
    requires Shaped(g, m) && i < g.sets
    ensures Shaped(g, r)
  {
    m.(tags := seq(g.ways, w requires 0 <= w < g.ways => m.tags[w][i := Tag(false, 0)]))
  }

  function WriteData(g: Geometry, m: Mem, w: nat, i: nat, b: nat, v: Words): (r: Mem)
    requires Shaped(g, m) && w < g.ways && i < g.sets && b < g.blocks
    ensures Shaped(g, r)
  {
    m.(data := m.data[w := m.data[w][i := m.data[w][i][b := v]]])
  }

  function Stored(memory: Memory, l: Line, b: nat, v: Words): Memory {
    (k: Line, c: nat) => if k == l && c == b then v else memory(k, c)
  }

  lemma InvalidateKeeps(g: Geometry, m: Mem, i: nat, memory: Memory, dirty: set<Line>)
    requires Shaped(g, m) && i < g.sets && Unique(g, m) && Coherent(g, m, memory, dirty, None) && Empty(g, m, i)
    ensures var r := Invalidate(g, m, i); Unique(g, r) && Coherent(g, r, memory, dirty, None) && Empty(g, r, i + 1)
  {
    var r := Invalidate(g, m, i);
    forall w: nat, l: Line | w < g.ways && l.index < g.sets && Hit(g, r, w, l)
      ensures Hit(g, m, w, l) && r.data == m.data
    {
      assert r.tags[w] == m.tags[w][i := Tag(false, 0)];
    }
  }

  /** An emptied cache owes nothing to earlier memory contents. */
  lemma EmptyIsClean(g: Geometry, m: Mem, memory: Memory, dirty: set<Line>)
    requires Shaped(g, m) && Empty(g, m, g.sets)
    ensures Coherent(g, m, memory, dirty, None)
  {
    assert forall w: nat, l: Line :: w < g.ways && l.index < g.sets ==> !Hit(g, m, w, l);
  }

  /** At a miss nothing is filled yet, and exempting a way asks for less. */
  lemma MissKeeps(g: Geometry, m: Mem, w: nat, a: Line, memory: Memory, dirty: set<Line>)
    requires Shaped(g, m) && w < g.ways && a.index < g.sets && Coherent(g, m, memory, dirty, None)
    ensures Coherent(g, m, memory, dirty, Some((w, a.index))) && Agrees(g, m, memory, dirty, w, a, 0)
  {
  }

  lemma NothingSwept(g: Geometry, m: Mem)
    requires Shaped(g, m)
    ensures Empty(g, m, 0)
  {
  }

  lemma FillKeeps(g: Geometry, m: Mem, w: nat, a: Line, b: nat, v: Words, memory: Memory, dirty: set<Line>)
    requires Shaped(g, m) && w < g.ways && a.index < g.sets && b < g.blocks
    requires Unique(g, m) && !Present(g, m, a) && Coherent(g, m, memory, dirty, Some((w, a.index)))
    requires Agrees(g, m, memory, dirty, w, a, b)
    ensures var r := WriteData(g, m, w, a.index, b, v);
            && Unique(g, r) && !Present(g, r, a) && Coherent(g, r, memory, dirty, Some((w, a.index)))
            && (v == memory(a, b) || a in dirty ==> Agrees(g, r, memory, dirty, w, a, b + 1))
  {
    var r := WriteData(g, m, w, a.index, b, v);
    assert forall u: nat, l: Line :: u < g.ways && l.index < g.sets ==> Hit(g, r, u, l) == Hit(g, m, u, l);
    assert forall u: nat, i: nat :: u < g.ways && i < g.sets && (u, i) != (w, a.index) ==> r.data[u][i] == m.data[u][i];
  }

  /** Writing the tag ends the exemption: the way now holds the refilled line, or nothing. */
  lemma FinishKeeps(g: Geometry, m: Mem, w: nat, a: Line, ok: bool, memory: Memory, dirty: set<Line>)
    requires Shaped(g, m) && w < g.ways && a.index < g.sets
    requires Unique(g, m) && !Present(g, m, a) && Coherent(g, m, memory, dirty, Some((w, a.index)))
    requires ok ==> Agrees(g, m, memory, dirty, w, a, g.blocks)
    ensures var r := WriteTag(g, m, w, a.index, Tag(ok, a.tag));
            && Unique(g, r) && Coherent(g, r, memory, dirty, None) && (Present(g, r, a) <==> ok)
  {
    var r := WriteTag(g, m, w, a.index, Tag(ok, a.tag));
    forall u: nat, l: Line | u < g.ways && l.index < g.sets
      ensures Hit(g, r, u, l) == if (u, l.index) == (w, a.index) then ok && l == a else Hit(g, m, u, l)
    {
    }
    assert Hit(g, r, w, a) == ok;
  }

  /** A store to memory can only make its own line stale. */
  lemma StoreKeeps(g: Geometry, m: Mem, memory: Memory, dirty: set<Line>, exempt: Option<(nat, nat)>, l: Line, b: nat,
                   v: Words)
    requires Shaped(g, m) && Coherent(g, m, memory, dirty, exempt)
    ensures Coherent(g, m, Stored(memory, l, b, v), dirty + {l}, exempt)
  {
  }

  // ---- the registers ----

  datatype State = Flush | Lookup | Refill
  datatype Reply = Reply(block: Words, error: bool)
  datatype Arrival = Arrival(at: Addr, value: Words, error: bool, last: bool)

  class Cache {
    const g: Geometry
    var state: State
    var way: nat                 // position of the bit set in way_selector
    var mem: Mem
    var addr: Addr               // what the memories' read ports show
    var readValid: bool
    var errorSaved: bool
    var flushIndex: nat
    var args: seq<Addr>          // requests whose reply has not been taken
    var forward: Option<Reply>   // reply waiting to be taken
    // the world: memory, lines stored to since the last flush, blocks of the refill written so far
    ghost var memory: Memory
    ghost var dirty: set<Line>
    ghost var filled: nat

    ghost predicate Shape()
      reads this
    {
      && g.Ok() && Shaped(g, mem) && way < g.ways && g.Has(addr) && flushIndex < g.sets && filled <= g.blocks
    }

    ghost predicate Requests()
      reads this
    {
      && |args| == (if forward.Some? then 1 else 0) + (if readValid then 1 else 0)
      && (readValid ==> args[|args| - 1] == addr)
      && (errorSaved ==> state.Lookup? && readValid)
      && (state.Refill? ==> readValid)
    }

    ghost predicate Contents()
      reads this
      requires Shape()
    {
      && Unique(g, mem)
      && match state
         case Lookup => flushIndex == 0 && Coherent(g, mem, memory, dirty, None)
         case Flush => Coherent(g, mem, memory, dirty, None) && Empty(g, mem, flushIndex)
         case Refill =>
           && flushIndex == 0 && filled < g.blocks
           && Coherent(g, mem, memory, dirty, Some((way, addr.line.index)))
           && !Present(g, mem, addr.line)
           && Agrees(g, mem, memory, dirty, way, addr.line, filled)
    }

    ghost predicate Valid()
      reads this
    {
      Shape() && Requests() && Contents()
    }

    constructor (g: Geometry, memory: Memory)
      requires g.Ok()
      ensures Valid() && state.Flush? && args == [] && this.g == g && this.memory == memory
      ensures dirty == {} && forward.None?
    {
      this.g := g;
      state, way, flushIndex := Flush, 0, 0;
      mem := Mem(seq(g.ways, _ => seq(g.sets, _ => Tag(false, 0))),
                 seq(g.ways, _ => seq(g.sets, _ => seq(g.blocks, _ => []))));
      addr := Addr(Line(0, 0), 0);
      readValid, errorSaved := false, false;
      args, forward := [], None;
      this.memory, dirty, filled := memory, {}, 0;
      new;
      EmptyIsClean(g, mem, memory, dirty);
    }

    /** The tags of all ways are compared; a hit is one-hot, so selecting it is well defined. */
    method Compare(tag: nat) returns (hit: bool, block: Words)
      requires Shape() && Unique(g, mem) && tag == addr.line.tag
      ensures hit <==> Present(g, mem, addr.line)
      ensures forall w: nat :: w < g.ways && Hit(g, mem, w, addr.line) ==>
                block == mem.data[w][addr.line.index][addr.block]
    {
      hit, block := false, [];
      var w := 0;
      while w < g.ways
        invariant w <= g.ways
        invariant hit <==> exists v: nat :: v < w && Hit(g, mem, v, addr.line)
        invariant forall v: nat :: v < w && Hit(g, mem, v, addr.line) ==>
                    block == mem.data[v][addr.line.index][addr.block]
      {
        var t := mem.tags[w][addr.line.index];
        if t.valid && t.tag == tag {
          assert Hit(g, mem, w, addr.line);
          hit, block := true, mem.data[w][addr.line.index][addr.block];
        }
        w := w + 1;
      }
    }

    /** A lookup answers when the line is present or its refill failed, and asks for a refill
        otherwise. The answer is memory's block, unless memory changed since the last flush. */
    method Look() returns (made: Option<Reply>, start: Option<Line>)
      requires Valid() && state.Lookup? && readValid && forward.None?
      ensures made.Some? <==> errorSaved || Present(g, mem, addr.line)
      ensures made.Some? ==> args == [addr] && start.None? && made.value.error == errorSaved
      ensures made.Some? && !made.value.error && addr.line !in dirty ==>
                made.value.block == memory(addr.line, addr.block)
      ensures made.None? ==> start == Some(addr.line)
    {
      var request := args[0];
      var hit, block := Compare(request.line.tag);
      if hit || errorSaved {
        made, start := Some(Reply(block, errorSaved)), None;
      } else {
        made, start := None, Some(request.line);
      }
    }

    /** What the refiller may deliver: the blocks of the missing line in order, the last one or
        an erroneous one marked last; a block read after memory changed may be either version. */
    ghost predicate Expected(a: Arrival)
      reads this
    {
      && state.Refill?
      && a.at == Addr(addr.line, filled)
      && (a.last <==> a.error || filled == g.blocks - 1)
      && (a.error || a.value == memory(addr.line, filled) || addr.line in dirty)
    }

    /** One arriving block: written, and when it is the last the tag is written and the way turns. */
    method Arrive(a: Arrival)
      requires Valid() && Expected(a)
      modifies this`state, this`way, this`mem, this`errorSaved, this`filled
      ensures Valid()
      ensures state == (if a.last then Lookup else Refill)
      ensures errorSaved == (old(errorSaved) || a.error)
      ensures !a.last ==> way == old(way) && filled == old(filled) + 1
      ensures a.last ==> way == (if old(way) + 1 == g.ways then 0 else old(way) + 1)
      ensures a.last ==> (Present(g, mem, addr.line) <==> !a.error)
    {
      FillKeeps(g, mem, way, addr.line, a.at.block, a.value, memory, dirty);
      mem := WriteData(g, mem, way, a.at.line.index, a.at.block, a.value);
      filled := filled + 1;
      if a.error { errorSaved := true; }
      if a.last {
        FinishKeeps(g, mem, way, addr.line, !a.error, memory, dirty);
        mem := WriteTag(g, mem, way, addr.line.index, Tag(!a.error, addr.line.tag));
        way := if way + 1 == g.ways then 0 else way + 1;
        state := Lookup;
      }
    }

    /** One flush step: a whole set is invalidated; the last one leaves the cache clean. */
    method Sweep(restart: bool)
      requires Valid() && state.Flush?
      modifies this`state, this`mem, this`flushIndex, this`dirty
      ensures Valid()
      ensures state.Lookup? <==> old(flushIndex) == g.sets - 1
      ensures state.Flush? ==> flushIndex == (if restart then 0 else old(flushIndex) + 1)
      ensures state.Flush? || state.Lookup?
      ensures dirty == if state.Lookup? then {} else old(dirty)
    {
      InvalidateKeeps(g, mem, flushIndex, memory, dirty);
      mem := Invalidate(g, mem, flushIndex);
      if flushIndex == g.sets - 1 {
        state, flushIndex := Lookup, 0;
        EmptyIsClean(g, mem, memory, {});
        dirty := {};
      } else {
        flushIndex := if restart then 0 else flushIndex + 1;
      }
    }

    /** The reply made this cycle, if any, ends its request and can be taken at once; a new
        request moves the read ports. */
    method Exchange(made: Option<Reply>, take: bool, issue: Option<Addr>) returns (taken: Option<(Addr, Reply)>)
      requires Valid()
      requires made.Some? ==> state.Lookup? && readValid && forward.None?
      requires take ==> forward.Some? || made.Some?
      requires issue.Some? ==> g.Has(issue.value) && (!readValid || made.Some?)
      modifies this`args, this`forward, this`addr, this`readValid, this`errorSaved
      ensures Valid()
      ensures addr == if issue.Some? then issue.value else old(addr)
      ensures readValid == (issue.Some? || (old(readValid) && made.None?))
      ensures errorSaved == (old(errorSaved) && made.None?)
      ensures take ==> taken == Some((old(args)[0], if made.Some? then made.value else old(forward).value))
      ensures args == (if take then old(args)[1..] else old(args)) + (if issue.Some? then [issue.value] else [])
      ensures forward == if take then None else if made.Some? then made else old(forward)
    {
      hide Unique, Coherent, Agrees, Empty, Present, Shaped;
      taken := None;
      if made.Some? {
        errorSaved, readValid := false, false;
        forward := made;
      }
      if take {
        taken := Some((args[0], forward.value));
        args, forward := args[1..], None;
      }
      if issue.Some? {
        addr, readValid := issue.value, true;
        args := args + [issue.value];
      }
    }

    /** One clock cycle. `look`, `issue`, `flush`, `arrival` and `take` say which transactions
        and methods run; the readiness conditions of the source are the preconditions. */
    method Clock(look: bool, issue: Option<Addr>, flush: bool, arrival: Option<Arrival>, take: bool)
      returns (made: Option<Reply>, start: Option<Line>, taken: Option<(Addr, Reply)>)
      requires Valid()
      requires look ==> state.Lookup? && (readValid || errorSaved) && forward.None?
      requires issue.Some? || flush ==> !readValid || (look && (errorSaved || Present(g, mem, addr.line)))
      requires issue.Some? ==> g.Has(issue.value) && !flush
      requires arrival.Some? ==> Expected(arrival.value)
      requires take ==> forward.Some? || (look && (errorSaved || Present(g, mem, addr.line)))
      modifies this
      ensures Valid() && memory == old(memory)
      // what is answered
      ensures made.Some? <==> look && old(errorSaved || Present(g, mem, addr.line))
      ensures made.Some? ==> made.value.error == old(errorSaved)
      ensures made.Some? && !made.value.error && old(addr.line) !in old(dirty) ==>
                made.value.block == memory(old(addr.line), old(addr.block))
      // misses start one refill, of the line asked for
      ensures start == if look && made.None? then Some(old(addr.line)) else None
      ensures start.Some? ==> state.Refill? && filled == 0 && addr == old(addr)
      // replies are taken in the order of their requests
      ensures take ==> taken == Some((old(args)[0], if old(forward).Some? then old(forward).value else made.value))
      ensures args == (if take then old(args)[1..] else old(args)) + (if issue.Some? then [issue.value] else [])
      ensures forward == if take then None else if made.Some? then made else old(forward)
      // a flush takes effect before any later answer
      ensures flush ==> state.Flush? || dirty == {}
      ensures flush && old(state).Lookup? ==> state.Flush?
      ensures old(state).Flush? ==> made.None? && (state.Flush? || dirty == {})
      ensures dirty == if old(state).Flush? && state.Lookup? then {} else old(dirty)
      // a refill goes on until its last block
      ensures state.Refill? <==> start.Some? || (old(state).Refill? && !(arrival.Some? && arrival.value.last))
      ensures old(state).Refill? && state.Refill? ==>
                addr == old(addr) && filled == old(filled) + if arrival.Some? then 1 else 0
      // a finished refill makes the next lookup answer
      ensures arrival.Some? && arrival.value.last ==> state.Lookup? && (errorSaved || Present(g, mem, addr.line))
    {
      hide Unique, Coherent, Agrees, Empty, Present, Shaped;
      made, start, taken := None, None, None;
      if look { made, start := Look(); }
      taken := Exchange(made, take, issue);
      match state
      case Flush => Sweep(flush);
      case Lookup =>
        if start.Some? {
          MissKeeps(g, mem, way, addr.line, memory, dirty);
          state, filled := Refill, 0;
        } else if flush {
          NothingSwept(g, mem);
          state, flushIndex := Flush, 0;
        }
      case Refill =>
        if arrival.Some? { Arrive(arrival.value); }
    }

    /** The world stores to memory: nothing but the line stored to can become stale. */
    ghost method Store(l: Line, b: nat, v: Words)
      requires Valid()
      modifies this`memory, this`dirty
      ensures Valid() && memory == Stored(old(memory), l, b, v) && dirty == old(dirty) + {l}
    {
      StoreKeeps(g, mem, memory, dirty, if state.Refill? then Some((way, addr.line.index)) else None, l, b, v);
      memory, dirty := Stored(memory, l, b, v), dirty + {l};
    }
  }
}
