/** Cache and refiller together, over a bus that answers word by word from a flat memory that may
    change: fetching through them is reading that memory. Addresses are counted in words. */
module CachePath {
  import opened Wrappers
  import opened Powers
  import opened ICache
  import R = Refiller

  /** Line number on the bus: index in the low part, tag above it. */
  function Number(sets: nat, l: Line): nat {
    l.tag * sets + l.index
  }

  function LineOf(sets: nat, n: nat): Line
    requires sets > 0
  {
    Line(Quot(n, sets), n % sets)
  }

  /** Sets, blocks in a line and words in a block. */
  datatype Layout = Layout(sets: nat, blocks: nat, blockWords: nat)

  type Shape = s: Layout | s.sets > 0 && s.blocks > 0 && s.blockWords > 0 witness Layout(1, 1, 1)

  function LineWords(h: Shape): (n: nat)
    ensures n > 0
  {
    ScaleMono(1, h.blocks, h.blockWords);
    h.blocks * h.blockWords
  }

  /** The line a word lies in. */
  function LineNumber(h: Shape, w: nat): nat
  {
    Quot(w, LineWords(h))
  }

  /** The cache's view of the address of a word: tag, index and block. */
  function Decode(h: Shape, w: nat): (a: Addr)
  {
    Addr(LineOf(h.sets, LineNumber(h, w)), Quot(w % LineWords(h), h.blockWords))
  }

  function Encode(h: Shape, a: Addr, j: nat): nat {
    Number(h.sets, a.line) * LineWords(h) + (a.block * h.blockWords + j)
  }

  lemma LineOfNumber(sets: nat, l: Line)
    requires l.index < sets
    ensures LineOf(sets, Number(sets, l)) == l
  {
    SplitUnique(Number(sets, l), sets, l.tag, l.index);
  }

  lemma NumberOfLine(sets: nat, n: nat)
    requires sets > 0
    ensures Number(sets, LineOf(sets, n)) == n && LineOf(sets, n).index < sets
  {
    Split(n, sets);
  }

  lemma EncodeSplits(h: Shape, a: Addr, j: nat)
    requires a.block < h.blocks && j < h.blockWords
    ensures Quot(Encode(h, a, j), LineWords(h)) == Number(h.sets, a.line)
    ensures Encode(h, a, j) % LineWords(h) == a.block * h.blockWords + j
  {
    var n, r := Number(h.sets, a.line), a.block * h.blockWords + j;
    BelowScaled(a.block, h.blocks, h.blockWords, j);
    assert r < LineWords(h);
    hide LineWords; hide Number;
    SplitUnique(n * LineWords(h) + r, LineWords(h), n, r);
  }

  lemma EncodeOffset(h: Shape, a: Addr, j: nat)
    requires j < h.blockWords
    ensures Encode(h, a, j) % h.blockWords == j
  {
    var n := Number(h.sets, a.line);
    hide Number;
    Reassociate(n, h.blocks, h.blockWords);
    Distribute(n * h.blocks, a.block, h.blockWords);
    SplitUnique(Encode(h, a, j), h.blockWords, n * h.blocks + a.block, j);
  }

  /** The words of a block decode to it. */
  lemma DecodeEncode(h: Shape, a: Addr, j: nat)
    requires a.line.index < h.sets && a.block < h.blocks && j < h.blockWords
    ensures Decode(h, Encode(h, a, j)) == a && Encode(h, a, j) % h.blockWords == j
    ensures LineNumber(h, Encode(h, a, j)) == Number(h.sets, a.line)
  {
    EncodeSplits(h, a, j);
    EncodeOffset(h, a, j);
    LineOfNumber(h.sets, a.line);
    hide LineWords; hide Number; hide LineOf; hide Encode;
    SplitUnique(a.block * h.blockWords + j, h.blockWords, a.block, j);
  }

  lemma Distribute(a: nat, b: nat, w: nat)
    ensures (a + b) * w == a * w + b * w
  {
  }

  /** Every word is one of the block it decodes to. */
  lemma EncodeDecode(h: Shape, w: nat)
    ensures var a := Decode(h, w);
            && a.line.index < h.sets && a.block < h.blocks && Encode(h, a, w % h.blockWords) == w
            && Number(h.sets, a.line) == LineNumber(h, w)
            && Encode(h, a, 0) == w - w % h.blockWords
  {
    var n, r := LineNumber(h, w), w % LineWords(h);
    Split(w, LineWords(h));
    Split(r, h.blockWords);
    SplitBelow(r, h.blocks, h.blockWords);
    NumberOfLine(h.sets, n);
    var b := Quot(r, h.blockWords);
    Reassociate(n, h.blocks, h.blockWords);
    Distribute(n * h.blocks, b, h.blockWords);
    SplitUnique(w, h.blockWords, n * h.blocks + b, r % h.blockWords);
  }

  // ---- memory ----

  /** What the bus reads at each address. */
  type Bus = nat -> nat

  /** The `n` words from `a` on. */
  function WordsAt(bus: Bus, a: nat, n: nat): (ws: Words)
    ensures |ws| == n
    ensures forall j :: 0 <= j < n ==> ws[j] == bus(a + j)
  {
    seq(n, j requires 0 <= j < n => bus(a + j))
  }

  /** The aligned block a word lies in. */
  function BlockAt(bus: Bus, blockWords: nat, w: nat): Words
    requires blockWords > 0
  {
    WordsAt(bus, w - w % blockWords, blockWords)
  }

  function Write(bus: Bus, a: nat, v: nat): Bus {
    (x: nat) => if x == a then v else bus(x)
  }

  /** The cache's memory of lines and blocks is the flat memory. */
  ghost predicate Mirrors(h: Shape, memory: Memory, bus: Bus) {
    forall l: Line, b: nat :: l.index < h.sets && b < h.blocks ==>
      memory(l, b) == WordsAt(bus, Encode(h, Addr(l, b), 0), h.blockWords)
  }

  /** The cache's memory seen as blocks of the flat one. */
  function Lines(h: Shape, bus: Bus): Memory {
    (l: Line, b: nat) => WordsAt(bus, Encode(h, Addr(l, b), 0), h.blockWords)
  }

  lemma BlockIsFlat(h: Shape, memory: Memory, bus: Bus, w: nat)
    requires Mirrors(h, memory, bus)
    ensures memory(Decode(h, w).line, Decode(h, w).block) == BlockAt(bus, h.blockWords, w)
  {
    EncodeDecode(h, w);
  }

  /** One word stored, as the cache's view sees it. */
  function StoredBlock(h: Shape, bus: Bus, a: nat, v: nat): Words
  {
    BlockAt(Write(bus, a, v), h.blockWords, a)
  }

  /** A store leaves the other blocks alone. */
  lemma OtherBlock(h: Shape, bus: Bus, a: nat, v: nat, d: Addr)
    requires d.line.index < h.sets && d.block < h.blocks && d != Decode(h, a)
    ensures WordsAt(Write(bus, a, v), Encode(h, d, 0), h.blockWords) == WordsAt(bus, Encode(h, d, 0), h.blockWords)
  {
    var x, y := WordsAt(Write(bus, a, v), Encode(h, d, 0), h.blockWords), WordsAt(bus, Encode(h, d, 0), h.blockWords);
    forall j | 0 <= j < h.blockWords ensures x[j] == y[j] {
      DecodeEncode(h, d, j);
    }
  }

  lemma StoreMirrors(h: Shape, memory: Memory, bus: Bus, a: nat, v: nat)
    requires Mirrors(h, memory, bus)
    ensures var d := Decode(h, a);
            Mirrors(h, Stored(memory, d.line, d.block, StoredBlock(h, bus, a, v)), Write(bus, a, v))
  {
    var d, after := Decode(h, a), Write(bus, a, v);
    var n := Stored(memory, d.line, d.block, StoredBlock(h, bus, a, v));
    EncodeDecode(h, a);
    assert StoredBlock(h, bus, a, v) == WordsAt(after, Encode(h, d, 0), h.blockWords);
    hide Decode; hide Encode; hide StoredBlock; hide WordsAt; hide Write;
    forall l: Line, b: nat | l.index < h.sets && b < h.blocks
      ensures n(l, b) == WordsAt(after, Encode(h, Addr(l, b), 0), h.blockWords)
    {
      if Addr(l, b) != d { OtherBlock(h, bus, a, v, Addr(l, b)); }
    }
  }

  // ---- the bus ----

  /** A read request on the bus, with the values its word has had since it was made. */
  datatype Ask = Ask(addr: nat, values: set<nat>)

  /** The values of a request still outstanding when a word is stored. */
  function Seen(p: seq<Ask>, a: nat, v: nat): (r: seq<Ask>)
    ensures |r| == |p|
    ensures forall i :: 0 <= i < |p| ==> r[i] == if p[i].addr == a then Ask(a, p[i].values + {v}) else p[i]
  {
    seq(|p|, i requires 0 <= i < |p| => if p[i].addr == a then Ask(a, p[i].values + {v}) else p[i])
  }

  /** Responses come in the order of their requests, each an error or a value the requested word has
      had since it was asked for. */
  predicate Answers(pending: seq<Ask>, r: R.Response) {
    pending != [] && (r.err || r.data in pending[0].values)
  }

  /** The words received are memory's. */
  ghost predicate Good(bus: Bus, base: nat, rs: seq<R.Response>) {
    forall i :: 0 <= i < |rs| ==> rs[i].err || rs[i].data == bus(base + i)
  }

  /** What is asked for are the words from `base` on, unchanged since. */
  ghost predicate Asking(bus: Bus, base: nat, pending: seq<Ask>, clean: bool) {
    forall i :: 0 <= i < |pending| ==> pending[i].addr == base + i && (clean ==> pending[i].values == {bus(base + i)})
  }

  /** The answered request is the oldest one. */
  function Served(pending: seq<Ask>, response: Option<R.Response>): seq<Ask> {
    if response.Some? && pending != [] then pending[1..] else pending
  }

  function Received(rs: seq<R.Response>, response: Option<R.Response>): seq<R.Response> {
    rs + if response.Some? then [response.value] else []
  }

  /** One cycle of the bus during a refill that asks for its words in order. */
  lemma BusStep(bus: Bus, base: nat, rs: seq<R.Response>, pending: seq<Ask>, clean: bool, request: bool,
                response: Option<R.Response>)
    requires Asking(bus, base + |rs|, pending, clean) && (clean ==> Good(bus, base, rs))
    requires response.Some? ==> Answers(pending, response.value)
    ensures var ask := base + |rs| + |pending|;
            Asking(bus, base + |Received(rs, response)|,
                   Served(pending, response) + (if request then [Ask(ask, {bus(ask)})] else []), clean)
    ensures clean ==> Good(bus, base, Received(rs, response))
  {
  }

  lemma NothingAsked(bus: Bus, base: nat, clean: bool)
    ensures Good(bus, base, []) && Asking(bus, base, [], clean)
  {
  }

  lemma AskNext(bus: Bus, base: nat, pending: seq<Ask>, clean: bool)
    requires Asking(bus, base, pending, clean)
    ensures Asking(bus, base, pending + [Ask(base + |pending|, {bus(base + |pending|)})], clean)
    ensures pending != [] ==> Asking(bus, base + 1, pending[1..], clean)
  {
  }

  lemma AnswerNext(bus: Bus, base: nat, rs: seq<R.Response>, pending: seq<Ask>, r: R.Response)
    requires Good(bus, base, rs) && Asking(bus, base + |rs|, pending, true) && Answers(pending, r)
    ensures Good(bus, base, rs + [r])
  {
  }

  /** A store elsewhere changes nothing about a line's words. */
  lemma StoreElsewhere(bus: Bus, base: nat, rs: seq<R.Response>, pending: seq<Ask>, n: nat, a: nat, v: nat)
    requires Good(bus, base, rs) && Asking(bus, base + |rs|, pending, true) && |rs| + |pending| <= n
    requires !(base <= a < base + n)
    ensures Good(Write(bus, a, v), base, rs) && Asking(Write(bus, a, v), base + |rs|, Seen(pending, a, v), true)
  {
  }

  // ---- what the refiller hands on ----

  /** A block of good words is memory's block. */
  lemma BlockIsMemory(h: Shape, bus: Bus, l: Line, rs: seq<R.Response>, j: nat)
    requires 0 <= j * h.blockWords <= (j + 1) * h.blockWords <= |rs|
    requires forall i :: j * h.blockWords <= i < (j + 1) * h.blockWords ==>
               rs[i].data == bus(Number(h.sets, l) * LineWords(h) + i)
    ensures R.Words(rs)[j * h.blockWords..(j + 1) * h.blockWords]
            == WordsAt(bus, Encode(h, Addr(l, j), 0), h.blockWords)
  {
    var lo, hi := j * h.blockWords, (j + 1) * h.blockWords;
    assert hi == lo + h.blockWords;
    var w := R.Words(rs)[lo..hi];
    forall t | 0 <= t < h.blockWords ensures w[t] == bus(Encode(h, Addr(l, j), 0) + t) {
      assert w[t] == rs[lo + t].data;
    }
  }

  /** The emission of a refill is what the cache expects as its next arrival. */
  lemma EmissionFits(h: Shape, memory: Memory, bus: Bus, clean: bool, l: Line, rs: seq<R.Response>, out: seq<R.Block>)
    requires Mirrors(h, memory, bus) && l.index < h.sets && |rs| <= LineWords(h) && out != []
    requires R.Emits(LineWords(h), h.blockWords, Number(h.sets, l), rs, out)
    requires clean ==> Good(bus, Number(h.sets, l) * LineWords(h), rs)
    ensures var j := |out| - 1; var b := out[j];
            && b.line == Number(h.sets, l) && b.index == j
            && (b.last <==> b.error || j == h.blocks - 1)
            && (b.error || !clean || (j < h.blocks && b.words == memory(l, j)))
  {
    var j, n := |out| - 1, Number(h.sets, l);
    R.ArrivalsInOrder(LineWords(h), h.blockWords, n, rs, out, j);
    SameCount(j + 1, h.blocks, h.blockWords);
    if !out[j].error && clean {
      var g := R.FirstError(rs);
      assert R.GoodBlock(LineWords(h), h.blockWords, n, rs, j, out[j]);
      Split(g, h.blockWords);
      ScaleMono(j + 1, Quot(g, h.blockWords), h.blockWords);
      if j >= h.blocks { ScaleMono(h.blocks + 1, j + 1, h.blockWords); }
      BlockIsMemory(h, bus, l, rs, j);
    }
  }

  lemma SameCount(a: nat, b: nat, w: nat)
    requires w > 0
    ensures a * w == b * w <==> a == b
  {
    if a < b { ScaleMono(a + 1, b, w); assert (a + 1) * w == a * w + w; }
    if b < a { ScaleMono(b + 1, a, w); assert (b + 1) * w == b * w + w; }
  }

  // ---- both together ----

  /** A word of the line was stored to. */
  ghost predicate Touched(h: Shape, stored: set<nat>, w: nat)
  {
    exists a :: a in stored && LineNumber(h, a) == LineNumber(h, w)
  }

  /** Lines the cache holds for dirty have a stored word. */
  ghost predicate Explains(h: Shape, stored: set<nat>, dirty: set<Line>)
  {
    forall l :: l in dirty ==> exists a :: a in stored && Decode(h, a).line == l
  }

  lemma DirtyIsTouched(h: Shape, stored: set<nat>, dirty: set<Line>, w: nat)
    requires Explains(h, stored, dirty) && Decode(h, w).line in dirty
    ensures Touched(h, stored, w)
  {
    var a :| a in stored && Decode(h, a).line == Decode(h, w).line;
    EncodeDecode(h, a);
    EncodeDecode(h, w);
  }

  function Decoded(h: Shape, ws: seq<nat>): (r: seq<Addr>)
    ensures |r| == |ws|
    ensures forall i :: 0 <= i < |ws| ==> r[i] == Decode(h, ws[i])
  {
    seq(|ws|, i requires 0 <= i < |ws| => Decode(h, ws[i]))
  }

  class Path {
    const cache: Cache
    const refiller: R.CacheRefiller
    const h: Shape
    // the world: memory, outstanding bus requests, words stored since the last flush, requests made
    ghost var bus: Bus
    ghost var pending: seq<Ask>
    ghost var stored: set<nat>
    ghost var requests: seq<nat>
    ghost var passed: bool       // the line of the waiting reply was stored to

    ghost predicate Running()
      reads this, refiller
    {
      refiller.active && !refiller.flushing
    }

    /** First word of the line being refilled. */
    ghost function Base(): nat
      reads this, cache, refiller
    {
      Number(h.sets, cache.addr.line) * refiller.lineWords
    }

    /** The cache refills exactly while the refiller hands on blocks; both mean the same line at the
        same block, and the bus has been asked for the words of that line. */
    ghost predicate Refills()
      reads this, cache, refiller
    {
      && (cache.state.Refill? <==> Running())
      && |pending| == refiller.Outstanding()
      && (Running() ==>
            && refiller.line == Number(h.sets, cache.addr.line)
            && |refiller.out| == cache.filled
            && Asking(bus, Base() + |refiller.responses|, pending, cache.addr.line !in cache.dirty)
            && (cache.addr.line !in cache.dirty ==> Good(bus, Base(), refiller.responses)))
    }

    /** The cache's side: its memory is the flat one, and it knows the requests by their blocks. */
    ghost predicate Mirrored()
      reads `bus, `stored, `requests, `passed, cache
    {
      && cache.Valid() && h == Layout(cache.g.sets, cache.g.blocks, refiller.blockWords)
      && Mirrors(h, cache.memory, bus)
      && Explains(h, stored, cache.dirty)
      && cache.args == Decoded(h, requests)
      && (cache.forward.Some? ==> requests != [] && Fits(requests[0], cache.forward, passed))
    }

    /** An answer without error is the block of the word asked for, unless its line was touched. */
    ghost predicate Fits(w: nat, r: Option<Reply>, touched: bool)
      reads `bus
    {
      r.Some? && !r.value.error && !touched ==> r.value.block == BlockAt(bus, h.blockWords, w)
    }

    ghost predicate Valid()
      reads this, cache, refiller
    {
      Mirrored() && refiller.Valid() && refiller.lineWords == LineWords(h) && Refills()
    }

    constructor (g: Geometry, blockWords: nat, bus: Bus)
      requires g.Ok() && blockWords > 0
      ensures Valid() && fresh(cache) && fresh(refiller) && this.bus == bus && requests == [] && stored == {}
    {
      hide Shaped, Unique, Coherent, Empty, Agrees, Quot;
      hide R.Emits, R.Buffered, R.FirstError, R.Aligned;
      MultipleAligned(g.blocks, blockWords);
      cache := new Cache(g, Lines(Layout(g.sets, g.blocks, blockWords), bus));
      refiller := new R.CacheRefiller(g.blocks * blockWords, blockWords);
      h := Layout(g.sets, g.blocks, blockWords);
      this.bus, pending, stored, requests, passed := bus, [], {}, [], false;
    }

    /** What a lookup that answers now answers: the request it belongs to is the newest one. */
    ghost function Asked(): nat
      reads this
      requires requests != []
    {
      requests[|requests| - 1]
    }

    /** What the refiller hands on next during a refill. */
    ghost predicate Next(b: R.Block)
      reads this, cache
    {
      && b.line == Number(h.sets, cache.addr.line) && b.index == cache.filled
      && (b.last <==> b.error || cache.filled == h.blocks - 1)
      && (b.error || cache.addr.line in cache.dirty ||
          (cache.filled < h.blocks && b.words == cache.memory(cache.addr.line, cache.filled)))
    }

    /** The refiller's part of a cycle, and the bus's. */
    method Turn(request: bool, response: Option<R.Response>, start: Option<nat>)
      returns (emit: Option<R.Block>, ask: nat)
      requires Valid() && (request ==> refiller.sending)
      requires response.Some? ==> Answers(pending, response.value)
      requires start.Some? ==> !refiller.active
      modifies this`pending, refiller
      ensures refiller.Valid() && |pending| == refiller.Outstanding()
      ensures pending == Served(old(pending), response) + (if request then [Ask(ask, {bus(ask)})] else [])
      ensures Running() <==> start.Some? || (old(Running()) && !R.Closes(emit))
      ensures emit.Some? ==> old(Running()) && Next(emit.value)
      ensures start.Some? ==> pending == [] && old(pending) == []
      ensures start.Some? ==> refiller.line == start.value && refiller.responses == [] && refiller.out == []
      ensures start.None? && old(Running()) ==>
                && refiller.line == Number(h.sets, cache.addr.line)
                && |refiller.out| == cache.filled + (if emit.Some? then 1 else 0)
                && Asking(bus, Base() + |refiller.responses|, pending, cache.addr.line !in cache.dirty)
                && (cache.addr.line !in cache.dirty ==> Good(bus, Base(), refiller.responses))
    {
      hide Shaped, Unique, Coherent, Empty, ICache.Agrees, Present, Quot, Mirrors, Explains, Good, Asking, Number;
      hide BlockAt, R.Emits, R.Buffered, R.FirstError, R.Aligned, Decoded, Hit;
      ghost var l, rs := cache.addr.line, refiller.responses;
      ghost var clean := l !in cache.dirty;
      if Running() { BusStep(bus, Base(), rs, pending, clean, request, response); }
      var address;
      emit, address := refiller.Clock(request, response, start);
      ask := address.0 * refiller.lineWords + address.1;
      if emit.Some? {
        assert refiller.responses == Received(rs, response);
        EmissionFits(h, cache.memory, bus, clean, l, refiller.responses, refiller.out);
      }
      pending := Served(pending, response) + if request then [Ask(ask, {bus(ask)})] else [];
    }

    /** A cycle in which the refiller may hand a block to the cache, and may ask for a word. */
    method Refilling(take: bool, request: bool, response: Option<R.Response>)
      returns (taken: Option<Reply>, ask: nat)
      requires Valid() && cache.state.Refill? && (request ==> refiller.sending)
      requires response.Some? ==> Answers(pending, response.value)
      requires take ==> cache.forward.Some?
      modifies this, cache, refiller
      ensures Valid() && bus == old(bus) && stored == old(stored) && passed == old(passed)
      ensures pending == Served(old(pending), response) + if request then [Ask(ask, {bus(ask)})] else []
      ensures take ==> taken == old(cache.forward) && old(requests) != []
      ensures take ==> Fits(old(requests)[0], taken, old(passed))
      ensures requests == if take then old(requests)[1..] else old(requests)
    {
      hide Shaped, Unique, Coherent, Empty, ICache.Agrees, Present, Quot, Mirrors, Explains, Good, Asking, Number;
      hide BlockAt, R.Emits, R.Buffered, R.FirstError, R.Aligned, LineOf, Hit, Served;
      var emit;
      emit, ask := Turn(request, response, None);
      var arrival := None;
      if emit.Some? {
        LineOfNumber(h.sets, cache.addr.line);
        var b := emit.value;
        arrival := Some(Arrival(Addr(LineOf(h.sets, b.line), b.index), b.words, b.error, b.last));
      }
      var made, start, reply;
      made, start, reply := cache.Clock(false, None, false, arrival, take);
      taken := if take then Some(reply.value.1) else None;
      if take { requests := requests[1..]; }
    }

    /** A lookup would answer: the line is present or its refill failed. */
    ghost predicate Settled()
      reads this, cache
      requires cache.Valid()
    {
      cache.errorSaved || Present(cache.g, cache.mem, cache.addr.line)
    }

    /** The cache's part of a cycle without an arriving block. */
    method Looking(look: bool, issue: Option<nat>, flush: bool, take: bool)
      returns (made: Option<Reply>, start: Option<Line>, taken: Option<Reply>)
      requires Mirrored() && !cache.state.Refill?
      requires look ==> cache.state.Lookup? && (cache.readValid || cache.errorSaved) && cache.forward.None?
      requires issue.Some? || flush ==> !cache.readValid || (look && Settled())
      requires issue.Some? ==> !flush
      requires take ==> cache.forward.Some? || (look && Settled())
      modifies this`requests, this`stored, this`passed, cache
      ensures Mirrored()
      ensures made.Some? <==> look && old(Settled())
      ensures made.Some? ==> old(requests) != [] && Fits(old(Asked()), made, Touched(h, old(stored), old(Asked())))
      ensures taken == (if !take then None else if made.Some? then made else old(cache.forward))
      ensures take ==> old(requests) != [] && (made.Some? ==> old(Asked()) == old(requests)[0])
      ensures take ==> made.Some? || Fits(old(requests)[0], taken, old(passed))
      ensures requests == (if take then old(requests)[1..] else old(requests))
                          + (if issue.Some? then [issue.value] else [])
      ensures passed <==> if made.Some? && !take then Touched(h, old(stored), old(Asked())) else old(passed)
      ensures flush ==> cache.state.Flush? || stored == {}
      ensures stored == if old(cache.state).Flush? && cache.state.Lookup? then {} else old(stored)
      ensures cache.state.Refill? <==> start.Some?
      ensures start == if look && made.None? then Some(old(cache.addr.line)) else None
      ensures start.Some? ==> start.value == cache.addr.line && cache.filled == 0
    {
      hide Shaped, Unique, Coherent, Empty, ICache.Agrees, Quot, Mirrors, Explains, Number, BlockAt;
      hide LineOf, Hit, Decode, Touched;
      ghost var sweeping := cache.state.Flush?;
      Answered(issue);
      var reply;
      var a := if issue.Some? then Some(Decode(h, issue.value)) else None;
      made, start, reply := cache.Clock(look, a, flush, None, take);
      taken := if take then Some(reply.value.1) else None;
      if made.Some? && !take { passed := Touched(h, stored, Asked()); }
      requests := (if take then requests[1..] else requests) + if issue.Some? then [issue.value] else [];
      if sweeping && cache.state.Lookup? { stored := {}; }
    }

    /** Any other cycle: the cache may look up, accept the request for a word's block or flush; a miss
        starts a refill, for which the refiller must be free. An answer is the block of the word the
        newest request names, as memory has it, unless a word of its line was stored to since the last
        flush; replies are taken in the order of the requests. */
    method Serving(look: bool, issue: Option<nat>, flush: bool, take: bool, response: Option<R.Response>)
      returns (made: Option<Reply>, taken: Option<Reply>)
      requires Valid() && !cache.state.Refill?
      requires response.Some? ==> Answers(pending, response.value)
      requires look ==> cache.state.Lookup? && (cache.readValid || cache.errorSaved) && cache.forward.None?
      requires look ==> !refiller.active
      requires issue.Some? || flush ==> !cache.readValid || (look && Settled())
      requires issue.Some? ==> !flush
      requires take ==> cache.forward.Some? || (look && Settled())
      modifies this, cache, refiller
      ensures Valid() && bus == old(bus) && pending == Served(old(pending), response)
      ensures made.Some? <==> look && old(Settled())
      ensures made.Some? ==> old(requests) != [] && Fits(old(Asked()), made, Touched(h, old(stored), old(Asked())))
      ensures taken == (if !take then None else if made.Some? then made else old(cache.forward))
      ensures take ==> old(requests) != [] && (made.Some? ==> old(Asked()) == old(requests)[0])
      ensures take ==> made.Some? || Fits(old(requests)[0], taken, old(passed))
      ensures requests == (if take then old(requests)[1..] else old(requests))
                          + (if issue.Some? then [issue.value] else [])
      ensures passed <==> if made.Some? && !take then Touched(h, old(stored), old(Asked())) else old(passed)
      // a flush takes effect before any later answer
      ensures flush ==> cache.state.Flush? || stored == {}
      ensures stored == if old(cache.state).Flush? && cache.state.Lookup? then {} else old(stored)
      // no refill starts while a response of an earlier one is outstanding
      ensures cache.state.Refill? ==> old(pending) == []
    {
      hide Mirrored, Fits, Touched, Settled, Good, Asking, Number, LineWords, Asked;
      hide R.Emits, R.Buffered, R.FirstError, R.Aligned;
      var start;
      made, start, taken := Looking(look, issue, flush, take);
      pending := Served(pending, response);
      var target := if start.Some? then Some(Number(h.sets, start.value)) else None;
      var emit, address := refiller.Clock(false, response, target);
      NothingAsked(bus, Base(), cache.addr.line !in cache.dirty);
    }

    /** The block a lookup answers with. */
    ghost method Answered(issue: Option<nat>)
      requires Mirrored()
      ensures issue.Some? ==> cache.g.Has(Decode(h, issue.value))
      ensures requests != [] ==>
                && Decode(h, Asked()) == cache.args[|requests| - 1]
                && var d := Decode(h, Asked());
                && cache.memory(d.line, d.block) == BlockAt(bus, h.blockWords, Asked())
                && (d.line in cache.dirty ==> Touched(h, stored, Asked()))
      ensures Explains(h, {}, {})
    {
      if issue.Some? { EncodeDecode(h, issue.value); }
      if requests != [] {
        BlockIsFlat(h, cache.memory, bus, Asked());
        if Decode(h, Asked()).line in cache.dirty { DirtyIsTouched(h, stored, cache.dirty, Asked()); }
      }
    }

    /** The world stores a word to memory. */
    ghost method Store(a: nat, v: nat)
      requires Valid()
      modifies this, cache
      ensures Valid() && bus == Write(old(bus), a, v) && stored == old(stored) + {a} && requests == old(requests)
      ensures pending == Seen(old(pending), a, v)
      ensures passed <==> old(passed) || (requests != [] && LineNumber(h, a) == LineNumber(h, requests[0]))
    {
      hide Shaped, Unique, Coherent, Empty, ICache.Agrees, Quot, BlockAt, Mirrors, Explains, Good, Asking;
      hide R.Emits, R.Buffered, R.FirstError, R.Aligned, LineOf, Hit, Decode, Number, LineNumber, LineWords;
      hide Write, Seen, Stored;
      var d := Decode(h, a);
      StoreMirrors(h, cache.memory, bus, a, v);
      StoreExplains(h, stored, cache.dirty, a);
      if requests != [] && LineNumber(h, a) != LineNumber(h, requests[0]) { BlockUntouched(h, bus, a, v, requests[0]); }
      if Running() { RefillStored(a, v); }
      cache.Store(d.line, d.block, StoredBlock(h, bus, a, v));
      passed := passed || (requests != [] && LineNumber(h, a) == LineNumber(h, requests[0]));
      bus, pending, stored := Write(bus, a, v), Seen(pending, a, v), stored + {a};
    }

    /** A store to the line being refilled makes it dirty, any other leaves its words alone. */
    lemma RefillStored(a: nat, v: nat)
      requires Valid() && Running()
      ensures var clean := cache.addr.line !in cache.dirty + {Decode(h, a).line};
              && Asking(Write(bus, a, v), Base() + |refiller.responses|, Seen(pending, a, v), clean)
              && (clean ==> Good(Write(bus, a, v), Base(), refiller.responses))
    {
      hide Shaped, Unique, Coherent, Empty, ICache.Agrees, Quot, BlockAt, Mirrors, Explains;
      hide R.Emits, R.Buffered, R.FirstError, R.Aligned, LineOf, Hit, Decode, Number, LineNumber, LineWords;
      if cache.addr.line !in cache.dirty + {Decode(h, a).line} {
        OtherLine(h, cache.addr.line, a);
        StoreElsewhere(bus, Base(), refiller.responses, pending, refiller.lineWords, a, v);
      }
    }
  }

  lemma StoreExplains(h: Shape, stored: set<nat>, dirty: set<Line>, a: nat)
    requires Explains(h, stored, dirty)
    ensures Explains(h, stored + {a}, dirty + {Decode(h, a).line})
  {
    hide Decode;
    assert a in stored + {a};
  }

  /** A store to another line leaves a block alone. */
  lemma BlockUntouched(h: Shape, bus: Bus, a: nat, v: nat, w: nat)
    requires LineNumber(h, a) != LineNumber(h, w)
    ensures BlockAt(Write(bus, a, v), h.blockWords, w) == BlockAt(bus, h.blockWords, w)
  {
    EncodeDecode(h, w);
    var d := Decode(h, w);
    var x, y := BlockAt(Write(bus, a, v), h.blockWords, w), BlockAt(bus, h.blockWords, w);
    forall j | 0 <= j < h.blockWords ensures x[j] == y[j] {
      DecodeEncode(h, d, j);
    }
  }

  lemma OtherLine(h: Shape, l: Line, a: nat)
    requires l.index < h.sets && Decode(h, a).line != l
    ensures var base := Number(h.sets, l) * LineWords(h); !(base <= a < base + LineWords(h))
  {
    var base := Number(h.sets, l) * LineWords(h);
    LineOfNumber(h.sets, l);
    if base <= a < base + LineWords(h) {
      SplitUnique(a, LineWords(h), Number(h.sets, l), a - base);
    }
  }

  lemma MultipleAligned(blocks: nat, blockWords: nat)
    requires blockWords > 0 && blocks > 0
    ensures blocks * blockWords > 0 && R.Aligned(blocks * blockWords, blockWords)
  {
    SplitUnique(blocks * blockWords, blockWords, blocks, 0);
    ScaleMono(1, blocks, blockWords);
  }
}
