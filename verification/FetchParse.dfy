/** Finding instruction boundaries in fetch blocks of mixed 16 and 32 bit instructions: every block
    is parsed in parallel, an instruction crossing into the next block is carried. */
module FetchParse {

  /** Addresses are counted in halfwords: the byte address is twice that. */
  datatype Instr = Instr(pc: int, halves: seq<nat>)

  datatype Carry = Carry(v: bool, half: nat, addr: nat)

  datatype Fetched = Fetched(addr: nat, offset: nat, block: seq<nat>, stale: bool)

  predicate Compressed(half: nat) {
    half % 4 != 3
  }

  // ---- the sequential parse ----

  /** The instructions of `h` from position `p` on that end within `h`. */
  function Parse(h: seq<nat>, base: nat, p: nat): seq<Instr>
    decreases |h| - p
  {
    if p >= |h| then []
    else if Compressed(h[p]) then [Instr(base + p, [h[p]])] + Parse(h, base, p + 1)
    else if p + 1 < |h| then [Instr(base + p, [h[p], h[p + 1]])] + Parse(h, base, p + 2)
    else []
  }

  /** Where that parse stops: at the end, or at an instruction reaching past it. */
  function End(h: seq<nat>, p: nat): (e: nat)
    ensures p <= e && (p < |h| ==> |h| - 1 <= e <= |h|)
    ensures e < |h| ==> !Compressed(h[e])
    decreases |h| - p
  {
    if p >= |h| then p
    else if Compressed(h[p]) then End(h, p + 1)
    else if p + 1 < |h| then End(h, p + 2)
    else p
  }

  lemma ParseShort(h: seq<nat>, base: nat, p: nat)
    requires p < |h| && Compressed(h[p])
    ensures Parse(h, base, p) == [Instr(base + p, [h[p]])] + Parse(h, base, p + 1)
    ensures End(h, p) == End(h, p + 1)
  {
  }

  lemma ParseLong(h: seq<nat>, base: nat, p: nat)
    requires p + 1 < |h| && !Compressed(h[p])
    ensures Parse(h, base, p) == [Instr(base + p, [h[p], h[p + 1]])] + Parse(h, base, p + 2)
    ensures End(h, p) == End(h, p + 2)
  {
  }

  lemma ParseStop(h: seq<nat>, base: nat, p: nat)
    requires p >= |h| || (p == |h| - 1 && !Compressed(h[p]))
    ensures Parse(h, base, p) == [] && End(h, p) == p
  {
  }

  lemma {:induction false} ParseAppend(h: seq<nat>, b: seq<nat>, base: nat, p: nat)
    ensures Parse(h + b, base, p) == Parse(h, base, p) + Parse(h + b, base, End(h, p))
    ensures End(h + b, p) == End(h + b, End(h, p))
    decreases |h| - p
  {
    hide Parse, End, Compressed;
    if p < |h| && Compressed(h[p]) {
      ParseShort(h, base, p);
      ParseShort(h + b, base, p);
      ParseAppend(h, b, base, p + 1);
    } else if p + 1 < |h| {
      ParseLong(h, base, p);
      ParseLong(h + b, base, p);
      ParseAppend(h, b, base, p + 2);
    } else {
      ParseStop(h, base, p);
    }
  }

  lemma {:induction false} ParseShift(h: seq<nat>, b: seq<nat>, base: nat, p: nat)
    ensures Parse(h + b, base, |h| + p) == Parse(b, base + |h|, p)
    ensures End(h + b, |h| + p) == |h| + End(b, p)
    decreases |b| - p
  {
    hide Parse, End, Compressed;
    if p < |b| && Compressed(b[p]) {
      ParseShort(h + b, base, |h| + p);
      ParseShort(b, base + |h|, p);
      ParseShift(h, b, base, p + 1);
    } else if p + 1 < |b| {
      ParseLong(h + b, base, |h| + p);
      ParseLong(b, base + |h|, p);
      ParseShift(h, b, base, p + 2);
    } else {
      ParseStop(h + b, base, |h| + p);
      ParseStop(b, base + |h|, p);
    }
  }

  /** Instructions laid out one after the other from `pc`: two halfwords exactly where the lowest two
      bits are set. */
  predicate LaidOut(es: seq<Instr>, pc: nat)
    decreases |es|
  {
    es != [] ==>
      && es[0].pc == pc && es[0].halves != []
      && |es[0].halves| == (if es[0].halves[0] % 4 == 3 then 2 else 1)
      && LaidOut(es[1..], pc + |es[0].halves|)
  }

  function Halves(es: seq<Instr>): seq<nat> {
    if es == [] then [] else es[0].halves + Halves(es[1..])
  }

  /** The parse is the stream itself, cut into instructions by the lowest two bits of their first
      halfwords, up to the end or an instruction reaching past it. */
  lemma {:induction false} ParseIsTheStream(h: seq<nat>, base: nat, p: nat)
    requires p <= |h|
    ensures End(h, p) <= |h| && Halves(Parse(h, base, p)) == h[p..End(h, p)] && LaidOut(Parse(h, base, p), base + p)
    ensures End(h, p) == |h| || (End(h, p) == |h| - 1 && h[|h| - 1] % 4 == 3)
    decreases |h| - p
  {
    hide Parse, End, LaidOut, Halves;
    if p < |h| && h[p] % 4 != 3 {
      ParseIsTheStream(h, base, p + 1);
      ParseShort(h, base, p);
      Prepended(base + p, [h[p]], Parse(h, base, p + 1));
      assert h[p..End(h, p)] == [h[p]] + h[p + 1..End(h, p)];
    } else if p + 1 < |h| {
      ParseIsTheStream(h, base, p + 2);
      ParseLong(h, base, p);
      Prepended(base + p, [h[p], h[p + 1]], Parse(h, base, p + 2));
      assert h[p..End(h, p)] == [h[p], h[p + 1]] + h[p + 2..End(h, p)];
    } else {
      ParseStop(h, base, p);
      Nothing(base + p);
    }
  }

  lemma Prepended(pc: nat, hs: seq<nat>, es: seq<Instr>)
    requires hs != [] && |hs| == (if hs[0] % 4 == 3 then 2 else 1) && LaidOut(es, pc + |hs|)
    ensures Halves([Instr(pc, hs)] + es) == hs + Halves(es) && LaidOut([Instr(pc, hs)] + es, pc)
  {
    assert ([Instr(pc, hs)] + es)[1..] == es;
  }

  lemma Nothing(pc: nat)
    ensures Halves([]) == [] && LaidOut([], pc)
  {
  }

  // ---- the block-parallel parse ----

  predicate StartsMid(c: Carry, addr: nat) {
    c.v && c.addr + 1 == addr
  }

  /** The first halfword of the instruction seen at slot `i`. */
  function Low(c: Carry, mid: bool, block: seq<nat>, i: nat): nat
    requires i < |block|
  {
    if i == 0 && mid then c.half else block[i]
  }

  predicate Rvc(c: Carry, mid: bool, block: seq<nat>, i: nat)
    requires i < |block|
  {
    Compressed(Low(c, mid, block, i))
  }

  /** The start mask. */
  predicate Starts(c: Carry, mid: bool, block: seq<nat>, offset: nat, i: nat)
    requires i < |block|
  {
    if i == 0 then offset == 0
    else if i == 1 then offset <= 1 && (!Starts(c, mid, block, offset, 0) || Rvc(c, mid, block, 0) || mid)
    else offset <= i && (!Starts(c, mid, block, offset, i - 1) || Rvc(c, mid, block, i - 1))
  }

  /** The last slot counts only if its instruction does not reach into the next block. */
  predicate Counts(c: Carry, mid: bool, block: seq<nat>, offset: nat, i: nat)
    requires i < |block|
  {
    Starts(c, mid, block, offset, i) && (i < |block| - 1 || Rvc(c, mid, block, i))
  }

  function SlotInstr(c: Carry, mid: bool, base: nat, block: seq<nat>, i: nat): Instr
    requires i < |block|
  {
    var low := Low(c, mid, block, i);
    var high := if i == 0 && mid then block[0] else if i == |block| - 1 then 0 else block[i + 1];
    Instr(base + i - (if i == 0 && mid then 1 else 0), if Compressed(low) then [low] else [low, high])
  }

  /** The counted slots from `i` on, packed in order. */
  function Slots(c: Carry, mid: bool, base: nat, block: seq<nat>, offset: nat, i: nat): seq<Instr>
    requires i <= |block|
    decreases |block| - i
  {
    if i == |block| then []
    else (if Counts(c, mid, block, offset, i) then [SlotInstr(c, mid, base, block, i)] else [])
         + Slots(c, mid, base, block, offset, i + 1)
  }

  function Emit(c: Carry, f: Fetched): seq<Instr> {
    Slots(c, StartsMid(c, f.addr), f.addr * |f.block|, f.block, f.offset, 0)
  }

  predicate EndsMid(c: Carry, f: Fetched)
    requires |f.block| > 0
  {
    var mid, last := StartsMid(c, f.addr), |f.block| - 1;
    !Rvc(c, mid, f.block, last) && Starts(c, mid, f.block, f.offset, last)
  }

  /** Only a live block updates the carry. */
  function NextCarry(c: Carry, f: Fetched): Carry
    requires |f.block| > 0
  {
    if f.stale then c else Carry(EndsMid(c, f), f.block[|f.block| - 1], f.addr)
  }

  // ---- one block ----

  lemma StartsFirst(c: Carry, mid: bool, block: seq<nat>, offset: nat)
    requires |block| > 0
    ensures Starts(c, mid, block, offset, 0) <==> offset == 0
  {
  }

  lemma StartsNext(c: Carry, mid: bool, block: seq<nat>, offset: nat, i: nat)
    requires i + 1 < |block|
    ensures Starts(c, mid, block, offset, i + 1) <==>
              offset <= i + 1 && (!Starts(c, mid, block, offset, i) || Rvc(c, mid, block, i) || (i == 0 && mid))
  {
  }

  lemma SlotsNext(c: Carry, mid: bool, base: nat, block: seq<nat>, offset: nat, i: nat)
    requires i <= |block|
    ensures Slots(c, mid, base, block, offset, i) ==
              if i == |block| then []
              else if Counts(c, mid, block, offset, i)
              then [SlotInstr(c, mid, base, block, i)] + Slots(c, mid, base, block, offset, i + 1)
              else Slots(c, mid, base, block, offset, i + 1)
  {
  }

  /** From a slot where an instruction starts, the mask follows the sequential parse. */
  lemma {:induction false} SlotsParse(c: Carry, mid: bool, base: nat, block: seq<nat>, offset: nat, i: nat)
    requires i <= |block| && |block| > 1 && offset <= i && (mid ==> i > 0)
    requires i < |block| ==> Starts(c, mid, block, offset, i)
    ensures Slots(c, mid, base, block, offset, i) == Parse(block, base, i)
    decreases |block| - i
  {
    hide Parse, End, Compressed, Slots, Starts;
    SlotsNext(c, mid, base, block, offset, i);
    if i < |block| && Compressed(block[i]) {
      if i + 1 < |block| { StartsNext(c, mid, block, offset, i); }
      ParseShort(block, base, i);
      SlotsParse(c, mid, base, block, offset, i + 1);
    } else if i + 1 < |block| {
      StartsNext(c, mid, block, offset, i);
      SlotsNext(c, mid, base, block, offset, i + 1);
      if i + 2 < |block| { StartsNext(c, mid, block, offset, i + 1); }
      ParseLong(block, base, i);
      SlotsParse(c, mid, base, block, offset, i + 2);
    } else {
      ParseStop(block, base, i);
      if i < |block| { SlotsNext(c, mid, base, block, offset, i + 1); }
    }
  }

  /** ... and so the last slot starts a longer instruction exactly when the parse stops there. */
  lemma {:induction false} SlotsEnd(c: Carry, mid: bool, block: seq<nat>, offset: nat, i: nat)
    requires i < |block| && |block| > 1 && offset <= i && (mid ==> i > 0)
    requires Starts(c, mid, block, offset, i)
    ensures End(block, i) == |block| - 1 <==>
              Starts(c, mid, block, offset, |block| - 1) && !Rvc(c, mid, block, |block| - 1)
    decreases |block| - i
  {
    hide Parse, End, Compressed, Starts;
    if i + 1 < |block| { StartsNext(c, mid, block, offset, i); }
    if Compressed(block[i]) {
      ParseShort(block, 0, i);
      if i + 1 < |block| { SlotsEnd(c, mid, block, offset, i + 1); } else { ParseStop(block, 0, i + 1); }
    } else if i + 1 < |block| {
      ParseLong(block, 0, i);
      if i + 2 < |block| {
        StartsNext(c, mid, block, offset, i + 1);
        SlotsEnd(c, mid, block, offset, i + 2);
      } else {
        ParseStop(block, 0, i + 2);
      }
    } else {
      ParseStop(block, 0, i);
    }
  }

  lemma {:induction false} SlotsSkip(c: Carry, mid: bool, base: nat, block: seq<nat>, offset: nat, i: nat)
    requires i <= offset < |block|
    ensures Slots(c, mid, base, block, offset, i) == Slots(c, mid, base, block, offset, offset)
    ensures Starts(c, mid, block, offset, offset)
    decreases offset - i
  {
    if i < offset {
      SlotsSkip(c, mid, base, block, offset, i + 1);
      assert !Starts(c, mid, block, offset, i);
    } else if offset > 0 {
      assert !Starts(c, mid, block, offset, offset - 1);
    }
  }

  /** A block entered at an instruction boundary. */
  lemma BlockParse(c: Carry, f: Fetched)
    requires |f.block| > 1 && f.offset < |f.block| && !StartsMid(c, f.addr)
    ensures Emit(c, f) == Parse(f.block, f.addr * |f.block|, f.offset)
    ensures EndsMid(c, f) <==> End(f.block, f.offset) == |f.block| - 1
  {
    var base := f.addr * |f.block|;
    SlotsSkip(c, false, base, f.block, f.offset, 0);
    SlotsParse(c, false, base, f.block, f.offset, f.offset);
    SlotsEnd(c, false, f.block, f.offset, f.offset);
  }

  /** A block entered in the middle of the carried instruction, which comes out at slot 0. */
  lemma StraddleParse(c: Carry, f: Fetched)
    requires |f.block| > 1 && f.offset == 0 && StartsMid(c, f.addr) && !Compressed(c.half)
    ensures Emit(c, f) == [Instr(f.addr * |f.block| - 1, [c.half, f.block[0]])] + Parse(f.block, f.addr * |f.block|, 1)
    ensures EndsMid(c, f) <==> End(f.block, 1) == |f.block| - 1
  {
    SlotsParse(c, true, f.addr * |f.block|, f.block, 0, 1);
    SlotsEnd(c, true, f.block, 0, 1);
  }

  // ---- runs of blocks ----

  function Run(c: Carry, fs: seq<Fetched>): (r: (seq<Instr>, Carry))
    requires forall i :: 0 <= i < |fs| ==> |fs[i].block| > 0
    decreases |fs|
  {
    if fs == [] then ([], c)
    else
      var (out, last) := Run(NextCarry(c, fs[0]), fs[1..]);
      ((if fs[0].stale then [] else Emit(c, fs[0])) + out, last)
  }

  /** The halfwords of the live blocks. */
  function Stream(fs: seq<Fetched>): seq<nat> {
    if fs == [] then [] else (if fs[0].stale then [] else fs[0].block) + Stream(fs[1..])
  }

  /** The live blocks are consecutive: the first at `offset`, the others entered at their start. */
  ghost predicate Consecutive(width: nat, fs: seq<Fetched>, addr: nat, offset: nat) {
    fs == [] ||
    (&& |fs[0].block| == width
     && if fs[0].stale then Consecutive(width, fs[1..], addr, offset)
        else fs[0].addr == addr && fs[0].offset == offset && Consecutive(width, fs[1..], addr + 1, 0))
  }

  /** The carry left by the history `h`, parsed from `p`. */
  ghost predicate CarryFor(c: Carry, h: seq<nat>, p: nat, addr: nat) {
    if h == [] then !StartsMid(c, addr)
    else
      && p < |h|
      && c.addr + 1 == addr
      && c.half == h[|h| - 1]
      && (c.v <==> End(h, p) == |h| - 1)
  }

  ghost predicate CarryLeft(c: Carry, h: seq<nat>, p: nat) {
    h != [] ==> (c.v <==> End(h, p) == |h| - 1)
  }

  /** One live block extends the parse of the history. */
  lemma BlockExtends(c: Carry, f: Fetched, h: seq<nat>, base: nat, p: nat)
    requires |f.block| > 1 && !f.stale
    requires base + |h| == f.addr * |f.block|
    requires CarryFor(c, h, p, f.addr)
    requires if h == [] then f.offset == p < |f.block| else f.offset == 0
    ensures Parse(h + f.block, base, p) == Parse(h, base, p) + Emit(c, f)
    ensures CarryFor(NextCarry(c, f), h + f.block, p, f.addr + 1)
  {
    hide Parse, End, Emit, EndsMid, Compressed;
    if h == [] {
      assert h + f.block == f.block;
      ParseStop(h, base, p);
      BlockParse(c, f);
    } else {
      var e := End(h, p);
      ParseAppend(h, f.block, base, p);
      if e == |h| {
        ParseShift(h, f.block, base, 0);
        BlockParse(c, f);
      } else {
        ParseShift(h, f.block, base, 1);
        StraddleParse(c, f);
        ParseLong(h + f.block, base, e);
      }
    }
  }

  lemma {:induction false} RunExtends(width: nat, fs: seq<Fetched>, c: Carry, h: seq<nat>, base: nat, p: nat, addr: nat)
    requires width > 1 && p < width
    requires Consecutive(width, fs, addr, if h == [] then p else 0)
    requires forall i :: 0 <= i < |fs| ==> |fs[i].block| > 0
    requires base + |h| == addr * width && CarryFor(c, h, p, addr)
    ensures Parse(h + Stream(fs), base, p) == Parse(h, base, p) + Run(c, fs).0
    ensures CarryLeft(Run(c, fs).1, h + Stream(fs), p)
    decreases |fs|
  {
    hide Parse, End, Emit, NextCarry, Run, Stream;
    RunUnfolds(c, fs);
    if fs == [] {
      assert h + Stream(fs) == h;
    } else if fs[0].stale {
      assert Stream(fs) == Stream(fs[1..]);
      RunExtends(width, fs[1..], c, h, base, p, addr);
    } else {
      BlockExtends(c, fs[0], h, base, p);
      var g := h + fs[0].block;
      assert h + Stream(fs) == g + Stream(fs[1..]);
      assert (addr + 1) * width == addr * width + width;
      RunExtends(width, fs[1..], NextCarry(c, fs[0]), g, base, p, addr + 1);
    }
  }

  lemma RunUnfolds(c: Carry, fs: seq<Fetched>)
    requires forall i :: 0 <= i < |fs| ==> |fs[i].block| > 0
    ensures fs == [] ==> Run(c, fs) == ([], c) && Stream(fs) == []
    ensures fs != [] && fs[0].stale ==>
              && Run(c, fs).0 == Run(c, fs[1..]).0 && Run(c, fs).1 == Run(c, fs[1..]).1
              && Stream(fs) == Stream(fs[1..])
    ensures fs != [] && !fs[0].stale ==>
              && Run(c, fs).0 == Emit(c, fs[0]) + Run(NextCarry(c, fs[0]), fs[1..]).0
              && Run(c, fs).1 == Run(NextCarry(c, fs[0]), fs[1..]).1
              && Stream(fs) == fs[0].block + Stream(fs[1..])
  {
    hide Emit, EndsMid;
  }

  /** Consecutive live blocks, with stale ones anywhere in between, yield exactly the sequential
      parse of the halfword stream from the requested offset: every instruction once, in order,
      with its own address. */
  lemma ParallelIsSequential(width: nat, fs: seq<Fetched>, c: Carry, addr: nat, offset: nat)
    requires width > 1 && offset < width && Consecutive(width, fs, addr, offset)
    requires forall i :: 0 <= i < |fs| ==> |fs[i].block| > 0
    requires !StartsMid(c, addr)
    ensures Run(c, fs).0 == Parse(Stream(fs), addr * width, offset)
    ensures Stream(fs) != [] ==>
              (Run(c, fs).1.v <==> End(Stream(fs), offset) == |Stream(fs)| - 1)
  {
    RunExtends(width, fs, c, [], addr * width, offset, addr);
    assert [] + Stream(fs) == Stream(fs);
  }

  // ---- going astray and back ----

  /** What happens to the carry: a block on the path or stale, a block fetched beyond a wrong
      prediction before the later stage notices, and that stage steering to the next block. */
  datatype Event = OnPath(f: Fetched) | Astray(f: Fetched) | Resteer

  /** Steering on re-establishes the carry of the last block on the path, and drops any other. */
  function Restored(c: Carry, kept: Carry): Carry {
    if kept.v then kept else c.(v := false)
  }

  ghost predicate Blocks(es: seq<Event>) {
    forall i :: 0 <= i < |es| && !es[i].Resteer? ==> |es[i].f.block| > 0
  }

  /** `kept` is what the last block on the path left, as it travels to the later stage. */
  function Wander(c: Carry, kept: Carry, es: seq<Event>): seq<Instr>
    requires Blocks(es)
    decreases |es|
  {
    if es == [] then []
    else
      match es[0]
      case OnPath(f) =>
        (if f.stale then [] else Emit(c, f))
        + Wander(NextCarry(c, f), if f.stale then kept else NextCarry(c, f), es[1..])
      case Astray(f) => Wander(NextCarry(c, f), kept, es[1..])
      case Resteer => Wander(Restored(c, kept), kept, es[1..])
  }

  /** After going astray no block on the path is fetched before the later stage steers back. */
  ghost predicate Returns(lost: bool, es: seq<Event>)
    decreases |es|
  {
    es != [] ==>
      match es[0]
      case OnPath(f) => (f.stale || !lost) && Returns(lost, es[1..])
      case Astray(f) => Returns(true, es[1..])
      case Resteer => Returns(false, es[1..])
  }

  function PathOf(es: seq<Event>): seq<Fetched>
    decreases |es|
  {
    if es == [] then [] else (if es[0].OnPath? then [es[0].f] else []) + PathOf(es[1..])
  }

  lemma {:induction false} PathBlocks(es: seq<Event>)
    requires Blocks(es)
    ensures forall i :: 0 <= i < |PathOf(es)| ==> |PathOf(es)[i].block| > 0
    decreases |es|
  {
    if es != [] {
      assert Blocks(es[1..]) by { assert forall i :: 0 <= i < |es| - 1 ==> es[1..][i] == es[i + 1]; }
      PathBlocks(es[1..]);
    }
  }

  /** Carries that lead to the same parse. */
  predicate Same(c: Carry, d: Carry) {
    c.v == d.v && (c.v ==> c == d)
  }

  lemma {:induction false} SameStarts(c: Carry, d: Carry, block: seq<nat>, offset: nat, i: nat)
    requires i < |block|
    ensures Starts(c, false, block, offset, i) == Starts(d, false, block, offset, i)
  {
    if i > 0 { SameStarts(c, d, block, offset, i - 1); }
  }

  lemma {:induction false} SameSlots(c: Carry, d: Carry, base: nat, block: seq<nat>, offset: nat, i: nat)
    requires i <= |block|
    ensures Slots(c, false, base, block, offset, i) == Slots(d, false, base, block, offset, i)
    decreases |block| - i
  {
    if i < |block| {
      SameStarts(c, d, block, offset, i);
      SameSlots(c, d, base, block, offset, i + 1);
    }
  }

  lemma SameBlock(c: Carry, d: Carry, f: Fetched)
    requires Same(c, d) && |f.block| > 0
    ensures Emit(c, f) == Emit(d, f)
    ensures if f.stale then Same(NextCarry(c, f), NextCarry(d, f)) else NextCarry(c, f) == NextCarry(d, f)
  {
    if !c.v {
      SameSlots(c, d, f.addr * |f.block|, f.block, f.offset, 0);
      SameStarts(c, d, f.block, f.offset, |f.block| - 1);
    }
  }

  lemma RunOne(c: Carry, f: Fetched, fs: seq<Fetched>)
    requires |f.block| > 0 && forall i :: 0 <= i < |fs| ==> |fs[i].block| > 0
    ensures forall i :: 0 <= i < |[f] + fs| ==> |([f] + fs)[i].block| > 0
    ensures Run(c, [f] + fs).0 == (if f.stale then [] else Emit(c, f)) + Run(NextCarry(c, f), fs).0
  {
    assert ([f] + fs)[1..] == fs;
  }

  /** Wandering off and being steered back leaves no trace in what the path's blocks yield. */
  lemma {:induction false} WanderingLeavesNoTrace(c: Carry, kept: Carry, lost: bool, es: seq<Event>)
    requires Blocks(es) && Returns(lost, es) && (lost || Same(c, kept))
    ensures forall i :: 0 <= i < |PathOf(es)| ==> |PathOf(es)[i].block| > 0
    ensures Wander(c, kept, es) == Run(kept, PathOf(es)).0
    decreases |es|
  {
    PathBlocks(es);
    if es != [] {
      var rest := es[1..];
      assert Blocks(rest) by { assert forall i :: 0 <= i < |es| - 1 ==> rest[i] == es[i + 1]; }
      PathBlocks(rest);
      match es[0] {
        case OnPath(f) =>
          RunOne(kept, f, PathOf(rest));
          if f.stale {
            WanderingLeavesNoTrace(c, kept, lost, rest);
          } else {
            SameBlock(c, kept, f);
            WanderingLeavesNoTrace(NextCarry(c, f), NextCarry(c, f), false, rest);
          }
        case Astray(f) =>
          assert PathOf(es) == PathOf(rest);
          WanderingLeavesNoTrace(NextCarry(c, f), kept, true, rest);
        case Resteer =>
          assert PathOf(es) == PathOf(rest);
          WanderingLeavesNoTrace(Restored(c, kept), kept, false, rest);
      }
    }
  }

  /** So the path's blocks yield the sequential parse also across resteers, with an instruction
      straddling two of them intact. */
  lemma ResteeredIsSequential(width: nat, es: seq<Event>, c: Carry, addr: nat, offset: nat)
    requires width > 1 && offset < width && Blocks(es) && Returns(false, es)
    requires Consecutive(width, PathOf(es), addr, offset) && !StartsMid(c, addr)
    ensures Wander(c, c, es) == Parse(Stream(PathOf(es)), addr * width, offset)
  {
    WanderingLeavesNoTrace(c, c, false, es);
    ParallelIsSequential(width, PathOf(es), c, addr, offset);
  }

  // ---- stage 1 as it runs ----

  class Stage1 {
    const width: nat
    var prevHalf: nat
    var prevHalfAddr: nat
    var prevHalfV: bool

    function View(): Carry
      reads this
    {
      Carry(prevHalfV, prevHalf, prevHalfAddr)
    }

    constructor (width: nat)
      ensures this.width == width && !View().v
    {
      this.width := width;
      prevHalf, prevHalfAddr, prevHalfV := 0, 0, false;
    }

    /** A fault-free block: the masks are built slot by slot, then the carry is updated. */
    method Fetch(f: Fetched) returns (out: seq<Instr>)
      requires width > 1 && |f.block| == width && f.offset < width
      modifies this
      ensures out == Emit(old(View()), f)
      ensures View() == NextCarry(old(View()), f)
    {
      hide Slots, Starts, Compressed;
      var c, base := View(), f.addr * width;
      var mid := prevHalfV && prevHalfAddr + 1 == f.addr;
      var start := f.offset == 0;
      StartsFirst(c, mid, f.block, f.offset);
      var rvc := Compressed(if mid then prevHalf else f.block[0]);
      out := [];
      var i := 0;
      while i < width - 1
        invariant 0 <= i <= width - 1
        invariant View() == c
        invariant mid == StartsMid(c, f.addr)
        invariant start == Starts(c, mid, f.block, f.offset, i) && rvc == Rvc(c, mid, f.block, i)
        invariant out + Slots(c, mid, base, f.block, f.offset, i) == Emit(c, f)
      {
        SlotsNext(c, mid, base, f.block, f.offset, i);
        StartsNext(c, mid, f.block, f.offset, i);
        if start { out := out + [SlotInstr(c, mid, base, f.block, i)]; }
        start := f.offset <= i + 1 && (!start || rvc || (i == 0 && mid));
        rvc := Compressed(f.block[i + 1]);
        i := i + 1;
      }
      SlotsNext(c, mid, base, f.block, f.offset, i);
      SlotsNext(c, mid, base, f.block, f.offset, width);
      if start && rvc { out := out + [SlotInstr(c, mid, base, f.block, i)]; }
      if !f.stale {
        prevHalfV, prevHalf, prevHalfAddr := start && !rvc, f.block[width - 1], f.addr;
      }
    }

    /** The later stage steers to the next block, or elsewhere. `kept` comes with its block. */
    method Redirect(kept: Carry, fallThrough: bool)
      modifies this
      ensures View() == if fallThrough then Restored(old(View()), kept) else old(View()).(v := false)
    {
      if fallThrough && kept.v {
        prevHalfV, prevHalf, prevHalfAddr := true, kept.half, kept.addr;
      } else {
        prevHalfV := false;
      }
    }
  }
}
