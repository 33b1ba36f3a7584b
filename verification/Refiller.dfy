/** The cache refiller: reads a line word by word over the bus, hands it on block by block, and
    after a bus error drains the responses still outstanding. */
module Refiller {
  import opened Wrappers
  import opened Powers

  datatype Response = Response(data: nat, err: bool)

  /** A fetch block handed to the cache: `index` counts blocks within the line. */
  datatype Block = Block(line: nat, index: nat, words: seq<nat>, error: bool, last: bool)

  function FirstError(rs: seq<Response>): (g: nat)
    ensures g <= |rs| && (g < |rs| ==> rs[g].err) && forall i :: 0 <= i < g ==> !rs[i].err
  {
    if rs == [] then 0 else if rs[0].err then 0 else 1 + FirstError(rs[1..])
  }

  lemma {:induction false} FirstErrorAppend(rs: seq<Response>, r: Response)
    ensures FirstError(rs + [r]) == if FirstError(rs) < |rs| || r.err then FirstError(rs) else |rs| + 1
  {
    if rs != [] && !rs[0].err {
      assert (rs + [r])[1..] == rs[1..] + [r];
      FirstErrorAppend(rs[1..], r);
    }
  }

  function Words(rs: seq<Response>): (ws: seq<nat>)
    ensures |ws| == |rs|
  {
    seq(|rs|, i requires 0 <= i < |rs| => rs[i].data)
  }

  /** Block `j` made of words without error. */
  ghost predicate GoodBlock(lineWords: nat, blockWords: nat, line: nat, rs: seq<Response>, j: nat, b: Block) {
    && (j + 1) * blockWords <= |rs|
    && 0 <= j * blockWords <= (j + 1) * blockWords
    && b.line == line && b.index == j && !b.error
    && b.words == Words(rs)[j * blockWords..(j + 1) * blockWords]
    && (b.last <==> (j + 1) * blockWords == lineWords)
  }

  /** What a refill must have emitted after the responses `rs`: the complete blocks before the
      first error in order, then one error block, then nothing. */
  ghost predicate Emits(lineWords: nat, blockWords: nat, line: nat, rs: seq<Response>, out: seq<Block>)
    requires blockWords > 0
  {
    var g := FirstError(rs);
    var k := Quot(g, blockWords);
    && |out| == (if g < |rs| then k + 1 else k)
    && (forall j :: 0 <= j < k ==> GoodBlock(lineWords, blockWords, line, rs, j, out[j]))
    && (g < |rs| ==> out[k].line == line && out[k].index == k && out[k].error && out[k].last)
  }

  ghost predicate Complete(lineWords: nat, rs: seq<Response>) {
    FirstError(rs) < |rs| || |rs| >= lineWords
  }

  /** `last` marks the final block of a complete refill and no other. */
  lemma LastExactlyOnce(lineWords: nat, blockWords: nat, line: nat, rs: seq<Response>, out: seq<Block>, j: nat)
    requires blockWords > 0 && lineWords > 0 && lineWords % blockWords == 0 && |rs| <= lineWords
    requires Emits(lineWords, blockWords, line, rs, out) && j < |out|
    ensures out[j].last <==> Complete(lineWords, rs) && j == |out| - 1
  {
    var g := FirstError(rs);
    var k := Quot(g, blockWords);
    Split(g, blockWords);
    Split(lineWords, blockWords);
    if j < k {
      assert GoodBlock(lineWords, blockWords, line, rs, j, out[j]);
      ScaleMono(j + 1, k, blockWords);
      if j + 1 < k {
        ScaleMono(j + 2, k, blockWords);
        assert (j + 2) * blockWords == (j + 1) * blockWords + blockWords;
      }
      if out[j].last && j + 1 == k { SplitUnique(g, blockWords, k, g % blockWords); }
    }
  }

  /** Seen by the cache: blocks arrive in order, and `last` is set on an error or on the final
      block of the line. */
  lemma ArrivalsInOrder(lineWords: nat, blockWords: nat, line: nat, rs: seq<Response>, out: seq<Block>, j: nat)
    requires blockWords > 0 && |rs| <= lineWords
    requires Emits(lineWords, blockWords, line, rs, out) && j < |out|
    ensures out[j].line == line && out[j].index == j
    ensures out[j].last <==> out[j].error || (j + 1) * blockWords == lineWords
    ensures out[j].error ==> j == |out| - 1
  {
    if j < Quot(FirstError(rs), blockWords) { assert GoodBlock(lineWords, blockWords, line, rs, j, out[j]); }
  }

  // ---- blocks grow with the responses ----

  lemma GoodBlockStays(lineWords: nat, blockWords: nat, line: nat, rs: seq<Response>, r: Response, j: nat, b: Block)
    requires GoodBlock(lineWords, blockWords, line, rs, j, b)
    ensures GoodBlock(lineWords, blockWords, line, rs + [r], j, b)
  {
    var lo, hi := j * blockWords, (j + 1) * blockWords;
    assert Words(rs + [r])[lo..hi] == Words(rs)[lo..hi];
  }

  /** A response after the first error adds nothing. */
  lemma DrainEmits(lineWords: nat, blockWords: nat, line: nat, rs: seq<Response>, out: seq<Block>, r: Response)
    requires blockWords > 0 && Emits(lineWords, blockWords, line, rs, out) && FirstError(rs) < |rs|
    ensures Emits(lineWords, blockWords, line, rs + [r], out)
  {
    FirstErrorAppend(rs, r);
    forall j | 0 <= j < Quot(FirstError(rs), blockWords)
      ensures GoodBlock(lineWords, blockWords, line, rs + [r], j, out[j])
    {
      GoodBlockStays(lineWords, blockWords, line, rs, r, j, out[j]);
    }
  }

  lemma QuotNext(s: nat, d: nat)
    requires d > 0
    ensures s % d == d - 1 ==> Quot(s + 1, d) == Quot(s, d) + 1 && (Quot(s, d) + 1) * d == s + 1
    ensures s % d < d - 1 ==> Quot(s + 1, d) == Quot(s, d) && (s + 1) % d == s % d + 1
    ensures s % d == d - 1 ==> (s + 1) % d == 0
  {
    var q := Quot(s, d);
    Split(s, d);
    assert (q + 1) * d == q * d + d;
    if s % d == d - 1 { SplitUnique(s + 1, d, q + 1, 0); } else { SplitUnique(s + 1, d, q, s % d + 1); }
  }

  /** The words received since the last block boundary. */
  ghost predicate Buffered(blockWords: nat, rs: seq<Response>, buffer: seq<nat>)
    requires blockWords > 0
  {
    var t := |rs| % blockWords;
    && |buffer| == blockWords - 1
    && t <= |rs|
    && buffer[blockWords - 1 - t..] == Words(rs)[|rs| - t..]
  }

  lemma BufferShifts(blockWords: nat, rs: seq<Response>, buffer: seq<nat>, r: Response)
    requires blockWords > 0 && Buffered(blockWords, rs, buffer)
    ensures Buffered(blockWords, rs + [r], (buffer + [r.data])[1..])
    ensures |rs| % blockWords == blockWords - 1 ==>
              |rs| + 1 >= blockWords && buffer + [r.data] == Words(rs + [r])[|rs| + 1 - blockWords..]
  {
    var t := |rs| % blockWords;
    QuotNext(|rs|, blockWords);
    assert Words(rs + [r]) == Words(rs) + [r.data];
    var shifted := (buffer + [r.data])[1..];
    if t < blockWords - 1 {
      assert shifted[blockWords - 2 - t..] == buffer[blockWords - 1 - t..] + [r.data];
    }
  }

  lemma NothingReceived(lineWords: nat, blockWords: nat, line: nat, buffer: seq<nat>)
    requires blockWords > 0 && |buffer| == blockWords - 1
    ensures Emits(lineWords, blockWords, line, [], []) && Buffered(blockWords, [], buffer) && FirstError([]) == 0
  {
    SplitUnique(0, blockWords, 0, 0);
  }

  /** What one response adds while no error has been seen. */
  function Emitted(lineWords: nat, blockWords: nat, line: nat, word: nat, block: seq<nat>, r: Response): Option<Block>
    requires blockWords > 0
  {
    if word % blockWords == blockWords - 1 || r.err
    then Some(Block(line, Quot(word, blockWords), block, r.err, word == lineWords - 1 || r.err))
    else None
  }

  function Appended(out: seq<Block>, b: Option<Block>): seq<Block> {
    if b.Some? then out + [b.value] else out
  }

  /** A line is a whole number of blocks. */
  predicate Aligned(lineWords: nat, blockWords: nat)
    requires blockWords > 0
  {
    lineWords % blockWords == 0
  }

  /** The block that ends a refill. */
  predicate Closes(b: Option<Block>) {
    b.Some? && b.value.last
  }

  /** A refill is closed by its first error or by its last word. */
  lemma LastWordCloses(lineWords: nat, blockWords: nat, line: nat, word: nat, block: seq<nat>, r: Response)
    requires blockWords > 0 && word < lineWords && Aligned(lineWords, blockWords)
    ensures Closes(Emitted(lineWords, blockWords, line, word, block, r)) <==> r.err || word == lineWords - 1
  {
    if word == lineWords - 1 {
      var q := Quot(lineWords, blockWords);
      Split(lineWords, blockWords);
      assert (q - 1) * blockWords == q * blockWords - blockWords;
      SplitUnique(word, blockWords, q - 1, blockWords - 1);
    }
  }

  lemma EmptyAppends(out: seq<Block>)
    ensures Appended(out, None) == out
  {
  }

  lemma {:induction false} ResponseEmits(lineWords: nat, blockWords: nat, line: nat, rs: seq<Response>,
                                         out: seq<Block>, buffer: seq<nat>, r: Response)
    requires blockWords > 0 && Emits(lineWords, blockWords, line, rs, out) && FirstError(rs) == |rs|
    requires Buffered(blockWords, rs, buffer)
    ensures Emits(lineWords, blockWords, line, rs + [r],
                  Appended(out, Emitted(lineWords, blockWords, line, |rs|, buffer + [r.data], r)))
  {
    hide GoodBlock, FirstError, Buffered, Quot;
    var k := Quot(|rs|, blockWords);
    FirstErrorAppend(rs, r);
    QuotNext(|rs|, blockWords);
    forall j | 0 <= j < k
      ensures GoodBlock(lineWords, blockWords, line, rs + [r], j, out[j])
    {
      GoodBlockStays(lineWords, blockWords, line, rs, r, j, out[j]);
    }
    if !r.err && |rs| % blockWords == blockWords - 1 {
      NewBlock(lineWords, blockWords, line, rs, buffer, r);
    }
  }

  lemma NewBlock(lineWords: nat, blockWords: nat, line: nat, rs: seq<Response>, buffer: seq<nat>, r: Response)
    requires blockWords > 0 && Buffered(blockWords, rs, buffer)
    requires !r.err && |rs| % blockWords == blockWords - 1
    ensures GoodBlock(lineWords, blockWords, line, rs + [r], Quot(|rs|, blockWords),
                      Block(line, Quot(|rs|, blockWords), buffer + [r.data], false, |rs| == lineWords - 1))
  {
    hide Buffered, Quot;
    var k := Quot(|rs|, blockWords);
    QuotNext(|rs|, blockWords);
    BufferShifts(blockWords, rs, buffer, r);
    assert k * blockWords == |rs| + 1 - blockWords;
  }

  /** With a bus that answers from memory, every good block is memory's block. */
  lemma {:induction false} BlocksAreMemory(lineWords: nat, blockWords: nat, line: nat, rs: seq<Response>,
                                           out: seq<Block>, memory: seq<nat>, j: nat)
    requires blockWords > 0 && Emits(lineWords, blockWords, line, rs, out)
    requires |rs| <= |memory| && forall i :: 0 <= i < |rs| ==> rs[i].err || rs[i].data == memory[i]
    requires j < |out| && !out[j].error
    ensures (j + 1) * blockWords <= FirstError(rs) <= |memory|
    ensures out[j].words == memory[j * blockWords..(j + 1) * blockWords]
  {
    var g := FirstError(rs);
    var k := Quot(g, blockWords);
    assert GoodBlock(lineWords, blockWords, line, rs, j, out[j]);
    Split(g, blockWords);
    ScaleMono(j + 1, k, blockWords);
    var lo, hi := j * blockWords, (j + 1) * blockWords;
    assert Words(rs)[lo..hi] == memory[lo..hi];
  }

  // ---- the registers ----

  /** A counter over 0..n-1 that overflows to zero. */
  function Wrap(x: nat, n: nat): nat {
    if x == n then 0 else x
  }

  class CacheRefiller {
    const lineWords: nat
    const blockWords: nat
    var line: nat
    var active: bool
    var flushing: bool
    var sending: bool
    var reqCounter: nat
    var respCounter: nat
    var buffer: seq<nat>
    // the current refill: requests sent, responses received, blocks emitted
    ghost var sent: nat
    ghost var responses: seq<Response>
    ghost var out: seq<Block>

    /** Bus requests not answered yet. */
    ghost function Outstanding(): int
      reads this
    {
      sent - |responses|
    }

    ghost predicate Counters()
      reads this
    {
      && 0 < blockWords && 0 < lineWords && Aligned(lineWords, blockWords)
      && |responses| <= sent <= lineWords
      && reqCounter == Wrap(sent, lineWords) && respCounter == Wrap(|responses|, lineWords)
    }

    ghost predicate Valid()
      reads this
    {
      && Counters()
      && |buffer| == blockWords - 1
      && Emits(lineWords, blockWords, line, responses, out)
      && (active && !flushing ==>
            && |responses| < lineWords
            && FirstError(responses) == |responses|
            && sending == (sent < lineWords)
            && Buffered(blockWords, responses, buffer))
      && (flushing ==> active && !sending && FirstError(responses) < |responses|)
      && (!active ==> !sending && Outstanding() == 0)
    }

    constructor (lineWords: nat, blockWords: nat)
      requires 0 < blockWords && 0 < lineWords && Aligned(lineWords, blockWords)
      ensures Valid() && !active && this.lineWords == lineWords && this.blockWords == blockWords
    {
      this.lineWords, this.blockWords := lineWords, blockWords;
      line, active, flushing, sending := 0, false, false, false;
      reqCounter, respCounter := 0, 0;
      buffer := seq(blockWords - 1, _ => 0);
      sent, responses, out := 0, [], [];
    }

    /** A response enters the block buffer; its block is emitted when complete or in error. */
    method Receive(r: Response) returns (emit: Option<Block>)
      requires 0 < blockWords == |buffer| + 1 && |responses| < lineWords && respCounter == |responses|
      requires Aligned(lineWords, blockWords)
      requires Emits(lineWords, blockWords, line, responses, out)
      requires flushing ==> FirstError(responses) < |responses|
      requires !flushing ==> FirstError(responses) == |responses| && Buffered(blockWords, responses, buffer)
      modifies this`buffer, this`respCounter, this`responses, this`out
      ensures responses == old(responses) + [r] && out == Appended(old(out), emit)
      ensures |buffer| == blockWords - 1 && respCounter == Wrap(|responses|, lineWords)
      ensures Emits(lineWords, blockWords, line, responses, out)
      ensures flushing || r.err ==> FirstError(responses) < |responses|
      ensures !flushing && !r.err ==> FirstError(responses) == |responses| && Buffered(blockWords, responses, buffer)
      ensures Closes(emit) <==> !flushing && (r.err || |old(responses)| == lineWords - 1)
      ensures flushing ==> emit.None?
    {
      hide Emits, Buffered, FirstError, Emitted, Aligned, Quot, Words;
      emit := None;
      var block := buffer + [r.data];
      FirstErrorAppend(responses, r);
      if !flushing {
        emit := Emitted(lineWords, blockWords, line, respCounter, block, r);
        ResponseEmits(lineWords, blockWords, line, responses, out, buffer, r);
        BufferShifts(blockWords, responses, buffer, r);
        LastWordCloses(lineWords, blockWords, line, respCounter, block, r);
      } else {
        DrainEmits(lineWords, blockWords, line, responses, out, r);
      }
      buffer := block[1..];
      respCounter := Wrap(respCounter + 1, lineWords);
      responses := responses + [r];
      out := Appended(out, emit);
    }

    /** One clock cycle: the bus may take a request and may answer an earlier one, the drain test
        runs, and the cache may start a refill. All read the registers as they were. */
    method Clock(request: bool, response: Option<Response>, start: Option<nat>)
      returns (emit: Option<Block>, address: (nat, nat))
      requires Valid()
      requires request ==> sending
      requires response.Some? ==> Outstanding() > 0
      requires start.Some? ==> !active
      modifies this
      ensures Valid()
      // a refill starts only with no response outstanding
      ensures start.Some? ==> old(Outstanding()) == 0 && emit.None?
      ensures start.Some? ==> active && sending && line == start.value && sent == 0 && responses == [] && out == []
      // otherwise the refill goes on
      ensures start.None? ==> line == old(line) && sent == old(sent) + (if request then 1 else 0)
      ensures start.None? ==> responses == old(responses) + (if response.Some? then [response.value] else [])
      ensures start.None? ==> out == Appended(old(out), emit)
      // words are asked for in order
      ensures request ==> address == (old(line), old(sent))
      // the refiller becomes free exactly when the refill is complete and drained
      ensures start.None? && !active && old(active) ==> Complete(lineWords, responses)
      ensures start.None? && old(flushing) ==> (active <==> old(Outstanding()) > 0)
      ensures start.None? && old(active && !flushing) ==> (active <==> |responses| < lineWords)
      // blocks are handed on from the start of a refill to the block that closes it
      ensures (active && !flushing) <==> start.Some? || (old(active && !flushing) && !Closes(emit))
      ensures emit.Some? ==> old(active && !flushing) && response.Some?
    {
      hide Emits, Buffered, FirstError, Emitted, Appended, Aligned, Quot;
      emit := None;
      address := (line, reqCounter);
      CountersFit();
      EmptyAppends(out);
      assert start.Some? ==> !request && response.None? && !flushing;
      var drained := flushing && respCounter == reqCounter;
      var nextReq := reqCounter;
      var nextSending := sending;
      if request {
        nextReq := Wrap(reqCounter + 1, lineWords);
        if reqCounter == lineWords - 1 { nextSending := false; }
        sent := sent + 1;
      }
      var nextFlushing := flushing;
      if response.Some? {
        var r := response.value;
        if !flushing {
          if respCounter == lineWords - 1 {
            active := false;
          } else if r.err {
            nextSending := false;
            nextFlushing := true;
          }
        }
        emit := Receive(r);
      }
      if drained {
        active := false;
        nextFlushing := false;
      }
      flushing, sending, reqCounter := nextFlushing, nextSending, nextReq;
      if start.Some? { Begin(start.value); }
    }

    method Begin(paddr: nat)
      requires 0 < blockWords == |buffer| + 1 && 0 < lineWords && Aligned(lineWords, blockWords) && !flushing
      modifies this
      ensures Valid() && active && sending && line == paddr && sent == 0 && responses == [] && out == []
    {
      hide Emits, Buffered, FirstError, Aligned;
      line := paddr;
      reqCounter, sending := 0, true;
      respCounter, active := 0, true;
      sent, responses, out := 0, [], [];
      NothingReceived(lineWords, blockWords, line, buffer);
    }

    /** The counters wrap, yet equal counters while draining mean that nothing is outstanding:
        the error response itself has been received. */
    lemma CountersFit()
      requires Valid()
      ensures sent < lineWords ==> reqCounter == sent
      ensures |responses| < lineWords ==> respCounter == |responses|
      ensures flushing ==> (respCounter == reqCounter <==> Outstanding() == 0)
    {
    }
  }
}
