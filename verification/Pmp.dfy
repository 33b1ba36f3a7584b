/** Physical memory protection of a naturally aligned block: matching by comparators and masks of
    the form 2^k - 1, against the word-by-word definition of section 3.7.1 of the RISC-V Privileged
    Architecture. Addresses are counted in words of four bytes. */
module Pmp {
  import opened Wrappers
  import opened Powers

  datatype Mode = Off | Tor | Na4 | Napot
  datatype Entry = Entry(mode: Mode, addr: nat)

  function TrailingOnes(x: nat): nat {
    if x % 2 == 1 then 1 + TrailingOnes(x / 2) else 0
  }

  /** log2 of the region's words. With a grain the low address bits read as ones. */
  function RegionLog(e: Entry, grain: nat): nat {
    if e.mode == Na4 then 0
    else if grain == 0 then TrailingOnes(e.addr) + 1
    else grain + TrailingOnes(Quot(e.addr, Pow2(grain - 1)))
  }

  predicate IsNapot(e: Entry, grain: nat) {
    e.mode == Napot || (e.mode == Na4 && grain == 0)
  }

  function Align(x: nat, k: nat): nat {
    Quot(x, Pow2(k)) * Pow2(k)
  }

  // ---- regions as word intervals ----

  function Low(es: seq<Entry>, grain: nat, i: nat): nat
    requires i < |es|
  {
    if IsNapot(es[i], grain) then Align(es[i].addr, RegionLog(es[i], grain))
    else if es[i].mode == Tor then (if i > 0 then Align(es[i - 1].addr, grain) else 0)
    else 0
  }

  function High(es: seq<Entry>, grain: nat, i: nat): nat
    requires i < |es|
  {
    if IsNapot(es[i], grain) then Low(es, grain, i) + Pow2(RegionLog(es[i], grain))
    else if es[i].mode == Tor then Align(es[i].addr, grain)
    else 0
  }

  predicate Contains(es: seq<Entry>, grain: nat, i: nat, x: nat)
    requires i < |es|
  {
    Low(es, grain, i) <= x < High(es, grain, i)
  }

  /** The entry that decides about word `x`. */
  function Decides(es: seq<Entry>, grain: nat, x: nat, i: nat): Option<nat>
    requires i <= |es|
    decreases |es| - i
  {
    if i == |es| then None else if Contains(es, grain, i, x) then Some(i) else Decides(es, grain, x, i + 1)
  }

  /** The address as it reads: with a grain its lowest bits but one read as ones. */
  function ReadBack(addr: nat, grain: nat): nat {
    if grain == 0 then addr else Quot(addr, Pow2(grain - 1)) * Pow2(grain - 1) + (Pow2(grain - 1) - 1)
  }

  lemma Halve(x: nat, k: nat)
    requires k > 0
    ensures x % Pow2(k) == 2 * (x / 2 % Pow2(k - 1)) + x % 2
  {
    var y, m := x / 2, Pow2(k - 1);
    Split(y, m);
    Reassociate(y / m, m, 2);
    assert y % m + 1 <= m;
    SplitUnique(x, 2 * m, y / m, 2 * (y % m) + x % 2);
  }

  lemma Remainders(y: nat, m: nat)
    requires m > 0
    ensures y % m < m
  {
  }

  /** The number ends in 01...1 with k - 1 ones for exactly one k. */
  lemma {:induction false} OnesExact(x: nat, k: nat)
    requires k > 0
    ensures x % Pow2(k) == Pow2(k - 1) - 1 <==> k == TrailingOnes(x) + 1
    decreases x
  {
    Halve(x, k);
    if k == 1 {
      assert Pow2(0) == 1;
      Remainders(x / 2, 1);
    } else {
      assert Pow2(k - 1) == 2 * Pow2(k - 2);
      if x % 2 == 1 { OnesExact(x / 2, k - 1); }
    }
    assert TrailingOnes(x) == if x % 2 == 1 then 1 + TrailingOnes(x / 2) else 0;
    hide Pow2; hide TrailingOnes;
  }

  lemma {:induction false} OnesBelow(y: nat, n: nat)
    ensures TrailingOnes(y * Pow2(n) + (Pow2(n) - 1)) == n + TrailingOnes(y)
    decreases n
  {
    if n > 0 {
      OnesBelow(y, n - 1);
      var z := y * Pow2(n - 1) + (Pow2(n - 1) - 1);
      Reassociate(y, 2, Pow2(n - 1));
      assert y * Pow2(n) + (Pow2(n) - 1) == 2 * z + 1;
      SplitUnique(2 * z + 1, 2, z, 1);
    }
  }

  /** What each mode covers. NAPOT: an address reading y01...1 with k - 1 ones covers the 2^k words
      that share y. NA4: one word, without a grain only. TOR: the grains from the previous address up
      to its own. */
  lemma EntryRegion(es: seq<Entry>, grain: nat, i: nat, k: nat, x: nat)
    requires i < |es|
    ensures es[i].mode == Napot && k > 0 && ReadBack(es[i].addr, grain) % Pow2(k) == Pow2(k - 1) - 1 ==>
              (Contains(es, grain, i, x) <==> Quot(x, Pow2(k)) == Quot(es[i].addr, Pow2(k)))
    ensures es[i].mode == Napot ==>
              var l := RegionLog(es[i], grain);
              l > 0 && ReadBack(es[i].addr, grain) % Pow2(l) == Pow2(l - 1) - 1
    ensures es[i].mode == Na4 ==> (Contains(es, grain, i, x) <==> grain == 0 && x == es[i].addr)
    ensures es[i].mode == Tor ==>
              (Contains(es, grain, i, x) <==>
                 && (i > 0 ==> Quot(es[i - 1].addr, Pow2(grain)) <= Quot(x, Pow2(grain)))
                 && Quot(x, Pow2(grain)) < Quot(es[i].addr, Pow2(grain)))
    ensures es[i].mode == Off ==> !Contains(es, grain, i, x)
  {
    var a := es[i].addr;
    match es[i].mode
    case Napot =>
      var l, r := RegionLog(es[i], grain), ReadBack(a, grain);
      if grain > 0 { OnesBelow(Quot(a, Pow2(grain - 1)), grain - 1); }
      OnesExact(r, l);
      if k > 0 { OnesExact(r, k); }
      SameBlock(a, x, Pow2(l));
    case Na4 =>
      assert Pow2(0) == 1;
    case Tor =>
      QuotOrder(x, a, Pow2(grain));
      if i > 0 { QuotOrder(x, es[i - 1].addr, Pow2(grain)); }
    case Off =>
  }

  lemma SameBlock(a: nat, x: nat, m: nat)
    requires m > 0
    ensures Quot(a, m) * m <= x < Quot(a, m) * m + m <==> Quot(x, m) == Quot(a, m)
  {
    Split(x, m);
    if Quot(a, m) * m <= x < Quot(a, m) * m + m { SplitUnique(x, m, Quot(a, m), x - Quot(a, m) * m); }
  }

  // ---- the block of 2^s words at p ----

  predicate InBlock(p: nat, s: nat, x: nat) {
    p <= x < p + Pow2(s)
  }

  function Max(a: nat, b: nat): nat {
    if a < b then b else a
  }

  function TorBottom(es: seq<Entry>, grain: nat, i: nat): nat
    requires i < |es|
  {
    if i > 0 then Quot(es[i - 1].addr, Pow2(grain)) else 0
  }

  predicate MatchesAny(es: seq<Entry>, grain: nat, i: nat, p: nat, s: nat)
    requires i < |es|
  {
    var e := es[i];
    if IsNapot(e, grain) then
      var m := Pow2(Max(s, RegionLog(e, grain)));
      Quot(p, m) == Quot(e.addr, m)
    else if e.mode == Tor then
      && TorBottom(es, grain, i) <= Quot(p + Pow2(s) - 1, Pow2(grain))
      && Quot(p, Pow2(grain)) < Quot(e.addr, Pow2(grain))
    else false
  }

  predicate MatchesAll(es: seq<Entry>, grain: nat, i: nat, p: nat, s: nat)
    requires i < |es|
  {
    var e := es[i];
    if IsNapot(e, grain) then s <= RegionLog(e, grain)
    else if e.mode == Tor then
      && TorBottom(es, grain, i) <= Quot(p, Pow2(grain))
      && Quot(p + Pow2(s) - 1, Pow2(grain)) < Quot(e.addr, Pow2(grain))
    else false
  }

  /** First entry touching the block, and whether it covers it. */
  function Select(es: seq<Entry>, grain: nat, p: nat, s: nat, i: nat): (Option<nat>, bool)
    requires i <= |es|
    decreases |es| - i
  {
    if i == |es| then (None, true)
    else if MatchesAny(es, grain, i, p, s) then (Some(i), MatchesAll(es, grain, i, p, s))
    else Select(es, grain, p, s, i + 1)
  }

  // ---- one entry ----

  lemma QuotOrder(x: nat, y: nat, d: nat)
    requires d > 0
    ensures Quot(y, d) * d <= x <==> Quot(y, d) <= Quot(x, d)
    ensures Quot(x, d) * d <= x < Quot(x, d) * d + d
  {
    Split(x, d);
    Split(y, d);
    var q, r := Quot(x, d), Quot(y, d);
    if r <= q { ScaleMono(r, q, d); } else { ScaleMono(q + 1, r, d); assert (q + 1) * d == q * d + d; }
  }

  ghost predicate Aligned(p: nat, s: nat) {
    p == Align(p, s)
  }

  /** Two naturally aligned intervals are nested or disjoint. */
  lemma Nested(p: nat, s: nat, a: nat, k: nat)
    requires s <= k && Aligned(p, s)
    ensures Quot(p, Pow2(k)) == Quot(a, Pow2(k)) ==> Align(a, k) <= p && p + Pow2(s) <= Align(a, k) + Pow2(k)
    ensures Quot(p, Pow2(k)) != Quot(a, Pow2(k)) ==> p + Pow2(s) <= Align(a, k) || Align(a, k) + Pow2(k) <= p
  {
    hide Pow2;
    var w, m := Pow2(s), Pow2(k);
    var t := Quot(p, m);
    Pow2Add(k - s, s);
    QuotOrder(p, p, m);
    NestedTop(p, Quot(p, w), w, Pow2(k - s), t);
    Apart(p, w, t, Quot(a, m), m);
  }

  lemma Apart(p: nat, w: nat, t: nat, u: nat, m: nat)
    requires t * m <= p && p + w <= t * m + m
    ensures t < u ==> p + w <= u * m
    ensures u < t ==> u * m + m <= p
  {
    assert (t + 1) * m == t * m + m && (u + 1) * m == u * m + m;
    if t < u { ScaleMono(t + 1, u, m); }
    if u < t { ScaleMono(u + 1, t, m); }
  }

  lemma NestedTop(p: nat, q: nat, w: nat, d: nat, t: nat)
    requires w > 0 && d > 0 && p == q * w && t * (d * w) <= p < t * (d * w) + d * w
    ensures p + w <= t * (d * w) + d * w
  {
    var top := t * d + d;
    assert top * w == t * (d * w) + d * w;
    if q >= top { ScaleMono(top, q, w); }
    ScaleMono(q + 1, top, w);
    assert (q + 1) * w == q * w + w;
  }

  lemma NapotExact(es: seq<Entry>, grain: nat, i: nat, p: nat, s: nat)
    requires i < |es| && Aligned(p, s) && IsNapot(es[i], grain)
    ensures MatchesAny(es, grain, i, p, s) <==> Low(es, grain, i) < p + Pow2(s) && p < High(es, grain, i)
    ensures MatchesAny(es, grain, i, p, s) ==>
              (MatchesAll(es, grain, i, p, s) <==> Low(es, grain, i) <= p && p + Pow2(s) <= High(es, grain, i))
  {
    hide Pow2, RegionLog, Quot;
    var k, a := RegionLog(es[i], grain), es[i].addr;
    if s <= k {
      Nested(p, s, a, k);
    } else {
      Realign(a, k, s);
      Nested(Align(a, k), k, p, s);
      WideBlock(k, s);
    }
  }

  lemma Realign(a: nat, k: nat, s: nat)
    requires k <= s
    ensures Aligned(Align(a, k), k)
    ensures Quot(Align(a, k), Pow2(s)) == Quot(a, Pow2(s))
  {
    hide Pow2;
    var w := Pow2(k);
    var b := Align(a, k);
    SplitUnique(b, w, Quot(a, w), 0);
    Nested(b, k, a, s);
    QuotOrder(a, a, w);
    QuotOrder(a, a, Pow2(s));
    QuotOrder(a, b, Pow2(s));
    if Quot(b, Pow2(s)) != Quot(a, Pow2(s)) { QuotOrder(b, a, Pow2(s)); }
  }

  lemma WideBlock(k: nat, s: nat)
    requires k < s
    ensures Pow2(k) < Pow2(s)
  {
    Pow2Mono(k + 1, s);
  }

  /** The comparators of a top-of-range entry, as interval bounds. */
  lemma TorExact(es: seq<Entry>, grain: nat, i: nat, p: nat, s: nat)
    requires i < |es| && es[i].mode == Tor && grain <= s && Aligned(p, s)
    ensures MatchesAny(es, grain, i, p, s) <==>
              Low(es, grain, i) < p + Pow2(s) && p < High(es, grain, i)
    ensures MatchesAll(es, grain, i, p, s) <==> Low(es, grain, i) <= p && p + Pow2(s) <= High(es, grain, i)
  {
    hide Pow2;
    var d, last := Pow2(grain), p + Pow2(s) - 1;
    var lo := if i > 0 then es[i - 1].addr else 0;
    SplitUnique(0, d, 0, 0);
    QuotOrder(p, lo, d);
    QuotOrder(last, lo, d);
    QuotOrder(p, es[i].addr, d);
    QuotOrder(last, es[i].addr, d);
  }

  // ---- the whole table ----

  /** An empty top-of-range entry with both bounds inside the block: its comparators report a match
      although it contains no word. */
  predicate Inverted(es: seq<Entry>, grain: nat, i: nat, p: nat, s: nat)
    requires i < |es|
  {
    High(es, grain, i) <= Low(es, grain, i) < p + Pow2(s) && p < High(es, grain, i)
  }

  lemma EntryExact(es: seq<Entry>, grain: nat, i: nat, p: nat, s: nat)
    requires i < |es| && grain <= s && Aligned(p, s)
    ensures MatchesAny(es, grain, i, p, s) <==> Low(es, grain, i) < p + Pow2(s) && p < High(es, grain, i)
    ensures MatchesAny(es, grain, i, p, s) ==>
              (MatchesAll(es, grain, i, p, s) <==> Low(es, grain, i) <= p && p + Pow2(s) <= High(es, grain, i))
  {
    if IsNapot(es[i], grain) { NapotExact(es, grain, i, p, s); }
    else if es[i].mode == Tor { TorExact(es, grain, i, p, s); }
  }

  /** An entry is reported as touching the block exactly when it contains one of its words, or is
      inverted in it; a touching entry is reported as covering exactly when it contains all. */
  lemma EntryWords(es: seq<Entry>, grain: nat, i: nat, p: nat, s: nat)
    requires i < |es| && grain <= s && Aligned(p, s)
    ensures MatchesAny(es, grain, i, p, s) <==>
              Inverted(es, grain, i, p, s) || exists x :: InBlock(p, s, x) && Contains(es, grain, i, x)
    ensures MatchesAny(es, grain, i, p, s) ==>
              (MatchesAll(es, grain, i, p, s) <==> forall x :: InBlock(p, s, x) ==> Contains(es, grain, i, x))
  {
    hide Low, High, MatchesAny, MatchesAll, Pow2;
    EntryExact(es, grain, i, p, s);
    var l, h, last := Low(es, grain, i), High(es, grain, i), p + Pow2(s) - 1;
    var x := if l < p then p else l;
    if l < p + Pow2(s) && p < h && l < h { assert InBlock(p, s, x) && Contains(es, grain, i, x); }
    assert InBlock(p, s, p) && InBlock(p, s, last);
  }

  lemma {:induction false} SelectIsDecision(es: seq<Entry>, grain: nat, p: nat, s: nat, i: nat)
    requires i <= |es| && grain <= s && Aligned(p, s)
    ensures var (first, uniform) := Select(es, grain, p, s, i);
            && (first.Some? ==> i <= first.value < |es|)
            && (uniform ==> forall x :: InBlock(p, s, x) ==> Decides(es, grain, x, i) == first)
            && (uniform && first.Some? ==> !Inverted(es, grain, first.value, p, s))
            && (!uniform ==> first.Some?)
            && (!uniform && !Inverted(es, grain, first.value, p, s) ==>
                  && (exists x :: InBlock(p, s, x) && Decides(es, grain, x, i) == first)
                  && (exists x :: InBlock(p, s, x) && Decides(es, grain, x, i) != first))
    decreases |es| - i
  {
    hide Inverted, Contains, MatchesAny, MatchesAll, InBlock;
    if i < |es| {
      EntryWords(es, grain, i, p, s);
      if !MatchesAny(es, grain, i, p, s) {
        SelectIsDecision(es, grain, p, s, i + 1);
        assert forall x :: InBlock(p, s, x) ==> Decides(es, grain, x, i) == Decides(es, grain, x, i + 1);
      } else if !MatchesAll(es, grain, i, p, s) {
        var y :| InBlock(p, s, y) && !Contains(es, grain, i, y);
        DecidesLater(es, grain, y, i + 1);
        assert Decides(es, grain, y, i) != Some(i);
      } else {
        CoveringIsUpright(es, grain, i, p, s);
      }
    }
  }

  lemma CoveringIsUpright(es: seq<Entry>, grain: nat, i: nat, p: nat, s: nat)
    requires i < |es| && grain <= s && Aligned(p, s)
    requires MatchesAny(es, grain, i, p, s) && MatchesAll(es, grain, i, p, s)
    ensures !Inverted(es, grain, i, p, s)
  {
    hide MatchesAny, MatchesAll, Low, High;
    EntryExact(es, grain, i, p, s);
  }

  lemma {:induction false} DecidesLater(es: seq<Entry>, grain: nat, x: nat, i: nat)
    requires i <= |es|
    ensures Decides(es, grain, x, i).Some? ==> i <= Decides(es, grain, x, i).value
    decreases |es| - i
  {
    if i < |es| { DecidesLater(es, grain, x, i + 1); }
  }

  /** For every table: the block is reported uniform exactly when one entry, or none, decides about
      all its words and the first entry touching it is not inverted there; the entry selected for a
      uniform block is the deciding one. */
  lemma UniformIsUniform(es: seq<Entry>, grain: nat, p: nat, s: nat)
    requires grain <= s && Aligned(p, s)
    ensures var (first, uniform) := Select(es, grain, p, s, 0);
            && (first.Some? ==> first.value < |es|)
            && (uniform <==>
                  && (forall x, y :: InBlock(p, s, x) && InBlock(p, s, y) ==>
                        Decides(es, grain, x, 0) == Decides(es, grain, y, 0))
                  && !(first.Some? && Inverted(es, grain, first.value, p, s)))
            && (uniform ==> Decides(es, grain, p, 0) == first)
  {
    SelectIsDecision(es, grain, p, s, 0);
    assert InBlock(p, s, p);
    hide Inverted, InBlock;
  }

  /** An inverted entry makes an untouched block look non-uniform: words 0 to 3 with bounds 2 and 1. */
  lemma InvertedRejects()
    ensures var es := [Entry(Off, 2), Entry(Tor, 1)];
            && (forall x :: Decides(es, 0, x, 0) == None)
            && Select(es, 0, 0, 2, 0) == (Some(1), false)
  {
    var es := [Entry(Off, 2), Entry(Tor, 1)];
    assert Pow2(0) == 1 && Pow2(2) == 4;
    forall x
      ensures Decides(es, 0, x, 0) == None
    {
      assert !Contains(es, 0, 0, x) && !Contains(es, 0, 1, x);
      assert Decides(es, 0, x, 2) == None;
      assert Decides(es, 0, x, 1) == None;
    }
    assert !MatchesAny(es, 0, 0, 0, 2) && MatchesAny(es, 0, 1, 0, 2) && !MatchesAll(es, 0, 1, 0, 2);
  }
}
