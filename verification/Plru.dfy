/** Tree pseudo-LRU replacement. The register is a heap-ordered bit vector; its meaning is a
    balanced tree whose nodes point to the side used less recently. */
module Plru {
  import opened Cyclic
  import opened Powers
  import opened Wrappers

  // ---- trees ----

  datatype Tree = Leaf | Node(bit: bool, left: Tree, right: Tree)

  ghost predicate Perfect(t: Tree, k: nat) {
    if k == 0 then t.Leaf? else t.Node? && Perfect(t.left, k - 1) && Perfect(t.right, k - 1)
  }

  /** Follow the bits; the decision at the top is the most significant bit of the way. */
  function Victim(t: Tree, k: nat): (w: nat)
    requires Perfect(t, k)
    ensures w < Pow2(k)
  {
    if k == 0 then 0
    else if t.bit then Pow2(k - 1) + Victim(t.right, k - 1) else Victim(t.left, k - 1)
  }

  /** Point every node on the path to `w` away from it. */
  function Touch(t: Tree, k: nat, w: nat): (r: Tree)
    requires Perfect(t, k) && w < Pow2(k)
    ensures Perfect(r, k)
  {
    if k == 0 then t
    else if w < Pow2(k - 1) then Node(true, Touch(t.left, k - 1, w), t.right)
    else Node(false, t.left, Touch(t.right, k - 1, w - Pow2(k - 1)))
  }

  /** One replacement: take the victim and touch it. */
  function Round(t: Tree, k: nat): (r: Tree)
    requires Perfect(t, k)
    ensures Perfect(r, k)
  {
    Touch(t, k, Victim(t, k))
  }

  function Rounds(t: Tree, k: nat, n: nat): (r: Tree)
    requires Perfect(t, k)
    ensures Perfect(r, k)
    decreases n
  {
    if n == 0 then t else Rounds(Round(t, k), k, n - 1)
  }

  function Evicted(t: Tree, k: nat, n: nat): (s: seq<nat>)
    requires Perfect(t, k)
    ensures |s| == n
    decreases n
  {
    if n == 0 then [] else [Victim(t, k)] + Evicted(Round(t, k), k, n - 1)
  }

  lemma TwoRounds(t: Tree, k: nat)
    requires k > 0 && Perfect(t, k)
    ensures Round(Round(t, k), k) == Node(t.bit, Round(t.left, k - 1), Round(t.right, k - 1))
    ensures Victim(t, k) == if t.bit then Pow2(k - 1) + Victim(t.right, k - 1) else Victim(t.left, k - 1)
    ensures Victim(Round(t, k), k) == if t.bit then Victim(t.left, k - 1) else Pow2(k - 1) + Victim(t.right, k - 1)
  {
  }

  function HalfRounds(t: Tree, k: nat): (r: Tree)
    requires k > 0 && Perfect(t, k)
    ensures Perfect(r, k)
  {
    Node(t.bit, Round(t.left, k - 1), Round(t.right, k - 1))
  }

  /** Rounds alternate between the halves. */
  lemma {:induction false} RoundsSplit(t: Tree, k: nat, n: nat)
    requires k > 0 && Perfect(t, k)
    ensures Rounds(t, k, 2 * n) == Node(t.bit, Rounds(t.left, k - 1, n), Rounds(t.right, k - 1, n))
    decreases n
  {
    if n > 0 {
      var m := HalfRounds(t, k);
      TwoRounds(t, k);
      hide Round;
      assert Rounds(t, k, 2 * n) == Rounds(Round(t, k), k, 2 * n - 1);
      assert Rounds(Round(t, k), k, 2 * n - 1) == Rounds(m, k, 2 * (n - 1));
      RoundsSplit(m, k, n - 1);
    }
  }

  /** How often way `w` is evicted in `n` rounds. */
  function Times(t: Tree, k: nat, n: nat, w: nat): nat
    requires Perfect(t, k)
    decreases n
  {
    if n == 0 then 0 else One(Victim(t, k), w) + Times(Round(t, k), k, n - 1, w)
  }

  function One(v: nat, w: nat): nat { if v == w then 1 else 0 }

  lemma {:induction false} TimesCounts(t: Tree, k: nat, n: nat, w: nat)
    requires Perfect(t, k)
    ensures multiset(Evicted(t, k, n))[w] == Times(t, k, n, w)
    decreases n
  {
    if n > 0 {
      TimesCounts(Round(t, k), k, n - 1, w);
      var f := Evicted(Round(t, k), k, n - 1);
      assert multiset([Victim(t, k)] + f) == multiset{Victim(t, k)} + multiset(f);
    }
  }

  lemma TimesTwo(t: Tree, k: nat, n: nat, w: nat)
    requires k > 0 && Perfect(t, k) && n > 0
    ensures Times(t, k, 2 * n, w)
            == One(Victim(t, k), w) + One(Victim(Round(t, k), k), w) + Times(HalfRounds(t, k), k, 2 * (n - 1), w)
  {
    hide Round; hide Victim; hide Times; hide Pow2;
    TwoRounds(t, k);
    TimesOne(t, k, 2 * n, w);
    TimesOne(Round(t, k), k, 2 * n - 1, w);
  }

  lemma TimesOne(t: Tree, k: nat, n: nat, w: nat)
    requires Perfect(t, k) && n > 0
    ensures Times(t, k, n, w) == One(Victim(t, k), w) + Times(Round(t, k), k, n - 1, w)
  {
  }

  lemma {:induction false} TimesSplit(t: Tree, k: nat, n: nat, w: nat)
    requires k > 0 && Perfect(t, k) && w < Pow2(k)
    ensures Times(t, k, 2 * n, w)
            == if w < Pow2(k - 1) then Times(t.left, k - 1, n, w) else Times(t.right, k - 1, n, w - Pow2(k - 1))
    decreases n
  {
    if n > 0 {
      TimesSplit(HalfRounds(t, k), k, n - 1, w);
      TimesTwo(t, k, n, w);
      TwoRounds(t, k);
      hide Round; hide Victim;
    }
  }

  /** From any tree over 2^k ways, 2^k replacements evict every way exactly once and return the
      tree to where it started. */
  lemma {:induction false} FullCycle(t: Tree, k: nat)
    requires Perfect(t, k)
    ensures Rounds(t, k, Pow2(k)) == t
    ensures forall w: nat :: w < Pow2(k) ==> multiset(Evicted(t, k, Pow2(k)))[w] == 1
    decreases k
  {
    if k == 0 {
      assert Rounds(t, 0, 1) == Rounds(Round(t, 0), 0, 0);
      assert Times(t, 0, 1, 0) == 1 + Times(Round(t, 0), 0, 0, 0);
      TimesCounts(t, 0, 1, 0);
    } else {
      RoundsSplit(t, k, Pow2(k - 1));
      FullCycle(t.left, k - 1);
      FullCycle(t.right, k - 1);
      forall w: nat | w < Pow2(k) ensures multiset(Evicted(t, k, Pow2(k)))[w] == 1 {
        TimesSplit(t, k, Pow2(k - 1), w);
        TimesCounts(t, k, Pow2(k), w);
        var h := Pow2(k - 1);
        if w < h { TimesCounts(t.left, k - 1, h, w); } else { TimesCounts(t.right, k - 1, h, w - h); }
      }
    }
  }

  /** A way just touched is not the victim. */
  lemma {:induction false} TouchedIsSafe(t: Tree, k: nat, w: nat)
    requires k > 0 && Perfect(t, k) && w < Pow2(k)
    ensures Victim(Touch(t, k, w), k) != w
  {
  }

  lemma {:induction false} RoundsNext(t: Tree, k: nat, n: nat)
    requires Perfect(t, k)
    ensures Rounds(t, k, n + 1) == Round(Rounds(t, k, n), k)
    decreases n
  {
    if n > 0 { RoundsNext(Round(t, k), k, n - 1); } else { assert Rounds(t, k, 1) == Rounds(Round(t, k), k, 0); }
  }

  lemma {:induction false} EvictedAt(t: Tree, k: nat, n: nat, i: nat)
    requires Perfect(t, k) && i < n
    ensures Evicted(t, k, n)[i] == Victim(Rounds(t, k, i), k)
    decreases n
  {
    if i > 0 { EvictedAt(Round(t, k), k, n - 1, i - 1); }
  }

  /** A way just touched is the last of all ways to be evicted. */
  lemma {:induction false} TouchedIsLast(t: Tree, k: nat, w: nat)
    requires Perfect(t, k) && w < Pow2(k)
    ensures Evicted(Touch(t, k, w), k, Pow2(k))[Pow2(k) - 1] == w
    decreases k, 1
  {
    var u := Touch(t, k, w);
    EvictedAt(u, k, Pow2(k), Pow2(k) - 1);
    if k > 0 {
      var h := Pow2(k - 1);
      RoundsSplit(u, k, h - 1);
      RoundsNext(u, k, 2 * (h - 1));
      TwoRounds(Rounds(u, k, 2 * (h - 1)), k);
      if w < h { LastInHalf(t.left, k - 1, w); } else { LastInHalf(t.right, k - 1, w - h); }
      hide Round;
    }
  }

  lemma {:induction false} LastInHalf(t: Tree, k: nat, w: nat)
    requires Perfect(t, k) && w < Pow2(k)
    ensures Victim(Rounds(Touch(t, k, w), k, Pow2(k) - 1), k) == w
    decreases k, 2
  {
    TouchedIsLast(t, k, w);
    EvictedAt(Touch(t, k, w), k, Pow2(k), Pow2(k) - 1);
  }

  // ---- the register ----

  /** Heap order: the children of node i are 2i+1 and 2i+2. */
  function Bit(s: seq<bool>, i: nat): bool { i < |s| && s[i] }

  function Build(s: seq<bool>, node: nat, k: nat): (t: Tree)
    ensures Perfect(t, k)
    decreases k
  {
    if k == 0 then Leaf else Node(Bit(s, node), Build(s, 2 * node + 1, k - 1), Build(s, 2 * node + 2, k - 1))
  }

  /** victim_of with `k` levels below the node: sub-victim in the low bits, bit on top. */
  function VictimOf(s: seq<bool>, node: nat, k: nat): nat
    decreases k
  {
    if k == 0 then 0
    else
      var left, right := VictimOf(s, 2 * node + 1, k - 1), VictimOf(s, 2 * node + 2, k - 1);
      (if Bit(s, node) then right else left) + (if Bit(s, node) then Pow2(k - 1) else 0)
  }

  lemma {:induction false} VictimOfIsVictim(s: seq<bool>, node: nat, k: nat)
    ensures VictimOf(s, node, k) == Victim(Build(s, node, k), k)
    decreases k
  {
    if k > 0 {
      VictimOfIsVictim(s, 2 * node + 1, k - 1);
      VictimOfIsVictim(s, 2 * node + 2, k - 1);
    }
  }

  /** `x` is `m` or below it. */
  predicate Under(m: nat, x: nat) {
    x == m || (x > m && x > 0 && Under(m, (x - 1) / 2))
  }

  lemma {:induction false} ChildUnder(m: nat, c: nat, x: nat)
    requires (c == 2 * m + 1 || c == 2 * m + 2) && Under(c, x)
    ensures Under(m, x) && x > m
    decreases x
  {
    if x == c {
      assert (x - 1) / 2 == m;
      assert Under(m, m);
    } else {
      ChildUnder(m, c, (x - 1) / 2);
    }
  }

  lemma {:induction false} SiblingsApart(m: nat, x: nat)
    ensures !(Under(2 * m + 1, x) && Under(2 * m + 2, x))
    decreases x
  {
    if x > 2 * m + 2 {
      SiblingsApart(m, (x - 1) / 2);
    } else if x == 2 * m + 2 {
      assert (x - 1) / 2 == m;
      assert !Under(2 * m + 1, m);
    }
  }

  lemma {:induction false} BuildFrame(s: seq<bool>, r: seq<bool>, m: nat, k: nat)
    requires forall x: nat :: Under(m, x) ==> Bit(s, x) == Bit(r, x)
    ensures Build(s, m, k) == Build(r, m, k)
    decreases k
  {
    if k > 0 {
      assert Under(m, m);
      forall x: nat | Under(2 * m + 1, x) || Under(2 * m + 2, x) ensures Bit(s, x) == Bit(r, x) {
        ChildUnder(m, if Under(2 * m + 1, x) then 2 * m + 1 else 2 * m + 2, x);
      }
      BuildFrame(s, r, 2 * m + 1, k - 1);
      BuildFrame(s, r, 2 * m + 2, k - 1);
    }
  }

  /** The subtree of depth `k` at `node` fits a register of `n` bits. */
  ghost predicate Fits(n: nat, node: nat, k: nat) {
    k > 0 ==> (node + 2) * Pow2(k - 1) <= n + 1
  }

  lemma FitsDown(n: nat, node: nat, k: nat)
    requires k > 0 && Fits(n, node, k)
    ensures node < n && Fits(n, 2 * node + 1, k - 1) && Fits(n, 2 * node + 2, k - 1)
  {
    var p := Pow2(k - 1);
    assert node + 2 <= (node + 2) * p;
    if k > 1 {
      var q := Pow2(k - 2);
      assert (node + 2) * p == (2 * node + 4) * q;
      assert (2 * node + 3) * q <= (2 * node + 4) * q;
    }
  }

  /** The walk of apply_touch: the new bit is written on the path and copied off the path. */
  function WalkTouch(s: seq<bool>, node: nat, k: nat, onPath: bool, w: nat): (r: seq<bool>)
    ensures |r| == |s|
    decreases k
  {
    if k == 0 then s
    else
      var dir := w / Pow2(k - 1) % 2 == 1;
      var a := if onPath && node < |s| then s[node := !dir] else s;
      var b := WalkTouch(a, 2 * node + 1, k - 1, onPath && !dir, w);
      WalkTouch(b, 2 * node + 2, k - 1, onPath && dir, w)
  }

  lemma {:induction false} OffPath(s: seq<bool>, node: nat, k: nat, w: nat)
    ensures WalkTouch(s, node, k, false, w) == s
    decreases k
  {
    if k > 0 {
      OffPath(s, 2 * node + 1, k - 1, w);
      OffPath(s, 2 * node + 2, k - 1, w);
    }
  }

  lemma {:induction false} WalkFrame(s: seq<bool>, node: nat, k: nat, w: nat, x: nat)
    requires !Under(node, x)
    ensures Bit(WalkTouch(s, node, k, true, w), x) == Bit(s, x)
    decreases k
  {
    if k > 0 {
      var dir := w / Pow2(k - 1) % 2 == 1;
      var a := if node < |s| then s[node := !dir] else s;
      var c := if dir then 2 * node + 2 else 2 * node + 1;
      if Under(c, x) { ChildUnder(node, c, x); }
      OffPath(a, 2 * node + 1, k - 1, w);
      WalkFrame(a, c, k - 1, w, x);
      OffPath(WalkTouch(a, 2 * node + 1, k - 1, !dir, w), 2 * node + 2, k - 1, w);
    }
  }

  lemma HighBit(k: nat, w: nat)
    requires k > 0
    ensures w % Pow2(k) == w / Pow2(k - 1) % 2 * Pow2(k - 1) + w % Pow2(k - 1)
  {
    var p := Pow2(k - 1);
    var q, r := w / p, w % p;
    var d, b := q / 2, q % 2;
    assert w == p * q + r && q == 2 * d + b;
    assert w == (2 * p) * d + (b * p + r);
    var x := b * p + r;
    assert 0 <= x < 2 * p;
    SplitUnique(w, 2 * p, d, x);
  }

  /** Only the child on the path is walked with effect. */
  lemma WalkDown(s: seq<bool>, node: nat, k: nat, w: nat)
    requires k > 0 && node < |s|
    ensures var dir := w / Pow2(k - 1) % 2 == 1;
            WalkTouch(s, node, k, true, w)
            == WalkTouch(s[node := !dir], if dir then 2 * node + 2 else 2 * node + 1, k - 1, true, w)
  {
    var dir := w / Pow2(k - 1) % 2 == 1;
    var a := s[node := !dir];
    OffPath(a, 2 * node + 1, k - 1, w);
    OffPath(WalkTouch(a, 2 * node + 1, k - 1, !dir, w), 2 * node + 2, k - 1, w);
  }

  /** Below `c`, one child of `node`, the walk leaves the node and the other child alone. */
  lemma WalkElsewhere(a: seq<bool>, node: nat, k: nat, w: nat, c: nat, d: nat)
    requires {c, d} == {2 * node + 1, 2 * node + 2} && c != d
    ensures var r := WalkTouch(a, c, k, true, w); Bit(r, node) == Bit(a, node) && Build(r, d, k) == Build(a, d, k)
  {
    var r := WalkTouch(a, c, k, true, w);
    assert c in {2 * node + 1, 2 * node + 2} && d in {2 * node + 1, 2 * node + 2};
    assert !Under(c, node);
    WalkFrame(a, c, k, w, node);
    forall x: nat | Under(d, x) ensures Bit(r, x) == Bit(a, x) {
      SiblingsApart(node, x);
      WalkFrame(a, c, k, w, x);
    }
    BuildFrame(r, a, d, k);
  }

  /** The register walk performs the tree's touch. */
  lemma {:induction false} WalkIsTouch(s: seq<bool>, node: nat, k: nat, w: nat)
    requires Fits(|s|, node, k)
    ensures Build(WalkTouch(s, node, k, true, w), node, k) == Touch(Build(s, node, k), k, w % Pow2(k))
    decreases k
  {
    if k > 0 {
      FitsDown(|s|, node, k);
      WalkDown(s, node, k, w);
      HighBit(k, w);
      var p := Pow2(k - 1);
      var dir := w / p % 2 == 1;
      var a := s[node := !dir];
      WriteAbove(s, a, node, k);
      var c, d := if dir then 2 * node + 2 else 2 * node + 1, if dir then 2 * node + 1 else 2 * node + 2;
      WalkElsewhere(a, node, k - 1, w, c, d);
      WalkIsTouch(a, c, k - 1, w);
      assert w % Pow2(k) == (if dir then p else 0) + w % p;
      hide WalkTouch; hide Fits;
    }
  }

  /** Writing a node does not disturb its children's subtrees. */
  lemma WriteAbove(s: seq<bool>, a: seq<bool>, node: nat, k: nat)
    requires k > 0 && node < |s| == |a| && a == s[node := a[node]]
    ensures Build(a, 2 * node + 1, k - 1) == Build(s, 2 * node + 1, k - 1)
    ensures Build(a, 2 * node + 2, k - 1) == Build(s, 2 * node + 2, k - 1)
  {
    forall x: nat | Under(2 * node + 1, x) || Under(2 * node + 2, x) ensures Bit(a, x) == Bit(s, x) {
      ChildUnder(node, if Under(2 * node + 1, x) then 2 * node + 1 else 2 * node + 2, x);
    }
    BuildFrame(a, s, 2 * node + 1, k - 1);
    BuildFrame(a, s, 2 * node + 2, k - 1);
  }

  // ---- the module ----

  /** A touch per port; ports are applied in order. `None` is a port not called. */
  function TouchAll(t: Tree, k: nat, ports: seq<Option<nat>>): (r: Tree)
    requires Perfect(t, k) && forall i :: 0 <= i < |ports| && ports[i].Some? ==> ports[i].value < Pow2(k)
    ensures Perfect(r, k)
    decreases ports
  {
    if ports == [] then t
    else TouchAll(if ports[0].Some? then Touch(t, k, ports[0].value) else t, k, ports[1..])
  }

  /** After any combination of touches the way of the last running port is not the victim. */
  lemma {:induction false} LastTouchIsSafe(t: Tree, k: nat, ports: seq<Option<nat>>, j: nat)
    requires k > 0 && Perfect(t, k) && forall i :: 0 <= i < |ports| && ports[i].Some? ==> ports[i].value < Pow2(k)
    requires j < |ports| && ports[j].Some? && forall i :: j < i < |ports| ==> ports[i].None?
    ensures Victim(TouchAll(t, k, ports), k) != ports[j].value
    decreases ports
  {
    var u := if ports[0].Some? then Touch(t, k, ports[0].value) else t;
    if j == 0 {
      TouchedIsSafe(t, k, ports[0].value);
      NoTouch(u, k, ports[1..]);
    } else {
      LastTouchIsSafe(u, k, ports[1..], j - 1);
    }
  }

  lemma {:induction false} NoTouch(t: Tree, k: nat, ports: seq<Option<nat>>)
    requires Perfect(t, k) && forall i :: 0 <= i < |ports| ==> ports[i].None?
    ensures TouchAll(t, k, ports) == t
    decreases ports
  {
    if ports != [] { NoTouch(t, k, ports[1..]); }
  }

  class TreePlru {
    const waysLog: nat
    var tree: seq<bool>

    ghost predicate Valid()
      reads this
    {
      waysLog > 0 && |tree| == Pow2(waysLog) - 1
    }

    ghost function Meaning(): (t: Tree)
      reads this
      ensures Perfect(t, waysLog)
    {
      Build(tree, 0, waysLog)
    }

    constructor (k: nat)
      requires k > 0
      ensures Valid() && waysLog == k
    {
      waysLog := k;
      tree := seq(Pow2(k) - 1, i => false);
    }

    method GetVictim() returns (way: nat)
      requires Valid()
      ensures way == Victim(Meaning(), waysLog) && way < Pow2(waysLog)
    {
      VictimOfIsVictim(tree, 0, waysLog);
      way := VictimOf(tree, 0, waysLog);
    }

    /** One cycle: each running port touches its way, in port order. */
    method Clock(ports: seq<Option<nat>>)
      requires Valid() && forall i :: 0 <= i < |ports| && ports[i].Some? ==> ports[i].value < Pow2(waysLog)
      modifies this
      ensures Valid() && Meaning() == TouchAll(old(Meaning()), waysLog, ports)
    {
      var i := 0;
      while i < |ports|
        invariant 0 <= i <= |ports| && Valid()
        invariant TouchAll(Meaning(), waysLog, ports[i..]) == TouchAll(old(Meaning()), waysLog, ports)
      {
        assert ports[i..][0] == ports[i] && ports[i..][1..] == ports[i + 1..];
        if ports[i].Some? {
          var w := ports[i].value;
          assert Fits(|tree|, 0, waysLog);
          WalkIsTouch(tree, 0, waysLog, w);
          SmallMod(w, Pow2(waysLog));
          tree := WalkTouch(tree, 0, waysLog, true, w);
        }
        i := i + 1;
      }
    }
  }
}
