/** Bit masks as sequences of booleans, index 0 being the least significant bit, with the
    usual mask operators and what they mean. */
module BitMask {

  type Mask = seq<bool>

  /** count_trailing_zeros: position of the first set bit, or the width. */
  function FirstSet(m: Mask): (k: nat)
    ensures k <= |m|
    ensures k < |m| ==> m[k]
    ensures forall i :: 0 <= i < k ==> !m[i]
  {
    if m == [] || m[0] then 0 else 1 + FirstSet(m[1..])
  }

  /** mask_before_first_set_bit */
  function Before(m: Mask): (r: Mask)
    ensures |r| == |m|
  {
    seq(|m|, i => i < FirstSet(m))
  }

  /** mask_from_first_set_bit */
  function From(m: Mask): (r: Mask)
    ensures |r| == |m|
  {
    seq(|m|, i => i >= FirstSet(m))
  }

  function ClearLowest(m: Mask): (r: Mask)
    ensures |r| == |m|
  {
    seq(|m|, i requires 0 <= i < |m| => m[i] && i != FirstSet(m))
  }

  function Or(a: Mask, b: Mask): (r: Mask)
    requires |a| == |b|
    ensures |r| == |a|
  {
    seq(|a|, i requires 0 <= i < |a| => a[i] || b[i])
  }

  function And(a: Mask, b: Mask): (r: Mask)
    requires |a| == |b|
    ensures |r| == |a|
  {
    seq(|a|, i requires 0 <= i < |a| => a[i] && b[i])
  }

  function Not(a: Mask): (r: Mask)
    ensures |r| == |a|
  {
    seq(|a|, i requires 0 <= i < |a| => !a[i])
  }

  predicate Any(a: Mask) {
    exists i :: 0 <= i < |a| && a[i]
  }

  function Count(m: Mask): nat {
    if m == [] then 0 else (if m[0] then 1 else 0) + Count(m[1..])
  }

  /** FirstSet is determined by what it promises. */
  lemma FirstSetIs(m: Mask, k: nat)
    requires k <= |m| && (k < |m| ==> m[k])
    requires forall i :: 0 <= i < k ==> !m[i]
    ensures FirstSet(m) == k
  {
  }

  lemma {:induction false} CountSplit(m: Mask, k: nat)
    requires k <= |m|
    ensures Count(m) == Count(m[..k]) + Count(m[k..])
    decreases k
  {
    if k == 0 {
      assert m[..0] == [] && m[0..] == m;
    } else {
      CountSplit(m[1..], k - 1);
      assert m[..k][1..] == m[1..][..k - 1];
      assert m[k..] == m[1..][k - 1..];
    }
  }

  lemma {:induction false} CountZero(m: Mask)
    ensures Count(m) == 0 <==> forall i :: 0 <= i < |m| ==> !m[i]
    decreases m
  {
    if m != [] {
      CountZero(m[1..]);
      if forall i :: 0 <= i < |m[1..]| ==> !m[1..][i] {
        assert forall i :: 1 <= i < |m| ==> m[i] == m[1..][i - 1];
      } else {
        var i :| 0 <= i < |m[1..]| && m[1..][i];
        assert m[i + 1];
      }
    }
  }

  /** A prefix holds no set bit iff it ends at or before the first one. */
  lemma PrefixNone(m: Mask, k: nat)
    requires k <= |m|
    ensures Count(m[..k]) == 0 <==> k <= FirstSet(m)
  {
    CountZero(m[..k]);
    var f := FirstSet(m);
    if f < k { assert m[..k][f]; }
  }

  lemma ClearLowestTail(m: Mask)
    requires m != []
    ensures FirstSet(ClearLowest(m)) == 1 + FirstSet(if m[0] then m[1..] else ClearLowest(m[1..]))
  {
    var t, c := m[1..], ClearLowest(m);
    if m[0] {
      assert c == [false] + t;
      assert c[1..] == t;
    } else {
      assert c == [false] + ClearLowest(t);
      assert c[1..] == ClearLowest(t);
    }
  }

  /** A prefix holds at most one set bit iff it ends at or before the second one. */
  lemma {:induction false} PrefixOne(m: Mask, k: nat)
    requires k <= |m|
    ensures Count(m[..k]) <= 1 <==> k <= FirstSet(ClearLowest(m))
    ensures FirstSet(m) < k <= FirstSet(ClearLowest(m)) ==> Count(m[..k]) == 1
    decreases m
  {
    if k > 0 {
      var t := m[1..];
      assert m[..k][1..] == t[..k - 1];
      ClearLowestTail(m);
      hide ClearLowest;
      if m[0] {
        PrefixNone(t, k - 1);
      } else {
        PrefixOne(t, k - 1);
      }
    }
  }
}
