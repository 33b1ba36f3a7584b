/** Circular buffer pointers with a wrap (parity) bit, compared without subtraction. */
module FtqPointers {
  import opened Powers

  datatype Ptr = Ptr(ptr: nat, parity: bool)

  /** The pointer to an unbounded position in a buffer of `n` slots. */
  function At(n: nat, x: nat): (p: Ptr)
    requires n > 0
    ensures p.ptr < n
  {
    Ptr(x % n, (x / n) % 2 == 1)
  }

  /** Addition of one on the concatenated bits. */
  function Inc(n: nat, p: Ptr): Ptr {
    if p.ptr + 1 == n then Ptr(0, !p.parity) else Ptr(p.ptr + 1, p.parity)
  }

  predicate Lt(a: Ptr, b: Ptr) { (a.parity != b.parity) != (a.ptr < b.ptr) }
  predicate Le(a: Ptr, b: Ptr) { (a.parity != b.parity) != (a.ptr <= b.ptr) }
  predicate Ge(a: Ptr, b: Ptr) { (a.parity != b.parity) != (a.ptr >= b.ptr) }
  predicate Full(enq: Ptr, deq: Ptr) { enq.parity != deq.parity && enq.ptr == deq.ptr }
  predicate Empty(enq: Ptr, deq: Ptr) { enq == deq }

  function Size(n: nat, enq: Ptr, deq: Ptr): int {
    if Full(enq, deq) then n else if enq.ptr >= deq.ptr then enq.ptr - deq.ptr else n + enq.ptr - deq.ptr
  }

  /** Moving by at most a lap: residue and lap number. */
  lemma Lap(n: nat, a: nat, d: nat)
    requires n > 0 && d <= n
    ensures (a + d) % n == (if a % n + d < n then a % n + d else a % n + d - n)
         && (a + d) / n == (if a % n + d < n then a / n else a / n + 1)
  {
    var q, r := a / n, a % n;
    assert a == n * q + r;
    if r + d < n {
      SplitUnique(a + d, n, q, r + d);
    } else {
      assert n * q + r + d == n * (q + 1) + (r + d - n);
      SplitUnique(a + d, n, q + 1, r + d - n);
    }
  }

  lemma IncIsNext(n: nat, x: nat)
    requires n > 0
    ensures Inc(n, At(n, x)) == At(n, x + 1)
  {
    Lap(n, x, 1);
  }

  /** Pointers a distance `d` apart, at most a lap: same parity iff the index did not wrap. */
  lemma Apart(n: nat, a: nat, d: nat)
    requires n > 0 && d <= n
    ensures var p, q := At(n, a), At(n, a + d);
            if p.ptr + d < n then q.ptr == p.ptr + d && q.parity == p.parity
            else q.ptr == p.ptr + d - n && q.parity != p.parity
  {
    Lap(n, a, d);
  }

  /** `<` agrees with comparing positions when -n < b - a <= n. */
  lemma LtWindow(n: nat, a: nat, b: nat)
    requires n > 0 && a - n < b <= a + n
    ensures Lt(At(n, a), At(n, b)) <==> a < b
  {
    if a <= b { Apart(n, a, b - a); } else { Apart(n, b, a - b); }
  }

  /** `<=` agrees with comparing positions when -n <= b - a < n. */
  lemma LeWindow(n: nat, a: nat, b: nat)
    requires n > 0 && a - n <= b < a + n
    ensures Le(At(n, a), At(n, b)) <==> a <= b
  {
    if a <= b { Apart(n, a, b - a); } else { Apart(n, b, a - b); }
  }

  /** `>=` agrees with comparing positions when -n <= a - b < n. */
  lemma GeWindow(n: nat, a: nat, b: nat)
    requires n > 0 && b - n <= a < b + n
    ensures Ge(At(n, a), At(n, b)) <==> a >= b
  {
    if a <= b { Apart(n, a, b - a); } else { Apart(n, b, a - b); }
  }

  /** The windows are exact: each comparison is wrong one step outside, on either side. */
  lemma WindowsAreExact(n: nat, a: nat)
    requires n > 0
    ensures Lt(At(n, a + n), At(n, a)) && !Lt(At(n, a), At(n, a + n + 1))
    ensures !Le(At(n, a), At(n, a + n)) && Le(At(n, a + n + 1), At(n, a))
    ensures !Ge(At(n, a + n), At(n, a)) && Ge(At(n, a), At(n, a + n + 1))
  {
    Apart(n, a, n);
    Lap(n, a + n, 1);
    Lap(n, a, 1);
    Lap(n, a, n);
  }

  /** Fullness, emptiness and size on every reachable fill level. */
  lemma FillLevel(n: nat, deq: nat, enq: nat)
    requires n > 0 && deq <= enq <= deq + n
    ensures Full(At(n, enq), At(n, deq)) <==> enq == deq + n
    ensures Empty(At(n, enq), At(n, deq)) <==> enq == deq
    ensures Size(n, At(n, enq), At(n, deq)) == enq - deq
  {
    Apart(n, deq, enq - deq);
  }
}
