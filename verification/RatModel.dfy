/** Register alias tables as maps from logical to physical registers, and the
    "overlay" of a table with the renames of in-flight instructions. The overlay is the
    reference meaning of the speculative table: it never mentions checkpoints. */
module RatModel {

  type Rat = seq<nat>

  /** The architectural part of an instruction after register allocation. */
  datatype Op = Op(rl: nat, rs1: nat, rs2: nat, rp: nat, code: nat)

  /** A renamed instruction, as it lives in the reorder buffer. `tag` is the unbounded
      speculation tag; the hardware buffer keeps only the one-bit `incr`. */
  datatype Instr = Instr(op: Op, tag: nat, incr: bool, s1: nat, s2: nat)

  /** Logical register 0 is never renamed. */
  function Write(r: Rat, op: Op): (w: Rat)
    ensures |w| == |r|
  {
    if 0 < op.rl < |r| then r[op.rl := op.rp] else r
  }

  function Look(r: Rat, rl: nat): nat {
    if rl < |r| then r[rl] else 0
  }

  function WriteIf(r: Rat, i: Instr, act: set<nat>): (w: Rat)
    ensures |w| == |r|
  {
    if i.tag in act then Write(r, i.op) else r
  }

  /** `base` overwritten, in program order, by the renames whose tag is in `act`. */
  function Overlay(base: Rat, es: seq<Instr>, act: set<nat>): (w: Rat)
    ensures |w| == |base|
    decreases es
  {
    if es == [] then base else Overlay(WriteIf(base, es[0], act), es[1..], act)
  }

  /** Every active instruction reads the table as its active predecessors left it. */
  ghost predicate SourcesOk(base: Rat, es: seq<Instr>, act: set<nat>)
    decreases es
  {
    es != [] ==>
      && (es[0].tag in act ==>
            es[0].s1 == Look(base, es[0].op.rs1) && es[0].s2 == Look(base, es[0].op.rs2))
      && SourcesOk(WriteIf(base, es[0], act), es[1..], act)
  }

  /** Tags of consecutive instructions grow by their increment bit, starting after `prev`. */
  ghost predicate Chain(prev: nat, es: seq<Instr>)
    decreases es
  {
    es != [] ==> es[0].tag == prev + Bit(es[0].incr) && Chain(es[0].tag, es[1..])
  }

  function Bit(b: bool): nat { if b then 1 else 0 }

  function LastTag(prev: nat, es: seq<Instr>): nat {
    if es == [] then prev else es[|es| - 1].tag
  }

  function CountIncr(es: seq<Instr>): nat {
    if es == [] then 0 else Bit(es[0].incr) + CountIncr(es[1..])
  }

  function Dsts(es: seq<Instr>): (d: seq<nat>)
    ensures |d| == |es|
    ensures forall i :: 0 <= i < |es| ==> d[i] == es[i].op.rp
  {
    seq(|es|, i requires 0 <= i < |es| => es[i].op.rp)
  }

  function OpDsts(ops: seq<Op>): (d: seq<nat>)
    ensures |d| == |ops|
    ensures forall i :: 0 <= i < |ops| ==> d[i] == ops[i].rp
  {
    seq(|ops|, i requires 0 <= i < |ops| => ops[i].rp)
  }

  // ---- overlay algebra ----

  lemma {:induction false} OverlayAppend(base: Rat, xs: seq<Instr>, ys: seq<Instr>, act: set<nat>)
    ensures Overlay(base, xs + ys, act) == Overlay(Overlay(base, xs, act), ys, act)
    decreases xs
  {
    if xs == [] {
      assert xs + ys == ys;
    } else {
      assert (xs + ys)[1..] == xs[1..] + ys;
      OverlayAppend(WriteIf(base, xs[0], act), xs[1..], ys, act);
    }
  }

  /** Only the activity of the tags that occur matters. */
  lemma {:induction false} OverlayAgree(base: Rat, es: seq<Instr>, a: set<nat>, b: set<nat>)
    requires forall i :: 0 <= i < |es| ==> (es[i].tag in a <==> es[i].tag in b)
    ensures Overlay(base, es, a) == Overlay(base, es, b)
    decreases es
  {
    if es != [] {
      OverlayAgree(WriteIf(base, es[0], a), es[1..], a, b);
    }
  }

  lemma {:induction false} OverlayInactive(base: Rat, es: seq<Instr>, a: set<nat>)
    requires forall i :: 0 <= i < |es| ==> es[i].tag !in a
    ensures Overlay(base, es, a) == base
    decreases es
  {
    if es != [] {
      OverlayInactive(base, es[1..], a);
    }
  }

  lemma {:induction false} OverlayZero(base: Rat, es: seq<Instr>, act: set<nat>)
    requires |base| > 0
    ensures Overlay(base, es, act)[0] == base[0]
    decreases es
  {
    if es != [] {
      OverlayZero(WriteIf(base, es[0], act), es[1..], act);
    }
  }

  /** A value found in the overlay comes from the base or from an active instruction. */
  lemma {:induction false} OverlayOrigin(base: Rat, es: seq<Instr>, act: set<nat>, r: nat)
    requires r < |base|
    ensures Overlay(base, es, act)[r] == base[r]
         || exists i :: 0 <= i < |es| && es[i].tag in act && es[i].op.rp == Overlay(base, es, act)[r]
    decreases es
  {
    if es != [] {
      var b := WriteIf(base, es[0], act);
      OverlayOrigin(b, es[1..], act, r);
      var v := Overlay(base, es, act)[r];
      if v != b[r] {
        var i :| 0 <= i < |es[1..]| && es[1..][i].tag in act && es[1..][i].op.rp == v;
        assert es[i + 1].op.rp == v;
      } else if b[r] != base[r] {
        assert es[0].op.rp == v;
      }
    }
  }

  // ---- sources ----

  lemma {:induction false} SourcesAppend(base: Rat, xs: seq<Instr>, ys: seq<Instr>, act: set<nat>)
    requires SourcesOk(base, xs, act)
    requires SourcesOk(Overlay(base, xs, act), ys, act)
    ensures SourcesOk(base, xs + ys, act)
    decreases xs
  {
    if xs == [] {
      assert xs + ys == ys;
    } else {
      assert (xs + ys)[1..] == xs[1..] + ys;
      SourcesAppend(WriteIf(base, xs[0], act), xs[1..], ys, act);
    }
  }

  lemma {:induction false} SourcesSplit(base: Rat, xs: seq<Instr>, ys: seq<Instr>, act: set<nat>)
    requires SourcesOk(base, xs + ys, act)
    ensures SourcesOk(Overlay(base, xs, act), ys, act)
    decreases xs
  {
    if xs == [] {
      assert xs + ys == ys;
    } else {
      assert (xs + ys)[1..] == xs[1..] + ys;
      SourcesSplit(WriteIf(base, xs[0], act), xs[1..], ys, act);
    }
  }

  lemma {:induction false} SourcesInactive(base: Rat, es: seq<Instr>, act: set<nat>)
    requires forall i :: 0 <= i < |es| ==> es[i].tag !in act
    ensures SourcesOk(base, es, act)
    decreases es
  {
    if es != [] {
      SourcesInactive(base, es[1..], act);
    }
  }

  lemma {:induction false} SourcesAgree(base: Rat, es: seq<Instr>, a: set<nat>, b: set<nat>)
    requires SourcesOk(base, es, a)
    requires forall i :: 0 <= i < |es| ==> (es[i].tag in a <==> es[i].tag in b)
    ensures SourcesOk(base, es, b)
    decreases es
  {
    if es != [] {
      SourcesAgree(WriteIf(base, es[0], a), es[1..], a, b);
    }
  }

  /** Deactivating every tag above `t` keeps the sources of what stays active. */
  lemma {:induction false} SourcesCut(prev: nat, base: Rat, es: seq<Instr>, a: set<nat>, t: nat)
    requires SourcesOk(base, es, a) && Chain(prev, es)
    ensures SourcesOk(base, es, Upto(a, t))
    decreases es
  {
    if es != [] {
      if es[0].tag <= t {
        SourcesCut(es[0].tag, WriteIf(base, es[0], a), es[1..], a, t);
      } else {
        ChainMono(prev, es);
        SourcesInactive(base, es, Upto(a, t));
      }
    }
  }

  /** The source of an active instruction comes from the base table or from an older
      active instruction. */
  lemma {:induction false} SourceOrigin(base: Rat, es: seq<Instr>, act: set<nat>, k: nat)
    requires SourcesOk(base, es, act) && k < |es| && es[k].tag in act
    ensures es[k].s1 == 0 || es[k].s1 in base
         || exists i :: 0 <= i < k && es[i].tag in act && es[i].op.rp == es[k].s1
    ensures es[k].s2 == 0 || es[k].s2 in base
         || exists i :: 0 <= i < k && es[i].tag in act && es[i].op.rp == es[k].s2
  {
    SourceIsOverlay(base, es, act, k);
    var o := Overlay(base, es[..k], act);
    forall r: nat | r < |base|
      ensures o[r] in base || exists i :: 0 <= i < k && es[i].tag in act && es[i].op.rp == o[r]
    {
      OverlayOrigin(base, es[..k], act, r);
      if o[r] != base[r] {
        var i :| 0 <= i < k && es[..k][i].tag in act && es[..k][i].op.rp == o[r];
        assert es[i].op.rp == o[r];
      }
    }
  }

  lemma {:induction false} SourceIsOverlay(base: Rat, es: seq<Instr>, act: set<nat>, k: nat)
    requires SourcesOk(base, es, act) && k < |es| && es[k].tag in act
    ensures es[k].s1 == Look(Overlay(base, es[..k], act), es[k].op.rs1)
    ensures es[k].s2 == Look(Overlay(base, es[..k], act), es[k].op.rs2)
    decreases k
  {
    if k > 0 {
      SourceIsOverlay(WriteIf(base, es[0], act), es[1..], act, k - 1);
      assert es[1..][..k - 1] == es[..k][1..];
    }
  }

  // ---- tag chains ----

  function Upto(a: set<nat>, t: nat): set<nat> {
    set x | x in a && x <= t
  }

  lemma {:induction false} ChainMono(prev: nat, es: seq<Instr>)
    requires Chain(prev, es)
    ensures forall i :: 0 <= i < |es| ==> prev <= es[i].tag <= LastTag(prev, es)
    ensures forall i, j :: 0 <= i <= j < |es| ==> es[i].tag <= es[j].tag
    decreases es
  {
    if es != [] {
      ChainMono(es[0].tag, es[1..]);
      assert es[1..] == [] || es[1..][|es| - 2] == es[|es| - 1];
      assert LastTag(prev, es) == LastTag(es[0].tag, es[1..]);
      forall i | 0 <= i < |es|
        ensures prev <= es[i].tag <= LastTag(prev, es)
      {
        if i > 0 { assert es[i] == es[1..][i - 1]; }
      }
      forall i, j | 0 <= i <= j < |es|
        ensures es[i].tag <= es[j].tag
      {
        if j > 0 {
          assert es[j] == es[1..][j - 1];
          if i > 0 { assert es[i] == es[1..][i - 1]; }
        }
      }
    }
  }

  lemma {:induction false} ChainAppend(prev: nat, xs: seq<Instr>, ys: seq<Instr>)
    requires Chain(prev, xs) && Chain(LastTag(prev, xs), ys)
    ensures Chain(prev, xs + ys)
    ensures LastTag(prev, xs + ys) == LastTag(LastTag(prev, xs), ys)
    decreases xs
  {
    if xs == [] {
      assert xs + ys == ys;
    } else {
      assert (xs + ys)[1..] == xs[1..] + ys;
      assert xs[1..] == [] || xs[1..][|xs| - 2] == xs[|xs| - 1];
      ChainAppend(xs[0].tag, xs[1..], ys);
    }
  }

  /** Splitting a chain: the tag reached after a prefix is the start plus its increments. */
  lemma {:induction false} ChainSplit(prev: nat, es: seq<Instr>, k: nat)
    requires Chain(prev, es) && k <= |es|
    ensures LastTag(prev, es[..k]) == prev + CountIncr(es[..k])
    ensures Chain(LastTag(prev, es[..k]), es[k..])
    ensures LastTag(LastTag(prev, es[..k]), es[k..]) == LastTag(prev, es)
    decreases k
  {
    if k > 0 {
      ChainSplit(es[0].tag, es[1..], k - 1);
      assert es[1..][..k - 1] == es[..k][1..];
      assert es[1..][k - 1..] == es[k..];
      assert k > 1 ==> es[..k][1..][k - 2] == es[k - 1];
      assert |es| > 1 ==> es[1..][|es| - 2] == es[|es| - 1];
    } else {
      assert es[0..] == es;
    }
  }
}
