/** The storage around renaming as it is clocked: the retired table with its commit ports, the
    register file with same-cycle forwarding, the reservation station rows and the reorder
    buffer. Each is tied to the functions the renaming core is stated with. */
module CoreStructs {
  import opened Wrappers
  import opened Cyclic
  import opened RatModel
  import opened CratSpec
  import opened Retirement
  import opened RenameCore

  // ---- retired table ----

  class RetiredTable {
    const entries: array<nat>

    constructor (logical: nat)
      ensures fresh(entries) && entries[..] == seq(logical, _ => 0)
    {
      entries := new nat[logical](_ => 0);
    }

    /** All ports read the stored entries, corrected by the lower running ports on the same
        register; then all write. Each port sees the table as if the lower ones had finished. */
    method Commit(ports: seq<Port>) returns (olds: seq<nat>)
      requires forall i :: 0 <= i < |ports| ==> ports[i].op.rl < entries.Length
      modifies entries
      ensures entries[..] == Written(old(entries[..]), ports)
      ensures |olds| == |ports|
      ensures forall i :: 0 <= i < |ports| ==> olds[i] == Written(old(entries[..]), ports[..i])[ports[i].op.rl]
    {
      olds := ReadAll(ports);
      assert ports[..0] == [];
      var i := 0;
      while i < |ports|
        modifies entries
        invariant i <= |ports|
        invariant entries[..] == Written(old(entries[..]), ports[..i])
      {
        assert ports[..i + 1][..i] == ports[..i];
        if ports[i].run { entries[ports[i].op.rl] := ports[i].op.rp; }
        i := i + 1;
      }
      assert ports[..i] == ports;
    }

    method ReadAll(ports: seq<Port>) returns (olds: seq<nat>)
      requires forall i :: 0 <= i < |ports| ==> ports[i].op.rl < entries.Length
      ensures |olds| == |ports|
      ensures forall i :: 0 <= i < |ports| ==> olds[i] == Written(entries[..], ports[..i])[ports[i].op.rl]
    {
      hide Written, Bypass;
      olds := [];
      var i := 0;
      while i < |ports|
        invariant i == |olds| <= |ports|
        invariant forall k :: 0 <= k < i ==> olds[k] == Written(entries[..], ports[..k])[ports[k].op.rl]
      {
        var value := BypassPort(ports[..i], ports[i].op.rl);
        BypassReadsWritten(entries[..], ports[..i], ports[i].op.rl);
        olds := olds + [value];
        i := i + 1;
      }
    }

    method BypassPort(lower: seq<Port>, rl: nat) returns (value: nat)
      requires rl < entries.Length
      ensures value == Bypass(entries[..], lower, rl)
    {
      value := entries[rl];
      var j := 0;
      assert lower[..0] == [];
      while j < |lower|
        invariant j <= |lower|
        invariant value == Bypass(entries[..], lower[..j], rl)
      {
        assert lower[..j + 1][..j] == lower[..j];
        if lower[j].run && lower[j].op.rl == rl { value := lower[j].op.rp; }
        j := j + 1;
      }
      assert lower[..j] == lower;
    }
  }

  // ---- register file ----

  /** A result broadcast by an announcement port. */
  datatype Result = Result(reg: nat, val: int)

  /** Simultaneous writes never name the same register. */
  ghost predicate Distinct(ws: seq<Result>) {
    forall i, j :: 0 <= i < j < |ws| && ws[i].reg == ws[j].reg ==> ws[i].reg == 0
  }

  function Stored(vals: seq<int>, ws: seq<Result>): (r: seq<int>)
    ensures |r| == |vals|
  {
    if ws == [] then vals
    else
      var v, w := Stored(vals, ws[..|ws| - 1]), ws[|ws| - 1];
      if 0 < w.reg < |vals| then v[w.reg := w.val] else v
  }

  function Regs(ws: seq<Result>): (r: set<nat>)
    ensures forall x :: x in r <==> x != 0 && exists i :: 0 <= i < |ws| && ws[i].reg == x
  {
    set i | 0 <= i < |ws| && ws[i].reg != 0 :: ws[i].reg
  }

  lemma {:induction false} WrittenValue(vals: seq<int>, ws: seq<Result>, r: nat)
    requires r < |vals| && Distinct(ws)
    ensures r !in Regs(ws) ==> Stored(vals, ws)[r] == vals[r]
    ensures forall i :: 0 <= i < |ws| && ws[i].reg == r != 0 ==> Stored(vals, ws)[r] == ws[i].val
  {
    if ws != [] {
      var w := ws[|ws| - 1];
      WrittenValue(vals, ws[..|ws| - 1], r);
      RegsNext(ws, |ws| - 1);
      assert ws[..|ws|] == ws;
      forall i | 0 <= i < |ws| && ws[i].reg == r != 0
        ensures Stored(vals, ws)[r] == ws[i].val
      {
        if i < |ws| - 1 { assert ws[..|ws| - 1][i] == ws[i]; }
      }
    }
  }

  class RegisterFile {
    const vals: array<int>
    const valids: array<bool>

    /** Register 0 is always valid and holds 0. */
    ghost predicate Valid()
      reads this, vals, valids
    {
      0 < vals.Length == valids.Length && valids[0] && vals[0] == 0
    }

    ghost function ValidSet(): set<nat>
      reads this, valids
    {
      set r | 0 < r < valids.Length && valids[r]
    }

    constructor (phys: nat)
      requires phys > 0
      ensures Valid() && fresh(vals) && fresh(valids) && ValidSet() == {} && vals.Length == phys
      ensures vals[..] == seq(phys, _ => 0)
    {
      vals := new int[phys](_ => 0);
      valids := new bool[phys](k => k == 0);
    }

    /** A read in the cycle of the writes `ws` answers as if they had been done already. */
    method Read(ws: seq<Result>, reg: nat) returns (valid: bool, val: int)
      requires Valid() && reg < vals.Length && Distinct(ws)
      ensures valid <==> reg == 0 || reg in ValidSet() + Regs(ws)
      ensures val == Stored(vals[..], ws)[reg]
    {
      valid, val := valids[reg], vals[reg];
      var k := 0;
      WrittenValue(vals[..], ws, reg);
      while k < |ws|
        invariant k <= |ws|
        invariant valid <==> valids[reg] || exists i :: 0 <= i < k && ws[i].reg == reg != 0
        invariant val == if exists i :: 0 <= i < k && ws[i].reg == reg != 0 then Stored(vals[..], ws)[reg]
                         else vals[reg]
      {
        if ws[k].reg == reg && reg != 0 { valid, val := true, ws[k].val; }
        k := k + 1;
      }
    }

    /** One cycle of writes and frees; a register freed in the cycle of its write ends invalid. */
    method Clock(ws: seq<Result>, frees: seq<nat>)
      requires Valid()
      requires forall i :: 0 <= i < |ws| ==> ws[i].reg < vals.Length
      requires forall i :: 0 <= i < |frees| ==> frees[i] < vals.Length
      modifies vals, valids
      ensures Valid()
      ensures vals[..] == Stored(old(vals[..]), ws)
      ensures ValidSet() == old(ValidSet()) + Regs(ws) - NonZero(frees)
    {
      Write(ws);
      Free(frees);
    }

    method Write(ws: seq<Result>)
      requires Valid() && forall i :: 0 <= i < |ws| ==> ws[i].reg < vals.Length
      modifies vals, valids
      ensures Valid() && vals[..] == Stored(old(vals[..]), ws) && ValidSet() == old(ValidSet()) + Regs(ws)
    {
      var k := 0;
      assert ws[..0] == [];
      while k < |ws|
        modifies vals, valids
        invariant k <= |ws| && Valid()
        invariant vals[..] == Stored(old(vals[..]), ws[..k])
        invariant ValidSet() == old(ValidSet()) + Regs(ws[..k])
      {
        assert ws[..k + 1][..k] == ws[..k];
        RegsNext(ws, k);
        if ws[k].reg != 0 {
          ghost var was := ValidSet();
          vals[ws[k].reg] := ws[k].val;
          valids[ws[k].reg] := true;
          assert ValidSet() == was + {ws[k].reg};
        }
        k := k + 1;
      }
      assert ws[..k] == ws;
    }

    method Free(frees: seq<nat>)
      requires Valid() && forall i :: 0 <= i < |frees| ==> frees[i] < vals.Length
      modifies valids
      ensures Valid() && ValidSet() == old(ValidSet()) - NonZero(frees)
    {
      var k := 0;
      while k < |frees|
        modifies valids
        invariant k <= |frees| && Valid()
        invariant ValidSet() == old(ValidSet()) - NonZero(frees[..k])
      {
        assert frees[..k + 1] == frees[..k] + [frees[k]];
        if frees[k] != 0 {
          ghost var was := ValidSet();
          valids[frees[k]] := false;
          assert ValidSet() == was - {frees[k]};
        }
        k := k + 1;
      }
      assert frees[..k] == frees;
    }
  }

  lemma RegsNext(ws: seq<Result>, k: nat)
    requires k < |ws|
    ensures Regs(ws[..k + 1]) == Regs(ws[..k]) + (if ws[k].reg != 0 then {ws[k].reg} else {})
  {
    var a, b := Regs(ws[..k + 1]), Regs(ws[..k]);
    forall x | x in a
      ensures x in b || (x == ws[k].reg && x != 0)
    {
      var i :| 0 <= i < k + 1 && ws[..k + 1][i].reg == x;
      if i < k { assert ws[..k][i].reg == x; }
    }
    forall x | x in b
      ensures x in a
    {
      var i :| 0 <= i < k && ws[..k][i].reg == x;
      assert ws[..k + 1][i].reg == x;
    }
    if ws[k].reg != 0 { assert ws[..k + 1][k].reg == ws[k].reg; }
  }

  // ---- reservation station ----

  function WakeAll(f: Phase, ws: seq<Result>): Phase {
    if ws == [] then f else Wake(WakeAll(f, ws[..|ws| - 1]), ws[|ws| - 1].reg, ws[|ws| - 1].val)
  }

  datatype Row = Row(full: bool, robId: nat, r1: nat, v1: int, r2: nat, v2: int) {
    function Phase(): Phase {
      Waiting(r1, v1, r2, v2)
    }

    predicate Ready() {
      full && r1 == 0 && r2 == 0
    }
  }

  /** What one operand becomes when the broadcasts `ws` pass. */
  function WokenReg(r: nat, ws: seq<Result>): nat {
    if r in Regs(ws) then 0 else r
  }

  lemma {:induction false} WakeAllRegs(f: Phase, ws: seq<Result>)
    requires f.Waiting?
    ensures WakeAll(f, ws).Waiting?
    ensures WakeAll(f, ws).r1 == WokenReg(f.r1, ws) && WakeAll(f, ws).r2 == WokenReg(f.r2, ws)
  {
    if ws != [] {
      var k := |ws| - 1;
      WakeAllRegs(f, ws[..k]);
      assert ws[..k + 1] == ws;
      RegsNext(ws, k);
    }
  }

  class ReservationStation {
    const rows: array<Row>

    constructor (entries: nat)
      ensures fresh(rows) && rows.Length == entries
      ensures forall i :: 0 <= i < entries ==> !rows[i].full
    {
      rows := new Row[entries](_ => Row(false, 0, 0, 0, 0, 0));
    }

    /** One cycle: broadcasts reach every row, an inserted row replaces its slot's content, a
        taken row is emptied. Broadcast register numbers are never 0. */
    method Clock(ws: seq<Result>, insert: Option<(nat, Row)>, take: Option<nat>) returns (taken: Row)
      requires Distinct(ws) && forall i :: 0 <= i < |ws| ==> ws[i].reg != 0
      requires insert.Some? ==> insert.value.0 < rows.Length && insert.value.1.full && !rows[insert.value.0].full
      requires take.Some? ==> take.value < rows.Length && rows[take.value].Ready()
      modifies rows
      ensures forall i :: 0 <= i < rows.Length && insert.Some? && i == insert.value.0 ==> rows[i] == insert.value.1
      ensures forall i :: 0 <= i < rows.Length && !(insert.Some? && i == insert.value.0) ==>
                && rows[i].Phase() == WakeAll(old(rows[i]).Phase(), ws)
                && rows[i].robId == old(rows[i]).robId
                && rows[i].full == (old(rows[i]).full && take != Some(i))
      ensures take.Some? ==> taken == old(rows[take.value])
    {
      taken := if take.Some? then rows[take.value] else Row(false, 0, 0, 0, 0, 0);
      var i := 0;
      while i < rows.Length
        modifies rows
        invariant i <= rows.Length
        invariant forall n :: i <= n < rows.Length ==> rows[n] == old(rows[n])
        invariant forall n :: 0 <= n < i ==>
                    && rows[n].Phase() == WakeAll(old(rows[n]).Phase(), ws)
                    && rows[n].robId == old(rows[n]).robId && rows[n].full == old(rows[n]).full
      {
        var row := Broadcast(rows[i], ws);
        rows[i] := row;
        i := i + 1;
      }
      if insert.Some? { rows[insert.value.0] := insert.value.1; }
      if take.Some? { rows[take.value] := rows[take.value].(full := false); }
    }
  }

  method Broadcast(row: Row, ws: seq<Result>) returns (r: Row)
    requires forall i :: 0 <= i < |ws| ==> ws[i].reg != 0
    ensures r.Phase() == WakeAll(row.Phase(), ws) && r.robId == row.robId && r.full == row.full
  {
    r := row;
    var k := 0;
    assert ws[..0] == [];
    while k < |ws|
      invariant k <= |ws| && r.robId == row.robId && r.full == row.full
      invariant r.Phase() == WakeAll(row.Phase(), ws[..k])
    {
      assert ws[..k + 1][..k] == ws[..k];
      var w := ws[k];
      if r.r1 == w.reg { r := r.(r1 := 0, v1 := w.val); }
      if r.r2 == w.reg { r := r.(r2 := 0, v2 := w.val); }
      k := k + 1;
    }
    assert ws[..k] == ws;
  }

  // ---- announcements and an insertion in one cycle ----

  /** Finished instruction, whether it faulted, its result. */
  type Finish = (nat, bool, int)

  ghost predicate Announceable(s: Core, fs: seq<Finish>) {
    && |s.ph| == |s.rob|
    && (forall k :: 0 <= k < |fs| ==> fs[k].0 < |s.ph| && s.ph[fs[k].0].Executing?)
    && (forall k, l :: 0 <= k < l < |fs| ==> fs[k].0 != fs[l].0)
  }

  ghost predicate Announced(fs: seq<Finish>, n: nat) {
    exists k :: 0 <= k < |fs| && fs[k].0 == n
  }

  function Results(s: Core, fs: seq<Finish>): (ws: seq<Result>)
    requires forall k :: 0 <= k < |fs| ==> fs[k].0 < |s.rob|
    ensures |ws| == |fs|
  {
    seq(|fs|, k requires 0 <= k < |fs| => Result(s.rob[fs[k].0].op.rp, fs[k].2))
  }

  /** The announcements of a cycle, one step after the other. */
  function AnnounceAll(s: Core, fs: seq<Finish>): (n: Core)
    requires Announceable(s, fs)
    ensures n.rob == s.rob && |n.ph| == |s.ph| && n.spec == s.spec && n.fsm == s.fsm && |n.rf| == |s.rf|
    decreases |fs|
  {
    if fs == [] then s
    else
      var f := fs[|fs| - 1];
      var t := AnnounceAll(s, fs[..|fs| - 1]);
      AnnounceStep(t, f.0, f.1, f.2)
  }

  /** The announcement step of the renaming core. */
  function AnnounceStep(s: Core, i: nat, exc: bool, val: int): Core
    requires i < |s.ph| == |s.rob|
  {
    var r := s.rob[i].op.rp;
    s.(ph := Heard(s.ph, i, exc, r, val),
       valid := if r != 0 then s.valid + {r} else s.valid,
       rf := if 0 < r < |s.rf| then s.rf[r := val] else s.rf)
  }

  function Heard(ph: seq<Phase>, i: nat, exc: bool, r: nat, val: int): (n: seq<Phase>)
    ensures |n| == |ph|
  {
    seq(|ph|, k requires 0 <= k < |ph| => if k == i then Done(exc) else Wake(ph[k], r, val))
  }

  lemma AnnounceStepIsStep(p: Params, s: Core, i: nat, exc: bool, val: int)
    requires Enabled(p, s, Announce(i, exc, val))
    ensures AnnounceStep(s, i, exc, val) == Step(p, s, Announce(i, exc, val))
  {
  }

  lemma {:induction false} NotWaiting(f: Phase, ws: seq<Result>)
    requires !f.Waiting?
    ensures WakeAll(f, ws) == f
  {
    if ws != [] { NotWaiting(f, ws[..|ws| - 1]); }
  }

  lemma ResultsNext(s: Core, fs: seq<Finish>)
    requires Announceable(s, fs) && fs != []
    ensures var k := |fs| - 1; var ws := Results(s, fs);
            && ws[..k] == Results(s, fs[..k]) && ws[k] == Result(s.rob[fs[k].0].op.rp, fs[k].2)
            && Regs(ws) == Regs(ws[..k]) + (if ws[k].reg != 0 then {ws[k].reg} else {})
  {
    var k, ws := |fs| - 1, Results(s, fs);
    RegsNext(ws, k);
    assert ws[..k + 1] == ws;
  }

  lemma AnnouncedNext(fs: seq<Finish>, n: nat)
    requires fs != []
    ensures Announced(fs, n) <==> Announced(fs[..|fs| - 1], n) || n == fs[|fs| - 1].0
  {
    var k := |fs| - 1;
    if Announced(fs, n) {
      var l :| 0 <= l < |fs| && fs[l].0 == n;
      if l < k { assert fs[..k][l].0 == n; }
    }
    if Announced(fs[..k], n) {
      var l :| 0 <= l < k && fs[..k][l].0 == n;
      assert fs[l].0 == n;
    }
  }

  /** They leave in the register file what its write ports store at once. */
  lemma {:induction false} AnnounceAllFile(s: Core, fs: seq<Finish>)
    requires Announceable(s, fs)
    ensures var n := AnnounceAll(s, fs); var ws := Results(s, fs);
            n.valid == s.valid + Regs(ws) && n.rf == Stored(s.rf, ws)
    decreases |fs|
  {
    if fs != [] {
      AnnounceAllFile(s, fs[..|fs| - 1]);
      ResultsNext(s, fs);
    }
  }

  /** ... and in the stations what the update ports leave. */
  lemma {:induction false} AnnounceAllRows(s: Core, fs: seq<Finish>, n: nat)
    requires Announceable(s, fs) && n < |s.ph|
    ensures !Announced(fs, n) ==> AnnounceAll(s, fs).ph[n] == WakeAll(s.ph[n], Results(s, fs))
    ensures forall k :: 0 <= k < |fs| && fs[k].0 == n ==> AnnounceAll(s, fs).ph[n] == Done(fs[k].1)
    decreases |fs|
  {
    if fs != [] {
      var j := |fs| - 1;
      AnnounceAllRows(s, fs[..j], n);
      ResultsNext(s, fs);
      AnnouncedNext(fs, n);
      forall k | 0 <= k < |fs| && fs[k].0 == n
        ensures AnnounceAll(s, fs).ph[n] == Done(fs[k].1)
      {
        if k < j { assert fs[..j][k] == fs[k]; }
      }
    }
  }

  /** Each of those steps is enabled: a finishing instruction is still executing when its turn
      comes. */
  lemma AnnounceEnabled(p: Params, s: Core, fs: seq<Finish>)
    requires Announceable(s, fs) && fs != []
    ensures var f := fs[|fs| - 1]; var t := AnnounceAll(s, fs[..|fs| - 1]);
            Enabled(p, t, Announce(f.0, f.1, f.2)) && AnnounceAll(s, fs) == Step(p, t, Announce(f.0, f.1, f.2))
  {
    var j := |fs| - 1;
    var f, t := fs[j], AnnounceAll(s, fs[..j]);
    AnnounceAllRows(s, fs[..j], f.0);
    assert !Announced(fs[..j], f.0);
    NotWaiting(s.ph[f.0], Results(s, fs[..j]));
    AnnounceStepIsStep(p, t, f.0, f.1, f.2);
  }

  predicate ForwardValid(s: Core, ws: seq<Result>, r: nat) {
    r == 0 || r in s.valid + Regs(ws)
  }

  /** One operand of a row built from a forwarding read in the cycle of the results `ws`. */
  function ForwardReg(s: Core, ws: seq<Result>, i: Instr, r: nat): nat {
    if ForwardValid(s, ws, r) || !LiveTag(s, i.tag) then 0 else r
  }

  function ForwardValue(s: Core, ws: seq<Result>, r: nat): int {
    if ForwardValid(s, ws, r) && r < |s.rf| && r != 0 then Stored(s.rf, ws)[r] else 0
  }

  /** An insertion in the cycle of announcements misses none of them: the row built from the
      forwarding reads is the one inserted after all announcements. */
  lemma SameCycleInsert(p: Params, s: Core, fs: seq<Finish>, i: nat)
    requires Announceable(s, fs) && i < |s.ph| && s.ph[i].Queued?
    requires |s.rf| > s.rob[i].s1 && |s.rf| > s.rob[i].s2
    ensures var t := AnnounceAll(s, fs); var ws := Results(s, fs); var e := s.rob[i];
            && Enabled(p, t, Insert(i))
            && Step(p, t, Insert(i)).ph[i]
               == Waiting(ForwardReg(s, ws, e, e.s1), ForwardValue(s, ws, e.s1),
                          ForwardReg(s, ws, e, e.s2), ForwardValue(s, ws, e.s2))
  {
    AnnounceAllFile(s, fs);
    AnnounceAllRows(s, fs, i);
    NotWaiting(s.ph[i], Results(s, fs));
    assert !Announced(fs, i);
  }

  // ---- reorder buffer ----

  /** `outcome`: finished, and whether with an exception. */
  datatype Entry<D> = Entry(data: D, outcome: Option<bool>)

  function SlotAt(start: nat, size: nat, j: nat): (i: nat)
    requires size > 0
    ensures i < size
  {
    (start + j) % size
  }

  class ReorderBuffer<D> {
    const size: nat
    var data: seq<D>          // the queue
    var start: nat            // slot of its first element
    const done: array<bool>
    const exception: array<bool>
    const pure: array<bool>
    const retireWidth: nat

    /** Slots behind the queue are not marked done. */
    ghost predicate Valid()
      reads this, done
    {
      && 1 < size == done.Length == exception.Length == pure.Length
      && done != exception && done != pure && exception != pure
      && |data| <= size && start < size
      && forall j :: |data| <= j < size ==> !done[SlotAt(start, size, j)]
    }

    function At(j: nat): Entry<D>
      reads this, done, exception
      requires size > 0 && done.Length == exception.Length == size && j < |data|
    {
      Entry(data[j], if done[SlotAt(start, size, j)] then Some(exception[SlotAt(start, size, j)]) else None)
    }

    ghost function View(): (v: seq<Entry<D>>)
      reads this, done, exception
      requires Valid()
    {
      seq(|data|, j requires 0 <= j < |data| reads this, done, exception => At(j))
    }

    lemma SlotsDiffer(i: nat, j: nat)
      requires 0 < size && i < size && j < size
      ensures SlotAt(start, size, i) == SlotAt(start, size, j) <==> i == j
    {
      if i <= j { ModInjective(start + i, start + j, size); } else { ModInjective(start + j, start + i, size); }
    }

    constructor (size: nat, retireWidth: nat)
      requires size > 1
      ensures Valid() && fresh(done) && fresh(exception) && fresh(pure) && View() == []
      ensures this.size == size && this.retireWidth == retireWidth && start == 0
      ensures forall i :: 0 <= i < size ==> !pure[i]
    {
      this.size, this.retireWidth := size, retireWidth;
      data, start := [], 0;
      done := new bool[size](_ => false);
      exception := new bool[size](_ => false);
      pure := new bool[size](_ => false);
    }

    /** New entries join unfinished; their identifiers are their slots. The purity bit is stored
        only for the first `retireWidth` of them: with a wider frontend the others keep the bit of
        an earlier owner of the slot. */
    method Put(entries: seq<D>, purity: seq<bool>) returns (ids: seq<nat>)
      requires Valid() && |data| + |entries| <= size && |purity| == |entries|
      modifies this`data, pure
      ensures Valid() && start == old(start)
      ensures View() == old(View()) + seq(|entries|, i requires 0 <= i < |entries| => Entry(entries[i], None))
      ensures |ids| == |entries| && forall i :: 0 <= i < |ids| ==> ids[i] == SlotAt(start, size, old(|data|) + i)
      ensures forall i :: 0 <= i < |ids| ==> pure[ids[i]] == if i < retireWidth then purity[i] else old(pure[ids[i]])
    {
      ids := seq(|entries|, i requires 0 <= i < |entries| reads this => SlotAt(start, size, |data| + i));
      var i := 0;
      while i < |entries| && i < retireWidth
        modifies pure
        invariant i <= |entries| && (i <= retireWidth || i == 0)
        invariant forall k :: 0 <= k < |ids| ==> pure[ids[k]] == if k < i then purity[k] else old(pure[ids[k]])
      {
        forall k: nat | k < |ids| && k != i ensures ids[k] != ids[i] { SlotsDiffer(|data| + k, |data| + i); }
        pure[ids[i]] := purity[i];
        i := i + 1;
      }
      data := data + entries;
    }

    /** The entry owning the identifier, and no other, becomes finished. */
    method MarkDone(id: nat, exc: bool, ghost j: nat)
      requires Valid() && j < |data| && id == SlotAt(start, size, j) && !done[id]
      modifies done, exception, pure
      ensures Valid() && View() == old(View())[j := Entry(data[j], Some(exc))]
      ensures pure[id] == !exc
    {
      forall i: nat | i < size && i != j
        ensures SlotAt(start, size, i) != id
      {
        SlotsDiffer(i, j);
      }
      done[id] := true;
      pure[id] := !exc;
      exception[id] := exc;
    }

    method Peek(width: nat) returns (front: seq<Entry<D>>)
      requires Valid()
      ensures front == View()[..if width < |data| then width else |data|]
    {
      var count := if width < |data| then width else |data|;
      front := seq(count, j requires 0 <= j < count <= |data| && size > 0 && done.Length == exception.Length == size
                            reads this, done, exception => At(j));
    }

    /** Finished entries leave from the front, and their slots are ready for reuse. */
    method Retire(count: nat)
      requires Valid() && count <= |data|
      requires forall j :: 0 <= j < count ==> View()[j].outcome.Some?
      modifies this`data, this`start, done
      ensures Valid() && View() == old(View())[count..]
    {
      var i := 0;
      while i < count
        modifies done
        invariant i <= count
        invariant forall j :: 0 <= j < i ==> !done[SlotAt(start, size, j)]
        invariant forall j :: i <= j < size ==> done[SlotAt(start, size, j)] == old(done[SlotAt(start, size, j)])
      {
        forall j: nat | j < size && j != i
          ensures SlotAt(start, size, j) != SlotAt(start, size, i)
        {
          SlotsDiffer(i, j);
        }
        done[SlotAt(start, size, i)] := false;
        i := i + 1;
      }
      Drop(count);
    }

    method Drop(count: nat)
      requires 1 < size == done.Length == exception.Length == pure.Length && start < size && count <= |data| <= size
      requires done != exception && done != pure && exception != pure
      requires forall j :: 0 <= j < count || |data| <= j < size ==> !done[SlotAt(start, size, j)]
      modifies this`data, this`start
      ensures Valid() && |data| == old(|data|) - count
      ensures forall j :: 0 <= j < |data| ==> At(j) == old(At(j + count))
    {
      hide SlotAt;
      forall j: nat | j < size
        ensures SlotAt(SlotAt(start, size, count), size, j) == SlotAt(start, size, Wrapped(j + count, size))
      {
        Rotate(start, count, j, size);
      }
      data := data[count..];
      start := SlotAt(start, size, count);
    }
  }

  function Wrapped(j: nat, size: nat): nat {
    if j < size then j else j - size
  }

  /** Moving the start moves every position. */
  lemma Rotate(s: nat, count: nat, j: nat, n: nat)
    requires s < n && count <= n && j < n
    ensures SlotAt(SlotAt(s, n, count), n, j) == SlotAt(s, n, Wrapped(j + count, n))
  {
    if count == n {
      ModAddN(s, n);
    } else {
      ModShift(s, count, n);
    }
    SmallMod(s, n);
    var r := (s + count) % n;
    SmallMod(r, n);
    ModShift(r, j, n);
    ModShift(s, Wrapped(j + count, n), n);
  }

  /** With a frontend wider than retirement a purity bit is lost: of two pure entries put at once
      under a retirement width of one, the second is stored as impure. */
  method PurityLost() returns (stored: bool, given: bool)
    ensures given && !stored
  {
    var b := new ReorderBuffer<nat>(2, 1);
    given := true;
    assert b.pure[0] == b.pure[1] == false;
    SmallMod(0, 2);
    SmallMod(1, 2);
    var ids := b.Put([0, 0], [true, given]);
    stored := b.pure[ids[1]];
  }
}
