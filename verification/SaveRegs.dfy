// Saving the caller's registers around a call, and restoring them.
// src/Compiler/Emitter.c, src/PVM/PVM.c
module SaveRegs {
  import opened Words
  import opened Isa
  import opened Machine

  // A register of one of the two files.
  datatype Cell = Cell(flt: bool, r: reg)

  function Get(d: Data, c: Cell): u64 { BankOf(d, c.flt)[c.r] }

  const STACK_POINTER := Cell(false, SP)

  // ---- pushing and popping in a given order --------------------------------------------

  function PushAll(d: Data, cs: seq<Cell>): Data {
    if |cs| == 0 then d else
    var e := PushAll(d, cs[..|cs| - 1]);
    Push(e, Get(e, cs[|cs| - 1]))
  }

  function PopInto(d: Data, c: Cell): Data {
    var (p, v) := Pop(d);
    SetBank(p, c.flt, c.r, v)
  }

  function PopAll(d: Data, cs: seq<Cell>): Data {
    if |cs| == 0 then d else PopInto(PopAll(d, cs[..|cs| - 1]), cs[|cs| - 1])
  }

  // The `k`th cell pushed above `sp`.
  function SlotAt(sp: int, k: int): int { sp + 8 * k + 8 }

  predicate Distinct(cs: seq<Cell>) {
    forall i, j :: 0 <= i < j < |cs| ==> cs[i] != cs[j]
  }

  // What a push of `cs` leaves: the registers, and each one's value on the stack.
  lemma {:induction false} PushValue(d: Data, cs: seq<Cell>)
    requires STACK_POINTER !in cs && d.R[SP] + 8 * |cs| < TWO64
    ensures var e := PushAll(d, cs);
            && e.F == d.F && e.R == d.R[SP := d.R[SP] + 8 * |cs|]
            && e.cond == d.cond && e.frames == d.frames && e.left == d.left
            && forall k :: 0 <= k < |cs| ==> Load64(e.mem, SlotAt(d.R[SP], k)) == Get(d, cs[k])
    decreases |cs|
  {
    hide Load64;
    hide Store64;
    if |cs| > 0 {
      var n := |cs| - 1;
      var front := cs[..n];
      PushValue(d, front);
      var e := PushAll(d, front);
      var f := PushAll(d, cs);
      var sp := d.R[SP] + 8 * n + 8;
      assert cs[n] != STACK_POINTER;
      forall k | 0 <= k < |cs|
        ensures Load64(f.mem, SlotAt(d.R[SP], k)) == Get(d, cs[k])
      {
        LoadStore64(e.mem, sp, Get(e, cs[n]), SlotAt(d.R[SP], k));
        if k < n { assert front[k] == cs[k]; }
      }
    }
  }

  // The `k`th cell popped from `sp`.
  function TopAt(sp: int, k: int): int { sp - 8 * k }

  lemma {:induction false} PopEffect(d: Data, cs: seq<Cell>)
    requires STACK_POINTER !in cs && d.R[SP] >= 8 * |cs|
    ensures var e := PopAll(d, cs);
            && e.R[SP] == d.R[SP] - 8 * |cs| && e.mem == d.mem
            && e.cond == d.cond && e.frames == d.frames && e.left == d.left
            && (forall c: Cell :: c !in cs && c != STACK_POINTER ==> Get(e, c) == Get(d, c))
    decreases |cs|
  {
    hide Load64;
    if |cs| > 0 {
      var n := |cs| - 1;
      PopEffect(d, cs[..n]);
      assert cs[n] != STACK_POINTER;
    }
  }

  // Where the values popped come from.
  lemma {:induction false} PopValue(d: Data, cs: seq<Cell>)
    requires STACK_POINTER !in cs && d.R[SP] >= 8 * |cs| && Distinct(cs)
    ensures var e := PopAll(d, cs);
            forall k :: 0 <= k < |cs| ==> Get(e, cs[k]) == Load64(d.mem, TopAt(d.R[SP], k))
    decreases |cs|
  {
    hide Load64;
    if |cs| > 0 {
      var n := |cs| - 1;
      var front := cs[..n];
      PopEffect(d, front);
      assert Distinct(front);
      PopValue(d, front);
      var e := PopAll(d, front);
      var f := PopAll(d, cs);
      assert cs[n] != STACK_POINTER;
      forall k | 0 <= k < |cs|
        ensures Get(f, cs[k]) == Load64(d.mem, TopAt(d.R[SP], k))
      {
        if k < n { assert front[k] == cs[k]; }
      }
    }
  }

  function Reversed(cs: seq<Cell>): (r: seq<Cell>)
    ensures |r| == |cs| && forall k :: 0 <= k < |cs| ==> r[k] == cs[|cs| - 1 - k]
  {
    if |cs| == 0 then [] else [cs[|cs| - 1]] + Reversed(cs[..|cs| - 1])
  }

  // ---- register lists --------------------------------------------------------------------------

  // The registers PUSH_MULTIPLE pushes, in its order.
  function PushOrder(flt: bool, list: u8, i: nat, top: nat): seq<Cell>
    requires i <= top <= 16
    decreases top - i
  {
    if list == 0 || i == top then []
    else (if list % 2 == 1 then [Cell(flt, i)] else []) + PushOrder(flt, list / 2, i + 1, top)
  }

  // The registers POP_MULTIPLE pops into, in its order.
  function PopOrder(flt: bool, list: u8, i: nat, base: nat, repaired: bool): seq<Cell>
    requires base <= i <= base + 8
    decreases base + 8 - i
  {
    if list == 0 || i == base + 8 then []
    else (if list >= 0x80 then [Cell(flt, PopIndex(base, i, repaired))] else []) + PopOrder(flt, list * 2 % 0x100, i + 1, base, repaired)
  }

  lemma {:induction false} PushAppend(d: Data, a: seq<Cell>, b: seq<Cell>)
    ensures PushAll(d, a + b) == PushAll(PushAll(d, a), b)
    decreases |b|
  {
    hide Push;
    if |b| == 0 {
      assert a + b == a;
    } else {
      assert (a + b)[..|a + b| - 1] == a + b[..|b| - 1];
      PushAppend(d, a, b[..|b| - 1]);
    }
  }

  lemma {:induction false} PopAppend(d: Data, a: seq<Cell>, b: seq<Cell>)
    ensures PopAll(d, a + b) == PopAll(PopAll(d, a), b)
    decreases |b|
  {
    hide PopInto;
    if |b| == 0 {
      assert a + b == a;
    } else {
      assert (a + b)[..|a + b| - 1] == a + b[..|b| - 1];
      PopAppend(d, a, b[..|b| - 1]);
    }
  }

  lemma {:induction false} PushesInOrder(d: Data, flt: bool, list: u8, i: nat, top: nat)
    requires i <= top <= 16
    ensures PushMultiple(d, flt, list, i, top) == PushAll(d, PushOrder(flt, list, i, top))
    decreases top - i
  {
    hide *;
    PushStep(d, flt, list, i, top);
    if list != 0 && i != top {
      var rest := PushOrder(flt, list / 2, i + 1, top);
      if list % 2 == 1 {
        var c := Cell(flt, i);
        PushOne(d, c);
        PushAppend(d, [c], rest);
        PushesInOrder(Push(d, Get(d, c)), flt, list / 2, i + 1, top);
      } else {
        PushesInOrder(d, flt, list / 2, i + 1, top);
      }
    }
  }

  lemma PushStep(d: Data, flt: bool, list: u8, i: nat, top: nat)
    requires i <= top <= 16
    ensures PushAll(d, []) == d
    ensures list == 0 || i == top ==> PushMultiple(d, flt, list, i, top) == d && PushOrder(flt, list, i, top) == []
    ensures list != 0 && i != top ==>
              var c := Cell(flt, i);
              var rest := PushOrder(flt, list / 2, i + 1, top);
              var e := if list % 2 == 1 then Push(d, Get(d, c)) else d;
              && PushMultiple(d, flt, list, i, top) == PushMultiple(e, flt, list / 2, i + 1, top)
              && PushOrder(flt, list, i, top) == if list % 2 == 1 then [c] + rest else rest
  {
    hide Push;
  }

  lemma PushOne(d: Data, c: Cell)
    ensures PushAll(d, [c]) == Push(d, Get(d, c))
  {
    assert [c][..0] == [];
  }

  lemma {:induction false} PopsInOrder(d: Data, flt: bool, list: u8, i: nat, base: nat, repaired: bool)
    requires base <= i <= base + 8
    ensures PopMultiple(d, flt, list, i, base, repaired) == PopAll(d, PopOrder(flt, list, i, base, repaired))
    decreases base + 8 - i
  {
    if list != 0 && i != base + 8 {
      var next := list * 2 % 0x100;
      var rest := PopOrder(flt, next, i + 1, base, repaired);
      if list >= 0x80 {
        var c := Cell(flt, PopIndex(base, i, repaired));
        PopOne(d, c);
        hide PopInto;
        PopAppend(d, [c], rest);
        PopsInOrder(PopAll(d, [c]), flt, next, i + 1, base, repaired);
      } else {
        PopsInOrder(d, flt, next, i + 1, base, repaired);
        assert [] + rest == rest;
      }
    }
  }

  lemma PopOne(d: Data, c: Cell)
    ensures PopAll(d, [c]) == PopInto(d, c)
  {
    assert [c][..0] == [];
  }

  // ---- the bits of a list, from either end -------------------------------------------------------

  function Pow2(n: nat): (p: nat)
    ensures p > 0
  {
    if n == 0 then 1 else 2 * Pow2(n - 1)
  }

  function Ascending(flt: bool, x: nat, n: nat, base: nat): seq<Cell>
    requires base + n <= 16
    decreases n
  {
    if n == 0 then [] else (if x % 2 == 1 then [Cell(flt, base)] else []) + Ascending(flt, x / 2, n - 1, base + 1)
  }

  function Descending(flt: bool, x: nat, n: nat, base: nat): seq<Cell>
    requires base + n <= 16
    decreases n
  {
    if n == 0 then []
    else (if x >= Pow2(n - 1) then [Cell(flt, base + n - 1)] else []) + Descending(flt, x % Pow2(n - 1), n - 1, base)
  }

  // Taking the top bit off.
  lemma {:induction false} TopBit(flt: bool, x: nat, n: nat, base: nat)
    requires 0 < n && base + n <= 16 && x < Pow2(n)
    ensures Ascending(flt, x, n, base) ==
            Ascending(flt, x % Pow2(n - 1), n - 1, base) + if x >= Pow2(n - 1) then [Cell(flt, base + n - 1)] else []
    decreases n
  {
    if n > 1 {
      TopBit(flt, x / 2, n - 1, base + 1);
      HalfMod(x, Pow2(n - 2));
    }
  }

  lemma HalfMod(x: nat, p: nat)
    requires p > 0
    ensures x % (2 * p) / 2 == x / 2 % p && x % (2 * p) % 2 == x % 2
  {
    var q, m := x / 2 / p, x / 2 % p;
    assert x == 2 * (x / 2) + x % 2 && x / 2 == q * p + m;
    assert x == q * (2 * p) + (2 * m + x % 2) by {
      assert 2 * (q * p) == q * (2 * p);
    }
    ModUnique(x, 2 * p, q, 2 * m + x % 2);
  }

  lemma {:induction false} DescendingReverses(flt: bool, x: nat, n: nat, base: nat)
    requires base + n <= 16 && x < Pow2(n)
    ensures Descending(flt, x, n, base) == Reversed(Ascending(flt, x, n, base))
    decreases n
  {
    if n > 0 {
      var low := Ascending(flt, x % Pow2(n - 1), n - 1, base);
      var top := if x >= Pow2(n - 1) then [Cell(flt, base + n - 1)] else [];
      TopBit(flt, x, n, base);
      DescendingReverses(flt, x % Pow2(n - 1), n - 1, base);
      hide Ascending;
      hide Descending;
      hide Pow2;
      hide Reversed;
      ReversedAppend(low, top);
      ReversedShort(top);
    }
  }

  lemma ReversedShort(top: seq<Cell>)
    requires |top| <= 1
    ensures Reversed(top) == top
  {
  }

  lemma {:induction false} PushOrderAscends(flt: bool, list: u8, i: nat, top: nat)
    requires i <= top <= 16
    ensures PushOrder(flt, list, i, top) == Ascending(flt, list, top - i, i)
    decreases top - i
  {
    if i < top { PushOrderAscends(flt, list / 2, i + 1, top); }
  }

  lemma {:induction false} PopOrderDescends(flt: bool, list: u8, x: nat, p: nat, j: nat, base: nat)
    requires j <= 8 && base + 8 <= 16 && x < Pow2(8 - j) && p == Pow2(j) && list == x * p
    ensures PopOrder(flt, list, base + j, base, true) == Descending(flt, x, 8 - j, base)
    decreases 8 - j
  {
    PowSplit(j);
    if j < 8 {
      var r := Pow2(7 - j);
      assert Pow2(8 - j) == 2 * r && Pow2(j + 1) == 2 * p;
      hide Pow2;
      ShiftOut(list, x, p, r);
      PopOrderDescends(flt, list * 2 % 0x100, x % r, 2 * p, j + 1, base);
      PopStep(flt, list, j, base);
    }
  }

  lemma PopStep(flt: bool, list: u8, j: nat, base: nat)
    requires j < 8 && base + 8 <= 16
    ensures PopOrder(flt, list, base + j, base, true) ==
            (if list >= 0x80 then [Cell(flt, base + 7 - j)] else [])
            + PopOrder(flt, list * 2 % 0x100, base + j + 1, base, true)
  {
  }

  lemma PowSplit(j: nat)
    requires j <= 8
    ensures Pow2(j) * Pow2(8 - j) == 0x100 && (j < 8 ==> Pow2(j) * Pow2(7 - j) == 0x80)
  {
    assert Pow2(1) == 2 && Pow2(2) == 4 && Pow2(3) == 8 && Pow2(4) == 0x10;
    assert Pow2(5) == 0x20 && Pow2(6) == 0x40 && Pow2(7) == 0x80 && Pow2(8) == 0x100;
  }

  // Shifting a list left by one drops its top bit.
  lemma ShiftOut(list: u8, x: nat, p: nat, r: nat)
    requires list == x * p && p > 0 && r > 0 && p * r == 0x80 && x < 2 * r
    ensures list >= 0x80 <==> x >= r
    ensures list * 2 % 0x100 == x % r * (2 * p)
  {
    var b, y := if x >= r then 1 else 0, if x >= r then x - r else x;
    ModUnique(x, r, b, y);
    var w := y * p;
    assert list == b * 0x80 + w;
    ModUnique(list * 2, 0x100, b, w * 2);
  }

  // ---- the instructions around a call ----------------------------------------------------------

  // The four bytes of a register list: R0-R7, R8-R15, F0-F7, F8-F15.
  datatype Lists = Lists(lo: u8, hi: u8, flo: u8, fhi: u8)

  // One instruction, if its byte is not zero, as the machine executes it.
  function Exec(d: Data, op: u8, list: u8): Data {
    if list == 0 then d
    else match PlainEffect(op, list / 0x10, list % 0x10, d)
      case Some(e) => e
      case None => d
  }

  // PVMEmitPushRegList, executed
  function Save(d: Data, b: Lists): Data {
    Exec(Exec(Exec(Exec(d, PSHL, b.lo), PSHH, b.hi), FPSHL, b.flo), FPSHH, b.fhi)
  }

  // PVMEmitUnsaveCallerRegs, executed: the pops come in the order of the pushes,
  // and those of the high halves go to the low ones.
  function Restore(d: Data, b: Lists): Data {
    Exec(Exec(Exec(Exec(d, POPL, b.lo), POPH, b.hi), FPOPL, b.flo), FPOPH, b.fhi)
  }

  // Pops in the opposite order, each into the register whose bit is tested.
  function RestoreRepaired(d: Data, b: Lists): Data {
    var d1 := PopMultiple(d, true, b.fhi, 8, 8, true);
    var d2 := PopMultiple(d1, true, b.flo, 0, 0, true);
    var d3 := PopMultiple(d2, false, b.hi, 8, 8, true);
    PopMultiple(d3, false, b.lo, 0, 0, true)
  }

  function Cells(b: Lists): seq<Cell> {
    Ascending(false, b.lo, 8, 0) + Ascending(false, b.hi, 8, 8) + Ascending(true, b.flo, 8, 0) + Ascending(true, b.fhi, 8, 8)
  }

  lemma SavePushes(d: Data, b: Lists)
    ensures Save(d, b) == PushAll(d, Cells(b))
  {
    var c1, c2 := Ascending(false, b.lo, 8, 0), Ascending(false, b.hi, 8, 8);
    var c3, c4 := Ascending(true, b.flo, 8, 0), Ascending(true, b.fhi, 8, 8);
    ExecPushes(d, false, b.lo, 0);
    var d1 := PushAll(d, c1);
    ExecPushes(d1, false, b.hi, 8);
    var d2 := PushAll(d1, c2);
    ExecPushes(d2, true, b.flo, 0);
    var d3 := PushAll(d2, c3);
    ExecPushes(d3, true, b.fhi, 8);
    hide Exec;
    hide PushAll;
    PushAppend(d, c1, c2);
    PushAppend(d, c1 + c2, c3);
    PushAppend(d, c1 + c2 + c3, c4);
  }

  function PushOp(flt: bool, base: nat): u8 {
    if flt then (if base == 0 then FPSHL else FPSHH) else if base == 0 then PSHL else PSHH
  }

  function PopOp(flt: bool, base: nat): u8 {
    if flt then (if base == 0 then FPOPL else FPOPH) else if base == 0 then POPL else POPH
  }

  lemma ExecPushes(d: Data, flt: bool, list: u8, base: nat)
    requires base == 0 || base == 8
    ensures Exec(d, PushOp(flt, base), list) == PushAll(d, Ascending(flt, list, 8, base))
  {
    hide PushMultiple;
    hide PushAll;
    hide Ascending;
    hide PushOrder;
    PushesInOrder(d, flt, list, base, base + 8);
    PushOrderAscends(flt, list, base, base + 8);
    assert list / 0x10 * 0x10 + list % 0x10 == list;
    NothingPushed(d, flt, base);
  }

  lemma NothingPushed(d: Data, flt: bool, base: nat)
    requires base == 0 || base == 8
    ensures PushMultiple(d, flt, 0, base, base + 8) == d
  {
  }

  lemma ExecPops(d: Data, flt: bool, list: u8, base: nat)
    requires base == 0 || base == 8
    ensures Exec(d, PopOp(flt, base), list) == PopAll(d, PopOrder(flt, list, base, base, false))
  {
    hide PopMultiple;
    hide PopAll;
    hide PopOrder;
    PopsInOrder(d, flt, list, base, base, false);
    assert list / 0x10 * 0x10 + list % 0x10 == list;
    NothingPopped(d, flt, base);
  }

  lemma NothingPopped(d: Data, flt: bool, base: nat)
    requires base == 0 || base == 8
    ensures PopMultiple(d, flt, 0, base, base, false) == d
  {
  }

  // ---- which cells a list holds --------------------------------------------------------------------

  lemma {:induction false} InRange(flt: bool, x: nat, n: nat, m: nat, base: nat)
    requires base + n <= 16 && m <= n && x < Pow2(m)
    ensures forall c :: c in Ascending(flt, x, n, base) ==> c.flt == flt && base <= c.r < base + m
    ensures Distinct(Ascending(flt, x, n, base))
    ensures x > 0 ==> |Ascending(flt, x, n, base)| > 0
    ensures |Ascending(flt, x, n, base)| <= n
    decreases n
  {
    if n > 0 {
      InRange(flt, x / 2, n - 1, if m > 0 then m - 1 else 0, base + 1);
    }
  }

  lemma Pow2At()
    ensures Pow2(5) == 0x20 && Pow2(8) == 0x100
  {
    assert Pow2(1) == 2 && Pow2(2) == 4 && Pow2(3) == 8 && Pow2(4) == 0x10 && Pow2(6) == 0x40 && Pow2(7) == 0x80;
  }

  // The emitter never lists GP, FP or SP.
  predicate Savable(b: Lists) { b.hi < 0x20 }

  lemma DistinctAppend(a: seq<Cell>, b: seq<Cell>)
    requires Distinct(a) && Distinct(b) && forall c :: c in a ==> c !in b
    ensures Distinct(a + b)
  {
    var s := a + b;
    forall i, j | 0 <= i < j < |s|
      ensures s[i] != s[j]
    {
      if i < |a| { assert s[i] in a; }
      if j >= |a| { assert s[j] in b; }
    }
  }

  lemma CellsAreApart(b: Lists)
    requires Savable(b)
    ensures Distinct(Cells(b)) && STACK_POINTER !in Cells(b) && |Cells(b)| <= 32
  {
    Pow2At();
    InRange(false, b.lo, 8, 8, 0);
    InRange(false, b.hi, 8, 5, 8);
    InRange(true, b.flo, 8, 8, 0);
    InRange(true, b.fhi, 8, 8, 8);
    hide Ascending;
    hide Pow2;
    hide Distinct;
    var c1, c2 := Ascending(false, b.lo, 8, 0), Ascending(false, b.hi, 8, 8);
    var c3, c4 := Ascending(true, b.flo, 8, 0), Ascending(true, b.fhi, 8, 8);
    DistinctAppend(c1, c2);
    DistinctAppend(c1 + c2, c3);
    DistinctAppend(c1 + c2 + c3, c4);
  }

  // ---- the call in between ----------------------------------------------------------------------------

  // The callee gives SP back and leaves the `n` saved cells above `sp` alone.
  predicate CalleeKeeps(saved: Data, e: Data, sp: u64, n: nat) { e.R[SP] == saved.R[SP] && CellsKept(saved, e, sp, n) }

  // What was pushed still is where it was.
  predicate CellsKept(saved: Data, e: Data, sp: u64, n: nat) {
    forall k :: 0 <= k < n ==> Load64(e.mem, SlotAt(sp, k)) == Load64(saved.mem, SlotAt(sp, k))
  }

  // From `d`, the registers saved, a call made that ends with `e`.
  predicate Calls(d: Data, b: Lists, e: Data) {
    d.R[SP] + 8 * 32 < TWO64 && CalleeKeeps(Save(d, b), e, d.R[SP], |Cells(b)|)
  }

  // SP and the registers listed are as before the call, the others as the callee
  // left them.
  ghost predicate BackAgain(d: Data, b: Lists, e: Data, f: Data) {
    && f.R[SP] == d.R[SP] && f.mem == e.mem
    && (forall c :: c in Cells(b) ==> Get(f, c) == Get(d, c))
    && (forall c: Cell :: c !in Cells(b) && c != STACK_POINTER ==> Get(f, c) == Get(e, c))
  }

  lemma {:induction false} ReversedAppend(a: seq<Cell>, b: seq<Cell>)
    ensures Reversed(a + b) == Reversed(b) + Reversed(a)
    decreases |b|
  {
    if |b| == 0 {
      assert a + b == a;
    } else {
      assert (a + b)[..|a + b| - 1] == a + b[..|b| - 1];
      ReversedAppend(a, b[..|b| - 1]);
    }
  }

  lemma PopsReversed(d: Data, flt: bool, list: u8, base: nat)
    requires base == 0 || base == 8
    ensures PopMultiple(d, flt, list, base, base, true) == PopAll(d, Reversed(Ascending(flt, list, 8, base)))
  {
    Pow2At();
    hide PopMultiple;
    hide PopAll;
    hide PopOrder;
    hide Ascending;
    hide Descending;
    PopsInOrder(d, flt, list, base, base, true);
    assert Pow2(0) == 1;
    PopOrderDescends(flt, list, list, 1, 0, base);
    DescendingReverses(flt, list, 8, base);
  }

  lemma RepairedPops(d: Data, b: Lists)
    ensures RestoreRepaired(d, b) == PopAll(d, Reversed(Cells(b)))
  {
    var c1, c2 := Ascending(false, b.lo, 8, 0), Ascending(false, b.hi, 8, 8);
    var c3, c4 := Ascending(true, b.flo, 8, 0), Ascending(true, b.fhi, 8, 8);
    hide PopMultiple;
    hide PopAll;
    hide Ascending;
    hide Reversed;
    PopsReversed(d, true, b.fhi, 8);
    var d1 := PopAll(d, Reversed(c4));
    PopsReversed(d1, true, b.flo, 0);
    var d2 := PopAll(d1, Reversed(c3));
    PopsReversed(d2, false, b.hi, 8);
    var d3 := PopAll(d2, Reversed(c2));
    PopsReversed(d3, false, b.lo, 0);
    ReversedAppend(c1, c2);
    ReversedAppend(c1 + c2, c3);
    ReversedAppend(c1 + c2 + c3, c4);
    var r1, r2, r3 := Reversed(c1), Reversed(c2), Reversed(c3);
    PopAppend(d, Reversed(c4), r3 + (r2 + r1));
    PopAppend(d1, r3, r2 + r1);
    PopAppend(d2, r2, r1);
  }

  // Popping what was pushed, last first.
  lemma PopsBack(d: Data, cs: seq<Cell>, e: Data)
    requires Distinct(cs) && STACK_POINTER !in cs && d.R[SP] + 8 * |cs| < TWO64
    requires CalleeKeeps(PushAll(d, cs), e, d.R[SP], |cs|)
    ensures var f := PopAll(e, Reversed(cs));
            && f.R[SP] == d.R[SP] && f.mem == e.mem
            && (forall k :: 0 <= k < |cs| ==> Get(f, cs[k]) == Get(d, cs[k]))
            && (forall c: Cell :: c !in cs && c != STACK_POINTER ==> Get(f, c) == Get(e, c))
  {
    hide Load64;
    hide PopAll;
    hide PushAll;
    hide Reversed;
    hide Distinct;
    hide Get;
    var n, rs := |cs|, Reversed(cs);
    PushValue(d, cs);
    ReversedDistinct(cs);
    PopEffect(e, rs);
    PopValue(e, rs);
    var f := PopAll(e, rs);
    forall k | 0 <= k < n
      ensures Get(f, cs[k]) == Get(d, cs[k])
    {
      assert rs[n - 1 - k] == cs[k];
      assert TopAt(e.R[SP], n - 1 - k) == SlotAt(d.R[SP], k);
    }
  }

  lemma ReversedDistinct(cs: seq<Cell>)
    ensures Distinct(cs) ==> Distinct(Reversed(cs))
    ensures forall c :: c in Reversed(cs) <==> c in cs
  {
    var rs := Reversed(cs);
    forall c | c in cs
      ensures c in rs
    {
      var k :| 0 <= k < |cs| && cs[k] == c;
      assert rs[|cs| - 1 - k] == c;
    }
  }

  lemma PopsWhatWasPushed(d: Data, b: Lists, e: Data)
    requires Savable(b) && Calls(d, b, e)
    ensures BackAgain(d, b, e, PopAll(e, Reversed(Cells(b))))
  {
    CellsAreApart(b);
    SavePushes(d, b);
    hide Cells;
    hide Save;
    hide PushAll;
    hide PopAll;
    hide Reversed;
    hide CalleeKeeps;
    hide Distinct;
    hide Get;
    PopsBack(d, Cells(b), e);
  }

  // With both repairs, saving and restoring is the identity on every list.
  lemma RepairedRestores(d: Data, b: Lists, e: Data)
    requires Savable(b) && Calls(d, b, e)
    ensures BackAgain(d, b, e, RestoreRepaired(e, b))
  {
    hide *;
    PopsWhatWasPushed(d, b, e);
    RepairedPops(e, b);
  }

  // ---- as written ----------------------------------------------------------------------------------------

  // Everything listed is in R0-R7, or everything in F0-F7.
  predicate OneLowHalf(b: Lists) { b.hi == 0 && b.fhi == 0 && (b.lo == 0 || b.flo == 0) }

  function PoppedCells(b: Lists): seq<Cell> {
    PopOrder(false, b.lo, 0, 0, false) + PopOrder(false, b.hi, 8, 8, false)
    + PopOrder(true, b.flo, 0, 0, false) + PopOrder(true, b.fhi, 8, 8, false)
  }

  lemma RestorePops(d: Data, b: Lists)
    ensures Restore(d, b) == PopAll(d, PoppedCells(b))
  {
    var c1, c2 := PopOrder(false, b.lo, 0, 0, false), PopOrder(false, b.hi, 8, 8, false);
    var c3, c4 := PopOrder(true, b.flo, 0, 0, false), PopOrder(true, b.fhi, 8, 8, false);
    ExecPops(d, false, b.lo, 0);
    var d1 := PopAll(d, c1);
    ExecPops(d1, false, b.hi, 8);
    var d2 := PopAll(d1, c2);
    ExecPops(d2, true, b.flo, 0);
    var d3 := PopAll(d2, c3);
    ExecPops(d3, true, b.fhi, 8);
    hide Exec;
    hide PopAll;
    hide PopOrder;
    PopAppend(d, c1, c2);
    PopAppend(d, c1 + c2, c3);
    PopAppend(d, c1 + c2 + c3, c4);
  }

  lemma IndexLow(base: nat, i: nat)
    requires base <= i < base + 8 && (base == 0 || base == 8)
    ensures PopIndex(base, i, false) < 8
  {
  }

  // Only R0-R7 and F0-F7 are ever popped into.
  lemma {:induction false} PopsLow(flt: bool, list: u8, i: nat, base: nat)
    requires base <= i <= base + 8 && (base == 0 || base == 8)
    ensures forall c :: c in PopOrder(flt, list, i, base, false) ==> c.flt == flt && c.r < 8
    ensures |PopOrder(flt, list, i, base, false)| <= base + 8 - i
    decreases base + 8 - i
  {
    if list != 0 && i < base + 8 {
      var next := list * 2 % 0x100;
      PopsLow(flt, next, i + 1, base);
      IndexLow(base, i);
      hide PopIndex;
      assert PopOrder(flt, list, i, base, false) ==
        (if list >= 0x80 then [Cell(flt, PopIndex(base, i, false))] else []) + PopOrder(flt, next, i + 1, base, false);
      hide PopOrder;
    }
  }

  lemma {:induction false} LowIndexRight(flt: bool, list: u8, i: nat)
    requires i <= 8
    ensures PopOrder(flt, list, i, 0, false) == PopOrder(flt, list, i, 0, true)
    decreases 8 - i
  {
    if i < 8 { LowIndexRight(flt, list * 2 % 0x100, i + 1); }
  }

  lemma LowPopsReversed(flt: bool, list: u8)
    ensures PopOrder(flt, list, 0, 0, false) == Reversed(Ascending(flt, list, 8, 0))
  {
    Pow2At();
    hide PopOrder;
    hide Ascending;
    hide Descending;
    assert Pow2(0) == 1;
    LowIndexRight(flt, list, 0);
    PopOrderDescends(flt, list, list, 1, 0, 0);
    DescendingReverses(flt, list, 8, 0);
  }

  lemma {:induction false} NoneAscend(flt: bool, n: nat, base: nat)
    requires base + n <= 16
    ensures Ascending(flt, 0, n, base) == []
    decreases n
  {
    if n > 0 { NoneAscend(flt, n - 1, base + 1); }
  }

  lemma NoCells(flt: bool, list: u8, base: nat)
    requires (base == 0 || base == 8) && list == 0
    ensures Ascending(flt, list, 8, base) == [] && PopOrder(flt, list, base, base, false) == []
  {
    NoneAscend(flt, 8, base);
  }

  lemma LowHalfRestores(d: Data, b: Lists, e: Data)
    requires Savable(b) && Calls(d, b, e) && OneLowHalf(b)
    ensures BackAgain(d, b, e, Restore(e, b))
  {
    OneLowHalfMeans(b);
    hide *;
    PopsWhatWasPushed(d, b, e);
    RestorePops(e, b);
    OnlyLowHalves(b);
    if b.lo == 0 {
      NoCells(false, b.lo, 0);
    } else {
      NoCells(true, b.flo, 0);
    }
    assert PoppedCells(b) == Reversed(Cells(b));
  }

  lemma OneLowHalfMeans(b: Lists)
    requires OneLowHalf(b)
    ensures b.hi == 0 && b.fhi == 0 && (b.lo == 0 || b.flo == 0)
  {
  }

  // A machine whose integer registers are 0 and float registers 1.
  function Marked(sp: u64): Data {
    Data(seq(16, i => if i == SP then sp else 0), seq(16, _ => 1), false, map[], [], 0)
  }

  lemma PoppedCellsAreLow(b: Lists)
    ensures forall c :: c in PoppedCells(b) ==> c.r < 8
    ensures |PoppedCells(b)| <= 32
  {
    PopsLow(false, b.lo, 0, 0);
    PopsLow(false, b.hi, 8, 8);
    PopsLow(true, b.flo, 0, 0);
    PopsLow(true, b.fhi, 8, 8);
    hide PopOrder;
  }

  // A high register listed and changed by the callee stays changed.
  lemma HighStaysChanged(b: Lists, c: Cell) returns (d: Data, e: Data)
    requires Savable(b) && c in Cells(b) && c.r >= 8
    ensures Calls(d, b, e) && !BackAgain(d, b, e, Restore(e, b))
  {
    d := Marked(1000);
    MarkedCells(STACK_POINTER);
    CellsAreApart(b);
    assert c != STACK_POINTER;
    hide *;
    e := SetBank(Save(d, b), c.flt, c.r, 7);
    MarkedCells(c);
    ChangedCell(d, b, c, 7);
    RestorePops(e, b);
    PoppedCellsAreLow(b);
    PopEffect(e, PoppedCells(b));
  }

  lemma ChangedCell(d: Data, b: Lists, c: Cell, v: u64)
    requires d.R[SP] == 1000 && c != STACK_POINTER && Savable(b)
    ensures var e := SetBank(Save(d, b), c.flt, c.r, v);
            Calls(d, b, e) && Get(e, c) == v && e.R[SP] >= 1000 && STACK_POINTER !in PoppedCells(b)
  {
    CellsAreApart(b);
    PoppedCellsAreLow(b);
    SavePushes(d, b);
    hide Cells;
    hide PoppedCells;
    hide Distinct;
    hide Load64;
    hide Store64;
    PushValue(d, Cells(b));
    hide Save;
    hide PushAll;
    KeptMemory(d, b, SetBank(Save(d, b), c.flt, c.r, v));
    hide Calls;
  }

  // Whoever leaves SP and memory alone leaves the saved cells alone.
  lemma KeptMemory(d: Data, b: Lists, e: Data)
    requires d.R[SP] + 8 * 32 < TWO64 && e.R[SP] == Save(d, b).R[SP] && e.mem == Save(d, b).mem
    ensures Calls(d, b, e)
  {
    hide Save;
    hide Cells;
    hide Load64;
  }

  // The first cell popped into gets what the last cell pushed held.
  lemma FirstGetsLast(d: Data, cs: seq<Cell>, ps: seq<Cell>)
    requires STACK_POINTER !in cs && STACK_POINTER !in ps && Distinct(ps) && |cs| == |ps| > 0
    requires d.R[SP] + 8 * |cs| < TWO64
    ensures Get(PopAll(PushAll(d, cs), ps), ps[0]) == Get(d, cs[|cs| - 1])
  {
    PushValue(d, cs);
    var e := PushAll(d, cs);
    hide PushAll;
    hide Load64;
    PopValue(e, ps);
    hide PopAll;
    assert TopAt(e.R[SP], 0) == SlotAt(d.R[SP], |cs| - 1);
  }

  lemma MarkedCells(c: Cell)
    ensures c != STACK_POINTER ==> Get(Marked(1000), c) == if c.flt then 1 else 0
    ensures Marked(1000).R[SP] == 1000
  {
  }

  // With both low halves in use, an integer register gets a float's value.
  lemma HalvesAreMixed(b: Lists) returns (d: Data, e: Data)
    requires Savable(b) && b.hi == 0 && b.fhi == 0 && b.lo != 0 && b.flo != 0
    ensures Calls(d, b, e) && !BackAgain(d, b, e, Restore(e, b))
  {
    d := Marked(1000);
    var cs, ps := Cells(b), PoppedCells(b);
    MarkedCells(STACK_POINTER);
    hide *;
    CellsAreApart(b);
    MixedOrder(b);
    SavePushes(d, b);
    e := Save(d, b);
    RestorePops(e, b);
    FirstGetsLast(d, cs, ps);
    MarkedCells(ps[0]);
    MarkedCells(cs[|cs| - 1]);
    assert cs[|cs| - 1] in cs;
    KeptMemory(d, b, e);
    NotBack(d, b, e, Restore(e, b), ps[0]);
  }

  lemma NotBack(d: Data, b: Lists, e: Data, f: Data, c: Cell)
    requires c in Cells(b) && Get(f, c) != Get(d, c)
    ensures !BackAgain(d, b, e, f)
  {
    hide Cells;
  }

  // The last cell pushed is a float register, the first one popped into is not.
  lemma MixedOrder(b: Lists)
    requires b.hi == 0 && b.fhi == 0 && b.lo != 0 && b.flo != 0
    ensures var cs, ps := Cells(b), PoppedCells(b);
            && |cs| == |ps| > 0 && cs[|cs| - 1].flt && ps[0] in cs && !ps[0].flt && ps[0] != STACK_POINTER
            && Distinct(ps) && STACK_POINTER !in ps
  {
    var lo, flo := Ascending(false, b.lo, 8, 0), Ascending(true, b.flo, 8, 0);
    Pow2At();
    hide *;
    InRange(false, b.lo, 8, 8, 0);
    InRange(true, b.flo, 8, 8, 0);
    OnlyLowHalves(b);
    HalvesMeet(lo, flo);
  }

  lemma OnlyLowHalves(b: Lists)
    requires b.hi == 0 && b.fhi == 0
    ensures var lo, flo := Ascending(false, b.lo, 8, 0), Ascending(true, b.flo, 8, 0);
            Cells(b) == lo + flo && PoppedCells(b) == Reversed(lo) + Reversed(flo)
  {
    FourParts(b);
    hide *;
    NoCells(false, b.hi, 8);
    NoCells(true, b.fhi, 8);
    LowPopsReversed(false, b.lo);
    LowPopsReversed(true, b.flo);
  }

  lemma FourParts(b: Lists)
    ensures Cells(b) == Ascending(false, b.lo, 8, 0) + Ascending(false, b.hi, 8, 8)
                        + Ascending(true, b.flo, 8, 0) + Ascending(true, b.fhi, 8, 8)
    ensures PoppedCells(b) == PopOrder(false, b.lo, 0, 0, false) + PopOrder(false, b.hi, 8, 8, false)
                              + PopOrder(true, b.flo, 0, 0, false) + PopOrder(true, b.fhi, 8, 8, false)
  {
    hide Ascending;
    hide PopOrder;
  }

  lemma HalvesMeet(lo: seq<Cell>, flo: seq<Cell>)
    requires Distinct(lo) && Distinct(flo) && |lo| > 0 && |flo| > 0
    requires (forall c :: c in lo ==> !c.flt && c.r < 8) && (forall c :: c in flo ==> c.flt)
    ensures var cs, ps := lo + flo, Reversed(lo) + Reversed(flo);
            && |cs| == |ps| > 0 && cs[|cs| - 1].flt && ps[0] in cs && !ps[0].flt && ps[0] != STACK_POINTER
            && Distinct(ps) && STACK_POINTER !in ps
  {
    ReversedDistinct(lo);
    ReversedDistinct(flo);
    assert Reversed(lo)[0] == lo[|lo| - 1];
    hide Reversed;
    hide Distinct;
    DistinctAppend(Reversed(lo), Reversed(flo));
    assert lo[|lo| - 1] in lo && flo[|flo| - 1] in flo;
  }

  // As written, saving and restoring around any call is the identity exactly for
  // the lists within the low integer half, and those within the low float half.
  lemma RestoresIff(b: Lists)
    requires Savable(b)
    ensures (forall d, e :: Calls(d, b, e) ==> BackAgain(d, b, e, Restore(e, b))) <==> OneLowHalf(b)
  {
    if OneLowHalf(b) {
      forall d, e | Calls(d, b, e)
        ensures BackAgain(d, b, e, Restore(e, b))
      {
        LowHalfRestores(d, b, e);
      }
    } else if b.hi != 0 {
      var c := HighCell(b, false);
      var d, e := HighStaysChanged(b, c);
    } else if b.fhi != 0 {
      var c := HighCell(b, true);
      var d, e := HighStaysChanged(b, c);
    } else {
      var d, e := HalvesAreMixed(b);
    }
  }

  lemma HighCell(b: Lists, flt: bool) returns (c: Cell)
    requires Savable(b) && (if flt then b.fhi else b.hi) != 0
    ensures c in Cells(b) && c.r >= 8
  {
    Pow2At();
    var list := if flt then b.fhi else b.hi;
    InRange(flt, list, 8, 8, 8);
    hide Ascending;
    var cs := Ascending(flt, list, 8, 8);
    c := cs[0];
    assert c in cs;
  }
}
