// What a stack frame is for: locals keep their values while the activation pushes,
// and calls what has frames of its own.
// src/PVM/PVM.c, src/Compiler/Compiler.c
module Frames {
  import opened Words
  import opened Isa
  import opened Machine
  import opened SaveRegs
  import opened Calls
  import opened CallSites
  import A = Arguments

  // ---- bytes -------------------------------------------------------------------------------

  predicate SameBytes(m: Memory, m': Memory, lo: int, hi: int) {
    forall a :: lo <= a < hi ==> Byte(m', a) == Byte(m, a)
  }

  predicate Away(at: int, n: nat, lo: int, hi: int) { at + n <= lo || hi <= at }

  lemma Store32Away(m: Memory, at: int, v: u32, lo: int, hi: int)
    requires Away(at, 4, lo, hi)
    ensures SameBytes(m, Store32(m, at, v), lo, hi)
  {
  }

  lemma Store64Away(m: Memory, at: int, v: u64, lo: int, hi: int)
    requires Away(at, 8, lo, hi)
    ensures SameBytes(m, Store64(m, at, v), lo, hi)
  {
    hide Store32;
    Store32Away(m, at, v % TWO32, lo, hi);
    Store32Away(Store32(m, at, v % TWO32), at + 4, v / TWO32, lo, hi);
    hide Byte;
  }

  lemma BytesJoin(a: Memory, b: Memory, c: Memory, lo: int, hi: int)
    requires SameBytes(a, b, lo, hi) && SameBytes(b, c, lo, hi)
    ensures SameBytes(a, c, lo, hi)
  {
    hide Byte;
  }

  lemma SameWord(m: Memory, m': Memory, lo: int, hi: int, at: int)
    requires SameBytes(m, m', lo, hi) && lo <= at && at + 4 <= hi
    ensures Load32(m', at) == Load32(m, at)
  {
    hide Byte;
    assert forall k :: at <= k < at + 4 ==> Byte(m', k) == Byte(m, k);
  }

  // ---- ENTER ----------------------------------------------------------------------------------

  // The frame starts behind what was on the stack and ends where the next push goes.
  lemma EnterMakesRoom(d: Data, size: u32, next: int)
    requires d.R[SP] + 8 + size < TWO64
    ensures var e := Execute(Enter(size), next, d).value.d;
            && e.R[FP] == d.R[SP] + 8 && e.R[FP] + size == e.R[SP] + 8
            && e == d.(R := d.R[FP := e.R[FP]][SP := e.R[SP]])
  {
  }

  // Once it has entered, a subroutine looks for its arguments where the caller put
  // them, except where its running offset is -1.
  lemma EnteredFindsArguments(d: Data, size: u32, next: int, ps: seq<A.Param>, hidden: nat, i: nat, stackSpace: nat)
    requires d.R[SP] + 8 + size < TWO64 && i < |ps|
    ensures var e := Execute(Enter(size), next, d).value.d;
            A.CalleePlace(ps, hidden, i, e.R[FP], stackSpace) == A.CallerPlace(ps, hidden, i, d.R[SP])
            <==> i + hidden < A.ARGREG_COUNT || A.StackBytes(ps, hidden, i + 1) != 1
  {
    EnterMakesRoom(d, size, next);
    A.PlacesAgreeIff(ps, hidden, i, d.R[SP], stackSpace);
    hide A.CallerPlace;
    hide A.CalleePlace;
    hide A.StackBytes;
  }

  // ---- what a step leaves alone ------------------------------------------------------------------

  predicate IsPush(i: Instr) { i.Plain? && (i.op == PSHL || i.op == PSHH || i.op == FPSHL || i.op == FPSHH) }

  lemma Unchanged(m: Memory, lo: int, hi: int)
    ensures SameBytes(m, m, lo, hi)
  {
  }

  lemma PushAbove(d: Data, v: u64, lo: int, hi: int)
    requires d.R[SP] + 8 < TWO64 && hi <= d.R[SP] + 8
    ensures Push(d, v).R[SP] == d.R[SP] + 8 && SameBytes(d.mem, Push(d, v).mem, lo, hi)
  {
    Store64Away(d.mem, d.R[SP] + 8, v, lo, hi);
    hide Store64;
    hide SameBytes;
  }

  // Pushes go upwards from behind SP.
  lemma {:induction false} PushesAbove(d: Data, flt: bool, list: u8, i: nat, top: nat, lo: int, hi: int)
    requires i <= top <= 16 && d.R[SP] + 8 * (top - i) + 8 < TWO64 && hi <= d.R[SP] + 8
    ensures var e := PushMultiple(d, flt, list, i, top);
            d.R[SP] <= e.R[SP] <= d.R[SP] + 8 * (top - i) && SameBytes(d.mem, e.mem, lo, hi)
    decreases top - i
  {
    hide Push;
    hide SameBytes;
    if list == 0 || i == top {
      Unchanged(d.mem, lo, hi);
    } else {
      var e := if list % 2 == 1 then Push(d, BankOf(d, flt)[i]) else d;
      if list % 2 == 1 { PushAbove(d, BankOf(d, flt)[i], lo, hi); } else { Unchanged(d.mem, lo, hi); }
      PushesAbove(e, flt, list / 2, i + 1, top, lo, hi);
      BytesJoin(d.mem, e.mem, PushMultiple(d, flt, list, i, top).mem, lo, hi);
    }
  }

  lemma {:induction false} PopsRead(d: Data, flt: bool, list: u8, i: nat, base: nat)
    requires base <= i <= base + 8
    ensures PopMultiple(d, flt, list, i, base, false).mem == d.mem
    decreases base + 8 - i
  {
    hide Load64;
    if list != 0 && i != base + 8 {
      var d' := if list >= 0x80 then var (p, v) := Pop(d); SetBank(p, flt, PopIndex(base, i, false), v) else d;
      PopsRead(d', flt, list * 2 % 0x100, i + 1, base);
    }
  }

  // A store instruction's cells are not in [lo, hi).
  predicate Misses(i: Instr, d: Data, lo: int, hi: int) {
    match i
    case Memory(op, _, rs, off) =>
      var at := Address(d, rs, off);
      (op == ST32 ==> Away(at, 4, lo, hi)) && (op == ST64 ==> Away(at, 8, lo, hi))
    case MemoryLong(op, _, rs, off) =>
      var at := Address(d, rs, off);
      (op == ST32L ==> Away(at, 4, lo, hi)) && (op == ST64L ==> Away(at, 8, lo, hi))
    case _ => true
  }

  // SP does not wrap around where it is raised, and stays above `floor` where it is
  // lowered or set: no more is popped, or deallocated, than was pushed or allocated.
  predicate StackKept(i: Instr, d: Data, e: Data, floor: int) {
    if i.Enter? then d.R[SP] + 8 + i.size < TWO64
    else if IsPush(i) then d.R[SP] + 8 * 8 + 8 < TWO64
    else IsCall(i) || IsExit(i) || e.R[SP] >= floor
  }

  lemma PushKeeps(i: Instr, next: int, d: Data, floor: int, lo: int, hi: int)
    requires IsPush(i) && d.R[SP] + 8 * 8 + 8 < TWO64 && floor <= d.R[SP] && hi <= floor + 8 && Execute(i, next, d).Some?
    ensures var e := Execute(i, next, d).value.d;
            e.R[SP] >= floor && SameBytes(d.mem, e.mem, lo, hi)
  {
    hide PushMultiple;
    hide PopMultiple;
    hide SameBytes;
    var list := i.rd * 0x10 + i.rs;
    PushesAbove(d, false, list, 0, 8, lo, hi);
    PushesAbove(d, false, list, 8, 16, lo, hi);
    PushesAbove(d, true, list, 0, 8, lo, hi);
    PushesAbove(d, true, list, 8, 16, lo, hi);
  }

  lemma PlainKeepsMemory(op: u8, rd: reg, rs: reg, d: Data)
    requires !IsPush(Plain(op, rd, rs)) && PlainEffect(op, rd, rs, d).Some?
    ensures PlainEffect(op, rd, rs, d).value.mem == d.mem
  {
    hide PopMultiple;
    hide PushMultiple;
    var list := rd * 0x10 + rs;
    PopsRead(d, false, list, 0, 0);
    PopsRead(d, false, list, 8, 8);
    PopsRead(d, true, list, 0, 0);
    PopsRead(d, true, list, 8, 8);
  }

  lemma OtherKeeps(i: Instr, next: int, d: Data, lo: int, hi: int)
    requires !IsPush(i) && Misses(i, d, lo, hi) && Execute(i, next, d).Some?
    ensures SameBytes(d.mem, Execute(i, next, d).value.d.mem, lo, hi)
  {
    hide PlainEffect;
    hide Store32;
    hide Store64;
    hide Load32;
    hide Load64;
    hide Byte;
    hide Address;
    match i
    case Plain(op, rd, rs) => PlainKeepsMemory(op, rd, rs, d);
    case Memory(op, rd, rs, off) =>
      var at := Address(d, rs, off);
      if op == ST32 { Store32Away(d.mem, at, Word(d, rd), lo, hi); }
      if op == ST64 { Store64Away(d.mem, at, d.R[rd], lo, hi); }
    case MemoryLong(op, rd, rs, off) =>
      var at := Address(d, rs, off);
      if op == ST32L { Store32Away(d.mem, at, Word(d, rd), lo, hi); }
      if op == ST64L { Store64Away(d.mem, at, d.R[rd], lo, hi); }
    case _ =>
  }

  // ---- whole activations ---------------------------------------------------------------------------

  // An activation at depth `level`, and what it calls, with the stack kept above
  // `floor`, no store into [lo, hi), and every CALL followed by an ENTER.
  ghost predicate Disciplined(code: seq<u16>, level: nat, floor: int, lo: int, hi: int, vm: VM, n: nat, end: VM)
    decreases n
  {
    && |vm.d.frames| >= level
    && if n == 0 then vm == end
       else && Decode(code, vm.ip).Some? && Step(code, vm).Some?
            && Sane(Decode(code, vm.ip).value.0, vm.d, Step(code, vm).value, code, level, floor, lo, hi)
            && Disciplined(code, level, floor, lo, hi, Step(code, vm).value, n - 1, end)
  }

  predicate Sane(i: Instr, d: Data, to: VM, code: seq<u16>, level: nat, floor: int, lo: int, hi: int) {
    && Allowed(i, |d.frames|, level) && StackKept(i, d, to.d, floor) && Misses(i, d, lo, hi)
    && (IsCall(i) ==> Entering(code, to.ip))
  }

  predicate Entering(code: seq<u16>, ip: int) {
    Decode(code, ip).Some? && Decode(code, ip).value.0.Enter?
  }

  // SP, and the frames of all that was called, are above `floor`; a subroutine
  // about to execute its ENTER has no frame yet.
  predicate Above(d: Data, level: nat, floor: int, entering: bool) {
    && d.R[SP] >= floor
    && (|d.frames| > level && !entering ==> d.R[FP] >= floor + 8)
    && (forall k :: level < k < |d.frames| ==> d.frames[k].fp >= floor + 8)
  }

  lemma StepStaysAbove(i: Instr, next: int, d: Data, to: VM, code: seq<u16>, level: nat, floor: nat, lo: int, hi: int, entering: bool)
    requires Execute(i, next, d) == Some(to) && Sane(i, d, to, code, level, floor, lo, hi)
    requires |d.frames| >= level && Above(d, level, floor, entering) && (entering ==> i.Enter?) && hi <= floor + 8
    ensures |to.d.frames| >= level && Above(to.d, level, floor, IsCall(i)) && SameBytes(d.mem, to.d.mem, lo, hi)
  {
    hide *;
    SaneMeans(i, d, to, code, level, floor, lo, hi);
    if IsPush(i) || !(IsCall(i) || IsExit(i) || i.Enter?) {
      OrdinaryStaysAbove(i, next, d, to, level, floor, lo, hi, entering);
    } else {
      OtherKeeps(i, next, d, lo, hi);
      LinkStaysAbove(i, next, d, to, level, floor, entering);
    }
  }

  lemma SaneMeans(i: Instr, d: Data, to: VM, code: seq<u16>, level: nat, floor: nat, lo: int, hi: int)
    requires Sane(i, d, to, code, level, floor, lo, hi)
    ensures Allowed(i, |d.frames|, level) && StackKept(i, d, to.d, floor) && Misses(i, d, lo, hi)
  {
  }

  lemma OrdinaryStaysAbove(i: Instr, next: int, d: Data, to: VM, level: nat, floor: nat, lo: int, hi: int, entering: bool)
    requires Execute(i, next, d) == Some(to) && Allowed(i, |d.frames|, level) && StackKept(i, d, to.d, floor) && Misses(i, d, lo, hi)
    requires |d.frames| >= level && Above(d, level, floor, entering) && (entering ==> i.Enter?) && hi <= floor + 8
    requires IsPush(i) || !(IsCall(i) || IsExit(i) || i.Enter?)
    ensures |to.d.frames| >= level && Above(to.d, level, floor, IsCall(i)) && SameBytes(d.mem, to.d.mem, lo, hi)
  {
    hide Execute;
    hide SameBytes;
    hide Misses;
    hide WritesFP;
    OrdinaryKeepsFrame(i, next, d);
    if IsPush(i) { PushKeeps(i, next, d, floor, lo, hi); } else { OtherKeeps(i, next, d, lo, hi); }
  }

  lemma LinkStaysAbove(i: Instr, next: int, d: Data, to: VM, level: nat, floor: nat, entering: bool)
    requires Execute(i, next, d) == Some(to) && Allowed(i, |d.frames|, level) && StackKept(i, d, to.d, floor)
    requires |d.frames| >= level && Above(d, level, floor, entering) && (entering ==> i.Enter?)
    requires IsCall(i) || IsExit(i) || i.Enter?
    ensures |to.d.frames| >= level && Above(to.d, level, floor, IsCall(i))
  {
    hide PlainEffect;
    hide MemoryEffect;
  }

  // Every push and every frame of what it calls is above the activation's floor, so
  // cells below it keep their contents but for explicit stores.
  lemma {:induction false} CellsKeptBelow(code: seq<u16>, level: nat, floor: nat, lo: int, hi: int, vm: VM, n: nat, end: VM, entering: bool)
    requires Disciplined(code, level, floor, lo, hi, vm, n, end) && hi <= floor + 8
    requires Above(vm.d, level, floor, entering) && (entering ==> Entering(code, vm.ip))
    ensures |end.d.frames| >= level && end.d.R[SP] >= floor && SameBytes(vm.d.mem, end.d.mem, lo, hi)
    ensures forall k :: level < k < |end.d.frames| ==> end.d.frames[k].fp >= floor + 8
    decreases n
  {
    hide Decode;
    hide Execute;
    hide Byte;
    if n > 0 {
      var (i, next) := Decode(code, vm.ip).value;
      var to := Step(code, vm).value;
      StepStaysAbove(i, next, vm.d, to, code, level, floor, lo, hi, entering);
      hide Sane;
      CellsKeptBelow(code, level, floor, lo, hi, to, n - 1, end, IsCall(i));
      BytesJoin(vm.d.mem, to.d.mem, end.d.mem, lo, hi);
    }
  }

  // From ENTER on, any part of the frame that no store instruction writes to keeps
  // its contents, whatever is pushed and called.
  lemma FrameIsKept(code: seq<u16>, v1: VM, size: u32, n1: int, v2: VM, lo: int, hi: int, n: nat, v3: VM)
    requires Decode(code, v1.ip) == Some((Enter(size), n1)) && Step(code, v1) == Some(v2) && v1.d.R[SP] + 8 + size < TWO64
    requires Disciplined(code, |v1.d.frames|, v2.d.R[SP], lo, hi, v2, n, v3)
    requires v2.d.R[FP] <= lo && hi <= v2.d.R[FP] + size
    ensures SameBytes(v2.d.mem, v3.d.mem, lo, hi) && v3.d.R[SP] >= v2.d.R[SP]
    ensures forall at :: lo <= at && at + 4 <= hi ==> Load32(v3.d.mem, at) == Load32(v2.d.mem, at)
  {
    EnterMakesRoom(v1.d, size, n1);
    hide *;
    EnterSteps(code, v1, size, n1, v2);
    NothingAbove(v2.d, |v1.d.frames|);
    CellsKeptBelow(code, |v1.d.frames|, v2.d.R[SP], lo, hi, v2, n, v3, false);
    forall at | lo <= at && at + 4 <= hi
      ensures Load32(v3.d.mem, at) == Load32(v2.d.mem, at)
    {
      SameWord(v2.d.mem, v3.d.mem, lo, hi, at);
    }
  }

  lemma EnterSteps(code: seq<u16>, v1: VM, size: u32, n1: int, v2: VM)
    requires Decode(code, v1.ip) == Some((Enter(size), n1)) && Step(code, v1) == Some(v2)
    ensures Execute(Enter(size), n1, v1.d) == Some(v2) && v2.d.frames == v1.d.frames
  {
    hide Decode;
  }

  lemma NothingAbove(d: Data, level: nat)
    requires |d.frames| == level
    ensures Above(d, level, d.R[SP], false)
  {
  }

  // ---- locals across a call --------------------------------------------------------------------------

  lemma PushesKeep(d: Data, op: u8, list: u8, lo: int, hi: int)
    requires (op == PSHL || op == PSHH || op == FPSHL || op == FPSHH) && d.R[SP] + 8 * 8 + 8 < TWO64 && hi <= d.R[SP] + 8
    ensures var e := Exec(d, op, list); d.R[SP] <= e.R[SP] <= d.R[SP] + 8 * 8 && SameBytes(d.mem, e.mem, lo, hi)
  {
    hide PushMultiple;
    hide PopMultiple;
    hide SameBytes;
    PushesAbove(d, false, list, 0, 8, lo, hi);
    PushesAbove(d, false, list, 8, 16, lo, hi);
    PushesAbove(d, true, list, 0, 8, lo, hi);
    PushesAbove(d, true, list, 8, 16, lo, hi);
    assert SameBytes(d.mem, d.mem, lo, hi) by { StayedSame(d.mem, lo, hi); }
    assert list / 0x10 * 0x10 + list % 0x10 == list;
  }

  lemma StayedSame(m: Memory, lo: int, hi: int)
    ensures SameBytes(m, m, lo, hi)
  {
  }

  lemma SaveKeeps(d: Data, b: Lists, lo: int, hi: int)
    requires d.R[SP] + 8 * 32 + 8 < TWO64 && hi <= d.R[SP] + 8
    ensures d.R[SP] <= Save(d, b).R[SP] && SameBytes(d.mem, Save(d, b).mem, lo, hi)
  {
    hide Exec;
    hide SameBytes;
    var d1 := Exec(d, PSHL, b.lo);
    var d2 := Exec(d1, PSHH, b.hi);
    var d3 := Exec(d2, FPSHL, b.flo);
    PushesKeep(d, PSHL, b.lo, lo, hi);
    PushesKeep(d1, PSHH, b.hi, lo, hi);
    PushesKeep(d2, FPSHL, b.flo, lo, hi);
    PushesKeep(d3, FPSHH, b.fhi, lo, hi);
    BytesJoin(d.mem, d1.mem, d2.mem, lo, hi);
    BytesJoin(d.mem, d2.mem, d3.mem, lo, hi);
    BytesJoin(d.mem, d3.mem, Save(d, b).mem, lo, hi);
  }

  lemma PopsKeep(d: Data, op: u8, list: u8)
    requires op == POPL || op == POPH || op == FPOPL || op == FPOPH
    ensures Exec(d, op, list).mem == d.mem
  {
    hide PlainEffect;
    if list != 0 && PlainEffect(op, list / 0x10, list % 0x10, d).Some? { PlainKeepsMemory(op, list / 0x10, list % 0x10, d); }
  }

  lemma RestoreKeeps(d: Data, b: Lists)
    ensures Restore(d, b).mem == d.mem
  {
    hide Exec;
    var d1 := Exec(d, POPL, b.lo);
    var d2 := Exec(d1, POPH, b.hi);
    var d3 := Exec(d2, FPOPL, b.flo);
    PopsKeep(d, POPL, b.lo);
    PopsKeep(d1, POPH, b.hi);
    PopsKeep(d2, FPOPL, b.flo);
    PopsKeep(d3, FPOPH, b.fhi);
  }

  lemma CalledKeeps(code: seq<u16>, v: VM, n: nat, r: VM, lo: int, hi: int)
    requires Disciplined(code, |v.d.frames|, v.d.R[SP], lo, hi, v, n, r) && hi - 8 <= v.d.R[SP]
    ensures SameBytes(v.d.mem, r.d.mem, lo, hi)
  {
    hide Disciplined;
    hide SameBytes;
    NothingAbove(v.d, |v.d.frames|);
    CellsKeptBelow(code, |v.d.frames|, v.d.R[SP], lo, hi, v, n, r, false);
  }

  // A whole call as emitted - pushes, allocation, arguments, the call and all that
  // it calls, deallocation, pops: what lies below its first push keeps its contents,
  // but for explicit stores.  The caller's locals do.
  lemma LocalsSurviveCall(code: seq<u16>, at: int, b: Lists, size: nat, d: Data, m: nat, v: VM, c: Callee, r: VM, lo: int, hi: int)
    returns (n: nat, before: Data, end: VM)
    requires size < TWO32 && Placed(code, at, SaveWords(b) + AllocWords(size))
    requires Passes(code, VM(at + |SaveWords(b) + AllocWords(size)|, Moved(Save(d, b), size)), m, v) && Returns(code, v, c, r)
    requires Placed(code, r.ip, AllocWords(0 - size) + RestoreWords(b))
    requires d.R[SP] + 8 * 32 + 8 < TWO64 && hi - 8 <= d.R[SP] <= v.d.R[SP]
    requires SameBytes(Moved(Save(d, b), size).mem, v.d.mem, lo, hi)
    requires Disciplined(code, |v.d.frames|, v.d.R[SP], lo, hi, v, c.n + 3, r)
    ensures Goes(code, VM(at, d), n, end) && end.d == Restore(before, b)
    ensures SameBytes(d.mem, end.d.mem, lo, hi)
    ensures forall a :: lo <= a && a + 4 <= hi ==> Load32(end.d.mem, a) == Load32(d.mem, a)
  {
    hide *;
    n, before, end := ProcedureCallRuns(code, at, b, size, d, m, v, c, r);
    SaveKeeps(d, b, lo, hi);
    OnlySP(Save(d, b), size);
    CalledKeeps(code, v, c.n + 3, r, lo, hi);
    RestoreKeeps(before, b);
    BytesJoin(d.mem, Save(d, b).mem, v.d.mem, lo, hi);
    BytesJoin(d.mem, v.d.mem, r.d.mem, lo, hi);
    forall a | lo <= a && a + 4 <= hi
      ensures Load32(end.d.mem, a) == Load32(d.mem, a)
    {
      SameWord(d.mem, end.d.mem, lo, hi, a);
    }
  }
}
