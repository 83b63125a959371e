// A whole call as emitted: save, allocate, pass, call, deallocate, restore.
// src/Compiler/Compiler.c, src/Compiler/Expr.c, src/Compiler/Emitter.c
module CallSites {
  import opened Words
  import opened Isa
  import opened Codec
  import opened Machine
  import opened AddImm
  import opened SaveRegs
  import C = Calls
  import A = Arguments

  // ---- register lists --------------------------------------------------------------------

  function ListWords(op: u8, list: u8): seq<u16> {
    if list == 0 then [] else Encode(Plain(op, list / 0x10, list % 0x10))
  }

  // PVMEmitPushRegList
  function SaveWords(b: Lists): seq<u16> {
    ListWords(PSHL, b.lo) + ListWords(PSHH, b.hi) + ListWords(FPSHL, b.flo) + ListWords(FPSHH, b.fhi)
  }

  // PVMEmitUnsaveCallerRegs
  function RestoreWords(b: Lists): seq<u16> {
    ListWords(POPL, b.lo) + ListWords(POPH, b.hi) + ListWords(FPOPL, b.flo) + ListWords(FPOPH, b.fhi)
  }

  predicate IsListOp(op: int) { PSHL <= op <= FPOPH }

  lemma ListOpIsByte(op: int)
    ensures IsListOp(op) ==> 0 <= op < 0x100
  {
  }

  // The machine anywhere in the code.
  ghost predicate Goes(code: seq<u16>, a: VM, n: nat, b: VM) { Runs(code, 0, |code|, a, n, b) }

  lemma GoesOn(code: seq<u16>, a: VM, n: nat, b: VM, m: nat, c: VM)
    requires Goes(code, a, n, b) && Goes(code, b, m, c)
    ensures Goes(code, a, n + m, c)
  {
    RunsJoin(code, 0, |code|, a, n, b, m, c);
  }

  lemma SixParts(code: seq<u16>, v0: VM, n1: nat, v1: VM, n2: nat, v2: VM, n3: nat, v3: VM, n4: nat, v4: VM, n5: nat, v5: VM, n6: nat, v6: VM)
    returns (n: nat)
    requires Goes(code, v0, n1, v1) && Goes(code, v1, n2, v2) && Goes(code, v2, n3, v3)
    requires Goes(code, v3, n4, v4) && Goes(code, v4, n5, v5) && Goes(code, v5, n6, v6)
    ensures Goes(code, v0, n, v6)
  {
    hide Goes;
    GoesOn(code, v0, n1, v1, n2, v2);
    GoesOn(code, v0, n1 + n2, v2, n3, v3);
    GoesOn(code, v0, n1 + n2 + n3, v3, n4, v4);
    GoesOn(code, v0, n1 + n2 + n3 + n4, v4, n5, v5);
    GoesOn(code, v0, n1 + n2 + n3 + n4 + n5, v5, n6, v6);
    n := n1 + n2 + n3 + n4 + n5 + n6;
  }

  lemma ListRuns(code: seq<u16>, at: int, op: u8, list: u8, d: Data) returns (n: nat)
    requires IsListOp(op) && Placed(code, at, ListWords(op, list))
    ensures Goes(code, VM(at, d), n, VM(at + |ListWords(op, list)|, Exec(d, op, list)))
  {
    hide PushMultiple;
    hide PopMultiple;
    hide Encode;
    hide Runs;
    if list == 0 {
      n := 0;
      NoStep(code, VM(at, d));
    } else {
      n := 1;
      var i := Plain(op, list / 0x10, list % 0x10);
      assert Execute(i, at + 1, d) == Some(VM(at + 1, Exec(d, op, list)));
      RunsOne(code, at, i, d, VM(at + 1, Exec(d, op, list)));
      RunsWiden(code, at, at + 1, 0, |code|, VM(at, d), 1, VM(at + 1, Exec(d, op, list)));
    }
  }

  lemma NoStep(code: seq<u16>, a: VM)
    ensures Goes(code, a, 0, a)
  {
  }

  lemma FourLists(code: seq<u16>, at: int, o1: u8, o2: u8, o3: u8, o4: u8, b: Lists, d: Data) returns (n: nat)
    requires IsListOp(o1) && IsListOp(o2) && IsListOp(o3) && IsListOp(o4)
    requires Placed(code, at, ListWords(o1, b.lo) + ListWords(o2, b.hi) + ListWords(o3, b.flo) + ListWords(o4, b.fhi))
    ensures var hi := at + |ListWords(o1, b.lo) + ListWords(o2, b.hi) + ListWords(o3, b.flo) + ListWords(o4, b.fhi)|;
            Goes(code, VM(at, d), n, VM(hi, Exec(Exec(Exec(Exec(d, o1, b.lo), o2, b.hi), o3, b.flo), o4, b.fhi)))
  {
    hide *;
    var w1, w2, w3, w4 := ListWords(o1, b.lo), ListWords(o2, b.hi), ListWords(o3, b.flo), ListWords(o4, b.fhi);
    Split(code, at, w1 + w2 + w3, w4);
    Split(code, at, w1 + w2, w3);
    Split(code, at, w1, w2);
    var a1 := at + |w1|;
    var a2 := a1 + |w2|;
    var a3 := a2 + |w3|;
    var d1 := Exec(d, o1, b.lo);
    var d2 := Exec(d1, o2, b.hi);
    var d3 := Exec(d2, o3, b.flo);
    var n1 := ListRuns(code, at, o1, b.lo, d);
    var n2 := ListRuns(code, a1, o2, b.hi, d1);
    var n3 := ListRuns(code, a2, o3, b.flo, d2);
    var n4 := ListRuns(code, a3, o4, b.fhi, d3);
    GoesOn(code, VM(at, d), n1, VM(a1, d1), n2, VM(a2, d2));
    GoesOn(code, VM(at, d), n1 + n2, VM(a2, d2), n3, VM(a3, d3));
    GoesOn(code, VM(at, d), n1 + n2 + n3, VM(a3, d3), n4, VM(a3 + |w4|, Exec(d3, o4, b.fhi)));
    n := n1 + n2 + n3 + n4;
  }

  lemma SaveRuns(code: seq<u16>, at: int, b: Lists, d: Data) returns (n: nat)
    requires Placed(code, at, SaveWords(b))
    ensures Goes(code, VM(at, d), n, VM(at + |SaveWords(b)|, Save(d, b)))
  {
    ListsInOrder(d, b);
    hide *;
    ListOpIsByte(PSHL); ListOpIsByte(PSHH); ListOpIsByte(FPSHL); ListOpIsByte(FPSHH);
    n := FourLists(code, at, PSHL, PSHH, FPSHL, FPSHH, b, d);
  }

  lemma ListsInOrder(d: Data, b: Lists)
    ensures SaveWords(b) == ListWords(PSHL, b.lo) + ListWords(PSHH, b.hi) + ListWords(FPSHL, b.flo) + ListWords(FPSHH, b.fhi)
    ensures RestoreWords(b) == ListWords(POPL, b.lo) + ListWords(POPH, b.hi) + ListWords(FPOPL, b.flo) + ListWords(FPOPH, b.fhi)
    ensures Save(d, b) == Exec(Exec(Exec(Exec(d, PSHL, b.lo), PSHH, b.hi), FPSHL, b.flo), FPSHH, b.fhi)
    ensures Restore(d, b) == Exec(Exec(Exec(Exec(d, POPL, b.lo), POPH, b.hi), FPOPL, b.flo), FPOPH, b.fhi)
    ensures IsListOp(PSHL) && IsListOp(PSHH) && IsListOp(FPSHL) && IsListOp(FPSHH)
    ensures IsListOp(POPL) && IsListOp(POPH) && IsListOp(FPOPL) && IsListOp(FPOPH)
  {
    hide ListWords;
    hide Exec;
  }

  lemma RestoreRuns(code: seq<u16>, at: int, b: Lists, d: Data) returns (n: nat)
    requires Placed(code, at, RestoreWords(b))
    ensures Goes(code, VM(at, d), n, VM(at + |RestoreWords(b)|, Restore(d, b)))
  {
    ListsInOrder(d, b);
    hide *;
    ListOpIsByte(POPL); ListOpIsByte(POPH); ListOpIsByte(FPOPL); ListOpIsByte(FPOPH);
    n := FourLists(code, at, POPL, POPH, FPOPL, FPOPH, b, d);
  }

  // ---- the stack pointer ------------------------------------------------------------------

  // PVMEmitStackAllocation: SP is a pointer, which selects the unsigned, 32-bit ADDI.
  function AllocWords(size: int): seq<u16> { AddWords(SP, false, false, A.RoundUpSigned(size, A.STACK_ALIGNMENT)) }

  function Moved(d: Data, size: int): Data { Added(d, SP, false, A.RoundUpSigned(size, A.STACK_ALIGNMENT)) }

  lemma AllocRuns(code: seq<u16>, at: int, size: int, d: Data) returns (n: nat)
    requires -TWO32 < size < TWO32 && Placed(code, at, AllocWords(size))
    ensures Goes(code, VM(at, d), n, VM(at + |AllocWords(size)|, Moved(d, size)))
  {
    RoundedBound(size);
    var k := A.RoundUpSigned(size, A.STACK_ALIGNMENT);
    hide A.RoundUpSigned;
    hide Encode;
    hide Runs;
    hide AddInstr;
    if k == 0 {
      n := 0;
      AddZero(d);
      NoStep(code, VM(at, d));
    } else {
      n := 1;
      AddRuns(code, at, k, d);
    }
  }

  lemma AddRuns(code: seq<u16>, at: int, k: int, d: Data)
    requires k != 0 && -0x8000_0000_0000_0000 <= k < 0x8000_0000_0000_0000 && Placed(code, at, AddWords(SP, false, false, k))
    ensures Goes(code, VM(at, d), 1, VM(at + |AddWords(SP, false, false, k)|, Added(d, SP, false, k)))
  {
    var i := AddInstr(SP, false, false, k);
    AddInstrFits(SP, false, false, k);
    SameSum(d, SP, false, k);
    hide WellFormed;
    hide Encode;
    hide Runs;
    hide Low32;
    hide SetLow32;
    RunsOne(code, at, i, d, VM(at + Size(i), Added(d, SP, false, k)));
    RunsWiden(code, at, at + Size(i), 0, |code|, VM(at, d), 1, VM(at + Size(i), Added(d, SP, false, k)));
  }

  lemma RoundedBound(size: int)
    requires -TWO32 < size < TWO32
    ensures -0x8000_0000_0000_0000 <= A.RoundUpSigned(size, A.STACK_ALIGNMENT) < 0x8000_0000_0000_0000
  {
  }

  lemma AddZero(d: Data)
    ensures Added(d, SP, false, 0) == d
  {
    assert Added(d, SP, false, 0).R == d.R;
  }

  lemma StepGoes(code: seq<u16>, a: VM, b: VM)
    requires Step(code, a) == Some(b)
    ensures Goes(code, a, 1, b) && 0 <= a.ip < |code|
  {
    hide Execute;
    assert Runs(code, 0, |code|, b, 0, b);
  }

  // Allocating and deallocating cancel, the 32-bit additions included.
  lemma MovedBack(d: Data, e: Data, size: nat)
    requires e.R[SP] == Moved(d, size).R[SP]
    ensures Moved(e, 0 - size).R[SP] == d.R[SP]
  {
    A.RoundingMirrors(size, A.STACK_ALIGNMENT);
    var k := A.RoundUpSigned(size, A.STACK_ALIGNMENT);
    hide A.RoundUpSigned;
    LowBack(d.R[SP], k);
  }

  lemma LowBack(x: u64, k: int)
    ensures var y := SetLow32(x, Low32(x + k)); SetLow32(y, Low32(y - k)) == x
  {
    var y := SetLow32(x, Low32(x + k));
    var q := x / TWO32;
    assert x == q * TWO32 + x % TWO32 && y == q * TWO32 + Low32(x + k);
    assert y % TWO32 == Low32(x + k) by { ModUnique(y, TWO32, q, Low32(x + k)); }
    var p := (x + k) / TWO32;
    assert x + k == p * TWO32 + Low32(x + k);
    ModUnique(y - k, TWO32, 2 * q - p, x % TWO32);
  }

  // ---- the call itself ----------------------------------------------------------------------

  // What the machine does from a CALL to its return, step by step.
  datatype Callee = Callee(off: int, entry: VM, frame: u32, n1: int, body: VM, n: nat, exit: VM, n3: int)

  ghost predicate Returns(code: seq<u16>, v: VM, c: Callee, r: VM) {
    && Decode(code, v.ip) == Some((Branch(CALL, c.off), v.ip + 2)) && Step(code, v) == Some(c.entry)
    && Decode(code, c.entry.ip) == Some((Enter(c.frame), c.n1)) && Step(code, c.entry) == Some(c.body)
    && C.Activation(code, |v.d.frames| + 1, c.body, c.n, c.exit) && |c.exit.d.frames| == |v.d.frames| + 1
    && Decode(code, c.exit.ip) == Some((Sys(SYS_EXIT), c.n3)) && Step(code, c.exit) == Some(r)
  }

  lemma {:induction false} ActivationGoes(code: seq<u16>, level: nat, v: VM, n: nat, e: VM)
    requires C.Activation(code, level, v, n, e)
    ensures Goes(code, v, n, e)
    decreases n
  {
    hide Step;
    hide Decode;
    if n > 0 {
      StepInCode(code, v);
      ActivationGoes(code, level, Step(code, v).value, n - 1, e);
    }
  }

  lemma StepInCode(code: seq<u16>, v: VM)
    requires Step(code, v).Some?
    ensures 0 <= v.ip < |code|
  {
  }

  lemma ReturnsMeans(code: seq<u16>, v: VM, c: Callee, r: VM)
    requires Returns(code, v, c, r)
    ensures Decode(code, v.ip) == Some((Branch(CALL, c.off), v.ip + 2)) && Step(code, v) == Some(c.entry)
    ensures Decode(code, c.entry.ip) == Some((Enter(c.frame), c.n1)) && Step(code, c.entry) == Some(c.body)
    ensures C.Activation(code, |v.d.frames| + 1, c.body, c.n, c.exit) && |c.exit.d.frames| == |v.d.frames| + 1
    ensures Decode(code, c.exit.ip) == Some((Sys(SYS_EXIT), c.n3)) && Step(code, c.exit) == Some(r)
  {
    hide Decode;
    hide Step;
    hide C.Activation;
  }

  lemma ReturnsGoes(code: seq<u16>, v: VM, c: Callee, r: VM)
    requires Returns(code, v, c, r)
    ensures Goes(code, v, c.n + 3, r)
    ensures r.ip == v.ip + 2 && r.d.R[SP] == v.d.R[SP] && r.d.R[FP] == v.d.R[FP] && r.d.frames == v.d.frames && r.d.left == v.d.left
  {
    hide *;
    ReturnsMeans(code, v, c, r);
    C.CallReturns(code, v, c.off, v.ip + 2, c.entry, c.frame, c.n1, c.body, c.n, c.exit, c.n3, r);
    StepGoes(code, v, c.entry);
    StepGoes(code, c.entry, c.body);
    ActivationGoes(code, |v.d.frames| + 1, c.body, c.n, c.exit);
    StepGoes(code, c.exit, r);
    GoesOn(code, v, 1, c.entry, 1, c.body);
    GoesOn(code, v, 2, c.body, c.n, c.exit);
    GoesOn(code, v, 2 + c.n, c.exit, 1, r);
  }

  function CallBy(off: int): Instr { Branch(CALL, off) }
  function ExitHere(): Instr { Sys(SYS_EXIT) }

  // A procedure with nothing between ENTER and EXIT does.
  lemma EmptyProcedureReturns(code: seq<u16>, at: int, d: Data, off: int, size: u32) returns (c: Callee, r: VM)
    requires Fits24(off) && d.left > 0 && Placed(code, at, Encode(CallBy(off)))
    requires Placed(code, at + 2 + off, Encode(Enter(size)) + Encode(ExitHere()))
    ensures Returns(code, VM(at, d), c, r) && c.n == 0 && r.d == d.(R := r.d.R) && forall q: reg | q != SP && q != FP :: r.d.R[q] == d.R[q]
  {
    hide *;
    ThreeDecoded(code, at, off, size);
    var to := at + 2 + off;
    var n1 := to + Size(Enter(size));
    var n3 := n1 + Size(ExitHere());
    var d1, d2;
    d1, d2, r := ThreeExecuted(at + 2, off, n1, n3, size, d);
    StepIs(code, VM(at, d), CallBy(off), at + 2, VM(to, d1));
    StepIs(code, VM(to, d1), Enter(size), n1, VM(n1, d2));
    StepIs(code, VM(n1, d2), ExitHere(), n3, r);
    c := Callee(off, VM(to, d1), size, n1, VM(n1, d2), 0, VM(n1, d2), n3);
    AllReturns(code, VM(at, d), c, r);
  }

  lemma ThreeDecoded(code: seq<u16>, at: int, off: int, size: u32)
    requires Fits24(off) && Placed(code, at, Encode(CallBy(off)))
    requires Placed(code, at + 2 + off, Encode(Enter(size)) + Encode(ExitHere()))
    ensures var n1 := at + 2 + off + Size(Enter(size));
            && Decode(code, at) == Some((CallBy(off), at + 2)) && Decode(code, at + 2 + off) == Some((Enter(size), n1))
            && Decode(code, n1) == Some((ExitHere(), n1 + Size(ExitHere())))
  {
    var to := at + 2 + off;
    hide Decode;
    hide Encode;
    hide Placed;
    Split(code, to, Encode(Enter(size)), Encode(ExitHere()));
    assert WellFormed(CallBy(off)) && Size(CallBy(off)) == 2 && WellFormed(Enter(size)) && WellFormed(ExitHere());
    hide WellFormed;
    DecodeEncode(code, at, CallBy(off));
    DecodeEncode(code, to, Enter(size));
    DecodeEncode(code, to + Size(Enter(size)), ExitHere());
  }

  lemma ThreeExecuted(next: int, off: int, n1: int, n3: int, size: u32, d: Data) returns (d1: Data, d2: Data, r: VM)
    requires d.left > 0
    ensures Execute(CallBy(off), next, d) == Some(VM(next + off, d1)) && Execute(Enter(size), n1, d1) == Some(VM(n1, d2))
    ensures Execute(ExitHere(), n3, d2) == Some(r) && |d2.frames| == |d.frames| + 1
    ensures r.d == d.(R := r.d.R) && forall q: reg | q != SP && q != FP :: r.d.R[q] == d.R[q]
  {
    d1 := Call(next, next + off, d).value.d;
    d2 := EnterFrame(d1, size);
    r := Exit(d2).value;
    assert d2.frames[..|d2.frames| - 1] == d.frames;
  }

  lemma StepIs(code: seq<u16>, v: VM, i: Instr, next: int, to: VM)
    requires Decode(code, v.ip) == Some((i, next)) && Execute(i, next, v.d) == Some(to)
    ensures Step(code, v) == Some(to)
  {
    hide Decode;
    hide Execute;
  }

  lemma AllReturns(code: seq<u16>, v: VM, c: Callee, r: VM)
    requires Decode(code, v.ip) == Some((CallBy(c.off), v.ip + 2)) && Step(code, v) == Some(c.entry)
    requires Decode(code, c.entry.ip) == Some((Enter(c.frame), c.n1)) && Step(code, c.entry) == Some(c.body)
    requires c.n == 0 && c.body == c.exit && |c.exit.d.frames| == |v.d.frames| + 1
    requires Decode(code, c.exit.ip) == Some((ExitHere(), c.n3)) && Step(code, c.exit) == Some(r)
    ensures Returns(code, v, c, r)
  {
    hide Decode;
    hide Step;
  }

  // ---- a procedure call ----------------------------------------------------------------------------

  // Argument code leaves SP, FP and the return stack alone.
  ghost predicate Passes(code: seq<u16>, a: VM, n: nat, b: VM) {
    Goes(code, a, n, b) && b.d.R[SP] == a.d.R[SP] && b.d.R[FP] == a.d.R[FP] && b.d.frames == a.d.frames && b.d.left == a.d.left
  }

  // CompileCallWithoutReturnValue, run: from its first word to its end, with SP
  // and the frame as before, and the pops starting where the pushes ended.
  lemma ProcedureCallRuns(code: seq<u16>, at: int, b: Lists, size: nat, d: Data, m: nat, v: VM, c: Callee, r: VM)
    returns (n: nat, before: Data, end: VM)
    requires size < TWO32 && Placed(code, at, SaveWords(b) + AllocWords(size))
    requires Passes(code, VM(at + |SaveWords(b) + AllocWords(size)|, Moved(Save(d, b), size)), m, v) && Returns(code, v, c, r)
    requires Placed(code, r.ip, AllocWords(0 - size) + RestoreWords(b))
    ensures Goes(code, VM(at, d), n, end) && end == VM(v.ip + 2 + |AllocWords(0 - size) + RestoreWords(b)|, Restore(before, b))
    ensures before == Moved(r.d, 0 - size) && before.mem == r.d.mem && before.R[SP] == Save(d, b).R[SP]
    ensures before.R[FP] == Save(d, b).R[FP] && before.frames == Save(d, b).frames && before.left == Save(d, b).left
  {
    hide *;
    var w1, w2, w3, w4 := SaveWords(b), AllocWords(size), AllocWords(0 - size), RestoreWords(b);
    Split(code, at, w1, w2);
    Split(code, r.ip, w3, w4);
    var d1 := Save(d, b);
    var a1 := at + |w1|;
    var v2 := VM(a1 + |w2|, Moved(d1, size));
    PassesMeans(code, v2, m, v);
    ReturnsGoes(code, v, c, r);
    before := Moved(r.d, 0 - size);
    var v5 := VM(r.ip + |w3|, before);
    end := VM(v5.ip + |w4|, Restore(before, b));
    var n1 := SaveRuns(code, at, b, d);
    var n2 := AllocRuns(code, a1, size, d1);
    var n5 := AllocRuns(code, r.ip, 0 - size, r.d);
    var n6 := RestoreRuns(code, v5.ip, b, before);
    n := SixParts(code, VM(at, d), n1, VM(a1, d1), n2, v2, m, v, c.n + 3, r, n5, v5, n6, end);
    MovedBack(d1, r.d, size);
    OnlySP(d1, size);
    OnlySP(r.d, 0 - size);
  }

  lemma PassesMeans(code: seq<u16>, a: VM, n: nat, b: VM)
    requires Passes(code, a, n, b)
    ensures Goes(code, a, n, b) && b.d.R[SP] == a.d.R[SP] && b.d.R[FP] == a.d.R[FP] && b.d.frames == a.d.frames && b.d.left == a.d.left
  {
  }

  lemma OnlySP(d: Data, size: int)
    ensures var e := Moved(d, size); e.mem == d.mem && e.frames == d.frames && e.left == d.left && e.R[FP] == d.R[FP]
  {
    hide A.RoundUpSigned;
    hide Low32;
    hide SetLow32;
  }

  // With the registers saved in one low half, and their cells left alone by the
  // arguments and the callee, every register saved and SP are as before the call.
  lemma ProcedureCallRestores(code: seq<u16>, at: int, b: Lists, size: nat, d: Data, m: nat, v: VM, c: Callee, r: VM)
    returns (n: nat, before: Data, end: VM)
    requires size < TWO32 && Placed(code, at, SaveWords(b) + AllocWords(size))
    requires Passes(code, VM(at + |SaveWords(b) + AllocWords(size)|, Moved(Save(d, b), size)), m, v) && Returns(code, v, c, r)
    requires Placed(code, r.ip, AllocWords(0 - size) + RestoreWords(b))
    requires OneLowHalf(b) && d.R[SP] + 8 * 32 < TWO64 && CellsKept(Save(d, b), r.d, d.R[SP], |Cells(b)|)
    ensures Goes(code, VM(at, d), n, end) && BackAgain(d, b, before, end.d)
    ensures end.d.R[SP] == d.R[SP] && forall k | k in Cells(b) :: Get(end.d, k) == Get(d, k)
  {
    hide *;
    LowHalfIsSavable(b);
    n, before, end := ProcedureCallRuns(code, at, b, size, d, m, v, c, r);
    KeptIsCalled(d, b, r.d, before);
    LowHalfRestores(d, b, before);
    BackMeans(d, b, before, end.d);
  }

  lemma LowHalfIsSavable(b: Lists)
    requires OneLowHalf(b)
    ensures Savable(b)
  {
  }

  lemma KeptIsCalled(d: Data, b: Lists, e: Data, before: Data)
    requires d.R[SP] + 8 * 32 < TWO64 && CellsKept(Save(d, b), e, d.R[SP], |Cells(b)|)
    requires before.mem == e.mem && before.R[SP] == Save(d, b).R[SP]
    ensures Calls(d, b, before)
  {
    hide Save;
    hide Cells;
    hide Load64;
  }

  lemma BackMeans(d: Data, b: Lists, e: Data, f: Data)
    requires BackAgain(d, b, e, f)
    ensures f.R[SP] == d.R[SP] && forall k | k in Cells(b) :: Get(f, k) == Get(d, k)
  {
  }

  // ---- a function call in an expression -----------------------------------------------------------

  // PVMEmitMove of a 32-bit value from the return register, register 0.
  function TakeWords(ret: reg): seq<u16> { if ret == 0 then [] else Encode(Plain(MOV32, ret, 0)) }

  function Taken(d: Data, ret: reg): Data { if ret == 0 then d else SetWord(d, ret, d.R[0]) }

  lemma TakeRuns(code: seq<u16>, at: int, ret: reg, d: Data) returns (n: nat)
    requires Placed(code, at, TakeWords(ret))
    ensures Goes(code, VM(at, d), n, VM(at + |TakeWords(ret)|, Taken(d, ret)))
    ensures Word(Taken(d, ret), ret) == Word(d, 0) && (ret != SP ==> Taken(d, ret).R[SP] == d.R[SP])
  {
    hide Runs;
    hide Encode;
    var zero: reg := 0;
    if ret == zero {
      n := 0;
      NoStep(code, VM(at, d));
    } else {
      n := 1;
      var i := Plain(MOV32, ret, zero);
      RunsOne(code, at, i, d, VM(at + 1, Taken(d, ret)));
      RunsWiden(code, at, at + 1, 0, |code|, VM(at, d), 1, VM(at + 1, Taken(d, ret)));
    }
  }

  // It allocates before it saves, and still deallocates before it restores: the
  // pops start where the pushes ended exactly when no argument is on the stack.
  // The value returned is by then in the register it was allocated.
  lemma FunctionCallRunsIff(code: seq<u16>, at: int, b: Lists, size: nat, ret: reg, d: Data, m: nat, v: VM, c: Callee, r: VM)
    returns (n: nat, before: Data, end: VM)
    requires size < 0xFFFF_FFF8 && ret != SP && Placed(code, at, AllocWords(size) + SaveWords(b))
    requires Passes(code, VM(at + |AllocWords(size) + SaveWords(b)|, Save(Moved(d, size), b)), m, v) && Returns(code, v, c, r)
    requires Placed(code, r.ip, TakeWords(ret) + AllocWords(0 - size) + RestoreWords(b))
    ensures Goes(code, VM(at, d), n, end)
    ensures end == VM(v.ip + 2 + |TakeWords(ret) + AllocWords(0 - size) + RestoreWords(b)|, Restore(before, b))
    ensures before == Moved(Taken(r.d, ret), 0 - size) && Word(before, ret) == Word(r.d, 0)
    ensures before.R[SP] == Save(Moved(d, size), b).R[SP] <==> size == 0
  {
    hide *;
    SmallSize(size);
    var w1, w2, w3, w4, w5 := AllocWords(size), SaveWords(b), TakeWords(ret), AllocWords(0 - size), RestoreWords(b);
    Split(code, at, w1, w2);
    Split(code, r.ip, w3 + w4, w5);
    Split(code, r.ip, w3, w4);
    var d1 := Moved(d, size);
    var d2 := Save(d1, b);
    var a1 := at + |w1|;
    var v2 := VM(a1 + |w2|, d2);
    PassesMeans(code, v2, m, v);
    ReturnsGoes(code, v, c, r);
    var taken := Taken(r.d, ret);
    var v4 := VM(r.ip + |w3|, taken);
    before := Moved(taken, 0 - size);
    var v5 := VM(v4.ip + |w4|, before);
    end := VM(v5.ip + |w5|, Restore(before, b));
    var n1 := AllocRuns(code, at, size, d);
    var n2 := SaveRuns(code, a1, b, d1);
    var n4 := TakeRuns(code, r.ip, ret, r.d);
    GoesOn(code, v, c.n + 3, r, n4, v4);
    var n5 := AllocRuns(code, v4.ip, 0 - size, taken);
    var n6 := RestoreRuns(code, v5.ip, b, before);
    n := SixParts(code, VM(at, d), n1, VM(a1, d1), n2, v2, m, v, c.n + 3 + n4, v4, n5, v5, n6, end);
    MovesIff(taken, size);
    OthersStay(taken, 0 - size, ret);
  }

  lemma OthersStay(d: Data, size: int, r: reg)
    requires r != SP
    ensures Word(Moved(d, size), r) == Word(d, r)
  {
    hide A.RoundUpSigned;
    hide Low32;
    hide SetLow32;
  }

  lemma SmallSize(size: nat)
    requires size < 0xFFFF_FFF8
    ensures size < TWO32
  {
  }

  lemma MovesIff(d: Data, size: nat)
    requires size < 0xFFFF_FFF8
    ensures Moved(d, 0 - size).R[SP] == d.R[SP] <==> size == 0
  {
    A.RoundingMirrors(size, A.STACK_ALIGNMENT);
    A.RoundUpIsLeast(size, A.STACK_ALIGNMENT);
    var k := A.RoundUpSigned(size, A.STACK_ALIGNMENT);
    hide A.RoundUpSigned;
    hide A.RoundUp;
    LowMoves(d.R[SP], k);
  }

  lemma LowMoves(x: u64, k: int)
    requires 0 <= k < TWO32
    ensures SetLow32(x, Low32(x - k)) == x <==> k == 0
  {
  }
}
