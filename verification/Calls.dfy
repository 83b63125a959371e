// CALL, ENTER and EXIT over whole runs.
// src/PVM/PVM.c
module Calls {
  import opened Words
  import opened Isa
  import opened Machine

  // Instructions whose destination is FP.
  predicate WritesFP(i: Instr) {
    match i
    case Plain(op, rd, _) =>
      rd == FP && (op == ADD || op == SUB || op == SETEZ || op == GETFLAG || op == MOV32 || op == MOV64 || op == MOVQI)
    case CountBranch(rd, _, _) => rd == FP
    case Immediate(_, rd, _, _) => rd == FP
    case Memory(op, rd, _, _) => rd == FP && (op == LD32 || op == LD64 || op == LEA)
    case MemoryLong(op, rd, _, _) => rd == FP && (op == LD32L || op == LD64L || op == LEAL)
    case _ => false
  }

  predicate IsCall(i: Instr) { i.Branch? && i.op == CALL }
  predicate IsExit(i: Instr) { i.Sys? && i.call == SYS_EXIT }

  lemma {:induction false} PushKeepsFrame(d: Data, flt: bool, list: u8, i: nat, top: nat)
    requires i <= top <= 16
    ensures var e := PushMultiple(d, flt, list, i, top);
            e.R[FP] == d.R[FP] && e.frames == d.frames && e.left == d.left
    decreases top - i
  {
    hide Store64;
    if list != 0 && i != top {
      PushKeepsFrame(if list % 2 == 1 then Push(d, BankOf(d, flt)[i]) else d, flt, list / 2, i + 1, top);
    }
  }

  // As written, only R0-R7 and SP are popped into.
  lemma {:induction false} PopKeepsFrame(d: Data, flt: bool, list: u8, i: nat, base: nat)
    requires base <= i <= base + 8 && (base == 0 || base == 8)
    ensures var e := PopMultiple(d, flt, list, i, base, false);
            e.R[FP] == d.R[FP] && e.frames == d.frames && e.left == d.left
    decreases base + 8 - i
  {
    hide Load64;
    if list != 0 && i != base + 8 {
      var d' := if list >= 0x80 then var (p, v) := Pop(d); SetBank(p, flt, PopIndex(base, i, false), v) else d;
      assert PopIndex(base, i, false) < 8;
      PopKeepsFrame(d', flt, list * 2 % 0x100, i + 1, base);
    }
  }

  lemma PlainKeepsFrame(op: u8, rd: reg, rs: reg, d: Data)
    requires !WritesFP(Plain(op, rd, rs)) && PlainEffect(op, rd, rs, d).Some?
    ensures var e := PlainEffect(op, rd, rs, d).value;
            e.R[FP] == d.R[FP] && e.frames == d.frames && e.left == d.left
  {
    hide PushMultiple;
    hide PopMultiple;
    var list := rd * 0x10 + rs;
    PushKeepsFrame(d, false, list, 0, 8);
    PushKeepsFrame(d, false, list, 8, 16);
    PushKeepsFrame(d, true, list, 0, 8);
    PushKeepsFrame(d, true, list, 8, 16);
    PopKeepsFrame(d, false, list, 0, 0);
    PopKeepsFrame(d, false, list, 8, 8);
    PopKeepsFrame(d, true, list, 0, 0);
    PopKeepsFrame(d, true, list, 8, 8);
  }

  lemma OrdinaryKeepsFrame(i: Instr, next: int, d: Data)
    requires !IsCall(i) && !IsExit(i) && !i.Enter? && !WritesFP(i) && Execute(i, next, d).Some?
    ensures var e := Execute(i, next, d).value.d;
            e.R[FP] == d.R[FP] && e.frames == d.frames && e.left == d.left
  {
    hide PlainEffect;
    hide Store32;
    hide Store64;
    hide Load32;
    hide Load64;
    match i
    case Plain(op, rd, rs) => PlainKeepsFrame(op, rd, rs, d);
    case _ =>
  }

  // ---- the return stack --------------------------------------------------------------------

  // Whatever is executed, what is left of the return stack and its depth add up
  // to the same.
  lemma StepConserves(i: Instr, next: int, d: Data)
    requires Execute(i, next, d).Some?
    ensures var e := Execute(i, next, d).value.d;
            e.left + |e.frames| == d.left + |d.frames|
  {
    hide PlainEffect;
    hide Store32;
    hide Store64;
    hide Load32;
    hide Load64;
    if i.Plain? {
      PlainConserves(i.op, i.rd, i.rs, d);
    }
  }

  lemma PlainConserves(op: u8, rd: reg, rs: reg, d: Data)
    requires PlainEffect(op, rd, rs, d).Some?
    ensures var e := PlainEffect(op, rd, rs, d).value; e.frames == d.frames && e.left == d.left
  {
    if WritesFP(Plain(op, rd, rs)) {
    } else {
      PlainKeepsFrame(op, rd, rs, d);
    }
  }

  lemma {:induction false} RunConserves(code: seq<u16>, lo: int, hi: int, vm: VM, n: nat, end: VM)
    requires Runs(code, lo, hi, vm, n, end)
    ensures end.d.left + |end.d.frames| == vm.d.left + |vm.d.frames|
    decreases n
  {
    hide Decode;
    hide Execute;
    if n > 0 {
      var (i, next) := Decode(code, vm.ip).value;
      StepConserves(i, next, vm.d);
      RunConserves(code, lo, hi, Step(code, vm).value, n - 1, end);
    }
  }

  // A call with no room left stops the machine; with room it always proceeds.
  lemma OverflowIff(code: seq<u16>, vm: VM, off: int, next: int)
    requires Decode(code, vm.ip) == Some((Branch(CALL, off), next))
    ensures Step(code, vm).None? <==> vm.d.left == 0
    ensures vm.d.left > 0 ==> Step(code, vm).value.ip == next + off
  {
    hide Decode;
  }

  // ---- one activation --------------------------------------------------------------------------

  // FP as the activation at depth `level` sees it: in the register, or saved by
  // the first call it made.
  function LevelFP(d: Data, level: nat): u64
    requires |d.frames| >= level
  {
    if |d.frames| == level then d.R[FP] else d.frames[level].fp
  }

  // What a callee at depth `level` may execute before its own exit.
  predicate Allowed(i: Instr, depth: nat, level: nat) {
    !WritesFP(i) && (depth == level ==> !i.Enter? && !IsExit(i))
  }

  // `n` steps of an activation at depth `level` and of what it calls.
  ghost predicate Activation(code: seq<u16>, level: nat, vm: VM, n: nat, end: VM)
    decreases n
  {
    && |vm.d.frames| >= level
    && if n == 0 then vm == end
       else && Decode(code, vm.ip).Some?
            && Allowed(Decode(code, vm.ip).value.0, |vm.d.frames|, level)
            && Step(code, vm).Some? && Activation(code, level, Step(code, vm).value, n - 1, end)
  }

  lemma StepKeepsLevel(i: Instr, next: int, d: Data, level: nat)
    requires |d.frames| >= level && Allowed(i, |d.frames|, level) && Execute(i, next, d).Some?
    ensures var e := Execute(i, next, d).value.d;
            && |e.frames| >= level && e.frames[..level] == d.frames[..level]
            && LevelFP(e, level) == LevelFP(d, level)
  {
    if !IsCall(i) && !IsExit(i) && !i.Enter? {
      hide Execute;
      OrdinaryKeepsFrame(i, next, d);
    }
  }

  lemma {:induction false} ActivationKeepsLevel(code: seq<u16>, level: nat, vm: VM, n: nat, end: VM)
    requires Activation(code, level, vm, n, end)
    ensures |end.d.frames| >= level && end.d.frames[..level] == vm.d.frames[..level]
    ensures LevelFP(end.d, level) == LevelFP(vm.d, level)
    ensures end.d.left + |end.d.frames| == vm.d.left + |vm.d.frames|
    decreases n
  {
    hide Decode;
    hide Execute;
    hide Allowed;
    if n > 0 {
      var (i, next) := Decode(code, vm.ip).value;
      StepKeepsLevel(i, next, vm.d, level);
      StepConserves(i, next, vm.d);
      ActivationKeepsLevel(code, level, Step(code, vm).value, n - 1, end);
    }
  }

  // From a CALL at `v0` through the callee's ENTER, its activation, and its EXIT,
  // execution is back behind the call, with FP, SP and the return stack as before
  // it, whatever the callee pushed or called.
  lemma CallReturns(code: seq<u16>, v0: VM, off: int, next: int, v1: VM, size: u32, n1: int, v2: VM, n: nat, v3: VM, n3: int, v4: VM)
    requires Decode(code, v0.ip) == Some((Branch(CALL, off), next)) && Step(code, v0) == Some(v1)
    requires Decode(code, v1.ip) == Some((Enter(size), n1)) && Step(code, v1) == Some(v2)
    requires Activation(code, |v0.d.frames| + 1, v2, n, v3)
    requires |v3.d.frames| == |v0.d.frames| + 1
    requires Decode(code, v3.ip) == Some((Sys(SYS_EXIT), n3)) && Step(code, v3) == Some(v4)
    ensures v4.ip == next && v4.d.R[FP] == v0.d.R[FP] && v4.d.R[SP] == v0.d.R[SP]
    ensures v4.d.frames == v0.d.frames && v4.d.left == v0.d.left
    ensures v1.ip == next + off && v2.ip == n1 && v2.d.R[FP] == (v0.d.R[SP] + 8) % TWO64 && v2.d.R[SP] == (v0.d.R[SP] + size) % TWO64
  {
    hide Decode;
    hide PlainEffect;
    hide MemoryEffect;
    var level := |v0.d.frames| + 1;
    ActivationKeepsLevel(code, level, v2, n, v3);
    hide Activation;
    assert v3.d.frames[..level] == v3.d.frames && v2.d.frames[..level] == v2.d.frames;
    assert v2.d.frames == v0.d.frames + [Frame(next, v0.d.R[FP])];
    BackToSP(v0.d.R[SP]);
  }

  lemma BackToSP(sp: u64)
    ensures ((sp + 8) % TWO64 - 8) % TWO64 == sp
  {
  }

  // Without its ENTER, a callee gives SP back exactly when the caller's frame was
  // empty: EXIT takes SP from FP.
  lemma WithoutEnterReturnsIff(code: seq<u16>, v0: VM, off: int, next: int, v1: VM, n: nat, v3: VM, n3: int, v4: VM)
    requires Decode(code, v0.ip) == Some((Branch(CALL, off), next)) && Step(code, v0) == Some(v1)
    requires Activation(code, |v0.d.frames| + 1, v1, n, v3)
    requires |v3.d.frames| == |v0.d.frames| + 1
    requires Decode(code, v3.ip) == Some((Sys(SYS_EXIT), n3)) && Step(code, v3) == Some(v4)
    ensures v4.ip == next && v4.d.R[FP] == v0.d.R[FP]
    ensures v4.d.R[SP] == v0.d.R[SP] <==> v0.d.R[FP] == (v0.d.R[SP] + 8) % TWO64
  {
    hide Decode;
    hide PlainEffect;
    hide MemoryEffect;
    var level := |v0.d.frames| + 1;
    ActivationKeepsLevel(code, level, v1, n, v3);
    hide Activation;
    assert v3.d.frames[..level] == v3.d.frames && v1.d.frames[..level] == v1.d.frames;
    BackToSP(v0.d.R[SP]);
    BelowFP(v0.d.R[FP]);
  }

  lemma BelowFP(fp: u64)
    ensures ((fp - 8) % TWO64 + 8) % TWO64 == fp
  {
  }
}
