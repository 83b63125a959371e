// PVMInterpret as a step function over the modelled instructions.
// src/PVM/PVM.c
module Machine {
  import opened Words
  import opened Isa

  const GP := 13
  const FP := 14
  const SP := 15

  type Bank = r: seq<u64> | |r| == 16 witness seq(16, _ => 0)
  type Memory = map<int, u8>

  datatype Frame = Frame(ip: int, fp: u64)

  // Everything but the instruction pointer.  `frames` is RetStack, `left` its SizeLeft.
  datatype Data = Data(R: Bank, F: Bank, cond: bool, mem: Memory, frames: seq<Frame>, left: nat)

  datatype VM = VM(ip: int, d: Data)

  // ---- memory, one little-endian byte per address ------------------------------

  function Byte(m: Memory, a: int): u8 { if a in m then m[a] else 0 }

  function Load32(m: Memory, a: int): u32 {
    Byte(m, a) + 0x100 * Byte(m, a + 1) + 0x1_0000 * Byte(m, a + 2) + 0x100_0000 * Byte(m, a + 3)
  }

  function Store32(m: Memory, a: int, v: u32): Memory {
    m[a := v % 0x100][a + 1 := v / 0x100 % 0x100][a + 2 := v / 0x1_0000 % 0x100][a + 3 := v / 0x100_0000]
  }

  function Load64(m: Memory, a: int): u64 { Load32(m, a) + TWO32 * Load32(m, a + 4) }

  function Store64(m: Memory, a: int, v: u64): Memory {
    Store32(Store32(m, a, v % TWO32), a + 4, v / TWO32)
  }

  lemma LoadStore32(m: Memory, a: int, v: u32, b: int)
    ensures Load32(Store32(m, a, v), a) == v
    ensures b + 4 <= a || a + 4 <= b ==> Load32(Store32(m, a, v), b) == Load32(m, b)
  {
    FourBytes(v);
    StoredBytes(m, a, v, b);
    hide Store32;
    hide Byte;
  }

  lemma FourBytes(v: u32)
    ensures v % 0x100 + 0x100 * (v / 0x100 % 0x100) + 0x1_0000 * (v / 0x1_0000 % 0x100) + 0x100_0000 * (v / 0x100_0000) == v
  {
    var a := v / 0x100;
    var b := a / 0x100;
    assert v == 0x100 * a + v % 0x100 && a == 0x100 * b + a % 0x100 && b == 0x100 * (b / 0x100) + b % 0x100;
    assert v / 0x1_0000 == b && v / 0x100_0000 == b / 0x100;
  }

  lemma StoredBytes(m: Memory, a: int, v: u32, b: int)
    ensures var r := Store32(m, a, v);
            && Byte(r, a) == v % 0x100 && Byte(r, a + 1) == v / 0x100 % 0x100
            && Byte(r, a + 2) == v / 0x1_0000 % 0x100 && Byte(r, a + 3) == v / 0x100_0000
            && (b + 4 <= a || a + 4 <= b ==>
                  Byte(r, b) == Byte(m, b) && Byte(r, b + 1) == Byte(m, b + 1)
                  && Byte(r, b + 2) == Byte(m, b + 2) && Byte(r, b + 3) == Byte(m, b + 3))
  {
  }

  lemma LoadStore64(m: Memory, a: int, v: u64, b: int)
    ensures Load64(Store64(m, a, v), a) == v
    ensures b + 8 <= a || a + 8 <= b ==> Load64(Store64(m, a, v), b) == Load64(m, b)
  {
    hide Load32;
    hide Store32;
    var m1 := Store32(m, a, v % TWO32);
    LoadStore32(m1, a + 4, v / TWO32, a);
    LoadStore32(m, a, v % TWO32, a);
    if b + 8 <= a || a + 8 <= b {
      LoadStore32(m1, a + 4, v / TWO32, b);
      LoadStore32(m1, a + 4, v / TWO32, b + 4);
      LoadStore32(m, a, v % TWO32, b);
      LoadStore32(m, a, v % TWO32, b + 4);
    }
  }

  // ---- register updates ----------------------------------------------------------

  function Word(d: Data, r: reg): u32 { Low32(d.R[r]) }

  function SetReg(d: Data, r: reg, v: int): Data { d.(R := d.R[r := v % TWO64]) }

  function SetWord(d: Data, r: reg, v: int): Data { d.(R := d.R[r := SetLow32(d.R[r], Low32(v))]) }

  function Address(d: Data, base: reg, off: int): int { (d.R[base] + off) % TWO64 }

  // ---- PUSH_MULTIPLE and POP_MULTIPLE -----------------------------------------------

  function BankOf(d: Data, flt: bool): Bank { if flt then d.F else d.R }

  function SetBank(d: Data, flt: bool, r: reg, v: u64): Data {
    if flt then d.(F := d.F[r := v]) else d.(R := d.R[r := v])
  }

  function Push(d: Data, v: u64): Data {
    var sp := Address(d, SP, 8);
    d.(R := d.R[SP := sp], mem := Store64(d.mem, sp, v))
  }

  function Pop(d: Data): (Data, u64) {
    (d.(R := d.R[SP := Address(d, SP, -8)]), Load64(d.mem, d.R[SP]))
  }

  // `i` runs from Base while the list has bits left; bit 0 is the next register.
  function PushMultiple(d: Data, flt: bool, list: u8, i: nat, top: nat): Data
    requires i <= top <= 16
    decreases top - i
  {
    if list == 0 || i == top then d
    else PushMultiple(if list % 2 == 1 then Push(d, BankOf(d, flt)[i]) else d, flt, list / 2, i + 1, top)
  }

  // Bit 7 is tested first.  As written, the register popped is (Base + 7) - i,
  // read as a 4-bit number, where i starts at Base; `repaired` counts from 0.
  function PopIndex(base: nat, i: nat, repaired: bool): reg {
    Nibble(base + 7 - if repaired then i - base else i)
  }

  function PopMultiple(d: Data, flt: bool, list: u8, i: nat, base: nat, repaired: bool): Data
    requires base <= i <= base + 8
    decreases base + 8 - i
  {
    if list == 0 || i == base + 8 then d
    else
      var d' := if list >= 0x80 then var (p, v) := Pop(d); SetBank(p, flt, PopIndex(base, i, repaired), v) else d;
      PopMultiple(d', flt, list * 2 % 0x100, i + 1, base, repaired)
  }

  // ---- one step ------------------------------------------------------------------------

  // None when the machine stops: EXIT at the global scope, call-stack overflow,
  // an illegal instruction, or one this model does not execute.
  function Step(code: seq<u16>, vm: VM): Option<VM> {
    match Decode(code, vm.ip)
    case None => None
    case Some((i, next)) => Execute(i, next, vm.d)
  }

  function Execute(i: Instr, next: int, d: Data): Option<VM> {
    match i
    case Plain(op, rd, rs) =>
      (match PlainEffect(op, rd, rs, d) case None => None case Some(d') => Some(VM(next, d')))
    case Sys(call) => if call == SYS_EXIT then Exit(d) else None
    case Enter(size) => Some(VM(next, EnterFrame(d, size)))
    case Branch(op, off) =>
      if op == BR then Some(VM(next + off, d))
      else if op == BCT then Some(VM(if d.cond then next + off else next, d))
      else if op == BCF then Some(VM(if !d.cond then next + off else next, d))
      else if op == CALL then Call(next, next + off, d)
      else None
    case BranchReg(op, rd, off) =>
      var zero := Word(d, rd) == 0;
      Some(VM(if (op == BEZ) == zero then next + off else next, d))
    case CountBranch(rd, inc, off) => Some(VM(next + off, SetReg(d, rd, d.R[rd] + inc)))
    case Immediate(op, rd, ty, imm) =>
      if op == MOVI then Some(VM(next, SetReg(d, rd, imm)))
      else if op == ADDI then Some(VM(next, SetWord(d, rd, d.R[rd] + imm)))
      else if op == ADDI64 then Some(VM(next, SetReg(d, rd, d.R[rd] + imm)))
      else None
    case Memory(op, rd, rs, off) => (match MemoryEffect(op, rd, rs, off, d) case None => None case Some(d') => Some(VM(next, d')))
    case MemoryLong(op, rd, rs, off) =>
      if op == LD32L || op == LD64L || op == LEAL || op == ST32L || op == ST64L then
        (match MemoryEffect(ShortForm(op), rd, rs, off, d) case None => None case Some(d') => Some(VM(next, d')))
      else None
    case Copy(_, _, _) => None
    case Three(_, _, _, _) => None
  }

  function PlainEffect(op: int, rd: reg, rs: reg, d: Data): Option<Data> {
    if op == ADD then Some(SetWord(d, rd, d.R[rd] as int + d.R[rs] as int))
    else if op == SUB then Some(SetWord(d, rd, d.R[rd] as int - d.R[rs] as int))
    else if op == SEQ then Some(d.(cond := Word(d, rd) == Word(d, rs)))
    else if op == SLT then Some(d.(cond := Word(d, rd) < Word(d, rs)))
    else if op == ISLT then Some(d.(cond := Signed32(Word(d, rd)) < Signed32(Word(d, rs))))
    else if op == SETEZ then Some(SetWord(d, rd, if Word(d, rs) == 0 then 1 else 0))
    else if op == GETFLAG then Some(SetWord(d, rd, if d.cond then 1 else 0))
    else if op == SETFLAG then Some(d.(cond := Word(d, rd) != 0))
    else if op == NEGFLAG then Some(d.(cond := !d.cond))
    else if op == MOV32 then Some(SetWord(d, rd, d.R[rs]))
    else if op == MOV64 then Some(SetReg(d, rd, d.R[rs]))
    else if op == MOVQI then Some(SetReg(d, rd, SignExtend(rs, 0x10)))
    else if op == PSHL then Some(PushMultiple(d, false, rd * 0x10 + rs, 0, 8))
    else if op == PSHH then Some(PushMultiple(d, false, rd * 0x10 + rs, 8, 16))
    else if op == FPSHL then Some(PushMultiple(d, true, rd * 0x10 + rs, 0, 8))
    else if op == FPSHH then Some(PushMultiple(d, true, rd * 0x10 + rs, 8, 16))
    else if op == POPL then Some(PopMultiple(d, false, rd * 0x10 + rs, 0, 0, false))
    else if op == POPH then Some(PopMultiple(d, false, rd * 0x10 + rs, 8, 8, false))
    else if op == FPOPL then Some(PopMultiple(d, true, rd * 0x10 + rs, 0, 0, false))
    else if op == FPOPH then Some(PopMultiple(d, true, rd * 0x10 + rs, 8, 8, false))
    else None
  }

  function ShortForm(op: int): int {
    if op == LD32L then LD32 else if op == LD64L then LD64 else if op == LEAL then LEA
    else if op == ST32L then ST32 else ST64
  }

  function MemoryEffect(op: int, rd: reg, rs: reg, off: int, d: Data): Option<Data> {
    var a := Address(d, rs, off);
    if op == LD32 then Some(SetWord(d, rd, Load32(d.mem, a)))
    else if op == LD64 then Some(SetReg(d, rd, Load64(d.mem, a)))
    else if op == ST32 then Some(d.(mem := Store32(d.mem, a, Word(d, rd))))
    else if op == ST64 then Some(d.(mem := Store64(d.mem, a, d.R[rd])))
    else if op == LEA then Some(SetReg(d, rd, a))
    else None
  }

  function Call(next: int, to: int, d: Data): Option<VM> {
    if d.left == 0 then None
    else Some(VM(to, d.(frames := d.frames + [Frame(next, d.R[FP])], left := d.left - 1)))
  }

  function EnterFrame(d: Data, size: int): Data {
    var fp := Address(d, SP, 8);
    d.(R := d.R[FP := fp][SP := Address(d, SP, size)])
  }

  function Exit(d: Data): Option<VM> {
    if |d.frames| == 0 then None
    else
      var f := d.frames[|d.frames| - 1];
      Some(VM(f.ip, d.(R := d.R[SP := Address(d, FP, -8)][FP := f.fp],
                       frames := d.frames[..|d.frames| - 1], left := d.left + 1)))
  }

  // ---- runs -------------------------------------------------------------------------------

  // `n` steps lead from `vm` to `end`, each taken at an address inside [lo, hi).
  ghost predicate Runs(code: seq<u16>, lo: int, hi: int, vm: VM, n: nat, end: VM)
    decreases n
  {
    if n == 0 then vm == end
    else lo <= vm.ip < hi && Step(code, vm).Some? && Runs(code, lo, hi, Step(code, vm).value, n - 1, end)
  }

  lemma {:induction false} RunsJoin(code: seq<u16>, lo: int, hi: int, a: VM, n: nat, b: VM, m: nat, c: VM)
    requires Runs(code, lo, hi, a, n, b) && Runs(code, lo, hi, b, m, c)
    ensures Runs(code, lo, hi, a, n + m, c)
    decreases n
  {
    hide Step;
    if n > 0 {
      RunsJoin(code, lo, hi, Step(code, a).value, n - 1, b, m, c);
    }
  }

  lemma {:induction false} RunsWiden(code: seq<u16>, lo: int, hi: int, lo': int, hi': int, a: VM, n: nat, b: VM)
    requires Runs(code, lo, hi, a, n, b) && lo' <= lo && hi <= hi'
    ensures Runs(code, lo', hi', a, n, b)
    decreases n
  {
    hide Step;
    if n > 0 {
      RunsWiden(code, lo, hi, lo', hi', Step(code, a).value, n - 1, b);
    }
  }

  // The machine is deterministic: two runs that leave the span meet.
  lemma {:induction false} RunsDeterministic(code: seq<u16>, lo: int, hi: int, a: VM, n: nat, b: VM, m: nat, c: VM)
    requires Runs(code, lo, hi, a, n, b) && Runs(code, lo, hi, a, m, c)
    requires !(lo <= b.ip < hi)
    ensures m <= n
    ensures !(lo <= c.ip < hi) ==> m == n && b == c
    decreases n
  {
    hide Step;
    if n > 0 && m > 0 {
      RunsDeterministic(code, lo, hi, Step(code, a).value, n - 1, b, m - 1, c);
    }
  }

  // One instruction found at `at`.
  lemma RunsOne(code: seq<u16>, at: int, i: Instr, d: Data, end: VM)
    requires WellFormed(i) && Placed(code, at, Encode(i))
    requires Execute(i, at + Size(i), d) == Some(end)
    ensures Runs(code, at, at + Size(i), VM(at, d), 1, end)
  {
    hide Decode;
    hide Encode;
    hide Execute;
    DecodeEncode(code, at, i);
    assert Step(code, VM(at, d)) == Some(end);
    assert Runs(code, at, at + Size(i), end, 0, end);
  }
}
