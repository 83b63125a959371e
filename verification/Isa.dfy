// The PVM instruction formats: packing, the interpreter's decoder, the
// disassembler's independent address computation, and branch patching.
// src/Include/PVM/Isa.h, src/PVM/PVM.c, src/PVM/Disassembler.c, src/Compiler/Emitter.c
module Isa {
  import opened Words

  // Opcode numbers are positions in the PVMOp enumeration.
  const SYS := 0
  const ADD := 2
  const SUB := 3
  const ADDI := 14
  const SEQ := 25
  const SLT := 26
  const ISLT := 27
  const SETEZ := 28
  const BEZ := 29
  const BNZ := 30
  const BR := 31
  const CALL := 32
  const BCT := 34
  const BCF := 35
  const BRI := 36
  const LDRIP := 37
  const PSHL := 38
  const PSHH := 39
  const POPL := 40
  const POPH := 41
  const FPSHL := 42
  const FPSHH := 43
  const FPOPL := 44
  const FPOPH := 45
  const GETFLAG := 68
  const SETFLAG := 70
  const NEGFLAG := 72
  const MEMCPY := 73
  const MOV32 := 76
  const MOV64 := 79
  const MOVI := 84
  const MOVQI := 85
  const LD32 := 99
  const LD64 := 100
  const LD32L := 111
  const LD64L := 112
  const LEA := 123
  const LEAL := 124
  const ST32 := 127
  const ST64 := 128
  const ST32L := 131
  const ST64L := 132
  const ADDI64 := 159
  const LAST_OP := 164

  const SYS_EXIT := 0
  const SYS_ENTER := 1

  const IMM_U16 := 0
  const IMM_U32 := 1
  const IMM_U48 := 2
  const IMM_U64 := 3
  const IMM_I16 := 4
  const IMM_I32 := 5
  const IMM_I48 := 6

  datatype Format =
    | FSys | FPlain | FBranch | FBranchReg | FCount | FImmediate
    | FMemory | FMemoryLong | FCopy | FThree | FIllegal

  function FormatOf(op: int): Format {
    if op == SYS then FSys
    else if op == ADDI || op == LDRIP || op == MOVI || op == ADDI64 then FImmediate
    else if op == BEZ || op == BNZ then FBranchReg
    else if op == BR || op == CALL || op == BCT || op == BCF then FBranch
    else if op == BRI then FCount
    else if op == MEMCPY then FCopy
    else if op == 74 || op == 75 then FThree
    else if 99 <= op <= 110 || op == LEA || 125 <= op <= 128 || 133 <= op <= 136 then FMemory
    else if 111 <= op <= 122 || op == LEAL || 129 <= op <= 132 || 137 <= op <= 140 then FMemoryLong
    else if 0 < op <= LAST_OP then FPlain
    else FIllegal
  }

  type reg = r: int | 0 <= r < 16

  datatype Instr =
    | Sys(call: u8)
    | Enter(size: u32)
    | Plain(op: u8, rd: reg, rs: reg)
    | Branch(op: u8, off: int)
    | BranchReg(op: u8, rd: reg, off: int)
    | CountBranch(rd: reg, inc: int, off: int)
    | Immediate(op: u8, rd: reg, ty: reg, imm: int)
    | Memory(op: u8, rd: reg, rs: reg, off: int)
    | MemoryLong(op: u8, rd: reg, rs: reg, off: int)
    | Copy(rd: reg, rs: reg, size: u32)
    | Three(op: u8, rd: reg, rs: reg, rt: reg)

  // ---- fields of a word ------------------------------------------------------

  function Pack(op: u8, rd: reg, rs: reg): u16 { op * 0x100 + rd * 0x10 + rs }
  function PackByte(op: u8, low: int): u16 { op * 0x100 + low % 0x100 }
  function Nibble(x: int): reg { x % 0x10 }
  function Half(x: int): u16 { x % TWO16 }

  function GetOp(w: u16): u8 { w / 0x100 }
  function GetByte(w: u16): u8 { w % 0x100 }
  function GetRd(w: u16): reg { w / 0x10 % 0x10 }
  function GetRs(w: u16): reg { w % 0x10 }

  lemma PackFields(op: u8, rd: reg, rs: reg)
    ensures GetOp(Pack(op, rd, rs)) == op
    ensures GetRd(Pack(op, rd, rs)) == rd
    ensures GetRs(Pack(op, rd, rs)) == rs
  {
  }

  lemma PackByteFields(op: u8, low: int)
    ensures GetOp(PackByte(op, low)) == op
    ensures GetByte(PackByte(op, low)) == low % 0x100
  {
  }

  // GET_BR_IMM and GET_BCC_IMM
  function Offset24(w: u16, next: u16): int {
    SignExtend((next as int * 0x100 + w % 0x100) % 0x100_0000, 0x100_0000)
  }

  function Offset20(w: u16, next: u16): int {
    SignExtend((next as int * 0x10 + w % 0x10) % 0x10_0000, 0x10_0000)
  }

  predicate Fits24(off: int) { -0x80_0000 <= off < 0x80_0000 }
  predicate Fits20(off: int) { -0x8_0000 <= off < 0x8_0000 }
  predicate Fits16(off: int) { -0x8000 <= off < 0x8000 }
  predicate Fits32(off: int) { -0x8000_0000 <= off < 0x8000_0000 }

  lemma LowDigits(off: int, m: int)
    requires m == 0x10 || m == 0x100
    ensures off / m % TWO16 * m + off % m == off % (TWO16 * m)
  {
    var q, r := off / m, off % m;
    var k, s := q / TWO16, q % TWO16;
    assert q == k * TWO16 + s;
    if m == 0x10 {
      assert off == k * 0x10_0000 + (s * 0x10 + r);
      ModUnique(off, 0x10_0000, k, s * 0x10 + r);
    } else {
      assert off == k * 0x100_0000 + (s * 0x100 + r);
      ModUnique(off, 0x100_0000, k, s * 0x100 + r);
    }
  }

  lemma Branch24(op: u8, off: int)
    ensures Offset24(PackByte(op, off), Half(off / 0x100)) == off <==> Fits24(off)
  {
    LowDigits(off, 0x100);
    PackByteFields(op, off);
    SignExtendFits(off, 0x100_0000);
    hide PackByte;
    hide SignExtend;
  }

  lemma Branch20(op: u8, rd: reg, off: int)
    ensures Offset20(Pack(op, rd, Nibble(off)), Half(off / 0x10)) == off <==> Fits20(off)
  {
    LowDigits(off, 0x10);
    PackFields(op, rd, Nibble(off));
    SignExtendFits(off, 0x10_0000);
    hide Pack;
    hide SignExtend;
  }

  lemma Offset16(off: int)
    ensures SignExtend(Half(off), TWO16) == off <==> Fits16(off)
  {
    SignExtendFits(off, TWO16);
  }

  lemma Increment(inc: int)
    ensures SignExtend(Nibble(inc), 0x10) == inc <==> -8 <= inc < 8
  {
    SignExtendFits(inc, 0x10);
  }

  // ---- immediates ----------------------------------------------------------

  predicate ImmType(ty: int) { IMM_U16 <= ty <= IMM_I48 }

  predicate ImmSigned(ty: int) { ty >= IMM_I16 }

  function ImmWords(ty: int): (n: nat)
    requires ImmType(ty)
    ensures 1 <= n <= 4
  {
    if ImmSigned(ty) then ty - 3 else ty + 1
  }

  function Pow16(n: nat): (p: int)
    ensures p > 0 && (n > 0 ==> p % 2 == 0)
  {
    if n == 0 then 1 else TWO16 * Pow16(n - 1)
  }

  predicate ImmFits(ty: int, imm: int)
    requires ImmType(ty)
  {
    var m := Pow16(ImmWords(ty));
    if ImmSigned(ty) then -m / 2 <= imm < m / 2 else 0 <= imm < m
  }

  // The words of a value, least significant first (`Imm >> i*16`).
  function WordsOf(x: int, n: nat): (ws: seq<u16>)
    ensures |ws| == n
    decreases n
  {
    if n == 0 then [] else [x % TWO16] + WordsOf(x / TWO16, n - 1)
  }

  function Raw(ws: seq<u16>): (x: nat)
    ensures x < Pow16(|ws|)
  {
    if |ws| == 0 then 0 else ws[0] + TWO16 * Raw(ws[1..])
  }

  lemma {:induction false} RawOfWords(x: int, n: nat)
    ensures Raw(WordsOf(x, n)) == x % Pow16(n)
    decreases n
  {
    if n > 0 {
      RawOfWords(x / TWO16, n - 1);
      assert WordsOf(x, n)[1..] == WordsOf(x / TWO16, n - 1);
      DigitStep(x, Pow16(n - 1));
    }
  }

  lemma DigitStep(x: int, p: int)
    requires p > 0
    ensures x % TWO16 + TWO16 * (x / TWO16 % p) == x % (TWO16 * p)
  {
    var q, r := x / TWO16, x % TWO16;
    var k, s := q / p, q % p;
    assert q == k * p + s;
    assert TWO16 * (k * p) == k * (TWO16 * p);
    assert x == k * (TWO16 * p) + (TWO16 * s + r);
    ModUnique(x, TWO16 * p, k, TWO16 * s + r);
  }

  lemma {:induction false} RawAppend(ws: seq<u16>, w: u16)
    ensures Raw(ws + [w]) == Raw(ws) + Pow16(|ws|) * w
  {
    if |ws| == 0 {
      assert ws + [w] == [w];
    } else {
      assert (ws + [w])[1..] == ws[1..] + [w];
      RawAppend(ws[1..], w);
      Distribute(ws[0], Raw(ws[1..]), Pow16(|ws| - 1), w);
    }
  }

  lemma Distribute(a: int, r: int, p: int, w: int)
    ensures a + TWO16 * (r + p * w) == a + TWO16 * r + TWO16 * p * w
  {
  }

  function ImmValue(ty: int, raw: int): int
    requires ImmType(ty) && 0 <= raw < Pow16(ImmWords(ty))
  {
    if ImmSigned(ty) then SignExtend(raw, Pow16(ImmWords(ty))) else raw
  }

  lemma ImmRoundTrip(ty: int, imm: int)
    requires ImmType(ty)
    ensures var ws := WordsOf(imm, ImmWords(ty)); ImmValue(ty, Raw(ws)) == imm <==> ImmFits(ty, imm)
  {
    var m := Pow16(ImmWords(ty));
    RawOfWords(imm, ImmWords(ty));
    if ImmSigned(ty) {
      SignExtendFits(imm, m);
    } else if 0 <= imm < m {
      ModUnique(imm, m, 0, imm);
    }
  }

  // GET_SEX_IMM: the interpreter accumulates the words it reads, then sign extends.
  method GetSexImm(code: seq<u16>, ip: nat, ty: int) returns (imm: int, next: nat)
    requires ImmType(ty) && ip + ImmWords(ty) <= |code|
    ensures next == ip + ImmWords(ty)
    ensures imm == ImmValue(ty, Raw(code[ip..next]))
  {
    var count := ImmWords(ty);
    var out, scale, i := 0, 1, 0;
    next := ip;
    while i < count
      invariant 0 <= i <= count && next == ip + i
      invariant scale == Pow16(i) && out == Raw(code[ip..next])
    {
      RawAppend(code[ip..next], code[next]);
      assert code[ip..next] + [code[next]] == code[ip..next + 1];
      out := out + scale * code[next];
      scale := scale * TWO16;
      next := next + 1;
      i := i + 1;
    }
    imm := if ImmSigned(ty) then SignExtend(out, scale) else out;
  }

  // GetImmFromImmType: the disassembler reads one word unconditionally, and
  // treats an unknown immediate type as a signed 16-bit one.
  method GetImmFromImmType(code: seq<u16>, addr: nat, ty: int) returns (imm: int, next: nat)
    requires 0 <= ty < 0x10
    requires addr + DisasmImmWords(ty) <= |code|
    ensures next == addr + DisasmImmWords(ty)
    ensures imm == ImmValue(if ImmType(ty) then ty else IMM_I16, Raw(code[addr..next]))
  {
    var count := DisasmImmWords(ty);
    imm, next := code[addr], addr + 1;
    var scale, i := TWO16, 1;
    assert code[addr..next] == [code[addr]];
    while i < count
      invariant 1 <= i <= count && next == addr + i
      invariant scale == Pow16(i) && imm == Raw(code[addr..next])
    {
      RawAppend(code[addr..next], code[next]);
      assert code[addr..next] + [code[next]] == code[addr..next + 1];
      imm := imm + scale * code[next];
      scale := scale * TWO16;
      next := next + 1;
      i := i + 1;
    }
    if ty >= IMM_I16 {
      imm := SignExtend(imm, scale);
    }
  }

  function DisasmImmWords(ty: int): (n: nat)
    ensures ImmType(ty) ==> n == ImmWords(ty)
  {
    if ty == IMM_I32 || ty == IMM_U32 then 2
    else if ty == IMM_I48 || ty == IMM_U48 then 3
    else if ty == IMM_U64 then 4
    else 1
  }

  // ---- encoding and the interpreter's decoder --------------------------------

  function FormatOfInstr(i: Instr): Format {
    match i
    case Sys(_) => FSys
    case Enter(_) => FSys
    case Plain(_, _, _) => FPlain
    case Branch(_, _) => FBranch
    case BranchReg(_, _, _) => FBranchReg
    case CountBranch(_, _, _) => FCount
    case Immediate(_, _, _, _) => FImmediate
    case Memory(_, _, _, _) => FMemory
    case MemoryLong(_, _, _, _) => FMemoryLong
    case Copy(_, _, _) => FCopy
    case Three(_, _, _, _) => FThree
  }

  // The opcode, or the call number, selects the constructor's format.
  predicate OpcodeOk(i: Instr) {
    match i
    case Sys(call) => call != SYS_ENTER
    case Enter(_) => true
    case CountBranch(_, _, _) => true
    case Copy(_, _, _) => true
    case _ => FormatOf(i.op) == FormatOfInstr(i)
  }

  // The operands survive the width of their fields.
  predicate OperandsFit(i: Instr) {
    match i
    case Branch(_, off) => Fits24(off)
    case BranchReg(_, _, off) => Fits20(off)
    case CountBranch(_, inc, off) => -8 <= inc < 8 && Fits16(off)
    case Immediate(_, _, ty, imm) => ImmType(ty) && ImmFits(ty, imm)
    case Memory(_, _, _, off) => Fits16(off)
    case MemoryLong(_, _, _, off) => Fits32(off)
    case _ => true
  }

  predicate WellFormed(i: Instr) {
    OpcodeOk(i) && OperandsFit(i)
  }

  function Size(i: Instr): (n: nat)
    ensures 1 <= n <= 5
  {
    match i
    case Sys(_) => 1
    case Plain(_, _, _) => 1
    case Enter(_) => 3
    case Branch(_, _) => 2
    case BranchReg(_, _, _) => 2
    case CountBranch(_, _, _) => 2
    case Immediate(_, _, ty, _) => if ImmType(ty) then 1 + ImmWords(ty) else 1
    case Memory(_, _, _, _) => 2
    case MemoryLong(_, _, _, _) => 3
    case Copy(_, _, _) => 3
    case Three(_, _, _, _) => 2
  }

  function Encode(i: Instr): (ws: seq<u16>)
    ensures |ws| == Size(i)
  {
    match i
    case Sys(call) => [PackByte(SYS, call)]
    case Enter(size) => [PackByte(SYS, SYS_ENTER)] + WordsOf(size, 2)
    case Plain(op, rd, rs) => [Pack(op, rd, rs)]
    case Branch(op, off) => [PackByte(op, off), Half(off / 0x100)]
    case BranchReg(op, rd, off) => [Pack(op, rd, Nibble(off)), Half(off / 0x10)]
    case CountBranch(rd, inc, off) => [Pack(BRI, rd, Nibble(inc)), Half(off)]
    case Immediate(op, rd, ty, imm) =>
      [Pack(op, rd, ty)] + if ImmType(ty) then WordsOf(imm, ImmWords(ty)) else []
    case Memory(op, rd, rs, off) => [Pack(op, rd, rs), Half(off)]
    case MemoryLong(op, rd, rs, off) => [Pack(op, rd, rs)] + WordsOf(off, 2)
    case Copy(rd, rs, size) => [Pack(MEMCPY, rd, rs)] + WordsOf(size, 2)
    case Three(op, rd, rs, rt) => [Pack(op, rd, rs), Pack(0, rt, 0)]
  }

  predicate Placed(code: seq<u16>, at: int, ws: seq<u16>) {
    0 <= at && at + |ws| <= |code| && code[at..at + |ws|] == ws
  }

  lemma Split(code: seq<u16>, at: int, a: seq<u16>, b: seq<u16>)
    requires Placed(code, at, a + b)
    ensures Placed(code, at, a) && Placed(code, at + |a|, b)
  {
    var w := code[at..at + |a| + |b|];
    assert w[..|a|] == code[at..at + |a|] && w[|a|..] == code[at + |a|..at + |a| + |b|];
    assert (a + b)[..|a|] == a && (a + b)[|a|..] == b;
  }

  // The switch of PVMInterpret, reading operands through the moving IP.
  function Decode(code: seq<u16>, at: int): (r: Option<(Instr, int)>)
    ensures r.Some? ==> 0 <= at && r.value.1 == at + Size(r.value.0) <= |code|
  {
    if 0 <= at < |code| then DecodeAs(FormatOf(GetOp(code[at])), code, at) else None
  }

  function DecodeAs(f: Format, code: seq<u16>, at: nat): (r: Option<(Instr, int)>)
    requires at < |code|
    ensures r.Some? ==> r.value.1 == at + Size(r.value.0) <= |code|
  {
    var w := code[at];
    var op, rd, rs := GetOp(w), GetRd(w), GetRs(w);
    var left := |code| - at - 1;
    match f
    case FIllegal => None
    case FPlain => Some((Plain(op, rd, rs), at + 1))
    case FSys =>
      if GetByte(w) != SYS_ENTER then Some((Sys(GetByte(w)), at + 1))
      else if left < 2 then None
      else Some((Enter(Raw(code[at + 1..at + 3])), at + 3))
    case FBranch =>
      if left < 1 then None
      else Some((Branch(op, Offset24(w, code[at + 1])), at + 2))
    case FBranchReg =>
      if left < 1 then None
      else Some((BranchReg(op, rd, Offset20(w, code[at + 1])), at + 2))
    case FCount =>
      if left < 1 then None
      else Some((CountBranch(rd, SignExtend(rs, 0x10), SignExtend(code[at + 1], TWO16)), at + 2))
    case FImmediate =>
      if !ImmType(rs) then Some((Immediate(op, rd, rs, 0), at + 1))
      else if left < ImmWords(rs) then None
      else var n := at + 1 + ImmWords(rs);
           Some((Immediate(op, rd, rs, ImmValue(rs, Raw(code[at + 1..n]))), n))
    case FMemory =>
      if left < 1 then None
      else Some((Memory(op, rd, rs, SignExtend(code[at + 1], TWO16)), at + 2))
    case FMemoryLong =>
      if left < 2 then None
      else Some((MemoryLong(op, rd, rs, ImmValue(IMM_I32, Raw(code[at + 1..at + 3]))), at + 3))
    case FCopy =>
      if left < 2 then None
      else Some((Copy(rd, rs, Raw(code[at + 1..at + 3])), at + 3))
    case FThree =>
      if left < 1 then None
      else Some((Three(op, rd, rs, GetRd(code[at + 1])), at + 2))
  }

  lemma FirstWord(i: Instr)
    requires OpcodeOk(i)
    ensures FormatOf(GetOp(Encode(i)[0])) == FormatOfInstr(i)
  {
    hide Pack;
    hide PackByte;
    hide GetOp;
    match i
    case Sys(call) => PackByteFields(SYS, call);
    case Enter(_) => PackByteFields(SYS, SYS_ENTER);
    case Branch(op, off) => PackByteFields(op, off);
    case BranchReg(op, rd, off) => PackFields(op, rd, Nibble(off));
    case CountBranch(rd, inc, off) => PackFields(BRI, rd, Nibble(inc));
    case Immediate(op, rd, ty, imm) => PackFields(op, rd, ty);
    case Copy(rd, rs, size) => PackFields(MEMCPY, rd, rs);
    case _ => PackFields(i.op, i.rd, i.rs);
  }

  lemma DecodeFirst(code: seq<u16>, at: int, i: Instr)
    requires OpcodeOk(i) && Placed(code, at, Encode(i))
    ensures Decode(code, at) == DecodeAs(FormatOfInstr(i), code, at)
    ensures forall k :: 0 <= k < Size(i) ==> code[at + k] == Encode(i)[k]
  {
    hide FormatOf;
    hide Encode;
    hide DecodeAs;
    var ws := code[at..at + Size(i)];
    assert forall k :: 0 <= k < Size(i) ==> ws[k] == code[at + k];
    FirstWord(i);
  }

  // The words behind the first one carry the immediate.
  lemma ReadTail(code: seq<u16>, at: nat, i: Instr, ty: int, imm: int)
    requires Placed(code, at, Encode(i)) && ImmType(ty) && ImmFits(ty, imm)
    requires Size(i) == 1 + ImmWords(ty) && Encode(i)[1..] == WordsOf(imm, ImmWords(ty))
    ensures ImmValue(ty, Raw(code[at + 1..at + Size(i)])) == imm
  {
    assert code[at..at + Size(i)][1..] == code[at + 1..at + Size(i)];
    ImmRoundTrip(ty, imm);
  }

  lemma DecodeImmediate(code: seq<u16>, at: int, i: Instr)
    requires i.Immediate? && OpcodeOk(i) && ImmType(i.ty) && Placed(code, at, Encode(i))
    ensures Decode(code, at).Some?
    ensures Decode(code, at) == Some((i, at + Size(i))) <==> OperandsFit(i)
  {
    hide Pack;
    hide GetOp;
    hide GetRd;
    hide GetRs;
    hide FormatOf;
    hide WordsOf;
    hide Raw;
    hide Pow16;
    DecodeFirst(code, at, i);
    PackFields(i.op, i.rd, i.ty);
    var n := ImmWords(i.ty);
    assert code[at..at + 1 + n][1..] == code[at + 1..at + 1 + n];
    assert code[at] == Pack(i.op, i.rd, i.ty) && code[at + 1..at + 1 + n] == WordsOf(i.imm, n);
    hide Encode;
    hide Decode;
    hide ImmWords;
    hide ImmValue;
    hide ImmFits;
    ImmRoundTrip(i.ty, i.imm);
  }

  lemma DecodeLong(code: seq<u16>, at: int, i: Instr)
    requires WellFormed(i) && Placed(code, at, Encode(i))
    requires i.Enter? || i.Copy? || i.MemoryLong?
    ensures Decode(code, at) == Some((i, at + Size(i)))
  {
    LongFits(i);
    hide Pack;
    hide PackByte;
    hide GetOp;
    hide GetByte;
    hide GetRd;
    hide GetRs;
    hide FormatOf;
    hide WordsOf;
    hide Raw;
    hide Pow16;
    DecodeFirst(code, at, i);
    if i.Enter? {
      PackByteFields(SYS, SYS_ENTER);
      ReadTail(code, at, i, IMM_U32, i.size);
    } else if i.Copy? {
      PackFields(MEMCPY, i.rd, i.rs);
      ReadTail(code, at, i, IMM_U32, i.size);
    } else {
      PackFields(i.op, i.rd, i.rs);
      ReadTail(code, at, i, IMM_I32, i.off);
    }
  }

  lemma LongFits(i: Instr)
    ensures i.Enter? ==> ImmFits(IMM_U32, i.size)
    ensures i.Copy? ==> ImmFits(IMM_U32, i.size)
    ensures i.MemoryLong? && Fits32(i.off) ==> ImmFits(IMM_I32, i.off)
  {
    assert Pow16(2) == TWO16 * Pow16(1);
  }

  // A branch reads back as itself exactly when its distance fits its field.
  lemma DecodeBranch(code: seq<u16>, at: int, i: Instr)
    requires i.Branch? || i.BranchReg? || (i.CountBranch? && -8 <= i.inc < 8)
    requires OpcodeOk(i) && Placed(code, at, Encode(i))
    ensures Decode(code, at).Some?
    ensures Decode(code, at) == Some((i, at + Size(i))) <==> OperandsFit(i)
  {
    DecodeFirst(code, at, i);
    BranchWords(code, at, i);
    hide Encode;
    hide Decode;
    hide Pack;
    hide PackByte;
    hide GetOp;
    hide GetRd;
    hide GetRs;
    hide FormatOf;
    hide Half;
    hide Nibble;
    hide Offset20;
    hide Offset24;
    hide SignExtend;
    match i
    case Branch(op, off) =>
      PackByteFields(op, off);
      Branch24(op, off);
    case BranchReg(op, rd, off) =>
      PackFields(op, rd, Nibble(off));
      Branch20(op, rd, off);
    case CountBranch(rd, inc, off) =>
      PackFields(BRI, rd, Nibble(inc));
      Increment(inc);
      Offset16(off);
  }

  lemma BranchWords(code: seq<u16>, at: int, i: Instr)
    requires i.Branch? || i.BranchReg? || i.CountBranch?
    requires Placed(code, at, Encode(i))
    ensures 0 <= at && at + 2 <= |code|
    ensures code[at] == if i.Branch? then PackByte(i.op, i.off) else if i.BranchReg? then Pack(i.op, i.rd, Nibble(i.off)) else Pack(BRI, i.rd, Nibble(i.inc))
    ensures code[at + 1] == Half(if i.Branch? then i.off / 0x100 else if i.BranchReg? then i.off / 0x10 else i.off)
  {
    hide Pack;
    hide PackByte;
    hide Half;
    hide Nibble;
    var ws := code[at..at + 2];
    assert ws[0] == code[at] && ws[1] == code[at + 1];
  }

  lemma DecodePlain(code: seq<u16>, at: int, i: Instr)
    requires WellFormed(i) && Placed(code, at, Encode(i))
    requires i.Sys? || i.Plain? || i.Memory? || i.Three?
    ensures Decode(code, at) == Some((i, at + Size(i)))
  {
    hide Pack;
    hide PackByte;
    hide GetOp;
    hide GetByte;
    hide GetRd;
    hide GetRs;
    hide FormatOf;
    hide Half;
    DecodeFirst(code, at, i);
    match i
    case Sys(call) => PackByteFields(SYS, call);
    case Plain(op, rd, rs) => PackFields(op, rd, rs);
    case Memory(op, rd, rs, off) => PackFields(op, rd, rs); Offset16(off);
    case Three(op, rd, rs, rt) => PackFields(op, rd, rs); PackFields(0, rt, 0);
  }

  // Whatever is stored around it, an instruction written at `at` is read back
  // as itself, and the reader ends just behind it.
  lemma DecodeEncode(code: seq<u16>, at: int, i: Instr)
    requires WellFormed(i) && Placed(code, at, Encode(i))
    ensures Decode(code, at) == Some((i, at + Size(i)))
  {
    hide Decode;
    hide Encode;
    match i
    case Enter(_) => DecodeLong(code, at, i);
    case Copy(_, _, _) => DecodeLong(code, at, i);
    case MemoryLong(_, _, _, _) => DecodeLong(code, at, i);
    case Immediate(_, _, _, _) => DecodeImmediate(code, at, i);
    case Branch(_, _) => DecodeBranch(code, at, i);
    case BranchReg(_, _, _) => DecodeBranch(code, at, i);
    case CountBranch(_, _, _) => DecodeBranch(code, at, i);
    case _ => DecodePlain(code, at, i);
  }
}
