// Instruction streams: written words read back as the same instructions, both
// decoders agree on instruction lengths, MovImm picks the shortest encoding, and
// a patched branch reaches its target.
module Codec {
  import opened Words
  import opened Isa

  // ---- streams ---------------------------------------------------------------

  function EncodeAll(prog: seq<Instr>): seq<u16> {
    if |prog| == 0 then [] else Encode(prog[0]) + EncodeAll(prog[1..])
  }

  // Sequential decoding from `at` to the end of the code.
  function DecodeAll(code: seq<u16>, at: nat): Option<seq<Instr>>
    decreases |code| - at
  {
    if at >= |code| then Some([]) else
    match Decode(code, at)
    case None => None
    case Some((i, next)) =>
      match DecodeAll(code, next)
      case None => None
      case Some(rest) => Some([i] + rest)
  }

  lemma StreamRoundTrip(prog: seq<Instr>)
    requires forall i :: i in prog ==> WellFormed(i)
    ensures DecodeAll(EncodeAll(prog), 0) == Some(prog)
  {
    StreamSuffix([], prog);
    assert [] + EncodeAll(prog) == EncodeAll(prog);
  }

  lemma {:induction false} StreamSuffix(before: seq<u16>, prog: seq<Instr>)
    requires forall i :: i in prog ==> WellFormed(i)
    ensures DecodeAll(before + EncodeAll(prog), |before|) == Some(prog)
    decreases |prog|
  {
    hide Decode;
    hide Encode;
    if |prog| > 0 {
      var i, rest := prog[0], EncodeAll(prog[1..]);
      var code := before + Encode(i) + rest;
      assert code == before + EncodeAll(prog);
      assert Placed(code, |before|, Encode(i));
      DecodeEncode(code, |before|, i);
      StreamSuffix(before + Encode(i), prog[1..]);
      assert [i] + prog[1..] == prog;
    }
  }

  // PVMDisasmSingleInstruction: the address it returns, by its own switch.
  function DisasmNext(code: seq<u16>, at: nat): nat
    requires at < |code|
  {
    var w := code[at];
    var op := GetOp(w);
    if op == SYS then (if GetByte(w) == SYS_ENTER then at + 1 + DisasmImmWords(IMM_U32) else at + 1)
    else if op == ADDI || op == ADDI64 || op == LDRIP || op == MOVI then at + 1 + DisasmImmWords(GetRs(w))
    else if BEZ <= op <= CALL || BCT <= op <= BRI then at + 2
    else if op == MEMCPY then at + 1 + DisasmImmWords(IMM_U32)
    else if op == 74 || op == 75 then at + 2
    else if 99 <= op <= 110 || op == LEA || 125 <= op <= 128 || 133 <= op <= 136 then at + 1 + DisasmImmWords(IMM_I16)
    else if 111 <= op <= 140 then at + 1 + DisasmImmWords(IMM_I32)
    else at + 1
  }

  // The interpreter and the disassembler step by the same number of words,
  // except over an immediate whose type nibble is not one of the seven types:
  // there the interpreter reads no word and the disassembler reads one.
  lemma DecodersAgree(code: seq<u16>, at: nat)
    requires at < |code| && Decode(code, at).Some?
    ensures var (i, next) := Decode(code, at).value;
            DisasmNext(code, at) == next <==> (i.Immediate? ==> ImmType(i.ty))
  {
    var op := GetOp(code[at]);
    if FormatOf(op).FSys? {
    } else {
      assert op != SYS;
    }
  }

  // ---- ChunkWriteMovImm --------------------------------------------------------

  function Signed64(v: u64): int { SignExtend(v, TWO64) }

  // The instruction chosen by the chain of range tests.
  function MovImm(rd: reg, v: u64): (i: Instr)
    ensures WellFormed(i)
  {
    var s := Signed64(v);
    if -8 <= s <= 7 then Plain(MOVQI, rd, Nibble(s))
    else if -0x8000 <= s < 0x8000 then Immediate(MOVI, rd, IMM_I16, s)
    else if v <= 0xFFFF then Immediate(MOVI, rd, IMM_U16, v)
    else if -0x8000_0000 <= s < 0x8000_0000 then Immediate(MOVI, rd, IMM_I32, s)
    else if v <= 0xFFFF_FFFF then Immediate(MOVI, rd, IMM_U32, v)
    else if -0x8000_0000_0000 <= s < 0x8000_0000_0000 then Immediate(MOVI, rd, IMM_I48, s)
    else if v <= 0xFFFF_FFFF_FFFF then Immediate(MOVI, rd, IMM_U48, v)
    else Immediate(MOVI, rd, IMM_U64, v)
  }

  // What the register holds after a MOVQI or MOVI.
  function LoadedValue(i: Instr): u64
    requires (i.Plain? && i.op == MOVQI) || (i.Immediate? && i.op == MOVI)
  {
    (if i.Plain? then SignExtend(i.rs, 0x10) else i.imm) % TWO64
  }

  predicate LoadsConstant(i: Instr) {
    WellFormed(i) && ((i.Plain? && i.op == MOVQI) || (i.Immediate? && i.op == MOVI))
  }

  lemma MovImmLoads(rd: reg, v: u64)
    ensures LoadsConstant(MovImm(rd, v)) && LoadedValue(MovImm(rd, v)) == v
  {
    SignExtendFits(Signed64(v), 0x10);
  }

  lemma MovImmShortest(rd: reg, v: u64, j: Instr)
    requires LoadsConstant(j) && LoadedValue(j) == v
    ensures Size(MovImm(rd, v)) <= Size(j)
  {
    if j.Immediate? {
      ImmBounds(j);
      if ImmWords(j.ty) < 4 { LoadsExactly(j, v); }
    } else {
      SignExtendLoads(j, v);
    }
    hide LoadsConstant;
    hide LoadedValue;
    hide Pow16;
  }

  // Below eight bytes an immediate is the value itself, or the value as signed.
  lemma LoadsExactly(j: Instr, v: u64)
    requires LoadsConstant(j) && LoadedValue(j) == v && j.Immediate? && ImmWords(j.ty) < 4
    ensures if ImmSigned(j.ty) then Signed64(v) == j.imm else v == j.imm
  {
    ImmBounds(j);
    hide Pow16;
    hide WellFormed;
  }

  lemma ImmBounds(j: Instr)
    requires LoadsConstant(j) && j.Immediate?
    ensures ImmType(j.ty)
    ensures var n := ImmWords(j.ty);
            var m := if n == 1 then TWO16 else if n == 2 then TWO32 else if n == 3 then TWO48 else TWO64;
            if ImmSigned(j.ty) then n < 4 && -m / 2 <= j.imm < m / 2 else 0 <= j.imm < m
  {
    assert Pow16(1) == TWO16 && Pow16(2) == TWO32 && Pow16(3) == TWO48;
  }

  lemma SignExtendLoads(j: Instr, v: u64)
    requires LoadsConstant(j) && LoadedValue(j) == v && j.Plain?
    ensures -8 <= Signed64(v) < 8
  {
  }

  // ---- PVMPatchBranch ------------------------------------------------------------

  predicate Patchable(op: int) {
    op == BRI || op == BEZ || op == BNZ || op == BR || op == CALL || op == BCT || op == BCF || op == LDRIP
  }

  function PatchSize(op: int): nat {
    if op == LDRIP then 3 else 2
  }

  // The words PVMPatchBranch writes over a site, `off` being To - From.
  function PatchedWords(site: seq<u16>, off: int): (ws: seq<u16>)
    requires |site| >= 1 && Patchable(GetOp(site[0])) && |site| == PatchSize(GetOp(site[0]))
    ensures |ws| == |site|
  {
    var w, op := site[0], GetOp(site[0]);
    if op == BRI then [w, Half(off - 1)]
    else if op == BEZ || op == BNZ then [Pack(op, GetRd(w), Nibble(off - 2)), Half((off - 2) / 0x10)]
    else if op == LDRIP then [w] + WordsOf(off - 3, 2)
    else [PackByte(op, off - 2), Half((off - 2) / 0x100)]
  }

  // `(Code & 0xFFF0) | nibble` and `(Code & 0xFF00) | byte`
  lemma Splice(w: u16, x: int)
    ensures Pack(GetOp(w), GetRd(w), Nibble(x)) == w - w % 0x10 + x % 0x10
    ensures PackByte(GetOp(w), x) == w - w % 0x100 + x % 0x100
  {
    var q, r := w / 0x10, w / 0x100;
    assert w == q * 0x10 + w % 0x10 && w == r * 0x100 + w % 0x100;
    assert q / 0x10 == r && q == r * 0x10 + q % 0x10;
  }

  predicate Site(code: seq<u16>, from: int) {
    0 <= from < |code| && Patchable(GetOp(code[from])) && from + PatchSize(GetOp(code[from])) <= |code|
  }

  function Patch(code: seq<u16>, from: int, to: int): (r: seq<u16>)
    requires Site(code, from)
    ensures |r| == |code|
  {
    var n := PatchSize(GetOp(code[from]));
    code[..from] + PatchedWords(code[from..from + n], to - from) + code[from + n..]
  }

  predicate IsSite(i: Instr) {
    OpcodeOk(i)
    && (i.Branch? || i.BranchReg? || (i.CountBranch? && -8 <= i.inc < 8)
        || (i.Immediate? && i.op == LDRIP && i.ty == IMM_I32))
  }

  function Retarget(i: Instr, off: int): Instr
    requires IsSite(i)
  {
    match i
    case Branch(op, _) => Branch(op, off)
    case BranchReg(op, rd, _) => BranchReg(op, rd, off)
    case CountBranch(rd, inc, _) => CountBranch(rd, inc, off)
    case Immediate(op, rd, ty, _) => Immediate(op, rd, ty, off)
  }

  // The amount PVMPatchBranch takes off the distance.
  function Adjustment(i: Instr): int {
    if i.CountBranch? then 1 else Size(i)
  }

  // Patching rewrites only the offset field of the site: the result is the same
  // instruction with another offset, and no other word changes.
  lemma PatchRetargets(code: seq<u16>, from: int, to: int, i: Instr)
    requires IsSite(i) && Placed(code, from, Encode(i))
    ensures Site(code, from) && IsSite(Retarget(i, to - from - Adjustment(i)))
    ensures var r := Patch(code, from, to);
            && Placed(r, from, Encode(Retarget(i, to - from - Adjustment(i))))
            && (forall k :: 0 <= k < |code| && !(from <= k < from + Size(i)) ==> r[k] == code[k])
  {
    hide Encode;
    hide PatchedWords;
    hide GetOp;
    var n := Size(i);
    assert code[from] == code[from..from + n][0];
    SiteWords(i, to - from);
    var r := Patch(code, from, to);
    assert r[from..from + n] == PatchedWords(code[from..from + n], to - from);
  }

  lemma SiteWords(i: Instr, off: int)
    requires IsSite(i)
    ensures var w := Encode(i)[0];
            Patchable(GetOp(w)) && PatchSize(GetOp(w)) == Size(i)
            && PatchedWords(Encode(i), off) == Encode(Retarget(i, off - Adjustment(i)))
  {
    hide Pack;
    hide PackByte;
    hide GetOp;
    hide GetRd;
    hide Half;
    hide Nibble;
    hide WordsOf;
    match i
    case Branch(op, o) => PackByteFields(op, o);
    case BranchReg(op, rd, o) => PackFields(op, rd, Nibble(o));
    case CountBranch(rd, inc, o) => PackFields(BRI, rd, Nibble(inc));
    case Immediate(op, rd, ty, o) => PackFields(op, rd, ty);
  }

  // Where the instruction at `at` transfers to, or what address it loads.
  function Target(i: Instr, at: int): int
    requires IsSite(i)
  {
    at + Size(i) + if i.Immediate? then i.imm else i.off
  }

  // A patched site reaches its target exactly when the distance fits its field.
  // BRI departs: its adjustment is 1 although it has two words, so a patched BRI
  // can only reach the word behind the requested one.
  lemma PatchReaches(code: seq<u16>, from: int, to: int, i: Instr)
    requires IsSite(i) && Placed(code, from, Encode(i))
    ensures Site(code, from)
    ensures var aim := if i.CountBranch? then to + 1 else to;
            var j := Retarget(i, aim - from - Size(i));
            Target(j, from) == aim
            && (Decode(Patch(code, from, to), from) == Some((j, from + Size(i))) <==> OperandsFit(j))
  {
    hide Decode;
    hide Encode;
    hide Patch;
    hide FormatOf;
    PatchRetargets(code, from, to, i);
    var aim := if i.CountBranch? then to + 1 else to;
    var j := Retarget(i, aim - from - Size(i));
    if i.Immediate? {
      DecodeImmediate(Patch(code, from, to), from, j);
    } else {
      DecodeBranch(Patch(code, from, to), from, j);
    }
  }
}
