// Adding a constant to a register: what is emitted, and what it does.
// src/Compiler/Emitter.c, src/PVM/PVM.c
module AddImm {
  import opened Words
  import opened Isa
  import opened Codec
  import opened Machine

  function AddOp(wide: bool): u8 { if wide then ADDI64 else ADDI }

  function Low64(imm: int): u64 { imm % TWO64 }

  // PVMEmitAddImm of a constant that is not small, or to an unsigned type.
  function AddInstr(rd: reg, wide: bool, signed: bool, imm: int): Instr {
    var u := Low64(imm);
    var ty := if signed then
                (if -0x8000 <= imm < 0x8000 then IMM_I16
                 else if -0x8000_0000 <= imm < 0x8000_0000 then IMM_I32
                 else if -0x8000_0000_0000 <= imm < 0x8000_0000_0000 then IMM_I48
                 else IMM_U64)
              else if u <= 0xFFFF then IMM_U16
              else if u <= 0xFFFF_FFFF then IMM_U32
              else if u <= 0xFFFF_FFFF_FFFF then IMM_U48
              else IMM_U64;
    Immediate(AddOp(wide), rd, ty, if ImmSigned(ty) then imm else u)
  }

  predicate IsSmall(imm: int) { -8 <= imm <= 7 }

  // A small addend to a signed type goes in the type nibble of ADDI, although
  // only ADDQI reads it from there.
  function AddWords(rd: reg, wide: bool, signed: bool, imm: int): seq<u16> {
    if imm == 0 then []
    else if signed && IsSmall(imm) then [Pack(AddOp(wide), rd, Nibble(imm))]
    else Encode(AddInstr(rd, wide, signed, imm))
  }

  function Added(d: Data, rd: reg, wide: bool, imm: int): Data {
    if wide then SetReg(d, rd, d.R[rd] + imm) else SetWord(d, rd, d.R[rd] + imm)
  }

  lemma AddInstrFits(rd: reg, wide: bool, signed: bool, imm: int)
    requires -0x8000_0000_0000_0000 <= imm < 0x8000_0000_0000_0000
    ensures WellFormed(AddInstr(rd, wide, signed, imm))
  {
    assert Pow16(1) == TWO16 && Pow16(2) == TWO32 && Pow16(3) == TWO48 && Pow16(4) == TWO64;
  }

  lemma SameSum(d: Data, rd: reg, wide: bool, imm: int)
    ensures Added(d, rd, wide, Low64(imm)) == Added(d, rd, wide, imm)
  {
    SameLow(d.R[rd], imm);
    hide Low64;
    hide Low32;
  }

  lemma SameLow(x: u64, imm: int)
    ensures Low32(x + Low64(imm)) == Low32(x + imm) && (x + Low64(imm)) % TWO64 == (x + imm) % TWO64
  {
    var k := imm / TWO64;
    assert x + imm == x + Low64(imm) + k * TWO64;
    assert k * TWO64 == k * TWO32 * TWO32;
    AddWraps(x + Low64(imm), k, TWO64);
    AddWraps(x + Low64(imm), k * TWO32, TWO32);
  }

  lemma AddWraps(y: int, k: int, m: int)
    requires m > 0
    ensures (y + k * m) % m == y % m
  {
    assert y == y / m * m + y % m;
    ModUnique(y + k * m, m, y / m + k, y % m);
  }

  // What the machine makes of a small addend: it is a type, of words that belong
  // to the next instructions, or of none at all.
  lemma SmallAddIsMisread(code: seq<u16>, at: nat, rd: reg, wide: bool, imm: int)
    requires IsSmall(imm) && imm != 0 && at + 5 <= |code| && code[at] == Pack(AddOp(wide), rd, Nibble(imm))
    ensures Decode(code, at).Some?
    ensures var (i, next) := Decode(code, at).value;
            i.Immediate? && i.op == AddOp(wide) && i.rd == rd
            && if 1 <= imm <= 6 then next == at + 1 + ImmWords(imm) && i.imm == ImmValue(imm, Raw(code[at + 1..next]))
               else next == at + 1 && i.imm == 0
  {
    hide Pack;
    hide GetOp;
    hide GetRd;
    hide GetRs;
    hide Pow16;
    hide Raw;
    PackFields(AddOp(wide), rd, Nibble(imm));
    assert Decode(code, at) == DecodeAs(FImmediate, code, at);
  }

  lemma AddsNothing(d: Data, rd: reg, wide: bool, imm: int)
    requires IsSmall(imm) && imm != 0
    ensures Added(d, rd, wide, 0) != Added(d, rd, wide, imm)
  {
    assert Added(d, rd, wide, 0).R[rd] != Added(d, rd, wide, imm).R[rd];
  }

  // Adding a constant does so, and goes on behind its own words, exactly when it
  // is not a small constant added to a signed type.
  lemma AddImmAddsIff(code: seq<u16>, at: nat, rd: reg, wide: bool, signed: bool, imm: int, d: Data)
    requires -0x8000_0000_0000_0000 <= imm < 0x8000_0000_0000_0000 && imm != 0
    requires Placed(code, at, AddWords(rd, wide, signed, imm)) && at + 5 <= |code|
    ensures var ws := AddWords(rd, wide, signed, imm);
            Step(code, VM(at, d)) == Some(VM(at + |ws|, Added(d, rd, wide, imm))) <==> !(signed && -8 <= imm <= 7)
  {
    hide Decode;
    hide Encode;
    if signed && IsSmall(imm) {
      assert code[at..at + 1][0] == code[at];
      SmallAddIsMisread(code, at, rd, wide, imm);
      AddsNothing(d, rd, wide, imm);
    } else {
      var i := AddInstr(rd, wide, signed, imm);
      AddInstrFits(rd, wide, signed, imm);
      SameSum(d, rd, wide, imm);
      DecodeEncode(code, at, i);
    }
  }

  // No type of the same sign that holds the constant takes fewer words.
  lemma AddInstrShortest(rd: reg, wide: bool, signed: bool, imm: int, ty: reg, v: int)
    requires -0x8000_0000_0000_0000 <= imm < 0x8000_0000_0000_0000
    requires WellFormed(Immediate(AddOp(wide), rd, ty, v)) && Low64(v) == Low64(imm) && (ImmSigned(ty) == signed || ty == IMM_U64)
    ensures Size(AddInstr(rd, wide, signed, imm)) <= Size(Immediate(AddOp(wide), rd, ty, v))
  {
    assert Pow16(1) == TWO16 && Pow16(2) == TWO32 && Pow16(3) == TWO48 && Pow16(4) == TWO64;
  }
}
