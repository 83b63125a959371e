// Addresses of variables, and what is read and written through them.
// src/Compiler/Emitter.c, src/Compiler/Expr.c (VariableAddrOf, VariableDeref)
module Pointers {
  import opened Words
  import opened Isa
  import opened Machine
  import opened Codec
  import opened Statements
  import opened Preservation
  import opened Conditions

  // PVMEmitLoadAddr on a 64-bit host
  function AddressWords(r: reg, base: reg, off: int): seq<u16> {
    if off == 0 then (if r == base then [] else Encode(Plain(MOV64, r, base)))
    else if Fits16(off) then Encode(Memory(LEA, r, base, off))
    else Encode(MemoryLong(LEAL, r, base, off))
  }

  lemma AddressRuns(r: reg, base: reg, off: int, code: seq<u16>, at: int, d: Data) returns (n: nat)
    requires Fits32(off) && Placed(code, at, AddressWords(r, base, off))
    ensures var hi := at + |AddressWords(r, base, off)|;
            Runs(code, at, hi, VM(at, d), n, VM(hi, d.(R := d.R[r := Address(d, base, off)])))
  {
    hide Runs;
    hide Encode;
    var e := d.(R := d.R[r := Address(d, base, off)]);
    if off == 0 && r == base {
      n := 0;
      assert e.R == d.R;
      NoSteps(Ctx(map[], {}), code, at, d);
    } else {
      n := 1;
      var i := if off == 0 then Plain(MOV64, r, base) else if Fits16(off) then Memory(LEA, r, base, off) else MemoryLong(LEAL, r, base, off);
      RunsOne(code, at, i, d, VM(at + Size(i), e));
    }
  }

  // The pointer to a variable in memory, in a register not in use.
  lemma AddressOfRuns(c: Ctx, x: Var, code: seq<u16>, at: int, d: Data, s: Store) returns (n: nat, d': Data)
    requires Rep(c, d, s) && HasFree(c) && x in c.env && c.env[x].InMem?
    requires Placed(code, at, AddressWords(Free(c), c.env[x].base, c.env[x].off))
    ensures var hi := at + |AddressWords(Free(c), c.env[x].base, c.env[x].off)|;
            Runs(code, at, hi, VM(at, d), n, VM(hi, d'))
    ensures Rep(c, d', s) && Keeps(c, d, d') && PointsTo(c, d', Free(c), x)
  {
    hide *;
    RepGoodCtx(c, d, s);
    OffsetFits(c, x);
    FreeIsFree(c);
    BaseIsLive(c, x);
    var l, r := c.env[x], Free(c);
    n := AddressRuns(r, l.base, l.off, code, at, d);
    var v := AddressFits(d, l.base, l.off);
    d' := d.(R := d.R[r := v]);
    OneRegister(c, d, r, v, s);
    PointsHere(c, x, r, d);
  }

  lemma AddressFits(d: Data, base: reg, off: int) returns (v: u64)
    ensures v == Address(d, base, off)
  {
    v := Address(d, base, off);
  }

  lemma OneRegister(c: Ctx, d: Data, r: reg, v: u64, s: Store)
    requires Rep(c, d, s) && r !in c.live
    ensures Rep(c, d.(R := d.R[r := v]), s) && Keeps(c, d, d.(R := d.R[r := v]))
  {
    hide Rep;
    hide Keeps;
    RepScratch(c, d, d.(R := d.R[r := v]), s);
  }

  lemma PointsHere(c: Ctx, x: Var, r: reg, d: Data)
    requires x in c.env && c.env[x].InMem? && c.env[x].base != r
    ensures var l := c.env[x]; PointsTo(c, d.(R := d.R[r := Address(d, l.base, l.off)]), r, x)
  {
  }

  lemma BaseIsLive(c: Ctx, x: Var)
    requires GoodCtx(c) && x in c.env && c.env[x].InMem?
    ensures c.env[x].base in c.live
  {
  }

  predicate PointsTo(c: Ctx, d: Data, r: reg, x: Var) {
    x in c.env && c.env[x].InMem? && d.R[r] == Place(c.env[x], d)
  }

  // What is stored through the pointer is the variable's value.
  lemma StoreThrough(c: Ctx, x: Var, p: reg, v: reg, code: seq<u16>, at: int, d: Data, s: Store) returns (d': Data)
    requires Rep(c, d, s) && PointsTo(c, d, p, x) && Placed(code, at, Encode(Memory(ST32, v, p, 0)))
    ensures Runs(code, at, at + 2, VM(at, d), 1, VM(at + 2, d'))
    ensures Rep(c, d', s[x := Word(d, v)]) && Keeps(c, d, d')
  {
    hide *;
    RepGoodCtx(c, d, s);
    PointerIs(c, d, p, x);
    OtherVars(c, x, Word(d, v), d, s);
    StoreMemHome(c, x, d, s[x := Word(d, v)]);
    StoreAt(v, p, code, at, d);
    d' := d.(mem := Store32(d.mem, Place(c.env[x], d), Word(d, v)));
  }

  lemma PointerIs(c: Ctx, d: Data, p: reg, x: Var)
    requires PointsTo(c, d, p, x)
    ensures x in c.env && c.env[x].InMem? && Address(d, p, 0) == Place(c.env[x], d)
  {
  }

  lemma StoreAt(v: reg, p: reg, code: seq<u16>, at: int, d: Data)
    requires Placed(code, at, Encode(Memory(ST32, v, p, 0)))
    ensures Runs(code, at, at + 2, VM(at, d), 1, VM(at + 2, d.(mem := Store32(d.mem, Address(d, p, 0), Word(d, v)))))
  {
    hide Runs;
    hide Encode;
    hide Store32;
    hide Low32;
    hide Address;
    RunsOne(code, at, Memory(ST32, v, p, 0), d, VM(at + 2, d.(mem := Store32(d.mem, Address(d, p, 0), Word(d, v)))));
  }

  // What is loaded through it is.
  lemma LoadThrough(c: Ctx, x: Var, p: reg, v: reg, code: seq<u16>, at: int, d: Data, s: Store) returns (d': Data)
    requires Rep(c, d, s) && PointsTo(c, d, p, x) && v !in c.live && Placed(code, at, Encode(Memory(LD32, v, p, 0)))
    ensures Runs(code, at, at + 2, VM(at, d), 1, VM(at + 2, d'))
    ensures Rep(c, d', s) && Keeps(c, d, d') && x in s && Word(d', v) == s[x]
  {
    hide *;
    PointerIs(c, d, p, x);
    var w := Load32(d.mem, Place(c.env[x], d));
    d' := SetWord(d, v, w);
    ReadsHome(c, x, d, s);
    WordOfSet(d, v, w);
    LowOfWord(w);
    LoadAt(v, p, code, at, d);
    OneRegister(c, d, v, SetWord(d, v, w).R[v], s);
    WordIsRegister(d, v, w);
  }

  lemma ReadsHome(c: Ctx, x: Var, d: Data, s: Store)
    requires Rep(c, d, s) && x in c.env && c.env[x].InMem?
    ensures x in s && s[x] == Load32(d.mem, Place(c.env[x], d))
  {
    hide Load32;
    assert Read(c.env[x], d) == s[x];
  }

  lemma WordIsRegister(d: Data, v: reg, w: u32)
    ensures SetWord(d, v, w) == d.(R := d.R[v := SetWord(d, v, w).R[v]])
  {
    hide Low32;
    hide SetLow32;
  }

  lemma LoadAt(v: reg, p: reg, code: seq<u16>, at: int, d: Data)
    requires Placed(code, at, Encode(Memory(LD32, v, p, 0)))
    ensures Runs(code, at, at + 2, VM(at, d), 1, VM(at + 2, SetWord(d, v, Load32(d.mem, Address(d, p, 0)))))
  {
    hide Runs;
    hide Encode;
    hide Load32;
    hide Low32;
    hide SetLow32;
    hide Address;
    RunsOne(code, at, Memory(LD32, v, p, 0), d, VM(at + 2, SetWord(d, v, Load32(d.mem, Address(d, p, 0)))));
  }

  // ---- 64-bit cells -----------------------------------------------------------------------

  function WideStore(r: reg, base: reg, off: int): Instr {
    if Fits16(off) then Memory(ST64, r, base, off) else MemoryLong(ST64L, r, base, off)
  }

  function WideLoad(r: reg, base: reg, off: int): Instr {
    if Fits16(off) then Memory(LD64, r, base, off) else MemoryLong(LD64L, r, base, off)
  }

  lemma WideStoreRuns(r: reg, base: reg, off: int, code: seq<u16>, at: int, d: Data)
    requires Fits32(off) && Placed(code, at, Encode(WideStore(r, base, off)))
    ensures var hi := at + |Encode(WideStore(r, base, off))|;
            Runs(code, at, hi, VM(at, d), 1, VM(hi, d.(mem := Store64(d.mem, Address(d, base, off), d.R[r]))))
  {
    hide Runs;
    hide Encode;
    hide Store64;
    var i := WideStore(r, base, off);
    RunsOne(code, at, i, d, VM(at + Size(i), d.(mem := Store64(d.mem, Address(d, base, off), d.R[r]))));
  }

  lemma WideLoadRuns(r: reg, base: reg, off: int, code: seq<u16>, at: int, d: Data)
    requires Fits32(off) && Placed(code, at, Encode(WideLoad(r, base, off)))
    ensures var hi := at + |Encode(WideLoad(r, base, off))|;
            Runs(code, at, hi, VM(at, d), 1, VM(hi, d.(R := d.R[r := Load64(d.mem, Address(d, base, off))])))
  {
    hide Runs;
    hide Encode;
    hide Load64;
    var i := WideLoad(r, base, off);
    RunsOne(code, at, i, d, VM(at + Size(i), d.(R := d.R[r := Load64(d.mem, Address(d, base, off))])));
  }
}
