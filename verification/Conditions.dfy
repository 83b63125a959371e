// Operands, comparisons and short-circuit conditions as the emitter writes them,
// shown to meet the contracts that statements ask of expression code.
// src/Compiler/Expr.c, src/Compiler/Emitter.c
module Conditions {
  import opened Words
  import opened Isa
  import opened Machine
  import opened Codec
  import opened Statements
  import opened Preservation

  datatype Operand = Variable(x: Var) | Literal(k: u64)

  function ValueOf(o: Operand, s: Store): u32 {
    match o case Variable(x) => Value(s, x) case Literal(k) => Low32(k)
  }

  // MoveMemToReg / MoveRegToReg for 32-bit variables
  function LoadFrom(l: Loc, r: reg): Instr {
    match l
    case InReg(r0) => Plain(MOV32, r, r0)
    case InMem(base, off) => if Fits16(off) then Memory(LD32, r, base, off) else MemoryLong(LD32L, r, base, off)
  }

  // PVMEmitIntoReg, read only: a variable in a register is used where it is.
  predicate Owned(o: Operand, c: Ctx) { o.Literal? || Home(c, o.x).InMem? }

  function IntoReg(o: Operand, c: Ctx): seq<u16> {
    match o
    case Literal(k) => Encode(MovImm(Free(c), k))
    case Variable(x) => if Owned(o, c) then Encode(LoadFrom(Home(c, x), Free(c))) else []
  }

  function RegOf(o: Operand, c: Ctx): reg { if Owned(o, c) then Free(c) else Home(c, o.x).r }

  function After(o: Operand, c: Ctx): Ctx { if Owned(o, c) then Occupy(c, Free(c)) else c }

  predicate CanLoad(o: Operand, c: Ctx) { (Owned(o, c) ==> HasFree(c)) && (o.Variable? ==> o.x in c.env) }

  lemma LoadStep(l: Loc, r: reg, code: seq<u16>, at: int, d: Data)
    requires (l.InMem? ==> Fits32(l.off)) && Placed(code, at, Encode(LoadFrom(l, r)))
    ensures var hi := at + |Encode(LoadFrom(l, r))|;
            var d' := SetWord(d, r, if l.InMem? then Load32(d.mem, Place(l, d)) else d.R[l.r]);
            Runs(code, at, hi, VM(at, d), 1, VM(hi, d'))
  {
    hide Runs;
    hide Encode;
    hide Low32;
    hide SetLow32;
    hide Load32;
    hide Address;
    var i := LoadFrom(l, r);
    RunsOne(code, at, i, d, VM(at + Size(i), SetWord(d, r, if l.InMem? then Load32(d.mem, Place(l, d)) else d.R[l.r])));
  }

  lemma WordOfSet(d: Data, r: reg, v: int)
    ensures Word(SetWord(d, r, v), r) == Low32(v)
  {
  }

  lemma OperandRuns(o: Operand, c: Ctx, code: seq<u16>, at: int, d: Data, s: Store) returns (n: nat, d': Data)
    requires Rep(c, d, s) && CanLoad(o, c) && Placed(code, at, IntoReg(o, c))
    ensures var hi := at + |IntoReg(o, c)|;
            Runs(code, at, hi, VM(at, d), n, VM(hi, d'))
    ensures Rep(c, d', s) && Keeps(c, d, d') && Rep(After(o, c), d', s)
    ensures forall r: reg :: r in c.live ==> d'.R[r] == d.R[r]
    ensures Word(d', RegOf(o, c)) == ValueOf(o, s) && RegOf(o, c) in After(o, c).live
  {
    hide Runs;
    hide Encode;
    hide MovImm;
    hide Low32;
    hide SetLow32;
    hide Load32;
    hide Address;
    hide HasFree;
    hide Free;
    if o.Literal? {
      n := 1;
      d' := LiteralStep(c, code, at, o.k, d, s);
      RepOccupied(c, Free(c), d', s);
    } else if Owned(o, c) {
      FreeIsFree(c);
      n := 1;
      var l := c.env[o.x];
      LoadStep(l, Free(c), code, at, d);
      var v := Load32(d.mem, Place(l, d));
      d' := SetWord(d, Free(c), v);
      WordOfSet(d, Free(c), v);
      LowOfWord(v);
      RepScratch(c, d, d', s);
      RepOccupied(c, Free(c), d', s);
    } else {
      n, d' := 0, d;
      NoSteps(c, code, at, d);
    }
  }

  lemma LowOfWord(v: u32)
    ensures Low32(v) == v
  {
  }

  // ---- integer expressions: a variable or a literal -----------------------------------------

  // PVMEmitMove of an operand into a variable.
  function MoveInto(o: Operand, c: Ctx, x: Var): seq<u16> {
    match Home(c, x)
    case InMem(_, _) => IntoReg(o, c) + Encode(MoveOut(Home(c, x), RegOf(o, c)))
    case InReg(r) =>
      match o
      case Literal(k) => Encode(MovImm(r, k))
      case Variable(y) => if Home(c, y) == InReg(r) then [] else Encode(LoadFrom(Home(c, y), r))
  }

  function OperandExpr(o: Operand): IntExpr {
    IntExpr((c: Ctx) => IntoReg(o, c), (c: Ctx) => RegOf(o, c), (c: Ctx, x: Var) => MoveInto(o, c, x), (s: Store) => ValueOf(o, s),
            if o.Variable? then Some(o.x) else None, {})
  }

  lemma OperandLoadOk(o: Operand, c: Ctx)
    requires CanLoad(o, c)
    ensures LoadOk(OperandExpr(o), c)
  {
    hide Runs;
    hide Rep;
    hide Keeps;
    hide Placed;
    hide IntoReg;
    hide RegOf;
    hide CanLoad;
    hide ValueOf;
    hide Low32;
    hide After;
    var ws := IntoReg(o, c);
    forall code, at, d, s | Enters(c, ws, code, at, d, s)
      ensures exists d' :: Falls(code, at, at + |ws|, d, d') && Rep(c, d', s) && Keeps(c, d, d')
                           && Word(d', RegOf(o, c)) == ValueOf(o, s)
    {
      var n, d' := OperandRuns(o, c, code, at, d, s);
      assert FallsIn(code, at, at + |ws|, n, d, d');
    }
  }

  lemma OtherVars(c: Ctx, x: Var, v: u32, d: Data, s: Store)
    requires Rep(c, d, s) && x in c.env
    ensures forall y | y in c.env && y != x :: Read(c.env[y], d) == s[x := v][y]
    ensures GoodCtx(c) && Apart(c.env, d) && s[x := v].Keys == c.env.Keys
  {
    hide Read;
  }

  lemma MoveRuns(o: Operand, c: Ctx, x: Var, code: seq<u16>, at: int, d: Data, s: Store) returns (n: nat, d': Data)
    requires Rep(c, d, s) && CanLoad(o, c) && x in c.env && Placed(code, at, MoveInto(o, c, x))
    ensures var hi := at + |MoveInto(o, c, x)|;
            Runs(code, at, hi, VM(at, d), n, VM(hi, d'))
    ensures Rep(c, d', s[x := ValueOf(o, s)]) && Keeps(c, d, d')
  {
    if c.env[x].InMem? {
      n, d' := MoveToMem(o, c, x, code, at, d, s);
    } else {
      n, d' := MoveToReg(o, c, x, code, at, d, s);
    }
  }

  lemma OffsetFits(c: Ctx, x: Var)
    requires GoodCtx(c) && x in c.env
    ensures c.env[x].InMem? ==> Fits32(c.env[x].off)
  {
  }

  lemma MoveIntoMem(o: Operand, c: Ctx, x: Var)
    requires x in c.env && c.env[x].InMem?
    ensures MoveInto(o, c, x) == IntoReg(o, c) + Encode(MoveOut(c.env[x], RegOf(o, c)))
  {
  }

  lemma MoveToMem(o: Operand, c: Ctx, x: Var, code: seq<u16>, at: int, d: Data, s: Store) returns (n: nat, d': Data)
    requires Rep(c, d, s) && CanLoad(o, c) && x in c.env && Placed(code, at, MoveInto(o, c, x)) && c.env[x].InMem?
    ensures var hi := at + |MoveInto(o, c, x)|;
            Runs(code, at, hi, VM(at, d), n, VM(hi, d'))
    ensures Rep(c, d', s[x := ValueOf(o, s)]) && Keeps(c, d, d')
  {
    hide *;
    MoveIntoMem(o, c, x);
    var l := c.env[x];
    var w := IntoReg(o, c);
    var r, v := RegOf(o, c), ValueOf(o, s);
    Split(code, at, w, Encode(MoveOut(l, r)));
    var d1;
    n, d1 := OperandRuns(o, c, code, at, d, s);
    OtherVars(c, x, v, d1, s);
    RepGoodCtx(c, d1, s);
    OffsetFits(c, x);
    MoveOutStep(l, r, code, at + |w|, d1);
    d' := d1.(mem := Store32(d1.mem, Place(l, d1), v));
    StoreMemHome(c, x, d1, s[x := v]);
    KeepsJoin(c, d, d1, d');
    var hi := at + |w| + Size(MoveOut(l, r));
    Join(code, at, hi, VM(at, d), at, at + |w|, n, VM(at + |w|, d1), at + |w|, hi, 1, VM(hi, d'));
    n := n + 1;
  }

  lemma MoveToReg(o: Operand, c: Ctx, x: Var, code: seq<u16>, at: int, d: Data, s: Store) returns (n: nat, d': Data)
    requires Rep(c, d, s) && CanLoad(o, c) && x in c.env && Placed(code, at, MoveInto(o, c, x)) && c.env[x].InReg?
    ensures var hi := at + |MoveInto(o, c, x)|;
            Runs(code, at, hi, VM(at, d), n, VM(hi, d'))
    ensures Rep(c, d', s[x := ValueOf(o, s)]) && Keeps(c, d, d')
  {
    hide Runs;
    hide Rep;
    hide Keeps;
    hide Encode;
    hide Placed;
    hide MovImm;
    hide LoadFrom;
    hide Low32;
    hide SetLow32;
    hide Load32;
    hide Address;
    var r, v := c.env[x].r, ValueOf(o, s);
    OtherVars(c, x, v, d, s);
    if o.Literal? {
      n, d' := 1, SetReg(d, r, o.k);
      MovImmLoads(r, o.k);
      MovImmTarget(r, o.k);
      LoadConstantStep(MovImm(r, o.k), code, at, d);
      SetRegHome(c, x, d, s[x := v], o.k);
    } else if c.env[o.x] == InReg(r) {
      n, d' := 0, d;
      SameVariable(c, o.x, x, d, s);
      NoSteps(c, code, at, d);
    } else {
      var l := c.env[o.x];
      LoadStep(l, r, code, at, d);
      var w: u64 := if l.InMem? then Load32(d.mem, Place(l, d)) else d.R[l.r];
      n, d' := 1, SetWord(d, r, w);
      if l.InMem? { LowOfWord(Load32(d.mem, Place(l, d))); }
      StoreRegHome(c, x, d, s[x := v], w);
    }
  }

  lemma SameVariable(c: Ctx, y: Var, x: Var, d: Data, s: Store)
    requires Rep(c, d, s) && x in c.env && y in c.env && c.env[x].InReg? && c.env[x] == c.env[y]
    ensures Rep(c, d, s[x := Value(s, y)])
  {
    hide Read;
    assert x == y;
    assert s[x := Value(s, y)] == s;
  }

  lemma LoadConstantStep(i: Instr, code: seq<u16>, at: int, d: Data)
    requires LoadsConstant(i) && Placed(code, at, Encode(i))
    ensures var hi := at + |Encode(i)|;
            Runs(code, at, hi, VM(at, d), 1, VM(hi, SetReg(d, i.rd, LoadedValue(i))))
  {
    hide Runs;
    hide Encode;
    RunsOne(code, at, i, d, VM(at + Size(i), SetReg(d, i.rd, LoadedValue(i))));
  }

  lemma OperandAssignOk(o: Operand, c: Ctx, x: Var)
    requires CanLoad(o, c) && x in c.env
    ensures AssignOk(OperandExpr(o), c, x)
  {
    hide Runs;
    hide Rep;
    hide Keeps;
    hide Placed;
    hide MoveInto;
    hide CanLoad;
    hide ValueOf;
    var ws := MoveInto(o, c, x);
    forall code, at, d, s | Enters(c, ws, code, at, d, s)
      ensures exists d' :: Falls(code, at, at + |ws|, d, d') && Rep(c, d', s[x := ValueOf(o, s)]) && Keeps(c, d, d')
    {
      var n, d' := MoveRuns(o, c, x, code, at, d, s);
      assert FallsIn(code, at, at + |ws|, n, d, d');
    }
  }

  // ---- the stop value of a for loop -------------------------------------------------------------

  // CompileExprIntoReg: a variable is copied, wherever it lives.
  function IntoOwnReg(o: Operand, c: Ctx): seq<u16> {
    match o
    case Literal(k) => Encode(MovImm(Free(c), k))
    case Variable(x) => Encode(LoadFrom(Home(c, x), Free(c)))
  }

  function StopExpr(o: Operand): IntExpr {
    IntExpr((c: Ctx) => IntoOwnReg(o, c), (c: Ctx) => Free(c), (c: Ctx, x: Var) => MoveInto(o, c, x), (s: Store) => ValueOf(o, s), None, {})
  }

  lemma CopyRuns(c: Ctx, x: Var, code: seq<u16>, at: int, d: Data, s: Store) returns (d': Data)
    requires Rep(c, d, s) && HasFree(c) && x in c.env && Placed(code, at, Encode(LoadFrom(c.env[x], Free(c))))
    ensures var hi := at + |Encode(LoadFrom(c.env[x], Free(c)))|;
            Runs(code, at, hi, VM(at, d), 1, VM(hi, d'))
    ensures Rep(c, d', s) && Keeps(c, d, d') && Word(d', Free(c)) == s[x]
  {
    hide Runs;
    hide Encode;
    hide Low32;
    hide SetLow32;
    hide Load32;
    hide Address;
    hide HasFree;
    hide Free;
    FreeIsFree(c);
    var l := c.env[x];
    LoadStep(l, Free(c), code, at, d);
    var v := if l.InMem? then Load32(d.mem, Place(l, d)) else d.R[l.r];
    d' := SetWord(d, Free(c), v);
    WordOfSet(d, Free(c), v);
    if l.InMem? { LowOfWord(Load32(d.mem, Place(l, d))); }
    RepScratch(c, d, d', s);
  }

  // It gets a register that is not in use.
  lemma StopLoadOk(o: Operand, c: Ctx)
    requires HasFree(c) && (o.Variable? ==> o.x in c.env)
    ensures LoadOk(StopExpr(o), c) && StopExpr(o).reg(c) !in c.live
  {
    var ws := IntoOwnReg(o, c);
    hide Runs;
    hide Rep;
    hide Keeps;
    hide Placed;
    hide Low32;
    hide Encode;
    hide LoadFrom;
    hide MovImm;
    forall code, at, d, s | Enters(c, ws, code, at, d, s)
      ensures exists d' :: Falls(code, at, at + |ws|, d, d') && Rep(c, d', s) && Keeps(c, d, d')
                           && Word(d', Free(c)) == ValueOf(o, s)
    {
      var d';
      match o {
        case Literal(k) => d' := LiteralStep(c, code, at, k, d, s);
        case Variable(x) =>
          d' := CopyRuns(c, x, code, at, d, s);
          InStore(c, d, s, x);
      }
      assert FallsIn(code, at, at + |ws|, 1, d, d');
    }
  }

  lemma InStore(c: Ctx, d: Data, s: Store, x: Var)
    requires Rep(c, d, s) && x in c.env
    ensures x in s
  {
  }
}
