// Sums, differences and stored conditions: what their words leave in a register.
// src/Compiler/Expr.c (RuntimeExprBinary, ExprUnary), src/Compiler/Emitter.c
module Arithmetic {
  import opened Words
  import opened Isa
  import opened Machine
  import opened Codec
  import opened Statements
  import opened Preservation
  import opened Conditions
  import opened AddImm
  import opened ShortCircuit

  // ---- sums ---------------------------------------------------------------------------------

  function Negated(k: u64): int { Signed64((0 - k) % TWO64) }

  // PVMEmitAdd and PVMEmitSub of the right operand.  Both of them negate a literal.
  function AddTo(r: reg, minus: bool, ty: CounterType, b: Operand, c: Ctx): seq<u16> {
    match b
    case Literal(k) => AddWords(r, false, ty == Int32, Negated(k))
    case Variable(_) => IntoReg(b, c) + Encode(Plain(if minus then SUB else ADD, r, RegOf(b, c)))
  }

  // The left operand is copied, the right one added to the copy.
  function SumWords(minus: bool, ty: CounterType, a: Operand, b: Operand, c: Ctx): seq<u16> {
    IntoOwnReg(a, c) + AddTo(Free(c), minus, ty, b, Occupy(c, Free(c)))
  }

  // Pascal's meaning, and what is computed.
  function Sum(minus: bool, a: u32, b: u32): u32 { Low32(if minus then a - b else a + b) }
  function Computed(minus: bool, a: u32, b: Operand, s: Store): u32 { Sum(minus || b.Literal?, a, ValueOf(b, s)) }

  predicate CanAdd(ty: CounterType, a: Operand, b: Operand, c: Ctx) {
    && HasFree(c) && (a.Variable? ==> a.x in c.env) && CanLoad(b, Occupy(c, Free(c)))
    && (b.Literal? ==> !(ty == Int32 && IsSmall(Negated(b.k))))
  }

  // Adding a literal subtracts it: the sum is right exactly when that is the same.
  lemma SumRightIff(minus: bool, a: u32, b: Operand, s: Store)
    ensures Computed(minus, a, b, s) == Sum(minus, a, ValueOf(b, s)) <==> minus || b.Variable? || ValueOf(b, s) % 0x8000_0000 == 0
  {
    if !minus && b.Literal? { PlusMinus(a, ValueOf(b, s)); }
  }

  lemma PlusMinus(a: u32, k: u32)
    ensures Low32(a - k) == Low32(a + k) <==> k % 0x8000_0000 == 0
  {
  }

  lemma LiteralAdds(r: reg, ty: CounterType, k: u64, code: seq<u16>, at: int, d: Data) returns (n: nat)
    requires !(ty == Int32 && IsSmall(Negated(k))) && Placed(code, at, AddWords(r, false, ty == Int32, Negated(k)))
    ensures var hi := at + |AddWords(r, false, ty == Int32, Negated(k))|;
            Runs(code, at, hi, VM(at, d), n, VM(hi, SetWord(d, r, d.R[r] + Negated(k))))
  {
    hide Runs;
    hide Encode;
    hide AddInstr;
    hide Low32;
    hide SetLow32;
    var imm := Negated(k);
    if imm == 0 {
      n := 0;
      NothingAdded(d, r);
      NoSteps(Ctx(map[], {}), code, at, d);
    } else {
      n := 1;
      var i := AddInstr(r, false, ty == Int32, imm);
      AddInstrFits(r, false, ty == Int32, imm);
      AddsImmediate(r, ty == Int32, imm, at, d);
      RunsOne(code, at, i, d, VM(at + Size(i), Added(d, r, false, imm)));
    }
  }

  lemma NothingAdded(d: Data, r: reg)
    ensures SetWord(d, r, d.R[r] + 0) == d
  {
    assert SetWord(d, r, d.R[r] + 0).R == d.R;
  }

  lemma AddsImmediate(r: reg, signed: bool, imm: int, at: int, d: Data)
    ensures var i := AddInstr(r, false, signed, imm); Execute(i, at + Size(i), d) == Some(VM(at + Size(i), Added(d, r, false, imm)))
  {
    SameSum(d, r, false, imm);
    hide Low32;
    hide SetLow32;
  }

  lemma LowSums(a: u64, b: u64, k: u64)
    ensures Low32(a + b) == Low32(Low32(a) + Low32(b)) && Low32(a - b) == Low32(Low32(a) - Low32(b))
    ensures Low32(a + Negated(k)) == Low32(Low32(a) - Low32(k))
  {
    var e := NegatedIs(k);
    hide Negated;
    var p := Halves(a);
    var q := Halves(b);
    var t := Halves(k);
    hide Low32;
    Preservation.SameLow(a + b, Low32(a) + Low32(b), p + q);
    Preservation.SameLow(a - b, Low32(a) - Low32(b), p - q);
    Preservation.SameLow(a + Negated(k), Low32(a) - Low32(k), p + e * TWO32 - t);
  }

  lemma Halves(x: u64) returns (q: int)
    ensures x == q * TWO32 + Low32(x)
  {
    q := x / TWO32;
  }

  lemma NegatedIs(k: u64) returns (e: int)
    ensures Negated(k) == e * TWO64 - k
  {
    e := if Negated(k) == 0 - k then 0 else if Negated(k) == TWO64 - k then 1 else -1;
  }

  lemma SumSteps(op: u8, r: reg, rb: reg, code: seq<u16>, at: int, d: Data) returns (d': Data)
    requires (op == ADD || op == SUB) && Placed(code, at, Encode(Plain(op, r, rb)))
    ensures Runs(code, at, at + 1, VM(at, d), 1, VM(at + 1, d'))
    ensures d' == SetWord(d, r, if op == ADD then d.R[r] as int + d.R[rb] as int else d.R[r] as int - d.R[rb] as int)
  {
    hide Runs;
    hide Encode;
    hide Low32;
    hide SetLow32;
    d' := SetWord(d, r, if op == ADD then d.R[r] as int + d.R[rb] as int else d.R[r] as int - d.R[rb] as int);
    RunsOne(code, at, Plain(op, r, rb), d, VM(at + 1, d'));
  }

  // The copy, in a register not in use.
  lemma OwnRuns(o: Operand, c: Ctx, code: seq<u16>, at: int, d: Data, s: Store) returns (n: nat, d': Data)
    requires HasFree(c) && (o.Variable? ==> o.x in c.env) && Rep(c, d, s) && Placed(code, at, IntoOwnReg(o, c))
    ensures Runs(code, at, at + |IntoOwnReg(o, c)|, VM(at, d), n, VM(at + |IntoOwnReg(o, c)|, d'))
    ensures Rep(c, d', s) && Keeps(c, d, d') && Word(d', Free(c)) == ValueOf(o, s)
    ensures Rep(Occupy(c, Free(c)), d', s) && GoodCtx(c)
  {
    hide *;
    StopLoadOk(o, c);
    StopIs(o, c, s);
    n, d' := UseLoad(StopExpr(o), c, code, at, d, s);
    RepGoodCtx(c, d', s);
    RepOccupied(c, Free(c), d', s);
  }

  lemma StopIs(o: Operand, c: Ctx, s: Store)
    ensures var e := StopExpr(o); e.load(c) == IntoOwnReg(o, c) && e.reg(c) == Free(c) && e.val(s) == ValueOf(o, s)
  {
    hide IntoOwnReg;
    hide Free;
    hide ValueOf;
  }

  // A word written to a register not in use.
  lemma ScratchWord(c: Ctx, d: Data, v: int, s: Store)
    requires Rep(c, d, s) && HasFree(c)
    ensures var e := SetWord(d, Free(c), v); Rep(c, e, s) && Keeps(c, d, e) && Word(e, Free(c)) == Low32(v)
  {
    RepGoodCtx(c, d, s);
    FreeIsFree(c);
    WordOfSet(d, Free(c), v);
    hide Low32;
    hide SetLow32;
    hide Free;
    hide HasFree;
    RepScratch(c, d, SetWord(d, Free(c), v), s);
  }

  lemma KeptCopy(c: Ctx, d: Data, d': Data)
    requires forall r: reg :: r in Occupy(c, Free(c)).live ==> d'.R[r] == d.R[r]
    ensures Word(d', Free(c)) == Word(d, Free(c))
  {
    hide Free;
    hide Low32;
  }

  // The words of a sum or a difference leave what is computed.
  lemma SumRuns(minus: bool, ty: CounterType, a: Operand, b: Operand, c: Ctx, code: seq<u16>, at: int, d: Data, s: Store)
    returns (n: nat, d': Data)
    requires CanAdd(ty, a, b, c) && Rep(c, d, s) && Placed(code, at, SumWords(minus, ty, a, b, c))
    ensures var hi := at + |SumWords(minus, ty, a, b, c)|;
            Runs(code, at, hi, VM(at, d), n, VM(hi, d'))
    ensures Rep(c, d', s) && Keeps(c, d, d') && Word(d', Free(c)) == Computed(minus, ValueOf(a, s), b, s)
  {
    hide *;
    SumParts(minus, ty, a, b, c);
    var r, c1 := Free(c), Occupy(c, Free(c));
    var w1, w2 := IntoOwnReg(a, c), AddTo(r, minus, ty, b, c1);
    Split(code, at, w1, w2);
    var mid, hi := at + |w1|, at + |w1| + |w2|;
    var n1, d1 := OwnRuns(a, c, code, at, d, s);
    var n2;
    if b.Literal? {
      n2 := LiteralAdds(r, ty, b.k, code, mid, d1);
      var v := d1.R[r] + Negated(b.k);
      d' := SetWord(d1, r, v);
      ScratchWord(c, d1, v, s);
      LiteralComputed(minus, d1, r, a, b, s);
      KeepsJoin(c, d, d1, d');
    } else {
      n2, d' := VariableAdds(minus, a, b, c, code, mid, d1, s);
      KeepsJoin(c, d, d1, d');
    }
    Join(code, at, hi, VM(at, d), at, mid, n1, VM(mid, d1), mid, hi, n2, VM(hi, d'));
    n := n1 + n2;
  }

  lemma SumParts(minus: bool, ty: CounterType, a: Operand, b: Operand, c: Ctx)
    requires CanAdd(ty, a, b, c)
    ensures var r, c1 := Free(c), Occupy(c, Free(c));
            && HasFree(c) && (a.Variable? ==> a.x in c.env) && CanLoad(b, c1)
            && SumWords(minus, ty, a, b, c) == IntoOwnReg(a, c) + AddTo(r, minus, ty, b, c1)
            && (b.Literal? ==> !(ty == Int32 && IsSmall(Negated(b.k))) && AddTo(r, minus, ty, b, c1) == AddWords(r, false, ty == Int32, Negated(b.k)))
            && (b.Variable? ==> AddTo(r, minus, ty, b, c1) == IntoReg(b, c1) + Encode(Plain(if minus then SUB else ADD, r, RegOf(b, c1))))
  {
    hide Free;
    hide HasFree;
    hide CanLoad;
    hide IntoReg;
    hide RegOf;
    hide IntoOwnReg;
    hide Encode;
    hide AddWords;
  }

  lemma LiteralComputed(minus: bool, d: Data, r: reg, a: Operand, b: Operand, s: Store)
    requires b.Literal? && Word(d, r) == ValueOf(a, s)
    ensures Low32(d.R[r] + Negated(b.k)) == Computed(minus, ValueOf(a, s), b, s)
  {
    LowSums(d.R[r], d.R[r], b.k);
    hide Low32;
    hide Negated;
  }

  lemma VariableAdds(minus: bool, a: Operand, b: Operand, c: Ctx, code: seq<u16>, at: int, d: Data, s: Store) returns (n: nat, d': Data)
    requires b.Variable? && HasFree(c) && GoodCtx(c) && Rep(c, d, s) && CanLoad(b, Occupy(c, Free(c))) && Word(d, Free(c)) == ValueOf(a, s)
    requires var c1 := Occupy(c, Free(c));
             Placed(code, at, IntoReg(b, c1) + Encode(Plain(if minus then SUB else ADD, Free(c), RegOf(b, c1))))
    ensures var c1 := Occupy(c, Free(c));
            var hi := at + |IntoReg(b, c1) + Encode(Plain(if minus then SUB else ADD, Free(c), RegOf(b, c1)))|;
            Runs(code, at, hi, VM(at, d), n, VM(hi, d'))
    ensures Rep(c, d', s) && Keeps(c, d, d') && Word(d', Free(c)) == Computed(minus, ValueOf(a, s), b, s)
  {
    hide *;
    var r, c1, op := Free(c), Occupy(c, Free(c)), if minus then SUB else ADD;
    OpsAre();
    var w1, w2 := IntoReg(b, c1), Encode(Plain(op, r, RegOf(b, c1)));
    Split(code, at, w1, w2);
    var mid := at + |w1|;
    RepOccupied(c, r, d, s);
    var n1, d1 := OperandRuns(b, c1, code, at, d, s);
    RepOccupied(c, r, d1, s);
    KeepsOccupied(c, r, d, d1);
    KeptCopy(c, d, d1);
    d' := SumSteps(op, r, RegOf(b, c1), code, mid, d1);
    OneWord(op, r, RegOf(b, c1));
    var v := if op == ADD then d1.R[r] as int + d1.R[RegOf(b, c1)] as int else d1.R[r] as int - d1.R[RegOf(b, c1)] as int;
    ScratchWord(c, d1, v, s);
    VariableComputed(minus, d1, r, RegOf(b, c1), a, b, s);
    KeepsJoin(c, d, d1, d');
    Join(code, at, mid + 1, VM(at, d), at, mid, n1, VM(mid, d1), mid, mid + 1, 1, VM(mid + 1, d'));
    n := n1 + 1;
  }

  lemma OpsAre()
    ensures ADD != SUB && 0 <= ADD < 0x100 && 0 <= SUB < 0x100
  {
  }

  lemma OneWord(op: u8, r: reg, rb: reg)
    ensures |Encode(Plain(op, r, rb))| == 1
  {
  }

  lemma VariableComputed(minus: bool, d: Data, r: reg, rb: reg, a: Operand, b: Operand, s: Store)
    requires b.Variable? && Word(d, r) == ValueOf(a, s) && Word(d, rb) == ValueOf(b, s)
    ensures Low32(if minus then d.R[r] as int - d.R[rb] as int else d.R[r] as int + d.R[rb] as int) == Computed(minus, ValueOf(a, s), b, s)
  {
    LowSums(d.R[r], d.R[rb], 0);
    hide Low32;
    hide ValueOf;
    hide Negated;
  }

  // A sum as an expression: moved to a variable it is what is computed, which is
  // what is meant exactly as SumRightIff says.
  function SumExpr(minus: bool, ty: CounterType, a: Operand, b: Operand): IntExpr {
    IntExpr((c: Ctx) => SumWords(minus, ty, a, b, c), (c: Ctx) => Free(c),
            (c: Ctx, x: Var) => SumWords(minus, ty, a, b, c) + Encode(MoveOut(Home(c, x), Free(c))),
            (s: Store) => Computed(minus, ValueOf(a, s), b, s), None, if a.Variable? then {a.x} else {})
  }

  lemma SumAssignOk(minus: bool, ty: CounterType, a: Operand, b: Operand, c: Ctx, x: Var)
    requires CanAdd(ty, a, b, c) && x in c.env
    ensures AssignOk(SumExpr(minus, ty, a, b), c, x)
  {
    hide Runs;
    hide Rep;
    hide Keeps;
    hide Placed;
    hide Encode;
    hide MoveOut;
    hide SumWords;
    hide CanAdd;
    hide Computed;
    hide ValueOf;
    hide Free;
    var ws := SumWords(minus, ty, a, b, c) + Encode(MoveOut(Home(c, x), Free(c)));
    forall code, at, d, s | Enters(c, ws, code, at, d, s)
      ensures exists d' :: Falls(code, at, at + |ws|, d, d') && Rep(c, d', s[x := Computed(minus, ValueOf(a, s), b, s)]) && Keeps(c, d, d')
    {
      var n, d' := SumAssigned(minus, ty, a, b, c, x, code, at, d, s);
      assert FallsIn(code, at, at + |ws|, n, d, d');
    }
  }

  lemma SumAssigned(minus: bool, ty: CounterType, a: Operand, b: Operand, c: Ctx, x: Var, code: seq<u16>, at: int, d: Data, s: Store)
    returns (n: nat, d': Data)
    requires CanAdd(ty, a, b, c) && x in c.env && Rep(c, d, s)
    requires Placed(code, at, SumWords(minus, ty, a, b, c) + Encode(MoveOut(Home(c, x), Free(c))))
    ensures var hi := at + |SumWords(minus, ty, a, b, c) + Encode(MoveOut(Home(c, x), Free(c)))|;
            Runs(code, at, hi, VM(at, d), n, VM(hi, d'))
    ensures Rep(c, d', s[x := Computed(minus, ValueOf(a, s), b, s)]) && Keeps(c, d, d')
  {
    hide *;
    var w1, l, r := SumWords(minus, ty, a, b, c), c.env[x], Free(c);
    HomeIs(c, x);
    Split(code, at, w1, Encode(MoveOut(l, r)));
    var mid := at + |w1|;
    var n1, d1 := SumRuns(minus, ty, a, b, c, code, at, d, s);
    var v := Computed(minus, ValueOf(a, s), b, s);
    RepGoodCtx(c, d1, s);
    OffsetFits(c, x);
    OtherVars(c, x, v, d1, s);
    MoveOutStep(l, r, code, mid, d1);
    var hi := mid + |Encode(MoveOut(l, r))|;
    if l.InMem? {
      StoreMemHome(c, x, d1, s[x := v]);
      d' := d1.(mem := Store32(d1.mem, Place(l, d1), v));
    } else {
      LowOfReg(d1, r);
      StoreRegHome(c, x, d1, s[x := v], d1.R[r]);
      d' := SetWord(d1, l.r, d1.R[r]);
    }
    KeepsJoin(c, d, d1, d');
    Join(code, at, hi, VM(at, d), at, mid, n1, VM(mid, d1), mid, hi, 1, VM(hi, d'));
    n := n1 + 1;
  }

  lemma HomeIs(c: Ctx, x: Var)
    requires x in c.env
    ensures Home(c, x) == c.env[x]
  {
  }

  lemma LowOfReg(d: Data, r: reg)
    ensures Word(d, r) == Low32(d.R[r])
  {
  }

  // `x := x + 100` leaves x - 100.
  lemma AddingLiteralSubtracts(x: Var, s: Store)
    requires x in s
    ensures SumExpr(false, Int32, Variable(x), Literal(100)).val(s) == Low32(s[x] as int - 100) != Low32(s[x] as int + 100)
  {
    SumRightIff(false, s[x], Literal(100), s);
  }

  // ---- a condition stored in a register ---------------------------------------------------------

  function GetFlag(r: reg): Instr { Plain(GETFLAG, r, 0) }

  // MoveLocationToReg of a flag: its polarity is not looked at.
  function StoredWords(rel: Relation, ty: CounterType, a: Operand, b: Operand, r: reg, c: Ctx): seq<u16> {
    CompareWords(rel, ty, a, b, c) + Encode(GetFlag(r))
  }

  // PVMEmitNot of a boolean in a register
  function NotWords(r: reg): seq<u16> { Encode(Plain(SETEZ, r, r)) }

  // The register is read as true exactly as the relation says if the flag is read
  // as it is - for <, > and = - and the other way round for the rest.
  lemma StoredRelation(rel: Relation, ty: CounterType, a: Operand, b: Operand, c: Ctx, code: seq<u16>, at: int, d: Data, s: Store)
    returns (n: nat, d': Data)
    requires CanLoad(a, c) && CanLoad(b, After(a, c)) && HasFree(c) && Rep(c, d, s) && Placed(code, at, StoredWords(rel, ty, a, b, Free(c), c))
    ensures var hi := at + |StoredWords(rel, ty, a, b, Free(c), c)|;
            Runs(code, at, hi, VM(at, d), n, VM(hi, d'))
    ensures Rep(c, d', s) && Keeps(c, d, d')
    ensures Word(d', Free(c)) in {0, 1}
    ensures Holds(InRegister(Free(c)), d') == Relates(AsWritten, ty, rel, ValueOf(a, s), ValueOf(b, s))
            <==> rel == Less || rel == Greater || rel == Equal
  {
    hide *;
    var w := CompareWords(rel, ty, a, b, c);
    StoredIs(rel, ty, a, b, Free(c), c);
    Split(code, at, w, Encode(GetFlag(Free(c))));
    var mid := at + |w|;
    var n1, d1 := ComparisonRuns(rel, ty, a, b, c, code, at, d, s);
    GetFlagRuns(code, mid, Free(c), d1);
    d' := SetWord(d1, Free(c), if d1.cond then 1 else 0);
    ScratchWord(c, d1, if d1.cond then 1 else 0, s);
    FlagStored(rel, d1, d', Free(c));
    KeepsJoin(c, d, d1, d');
    Join(code, at, mid + 1, VM(at, d), at, mid, n1, VM(mid, d1), mid, mid + 1, 1, VM(mid + 1, d'));
    n := n1 + 1;
  }

  lemma StoredIs(rel: Relation, ty: CounterType, a: Operand, b: Operand, r: reg, c: Ctx)
    ensures StoredWords(rel, ty, a, b, r, c) == CompareWords(rel, ty, a, b, c) + Encode(GetFlag(r))
    ensures |Encode(GetFlag(r))| == 1
  {
    hide CompareWords;
  }

  lemma GetFlagRuns(code: seq<u16>, at: int, r: reg, d: Data)
    requires Placed(code, at, Encode(GetFlag(r)))
    ensures Runs(code, at, at + 1, VM(at, d), 1, VM(at + 1, SetWord(d, r, if d.cond then 1 else 0)))
  {
    hide Runs;
    hide Encode;
    hide Low32;
    hide SetLow32;
    RunsOne(code, at, GetFlag(r), d, VM(at + 1, SetWord(d, r, if d.cond then 1 else 0)));
  }

  lemma FlagStored(rel: Relation, d: Data, e: Data, r: reg)
    requires Word(e, r) == Low32(if d.cond then 1 else 0)
    ensures Word(e, r) in {0, 1}
    ensures Holds(InRegister(r), e) == d.cond
    ensures Holds(Flag(AsIs(rel)), d) == (d.cond == AsIs(rel)) && (AsIs(rel) <==> rel == Less || rel == Greater || rel == Equal)
  {
  }

  // `not` of a boolean in a register: 1 for 0, 0 for anything else.
  lemma NotRuns(code: seq<u16>, at: int, r: reg, d: Data) returns (d': Data)
    requires Placed(code, at, NotWords(r))
    ensures Runs(code, at, at + |NotWords(r)|, VM(at, d), 1, VM(at + |NotWords(r)|, d'))
    ensures Holds(InRegister(r), d') == !Holds(InRegister(r), d) && Word(d', r) in {0, 1}
    ensures forall q: reg :: q != r ==> d'.R[q] == d.R[q]
  {
    hide Runs;
    hide Encode;
    d' := SetWord(d, r, if Word(d, r) == 0 then 1 else 0);
    WordOfSet(d, r, if Word(d, r) == 0 then 1 else 0);
    RunsOne(code, at, Plain(SETEZ, r, r), d, VM(at + 1, d'));
  }

  // The flag kept in a register and taken back wherever the register is still as
  // it was; and turned round.
  lemma FlagComesBack(code: seq<u16>, at: int, r: reg, d: Data) returns (d': Data)
    requires Placed(code, at, Encode(GetFlag(r)))
    ensures Runs(code, at, at + 1, VM(at, d), 1, VM(at + 1, d')) && Word(d', r) == if d.cond then 1 else 0
    ensures forall to, e: Data :: Placed(code, to, Encode(Plain(SETFLAG, r, 0))) && e.R[r] == d'.R[r] ==>
              Runs(code, to, to + 1, VM(to, e), 1, VM(to + 1, e.(cond := d.cond)))
  {
    hide Runs;
    hide Encode;
    d' := SetWord(d, r, if d.cond then 1 else 0);
    WordOfSet(d, r, if d.cond then 1 else 0);
    GetFlagRuns(code, at, r, d);
    forall to, e: Data | Placed(code, to, Encode(Plain(SETFLAG, r, 0))) && e.R[r] == d'.R[r]
      ensures Runs(code, to, to + 1, VM(to, e), 1, VM(to + 1, e.(cond := d.cond)))
    {
      SetFlagRuns(code, to, r, d.cond, e, d');
    }
  }

  lemma SetFlagRuns(code: seq<u16>, at: int, r: reg, flag: bool, e: Data, d: Data)
    requires Placed(code, at, Encode(Plain(SETFLAG, r, 0))) && e.R[r] == d.R[r] && Word(d, r) == if flag then 1 else 0
    ensures Runs(code, at, at + 1, VM(at, e), 1, VM(at + 1, e.(cond := flag)))
  {
    hide Runs;
    hide Encode;
    StoredSizes(r);
    LowOfReg(e, r);
    LowOfReg(d, r);
    hide Low32;
    RunsOne(code, at, Plain(SETFLAG, r, 0), e, VM(at + 1, e.(cond := flag)));
  }

  lemma StoredSizes(r: reg)
    ensures |Encode(Plain(SETFLAG, r, 0))| == 1 && |Encode(Plain(NEGFLAG, 0, 0))| == 1
  {
  }

  lemma FlagTurned(code: seq<u16>, at: int, p: bool, d: Data) returns (d': Data)
    requires Placed(code, at, Encode(Plain(NEGFLAG, 0, 0)))
    ensures Runs(code, at, at + 1, VM(at, d), 1, VM(at + 1, d')) && Holds(Flag(p), d') == Holds(Flag(!p), d) && d'.R == d.R
  {
    hide Runs;
    hide Encode;
    d' := d.(cond := !d.cond);
    RunsOne(code, at, Plain(NEGFLAG, 0, 0), d, VM(at + 1, d'));
  }
}
