// Comparisons, `not`, and short-circuit `and` / `or` on the condition flag.
// src/Compiler/Expr.c, src/Compiler/Emitter.c
module ShortCircuit {
  import opened Words
  import opened Isa
  import opened Machine
  import opened Codec
  import opened Statements
  import opened Preservation
  import opened Conditions

  // ---- comparisons --------------------------------------------------------------------

  datatype Relation = Less | LessOrEqual | Greater | GreaterOrEqual | Equal | NotEqual

  // PVMEmitSetIf*: the instruction, and whether its flag is read as is.
  function SetIf(rel: Relation, ty: CounterType, a: reg, b: reg): Instr {
    var lt := if ty == Int32 then SLT else ISLT;
    match rel
    case Less => Plain(lt, a, b)
    case LessOrEqual => Plain(lt, b, a)
    case Greater => Plain(lt, b, a)
    case GreaterOrEqual => Plain(lt, a, b)
    case Equal => Plain(SEQ, a, b)
    case NotEqual => Plain(SEQ, a, b)
  }

  predicate AsIs(rel: Relation) { rel == Less || rel == Greater || rel == Equal }

  function Relates(m: Reading, ty: CounterType, rel: Relation, a: u32, b: u32): bool {
    var signed := ComparesSigned(m, ty);
    match rel
    case Less => Below(signed, a, b)
    case LessOrEqual => !Below(signed, b, a)
    case Greater => Below(signed, b, a)
    case GreaterOrEqual => !Below(signed, a, b)
    case Equal => a == b
    case NotEqual => a != b
  }

  // Ordered comparisons are emitted with the other signedness; they agree with
  // Pascal exactly on operands of the same sign bit.
  lemma RelationAgrees(ty: CounterType, rel: Relation, a: u32, b: u32)
    ensures Relates(AsWritten, ty, rel, a, b) == Relates(Pascal, ty, rel, a, b)
            <==> rel == Equal || rel == NotEqual || SameSign(a, b)
  {
  }

  function Comparison(rel: Relation, ty: CounterType, a: Operand, b: Operand): BoolExpr {
    BoolExpr(
      (c: Ctx) => CompareWords(rel, ty, a, b, c),
      (c: Ctx) => Flag(AsIs(rel)),
      (s: Store) => Relates(AsWritten, ty, rel, ValueOf(a, s), ValueOf(b, s)),
      (s: Store) => s,
      if a.Variable? then {a.x} else {})
  }

  function CompareWords(rel: Relation, ty: CounterType, a: Operand, b: Operand, c: Ctx): seq<u16> {
    IntoReg(a, c) + IntoReg(b, After(a, c)) + Encode(SetIf(rel, ty, RegOf(a, c), RegOf(b, After(a, c))))
  }

  lemma SetIfStep(rel: Relation, ty: CounterType, a: reg, b: reg, code: seq<u16>, at: int, d: Data) returns (d': Data)
    requires Placed(code, at, Encode(SetIf(rel, ty, a, b)))
    ensures Runs(code, at, at + 1, VM(at, d), 1, VM(at + 1, d'))
    ensures Holds(Flag(AsIs(rel)), d') == Relates(AsWritten, ty, rel, Word(d, a), Word(d, b))
    ensures d' == d.(cond := d'.cond)
  {
    hide Runs;
    hide Encode;
    var i := SetIf(rel, ty, a, b);
    d' := d.(cond := Relates(AsWritten, ty, rel, Word(d, a), Word(d, b)) == AsIs(rel));
    RunsOne(code, at, i, d, VM(at + 1, d'));
  }

  lemma ComparisonOk(rel: Relation, ty: CounterType, a: Operand, b: Operand, c: Ctx)
    requires CanLoad(a, c) && CanLoad(b, After(a, c))
    ensures BoolOk(Comparison(rel, ty, a, b), c)
  {
    hide Runs;
    hide Rep;
    hide Keeps;
    hide Placed;
    hide CompareWords;
    hide CanLoad;
    hide ValueOf;
    hide Relates;
    var ws := CompareWords(rel, ty, a, b, c);
    forall code, at, d, s | Enters(c, ws, code, at, d, s)
      ensures exists d' :: Falls(code, at, at + |ws|, d, d') && Rep(c, d', s) && Keeps(c, d, d')
                           && Holds(Flag(AsIs(rel)), d') == Relates(AsWritten, ty, rel, ValueOf(a, s), ValueOf(b, s))
    {
      var n, d' := ComparisonRuns(rel, ty, a, b, c, code, at, d, s);
      assert FallsIn(code, at, at + |ws|, n, d, d');
    }
  }

  lemma ComparisonRuns(rel: Relation, ty: CounterType, a: Operand, b: Operand, c: Ctx, code: seq<u16>, at: int, d: Data, s: Store)
    returns (n: nat, d': Data)
    requires CanLoad(a, c) && CanLoad(b, After(a, c)) && Rep(c, d, s) && Placed(code, at, CompareWords(rel, ty, a, b, c))
    ensures var hi := at + |CompareWords(rel, ty, a, b, c)|;
            Runs(code, at, hi, VM(at, d), n, VM(hi, d'))
    ensures Rep(c, d', s) && Keeps(c, d, d')
    ensures Holds(Flag(AsIs(rel)), d') == Relates(AsWritten, ty, rel, ValueOf(a, s), ValueOf(b, s))
  {
    hide Runs;
    hide Rep;
    hide Keeps;
    hide Placed;
    hide CanLoad;
    hide ValueOf;
    hide Relates;
    hide IntoReg;
    hide RegOf;
    hide After;
    hide SetIf;
    hide Encode;
    hide Low32;
    hide Holds;
    var c1 := After(a, c);
    var ra, rb := RegOf(a, c), RegOf(b, c1);
    var w1, w2, w3 := IntoReg(a, c), IntoReg(b, c1), Encode(SetIf(rel, ty, ra, rb));
    SetIfSize(rel, ty, ra, rb);
    Split(code, at, w1 + w2, w3);
    Split(code, at, w1, w2);
    var a1 := at + |w1|;
    var a2 := a1 + |w2|;
    var n1, d1 := OperandRuns(a, c, code, at, d, s);
    var n2, d2 := OperandRuns(b, c1, code, a1, d1, s);
    RepGoodCtx(c, d, s);
    AfterKeeps(a, c, d1, d2, s);
    d' := SetIfStep(rel, ty, ra, rb, code, a2, d2);
    CondScratch(c, d2, d'.cond, s);
    KeepsJoin(c, d, d1, d2);
    KeepsJoin(c, d, d2, d');
    Join(code, at, a2 + 1, VM(at, d), at, a1, n1, VM(a1, d1), a1, a2, n2, VM(a2, d2));
    Join(code, at, a2 + 1, VM(at, d), at, a2 + 1, n1 + n2, VM(a2, d2), a2, a2 + 1, 1, VM(a2 + 1, d'));
    n := n1 + n2 + 1;
  }

  lemma SetIfSize(rel: Relation, ty: CounterType, a: reg, b: reg)
    ensures |Encode(SetIf(rel, ty, a, b))| == 1
  {
  }

  lemma AfterKeeps(o: Operand, c: Ctx, d: Data, d': Data, s: Store)
    requires GoodCtx(c) && Rep(After(o, c), d', s) && Keeps(After(o, c), d, d')
    ensures Rep(c, d', s) && Keeps(c, d, d')
  {
    hide Free;
    if Owned(o, c) {
      RepOccupied(c, Free(c), d', s);
      KeepsOccupied(c, Free(c), d, d');
    }
  }

  // ---- conditions ------------------------------------------------------------------------

  datatype Condition =
    | Leaf(b: BoolExpr)
    | Not(e: Condition)
    | And(l: Condition, r: Condition)
    | Or(l: Condition, r: Condition)

  function Truth(e: Condition, s: Store): bool {
    match e
    case Leaf(b) => b.val(s)
    case Not(e) => !Truth(e, s)
    case And(l, r) => Truth(l, s) && Truth(r, Effect(l, s))
    case Or(l, r) => Truth(l, s) || Truth(r, Effect(l, s))
  }

  // A skipped right operand has no effect.
  function Effect(e: Condition, s: Store): Store {
    match e
    case Leaf(b) => b.upd(s)
    case Not(e) => Effect(e, s)
    case And(l, r) => if Truth(l, s) then Effect(r, Effect(l, s)) else Effect(l, s)
    case Or(l, r) => if Truth(l, s) then Effect(l, s) else Effect(r, Effect(l, s))
  }

  // Variables whose places are freed by the time the condition is compiled.
  function FreedBy(e: Condition): set<Var> {
    match e
    case Leaf(b) => b.frees
    case Not(e) => FreedBy(e)
    case And(l, r) => FreedBy(l) + FreedBy(r)
    case Or(l, r) => FreedBy(l) + FreedBy(r)
  }

  // The flag's polarity; `not` only flips it.  ExprAnd and ExprOr return the
  // location of their right operand.
  function Polarity(e: Condition, c: Ctx): bool {
    match e
    case Leaf(b) => b.loc(c) == Flag(true)
    case Not(e) => !Polarity(e, c)
    case And(l, r) => Polarity(r, Without(c, FreedBy(l)))
    case Or(l, r) => Polarity(r, Without(c, FreedBy(l)))
  }

  function Emitted(e: Condition, c: Ctx): seq<u16> {
    match e
    case Leaf(b) => b.emit(c)
    case Not(e) => Emitted(e, c)
    case And(l, r) =>
      var w := Emitted(r, Without(c, FreedBy(l)));
      Emitted(l, c) + Encode(BranchIfFalse(Flag(Polarity(l, c)), |w|)) + w
    case Or(l, r) =>
      var w := Emitted(r, Without(c, FreedBy(l)));
      Emitted(l, c) + Encode(BranchIfTrue(Flag(Polarity(l, c)), |w|)) + w
  }

  function Compile(e: Condition): BoolExpr {
    BoolExpr((c: Ctx) => Emitted(e, c), (c: Ctx) => Flag(Polarity(e, c)), (s: Store) => Truth(e, s), (s: Store) => Effect(e, s), FreedBy(e))
  }

  // Leaves leave a flag, branches reach over the right operand, and no register
  // of a variable is freed while a right operand is still to be compiled.
  ghost predicate Fits(e: Condition, c: Ctx) {
    match e
    case Leaf(b) => BoolOk(b, c) && b.loc(c).Flag?
    case Not(e) => Fits(e, c)
    case And(l, r) => Fits(l, c) && Lost(c.env, FreedBy(l)) == {} && Fits(r, c) && Fits24(|Emitted(r, c)|)
    case Or(l, r) => Fits(l, c) && Lost(c.env, FreedBy(l)) == {} && Fits(r, c) && Fits24(|Emitted(r, c)|)
  }

  // What the flag says, read with the condition's polarity.  Where the right
  // operand was skipped it is the left operand's flag, read as the right one's.
  function Said(e: Condition, c: Ctx, s: Store): bool {
    match e
    case Leaf(b) => b.val(s)
    case Not(e) => !Said(e, c, s)
    case And(l, r) => if Said(l, c, s) then Said(r, c, Did(l, c, s)) else Polarity(l, c) != Polarity(r, c)
    case Or(l, r) => if Said(l, c, s) then Polarity(l, c) == Polarity(r, c) else Said(r, c, Did(l, c, s))
  }

  function Did(e: Condition, c: Ctx, s: Store): Store {
    match e
    case Leaf(b) => b.upd(s)
    case Not(e) => Did(e, c, s)
    case And(l, r) => if Said(l, c, s) then Did(r, c, Did(l, c, s)) else Did(l, c, s)
    case Or(l, r) => if Said(l, c, s) then Did(l, c, s) else Did(r, c, Did(l, c, s))
  }

  lemma {:induction false} ConditionRuns(e: Condition, c: Ctx, code: seq<u16>, at: int, d: Data, s: Store) returns (n: nat, d': Data)
    requires Fits(e, c) && Rep(c, d, s) && Placed(code, at, Emitted(e, c))
    ensures var hi := at + |Emitted(e, c)|;
            Runs(code, at, hi, VM(at, d), n, VM(hi, d'))
    ensures Rep(c, d', Did(e, c, s)) && Keeps(c, d, d') && Holds(Flag(Polarity(e, c)), d') == Said(e, c, s)
    decreases e, 2
  {
    hide Runs;
    hide Rep;
    hide Keeps;
    hide Placed;
    hide Encode;
    hide BoolOk;
    match e
    case Leaf(b) =>
      n, d' := UseBool(b, c, code, at, d, s);
    case Not(e1) =>
      n, d' := ConditionRuns(e1, c, code, at, d, s);
    case And(l, r) =>
      n, d' := ConnectiveRuns(e, l, r, true, c, code, at, d, s);
    case Or(l, r) =>
      n, d' := ConnectiveRuns(e, l, r, false, c, code, at, d, s);
  }

  // A connective, its right operand being compiled under the same registers.
  lemma ConnectiveParts(e: Condition, l: Condition, r: Condition, and: bool, c: Ctx, s: Store)
    requires e == (if and then And(l, r) else Or(l, r)) && Lost(c.env, FreedBy(l)) == {}
    ensures var off := |Emitted(r, c)|;
            Emitted(e, c) == Emitted(l, c) + Encode(if and then BranchIfFalse(Flag(Polarity(l, c)), off) else BranchIfTrue(Flag(Polarity(l, c)), off))
                             + Emitted(r, c)
    ensures Polarity(e, c) == Polarity(r, c)
    ensures if Said(l, c, s) == and then Said(e, c, s) == Said(r, c, Did(l, c, s)) && Did(e, c, s) == Did(r, c, Did(l, c, s))
            else Said(e, c, s) == ((Polarity(l, c) == Polarity(r, c)) != and) && Did(e, c, s) == Did(l, c, s)
    ensures Fits(e, c) ==> Fits(l, c) && Fits(r, c) && Fits24(|Emitted(r, c)|)
  {
    LostNone(c, FreedBy(l), FreedBy(l));
    hide Encode;
    hide BranchIfFalse;
    hide BranchIfTrue;
    hide Without;
    hide Lost;
  }

  // Left operand, branch, and - unless the branch is taken - right operand.
  lemma {:induction false} ConnectiveRuns(e: Condition, l: Condition, r: Condition, and: bool, c: Ctx, code: seq<u16>, at: int, d: Data, s: Store)
    returns (n: nat, d': Data)
    requires e == if and then And(l, r) else Or(l, r)
    requires Fits(e, c) && Rep(c, d, s) && Placed(code, at, Emitted(e, c))
    ensures var hi := at + |Emitted(e, c)|;
            Runs(code, at, hi, VM(at, d), n, VM(hi, d'))
    ensures Rep(c, d', Did(e, c, s)) && Keeps(c, d, d') && Holds(Flag(Polarity(e, c)), d') == Said(e, c, s)
    decreases e, 1
  {
    hide *;
    NothingLost(e, l, r, and, c);
    ConnectiveParts(e, l, r, and, c, s);
    var mid, hi := at + |Emitted(l, c)| + 2, at + |Emitted(e, c)|;
    var n1, d1 := SkipOrEnter(e, l, r, and, c, code, at, d, s);
    if Said(l, c, s) == and {
      var n2;
      n2, d' := ConditionRuns(r, c, code, mid, d1, Did(l, c, s));
      KeepsJoin(c, d, d1, d');
      Join(code, at, hi, VM(at, d), at, mid, n1, VM(mid, d1), mid, hi, n2, VM(hi, d'));
      n := n1 + n2;
    } else {
      n, d' := n1, d1;
      RunsWiden(code, at, mid, at, hi, VM(at, d), n, VM(hi, d'));
      FlagReads(Polarity(l, c), Polarity(r, c), d');
    }
  }

  lemma NothingLost(e: Condition, l: Condition, r: Condition, and: bool, c: Ctx)
    requires e == (if and then And(l, r) else Or(l, r)) && Fits(e, c)
    ensures Lost(c.env, FreedBy(l)) == {}
  {
    hide Lost;
    hide FreedBy;
    hide BoolOk;
  }

  lemma FlagReads(p: bool, q: bool, d: Data)
    ensures Holds(Flag(q), d) == (Holds(Flag(p), d) == (p == q))
  {
  }

  // The left operand decides: the right one is entered at its first word, or
  // never executed - every step of the run is taken in front of it.
  lemma {:induction false} SkipOrEnter(e: Condition, l: Condition, r: Condition, and: bool, c: Ctx, code: seq<u16>, at: int, d: Data, s: Store)
    returns (n: nat, d': Data)
    requires e == if and then And(l, r) else Or(l, r)
    requires Fits(l, c) && Lost(c.env, FreedBy(l)) == {} && Fits24(|Emitted(r, c)|) && Rep(c, d, s) && Placed(code, at, Emitted(e, c))
    ensures var mid, hi := at + |Emitted(l, c)| + 2, at + |Emitted(e, c)|;
            && hi == mid + |Emitted(r, c)|
            && Runs(code, at, mid, VM(at, d), n, VM(if Said(l, c, s) == and then mid else hi, d'))
            && Placed(code, mid, Emitted(r, c))
    ensures Rep(c, d', Did(l, c, s)) && Keeps(c, d, d') && Holds(Flag(Polarity(l, c)), d') == Said(l, c, s)
    decreases e, 0
  {
    hide *;
    ConnectiveParts(e, l, r, and, c, s);
    var w, off := Emitted(l, c), |Emitted(r, c)|;
    var loc := Flag(Polarity(l, c));
    var br := Encode(if and then BranchIfFalse(loc, off) else BranchIfTrue(loc, off));
    BranchFits(loc, and, off);
    Split(code, at, w + br, Emitted(r, c));
    Split(code, at, w, br);
    n, d' := ConditionRuns(l, c, code, at, d, s);
    TakeBranch(code, at + |w|, loc, and, off, d');
    var mid := at + |w| + 2;
    var to := VM(if Said(l, c, s) == and then mid else mid + off, d');
    Join(code, at, mid, VM(at, d), at, at + |w|, n, VM(at + |w|, d'), at + |w|, mid, 1, to);
    n := n + 1;
  }

  lemma BranchFits(l: CondLoc, onFalse: bool, off: int)
    requires l.Flag? && Fits24(off)
    ensures var i := if onFalse then BranchIfFalse(l, off) else BranchIfTrue(l, off); WellFormed(i) && |Encode(i)| == 2
  {
  }

  // ---- when the flag says what the condition means ------------------------------------------------

  // Every connective whose right operand is skipped has operands of one polarity.
  predicate SkipsAgree(e: Condition, c: Ctx, s: Store) {
    match e
    case Leaf(_) => true
    case Not(e) => SkipsAgree(e, c, s)
    case And(l, r) => SkipsAgree(l, c, s) && if Said(l, c, s) then SkipsAgree(r, c, Did(l, c, s)) else Polarity(l, c) == Polarity(r, c)
    case Or(l, r) => SkipsAgree(l, c, s) && if Said(l, c, s) then Polarity(l, c) == Polarity(r, c) else SkipsAgree(r, c, Did(l, c, s))
  }

  // Every part that is evaluated leaves its own truth.
  predicate PartsRight(e: Condition, c: Ctx, s: Store) {
    && Said(e, c, s) == Truth(e, s) && Did(e, c, s) == Effect(e, s)
    && match e
       case Leaf(_) => true
       case Not(e) => PartsRight(e, c, s)
       case And(l, r) => PartsRight(l, c, s) && (Truth(l, s) ==> PartsRight(r, c, Effect(l, s)))
       case Or(l, r) => PartsRight(l, c, s) && (!Truth(l, s) ==> PartsRight(r, c, Effect(l, s)))
  }

  lemma {:induction false} SaidIsTruthIff(e: Condition, c: Ctx, s: Store)
    ensures SkipsAgree(e, c, s) <==> PartsRight(e, c, s)
    decreases e
  {
    match e
    case Leaf(_) =>
    case Not(e1) => SaidIsTruthIff(e1, c, s);
    case And(l, r) =>
      SaidIsTruthIff(l, c, s);
      SaidIsTruthIff(r, c, Did(l, c, s));
    case Or(l, r) =>
      SaidIsTruthIff(l, c, s);
      SaidIsTruthIff(r, c, Did(l, c, s));
  }

  // Both operands of every connective leave the flag with the same polarity.
  predicate OnePolarity(e: Condition, c: Ctx) {
    match e
    case Leaf(_) => true
    case Not(e) => OnePolarity(e, c)
    case And(l, r) => OnePolarity(l, c) && OnePolarity(r, c) && Polarity(l, c) == Polarity(r, c)
    case Or(l, r) => OnePolarity(l, c) && OnePolarity(r, c) && Polarity(l, c) == Polarity(r, c)
  }

  lemma {:induction false} OnePolarityAgrees(e: Condition, c: Ctx, s: Store)
    requires OnePolarity(e, c)
    ensures SkipsAgree(e, c, s)
    decreases e
  {
    match e
    case Leaf(_) =>
    case Not(e1) => OnePolarityAgrees(e1, c, s);
    case And(l, r) =>
      OnePolarityAgrees(l, c, s);
      OnePolarityAgrees(r, c, Did(l, c, s));
    case Or(l, r) =>
      OnePolarityAgrees(l, c, s);
      OnePolarityAgrees(r, c, Did(l, c, s));
  }

  // Such a condition is one statements can branch on.
  lemma ConditionOk(e: Condition, c: Ctx)
    requires Fits(e, c) && OnePolarity(e, c)
    ensures BoolOk(Compile(e), c)
  {
    hide Runs;
    hide Rep;
    hide Keeps;
    hide Placed;
    hide Emitted;
    hide Fits;
    hide Truth;
    hide Effect;
    hide Polarity;
    hide Said;
    hide Did;
    hide OnePolarity;
    hide SkipsAgree;
    var ws := Emitted(e, c);
    forall code, at, d, s | Enters(c, ws, code, at, d, s)
      ensures exists d' :: Falls(code, at, at + |ws|, d, d') && Rep(c, d', Effect(e, s)) && Keeps(c, d, d')
                           && Holds(Flag(Polarity(e, c)), d') == Truth(e, s)
    {
      OnePolarityAgrees(e, c, s);
      SaidIsTruthIff(e, c, s);
      var n, d' := ConditionRuns(e, c, code, at, d, s);
      assert FallsIn(code, at, at + |ws|, n, d, d');
    }
  }

  // Whenever the right operand is skipped, the flag left by the left operand is
  // read with the right operand's polarity: the result is right, given that the
  // left operand is, exactly when the polarities agree.
  lemma SkippedReadsRight(e: Condition, l: Condition, r: Condition, and: bool, c: Ctx, code: seq<u16>, at: int, d: Data, s: Store)
    returns (n: nat, d': Data)
    requires e == if and then And(l, r) else Or(l, r)
    requires Fits(l, c) && Lost(c.env, FreedBy(l)) == {} && Fits24(|Emitted(r, c)|) && Rep(c, d, s) && Placed(code, at, Emitted(e, c))
    requires Said(l, c, s) == Truth(l, s) != and
    ensures var mid, hi := at + |Emitted(l, c)| + 2, at + |Emitted(e, c)|;
            Runs(code, at, mid, VM(at, d), n, VM(hi, d'))
    ensures Holds(Flag(Polarity(e, c)), d') == Truth(e, s) <==> Polarity(l, c) == Polarity(r, c)
  {
    ConnectiveParts(e, l, r, and, c, s);
    hide Runs;
    hide Rep;
    hide Keeps;
    hide Placed;
    hide Encode;
    hide Fits;
    hide Lost;
    hide Without;
    hide Polarity;
    hide Said;
    hide Did;
    hide Emitted;
    n, d' := SkipOrEnter(e, l, r, and, c, code, at, d, s);
    FlagReads(Polarity(l, c), Polarity(r, c), d');
  }

  // ---- conditions over comparisons, as Pascal means them --------------------------------------

  datatype Test =
    | Compare(rel: Relation, ty: CounterType, a: Operand, b: Operand)
    | Negation(e: Test)
    | Both(l: Test, r: Test)
    | Either(l: Test, r: Test)

  function AsCondition(e: Test): Condition {
    match e
    case Compare(rel, ty, a, b) => Leaf(Comparison(rel, ty, a, b))
    case Negation(e) => Not(AsCondition(e))
    case Both(l, r) => And(AsCondition(l), AsCondition(r))
    case Either(l, r) => Or(AsCondition(l), AsCondition(r))
  }

  function Meaning(m: Reading, e: Test, s: Store): bool {
    match e
    case Compare(rel, ty, a, b) => Relates(m, ty, rel, ValueOf(a, s), ValueOf(b, s))
    case Negation(e) => !Meaning(m, e, s)
    case Both(l, r) => Meaning(m, l, s) && Meaning(m, r, s)
    case Either(l, r) => Meaning(m, l, s) || Meaning(m, r, s)
  }

  // Every comparison that decides is of (in)equality, or of operands of one sign bit.
  predicate OneSign(e: Test, s: Store) {
    match e
    case Compare(rel, _, a, b) => rel == Equal || rel == NotEqual || SameSign(ValueOf(a, s), ValueOf(b, s))
    case Negation(e) => OneSign(e, s)
    case Both(l, r) => OneSign(l, s) && (Meaning(Pascal, l, s) ==> OneSign(r, s))
    case Either(l, r) => OneSign(l, s) && (!Meaning(Pascal, l, s) ==> OneSign(r, s))
  }

  lemma {:induction false} TestIsMeant(e: Test, s: Store)
    ensures Effect(AsCondition(e), s) == s && Truth(AsCondition(e), s) == Meaning(AsWritten, e, s)
    ensures OneSign(e, s) ==> Meaning(AsWritten, e, s) == Meaning(Pascal, e, s)
    decreases e
  {
    hide Relates;
    hide ValueOf;
    match e
    case Compare(rel, ty, a, b) => RelationAgrees(ty, rel, ValueOf(a, s), ValueOf(b, s));
    case Negation(e1) => TestIsMeant(e1, s);
    case Both(l, r) =>
      TestIsMeant(l, s);
      TestIsMeant(r, s);
    case Either(l, r) =>
      TestIsMeant(l, s);
      TestIsMeant(r, s);
  }

  lemma PartsAreWhole(e: Condition, c: Ctx, s: Store)
    requires PartsRight(e, c, s)
    ensures Said(e, c, s) == Truth(e, s) && Did(e, c, s) == Effect(e, s)
  {
  }

  // The words of such a condition and of the branch behind them jump exactly when
  // Pascal's reading says so, and leave every variable alone.
  lemma TestBranches(e: Test, c: Ctx, code: seq<u16>, at: int, d: Data, s: Store, onFalse: bool, off: int) returns (n: nat, d': Data)
    requires Fits(AsCondition(e), c) && SkipsAgree(AsCondition(e), c, s) && Rep(c, d, s) && OneSign(e, s)
    requires var loc := Flag(Polarity(AsCondition(e), c));
             var i := if onFalse then BranchIfFalse(loc, off) else BranchIfTrue(loc, off);
             WellFormed(i) && Placed(code, at, Emitted(AsCondition(e), c) + Encode(i))
    ensures var hi := at + |Emitted(AsCondition(e), c)| + 2;
            Runs(code, at, hi, VM(at, d), n, VM(if Meaning(Pascal, e, s) == onFalse then hi else hi + off, d'))
    ensures Rep(c, d', s) && Keeps(c, d, d')
  {
    hide *;
    TestIsMeant(e, s);
    SaidIsTruthIff(AsCondition(e), c, s);
    PartsAreWhole(AsCondition(e), c, s);
    var w, loc := Emitted(AsCondition(e), c), Flag(Polarity(AsCondition(e), c));
    var i := if onFalse then BranchIfFalse(loc, off) else BranchIfTrue(loc, off);
    Split(code, at, w, Encode(i));
    n, d' := ConditionRuns(AsCondition(e), c, code, at, d, s);
    TakeBranch(code, at + |w|, loc, onFalse, off, d');
    var hi := at + |w| + 2;
    var to := VM(if Meaning(Pascal, e, s) == onFalse then hi else hi + off, d');
    Join(code, at, hi, VM(at, d), at, at + |w|, n, VM(at + |w|, d'), at + |w|, hi, 1, to);
    n := n + 1;
  }

  predicate Contains(e: Test, part: Test) {
    e == part ||
    match e
    case Compare(_, _, _, _) => false
    case Negation(e1) => Contains(e1, part)
    case Both(l, r) => Contains(l, part) || Contains(r, part)
    case Either(l, r) => Contains(l, part) || Contains(r, part)
  }

  // The variables given to FreeExpr are the left operands of the comparisons,
  // evaluated or not.
  lemma {:induction false} FreedAreLeftOperands(e: Test, x: Var)
    ensures x in Compile(AsCondition(e)).frees <==> exists t :: Contains(e, t) && t.Compare? && t.a == Variable(x)
    decreases e
  {
    match e
    case Compare(_, _, _, _) =>
      assert Contains(e, e);
    case Negation(e1) =>
      FreedAreLeftOperands(e1, x);
    case Both(l, r) =>
      FreedAreLeftOperands(l, x);
      FreedAreLeftOperands(r, x);
    case Either(l, r) =>
      FreedAreLeftOperands(l, x);
      FreedAreLeftOperands(r, x);
  }
}
