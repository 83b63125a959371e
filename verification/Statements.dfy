// Statements, their meaning, and the words the one-pass compiler leaves for them.
// src/Compiler/Compiler.c (statements), src/Compiler/Emitter.c (branches)
module Statements {
  import opened Words
  import opened Isa
  import opened Machine
  import opened Codec

  type Var = nat
  type Store = map<Var, u32>

  // ---- where variables live ------------------------------------------------------

  datatype Loc = InReg(r: reg) | InMem(base: reg, off: int)
  type Env = map<Var, Loc>

  // What a statement is compiled under: variable locations and Emitter->Reglist.
  datatype Ctx = Ctx(env: Env, live: set<reg>)

  predicate HoldsVar(c: Ctx, r: reg) {
    exists x | x in c.env :: c.env[x] == InReg(r)
  }

  ghost predicate GoodCtx(c: Ctx) {
    && GP in c.live && FP in c.live && SP in c.live
    && (forall x | x in c.env :: match c.env[x]
          case InReg(r) => r in c.live && r < GP
          case InMem(base, off) => (base == GP || base == FP) && Fits32(off))
    && (forall x, y | x in c.env && y in c.env && x != y :: c.env[x].InReg? ==> c.env[x] != c.env[y])
  }

  function Place(l: Loc, d: Data): int
    requires l.InMem?
  {
    Address(d, l.base, l.off)
  }

  function Read(l: Loc, d: Data): u32 {
    match l
    case InReg(r) => Word(d, r)
    case InMem(_, _) => Load32(d.mem, Place(l, d))
  }

  ghost predicate Apart(env: Env, d: Data) {
    forall x, y | x in env && y in env && x != y && env[x].InMem? && env[y].InMem? ::
      Place(env[x], d) + 4 <= Place(env[y], d) || Place(env[y], d) + 4 <= Place(env[x], d)
  }

  // The machine data represents the store.
  ghost predicate Rep(c: Ctx, d: Data, s: Store) {
    && GoodCtx(c) && Apart(c.env, d) && s.Keys == c.env.Keys
    && forall x | x in c.env :: Read(c.env[x], d) == s[x]
  }

  // Registers in use that are not variables, and the return stack, survive.
  ghost predicate Keeps(c: Ctx, d: Data, d': Data) {
    && d'.frames == d.frames && d'.left == d.left
    && forall r: reg | r in c.live && !HoldsVar(c, r) :: d'.R[r] == d.R[r]
  }

  // ---- expression code, by contract -------------------------------------------------

  // Where a boolean result is: the flag (as is, or negated), or a register.
  datatype CondLoc = Flag(asIs: bool) | InRegister(r: reg)

  predicate Holds(l: CondLoc, d: Data) {
    match l
    case Flag(asIs) => d.cond == asIs
    case InRegister(r) => Word(d, r) != 0
  }

  // `frees`: the variables whose places are handed to FreeExpr with the code.
  datatype Piece = Piece(emit: Ctx -> seq<u16>, upd: Store -> Store, frees: set<Var>)
  datatype BoolExpr = BoolExpr(emit: Ctx -> seq<u16>, loc: Ctx -> CondLoc, val: Store -> bool, upd: Store -> Store, frees: set<Var>)

  // `own`: the variable that CompileExpr returns the place of; None when it left
  // the value in a register of its own.  `frees`: those freed on the way to it.
  datatype IntExpr = IntExpr(load: Ctx -> seq<u16>, reg: Ctx -> reg, assign: (Ctx, Var) -> seq<u16>, val: Store -> u32,
                             own: Option<Var>, frees: set<Var>)

  // What is freed once the value has been used.
  function Handed(e: IntExpr): set<Var> { e.frees + if e.own.Some? then {e.own.value} else {} }

  // FreeExpr takes the register of such a variable off the list, if it lives in one.
  function Lost(env: Env, vs: set<Var>): set<reg> { set x | x in vs && x in env && env[x].InReg? :: env[x].r }

  function Without(c: Ctx, vs: set<Var>): Ctx { c.(live := c.live - Lost(c.env, vs)) }

  // In `n` steps, code occupying [lo, hi) falls through to its end.
  ghost predicate FallsIn(code: seq<u16>, lo: int, hi: int, n: nat, d: Data, d': Data) {
    Runs(code, lo, hi, VM(lo, d), n, VM(hi, d'))
  }

  ghost predicate Falls(code: seq<u16>, lo: int, hi: int, d: Data, d': Data) {
    exists n: nat :: FallsIn(code, lo, hi, n, d, d')
  }

  // About to enter the words `ws` at `at` with data that represents `s`.
  ghost predicate Enters(c: Ctx, ws: seq<u16>, code: seq<u16>, at: int, d: Data, s: Store) {
    Rep(c, d, s) && Placed(code, at, ws)
  }

  ghost predicate PieceOk(p: Piece, c: Ctx) {
    var ws := p.emit(c);
    forall code, at, d, s :: Enters(c, ws, code, at, d, s) ==>
      exists d' :: Falls(code, at, at + |ws|, d, d') && Rep(c, d', p.upd(s)) && Keeps(c, d, d')
  }

  ghost predicate BoolOk(b: BoolExpr, c: Ctx) {
    var ws := b.emit(c);
    forall code, at, d, s :: Enters(c, ws, code, at, d, s) ==>
      exists d' :: Falls(code, at, at + |ws|, d, d') && Rep(c, d', b.upd(s)) && Keeps(c, d, d')
                   && Holds(b.loc(c), d') == b.val(s)
  }

  ghost predicate LoadOk(e: IntExpr, c: Ctx) {
    var ws := e.load(c);
    forall code, at, d, s :: Enters(c, ws, code, at, d, s) ==>
      exists d' :: Falls(code, at, at + |ws|, d, d') && Rep(c, d', s) && Keeps(c, d, d')
                   && Word(d', e.reg(c)) == e.val(s)
  }

  ghost predicate AssignOk(e: IntExpr, c: Ctx, x: Var) {
    var ws := e.assign(c, x);
    forall code, at, d, s :: Enters(c, ws, code, at, d, s) ==>
      exists d' :: Falls(code, at, at + |ws|, d, d') && Rep(c, d', s[x := e.val(s)]) && Keeps(c, d, d')
  }

  // ---- statements ----------------------------------------------------------------------

  datatype CounterType = Int32 | UInt32

  datatype Arm = Arm(k: u64, body: Stmt)

  datatype Stmt =
    | Simple(p: Piece)
    | Assign(x: Var, e: IntExpr)
    | Begin(ss: seq<Stmt>)
    | IfThen(b: BoolExpr, thn: Stmt)
    | IfElse(b: BoolExpr, thn: Stmt, els: Stmt)
    | While(b: BoolExpr, body: Stmt)
    | Repeat(ss: seq<Stmt>, b: BoolExpr)
    | For(x: Var, ty: CounterType, up: bool, first: IntExpr, last: IntExpr, body: Stmt)
    // A selector that is a variable is loaded again before each test.
    | Case(sel: IntExpr, arms: seq<Arm>, other: seq<Stmt>)
    | Break

  // ---- meaning ---------------------------------------------------------------------------

  datatype Result = Done(s: Store) | Broke(s: Store) | Timeout

  // Pascal compares counters by the signedness of their type.  As written, a
  // signed type selects the unsigned comparison and an unsigned one the signed.
  // Guarded is Pascal's reading, giving no result once a loop compares a counter
  // and a stop value of different sign bits.
  datatype Reading = Pascal | AsWritten | Guarded

  function ComparesSigned(m: Reading, ty: CounterType): bool {
    (m != AsWritten) == (ty == Int32)
  }

  predicate SameSign(a: u32, b: u32) { (a < 0x8000_0000) == (b < 0x8000_0000) }

  function Below(signed: bool, a: u32, b: u32): bool {
    if signed then Signed32(a) < Signed32(b) else a < b
  }

  function ForTest(m: Reading, ty: CounterType, up: bool, i: u32, stop: u32): bool {
    if up then !Below(ComparesSigned(m, ty), stop, i) else !Below(ComparesSigned(m, ty), i, stop)
  }

  function Advance(up: bool, i: u32): u32 { Low32(if up then i + 1 else i - 1) }

  function Value(s: Store, x: Var): u32 { if x in s then s[x] else 0 }

  // The first arm, at or behind `i`, whose constant equals the selector.
  function FirstMatch(arms: seq<Arm>, v: u32, i: nat): (j: nat)
    requires i <= |arms|
    ensures i <= j <= |arms|
    ensures forall k :: i <= k < j ==> Low32(arms[k].k) != v
    ensures j < |arms| ==> Low32(arms[j].k) == v
    decreases |arms| - i
  {
    if i == |arms| || Low32(arms[i].k) == v then i else FirstMatch(arms, v, i + 1)
  }

  // Big-step meaning with a bound on loop iterations.  A `break` leaves the
  // nearest while or for; repeat, case and begin pass it on.
  ghost function Eval(m: Reading, t: Stmt, s: Store, fuel: nat): Result
    decreases fuel, t, 1
  {
    match t
    case Simple(p) => Done(p.upd(s))
    case Assign(x, e) => Done(s[x := e.val(s)])
    case Begin(ss) => EvalAll(m, ss, s, fuel)
    case IfThen(b, thn) => if b.val(s) then Eval(m, thn, b.upd(s), fuel) else Done(b.upd(s))
    case IfElse(b, thn, els) => if b.val(s) then Eval(m, thn, b.upd(s), fuel) else Eval(m, els, b.upd(s), fuel)
    case While(b, body) =>
      if fuel == 0 then Timeout
      else if !b.val(s) then Done(b.upd(s))
      else (match Eval(m, body, b.upd(s), fuel)
            case Done(s') => Eval(m, t, s', fuel - 1)
            case Broke(s') => Done(s')
            case Timeout => Timeout)
    case Repeat(ss, b) =>
      if fuel == 0 then Timeout
      else (match EvalAll(m, ss, s, fuel)
            case Done(s') => if b.val(s') then Done(b.upd(s')) else Eval(m, t, b.upd(s'), fuel - 1)
            case Broke(s') => Broke(s')
            case Timeout => Timeout)
    case For(x, _, _, first, last, _) =>
      var s' := s[x := first.val(s)];
      EvalLoop(m, t, last.val(s'), s', fuel)
    case Case(sel, arms, other) =>
      var j := FirstMatch(arms, sel.val(s), 0);
      if j < |arms| then Eval(m, arms[j].body, s, fuel) else EvalAll(m, other, s, fuel)
    case Break => Broke(s)
  }

  ghost function EvalAll(m: Reading, ss: seq<Stmt>, s: Store, fuel: nat): Result
    decreases fuel, ss, 0
  {
    if |ss| == 0 then Done(s) else
    match EvalAll(m, ss[..|ss| - 1], s, fuel)
    case Done(s') => Eval(m, ss[|ss| - 1], s', fuel)
    case Broke(s') => Broke(s')
    case Timeout => Timeout
  }

  ghost function EvalLoop(m: Reading, t: Stmt, stop: u32, s: Store, fuel: nat): Result
    requires t.For?
    decreases fuel, t, 0
  {
    if fuel == 0 || (m == Guarded && !SameSign(Value(s, t.x), stop)) then Timeout
    else if !ForTest(m, t.ty, t.up, Value(s, t.x), stop) then Done(s)
    else match Eval(m, t.body, s, fuel)
      case Done(s') => EvalLoop(m, t, stop, s'[t.x := Advance(t.up, Value(s', t.x))], fuel - 1)
      case Broke(s') => Done(s')
      case Timeout => Timeout
  }

  // ---- emitted words ------------------------------------------------------------------------

  // PVMEmitBranchIfFalse and PVMEmitBranchIfTrue
  function BranchIfFalse(l: CondLoc, off: int): Instr {
    match l
    case Flag(asIs) => Branch(if asIs then BCF else BCT, off)
    case InRegister(r) => BranchReg(BEZ, r, off)
  }

  function BranchIfTrue(l: CondLoc, off: int): Instr {
    match l
    case Flag(asIs) => Branch(if asIs then BCT else BCF, off)
    case InRegister(r) => BranchReg(BNZ, r, off)
  }

  // PVMEmitBranch
  function Jump(off: int): Instr { Branch(BR, off) }

  // AllocateRegister while a register is free: the lowest clear bit of Reglist.
  function FirstFree(live: set<reg>, i: nat): (r: nat)
    requires i <= 16
    ensures i <= r <= 16 && (r < 16 ==> r !in live)
    ensures forall k: reg :: i <= k < r ==> k in live
    decreases 16 - i
  {
    if i == 16 || i !in live then i else FirstFree(live, i + 1)
  }

  predicate HasFree(c: Ctx) { FirstFree(c.live, 0) < 16 }

  function Free(c: Ctx): reg {
    var r := FirstFree(c.live, 0);
    if r < 16 then r else 0
  }

  function Occupy(c: Ctx, r: reg): Ctx { c.(live := c.live + {r}) }

  // The counter moves to a register, and stays there while the loop is compiled.
  function CounterCtx(t: Stmt, c: Ctx): Ctx
    requires t.For?
  {
    Ctx(c.env[t.x := InReg(Free(c))], c.live + {Free(c)})
  }

  // The first value has been moved to the counter, and freed.
  function StopCtx(t: Stmt, c: Ctx): Ctx
    requires t.For?
  {
    Without(CounterCtx(t, c), Handed(t.first))
  }

  function BodyCtx(t: Stmt, c: Ctx): Ctx
    requires t.For?
  {
    var c1 := StopCtx(t, c);
    Occupy(Without(c1, t.last.frees), t.last.reg(c1))
  }

  function SelCtx(t: Stmt, c: Ctx): Ctx
    requires t.Case?
  {
    var c1 := Without(c, t.sel.frees);
    if t.sel.own.None? then Occupy(c1, t.sel.reg(c)) else c1
  }

  // The condition has been branched on, and freed.
  function CondCtx(t: Stmt, c: Ctx): Ctx
    requires t.IfThen? || t.IfElse? || t.While?
  {
    Without(c, t.b.frees)
  }

  // What a statement hands to FreeExpr: before other parts of it are compiled,
  // and at its end.
  function Early(t: Stmt): set<Var> {
    match t
    case IfThen(b, _) => b.frees
    case IfElse(b, _, _) => b.frees
    case While(b, _) => b.frees
    case For(_, _, _, first, last, _) => Handed(first) + last.frees
    case Case(sel, _, _) => sel.frees
    case _ => {}
  }

  function Late(t: Stmt): set<Var> {
    match t
    case Simple(p) => p.frees
    case Assign(_, e) => Handed(e)
    case Repeat(_, b) => b.frees
    case Case(sel, _, _) => if sel.own.Some? then {sel.own.value} else {}
    case _ => {}
  }

  // Where variables live while a statement's own expressions are compiled.
  function Homes(t: Stmt, c: Ctx): Env { if t.For? then CounterCtx(t, c).env else c.env }

  // The part of a statement that is compiled last, and under what.
  datatype Part = Part(t: Stmt, c: Ctx)

  function LastPart(t: Stmt, c: Ctx): (p: Option<Part>)
    ensures p.Some? ==> p.value.t < t
  {
    match t
    case Begin(ss) => if |ss| > 0 then Some(Part(ss[|ss| - 1], c)) else None
    case IfThen(_, thn) => Some(Part(thn, CondCtx(t, c)))
    case IfElse(_, _, els) => Some(Part(els, CondCtx(t, c)))
    case While(_, body) => Some(Part(body, CondCtx(t, c)))
    case For(_, _, _, _, _, body) => Some(Part(body, BodyCtx(t, c)))
    case Case(_, _, other) => if |other| > 0 then Some(Part(other[|other| - 1], SelCtx(t, c))) else None
    case _ => None
  }

  // The registers of variables that a statement takes off the list, and those
  // that its last part does.
  function Freed(t: Stmt, c: Ctx): set<reg>
    decreases t
  {
    Lost(Homes(t, c), Early(t) + Late(t))
    + match LastPart(t, c)
      case Some(p) => Freed(p.t, p.c)
      case None => {}
  }

  function FreedAll(ss: seq<Stmt>, c: Ctx): set<reg> { if |ss| == 0 then {} else Freed(ss[|ss| - 1], c) }

  // None is taken off while a part of it is still to be compiled.
  predicate Intact(t: Stmt, c: Ctx) { Lost(Homes(t, c), Early(t)) == {} }

  // PVMEmitSetIfLessOrEqual / PVMEmitSetIfGreaterOrEqual, both read negated.
  function CompareCounter(ty: CounterType, up: bool, i: reg, stop: reg): Instr {
    var op := if ty == Int32 then SLT else ISLT;
    if up then Plain(op, stop, i) else Plain(op, i, stop)
  }

  function Home(c: Ctx, x: Var): Loc { if x in c.env then c.env[x] else InReg(0) }

  // PVMEmitMove from the counter register back to the variable.
  function MoveOut(l: Loc, r: reg): Instr {
    match l
    case InReg(r0) => Plain(MOV32, r0, r)
    case InMem(base, off) => if Fits16(off) then Memory(ST32, r, base, off) else MemoryLong(ST32L, r, base, off)
  }

  // Load the constant, load the selector again if it is a variable, compare.
  function ArmTest(t: Stmt, c: Ctx, k: u64): seq<u16>
    requires t.Case?
  {
    var c1 := SelCtx(t, c);
    var lit := Free(c1);
    var c2 := Occupy(c1, lit);
    Encode(MovImm(lit, k))
    + (if t.sel.own.None? then [] else t.sel.load(c2))
    + Encode(Plain(SEQ, if t.sel.own.None? then t.sel.reg(c) else t.sel.reg(c2), lit))
  }

  function Len(t: Stmt, c: Ctx): nat
    decreases t, 1
  {
    match t
    case Simple(p) => |p.emit(c)|
    case Assign(x, e) => |e.assign(c, x)|
    case Begin(ss) => LenAll(ss, c)
    case IfThen(b, thn) => |b.emit(c)| + 2 + Len(thn, CondCtx(t, c))
    case IfElse(b, thn, els) => |b.emit(c)| + 2 + Len(thn, CondCtx(t, c)) + 2 + Len(els, CondCtx(t, c))
    case While(b, body) => |b.emit(c)| + 2 + Len(body, CondCtx(t, c)) + 2
    case Repeat(ss, b) => LenAll(ss, c) + |b.emit(c)| + 2
    case For(x, ty, up, first, last, body) =>
      ForPrefix(t, c) + 3 + Len(body, BodyCtx(t, c)) + 2 + Size(MoveOut(Home(c, x), Free(c)))
    case Case(sel, arms, other) =>
      CasePrefix(t, c) + LenArms(t, arms, c) + LenAll(other, SelCtx(t, c))
    case Break => 2
  }

  function ForPrefix(t: Stmt, c: Ctx): nat
    requires t.For?
  {
    |t.first.assign(CounterCtx(t, c), t.x)| + |t.last.load(StopCtx(t, c))|
  }

  function CasePrefix(t: Stmt, c: Ctx): nat
    requires t.Case?
  {
    if t.sel.own.None? then |t.sel.load(c)| else 0
  }

  function LenAll(ss: seq<Stmt>, c: Ctx): nat
    decreases ss, 0
  {
    if |ss| == 0 then 0 else LenAll(ss[..|ss| - 1], c) + Len(ss[|ss| - 1], c)
  }

  function LenArms(t: Stmt, arms: seq<Arm>, c: Ctx): nat
    requires t.Case?
    decreases arms, 0
  {
    if |arms| == 0 then 0 else LenArms(t, arms[..|arms| - 1], c) + LenArm(t, arms[|arms| - 1], c)
  }

  function LenArm(t: Stmt, a: Arm, c: Ctx): nat
    requires t.Case?
    decreases a, 0
  {
    |ArmTest(t, c, a.k)| + 2 + Len(a.body, SelCtx(t, c)) + 2
  }

  // The words of a statement at address `at` whose breaks go to `brk`.
  function Gen(t: Stmt, c: Ctx, at: int, brk: int): (ws: seq<u16>)
    ensures |ws| == Len(t, c)
    decreases t, 1
  {
    hide Encode;
    hide MoveOut;
    hide Free;
    hide SelCtx;
    hide BodyCtx;
    hide CondCtx;
    hide StopCtx;
    hide CounterCtx;
    hide ArmTest;
    hide Home;
    match t
    case Simple(p) => p.emit(c)
    case Assign(x, e) => e.assign(c, x)
    case Begin(ss) => GenAll(ss, c, at, brk)
    case IfThen(b, thn) =>
      var w, c1 := b.emit(c), CondCtx(t, c);
      w + Encode(BranchIfFalse(b.loc(c), Len(thn, c1))) + Gen(thn, c1, at + |w| + 2, brk)
    case IfElse(b, thn, els) =>
      var w, c1 := b.emit(c), CondCtx(t, c);
      var m := at + |w| + 2 + Len(thn, c1);
      w + Encode(BranchIfFalse(b.loc(c), Len(thn, c1) + 2)) + Gen(thn, c1, at + |w| + 2, brk)
        + Encode(Jump(Len(els, c1))) + Gen(els, c1, m + 2, brk)
    case While(b, body) =>
      var w, c1 := b.emit(c), CondCtx(t, c);
      var l: int := Len(t, c);
      w + Encode(BranchIfFalse(b.loc(c), Len(body, c1) + 2)) + Gen(body, c1, at + |w| + 2, at + l)
        + Encode(Jump(-l))
    case Repeat(ss, b) =>
      var l: int := Len(t, c);
      GenAll(ss, c, at, brk) + b.emit(c) + Encode(BranchIfFalse(b.loc(c), -l))
    case For(_, _, _, _, _, _) => GenFor(t, c, at)
    case Case(_, _, _) => GenCase(t, c, at, brk)
    case Break => Encode(Jump(brk - at - 2))
  }

  function GenFor(t: Stmt, c: Ctx, at: int): (ws: seq<u16>)
    requires t.For?
    ensures |ws| == Len(t, c)
    decreases t, 0
  {
    hide Encode;
    hide MoveOut;
    hide Free;
    hide CounterCtx;
    hide StopCtx;
    hide BodyCtx;
    hide Home;
    var r, c1, c2 := Free(c), StopCtx(t, c), BodyCtx(t, c);
    var head := at + ForPrefix(t, c);
    var l := Len(t.body, c2);
    t.first.assign(CounterCtx(t, c), t.x) + t.last.load(c1)
      + Encode(CompareCounter(t.ty, t.up, r, t.last.reg(c1))) + Encode(BranchIfFalse(Flag(false), l + 2))
      + Gen(t.body, c2, head + 3, head + 3 + l + 2)
      + Encode(CountBranch(r, if t.up then 1 else -1, -(3 + l + 2)))
      + Encode(MoveOut(Home(c, t.x), r))
  }

  function GenCase(t: Stmt, c: Ctx, at: int, brk: int): (ws: seq<u16>)
    requires t.Case?
    ensures |ws| == Len(t, c)
    decreases t, 0
  {
    hide SelCtx;
    var p := CasePrefix(t, c);
    var q := p + LenArms(t, t.arms, c);
    (if t.sel.own.None? then t.sel.load(c) else [])
      + GenArms(t, t.arms, c, at + p, brk, at + Len(t, c))
      + GenAll(t.other, SelCtx(t, c), at + q, brk)
  }

  function GenAll(ss: seq<Stmt>, c: Ctx, at: int, brk: int): (ws: seq<u16>)
    ensures |ws| == LenAll(ss, c)
    decreases ss, 0
  {
    if |ss| == 0 then [] else
    var l := LenAll(ss[..|ss| - 1], c);
    GenAll(ss[..|ss| - 1], c, at, brk) + Gen(ss[|ss| - 1], c, at + l, brk)
  }

  // `out` is where the branch behind each arm goes.
  function GenArms(t: Stmt, arms: seq<Arm>, c: Ctx, at: int, brk: int, out: int): (ws: seq<u16>)
    requires t.Case?
    ensures |ws| == LenArms(t, arms, c)
    decreases arms, 0
  {
    if |arms| == 0 then [] else
    var a := arms[|arms| - 1];
    var l := LenArms(t, arms[..|arms| - 1], c);
    GenArms(t, arms[..|arms| - 1], c, at, brk, out) + GenArm(t, a, c, at + l, brk, out)
  }

  function GenArm(t: Stmt, a: Arm, c: Ctx, at: int, brk: int, out: int): (ws: seq<u16>)
    requires t.Case?
    ensures |ws| == LenArm(t, a, c)
    decreases a, 0
  {
    var w := ArmTest(t, c, a.k);
    var l := Len(a.body, SelCtx(t, c));
    w + Encode(BranchIfTrue(Flag(false), l + 2)) + Gen(a.body, SelCtx(t, c), at + |w| + 2, brk)
      + Encode(Jump(out - (at + |w| + 2 + l) - 2))
  }
}
