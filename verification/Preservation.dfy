// The words of a statement, run on the machine, do what the statement means.
// src/Compiler/Compiler.c, src/Compiler/Emitter.c, src/PVM/PVM.c
module Preservation {
  import opened Words
  import opened Isa
  import opened Machine
  import opened Codec
  import opened Statements

  // ---- what the compiled statement must satisfy ---------------------------------------

  // Expression code meets its contract in the context it is compiled in, every
  // branch distance fits its field, the allocator has a register when asked
  // without spilling, and no register of a variable is freed while a part of the
  // statement is still to be compiled.
  ghost predicate Ok(t: Stmt, c: Ctx, at: int, brk: int)
    decreases t, 1
  {
    match t
    case Simple(p) => PieceOk(p, c)
    case Assign(x, e) => AssignOk(e, c, x)
    case Begin(ss) => OkAll(ss, c, at, brk)
    case IfThen(b, thn) =>
      BoolOk(b, c) && Intact(t, c) && WellFormed(BranchIfFalse(b.loc(c), Len(thn, c)))
      && Ok(thn, c, at + |b.emit(c)| + 2, brk)
    case IfElse(b, thn, els) =>
      BoolOk(b, c) && Intact(t, c) && WellFormed(BranchIfFalse(b.loc(c), Len(thn, c) + 2)) && WellFormed(Jump(Len(els, c)))
      && Ok(thn, c, at + |b.emit(c)| + 2, brk) && Ok(els, c, at + |b.emit(c)| + 4 + Len(thn, c), brk)
    case While(b, body) =>
      var l: int := Len(t, c);
      BoolOk(b, c) && Intact(t, c) && WellFormed(BranchIfFalse(b.loc(c), Len(body, c) + 2)) && WellFormed(Jump(-l))
      && Ok(body, c, at + |b.emit(c)| + 2, at + l)
    case Repeat(ss, b) =>
      var l: int := Len(t, c);
      BoolOk(b, c) && WellFormed(BranchIfFalse(b.loc(c), -l)) && OkAll(ss, c, at, brk)
    case For(x, ty, up, first, last, body) =>
      && x in c.env && HasFree(c) && Intact(t, c)
      && OkFor(t, c, Len(body, BodyCtx(t, c)))
      && var head := at + ForPrefix(t, c);
         Ok(body, BodyCtx(t, c), head + 3, head + 5 + Len(body, BodyCtx(t, c)))
    case Case(sel, arms, other) =>
      && Intact(t, c) && (sel.own.None? ==> LoadOk(sel, c) && sel.reg(c) !in c.live)
      && OkArms(t, arms, c, at + CasePrefix(t, c), brk, at + Len(t, c))
      && OkAll(other, SelCtx(t, c), at + CasePrefix(t, c) + LenArms(t, arms, c), brk)
    case Break => WellFormed(Jump(brk - at - 2))
  }

  // The counter is in its register while the first value is computed, so that
  // expression must not depend on the counter (`for i := i to n` does).
  ghost predicate OkFor(t: Stmt, c: Ctx, l: nat)
    requires t.For?
  {
    OkStart(t, c) && WellFormed(Branch(BCT, l + 2)) && WellFormed(CountBranch(Free(c), 1, -(3 + l + 2)))
  }

  ghost predicate OkStart(t: Stmt, c: Ctx)
    requires t.For?
  {
    var c1 := StopCtx(t, c);
    && AssignOk(t.first, CounterCtx(t, c), t.x) && LoadOk(t.last, c1) && t.last.reg(c1) !in c1.live
    && Ignores(t.first, t.x, c1.env.Keys)
  }

  // Over the stores of these variables, the value does not depend on `x`.
  ghost predicate Ignores(e: IntExpr, x: Var, vars: set<Var>) {
    forall s: Store, v: u32 {:trigger e.val(s[x := v])} | s.Keys == vars :: e.val(s[x := v]) == e.val(s)
  }

  ghost predicate OkAll(ss: seq<Stmt>, c: Ctx, at: int, brk: int)
    decreases ss, 0
  {
    |ss| == 0 ||
    (OkAll(ss[..|ss| - 1], c, at, brk) && Ok(ss[|ss| - 1], c, at + LenAll(ss[..|ss| - 1], c), brk))
  }

  ghost predicate OkArms(t: Stmt, arms: seq<Arm>, c: Ctx, at: int, brk: int, out: int)
    requires t.Case?
    decreases arms, 0
  {
    |arms| == 0 ||
    (OkArms(t, arms[..|arms| - 1], c, at, brk, out)
     && OkArm(t, arms[|arms| - 1], c, at + LenArms(t, arms[..|arms| - 1], c), brk, out))
  }

  ghost predicate OkArm(t: Stmt, a: Arm, c: Ctx, at: int, brk: int, out: int)
    requires t.Case?
    decreases a, 0
  {
    var c1 := SelCtx(t, c);
    var w := |ArmTest(t, c, a.k)|;
    var l := Len(a.body, c1);
    && HasFree(c1) && (t.sel.own.Some? ==> LoadOk(t.sel, Occupy(c1, Free(c1))))
    && WellFormed(Branch(BCF, l + 2)) && WellFormed(Jump(out - (at + w + 2 + l) - 2))
    && Ok(a.body, c1, at + w + 2, brk)
  }

  // ---- pieces of code --------------------------------------------------------------------

  lemma Join(code: seq<u16>, lo: int, hi: int, a: VM, l1: int, h1: int, n: nat, b: VM, l2: int, h2: int, m: nat, c: VM)
    requires Runs(code, l1, h1, a, n, b) && Runs(code, l2, h2, b, m, c)
    requires lo <= l1 && h1 <= hi && lo <= l2 && h2 <= hi
    ensures Runs(code, lo, hi, a, n + m, c)
  {
    RunsWiden(code, l1, h1, lo, hi, a, n, b);
    RunsWiden(code, l2, h2, lo, hi, b, m, c);
    RunsJoin(code, lo, hi, a, n, b, m, c);
  }

  lemma UsePiece(p: Piece, c: Ctx, code: seq<u16>, at: int, d: Data, s: Store) returns (n: nat, d': Data)
    requires PieceOk(p, c) && Rep(c, d, s) && Placed(code, at, p.emit(c))
    ensures Runs(code, at, at + |p.emit(c)|, VM(at, d), n, VM(at + |p.emit(c)|, d'))
    ensures Rep(c, d', p.upd(s)) && Keeps(c, d, d')
  {
    hide Runs;
    hide Rep;
    hide Keeps;
    var ws := p.emit(c);
    assert Enters(c, ws, code, at, d, s);
    d' :| Falls(code, at, at + |ws|, d, d') && Rep(c, d', p.upd(s)) && Keeps(c, d, d');
    n :| FallsIn(code, at, at + |ws|, n, d, d');
  }

  lemma UseBool(b: BoolExpr, c: Ctx, code: seq<u16>, at: int, d: Data, s: Store) returns (n: nat, d': Data)
    requires BoolOk(b, c) && Rep(c, d, s) && Placed(code, at, b.emit(c))
    ensures Runs(code, at, at + |b.emit(c)|, VM(at, d), n, VM(at + |b.emit(c)|, d'))
    ensures Rep(c, d', b.upd(s)) && Keeps(c, d, d') && Holds(b.loc(c), d') == b.val(s)
  {
    hide Runs;
    hide Rep;
    hide Keeps;
    var ws := b.emit(c);
    assert Enters(c, ws, code, at, d, s);
    d' :| Falls(code, at, at + |ws|, d, d') && Rep(c, d', b.upd(s)) && Keeps(c, d, d')
          && Holds(b.loc(c), d') == b.val(s);
    n :| FallsIn(code, at, at + |ws|, n, d, d');
  }

  lemma UseLoad(e: IntExpr, c: Ctx, code: seq<u16>, at: int, d: Data, s: Store) returns (n: nat, d': Data)
    requires LoadOk(e, c) && Rep(c, d, s) && Placed(code, at, e.load(c))
    ensures Runs(code, at, at + |e.load(c)|, VM(at, d), n, VM(at + |e.load(c)|, d'))
    ensures Rep(c, d', s) && Keeps(c, d, d') && Word(d', e.reg(c)) == e.val(s)
  {
    hide Runs;
    hide Rep;
    hide Keeps;
    var ws := e.load(c);
    assert Enters(c, ws, code, at, d, s);
    d' :| Falls(code, at, at + |ws|, d, d') && Rep(c, d', s) && Keeps(c, d, d') && Word(d', e.reg(c)) == e.val(s);
    n :| FallsIn(code, at, at + |ws|, n, d, d');
  }

  lemma UseAssign(e: IntExpr, c: Ctx, x: Var, code: seq<u16>, at: int, d: Data, s: Store) returns (n: nat, d': Data)
    requires AssignOk(e, c, x) && Rep(c, d, s) && Placed(code, at, e.assign(c, x))
    ensures Runs(code, at, at + |e.assign(c, x)|, VM(at, d), n, VM(at + |e.assign(c, x)|, d'))
    ensures Rep(c, d', s[x := e.val(s)]) && Keeps(c, d, d')
  {
    hide Runs;
    hide Rep;
    hide Keeps;
    var ws := e.assign(c, x);
    assert Enters(c, ws, code, at, d, s);
    d' :| Falls(code, at, at + |ws|, d, d') && Rep(c, d', s[x := e.val(s)]) && Keeps(c, d, d');
    n :| FallsIn(code, at, at + |ws|, n, d, d');
  }

  // A conditional branch placed behind its condition.
  lemma TakeBranch(code: seq<u16>, at: int, l: CondLoc, onFalse: bool, off: int, d: Data)
    requires var i := if onFalse then BranchIfFalse(l, off) else BranchIfTrue(l, off);
             WellFormed(i) && Placed(code, at, Encode(i))
    ensures Runs(code, at, at + 2, VM(at, d), 1, VM(if Holds(l, d) == onFalse then at + 2 else at + 2 + off, d))
  {
    hide Encode;
    hide Runs;
    var i := if onFalse then BranchIfFalse(l, off) else BranchIfTrue(l, off);
    var to := if Holds(l, d) == onFalse then at + 2 else at + 2 + off;
    assert Size(i) == 2;
    RunsOne(code, at, i, d, VM(to, d));
  }

  lemma TakeJump(code: seq<u16>, at: int, off: int, d: Data)
    requires WellFormed(Jump(off)) && Placed(code, at, Encode(Jump(off)))
    ensures Runs(code, at, at + 2, VM(at, d), 1, VM(at + 2 + off, d))
  {
    hide Encode;
    hide Runs;
    RunsOne(code, at, Jump(off), d, VM(at + 2 + off, d));
  }

  // ---- representation facts ------------------------------------------------------------------

  lemma KeepsJoin(c: Ctx, a: Data, b: Data, d: Data)
    requires Keeps(c, a, b) && Keeps(c, b, d)
    ensures Keeps(c, a, d)
  {
  }

  lemma RepOccupied(c: Ctx, r: reg, d: Data, s: Store)
    requires GoodCtx(c)
    ensures Rep(Occupy(c, r), d, s) <==> Rep(c, d, s)
  {
  }

  lemma KeepsOccupied(c: Ctx, r: reg, d: Data, d': Data)
    requires Keeps(Occupy(c, r), d, d')
    ensures Keeps(c, d, d')
    ensures !HoldsVar(c, r) ==> d'.R[r] == d.R[r]
  {
    assert forall k :: HoldsVar(Occupy(c, r), k) <==> HoldsVar(c, k);
    assert r in Occupy(c, r).live;
  }

  lemma FreeIsFree(c: Ctx)
    requires GoodCtx(c) && HasFree(c)
    ensures Free(c) !in c.live && Free(c) < GP && !HoldsVar(c, Free(c))
  {
  }

  lemma SameReads(env: Env, d: Data, d': Data)
    requires d'.mem == d.mem && d'.R[GP] == d.R[GP] && d'.R[FP] == d.R[FP]
    requires forall x | x in env :: match env[x]
               case InReg(r) => d'.R[r] == d.R[r]
               case InMem(base, off) => base == GP || base == FP
    ensures forall x | x in env :: Read(env[x], d') == Read(env[x], d)
    ensures forall x | x in env && env[x].InMem? :: Place(env[x], d') == Place(env[x], d)
  {
    hide Load32;
    hide Low32;
  }

  // Changing the flag, or a register that is not in use, changes nothing represented.
  lemma RepScratch(c: Ctx, d: Data, d': Data, s: Store)
    requires Rep(c, d, s)
    requires d'.mem == d.mem && d'.frames == d.frames && d'.left == d.left
    requires forall r: reg :: r in c.live ==> d'.R[r] == d.R[r]
    ensures Rep(c, d', s) && Keeps(c, d, d')
  {
    hide Read;
    hide Place;
    SameReads(c.env, d, d');
  }

  lemma KeepsBases(c: Ctx, d: Data, d': Data)
    requires GoodCtx(c) && Keeps(c, d, d')
    ensures d'.R[GP] == d.R[GP] && d'.R[FP] == d.R[FP]
    ensures Apart(c.env, d) ==> Apart(c.env, d')
  {
    assert !HoldsVar(c, GP) && !HoldsVar(c, FP);
    assert forall x | x in c.env && c.env[x].InMem? :: Place(c.env[x], d') == Place(c.env[x], d);
  }

  lemma LowOfSet(a: u64, v: u32)
    ensures Low32(SetLow32(a, v)) == v
  {
  }

  // ---- nothing freed early -----------------------------------------------------------------------

  // Then all parts of a statement are compiled under the variables' own registers.
  lemma IntactCtx(t: Stmt, c: Ctx)
    requires Intact(t, c)
    ensures t.IfThen? || t.IfElse? || t.While? ==> CondCtx(t, c) == c
    ensures t.For? ==> StopCtx(t, c) == CounterCtx(t, c) && BodyCtx(t, c) == Occupy(CounterCtx(t, c), t.last.reg(CounterCtx(t, c)))
    ensures t.Case? ==> SelCtx(t, c) == if t.sel.own.None? then Occupy(c, t.sel.reg(c)) else c
  {
    hide CounterCtx;
    if t.For? {
      LostNone(CounterCtx(t, c), Handed(t.first), Handed(t.first) + t.last.frees);
      LostNone(CounterCtx(t, c), t.last.frees, Handed(t.first) + t.last.frees);
    } else if t.IfThen? || t.IfElse? || t.While? {
      LostNone(c, t.b.frees, t.b.frees);
    } else if t.Case? {
      LostNone(c, t.sel.frees, t.sel.frees);
    }
  }

  lemma LostNone(c: Ctx, vs: set<Var>, all: set<Var>)
    requires Lost(c.env, all) == {} && vs <= all
    ensures Without(c, vs) == c
  {
    assert Lost(c.env, vs) <= Lost(c.env, all);
    assert c.live - {} == c.live;
  }

  // ---- the counter of a for loop ---------------------------------------------------------------

  // On entry the counter variable is whatever its new register holds.
  lemma EnterCounter(t: Stmt, c: Ctx, d: Data, s: Store)
    requires t.For? && t.x in c.env && HasFree(c) && Rep(c, d, s)
    ensures Rep(CounterCtx(t, c), d, s[t.x := Word(d, Free(c))])
  {
    hide Load32;
    hide Low32;
    FreeIsFree(c);
  }

  lemma CounterKeeps(t: Stmt, c: Ctx, d: Data, d': Data)
    requires t.For? && GoodCtx(c) && HasFree(c) && Intact(t, c)
    requires Keeps(CounterCtx(t, c), d, d') || Keeps(BodyCtx(t, c), d, d')
    ensures Keeps(c, d, d')
  {
    IntactCtx(t, c);
    FreeIsFree(c);
    var c1 := CounterCtx(t, c);
    assert forall r | r in c.live && !HoldsVar(c, r) :: r in c1.live && !HoldsVar(c1, r);
    if Keeps(BodyCtx(t, c), d, d') {
      KeepsOccupied(c1, t.last.reg(c1), d, d');
    }
  }

  // The register of the stop value is not a variable's, so the body keeps it.
  lemma StopKept(t: Stmt, c: Ctx, d: Data, d': Data)
    requires t.For? && GoodCtx(CounterCtx(t, c)) && Intact(t, c) && t.last.reg(StopCtx(t, c)) !in StopCtx(t, c).live
    requires Keeps(BodyCtx(t, c), d, d')
    ensures Word(d', t.last.reg(StopCtx(t, c))) == Word(d, t.last.reg(StopCtx(t, c)))
  {
    IntactCtx(t, c);
    hide Low32;
    var c1 := CounterCtx(t, c);
    assert !HoldsVar(c1, t.last.reg(c1));
    KeepsOccupied(c1, t.last.reg(c1), d, d');
  }

  lemma CounterValue(t: Stmt, c: Ctx, d: Data, s: Store)
    requires t.For? && Rep(BodyCtx(t, c), d, s)
    ensures t.x in s && Word(d, Free(c)) == s[t.x] == Value(s, t.x)
  {
    assert BodyCtx(t, c).env[t.x] == InReg(Free(c));
  }

  lemma CompareStep(t: Stmt, c: Ctx, code: seq<u16>, at: int, d: Data, s: Store, stop: u32) returns (d': Data)
    requires t.For? && Rep(BodyCtx(t, c), d, s) && Word(d, t.last.reg(StopCtx(t, c))) == stop
    requires Placed(code, at, Encode(CompareCounter(t.ty, t.up, Free(c), t.last.reg(StopCtx(t, c)))))
    ensures Runs(code, at, at + 1, VM(at, d), 1, VM(at + 1, d'))
    ensures Rep(BodyCtx(t, c), d', s) && Keeps(BodyCtx(t, c), d, d') && d'.R == d.R
    ensures Holds(Flag(false), d') == ForTest(AsWritten, t.ty, t.up, Value(s, t.x), stop)
  {
    hide *;
    CounterValue(t, c, d, s);
    d' := CompareRuns(t.ty, t.up, Free(c), t.last.reg(StopCtx(t, c)), code, at, d);
    CondScratch(BodyCtx(t, c), d, d'.cond, s);
  }

  lemma CompareRuns(ty: CounterType, up: bool, i: reg, stop: reg, code: seq<u16>, at: int, d: Data) returns (d': Data)
    requires Placed(code, at, Encode(CompareCounter(ty, up, i, stop)))
    ensures Runs(code, at, at + 1, VM(at, d), 1, VM(at + 1, d')) && d' == d.(cond := d'.cond)
    ensures Holds(Flag(false), d') == ForTest(AsWritten, ty, up, Word(d, i), Word(d, stop))
  {
    hide Runs;
    hide Encode;
    d' := d.(cond := !ForTest(AsWritten, ty, up, Word(d, i), Word(d, stop)));
    RunsOne(code, at, CompareCounter(ty, up, i, stop), d, VM(at + 1, d'));
  }

  lemma AddLow(a: u64, inc: int)
    ensures Low32((a + inc) % TWO64) == Low32(Low32(a) + inc)
  {
    var x := a + inc;
    var q, p := x / TWO64, a / TWO32;
    SameLow(x - q * TWO64, x, -q * TWO32);
    SameLow(a % TWO32 + inc, x, -p);
  }

  lemma SameLow(x: int, y: int, k: int)
    requires x == y + k * TWO32
    ensures Low32(x) == Low32(y)
  {
    ModUnique(x, TWO32, y / TWO32 + k, y % TWO32);
  }

  lemma SetCounter(t: Stmt, c: Ctx, d: Data, s: Store, v: u64)
    requires t.For? && HasFree(c) && GoodCtx(c) && Rep(BodyCtx(t, c), d, s)
    ensures var d' := SetReg(d, Free(c), v);
            Rep(BodyCtx(t, c), d', s[t.x := Low32(v)]) && Keeps(BodyCtx(t, c), d, d')
  {
    RepParts(BodyCtx(t, c), d, s);
    BodyHome(t, c);
    hide *;
    SetRegHome(BodyCtx(t, c), t.x, d, s[t.x := Low32(v)], v);
  }

  lemma RepParts(c: Ctx, d: Data, s: Store)
    requires Rep(c, d, s)
    ensures GoodCtx(c) && Apart(c.env, d) && s.Keys == c.env.Keys
    ensures forall y | y in c.env :: Read(c.env[y], d) == s[y]
  {
  }

  lemma BodyHome(t: Stmt, c: Ctx)
    requires t.For?
    ensures var b := BodyCtx(t, c); t.x in b.env && b.env[t.x] == InReg(Free(c))
  {
  }

  // Setting the register a variable lives in sets the variable.
  lemma SetRegHome(c: Ctx, x: Var, d: Data, s: Store, v: u64)
    requires GoodCtx(c) && Apart(c.env, d) && x in c.env && s.Keys == c.env.Keys && c.env[x].InReg?
    requires s[x] == Low32(v)
    requires forall y | y in c.env && y != x :: Read(c.env[y], d) == s[y]
    ensures var d' := SetReg(d, c.env[x].r, v);
            Rep(c, d', s) && Keeps(c, d, d')
  {
    hide Load32;
    hide Low32;
    hide Address;
    var r := c.env[x].r;
    var d' := SetReg(d, r, v);
    assert HoldsVar(c, r);
    forall y | y in c.env && c.env[y].InMem?
      ensures Place(c.env[y], d') == Place(c.env[y], d)
    {
      SameAddress(d, d', c.env[y].base, c.env[y].off);
    }
  }

  lemma CountStep(t: Stmt, c: Ctx, code: seq<u16>, at: int, off: int, d: Data, s: Store) returns (d': Data)
    requires t.For? && HasFree(c) && GoodCtx(c) && Rep(BodyCtx(t, c), d, s)
    requires Placed(code, at, Encode(CountBranch(Free(c), if t.up then 1 else -1, off)))
    requires WellFormed(CountBranch(Free(c), 1, off))
    ensures Runs(code, at, at + 2, VM(at, d), 1, VM(at + 2 + off, d'))
    ensures Rep(BodyCtx(t, c), d', s[t.x := Advance(t.up, Value(s, t.x))]) && Keeps(BodyCtx(t, c), d, d')
  {
    hide Runs;
    hide Encode;
    hide Rep;
    hide Keeps;
    hide Low32;
    CounterValue(t, c, d, s);
    var r := Free(c);
    var inc := if t.up then 1 else -1;
    var v := (d.R[r] + inc) % TWO64;
    AddLow(d.R[r], inc);
    SetCounter(t, c, d, s, v);
    d' := SetReg(d, r, d.R[r] + inc);
    RunsOne(code, at, CountBranch(r, inc, off), d, VM(at + 2 + off, d'));
  }

  // Storing a word in one variable's home changes no other variable.
  lemma StoreMemHome(c: Ctx, x: Var, d: Data, s: Store)
    requires GoodCtx(c) && Apart(c.env, d) && x in c.env && s.Keys == c.env.Keys && c.env[x].InMem?
    requires forall y | y in c.env && y != x :: Read(c.env[y], d) == s[y]
    ensures var d' := d.(mem := Store32(d.mem, Place(c.env[x], d), s[x]));
            Rep(c, d', s) && Keeps(c, d, d')
  {
    hide Load32;
    hide Store32;
    hide Low32;
    hide Address;
    var a := Place(c.env[x], d);
    var d' := d.(mem := Store32(d.mem, a, s[x]));
    LoadStore32(d.mem, a, s[x], a);
    SamePlaces(c.env, d, d');
    forall y | y in c.env
      ensures Read(c.env[y], d') == s[y]
    {
      if y != x && c.env[y].InMem? { LoadStore32(d.mem, a, s[x], Place(c.env[y], d)); }
    }
  }

  lemma SamePlaces(env: Env, d: Data, d': Data)
    requires d'.R == d.R
    ensures forall y | y in env && env[y].InMem? :: Place(env[y], d') == Place(env[y], d)
    ensures Apart(env, d') == Apart(env, d)
  {
    hide Address;
    assert forall y | y in env && env[y].InMem? :: Place(env[y], d') == Place(env[y], d) by {
      forall y | y in env && env[y].InMem?
        ensures Place(env[y], d') == Place(env[y], d)
      {
        SameAddress(d, d', env[y].base, env[y].off);
      }
    }
  }

  lemma SameAddress(d: Data, d': Data, base: reg, off: int)
    requires d'.R[base] == d.R[base]
    ensures Address(d', base, off) == Address(d, base, off)
  {
  }

  lemma StoreRegHome(c: Ctx, x: Var, d: Data, s: Store, v: u64)
    requires GoodCtx(c) && Apart(c.env, d) && x in c.env && s.Keys == c.env.Keys && c.env[x].InReg?
    requires s[x] == Low32(v)
    requires forall y | y in c.env && y != x :: Read(c.env[y], d) == s[y]
    ensures var d' := SetWord(d, c.env[x].r, v);
            Rep(c, d', s) && Keeps(c, d, d')
  {
    hide Load32;
    hide Low32;
    hide SetLow32;
    hide Address;
    var r := c.env[x].r;
    LowOfSet(d.R[r], Low32(v));
    var d' := SetWord(d, r, v);
    assert HoldsVar(c, r);
    forall y | y in c.env && c.env[y].InMem?
      ensures Place(c.env[y], d') == Place(c.env[y], d)
    {
      SameAddress(d, d', c.env[y].base, c.env[y].off);
    }
  }

  lemma MoveOutStep(l: Loc, r: reg, code: seq<u16>, at: int, d: Data)
    requires l.InMem? ==> Fits32(l.off)
    requires Placed(code, at, Encode(MoveOut(l, r)))
    ensures var hi := at + Size(MoveOut(l, r));
            var d' := if l.InMem? then d.(mem := Store32(d.mem, Place(l, d), Word(d, r))) else SetWord(d, l.r, d.R[r]);
            Runs(code, at, hi, VM(at, d), 1, VM(hi, d'))
  {
    hide Runs;
    hide Encode;
    hide Low32;
    hide SetLow32;
    hide Store32;
    hide Address;
    var i := MoveOut(l, r);
    var d' := if l.InMem? then d.(mem := Store32(d.mem, Place(l, d), Word(d, r))) else SetWord(d, l.r, d.R[r]);
    RunsOne(code, at, i, d, VM(at + Size(i), d'));
  }

  // The counter goes back to its variable, which is its home again.
  lemma LeaveCounter(t: Stmt, c: Ctx, code: seq<u16>, at: int, d: Data, s: Store) returns (d': Data)
    requires t.For? && t.x in c.env && HasFree(c) && GoodCtx(c) && Apart(c.env, d) && Rep(BodyCtx(t, c), d, s)
    requires Placed(code, at, Encode(MoveOut(c.env[t.x], Free(c))))
    ensures var hi := at + Size(MoveOut(c.env[t.x], Free(c)));
            Runs(code, at, hi, VM(at, d), 1, VM(hi, d'))
    ensures Rep(c, d', s) && Keeps(c, d, d')
  {
    CounterValue(t, c, d, s);
    OtherReads(t, c, d, s);
    hide Runs;
    hide Encode;
    hide Rep;
    hide Keeps;
    hide MoveOut;
    hide Store32;
    hide SetWord;
    var l := c.env[t.x];
    MoveOutStep(l, Free(c), code, at, d);
    if l.InMem? {
      StoreMemHome(c, t.x, d, s);
      d' := d.(mem := Store32(d.mem, Place(l, d), s[t.x]));
    } else {
      StoreRegHome(c, t.x, d, s, d.R[Free(c)]);
      d' := SetWord(d, l.r, d.R[Free(c)]);
    }
  }

  lemma OtherReads(t: Stmt, c: Ctx, d: Data, s: Store)
    requires t.For? && t.x in c.env && Rep(BodyCtx(t, c), d, s)
    ensures s.Keys == c.env.Keys && forall y | y in c.env && y != t.x :: Read(c.env[y], d) == s[y]
  {
    hide Read;
    var b := BodyCtx(t, c);
    assert forall y | y in c.env && y != t.x :: b.env[y] == c.env[y];
    assert b.env.Keys == c.env.Keys;
  }

  // ---- the selector of a case ------------------------------------------------------------------

  // Between tests the selector is in its register, or still a variable.
  ghost predicate SelReady(t: Stmt, c: Ctx, d: Data, s: Store)
    requires t.Case?
  {
    Rep(SelCtx(t, c), d, s) && (t.sel.own.None? ==> Word(d, t.sel.reg(c)) == t.sel.val(s))
  }

  lemma LiteralStep(c: Ctx, code: seq<u16>, at: int, k: u64, d: Data, s: Store) returns (d': Data)
    requires HasFree(c) && Rep(c, d, s) && Placed(code, at, Encode(MovImm(Free(c), k)))
    ensures var hi := at + |Encode(MovImm(Free(c), k))|;
            Runs(code, at, hi, VM(at, d), 1, VM(hi, d'))
    ensures Rep(c, d', s) && Keeps(c, d, d') && d'.R[Free(c)] == k
    ensures forall r: reg :: r in c.live ==> d'.R[r] == d.R[r]
  {
    hide Runs;
    hide Encode;
    hide MovImm;
    hide Free;
    FreeIsFree(c);
    var i := MovImm(Free(c), k);
    MovImmLoads(Free(c), k);
    MovImmTarget(Free(c), k);
    d' := SetReg(d, Free(c), k);
    RepScratch(c, d, d', s);
    RunsOne(code, at, i, d, VM(at + Size(i), d'));
  }

  lemma MovImmTarget(rd: reg, k: u64)
    ensures MovImm(rd, k).rd == rd
  {
  }

  lemma EqualStep(code: seq<u16>, at: int, a: reg, b: reg, d: Data)
    requires Placed(code, at, Encode(Plain(SEQ, a, b)))
    ensures Runs(code, at, at + 1, VM(at, d), 1, VM(at + 1, d.(cond := Word(d, a) == Word(d, b))))
  {
    hide Runs;
    hide Encode;
    RunsOne(code, at, Plain(SEQ, a, b), d, VM(at + 1, d.(cond := Word(d, a) == Word(d, b))));
  }

  lemma HoldsNegated(d: Data)
    ensures Holds(Flag(false), d) == !d.cond
  {
  }

  lemma CondScratch(c: Ctx, d: Data, b: bool, s: Store)
    requires Rep(c, d, s)
    ensures Rep(c, d.(cond := b), s) && Keeps(c, d, d.(cond := b))
  {
    RepScratch(c, d, d.(cond := b), s);
  }

  // The words that bring the selector next to the literal.
  function Reload(t: Stmt, c: Ctx): seq<u16>
    requires t.Case?
  {
    if t.sel.own.None? then [] else t.sel.load(Occupy(SelCtx(t, c), Free(SelCtx(t, c))))
  }

  function SelReg(t: Stmt, c: Ctx): reg
    requires t.Case?
  {
    if t.sel.own.None? then t.sel.reg(c) else t.sel.reg(Occupy(SelCtx(t, c), Free(SelCtx(t, c))))
  }

  lemma ShapeTest(t: Stmt, c: Ctx, k: u64)
    requires t.Case?
    ensures ArmTest(t, c, k) ==
              Encode(MovImm(Free(SelCtx(t, c)), k)) + Reload(t, c) + Encode(Plain(SEQ, SelReg(t, c), Free(SelCtx(t, c))))
    ensures |Encode(Plain(SEQ, SelReg(t, c), Free(SelCtx(t, c))))| == 1
  {
    hide Encode;
    hide MovImm;
    hide Free;
  }

  lemma ReloadStep(t: Stmt, c: Ctx, code: seq<u16>, at: int, d: Data, s: Store) returns (n: nat, d': Data)
    requires t.Case? && HasFree(SelCtx(t, c)) && SelReady(t, c, d, s) && Placed(code, at, Reload(t, c))
    requires t.sel.own.Some? ==> LoadOk(t.sel, Occupy(SelCtx(t, c), Free(SelCtx(t, c))))
    ensures var hi := at + |Reload(t, c)|;
            Runs(code, at, hi, VM(at, d), n, VM(hi, d'))
    ensures SelReady(t, c, d', s) && Keeps(SelCtx(t, c), d, d')
    ensures Word(d', SelReg(t, c)) == t.sel.val(s)
    ensures Word(d', Free(SelCtx(t, c))) == Word(d, Free(SelCtx(t, c)))
  {
    hide Runs;
    hide Rep;
    hide Keeps;
    hide LoadOk;
    hide Placed;
    hide HoldsVar;
    hide Free;
    hide HasFree;
    hide GoodCtx;
    hide Low32;
    var c1 := SelCtx(t, c);
    var lit := Free(c1);
    if t.sel.own.None? {
      n, d' := 0, d;
      NoSteps(c1, code, at, d);
    } else {
      RepGoodCtx(c1, d, s);
      FreeIsFree(c1);
      RepOccupied(c1, lit, d, s);
      n, d' := UseLoad(t.sel, Occupy(c1, lit), code, at, d, s);
      RepOccupied(c1, lit, d', s);
      KeepsOccupied(c1, lit, d, d');
    }
  }

  lemma NoSteps(c: Ctx, code: seq<u16>, at: int, d: Data)
    ensures Runs(code, at, at, VM(at, d), 0, VM(at, d)) && Keeps(c, d, d)
  {
  }

  lemma RepGoodCtx(c: Ctx, d: Data, s: Store)
    requires Rep(c, d, s)
    ensures GoodCtx(c) && Apart(c.env, d)
  {
  }

  // The test of one arm: the flag says whether the constant is the selector.
  lemma ArmTestRuns(t: Stmt, c: Ctx, code: seq<u16>, at: int, k: u64, d: Data, s: Store) returns (n: nat, d': Data)
    requires t.Case? && HasFree(SelCtx(t, c)) && SelReady(t, c, d, s) && Placed(code, at, ArmTest(t, c, k))
    requires t.sel.own.Some? ==> LoadOk(t.sel, Occupy(SelCtx(t, c), Free(SelCtx(t, c))))
    requires t.sel.own.None? ==> t.sel.reg(c) !in c.live
    ensures var hi := at + |ArmTest(t, c, k)|;
            Runs(code, at, hi, VM(at, d), n, VM(hi, d'))
    ensures n >= 1 && SelReady(t, c, d', s) && Keeps(SelCtx(t, c), d, d')
    ensures d'.cond == (t.sel.val(s) == Low32(k))
  {
    hide Runs;
    hide Rep;
    hide Keeps;
    hide LoadOk;
    hide Placed;
    hide Encode;
    hide ArmTest;
    hide Low32;
    hide HasFree;
    hide Free;
    hide Reload;
    hide SelReg;
    var c1 := SelCtx(t, c);
    var lit := Free(c1);
    var w1, w2, w3 := Encode(MovImm(lit, k)), Reload(t, c), Encode(Plain(SEQ, SelReg(t, c), lit));
    ShapeTest(t, c, k);
    Split(code, at, w1 + w2, w3);
    Split(code, at, w1, w2);
    var a1 := at + |w1|;
    var a2 := a1 + |w2|;
    var d1 := LiteralStep(c1, code, at, k, d, s);
    SelRegisterKept(t, c, d, d1, s);
    var n2, d2 := ReloadStep(t, c, code, a1, d1, s);
    EqualStep(code, a2, SelReg(t, c), lit, d2);
    var eq := Word(d2, SelReg(t, c)) == Word(d2, lit);
    d' := d2.(cond := eq);
    CondScratch(c1, d2, eq, s);
    KeepsJoin(c1, d, d1, d2);
    KeepsJoin(c1, d, d2, d');
    Join(code, at, a2 + 1, VM(at, d), at, a1, 1, VM(a1, d1), a1, a2, n2, VM(a2, d2));
    Join(code, at, a2 + 1, VM(at, d), at, a2 + 1, 1 + n2, VM(a2, d2), a2, a2 + 1, 1, VM(a2 + 1, d'));
    n := 1 + n2 + 1;
  }

  lemma SelRegisterKept(t: Stmt, c: Ctx, d: Data, d': Data, s: Store)
    requires t.Case? && SelReady(t, c, d, s) && Rep(SelCtx(t, c), d', s)
    requires forall r: reg :: r in SelCtx(t, c).live ==> d'.R[r] == d.R[r]
    ensures SelReady(t, c, d', s)
  {
    hide Rep;
    hide Low32;
    if t.sel.own.None? {
      assert t.sel.reg(c) in SelCtx(t, c).live;
    }
  }
}
