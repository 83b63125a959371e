// Registers freed while a variable still lives in them: which statements do it,
// and what becomes of a for loop whose counter it happens to.
// src/Compiler/Expr.c (FreeExpr), src/Compiler/Compiler.c
module Freeing {
  import opened Words
  import opened Isa
  import opened Machine
  import opened Codec
  import opened Statements
  import opened Preservation
  import opened Simulation
  import opened Conditions
  import opened ShortCircuit
  import opened Loops
  import opened Backpatch
  import opened Compiler

  // ---- when the register list survives a statement ---------------------------------------------

  // What a statement, or the part of it compiled last, hands to FreeExpr, the
  // counters of its own loops aside.
  function Given(t: Stmt): set<Var>
    decreases t
  {
    Early(t) + Late(t) - Counter(t) + (GivenLast(t) - Counter(t))
  }

  function GivenLast(t: Stmt): set<Var>
    decreases t, 0
  {
    match t
    case Begin(ss) => if |ss| > 0 then Given(ss[|ss| - 1]) else {}
    case IfThen(_, thn) => Given(thn)
    case IfElse(_, _, els) => Given(els)
    case While(_, body) => Given(body)
    case For(_, _, _, _, _, body) => Given(body)
    case Case(_, _, other) => if |other| > 0 then Given(other[|other| - 1]) else {}
    case _ => {}
  }

  function Counter(t: Stmt): set<Var> { if t.For? then {t.x} else {} }

  predicate InMemory(env: Env, vs: set<Var>) { forall x | x in vs && x in env :: env[x].InMem? }

  // Behind a statement the register list is as before exactly when every variable
  // it gives away so lives in memory.
  lemma KeepsListIff(t: Stmt, c: Ctx, pending: nat)
    requires GoodCtx(c) && Compiles(t, c, pending)
    ensures c.live - Freed(t, c) == c.live <==> InMemory(c.env, Given(t))
  {
    hide Freed;
    hide Given;
    hide InMemory;
    hide Compiles;
    FreesIff(t, c, pending, c, {});
    assert Given(t) - {} == Given(t);
    assert c.live - Freed(t, c) == c.live <==> Freed(t, c) !! c.live;
  }

  // `d` is what a part is compiled under, inside loops over `own`: the registers of
  // `c` are still taken, and its variables where they were but for the counters.
  ghost predicate Under(c: Ctx, d: Ctx, own: set<Var>) {
    && c.live <= d.live && c.env.Keys <= d.env.Keys
    && forall x | x in d.env :: if x in own then d.env[x].InReg? && d.env[x].r !in c.live else x in c.env && d.env[x] == c.env[x]
  }

  lemma {:induction false} FreesIff(t: Stmt, d: Ctx, pending: nat, c: Ctx, own: set<Var>)
    requires GoodCtx(c) && Compiles(t, d, pending) && Under(c, d, own)
    ensures Freed(t, d) !! c.live <==> InMemory(c.env, Given(t) - own)
    decreases t
  {
    hide *;
    var uses, inner := Early(t) + Late(t), own + Counter(t);
    HomesUnder(t, d, pending, c, own);
    OwnFrees(c, Ctx(Homes(t, d), d.live), inner, uses);
    FreedOf(t, d);
    GivenOf(t, d);
    var last := LastPart(t, d);
    var lost := Lost(Homes(t, d), uses);
    if lost !! c.live && last.Some? {
      var next := LastCompiles(t, d, pending);
      PartUnder(t, d, c, own);
      FreesIff(last.value.t, last.value.c, next, c, inner);
      InBoth(c.env, uses - inner, Given(last.value.t) - inner);
      assert Given(t) - own == (uses - inner) + (Given(last.value.t) - inner);
    } else if last.Some? {
      InBoth(c.env, uses - inner, Given(last.value.t) - inner);
      assert Given(t) - own == (uses - inner) + (Given(last.value.t) - inner);
    } else {
      assert Given(t) - own == uses - inner;
    }
  }

  lemma InBoth(env: Env, a: set<Var>, b: set<Var>)
    ensures InMemory(env, a + b) <==> InMemory(env, a) && InMemory(env, b)
  {
  }

  lemma GivenOf(t: Stmt, d: Ctx)
    ensures var last := LastPart(t, d);
            && (last.Some? ==> last.value.t < t)
            && Given(t) == Early(t) + Late(t) - Counter(t) + ((if last.Some? then Given(last.value.t) else {}) - Counter(t))
  {
    hide CondCtx;
    hide BodyCtx;
    hide SelCtx;
    hide Early;
    hide Late;
    hide Counter;
  }

  lemma HomesUnder(t: Stmt, d: Ctx, pending: nat, c: Ctx, own: set<Var>)
    requires Compiles(t, d, pending) && Under(c, d, own)
    ensures Under(c, Ctx(Homes(t, d), d.live), own + Counter(t))
  {
    hide FirstFree;
    if t.For? { CompilableParts(t, d, pending); }
    hide Compiles;
  }

  // What is lost to the outer list.
  lemma OwnFrees(c: Ctx, d: Ctx, own: set<Var>, vs: set<Var>)
    requires GoodCtx(c) && Under(c, d, own)
    ensures Lost(d.env, vs) !! c.live <==> InMemory(c.env, vs - own)
  {
    if !InMemory(c.env, vs - own) {
      var x :| x in vs - own && x in c.env && c.env[x].InReg?;
      assert d.env[x].r in Lost(d.env, vs);
    }
  }

  lemma PartUnder(t: Stmt, d: Ctx, c: Ctx, own: set<Var>)
    requires Under(c, Ctx(Homes(t, d), d.live), own + Counter(t)) && LastPart(t, d).Some?
    requires Lost(Homes(t, d), Early(t) + Late(t)) !! c.live
    ensures Under(c, LastPart(t, d).value.c, own + Counter(t))
  {
    LostLess(Homes(t, d), Early(t), Early(t) + Late(t));
    if t.For? {
      LostJoin(Homes(t, d), Handed(t.first), t.last.frees);
    }
    hide Lost;
    hide Handed;
    hide Free;
    hide Late;
  }

  lemma LostLess(env: Env, a: set<Var>, b: set<Var>)
    requires a <= b
    ensures Lost(env, a) <= Lost(env, b)
  {
  }

  lemma LastCompiles(t: Stmt, d: Ctx, pending: nat) returns (next: nat)
    requires Compiles(t, d, pending) && LastPart(t, d).Some?
    ensures Compiles(LastPart(t, d).value.t, LastPart(t, d).value.c, next)
  {
    hide CondCtx;
    hide BodyCtx;
    hide StopCtx;
    hide SelCtx;
    hide HasFree;
    hide Pending;
    hide PendingAll;
    hide PendingArms;
    hide Compilable;
    hide CompilableAll;
    hide CompilableArms;
    next := if t.Begin? then pending + PendingAll(t.ss[..|t.ss| - 1])
            else if t.IfElse? then pending + Pending(t.thn)
            else if t.Case? then pending + PendingArms(t.arms) + PendingAll(t.other[..|t.other| - 1])
            else pending;
  }

  // It has no part that is compiled last, and gives away this variable alone.
  predicate HandsOnly(t: Stmt, x: Var) {
    (t.Simple? || t.Assign? || t.Repeat? || (t.Case? && t.other == [])) && Early(t) + Late(t) == {x}
  }

  // Inside a for loop, behind a statement that hands over the loop's counter and
  // no other variable, the counter's register is the next one to be handed out.
  lemma CounterFreed(f: Stmt, t: Stmt, c: Ctx)
    requires f.For? && HasFree(c) && Intact(f, c) && HandsOnly(t, f.x)
    ensures var inside := BodyCtx(f, c);
            && Freed(t, inside) == {Free(c)} && inside.env[f.x] == InReg(Free(c))
            && HasFree(Without(inside, {f.x})) && Free(Without(inside, {f.x})) == Free(c)
  {
    var inside := BodyCtx(f, c);
    IntactCtx(f, c);
    hide Early;
    hide Late;
    hide Intact;
    assert Lost(inside.env, {f.x}) == {Free(c)};
    LowestUntaken(c.live, inside.live - {Free(c)}, 0, Free(c));
    hide FirstFree;
  }

  lemma {:induction false} LowestUntaken(live: set<reg>, more: set<reg>, i: nat, r: nat)
    requires i <= r < 16 && FirstFree(live, i) == r && live <= more && r !in more
    ensures FirstFree(more, i) == r
    decreases 16 - i
  {
    if i < r { LowestUntaken(live, more, i + 1, r); }
  }

  // So a literal loaded behind it is the counter's new value.
  lemma CounterOverwritten(f: Stmt, t: Stmt, c: Ctx, code: seq<u16>, at: int, k: u64, d: Data)
    requires f.For? && HasFree(c) && Intact(f, c) && HandsOnly(t, f.x)
    requires Placed(code, at, Encode(MovImm(Free(Without(BodyCtx(f, c), {f.x})), k)))
    ensures var r := Free(Without(BodyCtx(f, c), {f.x}));
            var hi, d' := at + |Encode(MovImm(r, k))|, SetReg(d, r, k);
            && f.x in BodyCtx(f, c).env
            && Runs(code, at, hi, VM(at, d), 1, VM(hi, d')) && Read(BodyCtx(f, c).env[f.x], d') == Low32(k)
  {
    hide *;
    BodyHome(f, c);
    CounterFreed(f, t, c);
    LiteralLoads(code, at, Free(c), k, d);
    ReadBack(d, Free(c), k);
  }

  // So is a literal loaded in what a comparison of the counter decides on: the left
  // operand has been freed by then.
  lemma TestFreesCounter(f: Stmt, rel: Relation, ty: CounterType, b: Operand, t: Stmt, c: Ctx)
    requires f.For? && HasFree(c) && Intact(f, c) && (t.IfThen? || t.IfElse? || t.While?)
    requires t.b == Comparison(rel, ty, Variable(f.x), b)
    ensures var inside := BodyCtx(f, c);
            inside.env[f.x] == InReg(Free(c)) && HasFree(CondCtx(t, inside)) && Free(CondCtx(t, inside)) == Free(c) && !Intact(t, inside)
  {
    var inside := BodyCtx(f, c);
    IntactCtx(f, c);
    hide Intact;
    assert Lost(inside.env, {f.x}) == {Free(c)};
    LowestUntaken(c.live, inside.live - {Free(c)}, 0, Free(c));
    hide FirstFree;
    assert t.b.frees == {f.x} && Early(t) == {f.x};
    NotIntact(t, inside, Free(c));
  }

  lemma NotIntact(t: Stmt, c: Ctx, r: reg)
    requires r in Lost(Homes(t, c), Early(t))
    ensures !Intact(t, c)
  {
    hide Lost;
  }

  lemma ReadBack(d: Data, r: reg, k: u64)
    ensures Read(InReg(r), SetReg(d, r, k)) == Low32(k)
  {
    hide Low32;
  }

  lemma LiteralLoads(code: seq<u16>, at: int, r: reg, k: u64, d: Data)
    requires Placed(code, at, Encode(MovImm(r, k)))
    ensures var hi := at + |Encode(MovImm(r, k))|;
            Runs(code, at, hi, VM(at, d), 1, VM(hi, SetReg(d, r, k)))
  {
    hide Runs;
    hide Encode;
    hide MovImm;
    var i := MovImm(r, k);
    MovImmLoads(r, k);
    MovImmTarget(r, k);
    RunsOne(code, at, i, d, VM(at + Size(i), SetReg(d, r, k)));
  }

  // ---- a loop that copies its counter and then assigns a literal ---------------------------------

  // for i := ... do begin x := i; y := k end
  function CopyCounter(f: Stmt, x: Var): Stmt
    requires f.For?
  {
    Assign(x, OperandExpr(Variable(f.x)))
  }

  function SetLiteral(y: Var, k: u64): Stmt { Assign(y, OperandExpr(Literal(k))) }

  ghost predicate Copies(f: Stmt, c: Ctx, x: Var, y: Var, k: u64)
    requires f.For?
  {
    && f.x in c.env && HasFree(c) && GoodCtx(c) && Intact(f, c)
    && f.last.reg(StopCtx(f, c)) !in StopCtx(f, c).live
    && x in c.env && y in c.env && x != f.x && y != f.x && c.env[x].InMem? && c.env[y].InMem?
    && f.body == Begin([CopyCounter(f, x), SetLiteral(y, k)])
  }

  // The words of the body: each statement under what the one before left of the list.
  function BodyWords(f: Stmt, c: Ctx, x: Var, y: Var, k: u64): seq<u16>
    requires f.For?
  {
    MoveInto(Variable(f.x), BodyCtx(f, c), x) + MoveInto(Literal(k), Without(BodyCtx(f, c), {f.x}), y)
  }

  // The compiler leaves just these.
  method CompileBody(p: PascalCompiler, f: Stmt, x: Var, y: Var, k: u64, ghost c: Ctx)
    requires f.For? && p.Now() == BodyCtx(f, c)
    modifies p`Locations, p`Reglist, p`Breaks, p`InLoop, p`Error, p.chunk`Code
    ensures p.chunk.Code == old(p.chunk.Code) + BodyWords(f, c, x, y, k)
    ensures p.Now() == Without(BodyCtx(f, c), {f.x}) && p.Breaks == old(p.Breaks)
  {
    hide *;
    var s1, s2 := CopyCounter(f, x), SetLiteral(y, k);
    ghost var at := |p.chunk.Code|;
    ghost var c1, c2 := BodyCtx(f, c), Without(BodyCtx(f, c), {f.x});
    TwoStatements(f, x, y, k, c1, |p.Breaks|, at);
    TwoStatements(f, x, y, k, c2, |p.Breaks|, at + |MoveInto(Variable(f.x), c1, x)|);
    p.CompileStmt(s1);
    p.CompileStmt(s2);
    BodyIs(f, c, x, y, k);
  }

  lemma BodyIs(f: Stmt, c: Ctx, x: Var, y: Var, k: u64)
    requires f.For?
    ensures BodyWords(f, c, x, y, k) == MoveInto(Variable(f.x), BodyCtx(f, c), x) + MoveInto(Literal(k), Without(BodyCtx(f, c), {f.x}), y)
  {
  }

  lemma TwoStatements(f: Stmt, x: Var, y: Var, k: u64, c: Ctx, pending: nat, at: int)
    requires f.For?
    ensures var s1, s2 := CopyCounter(f, x), SetLiteral(y, k);
            && Compiles(s1, c, pending) && Compiles(s2, c, pending)
            && Gen(s1, c, at, 0) == MoveInto(Variable(f.x), c, x) && Gen(s2, c, at, 0) == MoveInto(Literal(k), c, y)
            && BreakSites(s1, c, at) == [] && BreakSites(s2, c, at) == []
            && Freed(s1, c) == Lost(c.env, {f.x}) && Freed(s2, c) == {}
            && Without(c, {f.x}) == Ctx(c.env, c.live - Lost(c.env, {f.x})) && c.live - {} == c.live
  {
    hide MoveInto;
    assert Early(CopyCounter(f, x)) + Late(CopyCounter(f, x)) == {f.x};
  }

  lemma CopiesMeans(f: Stmt, c: Ctx, x: Var, y: Var, k: u64)
    requires f.For? && Copies(f, c, x, y, k)
    ensures var inside := BodyCtx(f, c);
            && f.x in c.env && HasFree(c) && GoodCtx(c) && Intact(f, c) && f.last.reg(StopCtx(f, c)) !in StopCtx(f, c).live
            && x != f.x && y != f.x && f.x in inside.env && x in inside.env && y in inside.env
            && inside.env[f.x] == InReg(Free(c)) && inside.env[x].InMem? && inside.env[y].InMem?
            && CanLoad(Variable(f.x), inside) && GoodCtx(CounterCtx(f, c))
    ensures HandsOnly(CopyCounter(f, x), f.x)
  {
    CounterGood(f, c);
    hide Free;
    hide HasFree;
    hide GoodCtx;
    hide Intact;
  }

  lemma CounterGood(t: Stmt, c: Ctx)
    requires t.For? && t.x in c.env && GoodCtx(c) && HasFree(c)
    ensures GoodCtx(CounterCtx(t, c))
  {
    FreeIsFree(c);
    hide Free;
    hide HasFree;
  }

  lemma LiteralMoves(c: Ctx, y: Var, k: u64)
    requires y in c.env && c.env[y].InMem?
    ensures MoveInto(Literal(k), c, y) == Encode(MovImm(Free(c), k)) + Encode(MoveOut(c.env[y], Free(c)))
  {
    hide Encode;
    hide MovImm;
    hide MoveOut;
    hide Free;
  }

  lemma SetWordReads(d: Data, r: reg, k: u64)
    ensures Word(SetReg(d, r, k), r) == Low32(k)
  {
    hide Low32;
  }

  // The literal goes through the counter's register.
  lemma LiteralRuns(f: Stmt, c: Ctx, x: Var, y: Var, k: u64, inside: Ctx, behind: Ctx, code: seq<u16>, at: int, d: Data, s: Store) returns (d': Data)
    requires f.For? && Copies(f, c, x, y, k) && inside == BodyCtx(f, c) && behind == Without(inside, {f.x})
    requires Rep(inside, d, s) && Placed(code, at, MoveInto(Literal(k), behind, y))
    ensures var hi := at + |MoveInto(Literal(k), behind, y)|;
            Runs(code, at, hi, VM(at, d), 2, VM(hi, d'))
    ensures Rep(inside, d', s[f.x := Low32(k)][y := Low32(k)]) && Keeps(inside, d, d')
  {
    hide *;
    CopiesMeans(f, c, x, y, k);
    CounterFreed(f, CopyCounter(f, x), c);
    var r := Free(c);
    WithoutEnv(inside, {f.x});
    LiteralMoves(behind, y, k);
    var l := inside.env[y];
    var w1, w2 := Encode(MovImm(r, k)), Encode(MoveOut(l, r));
    Split(code, at, w1, w2);
    RepGoodCtx(inside, d, s);
    OffsetFits(inside, y);
    LiteralLoads(code, at, r, k, d);
    var d1, s1 := SetReg(d, r, k), s[f.x := Low32(k)];
    SetCounter(f, c, d, s, k);
    SetWordReads(d, r, k);
    MoveOutStep(l, r, code, at + |w1|, d1);
    OtherVars(inside, y, Low32(k), d1, s1);
    StoreMemHome(inside, y, d1, s1[y := Low32(k)]);
    d' := d1.(mem := Store32(d1.mem, Place(l, d1), Low32(k)));
    KeepsJoin(inside, d, d1, d');
    var mid, hi := at + |w1|, at + |w1| + |w2|;
    Join(code, at, hi, VM(at, d), at, mid, 1, VM(mid, d1), mid, hi, 1, VM(hi, d'));
  }

  lemma WithoutEnv(c: Ctx, vs: set<Var>)
    ensures Without(c, vs).env == c.env
  {
  }

  // Behind the body the counter is the literal, whatever it was.
  lemma BodyRuns(f: Stmt, c: Ctx, x: Var, y: Var, k: u64, code: seq<u16>, at: int, d: Data, s: Store) returns (n: nat, d': Data, s': Store)
    requires f.For? && Copies(f, c, x, y, k) && Rep(BodyCtx(f, c), d, s) && Placed(code, at, BodyWords(f, c, x, y, k))
    ensures var hi := at + |BodyWords(f, c, x, y, k)|;
            Runs(code, at, hi, VM(at, d), n, VM(hi, d'))
    ensures Rep(BodyCtx(f, c), d', s') && Keeps(BodyCtx(f, c), d, d') && f.x in s' && s'[f.x] == Low32(k)
  {
    hide *;
    CopiesMeans(f, c, x, y, k);
    BodyIs(f, c, x, y, k);
    var inside := BodyCtx(f, c);
    var w1, w2 := MoveInto(Variable(f.x), inside, x), MoveInto(Literal(k), Without(inside, {f.x}), y);
    Split(code, at, w1, w2);
    var mid, hi := at + |w1|, at + |w1| + |w2|;
    var n1, d1 := MoveRuns(Variable(f.x), inside, x, code, at, d, s);
    var s1 := s[x := ValueOf(Variable(f.x), s)];
    d' := LiteralRuns(f, c, x, y, k, inside, Without(inside, {f.x}), code, mid, d1, s1);
    s' := s1[f.x := Low32(k)][y := Low32(k)];
    KeepsJoin(inside, d, d1, d');
    Join(code, at, hi, VM(at, d), at, mid, n1, VM(mid, d1), mid, hi, 2, VM(hi, d'));
    n := n1 + 2;
  }

  // Comparison, exit branch, these words, increment-and-branch.
  function LoopAround(f: Stmt, c: Ctx, w: seq<u16>): seq<u16>
    requires f.For?
  {
    Encode(CompareCounter(f.ty, f.up, Free(c), f.last.reg(StopCtx(f, c)))) + Encode(BranchIfFalse(Flag(false), |w| + 2)) + w
    + Encode(CountBranch(Free(c), if f.up then 1 else -1, -(5 + |w|)))
  }

  lemma SmallMove(o: Operand, c: Ctx, x: Var)
    ensures |MoveInto(o, c, x)| <= 10
  {
    hide Free;
  }

  // Both branches of such a loop fit their fields.
  lemma AroundParts(f: Stmt, c: Ctx, x: Var, y: Var, k: u64, code: seq<u16>, head: int)
    requires f.For? && Placed(code, head, LoopAround(f, c, BodyWords(f, c, x, y, k)))
    ensures var w := BodyWords(f, c, x, y, k);
            && |LoopAround(f, c, w)| == |w| + 5
            && Placed(code, head, Encode(CompareCounter(f.ty, f.up, Free(c), f.last.reg(StopCtx(f, c)))))
            && Placed(code, head + 1, Encode(BranchIfFalse(Flag(false), |w| + 2))) && WellFormed(BranchIfFalse(Flag(false), |w| + 2))
            && Placed(code, head + 3, w)
            && Placed(code, head + 3 + |w|, Encode(CountBranch(Free(c), if f.up then 1 else -1, -(5 + |w|))))
            && WellFormed(CountBranch(Free(c), 1, -(5 + |w|)))
  {
    hide *;
    var w := BodyWords(f, c, x, y, k);
    BodyIs(f, c, x, y, k);
    SmallMove(Variable(f.x), BodyCtx(f, c), x);
    SmallMove(Literal(k), Without(BodyCtx(f, c), {f.x}), y);
    AroundIs(f, c, w);
    var a := Encode(CompareCounter(f.ty, f.up, Free(c), f.last.reg(StopCtx(f, c))));
    var b := Encode(BranchIfFalse(Flag(false), |w| + 2));
    var e := Encode(CountBranch(Free(c), if f.up then 1 else -1, -(5 + |w|)));
    Split(code, head, a + b + w, e);
    Split(code, head, a + b, w);
    Split(code, head, a, b);
  }

  lemma AroundIs(f: Stmt, c: Ctx, w: seq<u16>)
    requires f.For? && |w| <= 20
    ensures var a := Encode(CompareCounter(f.ty, f.up, Free(c), f.last.reg(StopCtx(f, c))));
            var b := Encode(BranchIfFalse(Flag(false), |w| + 2));
            var e := Encode(CountBranch(Free(c), if f.up then 1 else -1, -(5 + |w|)));
            LoopAround(f, c, w) == a + b + w + e && |a| == 1 && |b| == 2 && |e| == 2
    ensures WellFormed(BranchIfFalse(Flag(false), |w| + 2)) && WellFormed(CountBranch(Free(c), 1, -(5 + |w|)))
  {
    hide Free;
    hide StopCtx;
  }

  // One round, from the comparison back to it.
  lemma RoundRuns(f: Stmt, c: Ctx, x: Var, y: Var, k: u64, code: seq<u16>, head: int, d: Data, stop: u32, s: Store)
    returns (n: nat, d': Data, s': Store)
    requires f.For? && Copies(f, c, x, y, k) && Placed(code, head, LoopAround(f, c, BodyWords(f, c, x, y, k)))
    requires Rep(BodyCtx(f, c), d, s) && Word(d, f.last.reg(StopCtx(f, c))) == stop
    requires ForTest(AsWritten, f.ty, f.up, Value(s, f.x), stop)
    ensures var fin := head + 5 + |BodyWords(f, c, x, y, k)|;
            n >= 1 && Runs(code, head, fin, VM(head, d), n, VM(head, d'))
    ensures Rep(BodyCtx(f, c), d', s') && Word(d', f.last.reg(StopCtx(f, c))) == stop
    ensures f.x in s' && s'[f.x] == Value(s', f.x) == Advance(f.up, Low32(k))
  {
    hide *;
    CopiesMeans(f, c, x, y, k);
    var w, inside := BodyWords(f, c, x, y, k), BodyCtx(f, c);
    AroundParts(f, c, x, y, k, code, head);
    var m, fin := head + 3 + |w|, head + 5 + |w|;
    var d1 := CompareStep(f, c, code, head, d, s, stop);
    TakeBranch(code, head + 1, Flag(false), true, |w| + 2, d1);
    Join(code, head, fin, VM(head, d), head, head + 1, 1, VM(head + 1, d1), head + 1, head + 3, 1, VM(head + 3, d1));
    var n2, d2, s2 := BodyRuns(f, c, x, y, k, code, head + 3, d1, s);
    KeepsJoin(inside, d, d1, d2);
    Join(code, head, fin, VM(head, d), head, fin, 2, VM(head + 3, d1), head + 3, m, n2, VM(m, d2));
    CounterValue(f, c, d2, s2);
    d' := CountStep(f, c, code, m, -(5 + |w|), d2, s2);
    s' := s2[f.x := Advance(f.up, s2[f.x])];
    CounterValue(f, c, d', s');
    KeepsJoin(inside, d, d2, d');
    StopKept(f, c, d, d');
    Join(code, head, fin, VM(head, d), head, fin, 2 + n2, VM(m, d2), m, fin, 1, VM(head, d'));
    n := 2 + n2 + 1;
  }

  // If the test holds one behind the literal, every round is followed by another.
  lemma {:induction false} AnotherRound(f: Stmt, c: Ctx, x: Var, y: Var, k: u64, code: seq<u16>, head: int, d: Data, stop: u32, s: Store, m: nat)
    returns (n: nat, d': Data)
    requires f.For? && Copies(f, c, x, y, k) && Placed(code, head, LoopAround(f, c, BodyWords(f, c, x, y, k)))
    requires Rep(BodyCtx(f, c), d, s) && Word(d, f.last.reg(StopCtx(f, c))) == stop
    requires ForTest(AsWritten, f.ty, f.up, Value(s, f.x), stop) && ForTest(AsWritten, f.ty, f.up, Advance(f.up, Low32(k)), stop)
    ensures n >= m && Runs(code, head, head + 5 + |BodyWords(f, c, x, y, k)|, VM(head, d), n, VM(head, d'))
    decreases m
  {
    hide *;
    var fin := head + 5 + |BodyWords(f, c, x, y, k)|;
    if m == 0 {
      n, d' := 0, d;
      NoSteps(c, code, head, d);
      RunsWiden(code, head, head, head, fin, VM(head, d), 0, VM(head, d));
    } else {
      var n1, d1, s1 := RoundRuns(f, c, x, y, k, code, head, d, stop, s);
      var n2, d2 := AnotherRound(f, c, x, y, k, code, head, d1, stop, s1, m - 1);
      Join(code, head, fin, VM(head, d), head, fin, n1, VM(head, d1), head, fin, n2, VM(head, d2));
      n, d' := n1 + n2, d2;
    }
  }

  // The machine never leaves the loop.
  lemma CopyingNeverEnds(f: Stmt, c: Ctx, x: Var, y: Var, k: u64, code: seq<u16>, head: int, d: Data, stop: u32, s: Store, n: nat, end: VM)
    requires f.For? && Copies(f, c, x, y, k) && Placed(code, head, LoopAround(f, c, BodyWords(f, c, x, y, k)))
    requires Rep(BodyCtx(f, c), d, s) && Word(d, f.last.reg(StopCtx(f, c))) == stop
    requires ForTest(AsWritten, f.ty, f.up, Value(s, f.x), stop) && ForTest(AsWritten, f.ty, f.up, Advance(f.up, Low32(k)), stop)
    requires Runs(code, head, head + 5 + |BodyWords(f, c, x, y, k)|, VM(head, d), n, end)
    ensures head <= end.ip < head + 5 + |BodyWords(f, c, x, y, k)|
  {
    hide *;
    var m, d' := AnotherRound(f, c, x, y, k, code, head, d, stop, s, n + 1);
    var fin := head + 5 + |BodyWords(f, c, x, y, k)|;
    if !(head <= end.ip < fin) {
      RunsDeterministic(code, head, fin, VM(head, d), n, end, m, VM(head, d'));
    }
  }

  // ---- the whole statement -----------------------------------------------------------------------

  function WholeWords(f: Stmt, c: Ctx, x: Var, y: Var, k: u64): seq<u16>
    requires f.For?
  {
    f.first.assign(CounterCtx(f, c), f.x) + f.last.load(StopCtx(f, c)) + LoopAround(f, c, BodyWords(f, c, x, y, k))
  }

  lemma WholeParts(f: Stmt, c: Ctx, x: Var, y: Var, k: u64)
    requires f.For?
    ensures WholeWords(f, c, x, y, k) ==
              f.first.assign(CounterCtx(f, c), f.x) + f.last.load(StopCtx(f, c)) + LoopAround(f, c, BodyWords(f, c, x, y, k))
  {
  }

  // From its first word, too, it never gets to its end.
  lemma WholeNeverEnds(f: Stmt, c: Ctx, x: Var, y: Var, k: u64, code: seq<u16>, at: int, d: Data, s: Store, n: nat, end: VM)
    requires f.For? && Copies(f, c, x, y, k) && OkStart(f, c) && Rep(c, d, s)
    requires Placed(code, at, WholeWords(f, c, x, y, k))
    requires var first := f.first.val(s);
             var stop := f.last.val(s[f.x := first]);
             ForTest(AsWritten, f.ty, f.up, first, stop) && ForTest(AsWritten, f.ty, f.up, Advance(f.up, Low32(k)), stop)
    requires Runs(code, at, at + |WholeWords(f, c, x, y, k)|, VM(at, d), n, end)
    ensures at <= end.ip < at + |WholeWords(f, c, x, y, k)|
  {
    hide *;
    CopiesMeans(f, c, x, y, k);
    WholeParts(f, c, x, y, k);
    var init, load, w := f.first.assign(CounterCtx(f, c), f.x), f.last.load(StopCtx(f, c)), BodyWords(f, c, x, y, k);
    var head, hi := at + |init| + |load|, at + |WholeWords(f, c, x, y, k)|;
    Split(code, at, init + load, LoopAround(f, c, w));
    AroundParts(f, c, x, y, k, code, head);
    Split(code, at, init, load);
    var first := f.first.val(s);
    var s1 := s[f.x := first];
    var stop := f.last.val(s1);
    var n1, d1 := StartLoop(f, c, code, at, d, s);
    CounterValue(f, c, d1, s1);
    var n2, d2 := AnotherRound(f, c, x, y, k, code, head, d1, stop, s1, n + 1);
    Join(code, at, hi, VM(at, d), at, head, n1, VM(head, d1), head, head + 5 + |w|, n2, VM(head, d2));
    if !(at <= end.ip < hi) {
      RunsDeterministic(code, at, hi, VM(at, d), n, end, n1 + n2, VM(head, d2));
    }
  }

  // What the statement means: its body is run as often as the limits say.
  lemma CopyingMeans(m: Reading, f: Stmt, x: Var, y: Var, k: u64, s: Store) returns (bound: nat)
    requires f.For? && m != Guarded && x != f.x && y != f.x && f.body == Begin([CopyCounter(f, x), SetLiteral(y, k)])
    requires var first := f.first.val(s); Countable(m, f.ty, f.up, first, f.last.val(s[f.x := first]))
    ensures var first := f.first.val(s);
            var stop := f.last.val(s[f.x := first]);
            var r := Eval(m, f, s, bound);
            r.Done? && Value(r.s, f.x) == (if Count(f.ty, f.up, first, stop) == 0 then first else Advance(f.up, stop))
  {
    var body := (s: Store) => s[x := Value(s, f.x)][y := Low32(k)];
    var s1 := s[f.x := f.first.val(s)];
    var stop := f.last.val(s1);
    CopyingLeaves(m, f, x, y, k, body, s1, Count(f.ty, f.up, s1[f.x], stop));
    hide Countable;
    hide Count;
    hide Rounds;
    hide RoundsLeave;
    hide Advance;
    bound := ForRounds(m, f, body, stop, s1);
  }

  lemma CopyingLeaves(m: Reading, f: Stmt, x: Var, y: Var, k: u64, body: Store -> Store, s: Store, n: nat)
    requires f.For? && x != f.x && y != f.x && f.body == Begin([CopyCounter(f, x), SetLiteral(y, k)]) && f.x in s
    requires body == ((s: Store) => s[x := Value(s, f.x)][y := Low32(k)])
    ensures RoundsLeave(m, f, body, s, n)
  {
    hide Low32;
    hide Advance;
    forall j: nat | j < n
      ensures LeavesCounter(m, f, body, Rounds(f, body, s, j))
    {
      StaysIn(f, x, y, k, body, s, j);
      BodyMeans(m, f, x, y, k, Rounds(f, body, s, j));
    }
  }

  lemma {:induction false} StaysIn(f: Stmt, x: Var, y: Var, k: u64, body: Store -> Store, s: Store, j: nat)
    requires f.For? && f.x in s && body == ((s: Store) => s[x := Value(s, f.x)][y := Low32(k)])
    ensures f.x in Rounds(f, body, s, j)
    decreases j
  {
    hide Low32;
    hide Advance;
    if j > 0 { StaysIn(f, x, y, k, body, Next(f, body, s), j - 1); }
  }

  lemma BodyMeans(m: Reading, f: Stmt, x: Var, y: Var, k: u64, s: Store)
    requires f.For? && f.body == Begin([CopyCounter(f, x), SetLiteral(y, k)])
    ensures Eval(m, f.body, s, 0) == Done(s[x := Value(s, f.x)][y := Low32(k)])
  {
    hide Low32;
    var ss := [CopyCounter(f, x), SetLiteral(y, k)];
    assert ss[..1] == [CopyCounter(f, x)] && ss[..1][..0] == [];
    var s1 := s[x := Value(s, f.x)];
    assert EvalAll(m, [], s, 0) == Done(s);
    assert Eval(m, ss[0], s, 0) == Done(s1) && Eval(m, ss[1], s1, 0) == Done(s1[y := Low32(k)]);
    assert EvalAll(m, ss[..1], s, 0) == Done(s1);
    assert ss[..|ss| - 1] == ss[..1];
    assert EvalAll(m, ss, s, 0) == Done(s1[y := Low32(k)]);
  }

  // ---- for i := 1 to 10 do begin x := i; y := 5 end ------------------------------------------------

  // i, x and y are global and numbered 0, 1 and 2.
  function Globals(): Ctx { Ctx(map[0 := InMem(GP, 0), 1 := InMem(GP, 4), 2 := InMem(GP, 8)], {GP, FP, SP}) }

  function TenRounds(): Stmt {
    For(0, Int32, true, OperandExpr(Literal(1)), OperandExpr(Literal(10)),
        Begin([Assign(1, OperandExpr(Variable(0))), Assign(2, OperandExpr(Literal(5)))]))
  }

  // It means ten rounds, whichever way counters are compared,
  lemma TenRoundsMeant(m: Reading, s: Store) returns (bound: nat)
    requires m != Guarded
    ensures var r := Eval(m, TenRounds(), s, bound); r.Done? && Value(r.s, 0) == 11
  {
    hide Eval;
    bound := CopyingMeans(m, TenRounds(), 1, 2, 5, s);
  }

  // but its words, from any state of the variables, never end.
  lemma TenRoundsNeverEnd(code: seq<u16>, at: int, d: Data, s: Store, n: nat, end: VM)
    requires Rep(Globals(), d, s) && Placed(code, at, WholeWords(TenRounds(), Globals(), 1, 2, 5))
    requires Runs(code, at, at + |WholeWords(TenRounds(), Globals(), 1, 2, 5)|, VM(at, d), n, end)
    ensures at <= end.ip < at + |WholeWords(TenRounds(), Globals(), 1, 2, 5)|
  {
    hide *;
    ItCopies();
    ItStarts();
    ItLoops(s);
    WholeNeverEnds(TenRounds(), Globals(), 1, 2, 5, code, at, d, s, n, end);
  }

  lemma ItLoops(s: Store)
    ensures var f := TenRounds();
            && f.For? && f.first.val(s) == 1 && f.last.val(s[f.x := 1]) == 10
            && ForTest(AsWritten, f.ty, f.up, 1, 10) && ForTest(AsWritten, f.ty, f.up, Advance(f.up, Low32(5)), 10)
  {
  }

  lemma FreeHere()
    ensures Free(Globals()) == 0 && HasFree(Globals()) && GoodCtx(Globals())
    ensures forall c: Ctx :: c.live == {0, GP, FP, SP} ==> HasFree(c) && Free(c) == 1
  {
    var zero: reg, one: reg := 0, 1;
    assert zero !in Globals().live;
    forall c: Ctx | c.live == {zero, GP, FP, SP}
      ensures HasFree(c) && Free(c) == 1
    {
      assert zero in c.live && one !in c.live;
      assert FirstFree(c.live, 1) == 1;
    }
  }

  lemma ItCopies()
    ensures TenRounds().For? && TenRounds().x == 0 && Copies(TenRounds(), Globals(), 1, 2, 5)
    ensures StopCtx(TenRounds(), Globals()) == CounterCtx(TenRounds(), Globals()) && CounterCtx(TenRounds(), Globals()).live == {0, GP, FP, SP}
  {
    FreeHere();
    hide Free;
    hide HasFree;
    hide GoodCtx;
    var f, c := TenRounds(), Globals();
    assert Early(f) + Late(f) == {};
    assert Lost(CounterCtx(f, c).env, {}) == {};
    IntactCtx(f, c);
    assert CounterCtx(f, c).live == {0, GP, FP, SP};
  }

  lemma ItStarts()
    ensures TenRounds().For? && OkStart(TenRounds(), Globals())
  {
    ItCopies();
    FreeHere();
    var f, c := TenRounds(), Globals();
    OperandAssignOk(Literal(1), CounterCtx(f, c), f.x);
    OperandLoadOk(Literal(10), StopCtx(f, c));
    hide AssignOk;
    hide LoadOk;
    hide Free;
    hide StopCtx;
    hide Copies;
  }

  // The compiler class does not promise anything for it.
  lemma TenRoundsNotCompilable(pending: nat)
    ensures !Compiles(TenRounds(), Globals(), pending)
  {
    ItCopies();
    CopiesMeans(TenRounds(), Globals(), 1, 2, 5);
    CounterFreed(TenRounds(), CopyCounter(TenRounds(), 1), Globals());
    hide Free;
    hide Copies;
    hide Freed;
    hide BodyCtx;
    var ss := TenRounds().body.ss;
    assert ss[..1][0] == CopyCounter(TenRounds(), 1);
  }

  // With nothing behind it in the body the copy does no harm:
  // for i := 1 to 10 do x := i
  function CopyAlone(): Stmt {
    For(0, Int32, true, OperandExpr(Literal(1)), OperandExpr(Literal(10)), Assign(1, OperandExpr(Variable(0))))
  }

  lemma CopyAloneCompiles(pending: nat)
    ensures Compiles(CopyAlone(), Globals(), pending)
    ensures Globals().live - Freed(CopyAlone(), Globals()) == Globals().live
  {
    FreeHere();
    hide Free;
    hide HasFree;
    hide GoodCtx;
    var t, c := CopyAlone(), Globals();
    assert Lost(CounterCtx(t, c).env, {}) == {};
    assert Handed(t.first) == {};
    assert CounterCtx(t, c).live == {0, GP, FP, SP};
    assert StopCtx(t, c) == CounterCtx(t, c);
    KeepsListIff(t, c, pending);
  }

  lemma CopyAloneStarts()
    ensures var t, c := CopyAlone(), Globals();
            && t.For? && HasFree(c) && t.x in c.env && StopCtx(t, c) == CounterCtx(t, c) && OkStart(t, c) && Intact(t, c)
  {
    FreeHere();
    var t, c := CopyAlone(), Globals();
    hide Free;
    hide HasFree;
    hide GoodCtx;
    assert Handed(t.first) == {} && Lost(CounterCtx(t, c).env, {}) == {};
    assert CounterCtx(t, c).live == {0, GP, FP, SP};
    assert StopCtx(t, c) == CounterCtx(t, c);
    OperandAssignOk(Literal(1), CounterCtx(t, c), t.x);
    OperandLoadOk(Literal(10), StopCtx(t, c));
    hide AssignOk;
    hide LoadOk;
    hide StopCtx;
  }

  lemma CopyAloneBody()
    ensures var t := CopyAlone();
            && t.For? && AssignOk(t.body.e, BodyCtx(t, Globals()), 1) && t.body == Assign(1, t.body.e)
            && Len(t.body, BodyCtx(t, Globals())) <= 10
  {
    CopyAloneStarts();
    var t, c := CopyAlone(), BodyCtx(CopyAlone(), Globals());
    BodyHome(t, Globals());
    assert 1 in c.env;
    SmallMove(Variable(0), c, 1);
    hide *;
    CopyAloneBodyIs();
    CanCopy(c);
    OperandAssignOk(Variable(0), c, 1);
  }

  lemma CopyAloneBodyIs()
    ensures var t := CopyAlone();
            && t.For? && t.x == 0 && t.body == Assign(1, OperandExpr(Variable(0)))
            && forall c: Ctx :: Len(t.body, c) == |MoveInto(Variable(0), c, 1)|
  {
    hide MoveInto;
  }

  lemma CanCopy(c: Ctx)
    requires 0 in c.env && c.env[0].InReg?
    ensures CanLoad(Variable(0), c)
  {
  }

  // It meets every premise of semantic preservation,
  lemma CopyAloneOk(at: int, brk: int)
    ensures Ok(CopyAlone(), Globals(), at, brk)
  {
    hide *;
    var t, c := CopyAlone(), Globals();
    CopyAloneStarts();
    CopyAloneBody();
    ShortBranches(t, c);
    ForIsOk(t, c, at, brk);
  }

  lemma ShortBranches(t: Stmt, c: Ctx)
    requires t.For? && OkStart(t, c) && Len(t.body, BodyCtx(t, c)) <= 10
    ensures OkFor(t, c, Len(t.body, BodyCtx(t, c)))
  {
    hide OkStart;
    hide Len;
    hide Free;
    hide BodyCtx;
  }

  lemma ForIsOk(t: Stmt, c: Ctx, at: int, brk: int)
    requires t.For? && t.body.Assign? && t.x in c.env && HasFree(c) && Intact(t, c)
    requires OkFor(t, c, Len(t.body, BodyCtx(t, c))) && AssignOk(t.body.e, BodyCtx(t, c), t.body.x)
    ensures Ok(t, c, at, brk)
  {
    hide OkFor;
    hide Len;
    hide AssignOk;
    hide BodyCtx;
    hide Intact;
    hide HasFree;
  }

  // and its words, run, leave 10 in x and 11 in i.
  lemma CopyAloneRuns(code: seq<u16>, at: int, d: Data, s: Store) returns (n: nat, end: VM)
    requires Rep(Globals(), d, s) && Placed(code, at, Gen(CopyAlone(), Globals(), at, 0))
    ensures Runs(code, at, at + Len(CopyAlone(), Globals()), VM(at, d), n, end) && end.ip == at + Len(CopyAlone(), Globals())
    ensures Read(InMem(GP, 4), end.d) == 10 && Read(InMem(GP, 0), end.d) == 11
  {
    hide *;
    CopyAloneOk(at, 0);
    CopyAloneMeans(s);
    var body := CopyBody();
    n, end := ForCounts(CopyAlone(), Globals(), code, at, 0, d, s, body);
    LastCopied(s[0 := 1]);
    ReadsGlobals(end.d, Rounds(CopyAlone(), body, s[0 := 1], 10));
  }

  function CopyBody(): Store -> Store { (s: Store) => s[1 := Value(s, 0)] }

  lemma CopyAloneMeans(s: Store)
    ensures var t := CopyAlone();
            && t.For? && t.x == 0 && t.first.val(s) == 1 && t.last.val(s[0 := 1]) == 10
            && Countable(AsWritten, t.ty, t.up, 1, 10) && Count(t.ty, t.up, 1, 10) == 10 && Advance(t.up, 10) == 11
            && RoundsLeave(AsWritten, t, CopyBody(), s[0 := 1], 10)
  {
    var t, body, s1 := CopyAlone(), CopyBody(), s[0 := 1];
    forall j: nat | j < 10
      ensures LeavesCounter(AsWritten, t, body, Rounds(t, body, s1, j))
    {
      CopyStays(s1, j);
      assert Eval(AsWritten, t.body, Rounds(t, body, s1, j), 0) == Done(body(Rounds(t, body, s1, j)));
    }
  }

  // The counter of round `j`, and what was copied last.
  lemma {:induction false} CopyStays(s: Store, j: nat)
    requires 0 in s && s[0] + j < TWO32
    ensures var r := Rounds(CopyAlone(), CopyBody(), s, j);
            0 in r && r[0] == s[0] + j && (j > 0 ==> 1 in r && r[1] == s[0] + j - 1)
    decreases j
  {
    if j > 0 {
      var s1 := Next(CopyAlone(), CopyBody(), s);
      assert s1[0] == s[0] + 1 && s1[1] == s[0];
      CopyStays(s1, j - 1);
      if j == 1 { assert Rounds(CopyAlone(), CopyBody(), s1, 0) == s1; }
    }
  }

  lemma LastCopied(s: Store)
    requires 0 in s && s[0] == 1
    ensures var r := Rounds(CopyAlone(), CopyBody(), s, 10); 1 in r && r[1] == 10 && 0 in r && r[0] == 11
  {
    CopyStays(s, 10);
    hide Rounds;
  }

  lemma ReadsGlobals(d: Data, s: Store)
    requires Rep(Globals(), d, s)
    ensures 0 in s && 1 in s && Read(InMem(GP, 0), d) == s[0] && Read(InMem(GP, 4), d) == s[1]
  {
    hide Read;
    var env := Globals().env;
    assert env[0] == InMem(GP, 0) && env[1] == InMem(GP, 4);
  }
}
