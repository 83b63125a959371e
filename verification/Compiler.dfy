// The one-pass statement compiler: it appends words to the chunk, keeps the
// addresses of pending jumps, and patches them when their target is reached.
// src/Compiler/Compiler.c, src/Compiler/Emitter.c
module Compiler {
  import opened Words
  import opened Isa
  import opened Machine
  import opened Codec
  import opened Chunks
  import opened Statements
  import opened Preservation
  import opened Simulation
  import opened Backpatch
  import opened Patching

  const MAX_BREAKS := 256
  const MAX_ARMS := 256

  // Breaks a statement leaves pending.
  function Pending(t: Stmt): nat
    decreases t, 1
  {
    match t
    case Begin(ss) => PendingAll(ss)
    case IfThen(_, thn) => Pending(thn)
    case IfElse(_, thn, els) => Pending(thn) + Pending(els)
    case Repeat(ss, _) => PendingAll(ss)
    case Case(_, arms, other) => PendingArms(arms) + PendingAll(other)
    case Break => 1
    case _ => 0
  }

  function PendingAll(ss: seq<Stmt>): nat
    decreases ss, 0
  {
    if |ss| == 0 then 0 else PendingAll(ss[..|ss| - 1]) + Pending(ss[|ss| - 1])
  }

  function PendingArms(arms: seq<Arm>): nat
    decreases arms, 0
  {
    if |arms| == 0 then 0 else PendingArms(arms[..|arms| - 1]) + PendingArm(arms[|arms| - 1])
  }

  function PendingArm(a: Arm): nat
    decreases a, 0
  {
    Pending(a.body)
  }

  lemma {:induction false} PendingCount(t: Stmt, c: Ctx, at: int)
    ensures |BreakSites(t, c, at)| == Pending(t)
    decreases t, 1
  {
    hide *;
    PendingParts(t);
    if t.IfThen? {
      ShapeIfThenBreaks(t, c, at, 0);
      var c1 := CondCtx(t, c);
      PendingCount(t.thn, c1, at + |t.b.emit(c) + Encode(BranchIfFalse(t.b.loc(c), Len(t.thn, c1)))|);
    } else if t.IfElse? {
      ShapeIfElseBreaks(t, c, at, 0);
      var c1 := CondCtx(t, c);
      var mid := at + |t.b.emit(c) + Encode(BranchIfFalse(t.b.loc(c), Len(t.thn, c1) + 2))|;
      PendingCount(t.thn, c1, mid);
      PendingCount(t.els, c1, mid + Len(t.thn, c1) + |Encode(Jump(Len(t.els, c1)))|);
    } else if t.Begin? || t.Break? {
      LeafSites(t, c, at, 0);
      if t.Begin? { PendingCountAll(t.ss, c, at); }
    } else if t.Repeat? {
      ShapeRepeatBreaks(t, c, at, 0);
      PendingCountAll(t.ss, c, at);
    } else if t.Case? {
      ShapeCaseBreaks(t, c, at, 0);
      var base := at + |if t.sel.own.None? then t.sel.load(c) else []|;
      PendingCountArms(t, t.arms, c, base);
      PendingCountAll(t.other, SelCtx(t, c), base + LenArms(t, t.arms, c));
    } else {
      NoSites(t, c, at, 0, 0);
    }
  }

  lemma {:induction false} PendingCountAll(ss: seq<Stmt>, c: Ctx, at: int)
    ensures |SitesAll(ss, c, at)| == PendingAll(ss)
    decreases ss, 0
  {
    hide Len;
    if |ss| > 0 {
      var front := ss[..|ss| - 1];
      PendingCountAll(front, c, at);
      PendingCount(ss[|ss| - 1], c, at + LenAll(front, c));
    }
  }

  lemma {:induction false} PendingCountArms(t: Stmt, arms: seq<Arm>, c: Ctx, at: int)
    requires t.Case?
    ensures |SitesArms(t, arms, c, at)| == PendingArms(arms)
    decreases arms, 0
  {
    hide LenArm;
    if |arms| > 0 {
      var front, last := arms[..|arms| - 1], arms[|arms| - 1];
      PendingCountArms(t, front, c, at);
      PendingCountArm(t, last, c, at + LenArms(t, front, c));
    }
  }

  lemma {:induction false} PendingCountArm(t: Stmt, a: Arm, c: Ctx, at: int)
    requires t.Case?
    ensures |SitesArm(t, a, c, at)| == PendingArm(a)
    decreases a, 0
  {
    hide ArmTest;
    PendingCount(a.body, SelCtx(t, c), at + |ArmTest(t, c, a.k)| + 2);
  }

  // The fixed tables suffice, a register is free when one is allocated, and no
  // part of the statement but its last takes a register of a variable off the list.
  predicate Compiles(t: Stmt, c: Ctx, pending: nat)
    decreases t, 1
  {
    match t
    case Begin(ss) => CompilesAll(ss, c, pending)
    case IfThen(_, thn) => Compiles(thn, CondCtx(t, c), pending)
    case IfElse(_, thn, els) => Compilable(thn, CondCtx(t, c), pending) && Compiles(els, CondCtx(t, c), pending + Pending(thn))
    case While(_, body) => Compiles(body, CondCtx(t, c), pending)
    case Repeat(ss, _) => CompilableAll(ss, c, pending)
    case For(x, _, _, _, last, body) =>
      && x in c.env && HasFree(c) && last.reg(StopCtx(t, c)) !in StopCtx(t, c).live
      && Compiles(body, BodyCtx(t, c), pending)
    case Case(sel, arms, other) =>
      && (if sel.own.None? then sel.reg(c) !in c.live else sel.own.value in c.env)
      && |arms| <= MAX_ARMS && (|arms| > 0 ==> HasFree(SelCtx(t, c)))
      && CompilableArms(t, arms, c, pending)
      && CompilesAll(other, SelCtx(t, c), pending + PendingArms(arms))
    case Break => pending < MAX_BREAKS
    case _ => true
  }

  // The last of a list, too, may.
  predicate CompilesAll(ss: seq<Stmt>, c: Ctx, pending: nat)
    decreases ss, 1
  {
    |ss| == 0 ||
    (CompilableAll(ss[..|ss| - 1], c, pending)
     && Compiles(ss[|ss| - 1], c, pending + PendingAll(ss[..|ss| - 1])))
  }

  // Nor does the statement itself.
  predicate Compilable(t: Stmt, c: Ctx, pending: nat)
    decreases t, 2
  {
    Compiles(t, c, pending) && Freed(t, c) == {}
  }

  predicate CompilableAll(ss: seq<Stmt>, c: Ctx, pending: nat)
    decreases ss, 0
  {
    |ss| == 0 ||
    (CompilableAll(ss[..|ss| - 1], c, pending)
     && Compilable(ss[|ss| - 1], c, pending + PendingAll(ss[..|ss| - 1])))
  }

  predicate CompilableArms(t: Stmt, arms: seq<Arm>, c: Ctx, pending: nat)
    requires t.Case?
    decreases arms, 0
  {
    |arms| == 0 ||
    (CompilableArms(t, arms[..|arms| - 1], c, pending)
     && CompilableArm(t, arms[|arms| - 1], c, pending + PendingArms(arms[..|arms| - 1])))
  }

  predicate CompilableArm(t: Stmt, a: Arm, c: Ctx, pending: nat)
    requires t.Case?
    decreases a, 0
  {
    Compilable(a.body, SelCtx(t, c), pending)
  }

  lemma {:induction false} NextStmt(ss: seq<Stmt>, c: Ctx, pending: nat, at: int, i: nat)
    requires CompilesAll(ss, c, pending) && i < |ss|
    ensures Compiles(ss[i], c, pending + PendingAll(ss[..i]))
    ensures c.live - Freed(ss[i], c) == if i == |ss| - 1 then c.live - FreedAll(ss, c) else c.live
    ensures GenAll(ss[..i + 1], c, at, 0) == GenAll(ss[..i], c, at, 0) + Gen(ss[i], c, at + LenAll(ss[..i], c), 0)
    ensures SitesAll(ss[..i + 1], c, at) == SitesAll(ss[..i], c, at) + BreakSites(ss[i], c, at + LenAll(ss[..i], c))
    ensures PendingAll(ss[..i + 1]) == PendingAll(ss[..i]) + Pending(ss[i])
    decreases |ss|
  {
    hide Compiles;
    hide Gen;
    hide Len;
    hide BreakSites;
    hide Pending;
    hide Freed;
    var front := ss[..|ss| - 1];
    assert ss[..i + 1][..i] == ss[..i];
    if i < |ss| - 1 {
      assert front[..i] == ss[..i] && front[..i + 1] == ss[..i + 1];
      AllCompile(front, c, pending);
      NextStmt(front, c, pending, at, i);
    }
  }

  // All of these keep the register list.
  lemma AllCompile(ss: seq<Stmt>, c: Ctx, pending: nat)
    requires CompilableAll(ss, c, pending)
    ensures CompilesAll(ss, c, pending) && FreedAll(ss, c) == {} && c.live - FreedAll(ss, c) == c.live
  {
    hide Compiles;
    hide Freed;
  }

  lemma NextArm(t: Stmt, arms: seq<Arm>, c: Ctx, pending: nat, at: int, i: nat)
    requires t.Case? && CompilableArms(t, arms, c, pending) && i < |arms|
    ensures var l := LenArms(t, arms[..i], c);
            && CompilableArm(t, arms[i], c, pending + PendingArms(arms[..i]))
            && GenArms(t, arms[..i + 1], c, at, 0, 0) == GenArms(t, arms[..i], c, at, 0, 0) + GenArm(t, arms[i], c, at + l, 0, 0)
            && SitesArms(t, arms[..i + 1], c, at) == SitesArms(t, arms[..i], c, at) + SitesArm(t, arms[i], c, at + l)
            && OutSites(t, arms[..i + 1], c, at) == OutSites(t, arms[..i], c, at) + [at + l + LenArm(t, arms[i], c) - 2]
            && PendingArms(arms[..i + 1]) == PendingArms(arms[..i]) + PendingArm(arms[i])
  {
    hide *;
    var next := arms[..i + 1];
    assert next[..|next| - 1] == arms[..i] && next[|next| - 1] == arms[i];
    FirstArmsCompile(t, arms, c, pending, i + 1);
    ShapeArmsBreaks(t, next, c, at, 0, 0);
    LastArm(t, next, c, pending);
  }

  lemma LastArm(t: Stmt, arms: seq<Arm>, c: Ctx, pending: nat)
    requires t.Case? && CompilableArms(t, arms, c, pending) && |arms| > 0
    ensures var front, last := arms[..|arms| - 1], arms[|arms| - 1];
            CompilableArm(t, last, c, pending + PendingArms(front)) && PendingArms(arms) == PendingArms(front) + PendingArm(last)
  {
    hide CompilableArm;
    hide PendingArm;
  }

  lemma {:induction false} FirstArmsCompile(t: Stmt, arms: seq<Arm>, c: Ctx, pending: nat, n: nat)
    requires t.Case? && CompilableArms(t, arms, c, pending) && n <= |arms|
    ensures CompilableArms(t, arms[..n], c, pending)
    decreases |arms|
  {
    hide CompilableArm;
    hide PendingArms;
    if n == |arms| {
      assert arms[..n] == arms;
    } else {
      FirstArmsCompile(t, arms[..|arms| - 1], c, pending, n);
      assert arms[..|arms| - 1][..n] == arms[..n];
    }
  }

  lemma CompilableParts(t: Stmt, c: Ctx, pending: nat)
    requires Compiles(t, c, pending)
    ensures t.Begin? ==> CompilesAll(t.ss, c, pending)
    ensures t.IfThen? ==> Compiles(t.thn, CondCtx(t, c), pending)
    ensures t.IfElse? ==> Compilable(t.thn, CondCtx(t, c), pending) && Compiles(t.els, CondCtx(t, c), pending + Pending(t.thn))
    ensures t.While? ==> Compiles(t.body, CondCtx(t, c), pending)
    ensures t.Repeat? ==> CompilableAll(t.ss, c, pending)
    ensures t.For? ==> t.x in c.env && HasFree(c) && t.last.reg(StopCtx(t, c)) !in StopCtx(t, c).live
                       && Compiles(t.body, BodyCtx(t, c), pending)
    ensures t.Break? ==> pending < MAX_BREAKS
  {
    hide HasFree;
    hide CondCtx;
    hide StopCtx;
    hide BodyCtx;
    hide SelCtx;
    hide Compilable;
    hide CompilesAll;
    hide CompilableAll;
    hide CompilableArms;
  }

  lemma CaseParts(t: Stmt, c: Ctx, pending: nat)
    requires t.Case? && Compiles(t, c, pending)
    ensures if t.sel.own.None? then t.sel.reg(c) !in c.live else t.sel.own.value in c.env
    ensures |t.arms| <= MAX_ARMS && (|t.arms| > 0 ==> HasFree(SelCtx(t, c)))
    ensures CompilableArms(t, t.arms, c, pending)
    ensures CompilesAll(t.other, SelCtx(t, c), pending + PendingArms(t.arms))
  {
    hide HasFree;
    hide SelCtx;
    hide Compilable;
    hide CompilesAll;
    hide CompilableAll;
    hide CompilableArms;
  }

  // A part leaves the register list as it was.
  lemma Kept(t: Stmt, c: Ctx, pending: nat)
    requires Compilable(t, c, pending)
    ensures Compiles(t, c, pending) && c.live - Freed(t, c) == c.live
  {
    hide Compiles;
    hide Freed;
  }

  lemma FreedOf(t: Stmt, c: Ctx)
    ensures var last := LastPart(t, c);
            Freed(t, c) == Lost(Homes(t, c), Early(t) + Late(t)) + if last.Some? then Freed(last.value.t, last.value.c) else {}
  {
    hide Lost;
    hide Homes;
    hide Early;
    hide Late;
    hide LastPart;
  }

  // What each kind of statement hands to FreeExpr, and its last part.
  lemma HandsWhat(t: Stmt, c: Ctx)
    ensures !t.For? ==> Homes(t, c) == c.env
    ensures t.Begin? || t.Break? ==> Early(t) + Late(t) == {}
    ensures t.Simple? ==> Early(t) + Late(t) == t.p.frees
    ensures t.Assign? ==> Early(t) + Late(t) == Handed(t.e)
    ensures t.IfThen? || t.IfElse? || t.While? || t.Repeat? ==> Early(t) + Late(t) == t.b.frees
    ensures t.For? ==> Early(t) + Late(t) == Handed(t.first) + t.last.frees
    ensures t.Case? ==> Early(t) + Late(t) == t.sel.frees + if t.sel.own.Some? then {t.sel.own.value} else {}
  {
    hide Handed;
    hide CounterCtx;
  }

  lemma LastWhat(t: Stmt, c: Ctx)
    ensures t.Simple? || t.Assign? || t.Repeat? || t.Break? ==> LastPart(t, c) == None
    ensures t.Begin? ==> LastPart(t, c) == if |t.ss| > 0 then Some(Part(t.ss[|t.ss| - 1], c)) else None
    ensures t.IfThen? ==> LastPart(t, c) == Some(Part(t.thn, CondCtx(t, c)))
    ensures t.IfElse? ==> LastPart(t, c) == Some(Part(t.els, CondCtx(t, c)))
    ensures t.While? ==> LastPart(t, c) == Some(Part(t.body, CondCtx(t, c)))
    ensures t.For? ==> LastPart(t, c) == Some(Part(t.body, BodyCtx(t, c)))
    ensures t.Case? ==> LastPart(t, c) == if |t.other| > 0 then Some(Part(t.other[|t.other| - 1], SelCtx(t, c))) else None
  {
    hide CondCtx;
    hide BodyCtx;
    hide SelCtx;
  }

  lemma LastOfAll(ss: seq<Stmt>, c: Ctx)
    ensures FreedAll(ss, c) == if |ss| > 0 then Freed(ss[|ss| - 1], c) else {}
  {
    hide Freed;
  }

  lemma FreedParts(t: Stmt, c: Ctx)
    ensures t.Begin? ==> Freed(t, c) == FreedAll(t.ss, c)
    ensures t.Break? ==> c.live - Freed(t, c) == c.live
    ensures t.Simple? ==> Freed(t, c) == Lost(c.env, t.p.frees)
    ensures t.Assign? ==> Freed(t, c) == Lost(c.env, Handed(t.e))
    ensures t.Repeat? ==> Freed(t, c) == Lost(c.env, t.b.frees)
    ensures t.IfThen? || t.IfElse? || t.While? ==> CondCtx(t, c) == Ctx(c.env, c.live - Lost(c.env, t.b.frees))
    ensures t.IfThen? ==> CondCtx(t, c).live - Freed(t.thn, CondCtx(t, c)) == c.live - Freed(t, c)
    ensures t.IfElse? ==> CondCtx(t, c).live - Freed(t.els, CondCtx(t, c)) == c.live - Freed(t, c)
    ensures t.While? ==> CondCtx(t, c).live - Freed(t.body, CondCtx(t, c)) == c.live - Freed(t, c)
    ensures t.Case? ==> Freed(t, c) == Lost(c.env, t.sel.frees + if t.sel.own.Some? then {t.sel.own.value} else {}) + FreedAll(t.other, SelCtx(t, c))
  {
    hide *;
    FreedOf(t, c);
    HandsWhat(t, c);
    LastWhat(t, c);
    LostOfNone(c.env);
    if t.Begin? { LastOfAll(t.ss, c); }
    if t.Case? { LastOfAll(t.other, SelCtx(t, c)); }
    if t.IfThen? || t.IfElse? || t.While? { CondIs(t, c); }
  }

  lemma CondIs(t: Stmt, c: Ctx)
    requires t.IfThen? || t.IfElse? || t.While?
    ensures CondCtx(t, c) == Ctx(c.env, c.live - Lost(c.env, t.b.frees))
  {
    hide Lost;
  }

  lemma PendingParts(t: Stmt)
    ensures t.Begin? || t.Repeat? ==> Pending(t) == PendingAll(t.ss)
    ensures t.IfThen? ==> Pending(t) == Pending(t.thn)
    ensures t.IfElse? ==> Pending(t) == Pending(t.thn) + Pending(t.els)
    ensures t.While? || t.For? || t.Simple? || t.Assign? ==> Pending(t) == 0
    ensures t.Case? ==> Pending(t) == PendingArms(t.arms) + PendingAll(t.other)
    ensures t.Break? ==> Pending(t) == 1
  {
    hide PendingAll;
    hide PendingArms;
  }

  // ---- what an error-free compilation promises ---------------------------------------------

  // Breaks that a loop would have taken are exactly what `Pending` counts.
  lemma {:induction false} NoBreakEscapes(t: Stmt, s: Store, fuel: nat)
    requires Pending(t) == 0
    ensures !Eval(AsWritten, t, s, fuel).Broke?
    decreases fuel, t, 1
  {
    hide Pending;
    hide PendingAll;
    hide PendingArms;
    hide Eval;
    hide EvalAll;
    hide EvalLoop;
    PendingParts(t);
    MeansLeaf(t, s, fuel);
    match t
    case Begin(ss) => NoBreakEscapesAll(ss, s, fuel);
    case IfThen(b, thn) =>
      MeansIf(t, s, fuel);
      NoBreakEscapes(thn, b.upd(s), fuel);
    case IfElse(b, thn, els) =>
      MeansIf(t, s, fuel);
      NoBreakEscapes(thn, b.upd(s), fuel);
      NoBreakEscapes(els, b.upd(s), fuel);
    case While(b, body) =>
      MeansWhile(t, s, fuel);
      if fuel > 0 && b.val(s) {
        var r := Eval(AsWritten, body, b.upd(s), fuel);
        if r.Done? { NoBreakEscapes(t, r.s, fuel - 1); }
      }
    case Repeat(ss, b) =>
      MeansRepeat(t, s, fuel);
      if fuel > 0 {
        NoBreakEscapesAll(ss, s, fuel);
        var r := EvalAll(AsWritten, ss, s, fuel);
        if r.Done? && !b.val(r.s) { NoBreakEscapes(t, b.upd(r.s), fuel - 1); }
      }
    case For(x, _, _, first, last, _) =>
      MeansFor(t, s, fuel);
      var s' := s[x := first.val(s)];
      MeansLoop(t, last.val(s'), s', fuel);
    case Case(sel, arms, other) =>
      MeansCase(t, s, fuel);
      var j := FirstMatch(arms, sel.val(s), 0);
      if j < |arms| {
        NoneInArm(arms, j);
        NoBreakEscapes(arms[j].body, s, fuel);
      } else {
        NoBreakEscapesAll(other, s, fuel);
      }
    case _ =>
  }

  lemma {:induction false} NoBreakEscapesAll(ss: seq<Stmt>, s: Store, fuel: nat)
    requires PendingAll(ss) == 0
    ensures !EvalAll(AsWritten, ss, s, fuel).Broke?
    decreases fuel, ss, 0
  {
    hide Pending;
    hide Eval;
    if |ss| > 0 {
      var front := ss[..|ss| - 1];
      NoBreakEscapesAll(front, s, fuel);
      var r := EvalAll(AsWritten, front, s, fuel);
      if r.Done? { NoBreakEscapes(ss[|ss| - 1], r.s, fuel); }
    }
  }

  lemma {:induction false} NoneInArm(arms: seq<Arm>, j: nat)
    requires PendingArms(arms) == 0 && j < |arms|
    ensures Pending(arms[j].body) == 0
    decreases |arms|
  {
    hide Pending;
    if j < |arms| - 1 { NoneInArm(arms[..|arms| - 1], j); }
  }

  // A statement compiled outside any loop without an error runs from its first
  // emitted word to exactly the end of the code, with the store it means.
  lemma CompiledRuns(code0: seq<u16>, t: Stmt, c: Ctx, code: seq<u16>, d: Data, s: Store, fuel: nat) returns (n: nat, end: VM)
    requires code == code0 + Gen(t, c, |code0|, 0) && Pending(t) == 0
    requires Ok(t, c, |code0|, 0) && Rep(c, d, s)
    ensures Runs(code, |code0|, |code|, VM(|code0|, d), n, end)
    ensures var r := Eval(AsWritten, t, s, fuel);
            && !r.Broke?
            && (r.Done? ==> end.ip == |code| && Rep(c, end.d, r.s) && Keeps(c, d, end.d))
            && (r.Timeout? ==> n >= fuel)
  {
    hide *;
    NoBreakEscapes(t, s, fuel);
    LastPlaced(code0, code, Gen(t, c, |code0|, 0));
    n, end := Simulate(t, c, code, |code0|, 0, d, s, fuel);
    WhatSimulates(c, code, |code0|, |code|, 0, d, Eval(AsWritten, t, s, fuel), fuel, n, end);
  }

  lemma LastPlaced(code0: seq<u16>, code: seq<u16>, ws: seq<u16>)
    requires code == code0 + ws
    ensures Placed(code, |code0|, ws)
  {
  }

  lemma WhatSimulates(c: Ctx, code: seq<u16>, lo: int, hi: int, brk: int, d: Data, r: Result, fuel: nat, n: nat, end: VM)
    requires Simulates(c, code, lo, hi, brk, d, r, fuel, n, end)
    ensures Runs(code, lo, hi, VM(lo, d), n, end)
    ensures r.Done? || r.Broke? ==> end.ip == (if r.Done? then hi else brk) && Rep(c, end.d, r.s) && Keeps(c, d, end.d)
    ensures r.Timeout? ==> n >= fuel
  {
  }

  // The words of a statement before any hole of its own is filled.
  lemma ShapeForBreaks(t: Stmt, c: Ctx, at: int, brk: int)
    requires t.For?
    ensures var init, stop := t.first.assign(CounterCtx(t, c), t.x), t.last.load(StopCtx(t, c));
            var head := at + |init| + |stop|;
            && Gen(t, c, at, brk) == init + stop + LoopWords(t, c, head) + Encode(MoveOut(Home(c, t.x), Free(c)))
            && BreakSites(t, c, at) == []
  {
    ForWords(t, c, at, brk);
    hide Gen;
    hide LoopWords;
    hide Len;
  }

  class PascalCompiler {
    const chunk: Chunk
    var Locations: Env
    var Reglist: set<reg>
    var Breaks: seq<int>
    var InLoop: bool
    var Error: bool

    ghost function Now(): (c: Ctx)
      reads this`Locations, this`Reglist
      ensures c.env == Locations && c.live == Reglist
    {
      Ctx(Locations, Reglist)
    }

    constructor (chunk: Chunk, env: Env)
      ensures this.chunk == chunk && Now() == Ctx(env, {GP, FP, SP}) && Breaks == [] && !InLoop && !Error
    {
      this.chunk := chunk;
      Locations, Reglist, Breaks, InLoop, Error := env, {GP, FP, SP}, [], false, false;
    }

    // ---- the emitter -----------------------------------------------------------------------

    method Write(ws: seq<u16>) returns (at: nat)
      modifies chunk`Code
      ensures at == old(|chunk.Code|) && chunk.Code == old(chunk.Code) + ws
    {
      at := |chunk.Code|;
      ghost var before := chunk.Code;
      for i := 0 to |ws|
        invariant chunk.Code == before + ws[..i]
      {
        var _ := chunk.WriteCode(ws[i]);
        assert ws[..i + 1] == ws[..i] + [ws[i]];
      }
      assert ws[..|ws|] == ws;
    }

    // AllocateRegister, as long as a register is free
    method AllocateRegister() returns (r: reg)
      requires HasFree(Now())
      modifies this`Reglist
      ensures r == old(Free(Now())) && r !in old(Reglist) && Reglist == old(Reglist) + {r}
    {
      var i := 0;
      while i < 16 && i in Reglist
        invariant 0 <= i <= 16
        invariant forall k: reg :: k < i ==> k in Reglist
      {
        i := i + 1;
      }
      r := i;
      Reglist := Reglist + {r};
    }

    // FreeRegister with no register spilled
    method FreeRegister(r: reg)
      modifies this`Reglist
      ensures Reglist == old(Reglist) - {r}
    {
      Reglist := Reglist - {r};
    }

    // FreeExpr of the places of these variables
    method FreeExprs(vs: set<Var>)
      modifies this`Reglist
      ensures Reglist == old(Reglist) - Lost(Locations, vs)
    {
      ghost var done: set<Var> := {};
      var todo := vs;
      while todo != {}
        invariant done <= vs && todo == vs - done
        invariant Reglist == old(Reglist) - Lost(Locations, done)
      {
        var x :| x in todo;
        if x in Locations && Locations[x].InReg? {
          FreeRegister(Locations[x].r);
        }
        OneMoreLost(Locations, done, x);
        todo, done := todo - {x}, done + {x};
      }
      assert done == vs;
    }

    method EmitBranchIfFalse(l: CondLoc) returns (at: nat)
      modifies chunk`Code
      ensures at == old(|chunk.Code|) && chunk.Code == old(chunk.Code) + Encode(BranchIfFalse(l, 0))
    {
      at := Write(Encode(BranchIfFalse(l, 0)));
    }

    method EmitBranchIfTrue(l: CondLoc) returns (at: nat)
      modifies chunk`Code
      ensures at == old(|chunk.Code|) && chunk.Code == old(chunk.Code) + Encode(BranchIfTrue(l, 0))
    {
      at := Write(Encode(BranchIfTrue(l, 0)));
    }

    method EmitBranch(to: int) returns (at: nat)
      modifies chunk`Code
      ensures at == old(|chunk.Code|) && chunk.Code == old(chunk.Code) + Encode(Jump(to - at - 2))
    {
      at := Write(Encode(Jump(to - |chunk.Code| - 2)));
    }

    method EmitBranchAndInc(r: reg, inc: int, to: int)
      modifies chunk`Code
      ensures chunk.Code == old(chunk.Code) + Encode(CountBranch(r, inc, to - old(|chunk.Code|) - 2))
    {
      var _ := Write(Encode(CountBranch(r, inc, to - |chunk.Code| - 2)));
    }

    // CompilerPatchBreaks: all breaks pending since `prev` go to the current end.
    method PatchBreaks(prev: nat, ghost lo: int)
      requires prev <= |Breaks| && Holes(chunk.Code, Breaks[prev..], lo, |chunk.Code|, 0) && 0 <= lo
      modifies this`Breaks, chunk`Code
      ensures Breaks == old(Breaks)[..prev]
      ensures chunk.Code == PatchAll(old(chunk.Code), old(Breaks)[prev..], old(|chunk.Code|))
    {
      PatchList(Breaks[prev..], lo);
      Breaks := Breaks[..prev];
    }

    method PatchList(sites: seq<int>, ghost lo: int)
      requires Holes(chunk.Code, sites, lo, |chunk.Code|, 0) && 0 <= lo
      modifies chunk`Code
      ensures chunk.Code == PatchAll(old(chunk.Code), sites, old(|chunk.Code|))
    {
      hide Patch;
      hide Site;
      hide Encode;
      hide Placed;
      ghost var before := chunk.Code;
      for i := 0 to |sites|
        invariant chunk.Code == PatchAll(before, sites[..i], |before|)
      {
        NextIsSite(before, sites, lo, |before|, 0, |before|, i);
        assert Hole(before, sites[i], lo, |before|, 0);
        PatchBranch(chunk, sites[i], |chunk.Code|);
      }
      assert sites[..|sites|] == sites;
    }

    // ---- statements ----------------------------------------------------------------------------

    // CompileLoopBody; what it returns is the number of breaks pending outside.
    method CompileLoopBody(body: Stmt) returns (prev: nat)
      requires Compiles(body, Now(), |Breaks|)
      modifies this`Locations, this`Reglist, this`Breaks, this`InLoop, this`Error, chunk`Code
      ensures prev == old(|Breaks|) && InLoop == old(InLoop) && Error == old(Error)
      ensures Locations == old(Locations) && Reglist == old(Reglist) - Freed(body, old(Now()))
      ensures chunk.Code == old(chunk.Code) + Gen(body, old(Now()), old(|chunk.Code|), 0)
      ensures Breaks == old(Breaks) + BreakSites(body, old(Now()), old(|chunk.Code|))
      decreases body, 2
    {
      hide *;
      prev := |Breaks|;
      var wasInLoop := InLoop;
      InLoop := true;
      CompileStmt(body);
      InLoop := wasInLoop;
    }

    // CompileBeginStmt, and the statement lists of repeat and case-else.
    method CompileList(ss: seq<Stmt>)
      requires CompilesAll(ss, Now(), |Breaks|)
      modifies this`Locations, this`Reglist, this`Breaks, this`InLoop, this`Error, chunk`Code
      ensures InLoop == old(InLoop) && Locations == old(Locations) && Reglist == old(Reglist) - FreedAll(ss, old(Now()))
      ensures chunk.Code == old(chunk.Code) + GenAll(ss, old(Now()), old(|chunk.Code|), 0)
      ensures Breaks == old(Breaks) + SitesAll(ss, old(Now()), old(|chunk.Code|))
      ensures Error == (old(Error) || (!InLoop && PendingAll(ss) > 0))
      decreases ss, 0
    {
      hide *;
      ghost var code0, breaks0, c := chunk.Code, Breaks, Now();
      NoStatements(c, |code0|);
      FreedNone(ss, c);
      for i := 0 to |ss|
        invariant InLoop == old(InLoop) && Locations == c.env
        invariant Reglist == if i == |ss| then c.live - FreedAll(ss, c) else c.live
        invariant chunk.Code == code0 + GenAll(ss[..i], c, |code0|, 0)
        invariant Breaks == breaks0 + SitesAll(ss[..i], c, |code0|)
        invariant Error == (old(Error) || (!InLoop && PendingAll(ss[..i]) > 0))
      {
        NextStmt(ss, c, |breaks0|, |code0|, i);
        PendingCountAll(ss[..i], c, |code0|);
        CompileStmt(ss[i]);
      }
      assert ss[..|ss|] == ss;
    }

    method CompileIfThen(t: Stmt)
      requires t.IfThen? && Compiles(t, Now(), |Breaks|)
      modifies this`Locations, this`Reglist, this`Breaks, this`InLoop, this`Error, chunk`Code
      ensures InLoop == old(InLoop) && Locations == old(Locations) && Reglist == old(Reglist) - Freed(t, old(Now()))
      ensures chunk.Code == old(chunk.Code) + Gen(t, old(Now()), old(|chunk.Code|), 0)
      ensures Breaks == old(Breaks) + BreakSites(t, old(Now()), old(|chunk.Code|))
      ensures Error == (old(Error) || (!InLoop && Pending(t) > 0))
      decreases t, 0
    {
      hide *;
      ghost var code0, at, c := chunk.Code, |chunk.Code|, Now();
      CompilableParts(t, c, |Breaks|);
      FreedParts(t, c);
      PendingParts(t);
      ShapeIfThenBreaks(t, c, at, 0);
      var w, l := t.b.emit(Ctx(Locations, Reglist)), t.b.loc(Ctx(Locations, Reglist));
      var _ := Write(w);
      var fromIf := EmitBranchIfFalse(l);
      CondSize(l, 0);
      FreeExprs(t.b.frees);
      ghost var c1 := CondCtx(t, c);
      CondSize(l, Len(t.thn, c1));
      CompileStmt(t.thn);
      PatchCond(code0, w, l, true, Gen(t.thn, c1, at + |w| + 2, 0), |chunk.Code|);
      PatchBranch(chunk, fromIf, |chunk.Code|);
      Regroup(code0, w, Encode(BranchIfFalse(l, Len(t.thn, c1))), Gen(t.thn, c1, at + |w| + 2, 0), []);
    }

    method CompileIfElse(t: Stmt)
      requires t.IfElse? && Compiles(t, Now(), |Breaks|)
      modifies this`Locations, this`Reglist, this`Breaks, this`InLoop, this`Error, chunk`Code
      ensures InLoop == old(InLoop) && Locations == old(Locations) && Reglist == old(Reglist) - Freed(t, old(Now()))
      ensures chunk.Code == old(chunk.Code) + Gen(t, old(Now()), old(|chunk.Code|), 0)
      ensures Breaks == old(Breaks) + BreakSites(t, old(Now()), old(|chunk.Code|))
      ensures Error == (old(Error) || (!InLoop && Pending(t) > 0))
      decreases t, 0
    {
      hide *;
      ghost var code0, at, c := chunk.Code, |chunk.Code|, Now();
      CompilableParts(t, c, |Breaks|);
      FreedParts(t, c);
      PendingParts(t);
      ShapeIfElseBreaks(t, c, at, 0);
      var w, l := t.b.emit(Ctx(Locations, Reglist)), t.b.loc(Ctx(Locations, Reglist));
      ghost var c1, mid := CondCtx(t, c), at + |w| + 2;
      ghost var m := mid + Len(t.thn, c1) + 2;
      ghost var thn, els := Gen(t.thn, c1, mid, 0), Gen(t.els, c1, m, 0);
      var _ := Write(w);
      var fromIf := EmitBranchIfFalse(l);
      FreeExprs(t.b.frees);
      CondSize(l, 0);
      CondSize(l, |thn| + 2);
      JumpSize(0 - (m - 2) - 2);
      JumpSize(|els|);
      Kept(t.thn, c1, |Breaks|);
      CompileStmt(t.thn);
      PendingCount(t.thn, c1, mid);
      var fromEndIf := EmitBranch(0);
      PatchIf(code0, w, l, thn);
      PatchBranch(chunk, fromIf, |chunk.Code|);
      CompileStmt(t.els);
      PatchElse(code0, w, l, thn, els);
      PatchBranch(chunk, fromEndIf, |chunk.Code|);
    }

    method CompileWhile(t: Stmt)
      requires t.While? && Compiles(t, Now(), |Breaks|)
      modifies this`Locations, this`Reglist, this`Breaks, this`InLoop, this`Error, chunk`Code
      ensures InLoop == old(InLoop) && Locations == old(Locations) && Reglist == old(Reglist) - Freed(t, old(Now()))
      ensures chunk.Code == old(chunk.Code) + Gen(t, old(Now()), old(|chunk.Code|), 0)
      ensures Breaks == old(Breaks) + BreakSites(t, old(Now()), old(|chunk.Code|))
      ensures Error == (old(Error) || (!InLoop && Pending(t) > 0))
      decreases t, 0
    {
      hide *;
      ghost var code0, at, c := chunk.Code, |chunk.Code|, Now();
      CompilableParts(t, c, |Breaks|);
      FreedParts(t, c);
      PendingParts(t);
      NoSites(t, c, at, 0, 0);
      ShapeWhile(t, c, at, 0);
      var loopHead := |chunk.Code|;
      var w, l := t.b.emit(Ctx(Locations, Reglist)), t.b.loc(Ctx(Locations, Reglist));
      ghost var c1, mid := CondCtx(t, c), at + |w| + 2;
      ghost var hi := mid + Len(t.body, c1) + 2;
      ghost var body, body' := Gen(t.body, c1, mid, 0), Gen(t.body, c1, mid, hi);
      ghost var br, jmp := Encode(BranchIfFalse(l, |body| + 2)), Encode(Jump(at - hi));
      var _ := Write(w);
      var loopExit := EmitBranchIfFalse(l);
      CondSize(l, 0);
      FreeExprs(t.b.frees);
      var prev := CompileLoopBody(t.body);
      var _ := EmitBranch(loopHead);
      PatchCond(code0, w, l, true, body + jmp, hi);
      assert code0 + w + Encode(BranchIfFalse(l, 0)) + body + jmp == code0 + w + Encode(BranchIfFalse(l, 0)) + (body + jmp);
      PatchBranch(chunk, loopExit, |chunk.Code|);
      assert code0 + w + br + (body + jmp) == code0 + w + br + body + jmp;
      PatchBody(code0 + w + br, t.body, c1, jmp, hi);
      HolesWiden(chunk.Code, BreakSites(t.body, c1, mid), mid, mid + |body|, mid, hi, 0);
      PatchBreaks(prev, mid);
      Regroup(code0, w, br, body', jmp);
    }

    method CompileRepeat(t: Stmt)
      requires t.Repeat? && Compiles(t, Now(), |Breaks|)
      modifies this`Locations, this`Reglist, this`Breaks, this`InLoop, this`Error, chunk`Code
      ensures InLoop == old(InLoop) && Locations == old(Locations) && Reglist == old(Reglist) - Freed(t, old(Now()))
      ensures chunk.Code == old(chunk.Code) + Gen(t, old(Now()), old(|chunk.Code|), 0)
      ensures Breaks == old(Breaks) + BreakSites(t, old(Now()), old(|chunk.Code|))
      ensures Error == (old(Error) || (!InLoop && Pending(t) > 0))
      decreases t, 0
    {
      hide *;
      ghost var code0, at, c := chunk.Code, |chunk.Code|, Now();
      CompilableParts(t, c, |Breaks|);
      FreedParts(t, c);
      PendingParts(t);
      ShapeRepeat(t, c, at, 0);
      ShapeRepeatBreaks(t, c, at, 0);
      var loopHead := |chunk.Code|;
      AllCompile(t.ss, c, |Breaks|);
      CompileList(t.ss);
      ghost var ss := GenAll(t.ss, c, at, 0);
      var w, l := t.b.emit(Ctx(Locations, Reglist)), t.b.loc(Ctx(Locations, Reglist));
      var _ := Write(w);
      var toHead := EmitBranchIfFalse(l);
      CondSize(l, 0);
      PatchCond(code0 + ss, w, l, true, [], at);
      assert chunk.Code == code0 + ss + w + Encode(BranchIfFalse(l, 0)) + [];
      PatchBranch(chunk, toHead, loopHead);
      FreeExprs(t.b.frees);
      Regroup(code0, ss, w, Encode(BranchIfFalse(l, at - (at + Len(t, c)))), []);
    }

    // The loop of a for statement, its counter and stop value being in registers.
    method CompileCountedLoop(t: Stmt, i: reg, stop: reg, ghost c: Ctx)
      requires t.For? && Now() == BodyCtx(t, c) && i == Free(c) && stop == t.last.reg(StopCtx(t, c))
      requires Compiles(t.body, Now(), |Breaks|)
      modifies this`Locations, this`Reglist, this`Breaks, this`InLoop, this`Error, chunk`Code
      ensures InLoop == old(InLoop) && Breaks == old(Breaks) && Error == old(Error)
      ensures Locations == old(Locations) && Reglist == old(Reglist) - Freed(t.body, old(Now()))
      ensures chunk.Code == old(chunk.Code) + LoopWords(t, c, old(|chunk.Code|))
      decreases t, 0
    {
      hide *;
      ghost var pre, c2 := chunk.Code, Now();
      var loopHead := |chunk.Code|;
      LoopParts(t, c, loopHead);
      CondSize(Flag(false), 0);
      var inc := if t.up then 1 else -1;
      ghost var l: int := Len(t.body, c2);
      ghost var mid, hi := loopHead + 3, loopHead + 5 + l;
      ghost var body, body' := Gen(t.body, c2, mid, 0), Gen(t.body, c2, mid, hi);
      ghost var br0, br := Encode(BranchIfFalse(Flag(false), 0)), Encode(BranchIfFalse(Flag(false), l + 2));
      ghost var cnt := Encode(CountBranch(i, inc, -(l + 5)));
      var test := Encode(CompareCounter(t.ty, t.up, i, stop));
      var _ := Write(test);
      var loopExit := EmitBranchIfFalse(Flag(false));
      var prev := CompileLoopBody(t.body);
      EmitBranchAndInc(i, inc, loopHead);
      assert chunk.Code == pre + test + br0 + body + cnt;
      PatchCond(pre, test, Flag(false), true, body + cnt, hi);
      assert pre + test + br0 + body + cnt == pre + test + br0 + (body + cnt);
      PatchBranch(chunk, loopExit, |chunk.Code|);
      assert pre + test + br + (body + cnt) == pre + test + br + body + cnt;
      PatchBody(pre + test + br, t.body, c2, cnt, hi);
      HolesWiden(chunk.Code, BreakSites(t.body, c2, mid), mid, mid + |body|, mid, hi, 0);
      PatchBreaks(prev, mid);
      Regroup(pre, test, br, body', cnt);
    }

    // The counter moves to a register; its first value is put there, the stop
    // value in another one.
    method CompileLimits(t: Stmt) returns (i: reg, stop: reg)
      requires t.For? && t.x in Locations && HasFree(Now())
      modifies this`Locations, this`Reglist, chunk`Code
      ensures Now() == BodyCtx(t, old(Now())) && i == Free(old(Now())) && i !in old(Reglist) && stop == t.last.reg(StopCtx(t, old(Now())))
      ensures Locations == old(Locations)[t.x := InReg(i)]
      ensures chunk.Code == old(chunk.Code) + t.first.assign(CounterCtx(t, old(Now())), t.x) + t.last.load(StopCtx(t, old(Now())))
    {
      hide *;
      ForContexts(t, Now());
      i := AllocateRegister();
      Locations := Locations[t.x := InReg(i)];
      var _ := Write(t.first.assign(Ctx(Locations, Reglist), t.x));
      FreeExprs(Handed(t.first));
      stop := t.last.reg(Ctx(Locations, Reglist));
      var _ := Write(t.last.load(Ctx(Locations, Reglist)));
      FreeExprs(t.last.frees);
      Reglist := Reglist + {stop};
    }

    method CompileFor(t: Stmt)
      requires t.For? && Compiles(t, Now(), |Breaks|)
      modifies this`Locations, this`Reglist, this`Breaks, this`InLoop, this`Error, chunk`Code
      ensures InLoop == old(InLoop) && Locations == old(Locations) && Reglist == old(Reglist) - Freed(t, old(Now()))
      ensures chunk.Code == old(chunk.Code) + Gen(t, old(Now()), old(|chunk.Code|), 0)
      ensures Breaks == old(Breaks) + BreakSites(t, old(Now()), old(|chunk.Code|))
      ensures Error == (old(Error) || (!InLoop && Pending(t) > 0))
      decreases t, 1, 0
    {
      hide *;
      ghost var code0, at, c := chunk.Code, |chunk.Code|, Now();
      CompilableParts(t, c, |Breaks|);
      ForList(t, c);
      PendingParts(t);
      ShapeForBreaks(t, c, at, 0);
      ForContexts(t, c);
      var counterSave := Locations[t.x];
      var i, stop := CompileLimits(t);
      ghost var init, load := t.first.assign(CounterCtx(t, c), t.x), t.last.load(StopCtx(t, c));
      CompileCountedLoop(t, i, stop, c);
      ghost var out := Encode(MoveOut(counterSave, i));
      var _ := Write(Encode(MoveOut(counterSave, i)));
      Regroup(code0, init, load, LoopWords(t, c, at + |init| + |load|), out);
      FreeRegister(i);
      FreeRegister(stop);
      Locations := Locations[t.x := counterSave];
    }

    method CompileCase(t: Stmt)
      requires t.Case? && Compiles(t, Now(), |Breaks|)
      modifies this`Locations, this`Reglist, this`Breaks, this`InLoop, this`Error, chunk`Code
      ensures InLoop == old(InLoop) && Locations == old(Locations)
      ensures Reglist == old(Reglist) - Freed(t, old(Now()))
      ensures chunk.Code == old(chunk.Code) + Gen(t, old(Now()), old(|chunk.Code|), 0)
      ensures Breaks == old(Breaks) + BreakSites(t, old(Now()), old(|chunk.Code|))
      ensures Error == (old(Error) || (!InLoop && Pending(t) > 0))
      decreases t, 0
    {
      hide *;
      ghost var code0, breaks0, at, c := chunk.Code, Breaks, |chunk.Code|, Now();
      CaseParts(t, c, |Breaks|);
      FreedParts(t, c);
      PendingParts(t);
      ShapeCaseBreaks(t, c, at, 0);
      SelContext(t, c);
      var load, held := [], 0;
      if t.sel.own.None? {
        load, held := t.sel.load(Ctx(Locations, Reglist)), t.sel.reg(Ctx(Locations, Reglist));
        var _ := Write(load);
      }
      FreeExprs(t.sel.frees);
      if t.sel.own.None? {
        Reglist := Reglist + {held};
      }
      ghost var pre := code0 + load;
      ghost var base, c1 := |pre|, Now();
      assert chunk.Code == pre;
      var outs := CompileArms(t, held, c);
      PendingCountArms(t, t.arms, c, base);
      CompileList(t.other);
      ghost var other := GenAll(t.other, c1, base + LenArms(t, t.arms, c), 0);
      PatchOuts(pre, t, c, other, |chunk.Code|);
      HolesWiden(chunk.Code, outs, base, base + LenArms(t, t.arms, c), base, |chunk.Code|, 0);
      PatchList(outs, base);
      Regroup(code0, load, GenArms(t, t.arms, c, base, 0, |chunk.Code|), other, []);
      if t.sel.own.None? {
        FreeRegister(held);
      } else {
        FreeExprs({t.sel.own.value});
      }
      CaseList(t, c);
    }

    // The arms; what it returns is OutBranch, the jumps behind them.
    method CompileArms(t: Stmt, held: reg, ghost c: Ctx) returns (outs: seq<int>)
      requires t.Case? && Now() == SelCtx(t, c) && (t.sel.own.None? ==> held == t.sel.reg(c))
      requires |t.arms| > 0 ==> HasFree(Now())
      requires CompilableArms(t, t.arms, c, |Breaks|)
      modifies this`Locations, this`Reglist, this`Breaks, this`InLoop, this`Error, chunk`Code
      ensures InLoop == old(InLoop) && Now() == old(Now())
      ensures chunk.Code == old(chunk.Code) + GenArms(t, t.arms, c, old(|chunk.Code|), 0, 0)
      ensures Breaks == old(Breaks) + SitesArms(t, t.arms, c, old(|chunk.Code|))
      ensures outs == OutSites(t, t.arms, c, old(|chunk.Code|))
      ensures Error == (old(Error) || (!InLoop && PendingArms(t.arms) > 0))
      decreases t.arms, 0
    {
      hide *;
      ghost var code0, breaks0, base, c1 := chunk.Code, Breaks, |chunk.Code|, Now();
      NoArmsYet(t, c, base);
      outs := [];
      for i := 0 to |t.arms|
        invariant Now() == c1 && InLoop == old(InLoop)
        invariant chunk.Code == code0 + GenArms(t, t.arms[..i], c, base, 0, 0)
        invariant Breaks == breaks0 + SitesArms(t, t.arms[..i], c, base)
        invariant outs == OutSites(t, t.arms[..i], c, base)
        invariant Error == (old(Error) || (!InLoop && PendingArms(t.arms[..i]) > 0))
      {
        NextArm(t, t.arms, c, |breaks0|, base, i);
        PendingCountArms(t, t.arms[..i], c, base);
        var out := CompileArm(t, t.arms[i], held, c);
        outs := outs + [out];
      }
      assert t.arms[..|t.arms|] == t.arms;
    }

    // The test of an arm, and the branch to the next one, still to be patched.
    method CompileTest(t: Stmt, a: Arm, held: reg, ghost c: Ctx) returns (nextCase: nat)
      requires t.Case? && Now() == SelCtx(t, c) && HasFree(Now()) && (t.sel.own.None? ==> held == t.sel.reg(c))
      modifies this`Reglist, chunk`Code
      ensures Now() == old(Now()) && nextCase == old(|chunk.Code|) + |ArmTest(t, c, a.k)|
      ensures chunk.Code == old(chunk.Code) + ArmTest(t, c, a.k) + Encode(BranchIfTrue(Flag(false), 0))
    {
      hide *;
      ghost var code0 := chunk.Code;
      TestParts(t, a, c);
      var lit := AllocateRegister();
      var _ := chunk.WriteMovImm(lit, a.k);
      var again, sel := [], held;
      if t.sel.own.Some? {
        again, sel := t.sel.load(Ctx(Locations, Reglist)), t.sel.reg(Ctx(Locations, Reglist));
        var _ := Write(again);
      }
      assert chunk.Code == code0 + Encode(MovImm(lit, a.k)) + again;
      var _ := Write(Encode(SetIfEqual(sel, lit)));
      Regroup(code0, Encode(MovImm(lit, a.k)), again, Encode(SetIfEqual(sel, lit)), []);
      nextCase := EmitBranchIfTrue(Flag(false));
      FreeRegister(lit);
    }

    // One arm; what it returns is the jump behind it, still to be patched.
    method CompileArm(t: Stmt, a: Arm, held: reg, ghost c: Ctx) returns (out: nat)
      requires t.Case? && Now() == SelCtx(t, c) && HasFree(Now()) && CompilableArm(t, a, c, |Breaks|)
      requires t.sel.own.None? ==> held == t.sel.reg(c)
      modifies this`Locations, this`Reglist, this`Breaks, this`InLoop, this`Error, chunk`Code
      ensures InLoop == old(InLoop) && Now() == old(Now())
      ensures chunk.Code == old(chunk.Code) + GenArm(t, a, c, old(|chunk.Code|), 0, 0)
      ensures Breaks == old(Breaks) + SitesArm(t, a, c, old(|chunk.Code|))
      ensures out == old(|chunk.Code|) + LenArm(t, a, c) - 2
      ensures Error == (old(Error) || (!InLoop && PendingArm(a) > 0))
      decreases a, 0
    {
      hide *;
      ghost var code0, at, c1 := chunk.Code, |chunk.Code|, Now();
      ShapeArmBreaks(t, a, c, at, 0, 0);
      ArmParts(t, a, c, |Breaks|);
      var nextCase := CompileTest(t, a, held, c);
      CondSize(Flag(false), 0);
      CondSize(Flag(false), Len(a.body, c1) + 2);
      Kept(a.body, c1, |Breaks|);
      CompileStmt(a.body);
      ghost var w := ArmTest(t, c, a.k);
      ghost var mid := at + |w| + 2;
      ghost var body := Gen(a.body, c1, mid, 0);
      out := EmitBranch(0);
      ghost var jmp := Encode(Jump(0 - (mid + |body|) - 2));
      assert chunk.Code == code0 + w + Encode(BranchIfTrue(Flag(false), 0)) + body + jmp;
      PatchCond(code0, w, Flag(false), false, body + jmp, |chunk.Code|);
      assert code0 + w + Encode(BranchIfTrue(Flag(false), 0)) + body + jmp == code0 + w + Encode(BranchIfTrue(Flag(false), 0)) + (body + jmp);
      PatchBranch(chunk, nextCase, |chunk.Code|);
      ghost var br := Encode(BranchIfTrue(Flag(false), |body| + 2));
      assert code0 + w + br + (body + jmp) == code0 + w + br + body + jmp;
      Regroup(code0, w, br, body, jmp);
    }

    method CompileStmt(t: Stmt)
      requires Compiles(t, Now(), |Breaks|)
      modifies this`Locations, this`Reglist, this`Breaks, this`InLoop, this`Error, chunk`Code
      ensures InLoop == old(InLoop) && Locations == old(Locations) && Reglist == old(Reglist) - Freed(t, old(Now()))
      ensures chunk.Code == old(chunk.Code) + Gen(t, old(Now()), old(|chunk.Code|), 0)
      ensures Breaks == old(Breaks) + BreakSites(t, old(Now()), old(|chunk.Code|))
      ensures Error == (old(Error) || (!InLoop && Pending(t) > 0))
      decreases t, 1, 1
    {
      hide *;
      ghost var at, c := |chunk.Code|, Now();
      CompilableParts(t, c, |Breaks|);
      FreedParts(t, c);
      PendingParts(t);
      ShapeLeaf(t, c, at, 0);
      LeafSites(t, c, at, 0);
      match t
      case Simple(p) =>
        NoSites(t, c, at, 0, 0);
        var _ := Write(p.emit(Ctx(Locations, Reglist)));
        FreeExprs(p.frees);
      case Assign(x, e) =>
        NoSites(t, c, at, 0, 0);
        var _ := Write(e.assign(Ctx(Locations, Reglist), x));
        FreeExprs(Handed(e));
      case Begin(ss) => CompileList(ss);
      case IfThen(_, _) => CompileIfThen(t);
      case IfElse(_, _, _) => CompileIfElse(t);
      case While(_, _) => CompileWhile(t);
      case Repeat(_, _) => CompileRepeat(t);
      case For(_, _, _, _, _, _) => CompileFor(t);
      case Case(_, _, _) => CompileCase(t);
      case Break =>
        if !InLoop {
          Error := true;
        }
        var hole := EmitBranch(0);
        Breaks := Breaks + [hole];
    }
  }

  lemma OneMoreLost(env: Env, vs: set<Var>, x: Var)
    ensures Lost(env, vs + {x}) == Lost(env, vs) + if x in env && env[x].InReg? then {env[x].r} else {}
  {
  }

  // PVMEmitSetIfNotEqual, whose flag is read negated
  function SetIfEqual(a: reg, b: reg): (i: Instr)
    ensures i == Plain(SEQ, a, b)
  {
    Plain(SEQ, a, b)
  }

  lemma CondSize(l: CondLoc, off: int)
    ensures |Encode(BranchIfFalse(l, off))| == 2 && |Encode(BranchIfTrue(l, off))| == 2
  {
  }

  lemma JumpSize(off: int)
    ensures |Encode(Jump(off))| == 2
  {
  }

  lemma Regroup(a: seq<u16>, b: seq<u16>, d: seq<u16>, e: seq<u16>, f: seq<u16>)
    ensures a + b + d + e + f == a + (b + d + e + f)
    ensures a + b + d + e == a + (b + d + e)
  {
  }

  lemma FreedNone(ss: seq<Stmt>, c: Ctx)
    ensures |ss| == 0 ==> c.live - FreedAll(ss, c) == c.live
  {
    hide Freed;
  }

  // The exit branch of an if, once the jump behind its first part is emitted.
  lemma PatchIf(code0: seq<u16>, w: seq<u16>, l: CondLoc, thn: seq<u16>)
    ensures var m := |code0| + |w| + 2 + |thn| + 2;
            var jmp := Encode(Jump(0 - (m - 2) - 2));
            var code := code0 + w + Encode(BranchIfFalse(l, 0)) + thn + jmp;
            && Site(code, |code0| + |w|) && |jmp| == 2
            && Patch(code, |code0| + |w|, m) == code0 + w + Encode(BranchIfFalse(l, |thn| + 2)) + thn + jmp
  {
    hide *;
    var m := |code0| + |w| + 2 + |thn| + 2;
    var jmp := Encode(Jump(0 - (m - 2) - 2));
    JumpSize(0 - (m - 2) - 2);
    PatchCond(code0, w, l, true, thn + jmp, m);
    Tail(code0, w, Encode(BranchIfFalse(l, 0)), thn, jmp);
    Tail(code0, w, Encode(BranchIfFalse(l, |thn| + 2)), thn, jmp);
  }

  // That jump, once the second part is emitted.
  lemma PatchElse(code0: seq<u16>, w: seq<u16>, l: CondLoc, thn: seq<u16>, els: seq<u16>)
    ensures var br := Encode(BranchIfFalse(l, |thn| + 2));
            var from := |code0| + |w| + |br| + |thn|;
            var code := code0 + w + br + thn + Encode(Jump(0 - from - 2)) + els;
            && Site(code, from)
            && Patch(code, from, |code|) == code0 + (w + br + thn + Encode(Jump(|els|)) + els)
  {
    hide *;
    var br := Encode(BranchIfFalse(l, |thn| + 2));
    var pre := code0 + w + br + thn;
    JumpSize(0 - |pre| - 2);
    PatchOneJump(pre, els, |pre| + 2 + |els|);
    TailOfFive(code0, w, br, thn, Encode(Jump(|els|)), els);
  }

  lemma Tail(a: seq<u16>, b: seq<u16>, d: seq<u16>, e: seq<u16>, f: seq<u16>)
    ensures a + b + d + e + f == a + b + d + (e + f)
  {
  }

  lemma TailOfFive(a: seq<u16>, b: seq<u16>, d: seq<u16>, e: seq<u16>, f: seq<u16>, g: seq<u16>)
    ensures a + b + d + e + f + g == a + (b + d + e + f + g)
  {
  }

  lemma NoStatements(c: Ctx, at: int)
    ensures GenAll([], c, at, 0) == [] && SitesAll([], c, at) == [] && PendingAll([]) == 0
  {
  }

  lemma NoArmsYet(t: Stmt, c: Ctx, at: int)
    requires t.Case?
    ensures GenArms(t, [], c, at, 0, 0) == [] && SitesArms(t, [], c, at) == [] && OutSites(t, [], c, at) == []
    ensures PendingArms([]) == 0
  {
  }

  lemma ForContexts(t: Stmt, c: Ctx)
    requires t.For? && t.x in c.env
    ensures var c1 := CounterCtx(t, c);
            && c1 == Ctx(c.env[t.x := InReg(Free(c))], c.live + {Free(c)})
            && StopCtx(t, c) == Ctx(c1.env, c1.live - Lost(c1.env, Handed(t.first)))
            && BodyCtx(t, c) == Ctx(c1.env, StopCtx(t, c).live - Lost(c1.env, t.last.frees) + {t.last.reg(StopCtx(t, c))})
    ensures Home(c, t.x) == c.env[t.x]
  {
    hide Free;
  }

  // What is left of the register list behind the loop.
  lemma ForList(t: Stmt, c: Ctx)
    requires t.For? && HasFree(c) && t.last.reg(StopCtx(t, c)) !in StopCtx(t, c).live
    ensures var b := BodyCtx(t, c);
            b.live - Freed(t.body, b) - {Free(c)} - {t.last.reg(StopCtx(t, c))} == c.live - Freed(t, c)
  {
    var c1 := CounterCtx(t, c);
    LostJoin(c1.env, Handed(t.first), t.last.frees);
    ForFreed(t, c);
    hide Free;
    hide Lost;
    hide Handed;
    hide Freed;
  }

  lemma ForFreed(t: Stmt, c: Ctx)
    requires t.For?
    ensures Freed(t, c) == Lost(CounterCtx(t, c).env, Handed(t.first) + t.last.frees) + Freed(t.body, BodyCtx(t, c))
  {
    hide *;
    FreedOf(t, c);
    HandsWhat(t, c);
    LastWhat(t, c);
    HomesFor(t, c);
  }

  lemma HomesFor(t: Stmt, c: Ctx)
    requires t.For?
    ensures Homes(t, c) == CounterCtx(t, c).env
  {
    hide CounterCtx;
  }

  lemma LostJoin(env: Env, a: set<Var>, b: set<Var>)
    ensures Lost(env, a + b) == Lost(env, a) + Lost(env, b)
  {
  }

  lemma CaseList(t: Stmt, c: Ctx)
    requires t.Case? && (t.sel.own.None? ==> t.sel.reg(c) !in c.live)
    ensures var c1 := SelCtx(t, c);
            c1.live - FreedAll(t.other, c1) - (if t.sel.own.None? then {t.sel.reg(c)} else Lost(c.env, {t.sel.own.value})) == c.live - Freed(t, c)
  {
    FreedParts(t, c);
    var own := if t.sel.own.Some? then {t.sel.own.value} else {};
    LostJoin(c.env, t.sel.frees, own);
    LostOfNone(c.env);
    hide Lost;
    hide Freed;
    hide FreedAll;
  }

  lemma LostOfNone(env: Env)
    ensures Lost(env, {}) == {}
  {
  }

  lemma LoopParts(t: Stmt, c: Ctx, head: int)
    requires t.For?
    ensures var c2 := BodyCtx(t, c);
            var l: int := Len(t.body, c2);
            var test := Encode(CompareCounter(t.ty, t.up, Free(c), t.last.reg(StopCtx(t, c))));
            && |test| == 1
            && LoopWords(t, c, head) == test + Encode(BranchIfFalse(Flag(false), l + 2)) + Gen(t.body, c2, head + 3, head + 5 + l)
                                       + Encode(CountBranch(Free(c), if t.up then 1 else -1, -(l + 5)))
            && |Encode(CountBranch(Free(c), if t.up then 1 else -1, -(l + 5)))| == 2
  {
    hide Free;
    hide Gen;
    hide Len;
  }

  lemma ArmParts(t: Stmt, a: Arm, c: Ctx, pending: nat)
    requires t.Case? && CompilableArm(t, a, c, pending)
    ensures Compilable(a.body, SelCtx(t, c), pending) && PendingArm(a) == Pending(a.body)
  {
    hide Compilable;
    hide Pending;
    hide SelCtx;
  }

  lemma TestParts(t: Stmt, a: Arm, c: Ctx)
    requires t.Case?
    ensures var c1 := SelCtx(t, c);
            var c2 := Ctx(c1.env, c1.live + {Free(c1)});
            ArmTest(t, c, a.k) == Encode(MovImm(Free(c1), a.k)) + (if t.sel.own.None? then [] else t.sel.load(c2))
                                  + Encode(Plain(SEQ, if t.sel.own.None? then t.sel.reg(c) else t.sel.reg(c2), Free(c1)))
  {
    hide Encode;
    hide MovImm;
    hide SelCtx;
    hide Free;
  }

  lemma SelContext(t: Stmt, c: Ctx)
    requires t.Case?
    ensures var l := c.live - Lost(c.env, t.sel.frees);
            SelCtx(t, c) == Ctx(c.env, if t.sel.own.None? then l + {t.sel.reg(c)} else l)
  {
  }

}
