// Where the branches of finished statements go.
// src/Compiler/Compiler.c, src/Compiler/Emitter.c
module Targets {
  import opened Words
  import opened Isa
  import opened Codec
  import opened Statements
  import opened Preservation
  import opened Simulation
  import opened Backpatch
  import opened Patching
  import opened Compiler

  // A branch written by statement code, and its address.
  datatype Jumping = Jumping(site: int, i: Instr)

  function Branches(t: Stmt, c: Ctx, at: int, brk: int): seq<Jumping>
    decreases t, 1
  {
    match t
    case Begin(ss) => BranchesAll(ss, c, at, brk)
    case IfThen(b, thn) =>
      var c1, test := CondCtx(t, c), at + |b.emit(c)|;
      [Jumping(test, BranchIfFalse(b.loc(c), Len(thn, c1)))] + Branches(thn, c1, test + 2, brk)
    case IfElse(b, thn, els) =>
      var c1, test := CondCtx(t, c), at + |b.emit(c)|;
      var m := test + 2 + Len(thn, c1);
      [Jumping(test, BranchIfFalse(b.loc(c), Len(thn, c1) + 2))] + Branches(thn, c1, test + 2, brk)
        + [Jumping(m, Jump(Len(els, c1)))] + Branches(els, c1, m + 2, brk)
    case While(b, body) =>
      var c1, test := CondCtx(t, c), at + |b.emit(c)|;
      var hi := test + 2 + Len(body, c1) + 2;
      [Jumping(test, BranchIfFalse(b.loc(c), Len(body, c1) + 2))] + Branches(body, c1, test + 2, hi)
        + [Jumping(hi - 2, Jump(at - hi))]
    case Repeat(ss, b) =>
      var hi := at + Len(t, c);
      BranchesAll(ss, c, at, brk) + [Jumping(hi - 2, BranchIfFalse(b.loc(c), at - hi))]
    case For(_, _, up, _, _, body) =>
      var head := at + ForPrefix(t, c);
      var l: int := Len(body, BodyCtx(t, c));
      [Jumping(head + 1, BranchIfFalse(Flag(false), l + 2))] + Branches(body, BodyCtx(t, c), head + 3, head + 5 + l)
        + [Jumping(head + 3 + l, CountBranch(Free(c), if up then 1 else -1, -(l + 5)))]
    case Case(_, arms, other) =>
      var base := at + CasePrefix(t, c);
      BranchesArms(t, arms, c, base, brk, at + Len(t, c))
        + BranchesAll(other, SelCtx(t, c), base + LenArms(t, arms, c), brk)
    case Break => [Jumping(at, Jump(brk - at - 2))]
    case _ => []
  }

  function BranchesAll(ss: seq<Stmt>, c: Ctx, at: int, brk: int): seq<Jumping>
    decreases ss, 0
  {
    if |ss| == 0 then [] else
    var front := ss[..|ss| - 1];
    BranchesAll(front, c, at, brk) + Branches(ss[|ss| - 1], c, at + LenAll(front, c), brk)
  }

  function BranchesArms(t: Stmt, arms: seq<Arm>, c: Ctx, at: int, brk: int, out: int): seq<Jumping>
    requires t.Case?
    decreases arms, 0
  {
    if |arms| == 0 then [] else
    var front := arms[..|arms| - 1];
    BranchesArms(t, front, c, at, brk, out) + BranchesArm(t, arms[|arms| - 1], c, at + LenArms(t, front, c), brk, out)
  }

  function BranchesArm(t: Stmt, a: Arm, c: Ctx, at: int, brk: int, out: int): seq<Jumping>
    requires t.Case?
    decreases a, 0
  {
    var test := at + |ArmTest(t, c, a.k)|;
    var l := Len(a.body, SelCtx(t, c));
    var m := test + 2 + l;
    [Jumping(test, BranchIfTrue(Flag(false), l + 2))] + Branches(a.body, SelCtx(t, c), test + 2, brk)
      + [Jumping(m, Jump(out - m - 2))]
  }

  // Where a statement, or a part of it that control enters by a branch, starts
  // or ends.
  function Starts(t: Stmt, c: Ctx, at: int): iset<int>
    decreases t, 1
  {
    iset{at, at + Len(t, c)} +
    match t
    case Begin(ss) => StartsAll(ss, c, at)
    case IfThen(b, thn) => Starts(thn, CondCtx(t, c), at + |b.emit(c)| + 2)
    case IfElse(b, thn, els) =>
      var c1, mid := CondCtx(t, c), at + |b.emit(c)| + 2;
      Starts(thn, c1, mid) + Starts(els, c1, mid + Len(thn, c1) + 2)
    case While(b, body) => Starts(body, CondCtx(t, c), at + |b.emit(c)| + 2)
    case Repeat(ss, b) => StartsAll(ss, c, at)
    case For(_, _, _, _, _, body) =>
      var head := at + ForPrefix(t, c);
      var l: int := Len(body, BodyCtx(t, c));
      // the comparison, and the move of the counter behind the loop
      iset{head, head + 5 + l} + Starts(body, BodyCtx(t, c), head + 3)
    case Case(_, arms, other) =>
      var base := at + CasePrefix(t, c);
      StartsArms(t, arms, c, base) + StartsAll(other, SelCtx(t, c), base + LenArms(t, arms, c))
    case _ => iset{}
  }

  function StartsAll(ss: seq<Stmt>, c: Ctx, at: int): iset<int>
    decreases ss, 0
  {
    if |ss| == 0 then iset{} else
    var front := ss[..|ss| - 1];
    StartsAll(front, c, at) + Starts(ss[|ss| - 1], c, at + LenAll(front, c))
  }

  function StartsArms(t: Stmt, arms: seq<Arm>, c: Ctx, at: int): iset<int>
    requires t.Case?
    decreases arms, 0
  {
    if |arms| == 0 then iset{} else
    var front := arms[..|arms| - 1];
    StartsArms(t, front, c, at) + StartsArm(t, arms[|arms| - 1], c, at + LenArms(t, front, c))
  }

  // The test of the next arm starts where this one ends.
  function StartsArm(t: Stmt, a: Arm, c: Ctx, at: int): iset<int>
    requires t.Case?
    decreases a, 0
  {
    iset{at, at + LenArm(t, a, c)} + Starts(a.body, SelCtx(t, c), at + |ArmTest(t, c, a.k)| + 2)
  }

  // Each branch is in the code inside [lo, hi), and goes to one of `ends`.
  ghost predicate Land(code: seq<u16>, bs: seq<Jumping>, lo: int, hi: int, ends: iset<int>) {
    forall k :: 0 <= k < |bs| ==> Lands(code, bs[k], lo, hi, ends)
  }

  ghost predicate Lands(code: seq<u16>, b: Jumping, lo: int, hi: int, ends: iset<int>) {
    && lo <= b.site && b.site + 2 <= hi && IsSite(b.i) && Placed(code, b.site, Encode(b.i))
    && Target(b.i, b.site) in ends
  }

  lemma LandJoin(code: seq<u16>, a: seq<Jumping>, b: seq<Jumping>, lo: int, hi: int, l1: int, h1: int, l2: int, h2: int,
                 e1: iset<int>, e2: iset<int>, ends: iset<int>)
    requires Land(code, a, l1, h1, e1) && Land(code, b, l2, h2, e2)
    requires lo <= l1 && h1 <= hi && lo <= l2 && h2 <= hi && e1 <= ends && e2 <= ends
    ensures Land(code, a + b, lo, hi, ends)
  {
    hide Placed;
    hide Encode;
    hide IsSite;
    hide Target;
    var s := a + b;
    forall k | 0 <= k < |s|
      ensures Lands(code, s[k], lo, hi, ends)
    {
      if k < |a| {
        assert Lands(code, a[k], l1, h1, e1);
      } else {
        assert Lands(code, b[k - |a|], l2, h2, e2);
      }
    }
  }

  lemma LandNone(code: seq<u16>, lo: int, hi: int, ends: iset<int>)
    ensures Land(code, [], lo, hi, ends)
  {
  }

  // A conditional branch, a jump, a count-and-branch, by itself.
  lemma LandCond(code: seq<u16>, site: int, l: CondLoc, onFalse: bool, off: int, ends: iset<int>)
    requires var i := if onFalse then BranchIfFalse(l, off) else BranchIfTrue(l, off); Placed(code, site, Encode(i))
    requires site + 2 + off in ends
    ensures var i := if onFalse then BranchIfFalse(l, off) else BranchIfTrue(l, off); Land(code, [Jumping(site, i)], site, site + 2, ends)
  {
  }

  lemma LandJump(code: seq<u16>, site: int, off: int, ends: iset<int>)
    requires Placed(code, site, Encode(Jump(off))) && site + 2 + off in ends
    ensures Land(code, [Jumping(site, Jump(off))], site, site + 2, ends)
  {
  }

  lemma LandCount(code: seq<u16>, site: int, r: reg, up: bool, off: int, ends: iset<int>)
    requires Placed(code, site, Encode(CountBranch(r, if up then 1 else -1, off))) && site + 2 + off in ends
    ensures Land(code, [Jumping(site, CountBranch(r, if up then 1 else -1, off))], site, site + 2, ends)
  {
  }

  // Every branch of a finished statement goes to the start or end of a part of
  // it; the breaks no loop of it takes go to `brk`.
  lemma BranchesLand(t: Stmt, c: Ctx, code: seq<u16>, at: int, brk: int)
    requires Placed(code, at, Gen(t, c, at, brk))
    ensures Land(code, Branches(t, c, at, brk), at, at + Len(t, c), Starts(t, c, at) + iset{brk})
    decreases t, 2
  {
    hide *;
    match t
    case Begin(ss) =>
      LandLeaf(t, c, at, brk);
      BranchesLandAll(ss, c, code, at, brk);
      LandWiden(code, BranchesAll(ss, c, at, brk), at, at + LenAll(ss, c), at, at + LenAll(ss, c),
                StartsAll(ss, c, at) + iset{brk}, Starts(t, c, at) + iset{brk});
    case IfThen(_, _) => LandIfThen(t, c, code, at, brk);
    case IfElse(_, _, _) => LandIfElse(t, c, code, at, brk);
    case While(_, _) => LandWhile(t, c, code, at, brk);
    case Repeat(_, _) => LandRepeat(t, c, code, at, brk);
    case For(_, _, _, _, _, _) => LandFor(t, c, code, at, brk);
    case Case(_, _, _) => LandCase(t, c, code, at, brk);
    case Break =>
      LandLeaf(t, c, at, brk);
      LandJump(code, at, brk - at - 2, Starts(t, c, at) + iset{brk});
    case _ =>
      LandLeaf(t, c, at, brk);
      LandNone(code, at, at + Len(t, c), Starts(t, c, at) + iset{brk});
  }

  lemma LandWiden(code: seq<u16>, a: seq<Jumping>, l1: int, h1: int, lo: int, hi: int, e1: iset<int>, ends: iset<int>)
    requires Land(code, a, l1, h1, e1) && lo <= l1 && h1 <= hi && e1 <= ends
    ensures Land(code, a, lo, hi, ends)
  {
    LandNone(code, lo, hi, ends);
    LandJoin(code, a, [], lo, hi, l1, h1, lo, hi, e1, ends, ends);
    assert a + [] == a;
  }

  lemma LandLeaf(t: Stmt, c: Ctx, at: int, brk: int)
    ensures t.Begin? ==> Gen(t, c, at, brk) == GenAll(t.ss, c, at, brk) && Len(t, c) == LenAll(t.ss, c)
                         && Branches(t, c, at, brk) == BranchesAll(t.ss, c, at, brk)
                         && StartsAll(t.ss, c, at) <= Starts(t, c, at)
    ensures t.Break? ==> Gen(t, c, at, brk) == Encode(Jump(brk - at - 2)) && Len(t, c) == 2
                         && Branches(t, c, at, brk) == [Jumping(at, Jump(brk - at - 2))]
    ensures t.Simple? || t.Assign? ==> Branches(t, c, at, brk) == []
  {
    hide GenAll;
    hide LenAll;
    hide BranchesAll;
    hide StartsAll;
  }

  lemma BranchesLandAll(ss: seq<Stmt>, c: Ctx, code: seq<u16>, at: int, brk: int)
    requires Placed(code, at, GenAll(ss, c, at, brk))
    ensures Land(code, BranchesAll(ss, c, at, brk), at, at + LenAll(ss, c), StartsAll(ss, c, at) + iset{brk})
    decreases ss, 0
  {
    hide *;
    ShapeList(ss, c, at, brk);
    if |ss| == 0 {
      LandNone(code, at, at, StartsAll(ss, c, at) + iset{brk});
    } else {
      var front, last := ss[..|ss| - 1], ss[|ss| - 1];
      var mid := at + LenAll(front, c);
      ShapeAllBreaks(ss, c, at, brk);
      Split(code, at, GenAll(front, c, at, brk), Gen(last, c, mid, brk));
      BranchesLandAll(front, c, code, at, brk);
      BranchesLand(last, c, code, mid, brk);
      LandJoin(code, BranchesAll(front, c, at, brk), Branches(last, c, mid, brk), at, at + LenAll(ss, c),
               at, mid, mid, mid + Len(last, c),
               StartsAll(front, c, at) + iset{brk}, Starts(last, c, mid) + iset{brk}, StartsAll(ss, c, at) + iset{brk});
    }
  }

  lemma ShapeList(ss: seq<Stmt>, c: Ctx, at: int, brk: int)
    ensures |ss| == 0 ==> BranchesAll(ss, c, at, brk) == [] && LenAll(ss, c) == 0
    ensures |ss| > 0 ==>
              var front, last := ss[..|ss| - 1], ss[|ss| - 1];
              var mid := at + LenAll(front, c);
              && BranchesAll(ss, c, at, brk) == BranchesAll(front, c, at, brk) + Branches(last, c, mid, brk)
              && StartsAll(ss, c, at) == StartsAll(front, c, at) + Starts(last, c, mid)
  {
    hide Len;
    hide Branches;
    hide Starts;
  }

  lemma PartsIfThen(t: Stmt, c: Ctx, at: int, brk: int)
    requires t.IfThen?
    ensures var c1 := CondCtx(t, c);
            var test := at + |t.b.emit(c)|;
            && Branches(t, c, at, brk) == [Jumping(test, BranchIfFalse(t.b.loc(c), Len(t.thn, c1)))] + Branches(t.thn, c1, test + 2, brk)
            && Starts(t, c, at) == iset{at, at + Len(t, c)} + Starts(t.thn, c1, test + 2)
  {
    hide CondCtx;
    hide Len;
  }

  lemma LandIfThen(t: Stmt, c: Ctx, code: seq<u16>, at: int, brk: int)
    requires t.IfThen? && Placed(code, at, Gen(t, c, at, brk))
    ensures Land(code, Branches(t, c, at, brk), at, at + Len(t, c), Starts(t, c, at) + iset{brk})
    decreases t, 1
  {
    hide *;
    var c1 := CondCtx(t, c);
    ShapeIfThen(t, c, at, brk);
    PartsIfThen(t, c, at, brk);
    var w, l := t.b.emit(c), Len(t.thn, c1);
    var br, test, ends := Encode(BranchIfFalse(t.b.loc(c), l)), at + |w|, Starts(t, c, at) + iset{brk};
    Split(code, at, w + br, Gen(t.thn, c1, test + 2, brk));
    Split(code, at, w, br);
    LandCond(code, test, t.b.loc(c), true, l, ends);
    BranchesLand(t.thn, c1, code, test + 2, brk);
    LandJoin(code, [Jumping(test, BranchIfFalse(t.b.loc(c), l))], Branches(t.thn, c1, test + 2, brk), at, at + Len(t, c),
             test, test + 2, test + 2, test + 2 + l, ends, Starts(t.thn, c1, test + 2) + iset{brk}, ends);
  }

  lemma PartsIfElse(t: Stmt, c: Ctx, at: int, brk: int)
    requires t.IfElse?
    ensures var c1 := CondCtx(t, c);
            var test := at + |t.b.emit(c)|;
            var m := test + 2 + Len(t.thn, c1);
            && Branches(t, c, at, brk) ==
                 [Jumping(test, BranchIfFalse(t.b.loc(c), Len(t.thn, c1) + 2))] + Branches(t.thn, c1, test + 2, brk)
                 + [Jumping(m, Jump(Len(t.els, c1)))] + Branches(t.els, c1, m + 2, brk)
            && Starts(t, c, at) == iset{at, at + Len(t, c)} + (Starts(t.thn, c1, test + 2) + Starts(t.els, c1, m + 2))
  {
    hide CondCtx;
    hide Len;
    hide BranchesAll;
    hide BranchesArms;
    hide StartsAll;
    hide StartsArms;
  }

  lemma StartIsStart(t: Stmt, c: Ctx, at: int)
    ensures at in Starts(t, c, at)
  {
    hide StartsAll;
    hide StartsArms;
  }

  lemma LandIfElse(t: Stmt, c: Ctx, code: seq<u16>, at: int, brk: int)
    requires t.IfElse? && Placed(code, at, Gen(t, c, at, brk))
    ensures Land(code, Branches(t, c, at, brk), at, at + Len(t, c), Starts(t, c, at) + iset{brk})
    decreases t, 1
  {
    hide *;
    var c1 := CondCtx(t, c);
    ShapeIfElse(t, c, at, brk);
    PartsIfElse(t, c, at, brk);
    var w, l := t.b.emit(c), Len(t.thn, c1);
    var br, jmp := Encode(BranchIfFalse(t.b.loc(c), l + 2)), Encode(Jump(Len(t.els, c1)));
    var test, m, hi, ends := at + |w|, at + |w| + 2 + l, at + Len(t, c), Starts(t, c, at) + iset{brk};
    var thn, els := Gen(t.thn, c1, test + 2, brk), Gen(t.els, c1, m + 2, brk);
    Split(code, at, w + br + thn + jmp, els);
    Split(code, at, w + br + thn, jmp);
    Split(code, at, w + br, thn);
    Split(code, at, w, br);
    var j1, j3 := [Jumping(test, BranchIfFalse(t.b.loc(c), l + 2))], [Jumping(m, Jump(Len(t.els, c1)))];
    var j2, j4 := Branches(t.thn, c1, test + 2, brk), Branches(t.els, c1, m + 2, brk);
    StartIsStart(t.els, c1, m + 2);
    LandCond(code, test, t.b.loc(c), true, l + 2, ends);
    BranchesLand(t.thn, c1, code, test + 2, brk);
    LandJump(code, m, Len(t.els, c1), ends);
    BranchesLand(t.els, c1, code, m + 2, brk);
    LandJoin(code, j1, j2, at, m, test, test + 2, test + 2, m, ends, Starts(t.thn, c1, test + 2) + iset{brk}, ends);
    LandJoin(code, j1 + j2, j3, at, m + 2, at, m, m, m + 2, ends, ends, ends);
    LandJoin(code, j1 + j2 + j3, j4, at, hi, at, m + 2, m + 2, hi, ends, Starts(t.els, c1, m + 2) + iset{brk}, ends);
  }

  lemma PartsWhile(t: Stmt, c: Ctx, at: int, brk: int)
    requires t.While?
    ensures var c1 := CondCtx(t, c);
            var test := at + |t.b.emit(c)|;
            var hi := test + 2 + Len(t.body, c1) + 2;
            && Branches(t, c, at, brk) ==
                 [Jumping(test, BranchIfFalse(t.b.loc(c), Len(t.body, c1) + 2))] + Branches(t.body, c1, test + 2, hi)
                 + [Jumping(hi - 2, Jump(at - hi))]
            && Starts(t, c, at) == iset{at, at + Len(t, c)} + Starts(t.body, c1, test + 2)
  {
    hide CondCtx;
    hide Len;
  }

  lemma LandWhile(t: Stmt, c: Ctx, code: seq<u16>, at: int, brk: int)
    requires t.While? && Placed(code, at, Gen(t, c, at, brk))
    ensures Land(code, Branches(t, c, at, brk), at, at + Len(t, c), Starts(t, c, at) + iset{brk})
    decreases t, 1
  {
    hide *;
    var c1 := CondCtx(t, c);
    ShapeWhile(t, c, at, brk);
    PartsWhile(t, c, at, brk);
    var w: seq<u16>, l: int := t.b.emit(c), Len(t.body, c1);
    var test, hi, ends := at + |w|, at + Len(t, c), Starts(t, c, at) + iset{brk};
    var br, body, jmp := Encode(BranchIfFalse(t.b.loc(c), l + 2)), Gen(t.body, c1, test + 2, hi), Encode(Jump(at - hi));
    Split(code, at, w + br + body, jmp);
    Split(code, at, w + br, body);
    Split(code, at, w, br);
    var j1, j2 := [Jumping(test, BranchIfFalse(t.b.loc(c), l + 2))], Branches(t.body, c1, test + 2, hi);
    LandCond(code, test, t.b.loc(c), true, l + 2, ends);
    BranchesLand(t.body, c1, code, test + 2, hi);
    LandJump(code, hi - 2, at - hi, ends);
    LandJoin(code, j1, j2, at, hi - 2, test, test + 2, test + 2, hi - 2, ends, Starts(t.body, c1, test + 2) + iset{hi}, ends);
    LandJoin(code, j1 + j2, [Jumping(hi - 2, Jump(at - hi))], at, hi, at, hi - 2, hi - 2, hi, ends, ends, ends);
  }

  lemma PartsRepeat(t: Stmt, c: Ctx, at: int, brk: int)
    requires t.Repeat?
    ensures var hi := at + Len(t, c);
            && Branches(t, c, at, brk) == BranchesAll(t.ss, c, at, brk) + [Jumping(hi - 2, BranchIfFalse(t.b.loc(c), at - hi))]
            && Starts(t, c, at) == iset{at, at + Len(t, c)} + StartsAll(t.ss, c, at)
  {
    hide Len;
    hide BranchesAll;
    hide StartsAll;
  }

  lemma LandRepeat(t: Stmt, c: Ctx, code: seq<u16>, at: int, brk: int)
    requires t.Repeat? && Placed(code, at, Gen(t, c, at, brk))
    ensures Land(code, Branches(t, c, at, brk), at, at + Len(t, c), Starts(t, c, at) + iset{brk})
    decreases t, 1
  {
    hide *;
    ShapeRepeat(t, c, at, brk);
    PartsRepeat(t, c, at, brk);
    var w, mid, hi, ends := t.b.emit(c), at + LenAll(t.ss, c), at + Len(t, c), Starts(t, c, at) + iset{brk};
    var ss, br := GenAll(t.ss, c, at, brk), Encode(BranchIfFalse(t.b.loc(c), at - hi));
    Split(code, at, ss + w, br);
    Split(code, at, ss, w);
    BranchesLandAll(t.ss, c, code, at, brk);
    LandCond(code, hi - 2, t.b.loc(c), true, at - hi, ends);
    LandJoin(code, BranchesAll(t.ss, c, at, brk), [Jumping(hi - 2, BranchIfFalse(t.b.loc(c), at - hi))], at, hi,
             at, mid, hi - 2, hi, StartsAll(t.ss, c, at) + iset{brk}, ends, ends);
  }

  lemma PartsFor(t: Stmt, c: Ctx, at: int, brk: int)
    requires t.For?
    ensures var head := at + |t.first.assign(CounterCtx(t, c), t.x)| + |t.last.load(StopCtx(t, c))|;
            var c2 := BodyCtx(t, c);
            var l: int := Len(t.body, c2);
            && Branches(t, c, at, brk) ==
                 [Jumping(head + 1, BranchIfFalse(Flag(false), l + 2))] + Branches(t.body, c2, head + 3, head + 5 + l)
                 + [Jumping(head + 3 + l, CountBranch(Free(c), if t.up then 1 else -1, -(l + 5)))]
            && Starts(t, c, at) == iset{at, at + Len(t, c)} + (iset{head, head + 5 + l} + Starts(t.body, c2, head + 3))
            && head + 5 + l <= at + Len(t, c)
  {
    hide *;
    ForLen(t, c);
    ForBranches(t, c, at, brk);
    ForStarts(t, c, at);
  }

  lemma ForBranches(t: Stmt, c: Ctx, at: int, brk: int)
    requires t.For?
    ensures var head, c2 := at + ForPrefix(t, c), BodyCtx(t, c);
            var l: int := Len(t.body, c2);
            Branches(t, c, at, brk) ==
              [Jumping(head + 1, BranchIfFalse(Flag(false), l + 2))] + Branches(t.body, c2, head + 3, head + 5 + l)
              + [Jumping(head + 3 + l, CountBranch(Free(c), if t.up then 1 else -1, -(l + 5)))]
  {
    hide Free;
    hide ForPrefix;
    hide BodyCtx;
    hide Len;
    hide BranchIfFalse;
  }

  lemma ForStarts(t: Stmt, c: Ctx, at: int)
    requires t.For?
    ensures var head, c2 := at + ForPrefix(t, c), BodyCtx(t, c);
            Starts(t, c, at) == iset{at, at + Len(t, c)} + (iset{head, head + 5 + Len(t.body, c2)} + Starts(t.body, c2, head + 3))
  {
    hide ForPrefix;
    hide BodyCtx;
    hide CondCtx;
    hide SelCtx;
    hide ArmTest;
    hide Len;
    hide LenAll;
    hide LenArms;
    hide StartsAll;
    hide StartsArms;
  }

  lemma ForLen(t: Stmt, c: Ctx)
    requires t.For?
    ensures ForPrefix(t, c) == |t.first.assign(CounterCtx(t, c), t.x)| + |t.last.load(StopCtx(t, c))|
    ensures ForPrefix(t, c) + 5 + Len(t.body, BodyCtx(t, c)) <= Len(t, c)
  {
    hide Free;
    hide CounterCtx;
    hide StopCtx;
    hide BodyCtx;
    hide MoveOut;
    hide LenAll;
    hide LenArms;
  }

  // The loop of a for statement: its exit, the branches of its body, the way back.
  lemma LandLoop(t: Stmt, c: Ctx, code: seq<u16>, head: int, ends: iset<int>)
    requires t.For? && Placed(code, head, LoopWords(t, c, head))
    requires var fin := head + 5 + Len(t.body, BodyCtx(t, c));
             head in ends && fin in ends && Starts(t.body, BodyCtx(t, c), head + 3) <= ends
    ensures var c2 := BodyCtx(t, c);
            var l: int := Len(t.body, c2);
            Land(code, [Jumping(head + 1, BranchIfFalse(Flag(false), l + 2))] + Branches(t.body, c2, head + 3, head + 5 + l)
                       + [Jumping(head + 3 + l, CountBranch(Free(c), if t.up then 1 else -1, -(l + 5)))],
                 head, head + 5 + l, ends)
    decreases t, 0
  {
    hide *;
    var c2 := BodyCtx(t, c);
    var l: int := Len(t.body, c2);
    var fin := head + 5 + l;
    LoopParts(t, c, head);
    CondSize(Flag(false), l + 2);
    var test := Encode(CompareCounter(t.ty, t.up, Free(c), t.last.reg(StopCtx(t, c))));
    var br, body := Encode(BranchIfFalse(Flag(false), l + 2)), Gen(t.body, c2, head + 3, fin);
    var cnt := Encode(CountBranch(Free(c), if t.up then 1 else -1, -(l + 5)));
    Split(code, head, test + br + body, cnt);
    Split(code, head, test + br, body);
    Split(code, head, test, br);
    var j1, j2 := [Jumping(head + 1, BranchIfFalse(Flag(false), l + 2))], Branches(t.body, c2, head + 3, fin);
    var j3 := [Jumping(head + 3 + l, CountBranch(Free(c), if t.up then 1 else -1, -(l + 5)))];
    LandCond(code, head + 1, Flag(false), true, l + 2, ends);
    BranchesLand(t.body, c2, code, head + 3, fin);
    LandCount(code, head + 3 + l, Free(c), t.up, -(l + 5), ends);
    LandJoin(code, j1, j2, head, fin - 2, head + 1, head + 3, head + 3, fin - 2, ends, Starts(t.body, c2, head + 3) + iset{fin}, ends);
    LandJoin(code, j1 + j2, j3, head, fin, head, fin - 2, fin - 2, fin, ends, ends, ends);
  }

  lemma LandFor(t: Stmt, c: Ctx, code: seq<u16>, at: int, brk: int)
    requires t.For? && Placed(code, at, Gen(t, c, at, brk))
    ensures Land(code, Branches(t, c, at, brk), at, at + Len(t, c), Starts(t, c, at) + iset{brk})
    decreases t, 1
  {
    hide *;
    ShapeForBreaks(t, c, at, brk);
    PartsFor(t, c, at, brk);
    var init, load := t.first.assign(CounterCtx(t, c), t.x), t.last.load(StopCtx(t, c));
    var head, ends := at + |init| + |load|, Starts(t, c, at) + iset{brk};
    Split(code, at, init + load + LoopWords(t, c, head), Encode(MoveOut(Home(c, t.x), Free(c))));
    Split(code, at, init + load, LoopWords(t, c, head));
    LandLoop(t, c, code, head, ends);
    LandWiden(code, Branches(t, c, at, brk), head, head + 5 + Len(t.body, BodyCtx(t, c)), at, at + Len(t, c), ends, ends);
  }

  lemma PartsCase(t: Stmt, c: Ctx, at: int, brk: int)
    requires t.Case?
    ensures var base := at + |if t.sel.own.None? then t.sel.load(c) else []|;
            var tail := base + LenArms(t, t.arms, c);
            && Branches(t, c, at, brk) ==
                 BranchesArms(t, t.arms, c, base, brk, at + Len(t, c)) + BranchesAll(t.other, SelCtx(t, c), tail, brk)
            && Starts(t, c, at) == iset{at, at + Len(t, c)} + (StartsArms(t, t.arms, c, base) + StartsAll(t.other, SelCtx(t, c), tail))
  {
    hide Len;
    hide LenArms;
    hide BranchesArms;
    hide BranchesAll;
    hide StartsAll;
    hide StartsArms;
    hide SelCtx;
  }

  lemma LandCase(t: Stmt, c: Ctx, code: seq<u16>, at: int, brk: int)
    requires t.Case? && Placed(code, at, Gen(t, c, at, brk))
    ensures Land(code, Branches(t, c, at, brk), at, at + Len(t, c), Starts(t, c, at) + iset{brk})
    decreases t, 1
  {
    hide *;
    ShapeCaseBreaks(t, c, at, brk);
    PartsCase(t, c, at, brk);
    var c1 := SelCtx(t, c);
    var pre := if t.sel.own.None? then t.sel.load(c) else [];
    var base, hi, ends := at + |pre|, at + Len(t, c), Starts(t, c, at) + iset{brk};
    var tail := base + LenArms(t, t.arms, c);
    Split(code, at, pre + GenArms(t, t.arms, c, base, brk, hi), GenAll(t.other, c1, tail, brk));
    Split(code, at, pre, GenArms(t, t.arms, c, base, brk, hi));
    BranchesLandArms(t, t.arms, c, code, base, brk, hi);
    BranchesLandAll(t.other, c1, code, tail, brk);
    LandJoin(code, BranchesArms(t, t.arms, c, base, brk, hi), BranchesAll(t.other, c1, tail, brk), at, hi,
             base, tail, tail, hi, StartsArms(t, t.arms, c, base) + iset{brk, hi}, StartsAll(t.other, c1, tail) + iset{brk}, ends);
  }

  lemma PartsArms(t: Stmt, arms: seq<Arm>, c: Ctx, at: int, brk: int, out: int)
    requires t.Case?
    ensures |arms| == 0 ==> BranchesArms(t, arms, c, at, brk, out) == [] && LenArms(t, arms, c) == 0
    ensures |arms| > 0 ==>
              var front, last := arms[..|arms| - 1], arms[|arms| - 1];
              var mid := at + LenArms(t, front, c);
              && BranchesArms(t, arms, c, at, brk, out) == BranchesArms(t, front, c, at, brk, out) + BranchesArm(t, last, c, mid, brk, out)
              && StartsArms(t, arms, c, at) == StartsArms(t, front, c, at) + StartsArm(t, last, c, mid)
  {
    hide LenArm;
    hide BranchesArm;
    hide StartsArm;
  }

  lemma BranchesLandArms(t: Stmt, arms: seq<Arm>, c: Ctx, code: seq<u16>, at: int, brk: int, out: int)
    requires t.Case? && Placed(code, at, GenArms(t, arms, c, at, brk, out))
    ensures Land(code, BranchesArms(t, arms, c, at, brk, out), at, at + LenArms(t, arms, c), StartsArms(t, arms, c, at) + iset{brk, out})
    decreases arms, 0
  {
    hide *;
    PartsArms(t, arms, c, at, brk, out);
    if |arms| == 0 {
      LandNone(code, at, at, StartsArms(t, arms, c, at) + iset{brk, out});
    } else {
      var front, last := arms[..|arms| - 1], arms[|arms| - 1];
      var mid := at + LenArms(t, front, c);
      ShapeArmsBreaks(t, arms, c, at, brk, out);
      Split(code, at, GenArms(t, front, c, at, brk, out), GenArm(t, last, c, mid, brk, out));
      BranchesLandArms(t, front, c, code, at, brk, out);
      BranchesLandArm(t, last, c, code, mid, brk, out);
      LandJoin(code, BranchesArms(t, front, c, at, brk, out), BranchesArm(t, last, c, mid, brk, out), at, at + LenArms(t, arms, c),
               at, mid, mid, mid + LenArm(t, last, c),
               StartsArms(t, front, c, at) + iset{brk, out}, StartsArm(t, last, c, mid) + iset{brk, out},
               StartsArms(t, arms, c, at) + iset{brk, out});
    }
  }

  lemma PartsArm(t: Stmt, a: Arm, c: Ctx, at: int, brk: int, out: int)
    requires t.Case?
    ensures var test := at + |ArmTest(t, c, a.k)|;
            var l := Len(a.body, SelCtx(t, c));
            var m := test + 2 + l;
            && BranchesArm(t, a, c, at, brk, out) ==
                 [Jumping(test, BranchIfTrue(Flag(false), l + 2))] + Branches(a.body, SelCtx(t, c), test + 2, brk)
                 + [Jumping(m, Jump(out - m - 2))]
            && StartsArm(t, a, c, at) == iset{at, at + LenArm(t, a, c)} + Starts(a.body, SelCtx(t, c), test + 2)
  {
    hide Len;
    hide LenArm;
    hide Branches;
    hide Starts;
    hide ArmTest;
    hide SelCtx;
  }

  lemma BranchesLandArm(t: Stmt, a: Arm, c: Ctx, code: seq<u16>, at: int, brk: int, out: int)
    requires t.Case? && Placed(code, at, GenArm(t, a, c, at, brk, out))
    ensures Land(code, BranchesArm(t, a, c, at, brk, out), at, at + LenArm(t, a, c), StartsArm(t, a, c, at) + iset{brk, out})
    decreases a, 0
  {
    hide *;
    ShapeArmBreaks(t, a, c, at, brk, out);
    PartsArm(t, a, c, at, brk, out);
    var c1, w := SelCtx(t, c), ArmTest(t, c, a.k);
    var l: int := Len(a.body, c1);
    var br, test := Encode(BranchIfTrue(Flag(false), l + 2)), at + |w|;
    CondSize(Flag(false), l + 2);
    var m, ends := test + 2 + l, StartsArm(t, a, c, at) + iset{brk, out};
    var body, jmp := Gen(a.body, c1, test + 2, brk), Encode(Jump(out - m - 2));
    Split(code, at, w + br + body, jmp);
    Split(code, at, w + br, body);
    Split(code, at, w, br);
    var j1, j2 := [Jumping(test, BranchIfTrue(Flag(false), l + 2))], Branches(a.body, c1, test + 2, brk);
    LandCond(code, test, Flag(false), false, l + 2, ends);
    BranchesLand(a.body, c1, code, test + 2, brk);
    LandJump(code, m, out - m - 2, ends);
    LandJoin(code, j1, j2, at, m, test, test + 2, test + 2, m, ends, Starts(a.body, c1, test + 2) + iset{brk}, ends);
    LandJoin(code, j1 + j2, [Jumping(m, Jump(out - m - 2))], at, m + 2, at, m, m, m + 2, ends, ends, ends);
  }
}
