// Back-patching: filling the pending holes of a statement turns the words it was
// emitted with into the words it has for its real targets.
// src/Compiler/Compiler.c, src/Compiler/Emitter.c
module Backpatch {
  import opened Words
  import opened Isa
  import opened Codec
  import opened Statements
  import opened Preservation

  // ---- pending holes -----------------------------------------------------------------

  // Addresses of the jumps a statement leaves in Breaks: those of its breaks
  // that no while or for inside it has already patched.
  function BreakSites(t: Stmt, c: Ctx, at: int): seq<int>
    decreases t, 1
  {
    match t
    case Begin(ss) => SitesAll(ss, c, at)
    case IfThen(b, thn) => BreakSites(thn, CondCtx(t, c), at + |b.emit(c)| + 2)
    case IfElse(b, thn, els) =>
      var c1, mid := CondCtx(t, c), at + |b.emit(c)| + 2;
      BreakSites(thn, c1, mid) + BreakSites(els, c1, mid + Len(thn, c1) + 2)
    case Repeat(ss, b) => SitesAll(ss, c, at)
    case Case(sel, arms, other) =>
      var base := at + CasePrefix(t, c);
      SitesArms(t, arms, c, base) + SitesAll(other, SelCtx(t, c), base + LenArms(t, arms, c))
    case Break => [at]
    case _ => []
  }

  function SitesAll(ss: seq<Stmt>, c: Ctx, at: int): seq<int>
    decreases ss, 0
  {
    if |ss| == 0 then [] else
    var front := ss[..|ss| - 1];
    SitesAll(front, c, at) + BreakSites(ss[|ss| - 1], c, at + LenAll(front, c))
  }

  function SitesArms(t: Stmt, arms: seq<Arm>, c: Ctx, at: int): seq<int>
    requires t.Case?
    decreases arms, 0
  {
    if |arms| == 0 then [] else
    var front := arms[..|arms| - 1];
    SitesArms(t, front, c, at) + SitesArm(t, arms[|arms| - 1], c, at + LenArms(t, front, c))
  }

  function SitesArm(t: Stmt, a: Arm, c: Ctx, at: int): seq<int>
    requires t.Case?
    decreases a, 0
  {
    BreakSites(a.body, SelCtx(t, c), at + |ArmTest(t, c, a.k)| + 2)
  }

  // OutBranch: the jump behind each arm.
  function OutSites(t: Stmt, arms: seq<Arm>, c: Ctx, at: int): (sites: seq<int>)
    requires t.Case?
    ensures |sites| == |arms|
  {
    if |arms| == 0 then [] else
    var front := arms[..|arms| - 1];
    OutSites(t, front, c, at) + [at + LenArms(t, arms, c) - 2]
  }

  // ---- patching a list of sites --------------------------------------------------------

  function PatchAll(code: seq<u16>, sites: seq<int>, to: int): (r: seq<u16>)
    ensures |r| == |code|
  {
    if |sites| == 0 then code else
    var r := PatchAll(code, sites[..|sites| - 1], to);
    var from := sites[|sites| - 1];
    if Site(r, from) then Patch(r, from, to) else r
  }

  lemma {:induction false} PatchAppend(code: seq<u16>, a: seq<int>, b: seq<int>, to: int)
    ensures PatchAll(code, a + b, to) == PatchAll(PatchAll(code, a, to), b, to)
    decreases |b|
  {
    hide Patch;
    hide Site;
    if |b| == 0 {
      assert a + b == a;
    } else {
      assert (a + b)[..|a + b| - 1] == a + b[..|b| - 1];
      PatchAppend(code, a, b[..|b| - 1], to);
    }
  }

  predicate Unchanged(code: seq<u16>, r: seq<u16>, lo: int, hi: int) {
    |r| == |code| && forall k :: 0 <= k < |code| && !(lo <= k < hi) ==> r[k] == code[k]
  }

  lemma Keep(code: seq<u16>, r: seq<u16>, lo: int, hi: int, at: int, ws: seq<u16>)
    requires Unchanged(code, r, lo, hi) && Placed(code, at, ws) && (at + |ws| <= lo || hi <= at)
    ensures Placed(r, at, ws)
  {
    assert r[at..at + |ws|] == code[at..at + |ws|];
  }

  lemma Glue(code: seq<u16>, at: int, a: seq<u16>, b: seq<u16>)
    requires Placed(code, at, a) && Placed(code, at + |a|, b)
    ensures Placed(code, at, a + b)
  {
    var w := code[at..at + |a + b|];
    assert w == code[at..at + |a|] + code[at + |a|..at + |a| + |b|];
  }

  // Rewriting the middle of three parts.
  lemma Inner(code: seq<u16>, r: seq<u16>, at: int, pre: seq<u16>, x0: seq<u16>, x1: seq<u16>, post: seq<u16>)
    requires Placed(code, at, pre + x0 + post) && |x1| == |x0|
    requires Placed(r, at + |pre|, x1) && Unchanged(code, r, at + |pre|, at + |pre| + |x0|)
    ensures Placed(r, at, pre + x1 + post) && Unchanged(code, r, at, at + |pre + x0 + post|)
  {
    hide Placed;
    Split(code, at, pre + x0, post);
    Split(code, at, pre, x0);
    var m := at + |pre|;
    Keep(code, r, m, m + |x0|, at, pre);
    Keep(code, r, m, m + |x0|, m + |x0|, post);
    Glue(r, at, pre, x1);
    Glue(r, at, pre + x1, post);
  }

  lemma UnchangedTwice(a: seq<u16>, b: seq<u16>, d: seq<u16>, lo: int, hi: int, l1: int, h1: int, l2: int, h2: int)
    requires Unchanged(a, b, l1, h1) && Unchanged(b, d, l2, h2) && lo <= l1 && h1 <= hi && lo <= l2 && h2 <= hi
    ensures Unchanged(a, d, lo, hi)
  {
  }

  lemma JumpIsSite(off: int)
    ensures IsSite(Jump(off)) && Adjustment(Jump(off)) == 2 && forall o :: Retarget(Jump(off), o) == Jump(o)
  {
  }

  // One jump.
  lemma PatchJump(code: seq<u16>, at: int, off: int, to: int)
    requires Placed(code, at, Encode(Jump(off)))
    ensures var r := PatchAll(code, [at], to);
            Placed(r, at, Encode(Jump(to - at - 2))) && Unchanged(code, r, at, at + 2)
  {
    hide Encode;
    hide Patch;
    hide Site;
    JumpIsSite(off);
    PatchRetargets(code, at, to, Jump(off));
    assert PatchAll(code, [], to) == code;
    assert [at][..0] == [];
  }

  // ---- breaks -------------------------------------------------------------------------------

  lemma RetargetBreaks(t: Stmt, c: Ctx, code: seq<u16>, at: int, b0: int, to: int)
    requires Placed(code, at, Gen(t, c, at, b0))
    ensures var r := PatchAll(code, BreakSites(t, c, at), to);
            Placed(r, at, Gen(t, c, at, to)) && Unchanged(code, r, at, at + Len(t, c))
    decreases t, 2
  {
    hide *;
    LeafSites(t, c, at, b0);
    LeafSites(t, c, at, to);
    match t
    case Begin(ss) => RetargetAll(ss, c, code, at, b0, to);
    case IfThen(_, _) => RetargetIfThen(t, c, code, at, b0, to);
    case IfElse(_, _, _) => RetargetIfElse(t, c, code, at, b0, to);
    case Repeat(_, _) => RetargetRepeat(t, c, code, at, b0, to);
    case Case(_, _, _) => RetargetCase(t, c, code, at, b0, to);
    case Break => PatchJump(code, at, b0 - at - 2, to);
    case _ =>
      NoSites(t, c, at, b0, to);
      NothingToPatch(code, at, Gen(t, c, at, b0), to);
  }

  lemma NoSites(t: Stmt, c: Ctx, at: int, b0: int, to: int)
    requires t.Simple? || t.Assign? || t.While? || t.For?
    ensures BreakSites(t, c, at) == [] && Gen(t, c, at, b0) == Gen(t, c, at, to)
  {
  }

  lemma ShapeAllBreaks(ss: seq<Stmt>, c: Ctx, at: int, brk: int)
    requires |ss| > 0
    ensures var front, last := ss[..|ss| - 1], ss[|ss| - 1];
            var mid := at + LenAll(front, c);
            && GenAll(ss, c, at, brk) == GenAll(front, c, at, brk) + Gen(last, c, mid, brk)
            && LenAll(ss, c) == LenAll(front, c) + Len(last, c)
            && SitesAll(ss, c, at) == SitesAll(front, c, at) + BreakSites(last, c, mid)
  {
    hide Gen;
    hide Len;
    hide BreakSites;
  }

  lemma ShapeArmsBreaks(t: Stmt, arms: seq<Arm>, c: Ctx, at: int, brk: int, out: int)
    requires t.Case? && |arms| > 0
    ensures var front, last := arms[..|arms| - 1], arms[|arms| - 1];
            var mid := at + LenArms(t, front, c);
            && GenArms(t, arms, c, at, brk, out) == GenArms(t, front, c, at, brk, out) + GenArm(t, last, c, mid, brk, out)
            && LenArms(t, arms, c) == LenArms(t, front, c) + LenArm(t, last, c)
            && SitesArms(t, arms, c, at) == SitesArms(t, front, c, at) + SitesArm(t, last, c, mid)
            && OutSites(t, arms, c, at) == OutSites(t, front, c, at) + [mid + LenArm(t, last, c) - 2]
  {
    hide GenArm;
    hide LenArm;
    hide SitesArm;
  }

  lemma NothingToPatch(code: seq<u16>, at: int, ws: seq<u16>, to: int)
    ensures PatchAll(code, [], to) == code && Unchanged(code, code, at, at + |ws|)
  {
  }

  lemma NothingPlaced(code: seq<u16>, at: int, ws: seq<u16>, to: int)
    requires Placed(code, at, ws)
    ensures PatchAll(code, [], to) == code && Unchanged(code, code, at, at)
  {
  }

  lemma NoneAll(ss: seq<Stmt>, c: Ctx, at: int, brk: int)
    requires |ss| == 0
    ensures GenAll(ss, c, at, brk) == [] && LenAll(ss, c) == 0 && SitesAll(ss, c, at) == []
  {
  }

  lemma NoneArms(t: Stmt, arms: seq<Arm>, c: Ctx, at: int, brk: int, out: int)
    requires t.Case? && |arms| == 0
    ensures GenArms(t, arms, c, at, brk, out) == [] && LenArms(t, arms, c) == 0
    ensures SitesArms(t, arms, c, at) == [] && OutSites(t, arms, c, at) == []
  {
  }

  lemma RetargetAll(ss: seq<Stmt>, c: Ctx, code: seq<u16>, at: int, b0: int, to: int)
    requires Placed(code, at, GenAll(ss, c, at, b0))
    ensures var r := PatchAll(code, SitesAll(ss, c, at), to);
            Placed(r, at, GenAll(ss, c, at, to)) && Unchanged(code, r, at, at + LenAll(ss, c))
    decreases ss, 0
  {
    hide *;
    if |ss| == 0 {
      NoneAll(ss, c, at, b0);
      NoneAll(ss, c, at, to);
      NothingPlaced(code, at, [], to);
    } else {
      ShapeAllBreaks(ss, c, at, b0);
      ShapeAllBreaks(ss, c, at, to);
      var front, last := ss[..|ss| - 1], ss[|ss| - 1];
      var mid := at + LenAll(front, c);
      var hi := mid + Len(last, c);
      var s1, s2 := SitesAll(front, c, at), BreakSites(last, c, mid);
      PatchAppend(code, s1, s2, to);
      var r1 := PatchAll(code, s1, to);
      var r2 := PatchAll(r1, s2, to);
      Split(code, at, GenAll(front, c, at, b0), Gen(last, c, mid, b0));
      RetargetAll(front, c, code, at, b0, to);
      Keep(code, r1, at, mid, mid, Gen(last, c, mid, b0));
      RetargetBreaks(last, c, r1, mid, b0, to);
      Keep(r1, r2, mid, hi, at, GenAll(front, c, at, to));
      Glue(r2, at, GenAll(front, c, at, to), Gen(last, c, mid, to));
      UnchangedTwice(code, r1, r2, at, hi, at, mid, mid, hi);
    }
  }

  // The words around the parts that contain breaks do not depend on the target.
  lemma ShapeIfThenBreaks(t: Stmt, c: Ctx, at: int, brk: int)
    requires t.IfThen?
    ensures var c1 := CondCtx(t, c);
            var pre := t.b.emit(c) + Encode(BranchIfFalse(t.b.loc(c), Len(t.thn, c1)));
            && Gen(t, c, at, brk) == pre + Gen(t.thn, c1, at + |pre|, brk) + []
            && BreakSites(t, c, at) == BreakSites(t.thn, c1, at + |pre|)
  {
    hide CondCtx;
    hide GenAll;
    hide LenAll;
    hide SitesAll;
  }

  lemma RetargetIfThen(t: Stmt, c: Ctx, code: seq<u16>, at: int, b0: int, to: int)
    requires t.IfThen? && Placed(code, at, Gen(t, c, at, b0))
    ensures var r := PatchAll(code, BreakSites(t, c, at), to);
            Placed(r, at, Gen(t, c, at, to)) && Unchanged(code, r, at, at + Len(t, c))
    decreases t, 1
  {
    hide *;
    var c1 := CondCtx(t, c);
    ShapeIfThenBreaks(t, c, at, b0);
    ShapeIfThenBreaks(t, c, at, to);
    var pre := t.b.emit(c) + Encode(BranchIfFalse(t.b.loc(c), Len(t.thn, c1)));
    var mid := at + |pre|;
    Split(code, at, pre + Gen(t.thn, c1, mid, b0), []);
    Split(code, at, pre, Gen(t.thn, c1, mid, b0));
    RetargetBreaks(t.thn, c1, code, mid, b0, to);
    Inner(code, PatchAll(code, BreakSites(t, c, at), to), at, pre, Gen(t.thn, c1, mid, b0), Gen(t.thn, c1, mid, to), []);
  }

  lemma ShapeIfElseBreaks(t: Stmt, c: Ctx, at: int, brk: int)
    requires t.IfElse?
    ensures var c1 := CondCtx(t, c);
            var pre := t.b.emit(c) + Encode(BranchIfFalse(t.b.loc(c), Len(t.thn, c1) + 2));
            var jmp := Encode(Jump(Len(t.els, c1)));
            var mid := at + |pre|;
            var m := mid + Len(t.thn, c1) + |jmp|;
            && Gen(t, c, at, brk) == pre + Gen(t.thn, c1, mid, brk) + jmp + Gen(t.els, c1, m, brk)
            && BreakSites(t, c, at) == BreakSites(t.thn, c1, mid) + BreakSites(t.els, c1, m)
  {
    hide CondCtx;
    hide GenAll;
    hide LenAll;
    hide SitesAll;
    hide GenArms;
    hide LenArms;
    hide MoveOut;
    hide Encode;
    hide ArmTest;
  }

  lemma RetargetIfElse(t: Stmt, c: Ctx, code: seq<u16>, at: int, b0: int, to: int)
    requires t.IfElse? && Placed(code, at, Gen(t, c, at, b0))
    ensures var r := PatchAll(code, BreakSites(t, c, at), to);
            Placed(r, at, Gen(t, c, at, to)) && Unchanged(code, r, at, at + Len(t, c))
    decreases t, 1
  {
    hide *;
    var c1 := CondCtx(t, c);
    ShapeIfElseBreaks(t, c, at, b0);
    ShapeIfElseBreaks(t, c, at, to);
    var pre := t.b.emit(c) + Encode(BranchIfFalse(t.b.loc(c), Len(t.thn, c1) + 2));
    var jmp := Encode(Jump(Len(t.els, c1)));
    var mid := at + |pre|;
    var m := mid + Len(t.thn, c1) + |jmp|;
    var hi := at + Len(t, c);
    var a0, a1 := Gen(t.thn, c1, mid, b0), Gen(t.thn, c1, mid, to);
    var e0, e1 := Gen(t.els, c1, m, b0), Gen(t.els, c1, m, to);
    var s1, s2 := BreakSites(t.thn, c1, mid), BreakSites(t.els, c1, m);
    PatchAppend(code, s1, s2, to);
    var r1 := PatchAll(code, s1, to);
    var r2 := PatchAll(r1, s2, to);
    Split(code, at, pre + a0 + jmp, e0);
    Split(code, at, pre + a0, jmp);
    Split(code, at, pre, a0);
    RetargetBreaks(t.thn, c1, code, mid, b0, to);
    Inner(code, r1, at, pre, a0, a1, jmp);
    Keep(code, r1, mid, mid + |a0|, m, e0);
    RetargetBreaks(t.els, c1, r1, m, b0, to);
    Keep(r1, r2, m, m + |e0|, at, pre + a1 + jmp);
    Glue(r2, at, pre + a1 + jmp, e1);
    UnchangedTwice(code, r1, r2, at, hi, mid, mid + |a0|, m, m + |e0|);
  }

  lemma ShapeRepeatBreaks(t: Stmt, c: Ctx, at: int, brk: int)
    requires t.Repeat?
    ensures var l: int := Len(t, c);
            var post := t.b.emit(c) + Encode(BranchIfFalse(t.b.loc(c), -l));
            && Gen(t, c, at, brk) == [] + GenAll(t.ss, c, at, brk) + post
            && BreakSites(t, c, at) == SitesAll(t.ss, c, at)
  {
    hide GenAll;
    hide LenAll;
    hide SitesAll;
  }

  lemma RetargetRepeat(t: Stmt, c: Ctx, code: seq<u16>, at: int, b0: int, to: int)
    requires t.Repeat? && Placed(code, at, Gen(t, c, at, b0))
    ensures var r := PatchAll(code, BreakSites(t, c, at), to);
            Placed(r, at, Gen(t, c, at, to)) && Unchanged(code, r, at, at + Len(t, c))
    decreases t, 1
  {
    hide *;
    ShapeRepeatBreaks(t, c, at, b0);
    ShapeRepeatBreaks(t, c, at, to);
    var l: int := Len(t, c);
    var post := t.b.emit(c) + Encode(BranchIfFalse(t.b.loc(c), -l));
    Split(code, at, [] + GenAll(t.ss, c, at, b0), post);
    Split(code, at, [], GenAll(t.ss, c, at, b0));
    RetargetAll(t.ss, c, code, at, b0, to);
    Inner(code, PatchAll(code, BreakSites(t, c, at), to), at, [], GenAll(t.ss, c, at, b0), GenAll(t.ss, c, at, to), post);
  }

  lemma ShapeArmBreaks(t: Stmt, a: Arm, c: Ctx, at: int, brk: int, out: int)
    requires t.Case?
    ensures var pre := ArmTest(t, c, a.k) + Encode(BranchIfTrue(Flag(false), Len(a.body, SelCtx(t, c)) + 2));
            var mid := at + |pre|;
            var m := mid + Len(a.body, SelCtx(t, c));
            && GenArm(t, a, c, at, brk, out) == pre + Gen(a.body, SelCtx(t, c), mid, brk) + Encode(Jump(out - m - 2))
            && SitesArm(t, a, c, at) == BreakSites(a.body, SelCtx(t, c), mid)
            && at + LenArm(t, a, c) == m + 2 && |Encode(Jump(out - m - 2))| == 2
  {
    hide Gen;
    hide Len;
    hide BreakSites;
    hide ArmTest;
    hide SelCtx;
  }

  lemma RetargetArm(t: Stmt, a: Arm, c: Ctx, code: seq<u16>, at: int, b0: int, to: int, out: int)
    requires t.Case? && Placed(code, at, GenArm(t, a, c, at, b0, out))
    ensures var r := PatchAll(code, SitesArm(t, a, c, at), to);
            Placed(r, at, GenArm(t, a, c, at, to, out)) && Unchanged(code, r, at, at + LenArm(t, a, c))
    decreases a, 0
  {
    hide *;
    ShapeArmBreaks(t, a, c, at, b0, out);
    ShapeArmBreaks(t, a, c, at, to, out);
    var c1 := SelCtx(t, c);
    var pre := ArmTest(t, c, a.k) + Encode(BranchIfTrue(Flag(false), Len(a.body, c1) + 2));
    var mid := at + |pre|;
    var m := mid + Len(a.body, c1);
    var post := Encode(Jump(out - m - 2));
    Split(code, at, pre + Gen(a.body, c1, mid, b0), post);
    Split(code, at, pre, Gen(a.body, c1, mid, b0));
    RetargetBreaks(a.body, c1, code, mid, b0, to);
    Inner(code, PatchAll(code, SitesArm(t, a, c, at), to), at, pre, Gen(a.body, c1, mid, b0), Gen(a.body, c1, mid, to), post);
  }

  lemma RetargetArms(t: Stmt, arms: seq<Arm>, c: Ctx, code: seq<u16>, at: int, b0: int, to: int, out: int)
    requires t.Case? && Placed(code, at, GenArms(t, arms, c, at, b0, out))
    ensures var r := PatchAll(code, SitesArms(t, arms, c, at), to);
            Placed(r, at, GenArms(t, arms, c, at, to, out)) && Unchanged(code, r, at, at + LenArms(t, arms, c))
    decreases arms, 0
  {
    hide *;
    if |arms| == 0 {
      NoneArms(t, arms, c, at, b0, out);
      NoneArms(t, arms, c, at, to, out);
      NothingPlaced(code, at, [], to);
    } else {
      ShapeArmsBreaks(t, arms, c, at, b0, out);
      ShapeArmsBreaks(t, arms, c, at, to, out);
      var front, last := arms[..|arms| - 1], arms[|arms| - 1];
      var mid := at + LenArms(t, front, c);
      var hi := mid + LenArm(t, last, c);
      var s1, s2 := SitesArms(t, front, c, at), SitesArm(t, last, c, mid);
      PatchAppend(code, s1, s2, to);
      var r1 := PatchAll(code, s1, to);
      var r2 := PatchAll(r1, s2, to);
      Split(code, at, GenArms(t, front, c, at, b0, out), GenArm(t, last, c, mid, b0, out));
      RetargetArms(t, front, c, code, at, b0, to, out);
      Keep(code, r1, at, mid, mid, GenArm(t, last, c, mid, b0, out));
      RetargetArm(t, last, c, r1, mid, b0, to, out);
      Keep(r1, r2, mid, hi, at, GenArms(t, front, c, at, to, out));
      Glue(r2, at, GenArms(t, front, c, at, to, out), GenArm(t, last, c, mid, to, out));
      UnchangedTwice(code, r1, r2, at, hi, at, mid, mid, hi);
    }
  }

  lemma ShapeCaseBreaks(t: Stmt, c: Ctx, at: int, brk: int)
    requires t.Case?
    ensures var pre := if t.sel.own.None? then t.sel.load(c) else [];
            var base := at + |pre|;
            var tail := base + LenArms(t, t.arms, c);
            && Gen(t, c, at, brk) == pre + GenArms(t, t.arms, c, base, brk, at + Len(t, c)) + GenAll(t.other, SelCtx(t, c), tail, brk)
            && BreakSites(t, c, at) == SitesArms(t, t.arms, c, base) + SitesAll(t.other, SelCtx(t, c), tail)
            && at + Len(t, c) == tail + LenAll(t.other, SelCtx(t, c))
  {
    hide GenAll;
    hide LenAll;
    hide GenArms;
    hide LenArms;
    hide SitesAll;
    hide SitesArms;
    hide SelCtx;
  }

  lemma RetargetCase(t: Stmt, c: Ctx, code: seq<u16>, at: int, b0: int, to: int)
    requires t.Case? && Placed(code, at, Gen(t, c, at, b0))
    ensures var r := PatchAll(code, BreakSites(t, c, at), to);
            Placed(r, at, Gen(t, c, at, to)) && Unchanged(code, r, at, at + Len(t, c))
    decreases t, 1
  {
    hide *;
    ShapeCaseBreaks(t, c, at, b0);
    ShapeCaseBreaks(t, c, at, to);
    var c1 := SelCtx(t, c);
    var pre := if t.sel.own.None? then t.sel.load(c) else [];
    var base, hi := at + |pre|, at + Len(t, c);
    var tail := base + LenArms(t, t.arms, c);
    var a0, a1 := GenArms(t, t.arms, c, base, b0, hi), GenArms(t, t.arms, c, base, to, hi);
    var e0, e1 := GenAll(t.other, c1, tail, b0), GenAll(t.other, c1, tail, to);
    var s1, s2 := SitesArms(t, t.arms, c, base), SitesAll(t.other, c1, tail);
    PatchAppend(code, s1, s2, to);
    var r1 := PatchAll(code, s1, to);
    var r2 := PatchAll(r1, s2, to);
    Split(code, at, pre + a0, e0);
    Split(code, at, pre, a0);
    RetargetArms(t, t.arms, c, code, base, b0, to, hi);
    Keep(code, r1, base, tail, at, pre);
    Glue(r1, at, pre, a1);
    Keep(code, r1, base, tail, tail, e0);
    RetargetAll(t.other, c1, r1, tail, b0, to);
    Keep(r1, r2, tail, hi, at, pre + a1);
    Glue(r2, at, pre + a1, e1);
    UnchangedTwice(code, r1, r2, at, hi, base, tail, tail, hi);
  }

  // ---- the jumps behind the arms of a case -----------------------------------------------------

  lemma RetargetOut(t: Stmt, a: Arm, c: Ctx, code: seq<u16>, at: int, brk: int, o0: int, out: int)
    requires t.Case? && Placed(code, at, GenArm(t, a, c, at, brk, o0))
    ensures var r := PatchAll(code, [at + LenArm(t, a, c) - 2], out);
            Placed(r, at, GenArm(t, a, c, at, brk, out)) && Unchanged(code, r, at, at + LenArm(t, a, c))
  {
    hide *;
    ShapeArmBreaks(t, a, c, at, brk, o0);
    ShapeArmBreaks(t, a, c, at, brk, out);
    var c1 := SelCtx(t, c);
    var pre := ArmTest(t, c, a.k) + Encode(BranchIfTrue(Flag(false), Len(a.body, c1) + 2));
    var mid := at + |pre|;
    var m := mid + Len(a.body, c1);
    var body := pre + Gen(a.body, c1, mid, brk);
    Split(code, at, body, Encode(Jump(o0 - m - 2)));
    PatchJump(code, m, o0 - m - 2, out);
    var r := PatchAll(code, [m], out);
    Keep(code, r, m, m + 2, at, body);
    Glue(r, at, body, Encode(Jump(out - m - 2)));
    UnchangedTwice(code, r, r, at, m + 2, m, m + 2, m, m);
  }

  lemma {:induction false} RetargetOuts(t: Stmt, arms: seq<Arm>, c: Ctx, code: seq<u16>, at: int, brk: int, o0: int, out: int)
    requires t.Case? && Placed(code, at, GenArms(t, arms, c, at, brk, o0))
    ensures var r := PatchAll(code, OutSites(t, arms, c, at), out);
            Placed(r, at, GenArms(t, arms, c, at, brk, out)) && Unchanged(code, r, at, at + LenArms(t, arms, c))
    decreases |arms|
  {
    hide *;
    if |arms| == 0 {
      NoneArms(t, arms, c, at, brk, o0);
      NoneArms(t, arms, c, at, brk, out);
      NothingPlaced(code, at, [], out);
    } else {
      ShapeArmsBreaks(t, arms, c, at, brk, o0);
      ShapeArmsBreaks(t, arms, c, at, brk, out);
      var front, last := arms[..|arms| - 1], arms[|arms| - 1];
      var mid := at + LenArms(t, front, c);
      var hi := mid + LenArm(t, last, c);
      var s1, s2 := OutSites(t, front, c, at), [hi - 2];
      PatchAppend(code, s1, s2, out);
      var r1 := PatchAll(code, s1, out);
      var r2 := PatchAll(r1, s2, out);
      Split(code, at, GenArms(t, front, c, at, brk, o0), GenArm(t, last, c, mid, brk, o0));
      RetargetOuts(t, front, c, code, at, brk, o0, out);
      Keep(code, r1, at, mid, mid, GenArm(t, last, c, mid, brk, o0));
      RetargetOut(t, last, c, r1, mid, brk, o0, out);
      Keep(r1, r2, mid, hi, at, GenArms(t, front, c, at, brk, out));
      Glue(r2, at, GenArms(t, front, c, at, brk, out), GenArm(t, last, c, mid, brk, out));
      UnchangedTwice(code, r1, r2, at, hi, at, mid, mid, hi);
    }
  }

  // ---- what a pending hole is -------------------------------------------------------------------

  // Distinct addresses, in order, inside [lo, hi), each holding an emitted jump.
  ghost predicate Holes(code: seq<u16>, sites: seq<int>, lo: int, hi: int, b0: int) {
    (forall i :: 0 <= i < |sites| ==> Hole(code, sites[i], lo, hi, b0))
    && (forall i, j :: 0 <= i < j < |sites| ==> sites[i] + 2 <= sites[j])
  }

  ghost predicate Hole(code: seq<u16>, at: int, lo: int, hi: int, b0: int) {
    lo <= at && at + 2 <= hi && Placed(code, at, Encode(Jump(b0 - at - 2)))
  }

  lemma HolesJoin(code: seq<u16>, a: seq<int>, b: seq<int>, lo: int, h1: int, l2: int, hi: int, b0: int)
    requires Holes(code, a, lo, h1, b0) && Holes(code, b, l2, hi, b0) && lo <= l2 && h1 <= l2 && h1 <= hi
    ensures Holes(code, a + b, lo, hi, b0)
  {
    hide Placed;
    hide Encode;
    var s := a + b;
    forall i | 0 <= i < |s|
      ensures Hole(code, s[i], lo, hi, b0)
    {
      assert if i < |a| then Hole(code, a[i], lo, h1, b0) else Hole(code, b[i - |a|], l2, hi, b0);
    }
    forall i, j | 0 <= i < j < |s|
      ensures s[i] + 2 <= s[j]
    {
      if i < |a| <= j {
        assert Hole(code, a[i], lo, h1, b0) && Hole(code, b[j - |a|], l2, hi, b0);
      }
    }
  }

  lemma HolesWiden(code: seq<u16>, a: seq<int>, lo: int, hi: int, lo': int, hi': int, b0: int)
    requires Holes(code, a, lo, hi, b0) && lo' <= lo && hi <= hi'
    ensures Holes(code, a, lo', hi', b0)
  {
    hide Placed;
    hide Encode;
    forall i | 0 <= i < |a|
      ensures Hole(code, a[i], lo', hi', b0)
    {
      assert Hole(code, a[i], lo, hi, b0);
    }
  }

  // Every pending hole of a statement is a distinct emitted jump inside it.
  lemma BreaksAreHoles(t: Stmt, c: Ctx, code: seq<u16>, at: int, b0: int)
    requires Placed(code, at, Gen(t, c, at, b0))
    ensures Holes(code, BreakSites(t, c, at), at, at + Len(t, c), b0)
    decreases t, 2
  {
    hide *;
    match t
    case Begin(ss) =>
      LeafSites(t, c, at, b0);
      BreaksAreHolesAll(ss, c, code, at, b0);
    case IfThen(_, _) => HolesIfThen(t, c, code, at, b0);
    case IfElse(_, _, _) => HolesIfElse(t, c, code, at, b0);
    case Repeat(_, _) => HolesRepeat(t, c, code, at, b0);
    case Case(_, _, _) => HolesCase(t, c, code, at, b0);
    case Break =>
      LeafSites(t, c, at, b0);
      OneHole(code, at, b0);
    case _ =>
      NoSites(t, c, at, b0, b0);
      NoHoles(code, at, at + Len(t, c), b0);
  }

  lemma HolesIfThen(t: Stmt, c: Ctx, code: seq<u16>, at: int, b0: int)
    requires t.IfThen? && Placed(code, at, Gen(t, c, at, b0))
    ensures Holes(code, BreakSites(t, c, at), at, at + Len(t, c), b0)
    decreases t, 1
  {
    hide *;
    var c1 := CondCtx(t, c);
    ShapeIfThenBreaks(t, c, at, b0);
    var pre := t.b.emit(c) + Encode(BranchIfFalse(t.b.loc(c), Len(t.thn, c1)));
    var mid := at + |pre|;
    Split(code, at, pre + Gen(t.thn, c1, mid, b0), []);
    Split(code, at, pre, Gen(t.thn, c1, mid, b0));
    BreaksAreHoles(t.thn, c1, code, mid, b0);
    HolesWiden(code, BreakSites(t, c, at), mid, mid + Len(t.thn, c1), at, at + Len(t, c), b0);
  }

  lemma HolesIfElse(t: Stmt, c: Ctx, code: seq<u16>, at: int, b0: int)
    requires t.IfElse? && Placed(code, at, Gen(t, c, at, b0))
    ensures Holes(code, BreakSites(t, c, at), at, at + Len(t, c), b0)
    decreases t, 1
  {
    hide *;
    var c1 := CondCtx(t, c);
    ShapeIfElseBreaks(t, c, at, b0);
    var pre := t.b.emit(c) + Encode(BranchIfFalse(t.b.loc(c), Len(t.thn, c1) + 2));
    var jmp := Encode(Jump(Len(t.els, c1)));
    var mid := at + |pre|;
    var thn := Gen(t.thn, c1, mid, b0);
    var m := mid + |thn| + |jmp|;
    var els := Gen(t.els, c1, m, b0);
    Split(code, at, pre + thn + jmp, els);
    Split(code, at, pre + thn, jmp);
    Split(code, at, pre, thn);
    BreaksAreHoles(t.thn, c1, code, mid, b0);
    BreaksAreHoles(t.els, c1, code, m, b0);
    HolesWiden(code, BreakSites(t.thn, c1, mid), mid, mid + |thn|, at, mid + |thn|, b0);
    HolesJoin(code, BreakSites(t.thn, c1, mid), BreakSites(t.els, c1, m), at, mid + |thn|, m, m + |els|, b0);
  }

  lemma HolesRepeat(t: Stmt, c: Ctx, code: seq<u16>, at: int, b0: int)
    requires t.Repeat? && Placed(code, at, Gen(t, c, at, b0))
    ensures Holes(code, BreakSites(t, c, at), at, at + Len(t, c), b0)
    decreases t, 1
  {
    hide *;
    ShapeRepeatBreaks(t, c, at, b0);
    var l: int := Len(t, c);
    var post := t.b.emit(c) + Encode(BranchIfFalse(t.b.loc(c), -l));
    Split(code, at, [] + GenAll(t.ss, c, at, b0), post);
    Split(code, at, [], GenAll(t.ss, c, at, b0));
    BreaksAreHolesAll(t.ss, c, code, at, b0);
    HolesWiden(code, BreakSites(t, c, at), at, at + LenAll(t.ss, c), at, at + Len(t, c), b0);
  }

  lemma HolesCase(t: Stmt, c: Ctx, code: seq<u16>, at: int, b0: int)
    requires t.Case? && Placed(code, at, Gen(t, c, at, b0))
    ensures Holes(code, BreakSites(t, c, at), at, at + Len(t, c), b0)
    decreases t, 1
  {
    hide *;
    ShapeCaseBreaks(t, c, at, b0);
    var c1 := SelCtx(t, c);
    var pre := if t.sel.own.None? then t.sel.load(c) else [];
    var base, hi := at + |pre|, at + Len(t, c);
    var tail := base + LenArms(t, t.arms, c);
    Split(code, at, pre + GenArms(t, t.arms, c, base, b0, hi), GenAll(t.other, c1, tail, b0));
    Split(code, at, pre, GenArms(t, t.arms, c, base, b0, hi));
    BreaksAreHolesArms(t, t.arms, c, code, base, b0, hi);
    BreaksAreHolesAll(t.other, c1, code, tail, b0);
    HolesWiden(code, SitesArms(t, t.arms, c, base), base, tail, at, tail, b0);
    HolesJoin(code, SitesArms(t, t.arms, c, base), SitesAll(t.other, c1, tail), at, tail, tail, hi, b0);
  }

  lemma LeafSites(t: Stmt, c: Ctx, at: int, b0: int)
    ensures t.Begin? ==> BreakSites(t, c, at) == SitesAll(t.ss, c, at) && Gen(t, c, at, b0) == GenAll(t.ss, c, at, b0)
                         && Len(t, c) == LenAll(t.ss, c)
    ensures t.Break? ==> BreakSites(t, c, at) == [at] && Gen(t, c, at, b0) == Encode(Jump(b0 - at - 2)) && Len(t, c) == 2
  {
    hide GenAll;
    hide SitesAll;
    hide LenAll;
  }

  lemma OneHole(code: seq<u16>, at: int, b0: int)
    requires Placed(code, at, Encode(Jump(b0 - at - 2)))
    ensures Holes(code, [at], at, at + 2, b0)
  {
  }

  lemma NoHoles(code: seq<u16>, lo: int, hi: int, b0: int)
    ensures Holes(code, [], lo, hi, b0)
  {
  }

  lemma BreaksAreHolesAll(ss: seq<Stmt>, c: Ctx, code: seq<u16>, at: int, b0: int)
    requires Placed(code, at, GenAll(ss, c, at, b0))
    ensures Holes(code, SitesAll(ss, c, at), at, at + LenAll(ss, c), b0)
    decreases ss, 0
  {
    hide *;
    if |ss| == 0 {
      NoneAll(ss, c, at, b0);
      NoHoles(code, at, at, b0);
    } else {
      ShapeAllBreaks(ss, c, at, b0);
      var front, last := ss[..|ss| - 1], ss[|ss| - 1];
      var mid := at + LenAll(front, c);
      Split(code, at, GenAll(front, c, at, b0), Gen(last, c, mid, b0));
      BreaksAreHolesAll(front, c, code, at, b0);
      BreaksAreHoles(last, c, code, mid, b0);
      HolesJoin(code, SitesAll(front, c, at), BreakSites(last, c, mid), at, mid, mid, mid + Len(last, c), b0);
    }
  }

  lemma BreaksAreHolesArm(t: Stmt, a: Arm, c: Ctx, code: seq<u16>, at: int, b0: int, out: int)
    requires t.Case? && Placed(code, at, GenArm(t, a, c, at, b0, out))
    ensures Holes(code, SitesArm(t, a, c, at), at, at + LenArm(t, a, c), b0)
    decreases a, 0
  {
    hide *;
    ShapeArmBreaks(t, a, c, at, b0, out);
    var c1 := SelCtx(t, c);
    var pre := ArmTest(t, c, a.k) + Encode(BranchIfTrue(Flag(false), Len(a.body, c1) + 2));
    var mid := at + |pre|;
    var m := mid + Len(a.body, c1);
    Split(code, at, pre + Gen(a.body, c1, mid, b0), Encode(Jump(out - m - 2)));
    Split(code, at, pre, Gen(a.body, c1, mid, b0));
    BreaksAreHoles(a.body, c1, code, mid, b0);
    HolesWiden(code, SitesArm(t, a, c, at), mid, m, at, m + 2, b0);
  }

  lemma BreaksAreHolesArms(t: Stmt, arms: seq<Arm>, c: Ctx, code: seq<u16>, at: int, b0: int, out: int)
    requires t.Case? && Placed(code, at, GenArms(t, arms, c, at, b0, out))
    ensures Holes(code, SitesArms(t, arms, c, at), at, at + LenArms(t, arms, c), b0)
    decreases arms, 0
  {
    hide *;
    if |arms| == 0 {
      NoneArms(t, arms, c, at, b0, out);
      NoHoles(code, at, at, b0);
    } else {
      ShapeArmsBreaks(t, arms, c, at, b0, out);
      var front, last := arms[..|arms| - 1], arms[|arms| - 1];
      var mid := at + LenArms(t, front, c);
      Split(code, at, GenArms(t, front, c, at, b0, out), GenArm(t, last, c, mid, b0, out));
      BreaksAreHolesArms(t, front, c, code, at, b0, out);
      BreaksAreHolesArm(t, last, c, code, mid, b0, out);
      HolesJoin(code, SitesArms(t, front, c, at), SitesArm(t, last, c, mid), at, mid, mid, mid + LenArm(t, last, c), b0);
    }
  }

  // The out jumps, too, are holes, whatever they were emitted with.
  lemma {:induction false} OutsAreSites(t: Stmt, arms: seq<Arm>, c: Ctx, code: seq<u16>, at: int, brk: int)
    requires t.Case? && Placed(code, at, GenArms(t, arms, c, at, brk, 0))
    ensures Holes(code, OutSites(t, arms, c, at), at, at + LenArms(t, arms, c), 0)
    decreases |arms|
  {
    hide *;
    if |arms| == 0 {
      NoneArms(t, arms, c, at, brk, 0);
      NoHoles(code, at, at, 0);
    } else {
      ShapeArmsBreaks(t, arms, c, at, brk, 0);
      var front, last := arms[..|arms| - 1], arms[|arms| - 1];
      var mid := at + LenArms(t, front, c);
      var hi := mid + LenArm(t, last, c);
      Split(code, at, GenArms(t, front, c, at, brk, 0), GenArm(t, last, c, mid, brk, 0));
      OutsAreSites(t, front, c, code, at, brk);
      OutIsHole(t, last, c, code, mid, brk);
      HolesJoin(code, OutSites(t, front, c, at), [hi - 2], at, mid, mid, hi, 0);
    }
  }

  lemma OutIsHole(t: Stmt, a: Arm, c: Ctx, code: seq<u16>, at: int, brk: int)
    requires t.Case? && Placed(code, at, GenArm(t, a, c, at, brk, 0))
    ensures Holes(code, [at + LenArm(t, a, c) - 2], at, at + LenArm(t, a, c), 0)
  {
    hide *;
    ShapeArmBreaks(t, a, c, at, brk, 0);
    var c1 := SelCtx(t, c);
    var pre := ArmTest(t, c, a.k) + Encode(BranchIfTrue(Flag(false), Len(a.body, c1) + 2));
    var mid := at + |pre|;
    var m := mid + Len(a.body, c1);
    Split(code, at, pre + Gen(a.body, c1, mid, brk), Encode(Jump(0 - m - 2)));
    OneHole(code, m, 0);
    HolesWiden(code, [m], m, m + 2, at, m + 2, 0);
  }

  lemma HoleAt(code: seq<u16>, sites: seq<int>, lo: int, hi: int, b0: int, i: nat)
    requires Holes(code, sites, lo, hi, b0) && i < |sites|
    ensures lo <= sites[i] && Placed(code, sites[i], Encode(Jump(b0 - sites[i] - 2)))
    ensures i > 0 ==> lo <= sites[i - 1] && sites[i - 1] + 2 <= sites[i]
  {
    assert Hole(code, sites[i], lo, hi, b0);
    if i > 0 { assert Hole(code, sites[i - 1], lo, hi, b0); }
  }

  // While earlier holes are filled, the later ones still hold their jumps.
  lemma NextIsSite(code: seq<u16>, sites: seq<int>, lo: int, hi: int, b0: int, to: int, i: nat)
    requires Holes(code, sites, lo, hi, b0) && i < |sites|
    ensures var r := PatchAll(code, sites[..i], to);
            && Site(r, sites[i])
            && PatchAll(code, sites[..i + 1], to) == Patch(r, sites[i], to)
            && Unchanged(code, r, lo, sites[i])
  {
    FilledBefore(code, sites, lo, hi, b0, to, i);
    HoleAt(code, sites, lo, hi, b0, i);
    hide Encode;
    hide Site;
    hide Patch;
    hide Placed;
    hide Holes;
    var r := PatchAll(code, sites[..i], to);
    var j := Jump(b0 - sites[i] - 2);
    Keep(code, r, lo, sites[i], sites[i], Encode(j));
    JumpIsSite(b0 - sites[i] - 2);
    PatchRetargets(r, sites[i], to, j);
    assert sites[..i + 1][..i] == sites[..i];
  }

  lemma {:induction false} FilledBefore(code: seq<u16>, sites: seq<int>, lo: int, hi: int, b0: int, to: int, i: nat)
    requires Holes(code, sites, lo, hi, b0) && i < |sites|
    ensures Unchanged(code, PatchAll(code, sites[..i], to), lo, sites[i])
    decreases i
  {
    hide *;
    HoleAt(code, sites, lo, hi, b0, i);
    if i == 0 {
      NothingToPatch(code, sites[i], [], to);
      UnchangedTwice(code, code, code, lo, sites[i], sites[i], sites[i], sites[i], sites[i]);
    } else {
      FilledBefore(code, sites, lo, hi, b0, to, i - 1);
      HoleAt(code, sites, lo, hi, b0, i - 1);
      var r := PatchAll(code, sites[..i - 1], to);
      var s := sites[i - 1];
      Keep(code, r, lo, s, s, Encode(Jump(b0 - s - 2)));
      PatchJump(r, s, b0 - s - 2, to);
      PatchAppend(code, sites[..i - 1], [s], to);
      assert sites[..i] == sites[..i - 1] + [s];
      UnchangedTwice(code, r, PatchAll(r, [s], to), lo, sites[i], lo, s, s, s + 2);
    }
  }
}
