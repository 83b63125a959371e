// Semantic preservation: running the finished words of a statement from its
// first address reaches exactly the address, and the represented store, that
// the statement's meaning gives.
module Simulation {
  import opened Words
  import opened Isa
  import opened Machine
  import opened Codec
  import opened Statements
  import opened Preservation

  // `n` steps from `lo` with `d` match the result `r`: normal completion reaches
  // `hi`, a break reaches `brk`, and a meaning that needs more than `fuel` loop
  // iterations keeps the machine inside [lo, hi) for at least `fuel` steps.
  ghost predicate Simulates(c: Ctx, code: seq<u16>, lo: int, hi: int, brk: int, d: Data, r: Result, fuel: nat, n: nat, end: VM) {
    && Runs(code, lo, hi, VM(lo, d), n, end)
    && match r
       case Done(s) => end.ip == hi && Rep(c, end.d, s) && Keeps(c, d, end.d)
       case Broke(s) => end.ip == brk && Rep(c, end.d, s) && Keeps(c, d, end.d)
       case Timeout => n >= fuel
  }

  // ---- ways to put simulations together -------------------------------------------------

  lemma Finish(c: Ctx, code: seq<u16>, lo: int, hi: int, brk: int, d: Data, s: Store, fuel: nat, n: nat, d': Data)
    requires Runs(code, lo, hi, VM(lo, d), n, VM(hi, d')) && Rep(c, d', s) && Keeps(c, d, d')
    ensures Simulates(c, code, lo, hi, brk, d, Done(s), fuel, n, VM(hi, d'))
  {
  }

  lemma Prefixed(c: Ctx, code: seq<u16>, lo: int, mid: int, hi: int, brk: int, d: Data, n1: nat, d1: Data,
                 r: Result, fuel: nat, n2: nat, end: VM)
    requires lo <= mid && Runs(code, lo, hi, VM(lo, d), n1, VM(mid, d1)) && Keeps(c, d, d1)
    requires Simulates(c, code, mid, hi, brk, d1, r, fuel, n2, end)
    ensures Simulates(c, code, lo, hi, brk, d, r, fuel, n1 + n2, end)
  {
    hide Runs;
    hide Rep;
    hide Keeps;
    Join(code, lo, hi, VM(lo, d), lo, hi, n1, VM(mid, d1), mid, hi, n2, end);
    if !r.Timeout? {
      KeepsJoin(c, d, d1, end.d);
    }
  }

  // A part [mid, m) of [lo, hi), reached by a prefix.
  lemma Inside(c: Ctx, code: seq<u16>, lo: int, mid: int, m: int, hi: int, brk: int, d: Data, n1: nat, d1: Data,
               r: Result, fuel: nat, n2: nat, end: VM)
    requires lo <= mid && m <= hi && Runs(code, lo, hi, VM(lo, d), n1, VM(mid, d1)) && Keeps(c, d, d1)
    requires Simulates(c, code, mid, m, brk, d1, r, fuel, n2, end)
    ensures Runs(code, lo, hi, VM(lo, d), n1 + n2, end)
    ensures !r.Timeout? ==> Rep(c, end.d, r.s) && Keeps(c, d, end.d) && end == VM(if r.Done? then m else brk, end.d)
    ensures !r.Done? ==> Simulates(c, code, lo, hi, brk, d, r, fuel, n1 + n2, end)
  {
    hide Runs;
    hide Rep;
    hide Keeps;
    Join(code, lo, hi, VM(lo, d), lo, hi, n1, VM(mid, d1), mid, m, n2, end);
    if !r.Timeout? {
      KeepsJoin(c, d, d1, end.d);
    }
  }

  // A loop iteration of at least one step, then the rest of the loop.
  lemma Again(c: Ctx, code: seq<u16>, at: int, hi: int, brk: int, d: Data, n1: nat, d1: Data,
              r: Result, fuel: nat, n2: nat, end: VM)
    requires fuel > 0 && n1 >= 1 && Runs(code, at, hi, VM(at, d), n1, VM(at, d1)) && Keeps(c, d, d1)
    requires Simulates(c, code, at, hi, brk, d1, r, fuel - 1, n2, end)
    ensures Simulates(c, code, at, hi, brk, d, r, fuel, n1 + n2, end)
  {
    hide Runs;
    hide Rep;
    hide Keeps;
    Prefixed(c, code, at, at, hi, brk, d, n1, d1, r, fuel - 1, n2, end);
  }

  lemma NoFuel(c: Ctx, code: seq<u16>, lo: int, hi: int, brk: int, d: Data)
    ensures Simulates(c, code, lo, hi, brk, d, Timeout, 0, 0, VM(lo, d))
  {
  }

  // The condition and the branch behind it.
  lemma Test(b: BoolExpr, c: Ctx, code: seq<u16>, at: int, off: int, d: Data, s: Store) returns (n: nat, d': Data)
    requires BoolOk(b, c) && WellFormed(BranchIfFalse(b.loc(c), off)) && Rep(c, d, s)
    requires Placed(code, at, b.emit(c)) && Placed(code, at + |b.emit(c)|, Encode(BranchIfFalse(b.loc(c), off)))
    ensures var m := at + |b.emit(c)| + 2;
            Runs(code, at, m, VM(at, d), n, VM(if b.val(s) then m else m + off, d'))
    ensures n >= 1 && Rep(c, d', b.upd(s)) && Keeps(c, d, d')
  {
    hide *;
    var w := |b.emit(c)|;
    n, d' := UseBool(b, c, code, at, d, s);
    TakeBranch(code, at + w, b.loc(c), true, off, d');
    var end := VM(if b.val(s) then at + w + 2 else at + w + 2 + off, d');
    Join(code, at, at + w + 2, VM(at, d), at, at + w, n, VM(at + w, d'), at + w, at + w + 2, 1, end);
    n := n + 1;
  }

  // ---- what each statement unfolds to ------------------------------------------------------

  lemma ShapeIfThen(t: Stmt, c: Ctx, at: int, brk: int)
    requires t.IfThen?
    ensures var c1 := CondCtx(t, c);
            var w, br := t.b.emit(c), Encode(BranchIfFalse(t.b.loc(c), Len(t.thn, c1)));
            && |br| == 2 && Len(t, c) == |w| + 2 + Len(t.thn, c1)
            && Gen(t, c, at, brk) == w + br + Gen(t.thn, c1, at + |w| + 2, brk)
            && (Ok(t, c, at, brk) ==> BoolOk(t.b, c) && Intact(t, c) && WellFormed(BranchIfFalse(t.b.loc(c), Len(t.thn, c)))
                                      && Ok(t.thn, c, at + |w| + 2, brk))
  {
    hide BoolOk;
    hide WellFormed;
    hide LenAll;
    hide GenAll;
    hide LenArms;
    hide GenArms;
    hide OkAll;
    hide OkArms;
    hide OkFor;
    hide MoveOut;
    hide CondCtx;
    hide Intact;
  }

  lemma ShapeIfElse(t: Stmt, c: Ctx, at: int, brk: int)
    requires t.IfElse?
    ensures var c1 := CondCtx(t, c);
            var w, br := t.b.emit(c), Encode(BranchIfFalse(t.b.loc(c), Len(t.thn, c1) + 2));
            var mid := at + |w| + 2;
            var m := mid + Len(t.thn, c1);
            var jmp := Encode(Jump(Len(t.els, c1)));
            && |br| == 2 && |jmp| == 2 && at + Len(t, c) == m + 2 + Len(t.els, c1)
            && Gen(t, c, at, brk) == w + br + Gen(t.thn, c1, mid, brk) + jmp + Gen(t.els, c1, m + 2, brk)
  {
    hide LenAll;
    hide GenAll;
    hide LenArms;
    hide GenArms;
    hide MoveOut;
    hide Encode;
    hide WordsOf;
    hide CondCtx;
  }

  lemma OkIfElse(t: Stmt, c: Ctx, at: int, brk: int)
    requires t.IfElse? && Ok(t, c, at, brk)
    ensures var mid := at + |t.b.emit(c)| + 2;
            && BoolOk(t.b, c) && Intact(t, c) && WellFormed(BranchIfFalse(t.b.loc(c), Len(t.thn, c) + 2))
            && WellFormed(Jump(Len(t.els, c))) && Ok(t.thn, c, mid, brk) && Ok(t.els, c, mid + Len(t.thn, c) + 2, brk)
  {
    hide BoolOk;
    hide WellFormed;
    hide Len;
    hide OkAll;
    hide OkArms;
    hide OkFor;
  }

  lemma ShapeWhile(t: Stmt, c: Ctx, at: int, brk: int)
    requires t.While?
    ensures var c1 := CondCtx(t, c);
            var l: int := Len(t.body, c1);
            var w, br := t.b.emit(c), Encode(BranchIfFalse(t.b.loc(c), l + 2));
            var mid := at + |w| + 2;
            var hi := mid + l + 2;
            var jmp := Encode(Jump(at - hi));
            && |br| == 2 && |jmp| == 2 && at + Len(t, c) == hi
            && Gen(t, c, at, brk) == w + br + Gen(t.body, c1, mid, hi) + jmp
  {
    WhileWords(t, c, at, brk);
    hide *;
    var l: int := Len(t.body, CondCtx(t, c));
    JumpWords(t.b.loc(c), l + 2, at - (at + |t.b.emit(c)| + 2 + l + 2));
  }

  lemma WhileWords(t: Stmt, c: Ctx, at: int, brk: int)
    requires t.While?
    ensures var c1 := CondCtx(t, c);
            var l: int := Len(t.body, c1);
            var mid := at + |t.b.emit(c)| + 2;
            var hi := mid + l + 2;
            && at + Len(t, c) == hi
            && Gen(t, c, at, brk) == t.b.emit(c) + Encode(BranchIfFalse(t.b.loc(c), l + 2)) + Gen(t.body, c1, mid, hi) + Encode(Jump(at - hi))
  {
    hide Encode;
    hide LenAll;
    hide GenAll;
    hide LenArms;
    hide GenArms;
    hide MoveOut;
    hide BranchIfFalse;
    hide CondCtx;
  }

  lemma OkWhile(t: Stmt, c: Ctx, at: int, brk: int)
    requires t.While? && Ok(t, c, at, brk)
    ensures var l: int := Len(t.body, c);
            var mid := at + |t.b.emit(c)| + 2;
            var hi := mid + l + 2;
            && BoolOk(t.b, c) && Intact(t, c) && WellFormed(BranchIfFalse(t.b.loc(c), l + 2))
            && WellFormed(Jump(at - hi)) && Ok(t.body, c, mid, hi)
  {
    WhileLen(t, c);
    hide BoolOk;
    hide WellFormed;
    hide Len;
    hide OkAll;
    hide OkArms;
    hide OkFor;
    hide BranchIfFalse;
    hide Intact;
  }

  lemma WhileLen(t: Stmt, c: Ctx)
    requires t.While? && Intact(t, c)
    ensures Len(t, c) == |t.b.emit(c)| + 2 + Len(t.body, c) + 2
  {
    IntactCtx(t, c);
    hide CondCtx;
    hide Intact;
  }

  lemma JumpWords(l: CondLoc, off: int, back: int)
    ensures |Encode(BranchIfFalse(l, off))| == 2 && |Encode(Jump(back))| == 2
  {
  }

  lemma ShapeRepeat(t: Stmt, c: Ctx, at: int, brk: int)
    requires t.Repeat?
    ensures var w := t.b.emit(c);
            var mid := at + LenAll(t.ss, c);
            var hi := mid + |w| + 2;
            var br := Encode(BranchIfFalse(t.b.loc(c), at - hi));
            && |br| == 2 && at + Len(t, c) == hi
            && Gen(t, c, at, brk) == GenAll(t.ss, c, at, brk) + w + br
            && (Ok(t, c, at, brk) ==>
                  BoolOk(t.b, c) && WellFormed(BranchIfFalse(t.b.loc(c), at - hi)) && OkAll(t.ss, c, at, brk))
  {
    hide BoolOk;
    hide WellFormed;
    hide LenAll;
    hide GenAll;
    hide LenArms;
    hide GenArms;
    hide OkAll;
    hide OkArms;
    hide OkFor;
    hide MoveOut;
  }

  lemma ShapeAll(ss: seq<Stmt>, c: Ctx, at: int, brk: int)
    requires |ss| > 0
    ensures var front, last := ss[..|ss| - 1], ss[|ss| - 1];
            var mid := at + LenAll(front, c);
            && LenAll(ss, c) == LenAll(front, c) + Len(last, c)
            && GenAll(ss, c, at, brk) == GenAll(front, c, at, brk) + Gen(last, c, mid, brk)
            && (OkAll(ss, c, at, brk) ==> OkAll(front, c, at, brk) && Ok(last, c, mid, brk))
  {
  }

  lemma LenNone(ss: seq<Stmt>, c: Ctx)
    ensures |ss| == 0 ==> LenAll(ss, c) == 0
  {
  }

  // ---- what each statement means -------------------------------------------------------------

  lemma MeansIf(t: Stmt, s: Store, fuel: nat)
    ensures t.IfThen? ==>
              (Eval(AsWritten, t, s, fuel)
               == if t.b.val(s) then Eval(AsWritten, t.thn, t.b.upd(s), fuel) else Done(t.b.upd(s)))
    ensures t.IfElse? ==>
              (Eval(AsWritten, t, s, fuel)
               == Eval(AsWritten, if t.b.val(s) then t.thn else t.els, t.b.upd(s), fuel))
  {
  }

  lemma MeansWhile(t: Stmt, s: Store, fuel: nat)
    requires t.While?
    ensures Eval(AsWritten, t, s, 0) == Timeout
    ensures fuel > 0 && !t.b.val(s) ==> Eval(AsWritten, t, s, fuel) == Done(t.b.upd(s))
    ensures fuel > 0 && t.b.val(s) ==>
              var r := Eval(AsWritten, t.body, t.b.upd(s), fuel);
              Eval(AsWritten, t, s, fuel) ==
                if r.Done? then Eval(AsWritten, t, r.s, fuel - 1) else if r.Broke? then Done(r.s) else Timeout
  {
  }

  lemma MeansRepeat(t: Stmt, s: Store, fuel: nat)
    requires t.Repeat?
    ensures Eval(AsWritten, t, s, 0) == Timeout
    ensures fuel > 0 ==>
              var r := EvalAll(AsWritten, t.ss, s, fuel);
              Eval(AsWritten, t, s, fuel) ==
                if !r.Done? then r
                else if t.b.val(r.s) then Done(t.b.upd(r.s)) else Eval(AsWritten, t, t.b.upd(r.s), fuel - 1)
  {
  }

  lemma MeansAll(ss: seq<Stmt>, s: Store, fuel: nat)
    ensures |ss| == 0 ==> EvalAll(AsWritten, ss, s, fuel) == Done(s)
    ensures |ss| > 0 ==>
              var r := EvalAll(AsWritten, ss[..|ss| - 1], s, fuel);
              EvalAll(AsWritten, ss, s, fuel) == if r.Done? then Eval(AsWritten, ss[|ss| - 1], r.s, fuel) else r
  {
  }

  // ---- the simulation --------------------------------------------------------------------------

  lemma SimulateAll(ss: seq<Stmt>, c: Ctx, code: seq<u16>, at: int, brk: int, d: Data, s: Store, fuel: nat) returns (n: nat, end: VM)
    requires OkAll(ss, c, at, brk) && Placed(code, at, GenAll(ss, c, at, brk)) && Rep(c, d, s)
    ensures Simulates(c, code, at, at + LenAll(ss, c), brk, d, EvalAll(AsWritten, ss, s, fuel), fuel, n, end)
    decreases fuel, ss, 0
  {
    hide *;
    MeansAll(ss, s, fuel);
    NoSteps(c, code, at, d);
    if |ss| == 0 {
      n, end := 0, VM(at, d);
      LenNone(ss, c);
      Finish(c, code, at, at, brk, d, s, fuel, 0, d);
    } else {
      var front, last := ss[..|ss| - 1], ss[|ss| - 1];
      var mid := at + LenAll(front, c);
      var hi := at + LenAll(ss, c);
      ShapeAll(ss, c, at, brk);
      Split(code, at, GenAll(front, c, at, brk), Gen(last, c, mid, brk));
      n, end := SimulateAll(front, c, code, at, brk, d, s, fuel);
      var r := EvalAll(AsWritten, front, s, fuel);
      RunsWiden(code, at, at, at, hi, VM(at, d), 0, VM(at, d));
      Inside(c, code, at, at, mid, hi, brk, d, 0, d, r, fuel, n, end);
      if r.Done? {
        var m, end' := Simulate(last, c, code, mid, brk, end.d, r.s, fuel);
        Prefixed(c, code, at, mid, hi, brk, d, n, end.d, Eval(AsWritten, last, r.s, fuel), fuel, m, end');
        n, end := n + m, end';
      }
    }
  }

  lemma SimulateIfThen(t: Stmt, c: Ctx, code: seq<u16>, at: int, brk: int, d: Data, s: Store, fuel: nat) returns (n: nat, end: VM)
    requires t.IfThen?
    requires Ok(t, c, at, brk) && Placed(code, at, Gen(t, c, at, brk)) && Rep(c, d, s)
    ensures Simulates(c, code, at, at + Len(t, c), brk, d, Eval(AsWritten, t, s, fuel), fuel, n, end)
    decreases fuel, t, 1
  {
    hide *;
    ShapeIfThen(t, c, at, brk);
    IntactCtx(t, c);
    MeansIf(t, s, fuel);
    var w, br := t.b.emit(c), Encode(BranchIfFalse(t.b.loc(c), Len(t.thn, c)));
    var mid, hi := at + |w| + 2, at + Len(t, c);
    Split(code, at, w + br, Gen(t.thn, c, mid, brk));
    Split(code, at, w, br);
    var s1 := t.b.upd(s);
    var d1;
    n, d1 := Test(t.b, c, code, at, Len(t.thn, c), d, s);
    end := VM(if t.b.val(s) then mid else hi, d1);
    RunsWiden(code, at, mid, at, hi, VM(at, d), n, end);
    if t.b.val(s) {
      var m, end' := Simulate(t.thn, c, code, mid, brk, d1, s1, fuel);
      Prefixed(c, code, at, mid, hi, brk, d, n, d1, Eval(AsWritten, t.thn, s1, fuel), fuel, m, end');
      n, end := n + m, end';
    } else {
      Finish(c, code, at, hi, brk, d, s1, fuel, n, d1);
    }
  }

  lemma SimulateIfElse(t: Stmt, c: Ctx, code: seq<u16>, at: int, brk: int, d: Data, s: Store, fuel: nat) returns (n: nat, end: VM)
    requires t.IfElse?
    requires Ok(t, c, at, brk) && Placed(code, at, Gen(t, c, at, brk)) && Rep(c, d, s)
    ensures Simulates(c, code, at, at + Len(t, c), brk, d, Eval(AsWritten, t, s, fuel), fuel, n, end)
    decreases fuel, t, 1
  {
    hide *;
    ShapeIfElse(t, c, at, brk);
    OkIfElse(t, c, at, brk);
    IntactCtx(t, c);
    MeansIf(t, s, fuel);
    var l1, l2 := Len(t.thn, c), Len(t.els, c);
    var w, br := t.b.emit(c), Encode(BranchIfFalse(t.b.loc(c), l1 + 2));
    var mid := at + |w| + 2;
    var m, hi := mid + l1, at + Len(t, c);
    var thn, jmp, els := Gen(t.thn, c, mid, brk), Encode(Jump(l2)), Gen(t.els, c, m + 2, brk);
    Split(code, at, w + br + thn + jmp, els);
    Split(code, at, w + br + thn, jmp);
    Split(code, at, w + br, thn);
    Split(code, at, w, br);
    var s1 := t.b.upd(s);
    var d1;
    var m2: nat;
    n, d1 := Test(t.b, c, code, at, l1 + 2, d, s);
    RunsWiden(code, at, mid, at, hi, VM(at, d), n, VM(if t.b.val(s) then mid else m + 2, d1));
    if t.b.val(s) {
      var r := Eval(AsWritten, t.thn, s1, fuel);
      m2, end := Simulate(t.thn, c, code, mid, brk, d1, s1, fuel);
      Inside(c, code, at, mid, m, hi, brk, d, n, d1, r, fuel, m2, end);
      n := n + m2;
      if r.Done? {
        TakeJump(code, m, l2, end.d);
        Join(code, at, hi, VM(at, d), at, hi, n, end, m, m + 2, 1, VM(hi, end.d));
        n, end := n + 1, VM(hi, end.d);
        Finish(c, code, at, hi, brk, d, r.s, fuel, n, end.d);
      }
    } else {
      m2, end := Simulate(t.els, c, code, m + 2, brk, d1, s1, fuel);
      Prefixed(c, code, at, m + 2, hi, brk, d, n, d1, Eval(AsWritten, t.els, s1, fuel), fuel, m2, end);
      n := n + m2;
    }
  }

  lemma SimulateWhile(t: Stmt, c: Ctx, code: seq<u16>, at: int, brk: int, d: Data, s: Store, fuel: nat) returns (n: nat, end: VM)
    requires t.While?
    requires Ok(t, c, at, brk) && Placed(code, at, Gen(t, c, at, brk)) && Rep(c, d, s)
    ensures Simulates(c, code, at, at + Len(t, c), brk, d, Eval(AsWritten, t, s, fuel), fuel, n, end)
    decreases fuel, t, 1
  {
    hide *;
    ShapeWhile(t, c, at, brk);
    OkWhile(t, c, at, brk);
    IntactCtx(t, c);
    MeansWhile(t, s, fuel);
    var l: int := Len(t.body, c);
    var w, br := t.b.emit(c), Encode(BranchIfFalse(t.b.loc(c), l + 2));
    var mid := at + |w| + 2;
    var m, hi := mid + l, at + Len(t, c);
    if fuel == 0 {
      n, end := 0, VM(at, d);
      NoFuel(c, code, at, hi, brk, d);
      return;
    }
    var body, jmp := Gen(t.body, c, mid, hi), Encode(Jump(at - hi));
    Split(code, at, w + br + body, jmp);
    Split(code, at, w + br, body);
    Split(code, at, w, br);
    var s1 := t.b.upd(s);
    var d1;
    n, d1 := Test(t.b, c, code, at, l + 2, d, s);
    end := VM(if t.b.val(s) then mid else hi, d1);
    RunsWiden(code, at, mid, at, hi, VM(at, d), n, end);
    if !t.b.val(s) {
      Finish(c, code, at, hi, brk, d, s1, fuel, n, d1);
      return;
    }
    var r := Eval(AsWritten, t.body, s1, fuel);
    var n2, end2 := Simulate(t.body, c, code, mid, hi, d1, s1, fuel);
    Inside(c, code, at, mid, m, hi, hi, d, n, d1, r, fuel, n2, end2);
    n, end := n + n2, end2;
    if r.Done? {
      TakeJump(code, m, at - hi, end.d);
      Join(code, at, hi, VM(at, d), at, hi, n, end, m, hi, 1, VM(at, end.d));
      var n3, end3 := SimulateWhile(t, c, code, at, brk, end.d, r.s, fuel - 1);
      Again(c, code, at, hi, brk, d, n + 1, end.d, Eval(AsWritten, t, r.s, fuel - 1), fuel, n3, end3);
      n, end := n + 1 + n3, end3;
    } else if r.Broke? {
      Finish(c, code, at, hi, brk, d, r.s, fuel, n, end.d);
    } else {
      OutOfFuel(c, code, at, hi, hi, brk, d, fuel, n, end);
    }
  }

  lemma OutOfFuel(c: Ctx, code: seq<u16>, lo: int, hi: int, brk: int, brk': int, d: Data, fuel: nat, n: nat, end: VM)
    requires Simulates(c, code, lo, hi, brk, d, Timeout, fuel, n, end)
    ensures Simulates(c, code, lo, hi, brk', d, Timeout, fuel, n, end)
  {
  }

  lemma SimulateRepeat(t: Stmt, c: Ctx, code: seq<u16>, at: int, brk: int, d: Data, s: Store, fuel: nat) returns (n: nat, end: VM)
    requires t.Repeat?
    requires Ok(t, c, at, brk) && Placed(code, at, Gen(t, c, at, brk)) && Rep(c, d, s)
    ensures Simulates(c, code, at, at + Len(t, c), brk, d, Eval(AsWritten, t, s, fuel), fuel, n, end)
    decreases fuel, t, 1
  {
    hide *;
    ShapeRepeat(t, c, at, brk);
    MeansRepeat(t, s, fuel);
    var w := t.b.emit(c);
    var mid, hi := at + LenAll(t.ss, c), at + Len(t, c);
    if fuel == 0 {
      n, end := 0, VM(at, d);
      NoFuel(c, code, at, hi, brk, d);
      return;
    }
    var body, br := GenAll(t.ss, c, at, brk), Encode(BranchIfFalse(t.b.loc(c), at - hi));
    Split(code, at, body + w, br);
    Split(code, at, body, w);
    var r := EvalAll(AsWritten, t.ss, s, fuel);
    n, end := SimulateAll(t.ss, c, code, at, brk, d, s, fuel);
    NoSteps(c, code, at, d);
    RunsWiden(code, at, at, at, hi, VM(at, d), 0, VM(at, d));
    Inside(c, code, at, at, mid, hi, brk, d, 0, d, r, fuel, n, end);
    if r.Done? {
      var s1 := t.b.upd(r.s);
      var n1, d1 := Test(t.b, c, code, mid, at - hi, end.d, r.s);
      KeepsJoin(c, d, end.d, d1);
      var end1 := VM(if t.b.val(r.s) then hi else at, d1);
      Join(code, at, hi, VM(at, d), at, hi, n, end, mid, hi, n1, end1);
      n, end := n + n1, end1;
      if t.b.val(r.s) {
        Finish(c, code, at, hi, brk, d, s1, fuel, n, d1);
      } else {
        var n2, end2 := SimulateRepeat(t, c, code, at, brk, d1, s1, fuel - 1);
        Again(c, code, at, hi, brk, d, n, d1, Eval(AsWritten, t, s1, fuel - 1), fuel, n2, end2);
        n, end := n + n2, end2;
      }
    }
  }

  // ---- for ---------------------------------------------------------------------------------

  lemma ShapeFor(t: Stmt, c: Ctx, at: int, brk: int)
    requires t.For? && Ok(t, c, at, brk)
    ensures var c2, l := BodyCtx(t, c), Len(t.body, BodyCtx(t, c));
            var init, stop := t.first.assign(CounterCtx(t, c), t.x), t.last.load(StopCtx(t, c));
            var head := at + |init| + |stop|;
            var out := MoveOut(Home(c, t.x), Free(c));
            && Intact(t, c) && t.x in c.env && Home(c, t.x) == c.env[t.x] && HasFree(c) && OkFor(t, c, l) && Ok(t.body, c2, head + 3, head + 5 + l)
            && at + Len(t, c) == head + 5 + l + Size(out)
            && Gen(t, c, at, brk) == init + stop + LoopWords(t, c, head) + Encode(out)
  {
    hide OkFor;
    hide MoveOut;
    hide LenAll;
    hide GenAll;
    hide LenArms;
    hide GenArms;
    hide CounterCtx;
    hide StopCtx;
    hide BodyCtx;
    hide Intact;
    hide CompareCounter;
    hide Free;
    hide Encode;
    ForWords(t, c, at, brk);
    hide Gen;
  }

  lemma ForWords(t: Stmt, c: Ctx, at: int, brk: int)
    requires t.For?
    ensures var init, stop := t.first.assign(CounterCtx(t, c), t.x), t.last.load(StopCtx(t, c));
            Gen(t, c, at, brk) == init + stop + LoopWords(t, c, at + |init| + |stop|) + Encode(MoveOut(Home(c, t.x), Free(c)))
  {
    hide MoveOut;
    hide GenAll;
    hide LenAll;
    hide GenArms;
    hide LenArms;
    hide CounterCtx;
    hide StopCtx;
    hide BodyCtx;
    hide CompareCounter;
    hide Free;
    hide Encode;
    var l: int := Len(t.body, BodyCtx(t, c));
    assert -(3 + l + 2) == -(5 + l);
  }

  // Comparison, exit branch, body, increment-and-branch.
  function LoopWords(t: Stmt, c: Ctx, head: int): seq<u16>
    requires t.For?
  {
    var l: int := Len(t.body, BodyCtx(t, c));
    Encode(CompareCounter(t.ty, t.up, Free(c), t.last.reg(StopCtx(t, c))))
    + Encode(BranchIfFalse(Flag(false), l + 2))
    + Gen(t.body, BodyCtx(t, c), head + 3, head + 5 + l)
    + Encode(CountBranch(Free(c), if t.up then 1 else -1, -(5 + l)))
  }

  lemma MeansFor(t: Stmt, s: Store, fuel: nat)
    requires t.For?
    ensures var s' := s[t.x := t.first.val(s)];
            Eval(AsWritten, t, s, fuel) == EvalLoop(AsWritten, t, t.last.val(s'), s', fuel)
  {
  }

  lemma MeansLoop(t: Stmt, stop: u32, s: Store, fuel: nat)
    requires t.For?
    ensures EvalLoop(AsWritten, t, stop, s, 0) == Timeout
    ensures !EvalLoop(AsWritten, t, stop, s, fuel).Broke?
    ensures fuel > 0 && !ForTest(AsWritten, t.ty, t.up, Value(s, t.x), stop) ==>
              EvalLoop(AsWritten, t, stop, s, fuel) == Done(s)
    ensures fuel > 0 && ForTest(AsWritten, t.ty, t.up, Value(s, t.x), stop) ==>
              var r := Eval(AsWritten, t.body, s, fuel);
              EvalLoop(AsWritten, t, stop, s, fuel) ==
                if r.Done? then EvalLoop(AsWritten, t, stop, r.s[t.x := Advance(t.up, Value(r.s, t.x))], fuel - 1)
                else if r.Broke? then Done(r.s) else Timeout
    decreases fuel
  {
    hide Eval;
    if fuel > 0 {
      var r := Eval(AsWritten, t.body, s, fuel);
      if r.Done? { MeansLoop(t, stop, r.s[t.x := Advance(t.up, Value(r.s, t.x))], fuel - 1); }
    }
  }

  lemma SplitLoop(t: Stmt, c: Ctx, code: seq<u16>, head: int)
    requires t.For? && Placed(code, head, LoopWords(t, c, head)) && OkFor(t, c, Len(t.body, BodyCtx(t, c)))
    ensures var l: int := Len(t.body, BodyCtx(t, c));
            && |LoopWords(t, c, head)| == l + 5
            && Placed(code, head, Encode(CompareCounter(t.ty, t.up, Free(c), t.last.reg(StopCtx(t, c)))))
            && Placed(code, head + 1, Encode(BranchIfFalse(Flag(false), l + 2)))
            && WellFormed(BranchIfFalse(Flag(false), l + 2))
            && Placed(code, head + 3, Gen(t.body, BodyCtx(t, c), head + 3, head + 5 + l))
            && Placed(code, head + 3 + l, Encode(CountBranch(Free(c), if t.up then 1 else -1, -(5 + l))))
            && WellFormed(CountBranch(Free(c), 1, -(5 + l)))
  {
    hide Encode;
    hide Placed;
    hide Gen;
    hide Len;
    hide Free;
    hide StopCtx;
    hide BodyCtx;
    var l: int := Len(t.body, BodyCtx(t, c));
    var a := Encode(CompareCounter(t.ty, t.up, Free(c), t.last.reg(StopCtx(t, c))));
    var b := Encode(BranchIfFalse(Flag(false), l + 2));
    var body := Gen(t.body, BodyCtx(t, c), head + 3, head + 5 + l);
    var e := Encode(CountBranch(Free(c), if t.up then 1 else -1, -(5 + l)));
    assert |a| == 1 && |b| == 2;
    Split(code, head, a + b + body, e);
    Split(code, head, a + b, body);
    Split(code, head, a, b);
  }

  lemma SimulateLoop(t: Stmt, c: Ctx, code: seq<u16>, head: int, d: Data, stop: u32, s: Store, fuel: nat) returns (n: nat, end: VM)
    requires t.For? && HasFree(c) && GoodCtx(c) && OkFor(t, c, Len(t.body, BodyCtx(t, c)))
    requires GoodCtx(CounterCtx(t, c)) && Intact(t, c)
    requires Ok(t.body, BodyCtx(t, c), head + 3, head + 5 + Len(t.body, BodyCtx(t, c)))
    requires Placed(code, head, LoopWords(t, c, head))
    requires Rep(BodyCtx(t, c), d, s) && Word(d, t.last.reg(StopCtx(t, c))) == stop
    ensures var fin := head + 5 + Len(t.body, BodyCtx(t, c));
            Simulates(BodyCtx(t, c), code, head, fin, fin, d, EvalLoop(AsWritten, t, stop, s, fuel), fuel, n, end)
    decreases fuel, t, 0
  {
    hide *;
    StopIsKept(t, c);
    SplitLoop(t, c, code, head);
    MeansLoop(t, stop, s, fuel);
    var c2 := BodyCtx(t, c);
    var l: int := Len(t.body, c2);
    var fin := head + 5 + l;
    if fuel == 0 {
      n, end := 0, VM(head, d);
      NoFuel(c2, code, head, fin, fin, d);
      return;
    }
    var d1 := CompareStep(t, c, code, head, d, s, stop);
    TakeBranch(code, head + 1, Flag(false), true, l + 2, d1);
    var test := ForTest(AsWritten, t.ty, t.up, Value(s, t.x), stop);
    n, end := 2, VM(if test then head + 3 else fin, d1);
    Join(code, head, fin, VM(head, d), head, head + 1, 1, VM(head + 1, d1), head + 1, head + 3, 1, end);
    if !test {
      Finish(c2, code, head, fin, fin, d, s, fuel, n, d1);
      return;
    }
    var r := Eval(AsWritten, t.body, s, fuel);
    var n2, end2 := Simulate(t.body, c2, code, head + 3, fin, d1, s, fuel);
    Inside(c2, code, head, head + 3, head + 3 + l, fin, fin, d, n, d1, r, fuel, n2, end2);
    n, end := n + n2, end2;
    if r.Done? {
      var m := head + 3 + l;
      var s3 := r.s[t.x := Advance(t.up, Value(r.s, t.x))];
      var d3 := CountStep(t, c, code, m, -(5 + l), end.d, r.s);
      KeepsJoin(c2, d, end.d, d3);
      StopKept(t, c, d, d3);
      Join(code, head, fin, VM(head, d), head, fin, n, end, m, fin, 1, VM(head, d3));
      var n3, end3 := SimulateLoop(t, c, code, head, d3, stop, s3, fuel - 1);
      Again(c2, code, head, fin, fin, d, n + 1, d3, EvalLoop(AsWritten, t, stop, s3, fuel - 1), fuel, n3, end3);
      n, end := n + 1 + n3, end3;
    } else if r.Broke? {
      Finish(c2, code, head, fin, fin, d, r.s, fuel, n, end.d);
    } else {
      OutOfFuel(c2, code, head, fin, fin, fin, d, fuel, n, end);
    }
  }

  lemma StopIsKept(t: Stmt, c: Ctx)
    requires t.For? && OkFor(t, c, Len(t.body, BodyCtx(t, c)))
    ensures OkStart(t, c) && t.last.reg(StopCtx(t, c)) !in StopCtx(t, c).live
  {
    hide WellFormed;
    hide AssignOk;
    hide LoadOk;
  }

  // First value into the counter's register, last value into a register of its own.
  lemma StartLoop(t: Stmt, c: Ctx, code: seq<u16>, at: int, d: Data, s: Store) returns (n: nat, d': Data)
    requires t.For? && t.x in c.env && HasFree(c) && Rep(c, d, s) && OkStart(t, c) && Intact(t, c)
    requires var init := t.first.assign(CounterCtx(t, c), t.x);
             Placed(code, at, init) && Placed(code, at + |init|, t.last.load(StopCtx(t, c)))
    ensures var c1, s' := StopCtx(t, c), s[t.x := t.first.val(s)];
            var head := at + |t.first.assign(CounterCtx(t, c), t.x)| + |t.last.load(c1)|;
            && Runs(code, at, head, VM(at, d), n, VM(head, d'))
            && GoodCtx(CounterCtx(t, c)) && Rep(BodyCtx(t, c), d', s') && Keeps(c, d, d')
            && Word(d', t.last.reg(c1)) == t.last.val(s')
  {
    hide *;
    IntactCtx(t, c);
    var c1 := CounterCtx(t, c);
    var w1, w2 := |t.first.assign(c1, t.x)|, |t.last.load(c1)|;
    var g := Word(d, Free(c));
    var s' := s[t.x := t.first.val(s)];
    EnterCounter(t, c, d, s);
    RepVars(c, d, s);
    StartParts(t, c, s, g);
    RepGoodCtx(c, d, s);
    RepGoodCtx(c1, d, s[t.x := g]);
    var d1, n2;
    n, d1 := UseAssign(t.first, c1, t.x, code, at, d, s[t.x := g]);
    assert s[t.x := g][t.x := t.first.val(s)] == s';
    n2, d' := UseLoad(t.last, c1, code, at + w1, d1, s');
    KeepsJoin(c1, d, d1, d');
    CounterKeeps(t, c, d, d');
    RepOccupied(c1, t.last.reg(c1), d', s');
    Join(code, at, at + w1 + w2, VM(at, d), at, at + w1, n, VM(at + w1, d1), at + w1, at + w1 + w2, n2, VM(at + w1 + w2, d'));
    n := n + n2;
  }

  lemma RepVars(c: Ctx, d: Data, s: Store)
    requires Rep(c, d, s)
    ensures s.Keys == c.env.Keys
  {
  }

  lemma StartParts(t: Stmt, c: Ctx, s: Store, g: u32)
    requires t.For? && t.x in c.env && OkStart(t, c) && s.Keys == c.env.Keys
    ensures AssignOk(t.first, CounterCtx(t, c), t.x) && LoadOk(t.last, StopCtx(t, c))
    ensures t.first.val(s[t.x := g]) == t.first.val(s)
  {
    hide AssignOk;
    hide LoadOk;
    hide Free;
    assert CounterCtx(t, c).env.Keys == s.Keys;
  }

  lemma SimulateFor(t: Stmt, c: Ctx, code: seq<u16>, at: int, brk: int, d: Data, s: Store, fuel: nat) returns (n: nat, end: VM)
    requires t.For?
    requires Ok(t, c, at, brk) && Placed(code, at, Gen(t, c, at, brk)) && Rep(c, d, s)
    ensures Simulates(c, code, at, at + Len(t, c), brk, d, Eval(AsWritten, t, s, fuel), fuel, n, end)
    decreases fuel, t, 1
  {
    hide *;
    RepGoodCtx(c, d, s);
    ShapeFor(t, c, at, brk);
    MeansFor(t, s, fuel);
    var c2 := BodyCtx(t, c);
    var l: int := Len(t.body, c2);
    var init, load := t.first.assign(CounterCtx(t, c), t.x), t.last.load(StopCtx(t, c));
    var head, hi := at + |init| + |load|, at + Len(t, c);
    var fin := head + 5 + l;
    var out := MoveOut(c.env[t.x], Free(c));
    Split(code, at, init + load + LoopWords(t, c, head), Encode(out));
    Split(code, at, init + load, LoopWords(t, c, head));
    Split(code, at, init, load);
    SplitLoop(t, c, code, head);
    StopIsKept(t, c);
    var d1;
    n, d1 := StartLoop(t, c, code, at, d, s);
    var s1 := s[t.x := t.first.val(s)];
    var stop := t.last.val(s1);
    var r := EvalLoop(AsWritten, t, stop, s1, fuel);
    MeansLoop(t, stop, s1, fuel);
    var n2, end2 := SimulateLoop(t, c, code, head, d1, stop, s1, fuel);
    RunsWiden(code, at, head, at, hi, VM(at, d), n, VM(head, d1));
    BodyEnds(t, c, code, head, fin, d1, r, fuel, n2, end2);
    Join(code, at, hi, VM(at, d), at, hi, n, VM(head, d1), head, fin, n2, end2);
    n, end := n + n2, end2;
    if r.Done? {
      KeepsJoin(c, d, d1, end.d);
      KeepsBases(c, d, end.d);
      var d3 := LeaveCounter(t, c, code, fin, end.d, r.s);
      KeepsJoin(c, d, end.d, d3);
      Join(code, at, hi, VM(at, d), at, hi, n, end, fin, hi, 1, VM(hi, d3));
      n, end := n + 1, VM(hi, d3);
      Finish(c, code, at, hi, brk, d, r.s, fuel, n, d3);
    } else {
      Stuck(c, code, at, hi, brk, d, fuel, n, end);
    }
  }

  lemma BodyEnds(t: Stmt, c: Ctx, code: seq<u16>, head: int, fin: int, d: Data, r: Result, fuel: nat, n: nat, end: VM)
    requires t.For? && GoodCtx(c) && HasFree(c) && Intact(t, c)
    requires Simulates(BodyCtx(t, c), code, head, fin, fin, d, r, fuel, n, end)
    ensures Runs(code, head, fin, VM(head, d), n, end) && (r.Timeout? ==> n >= fuel)
    ensures r.Done? ==> end == VM(fin, end.d) && Rep(BodyCtx(t, c), end.d, r.s) && Keeps(c, d, end.d)
  {
    hide Runs;
    hide Rep;
    hide Keeps;
    hide GoodCtx;
    hide HasFree;
    hide BodyCtx;
    hide Intact;
    if r.Done? { CounterKeeps(t, c, d, end.d); }
  }

  lemma Stuck(c: Ctx, code: seq<u16>, lo: int, hi: int, brk: int, d: Data, fuel: nat, n: nat, end: VM)
    requires Runs(code, lo, hi, VM(lo, d), n, end) && n >= fuel
    ensures Simulates(c, code, lo, hi, brk, d, Timeout, fuel, n, end)
  {
  }

  // ---- case ----------------------------------------------------------------------------------

  lemma ShapeCase(t: Stmt, c: Ctx, at: int, brk: int)
    requires t.Case? && Ok(t, c, at, brk)
    ensures var c1 := SelCtx(t, c);
            var pre := if t.sel.own.None? then t.sel.load(c) else [];
            var base, hi := at + |pre|, at + Len(t, c);
            var tail := base + LenArms(t, t.arms, c);
            && hi == tail + LenAll(t.other, c1)
            && Gen(t, c, at, brk) == pre + GenArms(t, t.arms, c, base, brk, hi) + GenAll(t.other, c1, tail, brk)
            && Intact(t, c) && (t.sel.own.None? ==> LoadOk(t.sel, c) && t.sel.reg(c) !in c.live)
            && OkArms(t, t.arms, c, base, brk, hi) && OkAll(t.other, c1, tail, brk)
  {
    hide LoadOk;
    hide LenAll;
    hide GenAll;
    hide LenArms;
    hide GenArms;
    hide OkAll;
    hide OkArms;
    hide SelCtx;
    hide Intact;
  }

  lemma MeansCase(t: Stmt, s: Store, fuel: nat)
    requires t.Case?
    ensures var j := FirstMatch(t.arms, t.sel.val(s), 0);
            Eval(AsWritten, t, s, fuel) ==
              if j < |t.arms| then Eval(AsWritten, t.arms[j].body, s, fuel) else EvalAll(AsWritten, t.other, s, fuel)
  {
    hide EvalAll;
  }

  // Where arm `i` is.
  lemma {:induction false} ArmPlace(t: Stmt, arms: seq<Arm>, c: Ctx, code: seq<u16>, at: int, brk: int, out: int, i: nat)
    requires t.Case? && i < |arms|
    requires Placed(code, at, GenArms(t, arms, c, at, brk, out)) && OkArms(t, arms, c, at, brk, out)
    ensures var l := LenArms(t, arms[..i], c);
            && Placed(code, at + l, GenArm(t, arms[i], c, at + l, brk, out))
            && OkArm(t, arms[i], c, at + l, brk, out)
            && LenArms(t, arms[..i + 1], c) == l + LenArm(t, arms[i], c) <= LenArms(t, arms, c)
    decreases |arms|
  {
    hide Placed;
    hide GenArm;
    hide OkArm;
    hide LenArm;
    var front, k := arms[..|arms| - 1], |arms| - 1;
    Split(code, at, GenArms(t, front, c, at, brk, out), GenArm(t, arms[k], c, at + LenArms(t, front, c), brk, out));
    assert arms[..i + 1][..i] == arms[..i];
    if i < k {
      assert front[..i] == arms[..i] && front[..i + 1] == arms[..i + 1];
      ArmPlace(t, front, c, code, at, brk, out, i);
    } else {
      assert arms[..i] == front && arms[..i + 1] == arms;
    }
  }

  lemma ShapeArm(t: Stmt, a: Arm, c: Ctx, at: int, brk: int, out: int)
    requires t.Case? && OkArm(t, a, c, at, brk, out)
    ensures var w, c1 := ArmTest(t, c, a.k), SelCtx(t, c);
            var l: int := Len(a.body, c1);
            var mid := at + |w| + 2;
            var m := mid + l;
            var br, jmp := Encode(BranchIfTrue(Flag(false), l + 2)), Encode(Jump(out - m - 2));
            && |br| == 2 && |jmp| == 2 && at + LenArm(t, a, c) == m + 2
            && GenArm(t, a, c, at, brk, out) == w + br + Gen(a.body, c1, mid, brk) + jmp
            && HasFree(c1) && (t.sel.own.Some? ==> LoadOk(t.sel, Occupy(c1, Free(c1))))
            && WellFormed(BranchIfTrue(Flag(false), l + 2)) && WellFormed(Jump(out - m - 2)) && Ok(a.body, c1, mid, brk)
  {
    hide LoadOk;
    hide ArmTest;
    hide SelCtx;
    hide HasFree;
    hide Free;
    hide Gen;
    hide Len;
    hide Ok;
    hide FormatOf;
  }

  // Enter an arm: behind it when its constant is not the selector, else its body.
  lemma EnterArm(t: Stmt, a: Arm, c: Ctx, code: seq<u16>, at: int, brk: int, out: int, d: Data, s: Store) returns (n: nat, d': Data)
    requires t.Case? && OkArm(t, a, c, at, brk, out) && Placed(code, at, GenArm(t, a, c, at, brk, out))
    requires SelReady(t, c, d, s) && (t.sel.own.None? ==> t.sel.reg(c) !in c.live)
    ensures var mid := at + |ArmTest(t, c, a.k)| + 2;
            Runs(code, at, mid, VM(at, d), n, VM(if t.sel.val(s) == Low32(a.k) then mid else at + LenArm(t, a, c), d'))
    ensures n >= 1 && SelReady(t, c, d', s) && Keeps(SelCtx(t, c), d, d')
    ensures Placed(code, at + |ArmTest(t, c, a.k)| + 2, Gen(a.body, SelCtx(t, c), at + |ArmTest(t, c, a.k)| + 2, brk))
    ensures var m := at + LenArm(t, a, c) - 2;
            Placed(code, m, Encode(Jump(out - m - 2))) && WellFormed(Jump(out - m - 2))
  {
    hide *;
    ShapeArm(t, a, c, at, brk, out);
    var w, c1 := ArmTest(t, c, a.k), SelCtx(t, c);
    var l: int := Len(a.body, c1);
    var mid := at + |w| + 2;
    var m := mid + l;
    var br, jmp := Encode(BranchIfTrue(Flag(false), l + 2)), Encode(Jump(out - m - 2));
    Split(code, at, w + br + Gen(a.body, c1, mid, brk), jmp);
    Split(code, at, w + br, Gen(a.body, c1, mid, brk));
    Split(code, at, w, br);
    n, d' := ArmTestRuns(t, c, code, at, a.k, d, s);
    TakeBranch(code, at + |w|, Flag(false), false, l + 2, d');
    HoldsNegated(d');
    var end := VM(if d'.cond then mid else mid + l + 2, d');
    Join(code, at, mid, VM(at, d), at, at + |w|, n, VM(at + |w|, d'), at + |w|, mid, 1, end);
    n := n + 1;
  }

  // Tests that fail lead from arm `i` to arm `j`.
  lemma SkipArms(t: Stmt, c: Ctx, code: seq<u16>, at: int, brk: int, out: int, d: Data, s: Store, i: nat, j: nat) returns (n: nat, d': Data)
    requires t.Case? && i <= j <= |t.arms| && SelReady(t, c, d, s) && (t.sel.own.None? ==> t.sel.reg(c) !in c.live)
    requires Placed(code, at, GenArms(t, t.arms, c, at, brk, out)) && OkArms(t, t.arms, c, at, brk, out)
    requires forall k :: i <= k < j ==> Low32(t.arms[k].k) != t.sel.val(s)
    ensures var lo, hi := at + LenArms(t, t.arms[..i], c), at + LenArms(t, t.arms[..j], c);
            lo <= hi && Runs(code, lo, hi, VM(lo, d), n, VM(hi, d'))
    ensures SelReady(t, c, d', s) && Keeps(SelCtx(t, c), d, d')
    decreases j - i
  {
    hide *;
    var lo, hi := at + LenArms(t, t.arms[..i], c), at + LenArms(t, t.arms[..j], c);
    if i == j {
      n, d' := 0, d;
      NoSteps(SelCtx(t, c), code, lo, d);
    } else {
      ArmPlace(t, t.arms, c, code, at, brk, out, i);
      var m := lo + LenArm(t, t.arms[i], c);
      var d1, n2;
      n, d1 := EnterArm(t, t.arms[i], c, code, lo, brk, out, d, s);
      n2, d' := SkipArms(t, c, code, at, brk, out, d1, s, i + 1, j);
      ArmSpan(t, t.arms[i], c);
      Join(code, lo, hi, VM(lo, d), lo, lo + |ArmTest(t, c, t.arms[i].k)| + 2, n, VM(m, d1), m, hi, n2, VM(hi, d'));
      KeepsJoin(SelCtx(t, c), d, d1, d');
      n := n + n2;
    }
  }

  lemma ArmSpan(t: Stmt, a: Arm, c: Ctx)
    requires t.Case?
    ensures LenArm(t, a, c) == |ArmTest(t, c, a.k)| + 2 + Len(a.body, SelCtx(t, c)) + 2
  {
  }

  lemma NoArms(t: Stmt, c: Ctx)
    requires t.Case?
    ensures LenArms(t, t.arms[..0], c) == 0 && t.arms[..|t.arms|] == t.arms
  {
  }

  lemma StartCase(t: Stmt, c: Ctx, code: seq<u16>, at: int, d: Data, s: Store) returns (n: nat, d': Data)
    requires t.Case? && Rep(c, d, s) && Intact(t, c) && (t.sel.own.None? ==> LoadOk(t.sel, c) && Placed(code, at, t.sel.load(c)))
    ensures var base := at + if t.sel.own.None? then |t.sel.load(c)| else 0;
            Runs(code, at, base, VM(at, d), n, VM(base, d')) && SelReady(t, c, d', s) && Keeps(c, d, d')
  {
    hide Runs;
    hide Rep;
    hide Keeps;
    hide LoadOk;
    hide Placed;
    hide Low32;
    IntactCtx(t, c);
    if t.sel.own.None? {
      RepGoodCtx(c, d, s);
      n, d' := UseLoad(t.sel, c, code, at, d, s);
      RepOccupied(c, t.sel.reg(c), d', s);
    } else {
      n, d' := 0, d;
      NoSteps(c, code, at, d);
    }
  }

  // What holds under the selector's context holds under the statement's own.
  lemma SelEnds(t: Stmt, c: Ctx, d: Data, end: Data, s: Store)
    requires t.Case? && GoodCtx(c) && Intact(t, c) && Rep(SelCtx(t, c), end, s) && Keeps(SelCtx(t, c), d, end)
    ensures Rep(c, end, s) && Keeps(c, d, end)
  {
    IntactCtx(t, c);
    if t.sel.own.None? {
      RepOccupied(c, t.sel.reg(c), end, s);
      KeepsOccupied(c, t.sel.reg(c), d, end);
    }
  }

  lemma SelReadyRep(t: Stmt, c: Ctx, d: Data, s: Store)
    requires t.Case? && SelReady(t, c, d, s)
    ensures Rep(SelCtx(t, c), d, s)
  {
  }

  // A part run under the selector's context, as a part of the whole statement.
  lemma InsideCase(t: Stmt, c: Ctx, code: seq<u16>, lo: int, mid: int, m: int, hi: int, brk: int, d: Data, n1: nat, d1: Data,
                   r: Result, fuel: nat, n2: nat, end: VM)
    requires t.Case? && GoodCtx(c) && Intact(t, c) && lo <= mid && m <= hi
    requires Runs(code, lo, hi, VM(lo, d), n1, VM(mid, d1)) && Keeps(c, d, d1)
    requires Simulates(SelCtx(t, c), code, mid, m, brk, d1, r, fuel, n2, end)
    ensures Runs(code, lo, hi, VM(lo, d), n1 + n2, end)
    ensures r.Done? ==> Rep(c, end.d, r.s) && Keeps(c, d, end.d) && end == VM(m, end.d)
    ensures !r.Done? ==> Simulates(c, code, lo, hi, brk, d, r, fuel, n1 + n2, end)
  {
    hide Runs;
    hide Rep;
    hide Keeps;
    hide GoodCtx;
    hide SelCtx;
    hide Intact;
    if !r.Timeout? { SelEnds(t, c, d1, end.d, r.s); }
    assert Simulates(c, code, mid, m, brk, d1, r, fuel, n2, end);
    Inside(c, code, lo, mid, m, hi, brk, d, n1, d1, r, fuel, n2, end);
  }

  lemma SimulateCase(t: Stmt, c: Ctx, code: seq<u16>, at: int, brk: int, d: Data, s: Store, fuel: nat) returns (n: nat, end: VM)
    requires t.Case?
    requires Ok(t, c, at, brk) && Placed(code, at, Gen(t, c, at, brk)) && Rep(c, d, s)
    ensures Simulates(c, code, at, at + Len(t, c), brk, d, Eval(AsWritten, t, s, fuel), fuel, n, end)
    decreases fuel, t, 1
  {
    hide *;
    RepGoodCtx(c, d, s);
    ShapeCase(t, c, at, brk);
    MeansCase(t, s, fuel);
    NoArms(t, c);
    var c1 := SelCtx(t, c);
    var pre := if t.sel.own.None? then t.sel.load(c) else [];
    var base, hi := at + |pre|, at + Len(t, c);
    var tail := base + LenArms(t, t.arms, c);
    Split(code, at, pre + GenArms(t, t.arms, c, base, brk, hi), GenAll(t.other, c1, tail, brk));
    Split(code, at, pre, GenArms(t, t.arms, c, base, brk, hi));
    var j := FirstMatch(t.arms, t.sel.val(s), 0);
    var d1, d2, n2;
    n, d1 := StartCase(t, c, code, at, d, s);
    n2, d2 := SkipArms(t, c, code, base, brk, hi, d1, s, 0, j);
    var p := base + LenArms(t, t.arms[..j], c);
    SelReadyRep(t, c, d1, s);
    SelReadyRep(t, c, d2, s);
    SelEnds(t, c, d1, d2, s);
    KeepsJoin(c, d, d1, d2);
    if j == |t.arms| {
      Join(code, at, hi, VM(at, d), at, base, n, VM(base, d1), base, tail, n2, VM(tail, d2));
      var r := EvalAll(AsWritten, t.other, s, fuel);
      var n3, end3 := SimulateAll(t.other, c1, code, tail, brk, d2, s, fuel);
      InsideCase(t, c, code, at, tail, hi, hi, brk, d, n + n2, d2, r, fuel, n3, end3);
      n, end := n + n2 + n3, end3;
      if r.Done? { Finish(c, code, at, hi, brk, d, r.s, fuel, n, end.d); }
    } else {
      var a := t.arms[j];
      ArmPlace(t, t.arms, c, code, base, brk, hi, j);
      ArmSpan(t, a, c);
      ShapeArm(t, a, c, p, brk, hi);
      var mid := p + |ArmTest(t, c, a.k)| + 2;
      var m := mid + Len(a.body, c1);
      Join(code, at, hi, VM(at, d), at, base, n, VM(base, d1), base, p, n2, VM(p, d2));
      var n3, d3 := EnterArm(t, a, c, code, p, brk, hi, d2, s);
      SelReadyRep(t, c, d3, s);
      SelEnds(t, c, d2, d3, s);
      KeepsJoin(c, d, d2, d3);
      Join(code, at, hi, VM(at, d), at, hi, n + n2, VM(p, d2), p, mid, n3, VM(mid, d3));
      var r := Eval(AsWritten, a.body, s, fuel);
      var n4, end4 := Simulate(a.body, c1, code, mid, brk, d3, s, fuel);
      InsideCase(t, c, code, at, mid, m, hi, brk, d, n + n2 + n3, d3, r, fuel, n4, end4);
      n, end := n + n2 + n3 + n4, end4;
      if r.Done? {
        TakeJump(code, m, hi - m - 2, end.d);
        Join(code, at, hi, VM(at, d), at, hi, n, end, m, m + 2, 1, VM(hi, end.d));
        n, end := n + 1, VM(hi, end.d);
        Finish(c, code, at, hi, brk, d, r.s, fuel, n, end.d);
      }
    }
  }

  // ---- every statement -----------------------------------------------------------------------

  lemma ShapeLeaf(t: Stmt, c: Ctx, at: int, brk: int)
    ensures t.Simple? ==> Gen(t, c, at, brk) == t.p.emit(c) && (Ok(t, c, at, brk) ==> PieceOk(t.p, c))
    ensures t.Assign? ==> Gen(t, c, at, brk) == t.e.assign(c, t.x) && (Ok(t, c, at, brk) ==> AssignOk(t.e, c, t.x))
    ensures t.Begin? ==> Gen(t, c, at, brk) == GenAll(t.ss, c, at, brk) && (Ok(t, c, at, brk) ==> OkAll(t.ss, c, at, brk))
    ensures t.Break? ==> Gen(t, c, at, brk) == Encode(Jump(brk - at - 2)) && Len(t, c) == 2
                         && (Ok(t, c, at, brk) ==> WellFormed(Jump(brk - at - 2)))
  {
    hide PieceOk;
    hide AssignOk;
    hide OkAll;
    hide GenAll;
    hide WellFormed;
  }

  lemma MeansLeaf(t: Stmt, s: Store, fuel: nat)
    ensures t.Simple? ==> Eval(AsWritten, t, s, fuel) == Done(t.p.upd(s))
    ensures t.Assign? ==> Eval(AsWritten, t, s, fuel) == Done(s[t.x := t.e.val(s)])
    ensures t.Begin? ==> Eval(AsWritten, t, s, fuel) == EvalAll(AsWritten, t.ss, s, fuel)
    ensures t.Break? ==> Eval(AsWritten, t, s, fuel) == Broke(s)
  {
    hide EvalAll;
  }

  // Semantic preservation, for every nesting of statements.
  lemma Simulate(t: Stmt, c: Ctx, code: seq<u16>, at: int, brk: int, d: Data, s: Store, fuel: nat) returns (n: nat, end: VM)
    requires Ok(t, c, at, brk) && Placed(code, at, Gen(t, c, at, brk)) && Rep(c, d, s)
    ensures Simulates(c, code, at, at + Len(t, c), brk, d, Eval(AsWritten, t, s, fuel), fuel, n, end)
    decreases fuel, t, 2
  {
    hide *;
    ShapeLeaf(t, c, at, brk);
    MeansLeaf(t, s, fuel);
    var hi := at + Len(t, c);
    match t
    case Simple(p) =>
      var d';
      n, d' := UsePiece(p, c, code, at, d, s);
      end := VM(hi, d');
      Finish(c, code, at, hi, brk, d, p.upd(s), fuel, n, d');
    case Assign(x, e) =>
      var d';
      n, d' := UseAssign(e, c, x, code, at, d, s);
      end := VM(hi, d');
      Finish(c, code, at, hi, brk, d, s[x := e.val(s)], fuel, n, d');
    case Begin(ss) =>
      n, end := SimulateAll(ss, c, code, at, brk, d, s, fuel);
    case IfThen(_, _) => n, end := SimulateIfThen(t, c, code, at, brk, d, s, fuel);
    case IfElse(_, _, _) => n, end := SimulateIfElse(t, c, code, at, brk, d, s, fuel);
    case While(_, _) => n, end := SimulateWhile(t, c, code, at, brk, d, s, fuel);
    case Repeat(_, _) => n, end := SimulateRepeat(t, c, code, at, brk, d, s, fuel);
    case For(_, _, _, _, _, _) => n, end := SimulateFor(t, c, code, at, brk, d, s, fuel);
    case Case(_, _, _) => n, end := SimulateCase(t, c, code, at, brk, d, s, fuel);
    case Break =>
      TakeJump(code, at, brk - at - 2, d);
      NoSteps(c, code, at, d);
      n, end := 1, VM(brk, d);
      LeaveByBreak(c, code, at, hi, brk, d, s, fuel);
  }

  lemma LeaveByBreak(c: Ctx, code: seq<u16>, lo: int, hi: int, brk: int, d: Data, s: Store, fuel: nat)
    requires Runs(code, lo, hi, VM(lo, d), 1, VM(brk, d)) && Rep(c, d, s) && Keeps(c, d, d)
    ensures Simulates(c, code, lo, hi, brk, d, Broke(s), fuel, 1, VM(brk, d))
  {
  }
}
