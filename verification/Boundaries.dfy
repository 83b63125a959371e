// The finished words of a statement as a stream of instructions: where those
// start, and which of them branch.
// src/Compiler/Compiler.c, src/Compiler/Emitter.c
module Boundaries {
  import opened Words
  import opened Isa
  import opened Codec
  import opened Statements
  import opened Preservation
  import opened Simulation
  import opened Backpatch
  import opened Compiler
  import opened Targets

  // ---- streams -------------------------------------------------------------------------------

  predicate Listed(ws: seq<u16>, prog: seq<Instr>) {
    ws == EncodeAll(prog) && forall i :: i in prog ==> WellFormed(i)
  }

  ghost predicate Streams(ws: seq<u16>) { exists prog :: Listed(ws, prog) }

  // The address of instruction `k` of a stream that starts at `at`.
  function AddressOf(prog: seq<Instr>, at: int, k: nat): int
    requires k <= |prog|
  {
    at + |EncodeAll(prog[..k])|
  }

  predicate Branching(i: Instr) { (i.Branch? && i.op != CALL) || i.BranchReg? || i.CountBranch? }

  // The instruction is no branch, one of `bs`, or at one of the addresses `own`.
  ghost predicate Known(i: Instr, a: int, bs: seq<Jumping>, own: iset<int>) {
    Branching(i) ==> Jumping(a, i) in bs || a in own
  }

  ghost predicate AllKnown(prog: seq<Instr>, at: int, bs: seq<Jumping>, own: iset<int>) {
    forall k :: 0 <= k < |prog| ==> Known(prog[k], AddressOf(prog, at, k), bs, own)
  }

  ghost predicate Begins(prog: seq<Instr>, at: int, a: int) { exists k :: 0 <= k <= |prog| && AddressOf(prog, at, k) == a }

  ghost predicate AllBegin(prog: seq<Instr>, at: int, st: iset<int>) {
    forall a :: a in st ==> Begins(prog, at, a)
  }

  // The words are a stream of instructions; every branch among them is one of
  // `bs` or at an address of `own`; an instruction starts, or the stream ends, at
  // each address of `st`.
  ghost predicate Decodes(ws: seq<u16>, at: int, bs: seq<Jumping>, own: iset<int>, st: iset<int>) {
    exists prog :: Listed(ws, prog) && AllKnown(prog, at, bs, own) && AllBegin(prog, at, st)
  }

  lemma {:induction false} EncodeAppend(p: seq<Instr>, q: seq<Instr>)
    ensures EncodeAll(p + q) == EncodeAll(p) + EncodeAll(q)
    decreases |p|
  {
    hide Encode;
    if |p| == 0 {
      assert p + q == q;
    } else {
      assert (p + q)[0] == p[0] && (p + q)[1..] == p[1..] + q;
      EncodeAppend(p[1..], q);
    }
  }

  // Two streams, one behind the other.
  lemma DecodesJoin(w1: seq<u16>, w2: seq<u16>, at: int, b1: seq<Jumping>, b2: seq<Jumping>, own: iset<int>, s1: iset<int>, s2: iset<int>)
    requires Decodes(w1, at, b1, own, s1) && Decodes(w2, at + |w1|, b2, own, s2)
    ensures Decodes(w1 + w2, at, b1 + b2, own, s1 + s2)
  {
    var p :| Listed(w1, p) && AllKnown(p, at, b1, own) && AllBegin(p, at, s1);
    var q :| Listed(w2, q) && AllKnown(q, at + |w1|, b2, own) && AllBegin(q, at + |w1|, s2);
    JoinListed(w1, w2, p, q);
    JoinKnown(p, q, at, b1, b2, own);
    JoinBegin(p, q, at, s1, s2);
    hide *;
  }

  lemma JoinListed(w1: seq<u16>, w2: seq<u16>, p: seq<Instr>, q: seq<Instr>)
    requires Listed(w1, p) && Listed(w2, q)
    ensures Listed(w1 + w2, p + q)
  {
    EncodeAppend(p, q);
    hide EncodeAll;
    hide WellFormed;
  }

  lemma JoinKnown(p: seq<Instr>, q: seq<Instr>, at: int, b1: seq<Jumping>, b2: seq<Jumping>, own: iset<int>)
    requires AllKnown(p, at, b1, own) && AllKnown(q, at + |EncodeAll(p)|, b2, own)
    ensures AllKnown(p + q, at, b1 + b2, own)
  {
    hide EncodeAll;
    hide AddressOf;
    hide Branching;
    var r, mid := p + q, at + |EncodeAll(p)|;
    forall k | 0 <= k < |r|
      ensures Known(r[k], AddressOf(r, at, k), b1 + b2, own)
    {
      SameAddress(p, q, at, k);
      if k < |p| {
        assert Known(p[k], AddressOf(p, at, k), b1, own);
      } else {
        assert Known(q[k - |p|], AddressOf(q, mid, k - |p|), b2, own);
      }
    }
  }

  lemma JoinBegin(p: seq<Instr>, q: seq<Instr>, at: int, s1: iset<int>, s2: iset<int>)
    requires AllBegin(p, at, s1) && AllBegin(q, at + |EncodeAll(p)|, s2)
    ensures AllBegin(p + q, at, s1 + s2)
  {
    hide EncodeAll;
    hide AddressOf;
    var r, mid := p + q, at + |EncodeAll(p)|;
    forall a | a in s1 + s2
      ensures Begins(r, at, a)
    {
      if a in s1 {
        assert Begins(p, at, a);
        var k :| 0 <= k <= |p| && AddressOf(p, at, k) == a;
        SameAddress(p, q, at, k);
      } else {
        assert Begins(q, mid, a);
        var k :| 0 <= k <= |q| && AddressOf(q, mid, k) == a;
        SameAddress(p, q, at, |p| + k);
      }
    }
  }

  lemma SameAddress(p: seq<Instr>, q: seq<Instr>, at: int, k: nat)
    requires k <= |p| + |q|
    ensures k <= |p| ==> AddressOf(p + q, at, k) == AddressOf(p, at, k)
    ensures k >= |p| ==> AddressOf(p + q, at, k) == AddressOf(q, at + |EncodeAll(p)|, k - |p|)
  {
    hide EncodeAll;
    if k <= |p| { assert (p + q)[..k] == p[..k]; }
    if k >= |p| {
      assert (p + q)[..k] == p + q[..k - |p|];
      EncodeAppend(p, q[..k - |p|]);
    }
  }

  lemma DecodesWiden(ws: seq<u16>, at: int, b1: seq<Jumping>, b2: seq<Jumping>, o1: iset<int>, o2: iset<int>, s1: iset<int>, s2: iset<int>)
    requires Decodes(ws, at, b1, o1, s1) && o1 <= o2 && s2 <= s1 && forall j :: j in b1 ==> j in b2
    ensures Decodes(ws, at, b2, o2, s2)
  {
    hide Listed;
    hide AddressOf;
    hide Branching;
    var p :| Listed(ws, p) && AllKnown(p, at, b1, o1) && AllBegin(p, at, s1);
    assert AllKnown(p, at, b2, o2) by {
      assert forall k :: 0 <= k < |p| ==> Known(p[k], AddressOf(p, at, k), b1, o1);
    }
  }

  lemma DecodesNothing(at: int)
    ensures Decodes([], at, [], iset{}, iset{at})
  {
    assert AddressOf([], at, 0) == at;
    assert Listed([], []);
    assert Begins([], at, at);
  }

  // A branch by itself, and another instruction.
  lemma DecodesOne(i: Instr, at: int)
    requires WellFormed(i)
    ensures Decodes(Encode(i), at, [Jumping(at, i)], iset{}, iset{at, at + Size(i)})
    ensures !Branching(i) ==> Decodes(Encode(i), at, [], iset{}, iset{at, at + Size(i)})
  {
    var p := [i];
    hide Encode;
    hide WellFormed;
    assert EncodeAll(p) == Encode(i) by {
      assert p[1..] == [];
    }
    assert p[..0] == [] && p[..1] == p;
    assert AddressOf(p, at, 0) == at && AddressOf(p, at, 1) == at + Size(i);
    assert Listed(Encode(i), p);
    assert Begins(p, at, at) && Begins(p, at, at + Size(i));
    assert AllBegin(p, at, iset{at, at + Size(i)});
    assert AllKnown(p, at, [Jumping(at, i)], iset{});
    if !Branching(i) { assert AllKnown(p, at, [], iset{}); }
  }

  predicate Within(a: int, at: int, n: nat) { at <= a < at + n }

  ghost function Span(at: int, n: nat): iset<int> { iset a | Within(a, at, n) }

  lemma DecodesExpr(ws: seq<u16>, at: int)
    requires Streams(ws)
    ensures Decodes(ws, at, [], Span(at, |ws|), iset{at, at + |ws|})
  {
    var p :| Listed(ws, p);
    hide WellFormed;
    assert p[..|p|] == p && p[..0] == [];
    assert AddressOf(p, at, 0) == at && AddressOf(p, at, |p|) == at + |ws|;
    forall k | 0 <= k < |p|
      ensures Known(p[k], AddressOf(p, at, k), [], Span(at, |ws|))
    {
      assert p == p[..k] + p[k..];
      EncodeAppend(p[..k], p[k..]);
      assert |EncodeAll(p[k..])| > 0;
    }
    assert Begins(p, at, at) && Begins(p, at, at + |ws|);
  }

  // ---- expression code ------------------------------------------------------------------------

  // All expression code of a statement is a stream of instructions, and the move
  // of each counter back to its variable can be encoded.
  ghost predicate Readable(t: Stmt, c: Ctx)
    decreases t, 1
  {
    match t
    case Simple(p) => Streams(p.emit(c))
    case Assign(x, e) => Streams(e.assign(c, x))
    case Begin(ss) => ReadableAll(ss, c)
    case IfThen(b, thn) => Streams(b.emit(c)) && Readable(thn, CondCtx(t, c))
    case IfElse(b, thn, els) => Streams(b.emit(c)) && Readable(thn, CondCtx(t, c)) && Readable(els, CondCtx(t, c))
    case While(b, body) => Streams(b.emit(c)) && Readable(body, CondCtx(t, c))
    case Repeat(ss, b) => ReadableAll(ss, c) && Streams(b.emit(c))
    case For(x, _, _, first, last, body) =>
      Streams(first.assign(CounterCtx(t, c), x)) && Streams(last.load(StopCtx(t, c)))
      && WellFormed(MoveOut(Home(c, x), Free(c))) && Readable(body, BodyCtx(t, c))
    case Case(sel, arms, other) =>
      (sel.own.None? ==> Streams(sel.load(c))) && ReadableArms(t, arms, c) && ReadableAll(other, SelCtx(t, c))
    case Break => true
  }

  ghost predicate ReadableAll(ss: seq<Stmt>, c: Ctx)
    decreases ss, 0
  {
    |ss| == 0 || (ReadableAll(ss[..|ss| - 1], c) && Readable(ss[|ss| - 1], c))
  }

  ghost predicate ReadableArms(t: Stmt, arms: seq<Arm>, c: Ctx)
    requires t.Case?
    decreases arms, 0
  {
    |arms| == 0 || (ReadableArms(t, arms[..|arms| - 1], c) && ReadableArm(t, arms[|arms| - 1], c))
  }

  ghost predicate ReadableArm(t: Stmt, a: Arm, c: Ctx)
    requires t.Case?
    decreases a, 0
  {
    Streams(Reload(t, c)) && Readable(a.body, SelCtx(t, c))
  }

  // The addresses of expression code.
  ghost function Exprs(t: Stmt, c: Ctx, at: int): iset<int>
    decreases t, 1
  {
    match t
    case Simple(p) => Span(at, |p.emit(c)|)
    case Assign(x, e) => Span(at, |e.assign(c, x)|)
    case Begin(ss) => ExprsAll(ss, c, at)
    case IfThen(b, thn) => Span(at, |b.emit(c)|) + Exprs(thn, CondCtx(t, c), at + |b.emit(c)| + 2)
    case IfElse(b, thn, els) =>
      var c1, mid := CondCtx(t, c), at + |b.emit(c)| + 2;
      Span(at, |b.emit(c)|) + Exprs(thn, c1, mid) + Exprs(els, c1, mid + Len(thn, c1) + 2)
    case While(b, body) => Span(at, |b.emit(c)|) + Exprs(body, CondCtx(t, c), at + |b.emit(c)| + 2)
    case Repeat(ss, b) => ExprsAll(ss, c, at) + Span(at + LenAll(ss, c), |b.emit(c)|)
    case For(_, _, _, _, _, body) => Span(at, ForPrefix(t, c)) + Exprs(body, BodyCtx(t, c), at + ForPrefix(t, c) + 3)
    case Case(_, arms, other) =>
      var base := at + CasePrefix(t, c);
      Span(at, CasePrefix(t, c)) + ExprsArms(t, arms, c, base) + ExprsAll(other, SelCtx(t, c), base + LenArms(t, arms, c))
    case Break => iset{}
  }

  ghost function ExprsAll(ss: seq<Stmt>, c: Ctx, at: int): iset<int>
    decreases ss, 0
  {
    if |ss| == 0 then iset{} else
    var front := ss[..|ss| - 1];
    ExprsAll(front, c, at) + Exprs(ss[|ss| - 1], c, at + LenAll(front, c))
  }

  ghost function ExprsArms(t: Stmt, arms: seq<Arm>, c: Ctx, at: int): iset<int>
    requires t.Case?
    decreases arms, 0
  {
    if |arms| == 0 then iset{} else
    var front := arms[..|arms| - 1];
    ExprsArms(t, front, c, at) + ExprsArm(t, arms[|arms| - 1], c, at + LenArms(t, front, c))
  }

  // The literal and the selector of an arm's test are expression code.
  ghost function ExprsArm(t: Stmt, a: Arm, c: Ctx, at: int): iset<int>
    requires t.Case?
    decreases a, 0
  {
    Span(at, |ArmTest(t, c, a.k)|) + Exprs(a.body, SelCtx(t, c), at + |ArmTest(t, c, a.k)| + 2)
  }

  // ---- statements ----------------------------------------------------------------------------------

  // Every statement decodes as a stream.  Its branches are those of `Branches`,
  // besides what expression code has of its own; and every place that control
  // enters by a branch is the start of an instruction, or the end.
  lemma StatementDecodes(t: Stmt, c: Ctx, at: int, brk: int)
    requires Ok(t, c, at, brk) && Readable(t, c)
    ensures Decodes(Gen(t, c, at, brk), at, Branches(t, c, at, brk), Exprs(t, c, at), Starts(t, c, at))
    decreases t, 2
  {
    hide *;
    match t
    case Simple(p) => LeafDecodes(t, c, at, brk);
    case Assign(x, e) => LeafDecodes(t, c, at, brk);
    case Break => LeafDecodes(t, c, at, brk);
    case Begin(ss) => BeginDecodes(t, c, at, brk);
    case IfThen(_, _) => IfThenDecodes(t, c, at, brk);
    case IfElse(_, _, _) => IfElseDecodes(t, c, at, brk);
    case While(_, _) => WhileDecodes(t, c, at, brk);
    case Repeat(_, _) => RepeatDecodes(t, c, at, brk);
    case For(_, _, _, _, _, _) => ForDecodes(t, c, at, brk);
    case Case(_, _, _) => CaseDecodes(t, c, at, brk);
  }

  // So every branch a statement writes goes to the start of one of its own
  // instructions, to its end, or to the break target.
  lemma TargetsAreBoundaries(t: Stmt, c: Ctx, code: seq<u16>, at: int, brk: int) returns (prog: seq<Instr>)
    requires Ok(t, c, at, brk) && Readable(t, c) && Placed(code, at, Gen(t, c, at, brk))
    ensures Listed(Gen(t, c, at, brk), prog) && AllKnown(prog, at, Branches(t, c, at, brk), Exprs(t, c, at))
    ensures forall k :: 0 <= k < |Branches(t, c, at, brk)| ==> Goes(Branches(t, c, at, brk)[k], prog, at, brk)
  {
    hide *;
    StatementDecodes(t, c, at, brk);
    BranchesLand(t, c, code, at, brk);
    prog := TheStream(Gen(t, c, at, brk), at, Branches(t, c, at, brk), Exprs(t, c, at), Starts(t, c, at));
    LandedBegin(code, prog, Branches(t, c, at, brk), at, at + Len(t, c), Starts(t, c, at), brk);
  }

  ghost predicate Goes(j: Jumping, prog: seq<Instr>, at: int, brk: int) {
    IsSite(j.i) && (Target(j.i, j.site) == brk || Begins(prog, at, Target(j.i, j.site)))
  }

  lemma TheStream(ws: seq<u16>, at: int, bs: seq<Jumping>, own: iset<int>, st: iset<int>) returns (prog: seq<Instr>)
    requires Decodes(ws, at, bs, own, st)
    ensures Listed(ws, prog) && AllKnown(prog, at, bs, own) && AllBegin(prog, at, st)
  {
    prog :| Listed(ws, prog) && AllKnown(prog, at, bs, own) && AllBegin(prog, at, st);
  }

  lemma LandedBegin(code: seq<u16>, prog: seq<Instr>, bs: seq<Jumping>, lo: int, hi: int, st: iset<int>, brk: int)
    requires Land(code, bs, lo, hi, st + iset{brk}) && AllBegin(prog, lo, st)
    ensures forall k :: 0 <= k < |bs| ==> Goes(bs[k], prog, lo, brk)
  {
    hide Begins;
    hide Target;
    hide IsSite;
    hide Placed;
    hide Encode;
    forall k | 0 <= k < |bs|
      ensures Goes(bs[k], prog, lo, brk)
    {
      assert Lands(code, bs[k], lo, hi, st + iset{brk});
    }
  }

  lemma DecodesThen(w1: seq<u16>, w2: seq<u16>, at: int, b1: seq<Jumping>, b2: seq<Jumping>, o1: iset<int>, o2: iset<int>,
                    s1: iset<int>, s2: iset<int>, own: iset<int>, st: iset<int>)
    requires Decodes(w1, at, b1, o1, s1) && Decodes(w2, at + |w1|, b2, o2, s2)
    requires o1 <= own && o2 <= own && st <= s1 + s2
    ensures Decodes(w1 + w2, at, b1 + b2, own, st)
  {
    hide *;
    DecodesWiden(w1, at, b1, b1, o1, own, s1, s1);
    DecodesWiden(w2, at + |w1|, b2, b2, o2, own, s2, s2);
    DecodesJoin(w1, w2, at, b1, b2, own, s1, s2);
    DecodesWiden(w1 + w2, at, b1 + b2, b1 + b2, own, own, s1 + s2, st);
  }

  lemma EndIsEnd(t: Stmt, c: Ctx, at: int)
    ensures at in Starts(t, c, at) && at + Len(t, c) in Starts(t, c, at)
  {
    hide Len;
    hide StartsAll;
    hide StartsArms;
  }

  lemma LeafParts(t: Stmt, c: Ctx, at: int, brk: int)
    requires t.Simple? || t.Assign? || t.Break?
    ensures var ws := if t.Simple? then t.p.emit(c) else if t.Assign? then t.e.assign(c, t.x) else Encode(Jump(brk - at - 2));
            && Gen(t, c, at, brk) == ws && Starts(t, c, at) == iset{at, at + |ws|}
            && (!t.Break? ==> Exprs(t, c, at) == Span(at, |ws|) && Branches(t, c, at, brk) == [] && (Readable(t, c) ==> Streams(ws)))
            && (t.Break? ==> Exprs(t, c, at) == iset{} && Branches(t, c, at, brk) == [Jumping(at, Jump(brk - at - 2))])
            && (Ok(t, c, at, brk) && t.Break? ==> WellFormed(Jump(brk - at - 2)))
  {
    hide Streams;
    hide Span;
    hide WellFormed;
    hide PieceOk;
    hide AssignOk;
    hide Encode;
  }

  lemma LeafDecodes(t: Stmt, c: Ctx, at: int, brk: int)
    requires (t.Simple? || t.Assign? || t.Break?) && Ok(t, c, at, brk) && Readable(t, c)
    ensures Decodes(Gen(t, c, at, brk), at, Branches(t, c, at, brk), Exprs(t, c, at), Starts(t, c, at))
  {
    hide *;
    LeafParts(t, c, at, brk);
    if t.Break? {
      DecodesOne(Jump(brk - at - 2), at);
    } else {
      DecodesExpr(Gen(t, c, at, brk), at);
    }
  }

  lemma BeginParts(t: Stmt, c: Ctx, at: int)
    requires t.Begin?
    ensures Exprs(t, c, at) == ExprsAll(t.ss, c, at) && (Readable(t, c) ==> ReadableAll(t.ss, c)) && Len(t, c) == LenAll(t.ss, c)
    ensures Starts(t, c, at) == iset{at, at + Len(t, c)} + StartsAll(t.ss, c, at)
  {
    hide ExprsAll;
    hide ReadableAll;
    hide StartsAll;
    hide LenAll;
  }

  lemma BeginDecodes(t: Stmt, c: Ctx, at: int, brk: int)
    requires t.Begin? && Ok(t, c, at, brk) && Readable(t, c)
    ensures Decodes(Gen(t, c, at, brk), at, Branches(t, c, at, brk), Exprs(t, c, at), Starts(t, c, at))
    decreases t, 1
  {
    hide *;
    ShapeLeaf(t, c, at, brk);
    LandLeaf(t, c, at, brk);
    BeginParts(t, c, at);
    AllDecode(t.ss, c, at, brk);
    var b, o, s := Branches(t, c, at, brk), Exprs(t, c, at), StartsAll(t.ss, c, at);
    DecodesWiden(Gen(t, c, at, brk), at, b, b, o, o, s + iset{at, at + LenAll(t.ss, c)}, Starts(t, c, at));
  }

  lemma ListParts(ss: seq<Stmt>, c: Ctx, at: int)
    requires |ss| > 0
    ensures var front, last := ss[..|ss| - 1], ss[|ss| - 1];
            var mid := at + LenAll(front, c);
            && ExprsAll(ss, c, at) == ExprsAll(front, c, at) + Exprs(last, c, mid)
            && (ReadableAll(ss, c) ==> ReadableAll(front, c) && Readable(last, c))
  {
    hide Len;
    hide Exprs;
    hide Readable;
  }

  lemma NoneListed(c: Ctx, at: int, brk: int)
    ensures GenAll([], c, at, brk) == [] && BranchesAll([], c, at, brk) == [] && ExprsAll([], c, at) == iset{}
            && StartsAll([], c, at) == iset{} && LenAll([], c) == 0
  {
  }

  lemma AllDecode(ss: seq<Stmt>, c: Ctx, at: int, brk: int)
    requires OkAll(ss, c, at, brk) && ReadableAll(ss, c)
    ensures Decodes(GenAll(ss, c, at, brk), at, BranchesAll(ss, c, at, brk), ExprsAll(ss, c, at),
                    StartsAll(ss, c, at) + iset{at, at + LenAll(ss, c)})
    decreases ss, 0
  {
    hide *;
    if |ss| == 0 {
      assert ss == [];
      NoneListed(c, at, brk);
      DecodesNothing(at);
      assert iset{} + iset{at, at + 0} == iset{at};
    } else {
      var front, last := ss[..|ss| - 1], ss[|ss| - 1];
      var mid := at + LenAll(front, c);
      ShapeAll(ss, c, at, brk);
      ShapeList(ss, c, at, brk);
      ListParts(ss, c, at);
      AllDecode(front, c, at, brk);
      StatementDecodes(last, c, mid, brk);
      EndIsEnd(last, c, mid);
      DecodesThen(GenAll(front, c, at, brk), Gen(last, c, mid, brk), at, BranchesAll(front, c, at, brk), Branches(last, c, mid, brk),
                  ExprsAll(front, c, at), Exprs(last, c, mid), StartsAll(front, c, at) + iset{at, mid}, Starts(last, c, mid),
                  ExprsAll(ss, c, at), StartsAll(ss, c, at) + iset{at, at + LenAll(ss, c)});
    }
  }

  // An expression and the branch behind it.
  lemma TestDecodes(w: seq<u16>, i: Instr, at: int)
    requires Streams(w) && WellFormed(i)
    ensures Decodes(w + Encode(i), at, [Jumping(at + |w|, i)], Span(at, |w|), iset{at, at + |w| + Size(i)})
  {
    hide *;
    var j := [Jumping(at + |w|, i)];
    DecodesExpr(w, at);
    DecodesOne(i, at + |w|);
    DecodesThen(w, Encode(i), at, [], j, Span(at, |w|), iset{}, iset{at, at + |w|}, iset{at + |w|, at + |w| + Size(i)},
                Span(at, |w|), iset{at, at + |w| + Size(i)});
    assert [] + j == j;
  }

  lemma CondIsTwo(l: CondLoc, off: int)
    ensures Size(BranchIfFalse(l, off)) == 2 && Size(BranchIfTrue(l, off)) == 2 && Size(Jump(off)) == 2
  {
  }

  lemma IfParts(t: Stmt, c: Ctx, at: int)
    requires t.IfThen? || t.IfElse?
    ensures var w, c1 := |t.b.emit(c)|, CondCtx(t, c);
            && Exprs(t, c, at) == Span(at, w) + Exprs(t.thn, c1, at + w + 2)
                                  + (if t.IfElse? then Exprs(t.els, c1, at + w + 2 + Len(t.thn, c1) + 2) else iset{})
            && (Readable(t, c) ==> Streams(t.b.emit(c)) && Readable(t.thn, c1) && (t.IfElse? ==> Readable(t.els, c1)))
  {
    hide CondCtx;
    hide Len;
    hide Streams;
    hide Span;
  }

  lemma IfThenDecodes(t: Stmt, c: Ctx, at: int, brk: int)
    requires t.IfThen? && Ok(t, c, at, brk) && Readable(t, c)
    ensures Decodes(Gen(t, c, at, brk), at, Branches(t, c, at, brk), Exprs(t, c, at), Starts(t, c, at))
    decreases t, 1
  {
    hide *;
    ShapeIfThen(t, c, at, brk);
    IntactCtx(t, c);
    PartsIfThen(t, c, at, brk);
    IfParts(t, c, at);
    var w, i := t.b.emit(c), BranchIfFalse(t.b.loc(c), Len(t.thn, c));
    var mid := at + |w| + 2;
    CondIsTwo(t.b.loc(c), Len(t.thn, c));
    TestDecodes(w, i, at);
    StatementDecodes(t.thn, c, mid, brk);
    EndIsEnd(t.thn, c, mid);
    DecodesThen(w + Encode(i), Gen(t.thn, c, mid, brk), at, [Jumping(at + |w|, i)], Branches(t.thn, c, mid, brk),
                Span(at, |w|), Exprs(t.thn, c, mid), iset{at, mid}, Starts(t.thn, c, mid), Exprs(t, c, at), Starts(t, c, at));
  }

  lemma IfElseDecodes(t: Stmt, c: Ctx, at: int, brk: int)
    requires t.IfElse? && Ok(t, c, at, brk) && Readable(t, c)
    ensures Decodes(Gen(t, c, at, brk), at, Branches(t, c, at, brk), Exprs(t, c, at), Starts(t, c, at))
    decreases t, 1
  {
    hide *;
    ShapeIfElse(t, c, at, brk);
    OkIfElse(t, c, at, brk);
    IntactCtx(t, c);
    PartsIfElse(t, c, at, brk);
    IfParts(t, c, at);
    var w, i, jump := t.b.emit(c), BranchIfFalse(t.b.loc(c), Len(t.thn, c) + 2), Jump(Len(t.els, c));
    var mid := at + |w| + 2;
    var m := mid + Len(t.thn, c);
    var j1, j3 := [Jumping(at + |w|, i)], [Jumping(m, jump)];
    var j2, j4, o := Branches(t.thn, c, mid, brk), Branches(t.els, c, m + 2, brk), Exprs(t, c, at);
    CondIsTwo(t.b.loc(c), Len(t.thn, c) + 2);
    CondIsTwo(t.b.loc(c), Len(t.els, c));
    TestDecodes(w, i, at);
    StatementDecodes(t.thn, c, mid, brk);
    DecodesOne(jump, m);
    StatementDecodes(t.els, c, m + 2, brk);
    EndIsEnd(t.els, c, m + 2);
    var s1 := iset{at} + Starts(t.thn, c, mid);
    var thn, els := Gen(t.thn, c, mid, brk), Gen(t.els, c, m + 2, brk);
    DecodesThen(w + Encode(i), thn, at, j1, j2, Span(at, |w|), Exprs(t.thn, c, mid), iset{at, mid}, Starts(t.thn, c, mid), o, s1);
    DecodesThen(w + Encode(i) + thn, Encode(jump), at, j1 + j2, j3, o, iset{}, s1, iset{m, m + 2}, o, s1);
    DecodesThen(w + Encode(i) + thn + Encode(jump), els, at, j1 + j2 + j3, j4, o, Exprs(t.els, c, m + 2), s1, Starts(t.els, c, m + 2),
                o, Starts(t, c, at));
  }

  lemma LoopsParts(t: Stmt, c: Ctx, at: int)
    ensures t.While? ==> Exprs(t, c, at) == Span(at, |t.b.emit(c)|) + Exprs(t.body, CondCtx(t, c), at + |t.b.emit(c)| + 2)
                         && (Readable(t, c) ==> Streams(t.b.emit(c)) && Readable(t.body, CondCtx(t, c)))
    ensures t.Repeat? ==> Exprs(t, c, at) == ExprsAll(t.ss, c, at) + Span(at + LenAll(t.ss, c), |t.b.emit(c)|)
                          && (Readable(t, c) ==> Streams(t.b.emit(c)) && ReadableAll(t.ss, c))
  {
    hide LenAll;
    hide ExprsAll;
    hide ReadableAll;
    hide Streams;
    hide Span;
    hide CondCtx;
  }

  lemma WhileDecodes(t: Stmt, c: Ctx, at: int, brk: int)
    requires t.While? && Ok(t, c, at, brk) && Readable(t, c)
    ensures Decodes(Gen(t, c, at, brk), at, Branches(t, c, at, brk), Exprs(t, c, at), Starts(t, c, at))
    decreases t, 1
  {
    hide *;
    ShapeWhile(t, c, at, brk);
    OkWhile(t, c, at, brk);
    IntactCtx(t, c);
    PartsWhile(t, c, at, brk);
    LoopsParts(t, c, at);
    var l: int := Len(t.body, c);
    var w, i := t.b.emit(c), BranchIfFalse(t.b.loc(c), l + 2);
    var mid, hi := at + |w| + 2, at + |w| + 2 + l + 2;
    var jump, o := Jump(at - hi), Exprs(t, c, at);
    CondIsTwo(t.b.loc(c), l + 2);
    CondIsTwo(t.b.loc(c), at - hi);
    TestDecodes(w, i, at);
    StatementDecodes(t.body, c, mid, hi);
    DecodesOne(jump, hi - 2);
    var s1, j1, j2 := iset{at} + Starts(t.body, c, mid), [Jumping(at + |w|, i)], Branches(t.body, c, mid, hi);
    var body := Gen(t.body, c, mid, hi);
    DecodesThen(w + Encode(i), body, at, j1, j2, Span(at, |w|), Exprs(t.body, c, mid), iset{at, mid}, Starts(t.body, c, mid), o, s1);
    DecodesThen(w + Encode(i) + body, Encode(jump), at, j1 + j2, [Jumping(hi - 2, jump)], o, iset{}, s1, iset{hi - 2, hi}, o, Starts(t, c, at));
  }

  lemma RepeatDecodes(t: Stmt, c: Ctx, at: int, brk: int)
    requires t.Repeat? && Ok(t, c, at, brk) && Readable(t, c)
    ensures Decodes(Gen(t, c, at, brk), at, Branches(t, c, at, brk), Exprs(t, c, at), Starts(t, c, at))
    decreases t, 1
  {
    hide *;
    ShapeRepeat(t, c, at, brk);
    PartsRepeat(t, c, at, brk);
    LoopsParts(t, c, at);
    var w, ss, mid := t.b.emit(c), GenAll(t.ss, c, at, brk), at + LenAll(t.ss, c);
    var hi := mid + |w| + 2;
    var i := BranchIfFalse(t.b.loc(c), at - hi);
    CondIsTwo(t.b.loc(c), at - hi);
    AllDecode(t.ss, c, at, brk);
    TestDecodes(w, i, mid);
    DecodesThen(ss, w + Encode(i), at, BranchesAll(t.ss, c, at, brk), [Jumping(hi - 2, i)], ExprsAll(t.ss, c, at), Span(mid, |w|),
                StartsAll(t.ss, c, at) + iset{at, mid}, iset{mid, hi}, Exprs(t, c, at), Starts(t, c, at));
    assert ss + w + Encode(i) == ss + (w + Encode(i));
  }

  lemma ForExprs(t: Stmt, c: Ctx, at: int)
    requires t.For?
    ensures var pre := |t.first.assign(CounterCtx(t, c), t.x)| + |t.last.load(StopCtx(t, c))|;
            && Exprs(t, c, at) == Span(at, pre) + Exprs(t.body, BodyCtx(t, c), at + pre + 3)
            && (Readable(t, c) ==> Streams(t.first.assign(CounterCtx(t, c), t.x)) && Streams(t.last.load(StopCtx(t, c)))
                                   && WellFormed(MoveOut(Home(c, t.x), Free(c))) && Readable(t.body, BodyCtx(t, c)))
  {
    hide CounterCtx;
    hide StopCtx;
    hide BodyCtx;
    hide WellFormed;
    hide MoveOut;
    hide Streams;
    hide Span;
  }

  lemma StreamsAppend(a: seq<u16>, b: seq<u16>)
    requires Streams(a) && Streams(b)
    ensures Streams(a + b)
  {
    var p :| Listed(a, p);
    var q :| Listed(b, q);
    EncodeAppend(p, q);
    hide EncodeAll;
    hide WellFormed;
    assert Listed(a + b, p + q);
  }

  lemma OneStreams(i: Instr)
    requires WellFormed(i)
    ensures Streams(Encode(i))
  {
    hide WellFormed;
    hide Encode;
    assert EncodeAll([i]) == Encode(i) by {
      assert [i][1..] == [];
    }
    assert Listed(Encode(i), [i]);
  }

  // A comparison, which is no branch, between two streams.
  lemma CompareIsPlain(ty: CounterType, up: bool, i: reg, stop: reg)
    ensures var x := CompareCounter(ty, up, i, stop); WellFormed(x) && !Branching(x) && Size(x) == 1
  {
  }

  lemma MoveIsPlain(l: Loc, r: reg)
    ensures !Branching(MoveOut(l, r))
  {
  }

  lemma CountIsTwo(r: reg, up: bool, off: int)
    ensures Size(CountBranch(r, if up then 1 else -1, off)) == 2
    ensures WellFormed(CountBranch(r, 1, off)) ==> WellFormed(CountBranch(r, if up then 1 else -1, off))
  {
  }

  // The loop of a for statement.
  lemma LoopDecodes(t: Stmt, c: Ctx, head: int)
    requires t.For? && OkFor(t, c, Len(t.body, BodyCtx(t, c))) && Readable(t.body, BodyCtx(t, c))
    requires Ok(t.body, BodyCtx(t, c), head + 3, head + 5 + Len(t.body, BodyCtx(t, c)))
    ensures var c2 := BodyCtx(t, c);
            var l: int := Len(t.body, c2);
            Decodes(LoopWords(t, c, head), head,
                    [Jumping(head + 1, BranchIfFalse(Flag(false), l + 2))] + Branches(t.body, c2, head + 3, head + 5 + l)
                      + [Jumping(head + 3 + l, CountBranch(Free(c), if t.up then 1 else -1, -(l + 5)))],
                    Exprs(t.body, c2, head + 3), iset{head, head + 5 + l} + Starts(t.body, c2, head + 3))
    decreases t, 0
  {
    hide *;
    LoopParts(t, c, head);
    LoopFits(t, c);
    var c2 := BodyCtx(t, c);
    var l: int := Len(t.body, c2);
    var cmp := CompareCounter(t.ty, t.up, Free(c), t.last.reg(StopCtx(t, c)));
    var i, cnt := BranchIfFalse(Flag(false), l + 2), CountBranch(Free(c), if t.up then 1 else -1, -(l + 5));
    CompareIsPlain(t.ty, t.up, Free(c), t.last.reg(StopCtx(t, c)));
    CondIsTwo(Flag(false), l + 2);
    CountIsTwo(Free(c), t.up, -(l + 5));
    DecodesOne(cmp, head);
    DecodesOne(i, head + 1);
    StatementDecodes(t.body, c2, head + 3, head + 5 + l);
    DecodesOne(cnt, head + 3 + l);
    var o, j1, j2, s := Exprs(t.body, c2, head + 3), [Jumping(head + 1, i)], Branches(t.body, c2, head + 3, head + 5 + l), Starts(t.body, c2, head + 3);
    var body := Gen(t.body, c2, head + 3, head + 5 + l);
    DecodesThen(Encode(cmp), Encode(i), head, [], j1, iset{}, iset{}, iset{head, head + 1}, iset{head + 1, head + 3}, o, iset{head});
    assert [] + j1 == j1;
    DecodesThen(Encode(cmp) + Encode(i), body, head, j1, j2, o, o, iset{head}, s, o, iset{head} + s);
    DecodesThen(Encode(cmp) + Encode(i) + body, Encode(cnt), head, j1 + j2, [Jumping(head + 3 + l, cnt)], o, iset{}, iset{head} + s,
                iset{head + 3 + l, head + 5 + l}, o, iset{head, head + 5 + l} + s);
  }

  lemma LoopFits(t: Stmt, c: Ctx)
    requires t.For? && OkFor(t, c, Len(t.body, BodyCtx(t, c)))
    ensures var l: int := Len(t.body, BodyCtx(t, c));
            WellFormed(BranchIfFalse(Flag(false), l + 2)) && WellFormed(CountBranch(Free(c), 1, -(l + 5)))
  {
    hide Len;
    hide AssignOk;
    hide LoadOk;
    hide WellFormed;
    hide Free;
    var l: int := Len(t.body, BodyCtx(t, c));
    assert -(3 + l + 2) == -(l + 5);
  }

  lemma ForDecodes(t: Stmt, c: Ctx, at: int, brk: int)
    requires t.For? && Ok(t, c, at, brk) && Readable(t, c)
    ensures Decodes(Gen(t, c, at, brk), at, Branches(t, c, at, brk), Exprs(t, c, at), Starts(t, c, at))
    decreases t, 1
  {
    hide *;
    ShapeFor(t, c, at, brk);
    PartsFor(t, c, at, brk);
    ForExprs(t, c, at);
    var init, load := t.first.assign(CounterCtx(t, c), t.x), t.last.load(StopCtx(t, c));
    var head, move, o := at + |init| + |load|, MoveOut(Home(c, t.x), Free(c)), Exprs(t, c, at);
    var fin := head + 5 + Len(t.body, BodyCtx(t, c));
    var b, s := Branches(t, c, at, brk), iset{head, fin} + Starts(t.body, BodyCtx(t, c), head + 3);
    StreamsAppend(init, load);
    DecodesExpr(init + load, at);
    LoopDecodes(t, c, head);
    MoveIsPlain(Home(c, t.x), Free(c));
    DecodesOne(move, fin);
    DecodesThen(init + load, LoopWords(t, c, head), at, [], b, Span(at, |init + load|), Exprs(t.body, BodyCtx(t, c), head + 3),
                iset{at, head}, s, o, iset{at} + s);
    assert [] + b == b;
    DecodesThen(init + load + LoopWords(t, c, head), Encode(move), at, b, [], o, iset{}, iset{at} + s, iset{fin, fin + Size(move)},
                o, Starts(t, c, at));
    assert b + [] == b;
  }

  lemma CaseExprs(t: Stmt, c: Ctx, at: int)
    requires t.Case?
    ensures var pre := if t.sel.own.None? then t.sel.load(c) else [];
            var base := at + |pre|;
            && Exprs(t, c, at) == Span(at, |pre|) + ExprsArms(t, t.arms, c, base) + ExprsAll(t.other, SelCtx(t, c), base + LenArms(t, t.arms, c))
            && (Readable(t, c) ==> (t.sel.own.None? ==> Streams(pre)) && ReadableArms(t, t.arms, c) && ReadableAll(t.other, SelCtx(t, c)))
  {
    hide SelCtx;
    hide LenArms;
    hide ExprsArms;
    hide ExprsAll;
    hide ReadableArms;
    hide ReadableAll;
    hide Streams;
    hide Span;
  }

  lemma NothingStreams()
    ensures Streams([])
  {
    assert Listed([], []);
  }

  lemma CaseDecodes(t: Stmt, c: Ctx, at: int, brk: int)
    requires t.Case? && Ok(t, c, at, brk) && Readable(t, c)
    ensures Decodes(Gen(t, c, at, brk), at, Branches(t, c, at, brk), Exprs(t, c, at), Starts(t, c, at))
    decreases t, 1
  {
    hide *;
    ShapeCase(t, c, at, brk);
    PartsCase(t, c, at, brk);
    CaseExprs(t, c, at);
    NothingStreams();
    var c1 := SelCtx(t, c);
    var pre := if t.sel.own.None? then t.sel.load(c) else [];
    var base, hi, o := at + |pre|, at + Len(t, c), Exprs(t, c, at);
    var tail := base + LenArms(t, t.arms, c);
    var arms, other := GenArms(t, t.arms, c, base, brk, hi), GenAll(t.other, c1, tail, brk);
    var b1, b2 := BranchesArms(t, t.arms, c, base, brk, hi), BranchesAll(t.other, c1, tail, brk);
    DecodesExpr(pre, at);
    ArmsDecode(t, t.arms, c, base, brk, hi);
    AllDecode(t.other, c1, tail, brk);
    var s1 := iset{at, tail} + StartsArms(t, t.arms, c, base);
    DecodesThen(pre, arms, at, [], b1, Span(at, |pre|), ExprsArms(t, t.arms, c, base), iset{at, base},
                StartsArms(t, t.arms, c, base) + iset{base, tail}, o, s1);
    assert [] + b1 == b1;
    DecodesThen(pre + arms, other, at, b1, b2, o, ExprsAll(t.other, c1, tail), s1, StartsAll(t.other, c1, tail) + iset{tail, hi}, o, Starts(t, c, at));
  }

  lemma ArmsParts(t: Stmt, arms: seq<Arm>, c: Ctx, at: int, brk: int, out: int)
    requires t.Case? && |arms| > 0
    ensures var front, last := arms[..|arms| - 1], arms[|arms| - 1];
            var mid := at + LenArms(t, front, c);
            && LenArms(t, arms, c) == LenArms(t, front, c) + LenArm(t, last, c)
            && ExprsArms(t, arms, c, at) == ExprsArms(t, front, c, at) + ExprsArm(t, last, c, mid)
            && (ReadableArms(t, arms, c) ==> ReadableArms(t, front, c) && ReadableArm(t, last, c))
            && (OkArms(t, arms, c, at, brk, out) ==> OkArms(t, front, c, at, brk, out) && OkArm(t, last, c, mid, brk, out))
  {
    hide LenArm;
    hide ExprsArm;
    hide ReadableArm;
    hide OkArm;
  }

  lemma NoneArmed(t: Stmt, c: Ctx, at: int, brk: int, out: int)
    requires t.Case?
    ensures GenArms(t, [], c, at, brk, out) == [] && BranchesArms(t, [], c, at, brk, out) == [] && ExprsArms(t, [], c, at) == iset{}
            && StartsArms(t, [], c, at) == iset{} && LenArms(t, [], c) == 0
  {
  }

  lemma ArmsDecode(t: Stmt, arms: seq<Arm>, c: Ctx, at: int, brk: int, out: int)
    requires t.Case? && OkArms(t, arms, c, at, brk, out) && ReadableArms(t, arms, c)
    ensures Decodes(GenArms(t, arms, c, at, brk, out), at, BranchesArms(t, arms, c, at, brk, out), ExprsArms(t, arms, c, at),
                    StartsArms(t, arms, c, at) + iset{at, at + LenArms(t, arms, c)})
    decreases arms, 0
  {
    hide *;
    if |arms| == 0 {
      assert arms == [];
      NoneArmed(t, c, at, brk, out);
      DecodesNothing(at);
      assert iset{} + iset{at, at + 0} == iset{at};
    } else {
      var front, last := arms[..|arms| - 1], arms[|arms| - 1];
      var mid := at + LenArms(t, front, c);
      ShapeArmsBreaks(t, arms, c, at, brk, out);
      PartsArms(t, arms, c, at, brk, out);
      ArmsParts(t, arms, c, at, brk, out);
      ArmsDecode(t, front, c, at, brk, out);
      ArmDecodes(t, last, c, mid, brk, out);
      ArmEnds(t, last, c, mid);
      DecodesThen(GenArms(t, front, c, at, brk, out), GenArm(t, last, c, mid, brk, out), at,
                  BranchesArms(t, front, c, at, brk, out), BranchesArm(t, last, c, mid, brk, out),
                  ExprsArms(t, front, c, at), ExprsArm(t, last, c, mid), StartsArms(t, front, c, at) + iset{at, mid}, StartsArm(t, last, c, mid),
                  ExprsArms(t, arms, c, at), StartsArms(t, arms, c, at) + iset{at, at + LenArms(t, arms, c)});
    }
  }

  lemma ArmEnds(t: Stmt, a: Arm, c: Ctx, at: int)
    requires t.Case?
    ensures at in StartsArm(t, a, c, at) && at + LenArm(t, a, c) in StartsArm(t, a, c, at)
  {
    hide LenArm;
    hide Starts;
    hide ArmTest;
  }

  lemma ArmExprs(t: Stmt, a: Arm, c: Ctx, at: int)
    requires t.Case?
    ensures ExprsArm(t, a, c, at) == Span(at, |ArmTest(t, c, a.k)|) + Exprs(a.body, SelCtx(t, c), at + |ArmTest(t, c, a.k)| + 2)
    ensures ReadableArm(t, a, c) ==> Streams(Reload(t, c)) && Readable(a.body, SelCtx(t, c))
  {
    hide Exprs;
    hide Readable;
    hide Streams;
    hide Span;
    hide ArmTest;
    hide SelCtx;
    hide Reload;
  }

  lemma ArmTestStreams(t: Stmt, c: Ctx, k: u64)
    requires t.Case? && Streams(Reload(t, c))
    ensures Streams(ArmTest(t, c, k))
  {
    hide *;
    ShapeTest(t, c, k);
    var c1 := SelCtx(t, c);
    SetStreams(SelReg(t, c), Free(c1));
    OneStreams(MovImm(Free(c1), k));
    StreamsAppend(Encode(MovImm(Free(c1), k)), Reload(t, c));
    StreamsAppend(Encode(MovImm(Free(c1), k)) + Reload(t, c), Encode(SetIfEqual(SelReg(t, c), Free(c1))));
  }

  lemma SetStreams(a: reg, b: reg)
    ensures Streams(Encode(SetIfEqual(a, b)))
  {
    OneStreams(Plain(SEQ, a, b));
    hide Streams;
    hide Encode;
  }

  lemma ArmDecodes(t: Stmt, a: Arm, c: Ctx, at: int, brk: int, out: int)
    requires t.Case? && OkArm(t, a, c, at, brk, out) && ReadableArm(t, a, c)
    ensures Decodes(GenArm(t, a, c, at, brk, out), at, BranchesArm(t, a, c, at, brk, out), ExprsArm(t, a, c, at), StartsArm(t, a, c, at))
    decreases a, 0
  {
    hide *;
    ShapeArm(t, a, c, at, brk, out);
    PartsArm(t, a, c, at, brk, out);
    ArmExprs(t, a, c, at);
    ArmTestStreams(t, c, a.k);
    var c1, w, o := SelCtx(t, c), ArmTest(t, c, a.k), ExprsArm(t, a, c, at);
    var l: int := Len(a.body, c1);
    var mid := at + |w| + 2;
    var m := mid + l;
    var i, jump := BranchIfTrue(Flag(false), l + 2), Jump(out - m - 2);
    CondIsTwo(Flag(false), l + 2);
    CondIsTwo(Flag(false), out - m - 2);
    TestDecodes(w, i, at);
    StatementDecodes(a.body, c1, mid, brk);
    DecodesOne(jump, m);
    var s1, j1, j2 := iset{at} + Starts(a.body, c1, mid), [Jumping(at + |w|, i)], Branches(a.body, c1, mid, brk);
    var body := Gen(a.body, c1, mid, brk);
    DecodesThen(w + Encode(i), body, at, j1, j2, Span(at, |w|), Exprs(a.body, c1, mid), iset{at, mid}, Starts(a.body, c1, mid), o, s1);
    DecodesThen(w + Encode(i) + body, Encode(jump), at, j1 + j2, [Jumping(m, jump)], o, iset{}, s1, iset{m, m + 2}, o, StartsArm(t, a, c, at));
  }
}
