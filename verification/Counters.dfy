// The first value of a for loop, computed after its counter has moved to a register.
// src/Compiler/Compiler.c
module Counters {
  import opened Words
  import opened Isa
  import opened Machine
  import opened Codec
  import opened Statements
  import opened Preservation
  import opened Conditions

  // ---- every store is represented, if one is -----------------------------------------------

  lemma Represent(c: Ctx, d0: Data, s0: Store, s: Store) returns (d: Data)
    requires Rep(c, d0, s0) && s.Keys == c.env.Keys
    ensures Rep(c, d, s)
  {
    d := RepresentFrom(c, d0, s0, s, c.env.Keys);
  }

  // One variable after another is given its value.
  lemma RepresentFrom(c: Ctx, d0: Data, s0: Store, s: Store, todo: set<Var>) returns (d: Data)
    requires Rep(c, d0, s0) && s.Keys == c.env.Keys && todo <= c.env.Keys
    requires forall x | x in c.env && x !in todo :: s0[x] == s[x]
    ensures Rep(c, d, s)
    decreases |todo|
  {
    hide *;
    RepKeys(c, d0, s0);
    if todo == {} {
      assert s0 == s;
      d := d0;
    } else {
      var x :| x in todo;
      var d1 := SetVariable(c, d0, s0, x, s[x]);
      d := RepresentFrom(c, d1, s0[x := s[x]], s, todo - {x});
    }
  }

  lemma RepKeys(c: Ctx, d: Data, s: Store)
    requires Rep(c, d, s)
    ensures s.Keys == c.env.Keys && GoodCtx(c) && Apart(c.env, d)
  {
  }

  lemma SetVariable(c: Ctx, d: Data, s: Store, x: Var, v: u32) returns (d': Data)
    requires Rep(c, d, s) && x in c.env
    ensures Rep(c, d', s[x := v])
  {
    hide Rep;
    hide Read;
    hide Keeps;
    hide Store32;
    hide Low32;
    hide SetLow32;
    OtherVars(c, x, v, d, s);
    if c.env[x].InMem? {
      StoreMemHome(c, x, d, s[x := v]);
      d' := d.(mem := Store32(d.mem, Place(c.env[x], d), v));
    } else {
      LowOfWord(v);
      StoreRegHome(c, x, d, s[x := v], v);
      d' := SetWord(d, c.env[x].r, v);
    }
  }

  // ---- when the first value is right -----------------------------------------------------------

  // As written the first value is its value over whatever the new register held.
  lemma FirstValueIsRead(t: Stmt, c: Ctx, code: seq<u16>, at: int, d: Data, s: Store) returns (n: nat, d': Data)
    requires t.For? && t.x in c.env && HasFree(c) && Rep(c, d, s)
    requires AssignOk(t.first, CounterCtx(t, c), t.x) && Placed(code, at, t.first.assign(CounterCtx(t, c), t.x))
    ensures var hi := at + |t.first.assign(CounterCtx(t, c), t.x)|;
            Runs(code, at, hi, VM(at, d), n, VM(hi, d'))
    ensures Word(d', Free(c)) == t.first.val(s[t.x := Word(d, Free(c))])
  {
    hide Runs;
    hide Placed;
    hide AssignOk;
    hide Free;
    hide Low32;
    var c1 := CounterCtx(t, c);
    EnterCounter(t, c, d, s);
    var held := s[t.x := Word(d, Free(c))];
    n, d' := UseAssign(t.first, c1, t.x, code, at, d, held);
    assert c1.env[t.x] == InReg(Free(c));
    assert Read(c1.env[t.x], d') == t.first.val(held);
  }

  // The words of the first value leave it in the counter's register, from every
  // state that represents a store.
  ghost predicate FirstValueRight(t: Stmt, c: Ctx)
    requires t.For?
  {
    var ws := t.first.assign(CounterCtx(t, c), t.x);
    forall code, at, d, s, d' | Enters(c, ws, code, at, d, s) && Falls(code, at, at + |ws|, d, d') ::
      Word(d', Free(c)) == t.first.val(s)
  }

  // It does exactly when the expression does not depend on the counter.
  lemma FirstValueRightIff(t: Stmt, c: Ctx, d0: Data, s0: Store)
    requires t.For? && t.x in c.env && HasFree(c) && Rep(c, d0, s0) && AssignOk(t.first, CounterCtx(t, c), t.x)
    ensures FirstValueRight(t, c) <==> Ignores(t.first, t.x, c.env.Keys)
  {
    if Ignores(t.first, t.x, c.env.Keys) {
      IgnoredIsRight(t, c);
    }
    if FirstValueRight(t, c) {
      forall s: Store, v: u32 {:trigger t.first.val(s[t.x := v])} | s.Keys == c.env.Keys
        ensures t.first.val(s[t.x := v]) == t.first.val(s)
      {
        RightIgnores(t, c, d0, s0, s, v);
      }
    }
  }

  lemma IgnoredIsRight(t: Stmt, c: Ctx)
    requires t.For? && t.x in c.env && HasFree(c) && AssignOk(t.first, CounterCtx(t, c), t.x)
    requires Ignores(t.first, t.x, c.env.Keys)
    ensures FirstValueRight(t, c)
  {
    hide Rep;
    hide Runs;
    hide Placed;
    hide AssignOk;
    hide Free;
    hide Low32;
    var ws := t.first.assign(CounterCtx(t, c), t.x);
    forall code, at, d, s, d' | Enters(c, ws, code, at, d, s) && Falls(code, at, at + |ws|, d, d')
      ensures Word(d', Free(c)) == t.first.val(s)
    {
      RepKeys(c, d, s);
      var n, d1 := FirstValueIsRead(t, c, code, at, d, s);
      var m: nat :| FallsIn(code, at, at + |ws|, m, d, d');
      RunsDeterministic(code, at, at + |ws|, VM(at, d), n, VM(at + |ws|, d1), m, VM(at + |ws|, d'));
      assert t.first.val(s[t.x := Word(d, Free(c))]) == t.first.val(s);
    }
  }

  // The next free register can hold anything.
  lemma HoldAnything(c: Ctx, d0: Data, s0: Store, s: Store, v: u32) returns (d: Data)
    requires HasFree(c) && Rep(c, d0, s0) && s.Keys == c.env.Keys
    ensures Rep(c, d, s) && Word(d, Free(c)) == v
  {
    hide Rep;
    hide Free;
    hide HasFree;
    hide Low32;
    RepKeys(c, d0, s0);
    FreeIsFree(c);
    var d1 := Represent(c, d0, s0, s);
    d := SetReg(d1, Free(c), v);
    RepScratch(c, d1, d, s);
    LowOfWord(v);
  }

  lemma RightIgnores(t: Stmt, c: Ctx, d0: Data, s0: Store, s: Store, v: u32)
    requires t.For? && t.x in c.env && HasFree(c) && Rep(c, d0, s0) && AssignOk(t.first, CounterCtx(t, c), t.x)
    requires FirstValueRight(t, c) && s.Keys == c.env.Keys
    ensures t.first.val(s[t.x := v]) == t.first.val(s)
  {
    hide Rep;
    hide Runs;
    hide AssignOk;
    hide Free;
    hide HasFree;
    hide Word;
    var d := HoldAnything(c, d0, s0, s, v);
    var ws := t.first.assign(CounterCtx(t, c), t.x);
    assert ws[0..0 + |ws|] == ws;
    var n, d' := FirstValueIsRead(t, c, ws, 0, d, s);
    assert Enters(c, ws, ws, 0, d, s) && FallsIn(ws, 0, 0 + |ws|, n, d, d');
  }

  // For a variable or a literal: exactly when it is not the counter itself.
  lemma OperandIgnoresIff(o: Operand, x: Var, vars: set<Var>)
    requires x in vars && (o.Variable? ==> o.x in vars)
    ensures Ignores(OperandExpr(o), x, vars) <==> o != Variable(x)
  {
    var e := OperandExpr(o);
    if o == Variable(x) {
      var s: Store := map y | y in vars :: 0;
      assert s.Keys == vars;
      assert e.val(s[x := 1]) == 1 && e.val(s) == 0;
    }
  }

  // `for i := i to ...` with i global and 0, register 0 holding 7: the loop starts at 7.
  lemma CounterReadsItself(t: Stmt, d: Data, n: nat, d': Data)
    requires t.For? && t.first == OperandExpr(Variable(t.x)) && d.R[0] == 7 && Load32(d.mem, Address(d, GP, 0)) == 0
    requires var c := Ctx(map[t.x := InMem(GP, 0)], {GP, FP, SP});
             FallsIn(t.first.assign(CounterCtx(t, c), t.x), 0, |t.first.assign(CounterCtx(t, c), t.x)|, n, d, d')
    ensures var c := Ctx(map[t.x := InMem(GP, 0)], {GP, FP, SP});
            Rep(c, d, map[t.x := 0]) && Word(d', Free(c)) == 7 != t.first.val(map[t.x := 0])
  {
    hide Runs;
    hide Load32;
    hide Address;
    var c := Ctx(map[t.x := InMem(GP, 0)], {GP, FP, SP});
    var s := map[t.x := 0];
    var zero: reg := 0;
    assert FirstFree(c.live, 0) == 0 && zero !in c.live;
    var ws := t.first.assign(CounterCtx(t, c), t.x);
    OperandAssignOk(Variable(t.x), CounterCtx(t, c), t.x);
    assert ws[0..0 + |ws|] == ws;
    var m, d1 := FirstValueIsRead(t, c, ws, 0, d, s);
    RunsDeterministic(ws, 0, |ws|, VM(0, d), m, VM(|ws|, d1), n, VM(|ws|, d'));
    assert Word(d, 0) == 7;
  }
}
