// What semantic preservation gives for whole runs, and what `for` does.
// src/Compiler/Compiler.c, src/Compiler/Emitter.c
module Loops {
  import opened Words
  import opened Isa
  import opened Machine
  import opened Codec
  import opened Statements
  import opened Preservation
  import opened Simulation

  // ---- both directions -------------------------------------------------------------------

  // A run of the compiled statement that leaves its words does so where the
  // meaning says, with the store the meaning gives.
  lemma RunsOnlyAsMeant(t: Stmt, c: Ctx, code: seq<u16>, at: int, brk: int, d: Data, s: Store, n: nat, end: VM)
    requires Ok(t, c, at, brk) && Placed(code, at, Gen(t, c, at, brk)) && Rep(c, d, s)
    requires var hi := at + Len(t, c); !(at <= brk < hi) && !(at <= end.ip < hi) && Runs(code, at, hi, VM(at, d), n, end)
    ensures match Eval(AsWritten, t, s, n + 1)
            case Done(s') => end.ip == at + Len(t, c) && Rep(c, end.d, s') && Keeps(c, d, end.d)
            case Broke(s') => end.ip == brk && Rep(c, end.d, s') && Keeps(c, d, end.d)
            case Timeout => false
  {
    hide Ok;
    hide Gen;
    hide Len;
    hide Rep;
    hide Keeps;
    hide Placed;
    hide Eval;
    hide Runs;
    var hi := at + Len(t, c);
    var m, end' := Simulate(t, c, code, at, brk, d, s, n + 1);
    RunsDeterministic(code, at, hi, VM(at, d), n, end, m, end');
  }

  // A statement whose meaning needs unboundedly many iterations never leaves
  // its words: for every n there is a run of n steps inside them.
  lemma {:induction false} DivergesTogether(t: Stmt, c: Ctx, code: seq<u16>, at: int, brk: int, d: Data, s: Store, n: nat, end: VM)
    requires Ok(t, c, at, brk) && Placed(code, at, Gen(t, c, at, brk)) && Rep(c, d, s)
    requires forall fuel: nat :: Eval(AsWritten, t, s, fuel).Timeout?
    requires Runs(code, at, at + Len(t, c), VM(at, d), n, end)
    ensures at <= end.ip < at + Len(t, c)
  {
    hide Ok;
    hide Gen;
    hide Len;
    hide Rep;
    hide Keeps;
    hide Placed;
    hide Eval;
    hide Runs;
    var hi := at + Len(t, c);
    assert Eval(AsWritten, t, s, n + 1).Timeout?;
    var m, end' := Simulate(t, c, code, at, brk, d, s, n + 1);
    if !(at <= end.ip < hi) {
      RunsDeterministic(code, at, hi, VM(at, d), n, end, m, end');
    }
  }

  // ---- the comparison of a for loop ---------------------------------------------------------

  // The comparison emitted for a counter agrees with Pascal's exactly when the
  // operands have the same sign bit (`for i := -1 to 1` never enters its body).
  lemma ComparisonAgrees(ty: CounterType, up: bool, i: u32, stop: u32)
    ensures ForTest(AsWritten, ty, up, i, stop) == ForTest(Pascal, ty, up, i, stop) <==> SameSign(i, stop)
  {
  }

  lemma NegativeStartSkipsBody()
    ensures ForTest(Pascal, Int32, true, Low32(-1), 1) && !ForTest(AsWritten, Int32, true, Low32(-1), 1)
  {
  }

  // When no loop of the run compares operands of different signs, what the
  // machine does is what Pascal means.
  lemma {:induction false} GuardedAgrees(m: Reading, t: Stmt, s: Store, fuel: nat)
    requires !Eval(Guarded, t, s, fuel).Timeout?
    ensures Eval(m, t, s, fuel) == Eval(Guarded, t, s, fuel)
    decreases fuel, t, 1
  {
    match t
    case Simple(_) =>
    case Assign(_, _) =>
    case Break =>
    case Begin(ss) => GuardedAgreesAll(m, ss, s, fuel);
    case IfThen(b, thn) => if b.val(s) { GuardedAgrees(m, thn, b.upd(s), fuel); }
    case IfElse(b, thn, els) => GuardedAgrees(m, if b.val(s) then thn else els, b.upd(s), fuel);
    case While(b, body) =>
      if b.val(s) {
        GuardedAgrees(m, body, b.upd(s), fuel);
        var r := Eval(Guarded, body, b.upd(s), fuel);
        if r.Done? { GuardedAgrees(m, t, r.s, fuel - 1); }
      }
    case Repeat(ss, b) =>
      GuardedAgreesAll(m, ss, s, fuel);
      var r := EvalAll(Guarded, ss, s, fuel);
      if r.Done? && !b.val(r.s) { GuardedAgrees(m, t, b.upd(r.s), fuel - 1); }
    case For(x, _, _, first, last, _) =>
      var s' := s[x := first.val(s)];
      GuardedAgreesLoop(m, t, last.val(s'), s', fuel);
    case Case(sel, arms, other) =>
      var j := FirstMatch(arms, sel.val(s), 0);
      if j < |arms| { GuardedAgrees(m, arms[j].body, s, fuel); } else { GuardedAgreesAll(m, other, s, fuel); }
  }

  lemma {:induction false} GuardedAgreesAll(m: Reading, ss: seq<Stmt>, s: Store, fuel: nat)
    requires !EvalAll(Guarded, ss, s, fuel).Timeout?
    ensures EvalAll(m, ss, s, fuel) == EvalAll(Guarded, ss, s, fuel)
    decreases fuel, ss, 0
  {
    if |ss| > 0 {
      GuardedAgreesAll(m, ss[..|ss| - 1], s, fuel);
      var r := EvalAll(Guarded, ss[..|ss| - 1], s, fuel);
      if r.Done? { GuardedAgrees(m, ss[|ss| - 1], r.s, fuel); }
    }
  }

  lemma {:induction false} GuardedAgreesLoop(m: Reading, t: Stmt, stop: u32, s: Store, fuel: nat)
    requires t.For? && !EvalLoop(Guarded, t, stop, s, fuel).Timeout?
    ensures EvalLoop(m, t, stop, s, fuel) == EvalLoop(Guarded, t, stop, s, fuel)
    decreases fuel, t, 0
  {
    var i := Value(s, t.x);
    ComparisonAgrees(t.ty, t.up, i, stop);
    if ForTest(Pascal, t.ty, t.up, i, stop) {
      GuardedAgrees(m, t.body, s, fuel);
      var r := Eval(Guarded, t.body, s, fuel);
      if r.Done? { GuardedAgreesLoop(m, t, stop, r.s[t.x := Advance(t.up, Value(r.s, t.x))], fuel - 1); }
    }
  }

  // ---- the bound on iterations only cuts off -------------------------------------------------

  // A result reached within a bound is the result within every larger one.
  lemma {:induction false} MoreFuel(m: Reading, t: Stmt, s: Store, fuel: nat, more: nat)
    requires fuel <= more && !Eval(m, t, s, fuel).Timeout?
    ensures Eval(m, t, s, more) == Eval(m, t, s, fuel)
    decreases fuel, t, 1
  {
    match t
    case Simple(_) =>
    case Assign(_, _) =>
    case Break =>
    case Begin(ss) => MoreFuelAll(m, ss, s, fuel, more);
    case IfThen(b, thn) => if b.val(s) { MoreFuel(m, thn, b.upd(s), fuel, more); }
    case IfElse(b, thn, els) => MoreFuel(m, if b.val(s) then thn else els, b.upd(s), fuel, more);
    case While(b, body) =>
      if b.val(s) {
        MoreFuel(m, body, b.upd(s), fuel, more);
        var r := Eval(m, body, b.upd(s), fuel);
        if r.Done? { MoreFuel(m, t, r.s, fuel - 1, more - 1); }
      }
    case Repeat(ss, b) =>
      MoreFuelAll(m, ss, s, fuel, more);
      var r := EvalAll(m, ss, s, fuel);
      if r.Done? && !b.val(r.s) { MoreFuel(m, t, b.upd(r.s), fuel - 1, more - 1); }
    case For(x, _, _, first, last, _) =>
      var s' := s[x := first.val(s)];
      MoreFuelLoop(m, t, last.val(s'), s', fuel, more);
    case Case(sel, arms, other) =>
      var j := FirstMatch(arms, sel.val(s), 0);
      if j < |arms| { MoreFuel(m, arms[j].body, s, fuel, more); } else { MoreFuelAll(m, other, s, fuel, more); }
  }

  lemma {:induction false} MoreFuelAll(m: Reading, ss: seq<Stmt>, s: Store, fuel: nat, more: nat)
    requires fuel <= more && !EvalAll(m, ss, s, fuel).Timeout?
    ensures EvalAll(m, ss, s, more) == EvalAll(m, ss, s, fuel)
    decreases fuel, ss, 0
  {
    if |ss| > 0 {
      MoreFuelAll(m, ss[..|ss| - 1], s, fuel, more);
      var r := EvalAll(m, ss[..|ss| - 1], s, fuel);
      if r.Done? { MoreFuel(m, ss[|ss| - 1], r.s, fuel, more); }
    }
  }

  lemma {:induction false} MoreFuelLoop(m: Reading, t: Stmt, stop: u32, s: Store, fuel: nat, more: nat)
    requires t.For? && fuel <= more && !EvalLoop(m, t, stop, s, fuel).Timeout?
    ensures EvalLoop(m, t, stop, s, more) == EvalLoop(m, t, stop, s, fuel)
    decreases fuel, t, 0
  {
    if ForTest(m, t.ty, t.up, Value(s, t.x), stop) {
      MoreFuel(m, t.body, s, fuel, more);
      var r := Eval(m, t.body, s, fuel);
      if r.Done? { MoreFuelLoop(m, t, stop, r.s[t.x := Advance(t.up, Value(r.s, t.x))], fuel - 1, more - 1); }
    }
  }

  // ---- how often a for loop runs its body -----------------------------------------------------

  // From this store the body finishes, within some number of iterations of its
  // own loops, and leaves the counter alone.
  ghost predicate LeavesCounter(m: Reading, t: Stmt, body: Store -> Store, s: Store)
    requires t.For?
  {
    && t.x in s && t.x in body(s) && body(s)[t.x] == s[t.x]
    && exists need: nat :: Eval(m, t.body, s, need) == Done(body(s))
  }

  // The body, then the counter one further.
  function Next(t: Stmt, body: Store -> Store, s: Store): Store
    requires t.For?
  {
    var s' := body(s);
    s'[t.x := Advance(t.up, Value(s', t.x))]
  }

  function Rounds(t: Stmt, body: Store -> Store, s: Store, k: nat): Store
    requires t.For?
    decreases k
  {
    if k == 0 then s else Rounds(t, body, Next(t, body, s), k - 1)
  }

  // It does from each of the stores in which the first `k` rounds start.
  ghost predicate RoundsLeave(m: Reading, t: Stmt, body: Store -> Store, s: Store, k: nat)
    requires t.For?
  {
    forall j: nat :: j < k ==> LeavesCounter(m, t, body, Rounds(t, body, s, j))
  }

  ghost predicate AlwaysLeaves(m: Reading, t: Stmt, body: Store -> Store, s: Store)
    requires t.For?
  {
    forall k: nat :: RoundsLeave(m, t, body, s, k)
  }

  lemma FirstRound(m: Reading, t: Stmt, body: Store -> Store, s: Store, k: nat) returns (need: nat)
    requires t.For? && k > 0 && RoundsLeave(m, t, body, s, k)
    ensures t.x in s && t.x in body(s) && body(s)[t.x] == s[t.x] && Eval(m, t.body, s, need) == Done(body(s))
    ensures Next(t, body, s) == body(s)[t.x := Advance(t.up, s[t.x])]
    ensures RoundsLeave(m, t, body, Next(t, body, s), k - 1)
  {
    hide Eval;
    hide Advance;
    assert Rounds(t, body, s, 0) == s;
    need :| Eval(m, t.body, s, need) == Done(body(s));
    forall j: nat | j < k - 1
      ensures LeavesCounter(m, t, body, Rounds(t, body, Next(t, body, s), j))
    {
      hide LeavesCounter;
      assert Rounds(t, body, s, j + 1) == Rounds(t, body, Next(t, body, s), j);
    }
  }

  lemma NextLeaves(m: Reading, t: Stmt, body: Store -> Store, s: Store)
    requires t.For? && AlwaysLeaves(m, t, body, s)
    ensures AlwaysLeaves(m, t, body, Next(t, body, s))
  {
    hide RoundsLeave;
    forall k: nat
      ensures RoundsLeave(m, t, body, Next(t, body, s), k)
    {
      var _ := FirstRound(m, t, body, s, k + 1);
    }
  }

  // A body that is one piece of code does so if its effect leaves the counter alone.
  lemma PiecesLeave(m: Reading, t: Stmt, s: Store)
    requires t.For? && t.body.Simple? && t.x in s
    requires forall u: Store :: t.x in u ==> var v := t.body.p.upd(u); t.x in v && v[t.x] == u[t.x]
    ensures AlwaysLeaves(m, t, t.body.p.upd, s)
  {
    hide RoundsLeave;
    forall k: nat
      ensures RoundsLeave(m, t, t.body.p.upd, s, k)
    {
      PieceRounds(m, t, s, k);
    }
  }

  lemma {:induction false} PieceRounds(m: Reading, t: Stmt, s: Store, k: nat)
    requires t.For? && t.body.Simple? && t.x in s
    requires forall u: Store :: t.x in u ==> var v := t.body.p.upd(u); t.x in v && v[t.x] == u[t.x]
    ensures RoundsLeave(m, t, t.body.p.upd, s, k)
    decreases k
  {
    hide Advance;
    var body := t.body.p.upd;
    assert Eval(m, t.body, s, 0) == Done(body(s));
    if k > 0 {
      PieceRounds(m, t, Next(t, body, s), k - 1);
      forall j: nat | j < k
        ensures LeavesCounter(m, t, body, Rounds(t, body, s, j))
      {
        if j > 0 { assert Rounds(t, body, s, j) == Rounds(t, body, Next(t, body, s), j - 1); }
      }
    }
  }

  // The number a counter of the type stands for.
  function Number(ty: CounterType, v: u32): int { if ty == Int32 then Signed32(v) else v }

  // max(0, stop - first + 1) rounds, or max(0, first - stop + 1) counting down
  function Count(ty: CounterType, up: bool, first: u32, stop: u32): nat {
    var n := if up then Number(ty, stop) - Number(ty, first) + 1 else Number(ty, first) - Number(ty, stop) + 1;
    if n < 0 then 0 else n
  }

  // The last value of the type in the direction of counting.
  predicate Extreme(ty: CounterType, up: bool, v: u32) {
    v == if up then (if ty == Int32 then 0x7FFF_FFFF else 0xFFFF_FFFF) else (if ty == Int32 then 0x8000_0000 else 0)
  }

  // Pascal's reading must not run past the last value.  As written both values
  // must have one sign bit, and the value behind `stop` that of `stop`; or `stop`
  // is the last value, where the comparison written happens to end the loop.
  predicate Countable(m: Reading, ty: CounterType, up: bool, first: u32, stop: u32) {
    if m == Pascal then Count(ty, up, first, stop) > 0 ==> !Extreme(ty, up, stop)
    else
      && SameSign(first, stop)
      && (Count(ty, up, first, stop) > 0 ==> SameSign(stop, Advance(up, stop)) != Extreme(ty, up, stop))
  }

  // The counter one round further, and the tests before and behind the last round.
  lemma CountStepwise(m: Reading, ty: CounterType, up: bool, i: u32, stop: u32)
    requires m != Guarded && Countable(m, ty, up, i, stop)
    ensures ForTest(m, ty, up, i, stop) <==> Count(ty, up, i, stop) > 0
    ensures Count(ty, up, i, stop) > 0 && i != stop ==>
              var j := Advance(up, i);
              Countable(m, ty, up, j, stop) && Count(ty, up, j, stop) == Count(ty, up, i, stop) - 1 > 0
    ensures i == stop ==> Count(ty, up, i, stop) == 1 && !ForTest(m, ty, up, Advance(up, i), stop)
  {
    NextValue(up, i);
    NextValue(up, stop);
    hide Advance;
  }

  lemma NextValue(up: bool, i: u32)
    ensures Advance(up, i) == if up then (if i == 0xFFFF_FFFF then 0 else i + 1) else (if i == 0 then 0xFFFF_FFFF else i - 1)
  {
  }

  // One round, and what the loop goes on with.
  lemma OneRound(m: Reading, t: Stmt, stop: u32, s: Store, r: Result, need: nat, more: nat) returns (bound: nat)
    requires t.For? && m != Guarded && t.x in s && ForTest(m, t.ty, t.up, s[t.x], stop)
    requires r == Eval(m, t.body, s, need) && !r.Timeout?
    requires r.Done? ==> !EvalLoop(m, t, stop, r.s[t.x := Advance(t.up, Value(r.s, t.x))], more).Timeout?
    ensures bound > need && bound > more
    ensures EvalLoop(m, t, stop, s, bound) ==
              if r.Broke? then Done(r.s) else EvalLoop(m, t, stop, r.s[t.x := Advance(t.up, Value(r.s, t.x))], more)
  {
    hide Eval;
    hide ForTest;
    hide Advance;
    bound := need + more + 1;
    MoreFuel(m, t.body, s, need, bound);
    if r.Done? { MoreFuelLoop(m, t, stop, r.s[t.x := Advance(t.up, Value(r.s, t.x))], more, bound - 1); }
  }

  lemma LeavesAtOnce(m: Reading, t: Stmt, stop: u32, s: Store, fuel: nat)
    requires t.For? && t.x in s && !ForTest(m, t.ty, t.up, s[t.x], stop)
    ensures var r := EvalLoop(m, t, stop, s, fuel); r == Timeout || r == Done(s)
    ensures m != Guarded && fuel > 0 ==> EvalLoop(m, t, stop, s, fuel) == Done(s)
  {
    hide Eval;
    hide ForTest;
  }

  // `Count` rounds are run, whichever the reading, type and direction; the counter
  // ends that many values further.
  lemma {:induction false} ForRounds(m: Reading, t: Stmt, body: Store -> Store, stop: u32, s: Store) returns (bound: nat)
    requires t.For? && m != Guarded && t.x in s && Countable(m, t.ty, t.up, s[t.x], stop)
    requires RoundsLeave(m, t, body, s, Count(t.ty, t.up, s[t.x], stop))
    ensures var k := Count(t.ty, t.up, s[t.x], stop);
            var s' := Rounds(t, body, s, k);
            EvalLoop(m, t, stop, s, bound) == Done(s') && t.x in s'
            && s'[t.x] == (if k == 0 then s[t.x] else Advance(t.up, stop))
    decreases Count(t.ty, t.up, s[t.x], stop)
  {
    hide Eval;
    hide EvalLoop;
    hide ForTest;
    hide Countable;
    hide Count;
    hide Advance;
    hide Next;
    hide RoundsLeave;
    var i := s[t.x];
    var k := Count(t.ty, t.up, i, stop);
    CountStepwise(m, t.ty, t.up, i, stop);
    if k == 0 {
      bound := 1;
      LeavesAtOnce(m, t, stop, s, bound);
    } else {
      var need := FirstRound(m, t, body, s, k);
      var s1 := Next(t, body, s);
      var more := 1;
      if i == stop {
        LeavesAtOnce(m, t, stop, s1, more);
        assert Rounds(t, body, s1, 0) == s1;
      } else {
        more := ForRounds(m, t, body, stop, s1);
      }
      bound := OneRound(m, t, stop, s, Done(body(s)), need, more);
    }
  }

  // A break in a later round ends the loop there, the counter being where it is.
  lemma {:induction false} ForBreaks(m: Reading, t: Stmt, body: Store -> Store, stop: u32, s: Store, k: nat, need: nat) returns (bound: nat)
    requires t.For? && m != Guarded && t.x in s && Countable(m, t.ty, t.up, s[t.x], stop) && k < Count(t.ty, t.up, s[t.x], stop)
    requires RoundsLeave(m, t, body, s, k) && t.x in Rounds(t, body, s, k)
    requires Eval(m, t.body, Rounds(t, body, s, k), need).Broke?
    ensures EvalLoop(m, t, stop, s, bound) == Done(Eval(m, t.body, Rounds(t, body, s, k), need).s)
    decreases k
  {
    hide Eval;
    hide EvalLoop;
    hide ForTest;
    hide Countable;
    hide Count;
    hide Advance;
    hide Next;
    hide RoundsLeave;
    var i := s[t.x];
    CountStepwise(m, t.ty, t.up, i, stop);
    if k == 0 {
      bound := OneRound(m, t, stop, s, Eval(m, t.body, s, need), need, 0);
    } else {
      var need1 := FirstRound(m, t, body, s, k);
      var more := ForBreaks(m, t, body, stop, Next(t, body, s), k - 1, need);
      bound := OneRound(m, t, stop, s, Done(body(s)), need1, more);
    }
  }

  // A loop whose body never breaks leaves only where its test fails.
  lemma {:induction false} LeavesWhereTestFails(m: Reading, t: Stmt, body: Store -> Store, stop: u32, s: Store, fuel: nat)
    requires t.For? && AlwaysLeaves(m, t, body, s) && t.x in s
    ensures var r := EvalLoop(m, t, stop, s, fuel);
            !r.Broke? && (r.Done? ==> !ForTest(m, t.ty, t.up, Value(r.s, t.x), stop))
    decreases fuel
  {
    hide Eval;
    hide ForTest;
    hide Advance;
    hide Next;
    hide RoundsLeave;
    if fuel > 0 && ForTest(m, t.ty, t.up, Value(s, t.x), stop) {
      var r := Eval(m, t.body, s, fuel);
      if !r.Timeout? {
        assert RoundsLeave(m, t, body, s, 1);
        var need := FirstRound(m, t, body, s, 1);
        MoreFuel(m, t.body, s, fuel, fuel + need);
        MoreFuel(m, t.body, s, need, fuel + need);
        NextLeaves(m, t, body, s);
        LeavesWhereTestFails(m, t, body, stop, Next(t, body, s), fuel - 1);
      }
    }
  }

  // Exactly then: otherwise no number of iterations gives that result.
  lemma ForRoundsIff(m: Reading, t: Stmt, body: Store -> Store, stop: u32, s: Store)
    requires t.For? && m != Guarded && AlwaysLeaves(m, t, body, s) && t.x in s
    requires Count(t.ty, t.up, s[t.x], stop) < TWO32
    ensures (exists fuel: nat :: EvalLoop(m, t, stop, s, fuel) == Done(Rounds(t, body, s, Count(t.ty, t.up, s[t.x], stop))))
            <==> Countable(m, t.ty, t.up, s[t.x], stop)
  {
    hide Eval;
    hide EvalLoop;
    hide ForTest;
    hide Countable;
    hide Count;
    hide Rounds;
    hide Further;
    hide RoundsLeave;
    var i := s[t.x];
    var k := Count(t.ty, t.up, i, stop);
    var s' := Rounds(t, body, s, k);
    assert RoundsLeave(m, t, body, s, k);
    if Countable(m, t.ty, t.up, i, stop) {
      var bound := ForRounds(m, t, body, stop, s);
    } else if fuel: nat :| EvalLoop(m, t, stop, s, fuel) == Done(s') {
      LeavesWhereTestFails(m, t, body, stop, s, fuel);
      if !ForTest(m, t.ty, t.up, i, stop) { LeavesAtOnce(m, t, stop, s, fuel); }
      CounterAfter(m, t, body, s, k);
      NotCountable(m, t.ty, t.up, i, stop);
      assert false;
    }
  }

  lemma {:induction false} CounterAfter(m: Reading, t: Stmt, body: Store -> Store, s: Store, k: nat)
    requires t.For? && RoundsLeave(m, t, body, s, k) && t.x in s
    ensures Value(Rounds(t, body, s, k), t.x) == Further(t.up, s[t.x], k)
    decreases k
  {
    hide Eval;
    hide RoundsLeave;
    hide Next;
    if k == 0 {
      assert Low32(s[t.x]) == s[t.x];
    } else {
      var need := FirstRound(m, t, body, s, k);
      CounterAfter(m, t, body, Next(t, body, s), k - 1);
      FurtherStep(t.up, s[t.x], k - 1);
    }
  }

  // `k` values further, as a 32-bit counter counts.
  function Further(up: bool, i: u32, k: nat): u32 { Low32(if up then i + k else i - k) }

  lemma FurtherStep(up: bool, i: u32, k: nat)
    ensures Further(up, Advance(up, i), k) == Further(up, i, k + 1)
  {
    var j := if up then i + 1 else i - 1;
    var q := j / TWO32;
    SameLow(if up then Low32(j) + k else Low32(j) - k, if up then j + k else j - k, -q);
  }

  // Where the condition fails, the test fails too early or holds too long.
  lemma NotCountable(m: Reading, ty: CounterType, up: bool, i: u32, stop: u32)
    requires m != Guarded && !Countable(m, ty, up, i, stop)
    ensures var k := Count(ty, up, i, stop);
            ForTest(m, ty, up, Further(up, i, k), stop) || (!ForTest(m, ty, up, i, stop) && (k < TWO32 ==> Further(up, i, k) != i))
  {
    var k := Count(ty, up, i, stop);
    FurtherEnds(ty, up, i, stop);
    NextValue(up, stop);
    if k == 0 {
      assert Further(up, i, 0) == i;
    }
    hide Further;
    hide Advance;
  }

  lemma FurtherEnds(ty: CounterType, up: bool, i: u32, stop: u32)
    ensures var k := Count(ty, up, i, stop);
            k > 0 ==> Further(up, i, k) == Advance(up, stop) && (k < TWO32 ==> Further(up, i, k) != i)
  {
  }

  // Counting down to 0 over a signed type, as written: below 0 nothing compares
  // less, unsigned, so that the loop never ends.
  lemma DowntoZeroNeverEnds(t: Stmt, body: Store -> Store, s: Store, fuel: nat)
    requires t.For? && t.ty == Int32 && !t.up && AlwaysLeaves(AsWritten, t, body, s) && t.x in s
    ensures EvalLoop(AsWritten, t, 0, s, fuel) == Timeout
  {
    hide Eval;
    hide EvalLoop;
    hide AlwaysLeaves;
    LeavesWhereTestFails(AsWritten, t, body, 0, s, fuel);
  }

  // ---- on the machine ---------------------------------------------------------------------------

  // The words of a for statement run its body that many times, and the variable's
  // home ends with the counter's last value.
  lemma ForCounts(t: Stmt, c: Ctx, code: seq<u16>, at: int, brk: int, d: Data, s: Store, body: Store -> Store)
    returns (n: nat, end: VM)
    requires t.For? && Ok(t, c, at, brk) && Placed(code, at, Gen(t, c, at, brk)) && Rep(c, d, s)
    requires var first := t.first.val(s);
             var s1 := s[t.x := first];
             var stop := t.last.val(s1);
             Countable(AsWritten, t.ty, t.up, first, stop) && RoundsLeave(AsWritten, t, body, s1, Count(t.ty, t.up, first, stop))
    ensures var first := t.first.val(s);
            var s1 := s[t.x := first];
            var stop := t.last.val(s1);
            var k := Count(t.ty, t.up, first, stop);
            && Runs(code, at, at + Len(t, c), VM(at, d), n, end) && end.ip == at + Len(t, c)
            && Rep(c, end.d, Rounds(t, body, s1, k)) && Keeps(c, d, end.d)
            && t.x in c.env && Read(c.env[t.x], end.d) == if k == 0 then first else Advance(t.up, stop)
  {
    hide *;
    var first := t.first.val(s);
    var s1 := s[t.x := first];
    var stop := t.last.val(s1);
    var fuel := ForRounds(AsWritten, t, body, stop, s1);
    MeansFor(t, s, fuel);
    n, end := SimulateFor(t, c, code, at, brk, d, s, fuel);
    var s2 := Rounds(t, body, s1, Count(t.ty, t.up, first, stop));
    DoneMeans(c, code, at, at + Len(t, c), brk, d, s2, fuel, n, end);
    HomeReads(c, end.d, s2, t.x);
  }

  lemma DoneMeans(c: Ctx, code: seq<u16>, lo: int, hi: int, brk: int, d: Data, s: Store, fuel: nat, n: nat, end: VM)
    requires Simulates(c, code, lo, hi, brk, d, Done(s), fuel, n, end)
    ensures Runs(code, lo, hi, VM(lo, d), n, end) && end.ip == hi && Rep(c, end.d, s) && Keeps(c, d, end.d)
  {
  }

  lemma HomeReads(c: Ctx, d: Data, s: Store, x: Var)
    requires Rep(c, d, s) && x in s
    ensures x in c.env && Read(c.env[x], d) == s[x]
  {
  }
}
