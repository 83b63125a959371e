// The integer register allocator and its spill stack.
// src/Compiler/Emitter.c
module Registers {
  import opened Words
  import opened Isa
  import opened Machine
  import S = Statements

  const REG_COUNT := 16
  const USABLE := 13
  const TABLE_SIZE := 64

  // What the emitter knows: Reglist, SpilledIntRegs and SpilledIntRegLocation.
  datatype Emitter = Emitter(live: set<reg>, spilled: nat, table: seq<int>)

  predicate Sound(e: Emitter) { |e.table| == TABLE_SIZE && e.spilled <= TABLE_SIZE }

  // The moves it emits between a register and memory off SP.
  datatype Move = Spill(r: reg, off: int) | Unspill(r: reg, off: int)

  // `sizeof(PVMGPR)*(SpilledIntRegs + SpilledFltRegs + 1)` below SP
  function SlotOffset(spilled: nat, flt: nat): int { -8 * (spilled + flt + 1) }

  // AllocateRegister with `flt` float registers spilled; None is its assertion.
  function Allocate(e: Emitter, flt: nat): Option<(Emitter, reg, seq<Move>)>
    requires Sound(e)
  {
    var i := S.FirstFree(e.live, 0);
    if i < REG_COUNT then Some((e.(live := e.live + {i}), i, []))
    else if e.spilled == TABLE_SIZE then None
    else
      var r, off := e.spilled % REG_COUNT, SlotOffset(e.spilled, flt);
      Some((e.(spilled := e.spilled + 1, table := e.table[e.spilled := off]), r, [Spill(r, off)]))
  }

  predicate Unspills(e: Emitter, r: reg) { e.spilled > 0 && r == (e.spilled - 1) % REG_COUNT }

  // FreeRegister.  The test at line 754, `Reg - PVM_REG_COUNT < SpilledCount`,
  // holds of every register, so that one just unspilled is freed too; `repaired`
  // keeps it, as the comment above the test says.
  function Release(e: Emitter, r: reg, repaired: bool): (Emitter, seq<Move>)
    requires Sound(e)
  {
    var un := Unspills(e, r);
    var e1 := if un then e.(spilled := e.spilled - 1) else e;
    var moves := if un then [Unspill(r, e.table[e.spilled - 1])] else [];
    var frees := if repaired then !un else r - REG_COUNT < e1.spilled;
    (if frees then e1.(live := e1.live - {r}) else e1, moves)
  }

  // ---- running the moves ----------------------------------------------------------------

  datatype Cells = Cells(R: seq<u64>, stack: map<int, u64>)

  function Do(m: Cells, moves: seq<Move>): Cells
    requires |m.R| == REG_COUNT
    ensures |Do(m, moves).R| == REG_COUNT
  {
    if |moves| == 0 then m else
    var m1 := Do(m, moves[..|moves| - 1]);
    match moves[|moves| - 1]
    case Spill(r, off) => m1.(stack := m1.stack[off := m1.R[r]])
    case Unspill(r, off) => m1.(R := m1.R[r := if off in m1.stack then m1.stack[off] else 0])
  }

  lemma DoOne(m: Cells, x: Move)
    requires |m.R| == REG_COUNT
    ensures Do(m, [x]) == match x
                          case Spill(r, off) => m.(stack := m.stack[off := m.R[r]])
                          case Unspill(r, off) => m.(R := m.R[r := if off in m.stack then m.stack[off] else 0])
  {
    assert [x][..0] == [];
  }

  // ---- last in, first out -------------------------------------------------------------------

  // An outstanding allocation: its register, and the value its holder keeps.
  datatype Holder = Holder(r: reg, v: u64)
  datatype World = World(e: Emitter, m: Cells, holders: seq<Holder>)

  // Allocating, freeing the newest, and writing through a holder whose register
  // no newer one has taken.
  datatype Op = Take | Give | Write(i: nat, v: u64)

  // The register of the `i`th holder, and the next holder that takes it over.
  function Seat(i: nat): reg { if i < USABLE then i else (i - USABLE) % REG_COUNT }
  function Taker(i: nat): nat { if i < USABLE then i + USABLE else i + REG_COUNT }

  predicate Resident(w: World, i: nat) { Taker(i) >= |w.holders| }

  function Step(w: World, op: Op, flt: nat, repaired: bool): Option<World>
    requires Sound(w.e) && |w.m.R| == REG_COUNT
  {
    match op
    case Take =>
      (match Allocate(w.e, flt)
       case Some(a) => Some(World(a.0, Do(w.m, a.2), w.holders + [Holder(a.1, Do(w.m, a.2).R[a.1])]))
       case None => None)
    case Give =>
      if |w.holders| == 0 then None else
      var n := |w.holders| - 1;
      var f := Release(w.e, w.holders[n].r, repaired);
      Some(World(f.0, Do(w.m, f.1), w.holders[..n]))
    case Write(i, v) =>
      if i >= |w.holders| || !Resident(w, i) then None else
      var h := w.holders[i];
      Some(World(w.e, w.m.(R := w.m.R[h.r := v]), w.holders[i := h.(v := v)]))
  }

  function Spills(n: nat): nat { if n > USABLE then n - USABLE else 0 }

  // The registers in use while `n` are outstanding.
  predicate InUse(r: reg, n: nat) { r >= USABLE || r < n }
  function LiveRegs(n: nat): set<reg> { set r: reg | InUse(r, n) }

  // Where the value of holder `i` is.
  predicate Kept(w: World, i: nat, flt: nat)
    requires i < |w.holders| && |w.m.R| == REG_COUNT
  {
    var h := w.holders[i];
    && h.r == Seat(i)
    && if Resident(w, i) then w.m.R[h.r] == h.v
       else SlotOffset(Taker(i) - USABLE, flt) in w.m.stack && w.m.stack[SlotOffset(Taker(i) - USABLE, flt)] == h.v
  }

  // Every value is kept in its seat - its holder's register or, once a newer
  // holder took that, the slot it was spilled to - so no register in use has
  // been handed out unsaved.
  predicate NoneLost(w: World, flt: nat) {
    && Sound(w.e) && |w.m.R| == REG_COUNT
    && w.e.spilled == Spills(|w.holders|)
    && (forall k :: 0 <= k < w.e.spilled ==> w.e.table[k] == SlotOffset(k, flt))
    && (forall i :: 0 <= i < |w.holders| ==> Kept(w, i, flt))
  }

  // And the register list is right.
  predicate Safe(w: World, flt: nat) { NoneLost(w, flt) && w.e.live == LiveRegs(|w.holders|) }

  function Start(R: seq<u64>, table: seq<int>): World {
    World(Emitter({GP, FP, SP}, 0, table), Cells(R, map[]), [])
  }

  lemma StartIsSafe(R: seq<u64>, table: seq<int>, flt: nat)
    requires |R| == REG_COUNT && |table| == TABLE_SIZE
    ensures Safe(Start(R, table), flt)
  {
    assert forall r: reg :: InUse(r, 0) <==> r in {GP, FP, SP};
    assert LiveRegs(0) == {GP, FP, SP};
  }

  lemma LowestLive(n: nat)
    ensures S.FirstFree(LiveRegs(n), 0) == if n < USABLE then n else REG_COUNT
  {
    LowestFrom(n, 0);
  }

  lemma {:induction false} LowestFrom(n: nat, i: nat)
    requires i <= REG_COUNT && (i <= n || n >= USABLE)
    ensures S.FirstFree(LiveRegs(n), i) == if n < USABLE then n else REG_COUNT
    decreases REG_COUNT - i
  {
    if i < REG_COUNT {
      var r: reg := i;
      assert r in LiveRegs(n) <==> InUse(r, n);
      if r in LiveRegs(n) { LowestFrom(n, i + 1); }
    }
  }

  lemma MoreLive(n: nat)
    ensures n >= USABLE ==> LiveRegs(n + 1) == LiveRegs(n)
    ensures n < USABLE ==> LiveRegs(n + 1) == LiveRegs(n) + {n}
  {
    forall r: reg
      ensures InUse(r, n + 1) <==> InUse(r, n) || (n < USABLE && r == n)
    {
    }
    assert n >= USABLE ==> forall r: reg :: r in LiveRegs(n + 1) <==> r in LiveRegs(n);
    assert n < USABLE ==> forall r: reg :: r in LiveRegs(n + 1) <==> r in LiveRegs(n) + {n};
  }

  // When the next register of the seating is handed out, a register in use is
  // saved first, and every value is kept.
  lemma TakeKeepsValues(w: World, flt: nat, repaired: bool)
    requires NoneLost(w, flt) && Step(w, Take, flt, repaired).Some?
    requires var n := |w.holders|; S.FirstFree(w.e.live, 0) == if n < USABLE then n else REG_COUNT
    ensures NoneLost(Step(w, Take, flt, repaired).value, flt)
  {
    var n := |w.holders|;
    var a := Allocate(w.e, flt).value;
    var w' := Step(w, Take, flt, repaired).value;
    if n >= USABLE { DoOne(w.m, Spill(a.1, SlotOffset(w.e.spilled, flt))); }
    assert a.1 == Seat(n);
    hide Allocate;
    hide S.FirstFree;
    hide Do;
    forall i | 0 <= i < n + 1
      ensures Kept(w', i, flt)
    {
      if i < n {
        assert Kept(w, i, flt);
        if Resident(w, i) { SeatsDiffer(i, n); }
      }
    }
  }

  // With a right list it is, and the list stays right.
  lemma TakeIsSafe(w: World, flt: nat, repaired: bool)
    requires Safe(w, flt) && Step(w, Take, flt, repaired).Some?
    ensures Safe(Step(w, Take, flt, repaired).value, flt)
  {
    LowestLive(|w.holders|);
    TakeKeepsValues(w, flt, repaired);
    MoreLive(|w.holders|);
    hide NoneLost;
    hide LiveRegs;
  }

  // Two holders share a register only through takers.
  lemma SeatsDiffer(i: nat, n: nat)
    requires i < n <= Taker(i)
    ensures Seat(i) == Seat(n) <==> n == Taker(i)
  {
  }

  // Freeing the newest holder gives its register back to the one before, with
  // the value it had, as written and repaired, whatever the register list is.
  lemma GiveKeepsValues(w: World, flt: nat, repaired: bool)
    requires NoneLost(w, flt) && |w.holders| > 0
    ensures Step(w, Give, flt, repaired).Some?
    ensures NoneLost(Step(w, Give, flt, repaired).value, flt)
  {
    var n := |w.holders| - 1;
    var h := w.holders[n];
    var w' := Step(w, Give, flt, repaired).value;
    assert Kept(w, n, flt);
    if w.e.spilled > 0 {
      assert Unspills(w.e, h.r);
      DoOne(w.m, Unspill(h.r, w.e.table[w.e.spilled - 1]));
    }
    hide Do;
    forall i | 0 <= i < n
      ensures Kept(w', i, flt)
    {
      assert Kept(w, i, flt);
      if n <= Taker(i) { SeatsDiffer(i, n); }
    }
  }

  // The list is right behind it exactly when nothing was spilled; repaired, always.
  lemma GiveIsSafeIff(w: World, flt: nat, repaired: bool)
    requires Safe(w, flt) && |w.holders| > 0
    ensures Step(w, Give, flt, repaired).Some?
    ensures Safe(Step(w, Give, flt, repaired).value, flt) <==> repaired || w.e.spilled == 0
  {
    var n := |w.holders| - 1;
    var h := w.holders[n];
    GiveKeepsValues(w, flt, repaired);
    assert Kept(w, n, flt);
    MoreLive(n);
    if w.e.spilled == 0 {
      assert !Unspills(w.e, h.r);
      FreesLast(n);
    } else {
      assert Unspills(w.e, h.r);
      StillLive(n, h.r);
    }
    hide NoneLost;
    hide LiveRegs;
    hide Do;
  }

  lemma FreesLast(n: nat)
    requires n < USABLE
    ensures LiveRegs(n) + {n} - {n} == LiveRegs(n)
  {
    var r: reg := n;
    assert !InUse(r, n);
  }

  lemma StillLive(n: nat, r: reg)
    requires n >= USABLE
    ensures LiveRegs(n) - {r} != LiveRegs(n)
  {
    assert InUse(r, n);
  }

  lemma WriteKeepsValues(w: World, i: nat, v: u64, flt: nat, repaired: bool)
    requires NoneLost(w, flt) && Step(w, Write(i, v), flt, repaired).Some?
    ensures var w' := Step(w, Write(i, v), flt, repaired).value;
            NoneLost(w', flt) && w'.e == w.e && |w'.holders| == |w.holders|
  {
    var w' := Step(w, Write(i, v), flt, repaired).value;
    assert Kept(w, i, flt);
    forall j | 0 <= j < |w.holders|
      ensures Kept(w', j, flt)
    {
      assert Kept(w, j, flt);
      if j != i && Resident(w, j) {
        if j < i { SeatsDiffer(j, i); } else { SeatsDiffer(i, j); }
      }
    }
  }

  // ---- whole runs -----------------------------------------------------------------------------

  function Run(w: World, ops: seq<Op>, flt: nat, repaired: bool): Option<World>
    requires Sound(w.e) && |w.m.R| == REG_COUNT
    ensures var r := Run(w, ops, flt, repaired); r.Some? ==> Sound(r.value.e) && |r.value.m.R| == REG_COUNT
  {
    if |ops| == 0 then Some(w)
    else match Run(w, ops[..|ops| - 1], flt, repaired)
      case Some(x) => StaysSound(x, ops[|ops| - 1], flt, repaired); Step(x, ops[|ops| - 1], flt, repaired)
      case None => None
  }

  lemma StaysSound(w: World, op: Op, flt: nat, repaired: bool)
    requires Sound(w.e) && |w.m.R| == REG_COUNT
    ensures var r := Step(w, op, flt, repaired); r.Some? ==> Sound(r.value.e) && |r.value.m.R| == REG_COUNT
  {
  }

  // The run never loses a value.
  predicate AlwaysKept(w: World, ops: seq<Op>, flt: nat, repaired: bool)
    requires Sound(w.e) && |w.m.R| == REG_COUNT
  {
    var x := Run(w, ops, flt, repaired);
    (x.Some? ==> NoneLost(x.value, flt)) && (|ops| > 0 ==> AlwaysKept(w, ops[..|ops| - 1], flt, repaired))
  }

  // ---- what the calls alone tell ----------------------------------------------------------------

  // How many are outstanding, the most spilled at once since none was, and how
  // many of GP, FP and SP were unspilled, and so freed, before that.
  datatype Ledger = Ledger(n: nat, peak: nat, reserved: nat)

  function Max(a: int, b: int): int { if a < b then b else a }

  function Note(l: Ledger, op: Op): Ledger {
    match op
    case Take => l.(n := l.n + 1, peak := Max(l.peak, Spills(l.n + 1)))
    case Give =>
      if l.n == 0 then l
      else if l.n == 1 then Ledger(0, 0, Max(l.reserved, if l.peak > REG_COUNT then 3 else Max(0, l.peak - USABLE)))
      else l.(n := l.n - 1)
    case Write(_, _) => l
  }

  function Noted(n: nat, ops: seq<Op>): Ledger {
    if |ops| == 0 then Ledger(n, Spills(n), 0) else Note(Noted(n, ops[..|ops| - 1]), ops[|ops| - 1])
  }

  // Nothing was unspilled since none was outstanding; and with all registers
  // taken, none of the reserved ones was before.
  predicate MayTake(l: Ledger) { l.peak == Spills(l.n) && (l.n >= USABLE ==> l.reserved == 0) }

  predicate Careful(n: nat, ops: seq<Op>) {
    |ops| == 0 ||
    (var front := ops[..|ops| - 1];
     Careful(n, front) && (ops[|ops| - 1].Take? ==> MayTake(Noted(n, front))))
  }

  // In use, but off the list.
  predicate Missing(l: Ledger, r: reg) {
    (exists j: nat :: Spills(l.n) <= j < l.peak && Wrapped(j) == r) || USABLE <= r < USABLE + l.reserved
  }

  function Wrapped(j: nat): reg { j % REG_COUNT }

  // The list as written, from the calls alone.
  ghost predicate Tracked(w: World, l: Ledger) {
    && |w.holders| == l.n && l.peak >= Spills(l.n) && l.reserved <= 3 && (l.n == 0 ==> l.peak == 0)
    && forall r: reg :: r in w.e.live <==> InUse(r, l.n) && !Missing(l, r)
  }

  lemma SafeIsTracked(w: World, flt: nat)
    requires Safe(w, flt)
    ensures Tracked(w, Ledger(|w.holders|, Spills(|w.holders|), 0))
  {
  }

  lemma {:induction false} LowestOf(live: set<reg>, i: nat, r: nat)
    requires i <= r <= REG_COUNT && (forall k: reg :: i <= k < r ==> k in live)
    requires r < REG_COUNT ==> var x: reg := r; x !in live
    ensures S.FirstFree(live, i) == r
    decreases REG_COUNT - i
  {
    if i < r {
      var x: reg := i;
      assert x in live;
      LowestOf(live, i + 1, r);
    }
  }

  lemma CarefulTake(w: World, l: Ledger, flt: nat)
    requires NoneLost(w, flt) && Tracked(w, l) && MayTake(l) && Step(w, Take, flt, false).Some?
    ensures var w' := Step(w, Take, flt, false).value; NoneLost(w', flt) && Tracked(w', Note(l, Take))
  {
    LowestOf(w.e.live, 0, if l.n < USABLE then l.n else REG_COUNT);
    TakeKeepsValues(w, flt, false);
    TakenList(w, flt);
    hide S.FirstFree;
    hide NoneLost;
    hide Step;
    var w', l' := Step(w, Take, flt, false).value, Note(l, Take);
    forall x: reg
      ensures x in w'.e.live <==> InUse(x, l'.n) && !Missing(l', x)
    {
      assert Missing(l', x) <==> Missing(l, x);
    }
  }

  lemma TakenList(w: World, flt: nat)
    requires NoneLost(w, flt) && Step(w, Take, flt, false).Some?
    ensures var w', i := Step(w, Take, flt, false).value, S.FirstFree(w.e.live, 0);
            && |w'.holders| == |w.holders| + 1
            && w'.e.live == (if i < REG_COUNT then w.e.live + {i} else w.e.live)
            && w'.e.spilled == (if i < REG_COUNT then w.e.spilled else w.e.spilled + 1)
            && (i < REG_COUNT ==> w'.m == w.m && w'.holders == w.holders + [Holder(i, w.m.R[i])])
  {
  }

  // Otherwise a register in use is handed out, and nothing is saved.
  lemma CarelessTake(w: World, l: Ledger, flt: nat)
    requires NoneLost(w, flt) && Tracked(w, l) && !MayTake(l)
    ensures Step(w, Take, flt, false).Some?
    ensures var w', i := Step(w, Take, flt, false).value, S.FirstFree(w.e.live, 0);
            i < REG_COUNT && InUse(i, l.n) && w' == World(w.e.(live := w.e.live + {i}), w.m, w.holders + [Holder(i, w.m.R[i])])
            && !NoneLost(w', flt)
  {
    var first: reg := if l.peak > Spills(l.n) then Wrapped(Spills(l.n)) else USABLE;
    assert Missing(l, first);
    assert first !in w.e.live;
    NotAbove(w.e.live, 0, first);
    var i: reg := S.FirstFree(w.e.live, 0);
    TakenList(w, flt);
    var w' := Step(w, Take, flt, false).value;
    if l.n < USABLE { assert !Kept(w', l.n, flt); }
  }

  lemma {:induction false} NotAbove(live: set<reg>, i: nat, r: reg)
    requires i <= r && r !in live
    ensures S.FirstFree(live, i) <= r
    decreases REG_COUNT - i
  {
    if i < r { NotAbove(live, i + 1, r); }
  }

  lemma TrackedGive(w: World, l: Ledger, flt: nat)
    requires NoneLost(w, flt) && Tracked(w, l) && |w.holders| > 0
    ensures Step(w, Give, flt, false).Some?
    ensures var w' := Step(w, Give, flt, false).value; NoneLost(w', flt) && Tracked(w', Note(l, Give))
  {
    GiveKeepsValues(w, flt, false);
    GivenList(w, flt);
    var w', l' := Step(w, Give, flt, false).value, Note(l, Give);
    hide NoneLost;
    hide Step;
    forall x: reg
      ensures x in w'.e.live <==> InUse(x, l'.n) && !Missing(l', x)
    {
      MissingAfterGive(l, x);
    }
  }

  lemma GivenList(w: World, flt: nat)
    requires NoneLost(w, flt) && |w.holders| > 0
    ensures Step(w, Give, flt, false).Some?
    ensures var w', n := Step(w, Give, flt, false).value, |w.holders| - 1;
            |w'.holders| == n && w'.e.live == w.e.live - {Seat(n)}
  {
    assert Kept(w, |w.holders| - 1, flt);
  }

  lemma MissingAfterGive(l: Ledger, r: reg)
    requires l.n > 0 && l.peak >= Spills(l.n) && l.reserved <= 3
    ensures var l' := Note(l, Give);
            InUse(r, l'.n) && !Missing(l', r) <==> InUse(r, l.n) && !Missing(l, r) && r != Seat(l.n - 1)
  {
    var l' := Note(l, Give);
    if l.n > USABLE {
      assert Wrapped(Spills(l'.n)) == Seat(l.n - 1);
    } else if l.n == 1 {
      if USABLE <= r < l.peak { assert Wrapped(r) == r; }
    }
  }

  // As written, over any run: every value is kept exactly when registers are
  // taken carefully, which the calls alone tell.
  lemma {:induction false} KeptIff(w: World, ops: seq<Op>, flt: nat)
    requires Safe(w, flt) && Run(w, ops, flt, false).Some?
    ensures AlwaysKept(w, ops, flt, false) <==> Careful(|w.holders|, ops)
    ensures Careful(|w.holders|, ops) ==> Tracked(Run(w, ops, flt, false).value, Noted(|w.holders|, ops))
    decreases |ops|
  {
    hide Safe;
    hide Step;
    hide NoneLost;
    hide Tracked;
    hide MayTake;
    hide Note;
    SafeIsSound(w, flt);
    if |ops| == 0 {
      SafeIsTracked(w, flt);
    } else {
      var front, op := ops[..|ops| - 1], ops[|ops| - 1];
      KeptIff(w, front, flt);
      var x, l := Run(w, front, flt, false).value, Noted(|w.holders|, front);
      if Careful(|w.holders|, front) {
        match op
        case Take => if MayTake(l) { CarefulTake(x, l, flt); } else { CarelessTake(x, l, flt); }
        case Write(i, v) => TrackedWrite(x, l, i, v, flt);
        case Give =>
          NothingToGive(x, flt);
          TrackedGive(x, l, flt);
      }
    }
  }

  lemma NothingToGive(w: World, flt: nat)
    requires NoneLost(w, flt) && Step(w, Give, flt, false).Some?
    ensures |w.holders| > 0
  {
  }

  lemma TrackedWrite(w: World, l: Ledger, i: nat, v: u64, flt: nat)
    requires NoneLost(w, flt) && Tracked(w, l) && Step(w, Write(i, v), flt, false).Some?
    ensures var w' := Step(w, Write(i, v), flt, false).value; NoneLost(w', flt) && Tracked(w', Note(l, Write(i, v)))
  {
    WriteKeepsValues(w, i, v, flt, false);
    hide NoneLost;
    hide Step;
  }

  // Repaired, every value is always kept, and the list right.
  lemma {:induction false} RepairedKeeps(w: World, ops: seq<Op>, flt: nat)
    requires Safe(w, flt)
    ensures AlwaysKept(w, ops, flt, true)
    ensures var x := Run(w, ops, flt, true); x.Some? ==> Safe(x.value, flt)
    decreases |ops|
  {
    hide NoneLost;
    hide Step;
    SafeIsSound(w, flt);
    if |ops| > 0 {
      var front, op := ops[..|ops| - 1], ops[|ops| - 1];
      RepairedKeeps(w, front, flt);
      var x := Run(w, front, flt, true);
      if x.Some? && Step(x.value, op, flt, true).Some? {
        match op
        case Take => TakeIsSafe(x.value, flt, true);
        case Write(i, v) => WriteKeepsValues(x.value, i, v, flt, true);
        case Give =>
          GivenSome(x.value, flt);
          GiveIsSafeIff(x.value, flt, true);
      }
    }
  }

  // How many are outstanding behind these calls, `n` being so before.
  function Count(n: nat, ops: seq<Op>): nat {
    if |ops| == 0 then n else
    var m := Count(n, ops[..|ops| - 1]);
    match ops[|ops| - 1]
    case Take => m + 1
    case Give => if m == 0 then 0 else m - 1
    case Write(_, _) => m
  }

  // What a caller may ask for: to free what is outstanding, to write through a
  // holder still in its register, and no more than the table of slots is for.
  predicate Playable(n: nat, ops: seq<Op>) {
    |ops| == 0 ||
    (var front := ops[..|ops| - 1];
     var m := Count(n, front);
     Playable(n, front) && match ops[|ops| - 1]
                           case Take => m < USABLE + TABLE_SIZE
                           case Give => m > 0
                           case Write(i, _) => i < m <= Taker(i))
  }

  // Repaired, the allocator serves exactly these calls.
  lemma {:induction false} ServedIff(w: World, ops: seq<Op>, flt: nat)
    requires Safe(w, flt)
    ensures Run(w, ops, flt, true).Some? <==> Playable(|w.holders|, ops)
    ensures Run(w, ops, flt, true).Some? ==> |Run(w, ops, flt, true).value.holders| == Count(|w.holders|, ops)
    decreases |ops|
  {
    hide NoneLost;
    hide Step;
    SafeIsSound(w, flt);
    if |ops| > 0 {
      var front := ops[..|ops| - 1];
      ServedIff(w, front, flt);
      RepairedKeeps(w, front, flt);
      var x := Run(w, front, flt, true);
      if x.Some? { StepServedIff(x.value, ops[|ops| - 1], flt); }
    }
  }

  lemma StepServedIff(w: World, op: Op, flt: nat)
    requires Safe(w, flt)
    ensures Sound(w.e) && |w.m.R| == REG_COUNT
    ensures var m, r := |w.holders|, Step(w, op, flt, true);
            && (r.Some? <==> match op case Take => m < USABLE + TABLE_SIZE case Give => m > 0 case Write(i, _) => i < m <= Taker(i))
            && (r.Some? ==> |r.value.holders| == match op case Take => m + 1 case Give => m - 1 case Write(_, _) => m)
  {
    LowestLive(|w.holders|);
    hide LiveRegs;
    hide S.FirstFree;
    hide Do;
    hide Release;
  }

  lemma GivenSome(w: World, flt: nat)
    requires NoneLost(w, flt) && Step(w, Give, flt, true).Some?
    ensures |w.holders| > 0
  {
  }

  lemma NothingLostIff(w: World, ops: seq<Op>, flt: nat, repaired: bool)
    requires Safe(w, flt) && Run(w, ops, flt, repaired).Some?
    ensures AlwaysKept(w, ops, flt, repaired) <==> repaired || Careful(|w.holders|, ops)
  {
    hide *;
    if repaired { RepairedKeeps(w, ops, flt); } else { KeptIff(w, ops, flt); }
  }

  lemma SafeIsSound(w: World, flt: nat)
    requires Safe(w, flt)
    ensures Sound(w.e) && |w.m.R| == REG_COUNT && NoneLost(w, flt)
  {
  }

  // The newest holder whose seat is `r`.
  function Occupant(n: nat, r: reg): nat
    requires r < n && r < USABLE
  {
    if n <= USABLE + r then r else USABLE + r + REG_COUNT * ((n - 1 - USABLE - r) / REG_COUNT)
  }

  lemma OccupantSits(n: nat, r: reg)
    requires r < n && r < USABLE
    ensures var i := Occupant(n, r); i < n <= Taker(i) && Seat(i) == r
  {
    if n > USABLE + r {
      var q := (n - 1 - USABLE - r) / REG_COUNT;
      assert (r + REG_COUNT * q) % REG_COUNT == r;
    }
  }

  // The holder of a register handed out carelessly loses its value with the first
  // write of another through the new one.
  lemma CarelessTakeLoses(w: World, l: Ledger, v: u64, flt: nat)
    requires NoneLost(w, flt) && Tracked(w, l) && !MayTake(l) && S.FirstFree(w.e.live, 0) < USABLE
    ensures Step(w, Take, flt, false).Some?
    ensures var r: reg := S.FirstFree(w.e.live, 0);
            var w1 := Step(w, Take, flt, false).value;
            && r < l.n && Sound(w1.e) && |w1.m.R| == REG_COUNT
            && var i, w2 := Occupant(l.n, r), Step(w1, Write(l.n, v), flt, false);
               && i < l.n && w.holders[i].r == r && w.m.R[r] == w.holders[i].v
               && w2.Some? && w2.value.holders[i] == w.holders[i] && w2.value.m == w.m.(R := w.m.R[r := v])
  {
    CarelessTake(w, l, flt);
    var r: reg := S.FirstFree(w.e.live, 0);
    OccupantSits(l.n, r);
    assert Kept(w, Occupant(l.n, r), flt);
    hide S.FirstFree;
    hide Allocate;
    hide Occupant;
  }

  // A reserved register is handed out exactly when 13 are spilled and the next
  // lands on it: the modulus is the number of all registers.
  lemma ReservedHandedOutIff(w: World, flt: nat)
    requires Safe(w, flt) && Allocate(w.e, flt).Some?
    ensures Allocate(w.e, flt).value.1 in {GP, FP, SP} <==> w.e.spilled % REG_COUNT >= USABLE && |w.holders| >= USABLE
  {
    LowestLive(|w.holders|);
    hide S.FirstFree;
  }

  // As written: 14 outstanding, the newest freed, another taken.  It gets the
  // register of the first holder, still outstanding, and nothing is saved.
  lemma LiveRegisterHandedOut(w: World, flt: nat)
    requires Safe(w, flt) && |w.holders| == USABLE + 1
    ensures var w1 := Step(w, Give, flt, false).value;
            && Step(w, Give, flt, false).Some? && Sound(w1.e) && |w1.holders| == USABLE && w1.holders[0].r == 0
            && Allocate(w1.e, flt) == Some((w1.e.(live := w1.e.live + {0}), 0, []))
  {
    assert Kept(w, 0, flt) && Kept(w, USABLE, flt);
    var zero: reg := 0;
    assert InUse(zero, USABLE + 1);
  }

  // ---- the emitter's fields ----------------------------------------------------------------------

  class RegisterAllocator {
    var Reglist: set<reg>
    var SpilledIntRegs: nat
    const SpilledIntRegLocation: array<int>
    // the moves written to the chunk
    var Emitted: seq<Move>
    const repaired: bool

    ghost function Value(): Emitter
      reads this, SpilledIntRegLocation
    {
      Emitter(Reglist, SpilledIntRegs, SpilledIntRegLocation[..])
    }

    constructor (repaired: bool)
      ensures Sound(Value()) && Reglist == {GP, FP, SP} && SpilledIntRegs == 0 && Emitted == []
      ensures this.repaired == repaired && fresh(SpilledIntRegLocation)
    {
      Reglist, SpilledIntRegs, Emitted := {GP, FP, SP}, 0, [];
      SpilledIntRegLocation := new int[TABLE_SIZE];
      this.repaired := repaired;
    }

    method AllocateRegister(flt: nat) returns (r: Option<reg>)
      requires Sound(Value())
      modifies this, SpilledIntRegLocation
      ensures match Allocate(old(Value()), flt)
              case Some(a) => Value() == a.0 && r == Some(a.1) && Emitted == old(Emitted) + a.2
              case None => Value() == old(Value()) && r == None && Emitted == old(Emitted)
    {
      var i := 0;
      while i < REG_COUNT
        invariant 0 <= i <= REG_COUNT && S.FirstFree(Reglist, 0) == S.FirstFree(Reglist, i)
        invariant Value() == old(Value()) && Emitted == old(Emitted)
      {
        if i !in Reglist {
          Reglist := Reglist + {i};
          return Some(i);
        }
        i := i + 1;
      }
      if SpilledIntRegs == TABLE_SIZE {
        return None;
      }
      var offset, spilled := SlotOffset(SpilledIntRegs, flt), SpilledIntRegs % REG_COUNT;
      SpilledIntRegLocation[SpilledIntRegs] := offset;
      SpilledIntRegs := SpilledIntRegs + 1;
      Emitted := Emitted + [Spill(spilled, offset)];
      r := Some(spilled);
    }

    method FreeRegister(r: reg)
      requires Sound(Value())
      modifies this
      ensures var f := Release(old(Value()), r, repaired); Value() == f.0 && Emitted == old(Emitted) + f.1
    {
      var unspilled := SpilledIntRegs > 0 && r == (SpilledIntRegs - 1) % REG_COUNT;
      if unspilled {
        SpilledIntRegs := SpilledIntRegs - 1;
        Emitted := Emitted + [Unspill(r, SpilledIntRegLocation[SpilledIntRegs])];
      }
      if if repaired then !unspilled else r - REG_COUNT < SpilledIntRegs {
        Reglist := Reglist - {r};
      }
    }
  }

  // ---- the slots of both register files ----------------------------------------------------------

  // Offsets off SP of what is spilled of either file, oldest first.
  datatype Slots = Slots(ints: seq<int>, floats: seq<int>)

  function SpillOne(s: Slots, float: bool): Slots {
    if float then s.(floats := s.floats + [SlotOffset(|s.floats|, |s.ints|)])
    else s.(ints := s.ints + [SlotOffset(|s.ints|, |s.floats|)])
  }

  function UnspillOne(s: Slots, float: bool): Slots
    requires |if float then s.floats else s.ints| > 0
  {
    if float then s.(floats := s.floats[..|s.floats| - 1]) else s.(ints := s.ints[..|s.ints| - 1])
  }

  function NewestOf(s: Slots, float: bool): int
    requires |if float then s.floats else s.ints| > 0
  {
    if float then s.floats[|s.floats| - 1] else s.ints[|s.ints| - 1]
  }

  function Outstanding(s: Slots): nat { |s.ints| + |s.floats| }

  predicate Taken(s: Slots, off: int) { off in s.ints || off in s.floats }

  // The cells taken are those directly below SP, one for each.
  ghost predicate Tidy(s: Slots) { Fills(s) && OneEach(s) }

  ghost predicate Fills(s: Slots) { forall off :: Taken(s, off) <==> off % 8 == 0 && -8 * Outstanding(s) <= off < 0 }

  predicate OneEach(s: Slots) {
    && (forall i, j :: 0 <= i < j < |s.ints| ==> s.ints[i] != s.ints[j])
    && (forall i, j :: 0 <= i < j < |s.floats| ==> s.floats[i] != s.floats[j])
    && (forall off :: off in s.ints ==> off !in s.floats)
  }

  lemma NoneSpilledIsTidy()
    ensures Tidy(Slots([], []))
  {
  }

  // A spill takes the next cell, which nothing else has.
  lemma SpillStaysTidy(s: Slots, float: bool)
    requires Tidy(s)
    ensures Tidy(SpillOne(s, float)) && NewestOf(SpillOne(s, float), float) == -8 * Outstanding(s) - 8
  {
    var r, off := SpillOne(s, float), SlotOffset(|s.ints|, |s.floats|);
    assert off == -8 * Outstanding(s) - 8;
    assert !Taken(s, off);
    forall o
      ensures Taken(r, o) <==> Taken(s, o) || o == off
    {
      if float {
        assert r.floats[|s.floats|] == off;
      } else {
        assert r.ints[|s.ints|] == off;
      }
    }
  }

  // Whatever is unspilled, nothing is tidy any more unless it was the last to be
  // spilled of both files: the next spill, of either, then takes a cell in use.
  lemma UnspillTidyIff(s: Slots, float: bool)
    requires Tidy(s) && |if float then s.floats else s.ints| > 0
    ensures var r := UnspillOne(s, float);
            && (Tidy(r) <==> NewestOf(s, float) == -8 * Outstanding(s))
            && (NewestOf(s, float) != -8 * Outstanding(s) ==> forall f :: Taken(r, NewestOf(SpillOne(r, f), f)))
  {
    UnspillRemoves(s, float);
    NextSlot(s, float);
    hide OneEach;
    hide UnspillOne;
    hide SpillOne;
    hide Taken;
    var r, gone, last := UnspillOne(s, float), NewestOf(s, float), -8 * Outstanding(s);
    hide NewestOf;
    hide Outstanding;
    assert Taken(s, gone) && Taken(s, last);
    if gone != last { assert Taken(r, last); }
  }

  lemma UnspillRemoves(s: Slots, float: bool)
    requires OneEach(s) && |if float then s.floats else s.ints| > 0
    ensures var r := UnspillOne(s, float);
            && Outstanding(r) == Outstanding(s) - 1 && OneEach(r) && Taken(s, NewestOf(s, float))
            && forall o :: Taken(r, o) <==> Taken(s, o) && o != NewestOf(s, float)
  {
    var r, gone := UnspillOne(s, float), NewestOf(s, float);
    if float {
      assert s.floats == r.floats + [gone];
    } else {
      assert s.ints == r.ints + [gone];
    }
  }

  lemma NextSlot(s: Slots, float: bool)
    requires |if float then s.floats else s.ints| > 0
    ensures forall f :: NewestOf(SpillOne(UnspillOne(s, float), f), f) == -8 * Outstanding(s)
  {
  }

  // One integer spilled, one float, the integer brought back: the next spill is put
  // over the float.
  lemma FloatOverwritten()
    ensures var s := UnspillOne(SpillOne(SpillOne(Slots([], []), false), true), false);
            s.floats == [-16] && SpillOne(s, false).ints == [-16]
  {
  }
}
