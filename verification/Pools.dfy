// Whole runs of the general purpose heap, with what each payload was asked to hold.
// src/Memory.c
module Pools {
  import opened Words
  import opened Blocks
  import opened HeapRuns

  datatype Op = Alloc(n: u32) | Dealloc(p: nat) | Realloc(p: nat, n: u32)

  // The blocks, and the size last asked for of each payload handed out.
  datatype Pool = Pool(b: seq<Block>, asked: map<nat, nat>)

  function Resized(b: seq<Block>, i: nat, n: u32, repaired: bool): Option<(seq<Block>, nat)>
    requires i < |b|
  {
    if repaired then ReallocateRepaired(b, i, n) else Reallocate(b, i, n)
  }

  // None: out of memory, an address that is no payload in use, a size of 0.
  function Step(w: Pool, op: Op, repaired: bool): Option<Pool> {
    match op
    case Alloc(n) => (match Allocate(w.b, n) case Some(r) => Some(Pool(r.0, w.asked[r.1 := n])) case None => None)
    case Dealloc(p) =>
      var i := BlockOf(w.b, p);
      if i == |w.b| || w.b[i].free then None else Some(Pool(Free(w.b, i), w.asked - {p}))
    case Realloc(p, n) =>
      var i := BlockOf(w.b, p);
      if i == |w.b| || w.b[i].free || n == 0 then None
      else match Resized(w.b, i, n, repaired)
        case Some(r) => Some(Pool(r.0, (w.asked - {p})[r.1 := n]))
        case None => None
  }

  function Run(cap: u32, ops: seq<Op>, repaired: bool): Option<Pool> {
    if |ops| == 0 then Some(Pool(Fresh(cap), map[]))
    else match Run(cap, ops[..|ops| - 1], repaired)
      case Some(w) => Step(w, ops[|ops| - 1], repaired)
      case None => None
  }

  // The blocks tile the arena, the payloads in use are those handed out, and each
  // is at least as large as asked for.
  predicate Held(w: Pool, end: nat) {
    && Heap(w.b, end) && Increasing(w.b) && Span(w.b, 0, |w.b|) == end
    && w.asked.Keys == InUse(w.b).Keys && forall p | p in w.asked :: w.asked[p] <= InUse(w.b)[p]
  }

  // The size, rounded up, still is one of 32 bits.
  predicate Sized(op: Op) { op.Dealloc? || op.n < TWO32 - ALIGNMENT }

  predicate Grows(w: Pool, op: Op) {
    op.Realloc? ==> var i := BlockOf(w.b, op.p); i < |w.b| ==> FitsInPlace(w.b, i, op.n)
  }

  lemma FreshIsHeld(cap: u32)
    ensures Held(Pool(Fresh(cap), map[]), Arena(cap))
  {
    FreshIsHeap(cap);
    Whole(Fresh(cap), Arena(cap));
    hide Fresh;
  }

  lemma Whole(b: seq<Block>, end: nat)
    requires Heap(b, end)
    ensures Span(b, 0, |b|) == end
  {
    SpanIsDistance(b, end, 0, |b|);
  }

  lemma HeldParts(w: Pool, end: nat)
    requires Held(w, end)
    ensures Heap(w.b, end) && Increasing(w.b) && w.asked.Keys == InUse(w.b).Keys
    ensures forall p | p in w.asked :: w.asked[p] <= InUse(w.b)[p]
  {
  }

  // One payload more, or replaced by another, the rest as they were.
  lemma StaysHeldWith(w: Pool, q: nat, n: nat, r: seq<Block>, end: nat)
    requires Held(w, end) && Heap(r, end) && Increasing(r) && q in InUse(r) && InUse(r)[q] >= n
    requires InUse(r) == InUse(w.b)[q := InUse(r)[q]]
    ensures Held(Pool(r, w.asked[q := n]), end)
  {
    Whole(r, end);
    hide Heap;
    hide Increasing;
    hide InUse;
    hide Span;
  }

  lemma StaysHeld(w: Pool, p: nat, q: nat, n: nat, r: seq<Block>, end: nat)
    requires Held(w, end) && Heap(r, end) && Increasing(r) && q in InUse(r) && InUse(r)[q] >= n
    requires InUse(r) == (InUse(w.b) - {p})[q := InUse(r)[q]]
    ensures Held(Pool(r, (w.asked - {p})[q := n]), end)
  {
    Whole(r, end);
    hide Heap;
    hide Increasing;
    hide InUse;
    hide Span;
  }

  lemma StaysHeldWithout(w: Pool, p: nat, r: seq<Block>, end: nat)
    requires Held(w, end) && Heap(r, end) && Increasing(r) && InUse(r) == InUse(w.b) - {p}
    ensures Held(Pool(r, w.asked - {p}), end)
  {
    Whole(r, end);
    hide Heap;
    hide Increasing;
    hide InUse;
    hide Span;
  }

  lemma PromiseMeans(b: seq<Block>, p: nat, n: u32, r: seq<Block>, q: nat, end: nat)
    requires Increasing(b) && Promised(b, p, n, r, q, end)
    ensures Heap(r, end) && Increasing(r) && q in InUse(r) && InUse(r)[q] >= n
    ensures InUse(r) == (InUse(b) - {p})[q := InUse(r)[q]]
  {
  }

  lemma AllocStays(w: Pool, end: nat, n: u32, repaired: bool)
    requires Held(w, end) && n < TWO32 - ALIGNMENT && Step(w, Alloc(n), repaired).Some?
    ensures Held(Step(w, Alloc(n), repaired).value, end)
  {
    AllocMeans(w, n, repaired);
    hide *;
    HeldParts(w, end);
    var (r, q) := Allocate(w.b, n).value;
    AllocateIsSafe(w.b, end, n);
    StaysHeldWith(w, q, n, r, end);
  }

  lemma AllocMeans(w: Pool, n: u32, repaired: bool)
    requires Step(w, Alloc(n), repaired).Some?
    ensures Allocate(w.b, n).Some?
    ensures var (r, q) := Allocate(w.b, n).value; Step(w, Alloc(n), repaired).value == Pool(r, w.asked[q := n])
  {
    hide Allocate;
  }

  lemma DeallocStays(w: Pool, end: nat, p: nat, repaired: bool)
    requires Held(w, end) && Step(w, Dealloc(p), repaired).Some?
    ensures Held(Step(w, Dealloc(p), repaired).value, end)
  {
    HeldParts(w, end);
    var i := BlockOf(w.b, p);
    FreeIsSafe(w.b, end, i);
    hide Held;
    hide Free;
    StaysHeldWithout(w, p, Free(w.b, i), end);
  }

  lemma ReallocStaysIff(w: Pool, end: nat, p: nat, n: u32, repaired: bool)
    requires Held(w, end) && n < TWO32 - ALIGNMENT && Step(w, Realloc(p, n), repaired).Some?
    ensures Held(Step(w, Realloc(p, n), repaired).value, end) <==> repaired || Grows(w, Realloc(p, n))
  {
    HeldParts(w, end);
    var i := BlockOf(w.b, p);
    var (r, q) := Resized(w.b, i, n, repaired).value;
    if repaired {
      RepairedReallocateKeepsPromise(w.b, end, i, n);
    } else {
      ReallocateKeepsPromiseIff(w.b, end, i, n);
    }
    hide FitsInPlace;
    hide ReallocateRepaired;
    hide Reallocate;
    hide Promised;
    hide Held;
    if repaired || FitsInPlace(w.b, i, n) {
      PromiseMeans(w.b, p, n, r, q, end);
      StaysHeld(w, p, q, n, r, end);
    } else {
      ReallocateBreaks(w.b, end, i, n);
      BrokenIsNotHeld(Pool(r, (w.asked - {p})[q := n]), end, q);
    }
  }

  lemma BrokenIsNotHeld(w: Pool, end: nat, q: nat)
    requires q in w.asked && (!Heap(w.b, end) || (Increasing(w.b) && (q in InUse(w.b) ==> InUse(w.b)[q] < w.asked[q])))
    ensures !Held(w, end)
  {
  }

  predicate AlwaysHeld(cap: u32, ops: seq<Op>, repaired: bool) {
    var x := Run(cap, ops, repaired);
    (x.Some? ==> Held(x.value, Arena(cap))) && (|ops| > 0 ==> AlwaysHeld(cap, ops[..|ops| - 1], repaired))
  }

  // Every reallocation of the run fits in place.
  predicate AlwaysGrows(cap: u32, ops: seq<Op>, repaired: bool) {
    |ops| == 0 ||
    (var front := ops[..|ops| - 1];
     var x := Run(cap, front, repaired);
     AlwaysGrows(cap, front, repaired) && (x.Some? && Step(x.value, ops[|ops| - 1], repaired).Some? ==> Grows(x.value, ops[|ops| - 1])))
  }

  // In every heap reached from a fresh one the blocks tile the arena to the byte
  // and every payload is as large as asked for: repaired, over all runs, and as
  // written over exactly those whose reallocations fit in place.
  lemma {:induction false} RunsHeldIff(cap: u32, ops: seq<Op>, repaired: bool)
    requires forall i :: 0 <= i < |ops| ==> Sized(ops[i])
    ensures AlwaysHeld(cap, ops, repaired) <==> repaired || AlwaysGrows(cap, ops, repaired)
    decreases |ops|
  {
    hide Held;
    hide Step;
    hide Grows;
    hide Arena;
    if |ops| == 0 {
      FreshIsHeld(cap);
    } else {
      var front, op := ops[..|ops| - 1], ops[|ops| - 1];
      RunsHeldIff(cap, front, repaired);
      var x := Run(cap, front, repaired);
      if AlwaysHeld(cap, front, repaired) && x.Some? && Step(x.value, op, repaired).Some? {
        StepStaysIff(x.value, Arena(cap), op, repaired);
      }
    }
  }

  lemma StepStaysIff(w: Pool, end: nat, op: Op, repaired: bool)
    requires Held(w, end) && Sized(op) && Step(w, op, repaired).Some?
    ensures Held(Step(w, op, repaired).value, end) <==> repaired || Grows(w, op)
  {
    match op
    case Alloc(n) => AllocStays(w, end, n, repaired);
    case Dealloc(p) => DeallocStays(w, end, p, repaired);
    case Realloc(p, n) => ReallocStaysIff(w, end, p, n, repaired);
    hide Held;
    hide Step;
  }

  // ---- what is served ---------------------------------------------------------------------

  // The address is that of a payload handed out, and there is room.
  predicate Served(w: Pool, op: Op) {
    match op
    case Alloc(n) => !Full(w.b, n)
    case Dealloc(p) => p in w.asked
    case Realloc(p, n) =>
      p in w.asked && n > 0 && var i := BlockOf(w.b, p);
      i < |w.b| && !(Room(w.b, i) < n && Full(Merge(w.b, i), n))
  }

  lemma HandedOut(w: Pool, end: nat, p: nat)
    requires Held(w, end)
    ensures p in w.asked <==> BlockOf(w.b, p) < |w.b| && !w.b[BlockOf(w.b, p)].free
  {
    var i := BlockOf(w.b, p);
    if i < |w.b| && !w.b[i].free { UsedAt(w.b, i); }
    if p in w.asked {
      var k := UsedBy(w.b, p);
      if i < |w.b| && i != k { OnePlace(w.b, k, i); }
    }
  }

  lemma StepServedIff(w: Pool, end: nat, op: Op, repaired: bool)
    requires Held(w, end)
    ensures Step(w, op, repaired).Some? <==> Served(w, op)
  {
    hide *;
    HeldParts(w, end);
    StepFails(w, op, repaired);
    match op
    case Alloc(n) =>
      AllocateFailsIff(w.b, end, n);
    case Dealloc(p) =>
      HandedOut(w, end, p);
    case Realloc(p, n) =>
      HandedOut(w, end, p);
      var i := BlockOf(w.b, p);
      if i < |w.b| && !w.b[i].free { ReallocateFailsIff(w.b, end, i, n); }
  }

  lemma StepFails(w: Pool, op: Op, repaired: bool)
    ensures op.Alloc? ==> Step(w, op, repaired).Some? == Allocate(w.b, op.n).Some? && Served(w, op) == !Full(w.b, op.n)
    ensures !op.Alloc? ==>
              var i := BlockOf(w.b, op.p);
              var used := i < |w.b| && !w.b[i].free;
              if op.Dealloc? then Step(w, op, repaired).Some? == used && Served(w, op) == (op.p in w.asked)
              else
                && Step(w, op, repaired).Some? == (used && op.n > 0 && (if repaired then ReallocateRepaired(w.b, i, op.n) else Reallocate(w.b, i, op.n)).Some?)
                && Served(w, op) == (op.p in w.asked && op.n > 0 && i < |w.b| && !(Room(w.b, i) < op.n && Full(Merge(w.b, i), op.n)))
  {
    hide Allocate;
    hide Free;
    hide Reallocate;
    hide ReallocateRepaired;
    hide Room;
    hide Full;
    hide Merge;
  }

  // Every operation of the run is one the heap can serve.
  predicate AlwaysServed(cap: u32, ops: seq<Op>, repaired: bool) {
    |ops| == 0 ||
    (var x := Run(cap, ops[..|ops| - 1], repaired);
     AlwaysServed(cap, ops[..|ops| - 1], repaired) && x.Some? && Served(x.value, ops[|ops| - 1]))
  }

  // A run stops only at an operation that cannot be served.
  lemma {:induction false} RunServedIff(cap: u32, ops: seq<Op>, repaired: bool)
    requires forall i :: 0 <= i < |ops| ==> Sized(ops[i])
    requires repaired || AlwaysGrows(cap, ops, repaired)
    ensures Run(cap, ops, repaired).Some? <==> AlwaysServed(cap, ops, repaired)
    decreases |ops|
  {
    RunsHeldIff(cap, ops, repaired);
    hide Held;
    hide Step;
    hide Grows;
    hide Served;
    hide Sized;
    if |ops| > 0 {
      var front, op := ops[..|ops| - 1], ops[|ops| - 1];
      RunServedIff(cap, front, repaired);
      var x := Run(cap, front, repaired);
      if x.Some? { StepServedIff(x.value, Arena(cap), op, repaired); }
    }
  }
}
