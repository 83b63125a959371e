// Whole runs of the general purpose heap, and reallocation.
// src/Memory.c
module HeapRuns {
  import opened Words
  import opened Blocks

  // GPAInit: one free block; the lowest bit of the size is its tag.
  function Fresh(cap: u32): seq<Block> { [Block(0, cap - cap % 2, true)] }

  function Arena(cap: u32): nat { HEADER + cap - cap % 2 }

  // The block behind a payload address.
  function BlockOf(b: seq<Block>, p: nat): (i: nat)
    ensures i <= |b|
    ensures i < |b| ==> Ptr(b[i]) == p
    ensures i == |b| ==> forall k :: 0 <= k < |b| ==> Ptr(b[k]) != p
  {
    if |b| == 0 then 0
    else if Ptr(b[0]) == p then 0
    else 1 + BlockOf(b[1..], p)
  }

  lemma FreshIsHeap(cap: u32)
    ensures Heap(Fresh(cap), Arena(cap)) && Increasing(Fresh(cap)) && InUse(Fresh(cap)) == map[]
  {
    assert TiledAt(Fresh(cap), Arena(cap), 0);
  }

  // ---- freeing in decreasing address order ----------------------------------------------

  // Frees every block in use among the first `n`, the last one first.
  function FreeDown(b: seq<Block>, n: nat): seq<Block>
    requires n <= |b|
    decreases n
  {
    if n == 0 then b
    else if b[n - 1].free then FreeDown(b, n - 1)
    else FreeDown(Free(b, n - 1), n - 1)
  }

  // The first block in use among the first `n`.
  function FirstUsed(b: seq<Block>, n: nat): (i: nat)
    requires n <= |b|
    ensures i <= n
    ensures forall k :: 0 <= k < i ==> b[k].free
    ensures i < n ==> !b[i].free
  {
    if n == 0 then 0
    else var i := FirstUsed(b, n - 1);
      if i < n - 1 || !b[n - 1].free then i else n
  }

  lemma FreeBeforeRest(b: seq<Block>, end: nat, i: nat)
    requires Heap(b, end) && i < |b| && forall k :: i < k < |b| ==> b[k].free
    ensures b[i].addr + HEADER <= end
    ensures Free(b, i) == b[..i] + [Block(b[i].addr, end - b[i].addr - HEADER, true)]
  {
    var f := b[i := b[i].(free := true)];
    FreedIsHeap(b, end, i);
    assert RunEnd(f, i + 1) == |f|;
    SpanIsDistance(f, end, i + 1, |f|);
    assert TiledAt(f, end, i);
  }

  // Everything from the first block in use on becomes one free block, although
  // coalescing only looks forward.
  lemma {:induction false} FreeDownMerges(b: seq<Block>, end: nat, n: nat)
    requires Heap(b, end) && n <= |b| && forall k :: n <= k < |b| ==> b[k].free
    ensures FirstUsed(b, n) < n ==> b[FirstUsed(b, n)].addr + HEADER <= end
    ensures var i := FirstUsed(b, n);
            FreeDown(b, n) ==
              if i == n then b else b[..i] + [Block(b[i].addr, end - b[i].addr - HEADER, true)]
    decreases n
  {
    hide *;
    if n == 0 {
      FreeNone(b);
    } else {
      FreeDownStep(b, n);
      if b[n - 1].free {
        FreeDownMerges(b, end, n - 1);
      } else {
        var f, i := Free(b, n - 1), FirstUsed(b, n - 1);
        FreeBeforeRest(b, end, n - 1);
        FreeStaysHeap(b, end, n - 1);
        FreeDownMerges(f, end, n - 1);
        assert f[..n - 1] == b[..n - 1];
        SameFirst(b, f, n - 1);
        if i < n - 1 {
          assert f[..n - 1][..i] == f[..i] && b[..n - 1][..i] == b[..i] && f[..n - 1][i] == f[i] && b[..n - 1][i] == b[i];
        }
      }
    }
  }

  lemma FreeNone(b: seq<Block>)
    ensures FreeDown(b, 0) == b && FirstUsed(b, 0) == 0
  {
  }

  lemma FreeDownStep(b: seq<Block>, n: nat)
    requires 0 < n <= |b|
    ensures FreeDown(b, n) == FreeDown(if b[n - 1].free then b else Free(b, n - 1), n - 1)
    ensures FirstUsed(b, n) == var i := FirstUsed(b, n - 1); if i < n - 1 || !b[n - 1].free then i else n
  {
    hide Free;
  }

  lemma FreeStaysHeap(b: seq<Block>, end: nat, i: nat)
    requires Heap(b, end) && i < |b|
    ensures Heap(Free(b, i), end)
  {
    SpacedIncreases(b, end);
    FreeIsSafe(b, end, i);
  }

  lemma {:induction false} SameFirst(b: seq<Block>, f: seq<Block>, n: nat)
    requires n <= |b| && n <= |f| && b[..n] == f[..n]
    ensures FirstUsed(b, n) == FirstUsed(f, n)
    decreases n
  {
    if n > 0 {
      assert b[..n][n - 1] == b[n - 1] && f[..n][n - 1] == f[n - 1];
      assert b[..n - 1] == b[..n][..n - 1] && f[..n - 1] == f[..n][..n - 1];
      SameFirst(b, f, n - 1);
    }
  }

  // One free block of the original size is left exactly when no free block was
  // in front of the first one in use.
  lemma FreeDownRestoresIff(b: seq<Block>, cap: u32)
    requires Heap(b, Arena(cap))
    ensures FreeDown(b, |b|) == Fresh(cap) <==> !b[0].free || |b| == 1
  {
    hide *;
    FreeDownMerges(b, Arena(cap), |b|);
    FirstTile(b, Arena(cap));
    var i := FirstUsed(b, |b|);
    OneFreeBlock(cap, b[0]);
    if i == 0 {
      assert b[..0] == [];
    } else if i < |b| {
      assert |FreeDown(b, |b|)| == i + 1;
    } else {
      assert |b| == 1 ==> b == [b[0]];
    }
  }

  lemma OneFreeBlock(cap: u32, x: Block)
    ensures |Fresh(cap)| == 1 && Arena(cap) >= HEADER
    ensures Fresh(cap) == [Block(0, Arena(cap) - 0 - HEADER, true)]
    ensures x.addr == 0 && x.free && HEADER + x.size == Arena(cap) ==> [x] == Fresh(cap)
  {
  }

  lemma FirstTile(b: seq<Block>, end: nat)
    requires Heap(b, end)
    ensures |b| > 0 && b[0].addr == 0 && (|b| == 1 ==> HEADER + b[0].size == end)
  {
    assert TiledAt(b, end, 0);
  }

  function AllocAll(b: seq<Block>, ns: seq<u32>): Option<seq<Block>> {
    if |ns| == 0 then Some(b)
    else match AllocAll(b, ns[..|ns| - 1])
      case Some(r) => (match Allocate(r, ns[|ns| - 1]) case Some(x) => Some(x.0) case None => None)
      case None => None
  }

  lemma {:induction false} FirstStaysUsed(cap: u32, ns: seq<u32>)
    requires AllocAll(Fresh(cap), ns).Some?
    ensures var b := AllocAll(Fresh(cap), ns).value;
            Heap(b, Arena(cap)) && Increasing(b) && (|ns| > 0 ==> !b[0].free) && (|ns| == 0 ==> b == Fresh(cap))
    decreases |ns|
  {
    hide Heap;
    hide Increasing;
    hide InUse;
    hide Allocate;
    if |ns| == 0 {
      FreshIsHeap(cap);
    } else {
      var front, n := ns[..|ns| - 1], ns[|ns| - 1];
      FirstStaysUsed(cap, front);
      var b := AllocAll(Fresh(cap), front).value;
      AllocateIsSafe(b, Arena(cap), n);
      NonEmpty(b, Arena(cap));
      FirstUse(b, n);
    }
  }

  lemma NonEmpty(b: seq<Block>, end: nat)
    requires Heap(b, end)
    ensures |b| > 0
  {
  }

  lemma FirstUse(b: seq<Block>, n: u32)
    requires |b| > 0 && Allocate(b, n).Some? && (b[0].free ==> |b| == 1)
    ensures !Allocate(b, n).value.0[0].free
  {
    RoundedUp(n);
  }

  // Freeing in decreasing address order undoes any run of allocations.
  lemma AllocationsAreUndone(cap: u32, ns: seq<u32>)
    requires AllocAll(Fresh(cap), ns).Some?
    ensures var b := AllocAll(Fresh(cap), ns).value; FreeDown(b, |b|) == Fresh(cap)
  {
    FirstStaysUsed(cap, ns);
    var b := AllocAll(Fresh(cap), ns).value;
    hide AllocAll;
    FreeDownRestoresIff(b, cap);
  }

  // ---- when allocations are served -------------------------------------------------------

  // Bytes a run of allocations takes from a fresh heap.
  function Taken(ns: seq<u32>): nat {
    if |ns| == 0 then 0 else Taken(ns[..|ns| - 1]) + HEADER + Rounded(ns[|ns| - 1])
  }

  // Blocks in use up to `taken`, with one free block behind them if there is `more`.
  predicate Filled(b: seq<Block>, taken: nat, end: nat, more: bool) {
    && |b| > 0 && (forall k :: 0 <= k < |b| - 1 ==> !b[k].free) && b[|b| - 1].free == more
    && taken % 2 == 0 && end % 2 == 0
    && (more ==> taken + HEADER <= end && b[|b| - 1] == Block(taken, end - taken - HEADER, true))
  }

  lemma AllocateFilled(b: seq<Block>, taken: nat, end: nat, more: bool, n: u32)
    requires Filled(b, taken, end, more)
    ensures Allocate(b, n).Some? <==> more && taken + HEADER + Rounded(n) <= end
    ensures Allocate(b, n).Some? ==>
              var t := taken + HEADER + Rounded(n);
              Allocate(b, n).value.1 == taken + HEADER && Filled(Allocate(b, n).value.0, t, end, t + 2 * HEADER + ALIGNMENT <= end)
  {
    RoundedUp(n);
    EvenMultiple(Rounded(n));
    hide Rounded;
    var i := FirstFit(b, Rounded(n), 0);
    if i < |b| {
      assert i == |b| - 1;
      FilledOn(b, taken, end, Rounded(n));
    } else {
      assert !Suits(b[|b| - 1], Rounded(n));
    }
  }

  lemma FilledOn(b: seq<Block>, taken: nat, end: nat, need: nat)
    requires Filled(b, taken, end, true) && need % 2 == 0 && taken + HEADER + need <= end
    ensures var t := taken + HEADER + need; Filled(Split(b, |b| - 1, need), t, end, t + 2 * HEADER + ALIGNMENT <= end)
  {
  }

  lemma {:induction false} AllocationsFill(cap: u32, ns: seq<u32>)
    ensures var x, end := AllocAll(Fresh(cap), ns), Arena(cap);
            x.Some? ==> Filled(x.value, Taken(ns), end, |ns| == 0 || Taken(ns) + 2 * HEADER + ALIGNMENT <= end)
    ensures |ns| > 0 ==>
              var x := AllocAll(Fresh(cap), ns[..|ns| - 1]);
              AllocAll(Fresh(cap), ns).Some? <==>
                x.Some? && Taken(ns) <= Arena(cap) && (|ns| == 1 || Taken(ns[..|ns| - 1]) + 2 * HEADER + ALIGNMENT <= Arena(cap))
    decreases |ns|
  {
    hide Allocate;
    hide Rounded;
    if |ns| > 0 {
      var front, n := ns[..|ns| - 1], ns[|ns| - 1];
      AllocationsFill(cap, front);
      var x := AllocAll(Fresh(cap), front);
      if x.Some? {
        AllocateFilled(x.value, Taken(front), Arena(cap), |front| == 0 || Taken(front) + 2 * HEADER + ALIGNMENT <= Arena(cap), n);
      }
    }
  }

  // A run of allocations from a fresh heap is served exactly when all of it fits
  // and what is left in front of the last one can be a block of its own.
  lemma {:induction false} AllocationsFitIff(cap: u32, ns: seq<u32>)
    ensures AllocAll(Fresh(cap), ns).Some? <==>
              |ns| == 0 || (Taken(ns) <= Arena(cap) && (|ns| > 1 ==> Taken(ns[..|ns| - 1]) + 2 * HEADER + ALIGNMENT <= Arena(cap)))
    decreases |ns|
  {
    AllocationsFill(cap, ns);
    hide Allocate;
    hide Rounded;
    if |ns| > 0 {
      AllocationsFitIff(cap, ns[..|ns| - 1]);
    }
  }

  // The payloads then lie one behind the other.
  lemma PayloadsAreConsecutive(cap: u32, ns: seq<u32>, n: u32)
    requires AllocAll(Fresh(cap), ns + [n]).Some?
    ensures AllocAll(Fresh(cap), ns).Some? && Allocate(AllocAll(Fresh(cap), ns).value, n).Some?
    ensures Allocate(AllocAll(Fresh(cap), ns).value, n).value.1 == Taken(ns) + HEADER
  {
    hide Allocate;
    hide Rounded;
    assert (ns + [n])[..|ns + [n]| - 1] == ns;
    AllocationsFill(cap, ns);
    AllocateFilled(AllocAll(Fresh(cap), ns).value, Taken(ns), Arena(cap), |ns| == 0 || Taken(ns) + 2 * HEADER + ALIGNMENT <= Arena(cap), n);
  }

  // No free block holds the bytes.
  predicate Full(b: seq<Block>, n: u32) {
    forall k :: 0 <= k < |b| && b[k].free ==> b[k].size < Rounded(n)
  }

  lemma AllocateFailsIff(b: seq<Block>, end: nat, n: u32)
    requires Heap(b, end)
    ensures Allocate(b, n).None? <==> Full(b, n)
  {
    hide *;
    RoundedUp(n);
    EvenMultiple(Rounded(n));
    HeapParts(b, end);
    NoneFits(b, n);
  }

  lemma NoneFits(b: seq<Block>, n: u32)
    requires Rounded(n) % 2 == 0 && forall k :: 0 <= k < |b| ==> b[k].size % 2 == 0
    ensures Allocate(b, n).None? <==> Full(b, n)
  {
    hide Rounded;
    hide Split;
    hide Suits;
    var i := FirstFit(b, Rounded(n), 0);
    forall k | 0 <= k < |b|
      ensures Suits(b[k], Rounded(n)) <==> b[k].free && b[k].size >= Rounded(n)
    {
      EvenSuits(b[k], Rounded(n));
    }
  }

  lemma EvenSuits(x: Block, need: nat)
    requires need % 2 == 0 && x.size % 2 == 0
    ensures Suits(x, need) <==> x.free && x.size >= need
  {
  }

  lemma MovedFails(m: seq<Block>, i: nat, n: u32)
    requires i < |m|
    ensures Moved(m, i, n).None? <==> Allocate(m, n).None?
  {
    hide Split;
    hide Rounded;
    hide Free;
    hide Divisible;
  }

  lemma FailsWhere(b: seq<Block>, i: nat, n: u32)
    requires i < |b|
    ensures var none := b[i].size < n && Room(b, i) < n && Moved(Merge(b, i), i, n).None?;
            (Reallocate(b, i, n).None? <==> none) && (ReallocateRepaired(b, i, n).None? <==> none)
  {
    hide Merge;
    hide Split;
    hide Moved;
    hide Rounded;
  }

  // Either reallocation fails exactly when the block cannot grow in place and
  // no free block, those behind it taken in, holds the bytes.
  lemma ReallocateFailsIff(b: seq<Block>, end: nat, i: nat, n: u32)
    requires Heap(b, end) && Increasing(b) && i < |b| && !b[i].free
    ensures Reallocate(b, i, n).None? <==> Room(b, i) < n && Full(Merge(b, i), n)
    ensures ReallocateRepaired(b, i, n).None? <==> Room(b, i) < n && Full(Merge(b, i), n)
  {
    hide *;
    GrowsInPlace(b, end, i, n);
    RoomMeans(b, i);
    FailsWhere(b, i, n);
    MovedFails(Merge(b, i), i, n);
    AllocateFailsIff(Merge(b, i), end, n);
  }

  // ---- GPAReallocate --------------------------------------------------------------------------

  // The blocks and the address returned for the payload of block `i`.  As
  // written, a block split in place is split at the size asked for, not rounded
  // up (line 160), and a block that moves is returned by its header (line 166).
  function Reallocate(b: seq<Block>, i: nat, n: u32): Option<(seq<Block>, nat)>
    requires i < |b|
  {
    var p := Ptr(b[i]);
    if n <= b[i].size then Some((b, p)) else
    var m := Merge(b, i);
    if m[i].size == n then Some((m, p))
    else if m[i].size > n then Some((Split(m[i := m[i].(free := true)], i, n), p))
    else match Moved(m, i, n)
      case Some(r) => Some((r.0, r.1.addr))
      case None => None
  }

  // The same with the size rounded and the payload returned.
  function ReallocateRepaired(b: seq<Block>, i: nat, n: u32): Option<(seq<Block>, nat)>
    requires i < |b|
  {
    var p := Ptr(b[i]);
    if n <= b[i].size then Some((b, p)) else
    var m := Merge(b, i);
    if m[i].size == n then Some((m, p))
    else if m[i].size > n then Some((Split(m[i := m[i].(free := true)], i, Rounded(n)), p))
    else match Moved(m, i, n)
      case Some(r) => Some((r.0, Ptr(r.1)))
      case None => None
  }

  // Block `i` freed after another is taken: the blocks, and the one taken.
  function Moved(m: seq<Block>, i: nat, n: u32): Option<(seq<Block>, Block)>
    requires i < |m|
  {
    var k := FirstFit(m, Rounded(n), 0);
    if k == |m| then None else
    var s := Split(m, k, Rounded(n));
    var j := if k < i && Divisible(m[k], Rounded(n)) then i + 1 else i;
    Some((Free(s, j), m[k]))
  }

  // What a reallocation of payload `p` promises: a heap, a payload of at least
  // `n` bytes at the address returned, and every other payload as it was.
  predicate Promised(b: seq<Block>, p: nat, n: u32, r: seq<Block>, q: nat, end: nat)
    requires Increasing(b)
  {
    && Heap(r, end) && Increasing(r) && q in InUse(r) && InUse(r)[q] >= n
    && InUse(r) == (InUse(b) - {p})[q := InUse(r)[q]]
  }

  // The size block `i` can grow to in place.
  function Room(b: seq<Block>, i: nat): nat
    requires i < |b|
  {
    Merge(b, i)[i].size
  }

  lemma GrowsInPlace(b: seq<Block>, end: nat, i: nat, need: nat)
    requires Heap(b, end) && Increasing(b) && i < |b| && !b[i].free
    ensures var m := Merge(b, i);
            var f := m[i := m[i].(free := true)];
            && Heap(m, end) && Increasing(m) && m[i].addr == b[i].addr && !m[i].free && m[i].size >= b[i].size
            && InUse(m) == InUse(b)[Ptr(b[i]) := m[i].size]
            && Heap(f, end) && Increasing(f) && InUse(f) == InUse(b) - {Ptr(b[i])}
  {
    hide *;
    var m := Merge(b, i);
    HeapParts(b, end);
    MergeIsHeap(b, end, i);
    MergeUses(b, end, i);
    UsedAt(b, i);
    FreedIsHeap(m, end, i);
    FreedUses(m, i);
    assert InUse(b)[Ptr(b[i]) := m[i].size] - {Ptr(b[i])} == InUse(b) - {Ptr(b[i])};
    SameAddr(b[i], m[i]);
  }

  // The block is split only where `need` bytes and a minimal block fit.
  lemma SplitsInPlace(f: seq<Block>, end: nat, i: nat, need: nat)
    requires Heap(f, end) && Increasing(f) && i < |f| && f[i].free
    ensures Divisible(f[i], need) && need % ALIGNMENT != 0 ==> !Heap(Split(f, i, need), end)
    ensures need % ALIGNMENT == 0 || !Divisible(f[i], need) ==>
              var r := Split(f, i, need);
              && Heap(r, end) && Increasing(r) && Ptr(f[i]) in InUse(r) && (Divisible(f[i], need) ==> InUse(r)[Ptr(f[i])] >= need)
              && (!Divisible(f[i], need) ==> InUse(r)[Ptr(f[i])] == f[i].size)
              && InUse(r) == InUse(f)[Ptr(f[i]) := InUse(r)[Ptr(f[i])]]
  {
    SplitIsAligned(f, i, need);
    HeapParts(f, end);
    var r := Split(f, i, need);
    if Divisible(f[i], need) {
      if need % ALIGNMENT == 0 {
        SplitIsSpaced(f, end, i, need);
        SplitIsTiling(f, end, i, need);
        SplitUses(f, end, i, need);
        hide Split;
        hide Heap;
        HeapOf(r, end);
        hide InUse;
        UsedAt(r, i);
      }
    } else {
      WholeTaken(f, end, i, need);
    }
  }

  lemma WholeTaken(f: seq<Block>, end: nat, i: nat, need: nat)
    requires Heap(f, end) && Increasing(f) && i < |f| && f[i].free && !Divisible(f[i], need)
    ensures var r := Split(f, i, need);
            Heap(r, end) && Increasing(r) && Ptr(f[i]) in InUse(r) && InUse(r)[Ptr(f[i])] == f[i].size
            && InUse(r) == InUse(f)[Ptr(f[i]) := InUse(r)[Ptr(f[i])]]
  {
    var r := Split(f, i, need);
    HeapParts(f, end);
    hide Heap;
    SplitIsSpaced(f, end, i, need);
    SplitIsTiling(f, end, i, need);
    SplitIsAligned(f, i, need);
    SplitUses(f, end, i, need);
    hide Split;
    HeapOf(r, end);
    hide InUse;
    UsedAt(r, i);
  }

  // A payload taken elsewhere and the old one freed.
  lemma MovedIsSafe(m: seq<Block>, end: nat, i: nat, n: u32)
    requires Heap(m, end) && Increasing(m) && i < |m| && !m[i].free && Moved(m, i, n).Some?
    ensures var (r, x) := Moved(m, i, n).value;
            var q := Ptr(x);
            && Heap(r, end) && Increasing(r) && q in InUse(r) && q != Ptr(m[i])
            && InUse(r) == (InUse(m) - {Ptr(m[i])})[q := InUse(r)[q]]
            && (n < TWO32 - ALIGNMENT ==> InUse(r)[q] > n)
  {
    hide *;
    MovedShape(m, end, i, n);
    var need := Rounded(n);
    var k := FirstFit(m, need, 0);
    var s := Split(m, k, need);
    var j := if k < i && Divisible(m[k], need) then i + 1 else i;
    TakenBlock(m, end, k, need);
    SameElsewhere(m, k, need, i);
    UsedAt(m, i);
    FreeIsSafe(s, end, j);
  }

  lemma MovedShape(m: seq<Block>, end: nat, i: nat, n: u32)
    requires Heap(m, end) && i < |m| && !m[i].free && Moved(m, i, n).Some?
    ensures var need := Rounded(n);
            var k := FirstFit(m, need, 0);
            var j := if k < i && Divisible(m[k], need) then i + 1 else i;
            && k < |m| && k != i && m[k].free && m[k].size >= need && j < |Split(m, k, need)|
            && Moved(m, i, n).value == (Free(Split(m, k, need), j), m[k])
            && need % ALIGNMENT == 0 && (n < TWO32 - ALIGNMENT ==> need > n)
  {
    hide *;
    RoundedUp(n);
    MovedMeans(m, i, n);
    var k := FirstFit(m, Rounded(n), 0);
    EvenAt(m, end, k);
    RoomFor(m[k], Rounded(n));
    SameElsewhere(m, k, Rounded(n), i);
  }

  lemma MovedMeans(m: seq<Block>, i: nat, n: u32)
    requires i < |m| && !m[i].free && Moved(m, i, n).Some?
    ensures var need := Rounded(n);
            var k := FirstFit(m, need, 0);
            var j := if k < i && Divisible(m[k], need) then i + 1 else i;
            && k < |m| && k != i && m[k].free && Suits(m[k], need) && j < |Split(m, k, need)|
            && Moved(m, i, n).value == (Free(Split(m, k, need), j), m[k])
  {
    var need := Rounded(n);
    var k := FirstFit(m, need, 0);
    if k < |m| { SameElsewhere(m, k, need, i); }
    hide Split;
    hide Free;
    hide Rounded;
    hide Divisible;
  }

  lemma EvenAt(f: seq<Block>, end: nat, i: nat)
    requires Heap(f, end) && i < |f|
    ensures f[i].size % 2 == 0
  {
  }

  lemma SameElsewhere(m: seq<Block>, k: nat, need: nat, i: nat)
    requires k < |m| && i < |m| && i != k && m[k].free
    ensures var j := if k < i && Divisible(m[k], need) then i + 1 else i;
            j < |Split(m, k, need)| && Split(m, k, need)[j] == m[i]
  {
  }

  lemma TakenBlock(m: seq<Block>, end: nat, k: nat, need: nat)
    requires Heap(m, end) && Increasing(m) && k < |m| && m[k].free && need % ALIGNMENT == 0
    ensures var r := Split(m, k, need);
            var q := Ptr(m[k]);
            && Heap(r, end) && Increasing(r) && q in InUse(r) && q !in InUse(m)
            && InUse(r) == InUse(m)[q := InUse(r)[q]]
            && InUse(r)[q] == if Divisible(m[k], need) then need else m[k].size
  {
    SplitsInPlace(m, end, k, need);
    HeapParts(m, end);
    SplitUses(m, end, k, need);
    hide Heap;
    hide InUse;
    hide Split;
    hide Increasing;
    UsedAt(Split(m, k, need), k);
  }

  // The size asked for is no larger than the block, or fits once the free blocks
  // behind it are taken in, and either nothing is split off or the size is a
  // multiple of 16.
  predicate FitsInPlace(b: seq<Block>, i: nat, n: u32)
    requires i < |b|
  {
    n <= b[i].size
    || (n <= Room(b, i) && (n % ALIGNMENT == 0 || Room(b, i) + 1 < n + HEADER + MIN_CAPACITY))
  }

  // As written, a reallocation keeps its promise exactly then.
  lemma ReallocateKeepsPromiseIff(b: seq<Block>, end: nat, i: nat, n: u32)
    requires Heap(b, end) && Increasing(b) && i < |b| && !b[i].free && n > 0 && Reallocate(b, i, n).Some?
    ensures var (r, q) := Reallocate(b, i, n).value;
            Promised(b, Ptr(b[i]), n, r, q, end) <==> FitsInPlace(b, i, n)
  {
    if b[i].size < n {
      if Room(b, i) < n {
        ReturnsHeader(b, end, i, n);
      } else {
        ResizesInPlace(b, end, i, n, n);
      }
    } else {
      UsedAt(b, i);
      hide InUse;
      assert InUse(b) == (InUse(b) - {Ptr(b[i])})[Ptr(b[i]) := InUse(b)[Ptr(b[i])]];
    }
  }

  // Otherwise the blocks tile nothing, or no payload of that size is returned.
  lemma ReallocateBreaks(b: seq<Block>, end: nat, i: nat, n: u32)
    requires Heap(b, end) && Increasing(b) && i < |b| && !b[i].free && n > 0 && Reallocate(b, i, n).Some?
    requires !FitsInPlace(b, i, n)
    ensures var (r, q) := Reallocate(b, i, n).value;
            !Heap(r, end) || (Increasing(r) && (q in InUse(r) ==> InUse(r)[q] < n))
  {
    if Room(b, i) < n {
      ReturnsHeader(b, end, i, n);
    } else {
      var m := Merge(b, i);
      var f := m[i := m[i].(free := true)];
      GrowsInPlace(b, end, i, n);
      RoomMeans(b, i);
      DivisibleMeans(f[i], n);
      SplitsInPlace(f, end, i, n);
      hide Merge;
      hide Split;
      hide Heap;
      hide InUse;
      hide Increasing;
      hide Divisible;
    }
  }

  lemma ResizesInPlace(b: seq<Block>, end: nat, i: nat, n: u32, need: nat)
    requires Heap(b, end) && Increasing(b) && i < |b| && !b[i].free && b[i].size < n <= Room(b, i) && n <= need
    ensures var m := Merge(b, i);
            var r := if m[i].size == n then m else Split(m[i := m[i].(free := true)], i, need);
            Promised(b, Ptr(b[i]), n, r, Ptr(b[i]), end) <==>
              m[i].size == n || need % ALIGNMENT == 0 || m[i].size + 1 < need + HEADER + MIN_CAPACITY
  {
    hide *;
    var p, m := Ptr(b[i]), Merge(b, i);
    var f := m[i := m[i].(free := true)];
    GrowsInPlace(b, end, i, need);
    UsedAt(m, i);
    RoomMeans(b, i);
    SameAddr(m[i], b[i]);
    SameAddr(m[i], f[i]);
    if m[i].size == n {
      assert InUse(m) == (InUse(b) - {p})[p := InUse(m)[p]];
      MakePromise(b, p, n, m, p, end);
    } else {
      var r := Split(f, i, need);
      SplitsInPlace(f, end, i, need);
      DivisibleMeans(f[i], need);
      if Heap(r, end) {
        MakePromise(b, p, n, r, p, end);
      } else {
        BrokenPromise(b, p, n, r, p, end);
      }
    }
  }

  lemma RoomMeans(b: seq<Block>, i: nat)
    requires i < |b|
    ensures Room(b, i) == Merge(b, i)[i].size
  {
    hide Merge;
  }

  lemma DivisibleMeans(x: Block, need: nat)
    requires x.free
    ensures Divisible(x, need) <==> x.size + 1 >= need + HEADER + MIN_CAPACITY
  {
  }

  lemma BrokenPromise(b: seq<Block>, p: nat, n: u32, r: seq<Block>, q: nat, end: nat)
    requires Increasing(b) && !Heap(r, end)
    ensures !Promised(b, p, n, r, q, end)
  {
    hide Heap;
    hide InUse;
    hide Increasing;
  }

  lemma ReallocateMeans(b: seq<Block>, i: nat, n: u32)
    requires i < |b| && n > b[i].size
    ensures var m := Merge(b, i);
            Reallocate(b, i, n) ==
              if m[i].size == n then Some((m, Ptr(b[i])))
              else if m[i].size > n then Some((Split(m[i := m[i].(free := true)], i, n), Ptr(b[i])))
              else match Moved(m, i, n) case Some(r) => Some((r.0, r.1.addr)) case None => None
  {
    hide Merge;
    hide Split;
    hide Moved;
  }

  lemma ReturnsHeader(b: seq<Block>, end: nat, i: nat, n: u32)
    requires Heap(b, end) && Increasing(b) && i < |b| && !b[i].free && n > 0
    requires n > b[i].size && Room(b, i) < n && Reallocate(b, i, n).Some?
    ensures var (r, q) := Reallocate(b, i, n).value; Heap(r, end) && Increasing(r) && (q in InUse(r) ==> InUse(r)[q] < n)
  {
    hide *;
    var m := Merge(b, i);
    GrowsInPlace(b, end, i, n);
    RoomMeans(b, i);
    ReallocateMeans(b, i, n);
    MovedIsSafe(m, end, i, n);
    var (r, x) := Moved(m, i, n).value;
    HeaderHoldsNothing(r, end, x);
  }

  lemma HeaderHoldsNothing(r: seq<Block>, end: nat, x: Block)
    requires Heap(r, end) && Increasing(r) && Ptr(x) in InUse(r)
    ensures x.addr in InUse(r) ==> InUse(r)[x.addr] == 0
  {
    HeapParts(r, end);
    hide Heap;
    hide InUse;
    hide Increasing;
    if x.addr in InUse(r) {
      PayloadsAreApart(r, end, x.addr, Ptr(x));
    }
  }

  // With both lines repaired it always does.
  lemma RepairedReallocateKeepsPromise(b: seq<Block>, end: nat, i: nat, n: u32)
    requires Heap(b, end) && Increasing(b) && i < |b| && !b[i].free && 0 < n < TWO32 - ALIGNMENT
    requires ReallocateRepaired(b, i, n).Some?
    ensures var (r, q) := ReallocateRepaired(b, i, n).value; Promised(b, Ptr(b[i]), n, r, q, end)
  {
    if b[i].size < n {
      if Room(b, i) < n {
        MovesSafely(b, end, i, n);
      } else {
        RoundedUp(n);
        ResizesInPlace(b, end, i, n, Rounded(n));
      }
    } else {
      UsedAt(b, i);
      hide InUse;
      assert InUse(b) == (InUse(b) - {Ptr(b[i])})[Ptr(b[i]) := InUse(b)[Ptr(b[i])]];
    }
  }

  lemma MovesSafely(b: seq<Block>, end: nat, i: nat, n: u32)
    requires Heap(b, end) && Increasing(b) && i < |b| && !b[i].free && n < TWO32 - ALIGNMENT
    requires Moved(Merge(b, i), i, n).Some?
    ensures var (r, x) := Moved(Merge(b, i), i, n).value; Promised(b, Ptr(b[i]), n, r, Ptr(x), end)
  {
    hide *;
    var m := Merge(b, i);
    GrowsInPlace(b, end, i, n);
    MovedIsSafe(m, end, i, n);
    SameAddr(b[i], m[i]);
    var (r, x) := Moved(m, i, n).value;
    assert InUse(m) - {Ptr(b[i])} == InUse(b) - {Ptr(b[i])};
    MakePromise(b, Ptr(b[i]), n, r, Ptr(x), end);
  }

  lemma MakePromise(b: seq<Block>, p: nat, n: u32, r: seq<Block>, q: nat, end: nat)
    requires Increasing(b) && Heap(r, end) && Increasing(r) && q in InUse(r) && InUse(r)[q] >= n
    requires InUse(r) == (InUse(b) - {p})[q := InUse(r)[q]]
    ensures Promised(b, p, n, r, q, end)
  {
  }

  // Growing a block to 17 bytes in place leaves a payload marked free.
  lemma ReallocateToOddSize()
    ensures var b := [Block(0, 16, false), Block(48, 208, true)];
            && Heap(b, 288) && Reallocate(b, 0, 17).Some?
            && Reallocate(b, 0, 17).value.0[0].free && Reallocate(b, 0, 17).value.1 == Ptr(b[0])
  {
    var b := [Block(0, 16, false), Block(48, 208, true)];
    assert TiledAt(b, 288, 0) && TiledAt(b, 288, 1);
    assert RunEnd(b, 1) == 2 by {
      assert RunEnd(b, 2) == 2;
    }
    assert Span(b, 1, 2) == 240;
    var m := Merge(b, 0);
    assert m == [Block(0, 256, false)];
  }
}
