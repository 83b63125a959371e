// The general purpose heap as a list of blocks in address order.
// src/Memory.c
module Blocks {
  import opened Words

  // A block is its header's address, its payload size and its free tag.
  datatype Block = Block(addr: nat, size: nat, free: bool)

  const HEADER := 32
  const ALIGNMENT := 16
  const MIN_CAPACITY := HEADER + ALIGNMENT

  // `(ByteCount + PASCAL_MEM_ALIGNMENT) & ~(PASCAL_MEM_ALIGNMENT - 1)`, in a U32
  function Rounded(n: u32): u32 { Low32((n / ALIGNMENT + 1) * ALIGNMENT) }

  // The Size field: the payload size and the free tag in its lowest bit.
  function Tagged(x: Block): nat { x.size + if x.free then 1 else 0 }

  // The block a Size field denotes.
  function Untag(addr: nat, tagged: nat): Block { Block(addr, tagged - tagged % 2, tagged % 2 == 1) }

  // ---- what the operations do ------------------------------------------------------------

  predicate Suits(x: Block, need: nat) { Tagged(x) >= need && x.free }

  // The walk of GPAFindFreeNode
  function FirstFit(b: seq<Block>, need: nat, i: nat): (r: nat)
    requires i <= |b|
    ensures i <= r <= |b|
    ensures r < |b| ==> Suits(b[r], need)
    ensures forall k :: i <= k < r ==> !Suits(b[k], need)
    decreases |b| - i
  {
    if i == |b| || Suits(b[i], need) then i else FirstFit(b, need, i + 1)
  }

  predicate Divisible(x: Block, need: nat) { Tagged(x) >= need + HEADER + MIN_CAPACITY }

  function OtherAddr(x: Block, need: nat): nat { x.addr + HEADER + need }

  // GPASplitNode
  function Split(b: seq<Block>, i: nat, need: nat): (r: seq<Block>)
    requires i < |b|
    ensures |r| > 0
  {
    var x := b[i];
    if !Divisible(x, need) then b[i := x.(free := false)]
    else
      var leftover := x.size - need - HEADER;
      b[..i] + [Untag(x.addr, need), Untag(OtherAddr(x, need), leftover - leftover % 2 + 1)] + b[i + 1..]
  }

  // GPAAllocate: the blocks and the payload's address; None is "Out of memory".
  function Allocate(b: seq<Block>, n: u32): Option<(seq<Block>, nat)> {
    var i := FirstFit(b, Rounded(n), 0);
    if i == |b| then None else Some((Split(b, i, Rounded(n)), Ptr(b[i])))
  }

  // The first block at or behind `i` that is in use.
  function RunEnd(b: seq<Block>, i: nat): (r: nat)
    requires i <= |b|
    ensures i <= r <= |b|
    ensures forall k :: i <= k < r ==> b[k].free
    ensures r < |b| ==> !b[r].free
    decreases |b| - i
  {
    if i == |b| || !b[i].free then i else RunEnd(b, i + 1)
  }

  // Bytes of the blocks [i, j), headers included.
  function Span(b: seq<Block>, i: nat, j: nat): nat
    requires i <= j <= |b|
    decreases j - i
  {
    if i == j then 0 else Span(b, i, j - 1) + b[j - 1].size + HEADER
  }

  // GPACoalesceNode: only the blocks behind are looked at.
  function Merge(b: seq<Block>, i: nat): (r: seq<Block>)
    requires i < |b|
    ensures |r| > i
  {
    var j := RunEnd(b, i + 1);
    b[..i] + [b[i].(size := b[i].size + Span(b, i + 1, j))] + b[j..]
  }

  // GPADeallocateNode
  function Free(b: seq<Block>, i: nat): (r: seq<Block>)
    requires i < |b|
    ensures |r| > i
  {
    Merge(b[i := b[i].(free := true)], i)
  }

  // ---- tilings ---------------------------------------------------------------------------------

  function End(b: seq<Block>, i: nat, end: nat): nat
    requires i < |b|
  {
    if i + 1 < |b| then b[i + 1].addr else end
  }

  // The blocks cover [0, end) exactly.
  predicate Tiles(b: seq<Block>, end: nat) {
    && |b| > 0 && b[0].addr == 0
    && forall i :: 0 <= i < |b| ==> TiledAt(b, end, i)
  }

  predicate TiledAt(b: seq<Block>, end: nat, i: nat)
    requires i < |b|
  {
    b[i].addr + HEADER + b[i].size == End(b, i, end)
  }

  // Blocks in address order that do not overlap, with even sizes.
  predicate Spaced(b: seq<Block>, end: nat) {
    && |b| > 0 && b[0].addr == 0 && EvenSizes(b)
    && forall i :: 0 <= i < |b| ==> SpacedAt(b, end, i)
  }

  predicate SpacedAt(b: seq<Block>, end: nat, i: nat)
    requires i < |b|
  {
    b[i].addr + HEADER + b[i].size <= End(b, i, end)
  }

  predicate EvenSizes(b: seq<Block>) {
    forall i :: 0 <= i < |b| ==> b[i].size % 2 == 0
  }

  predicate Aligned(b: seq<Block>) {
    forall i :: 0 <= i < |b| ==> b[i].addr % ALIGNMENT == 0
  }

  predicate Heap(b: seq<Block>, end: nat) { Tiles(b, end) && Spaced(b, end) && Aligned(b) }

  lemma {:induction false} InOrder(b: seq<Block>, end: nat, i: nat, j: nat)
    requires Spaced(b, end) && i < j < |b|
    ensures b[i].addr + HEADER + b[i].size <= b[j].addr
    decreases j
  {
    if i + 1 < j {
      InOrder(b, end, i, j - 1);
      assert SpacedAt(b, end, j - 1);
    } else {
      assert SpacedAt(b, end, i);
    }
  }

  // No byte is lost: the sizes and headers of a tiling add up to the arena.
  lemma {:induction false} SpanIsDistance(b: seq<Block>, end: nat, i: nat, j: nat)
    requires Tiles(b, end) && i <= j <= |b|
    ensures Span(b, i, j) == (if j < |b| then b[j].addr else end) - if i < |b| then b[i].addr else end
    decreases j
  {
    if i < j {
      SpanIsDistance(b, end, i, j - 1);
      assert TiledAt(b, end, j - 1);
    }
  }

  // What the caller gets: the address of the payload.
  function Ptr(x: Block): nat { x.addr + HEADER }

  predicate Increasing(b: seq<Block>) {
    forall i, j :: 0 <= i < j < |b| ==> b[i].addr < b[j].addr
  }

  lemma SpacedIncreases(b: seq<Block>, end: nat)
    requires Spaced(b, end)
    ensures Increasing(b)
  {
    forall i, j | 0 <= i < j < |b|
      ensures b[i].addr < b[j].addr
    {
      InOrder(b, end, i, j);
    }
  }

  // The payloads in use: their addresses and sizes.
  function InUse(b: seq<Block>): map<nat, nat>
    requires Increasing(b)
  {
    map i | 0 <= i < |b| && !b[i].free :: Ptr(b[i]) := b[i].size
  }

  lemma UsedAt(b: seq<Block>, i: nat)
    requires Increasing(b) && i < |b| && !b[i].free
    ensures Ptr(b[i]) in InUse(b) && InUse(b)[Ptr(b[i])] == b[i].size
  {
  }

  lemma UsedBy(b: seq<Block>, p: nat) returns (i: nat)
    requires Increasing(b) && p in InUse(b)
    ensures i < |b| && !b[i].free && p == Ptr(b[i]) && InUse(b)[p] == b[i].size
  {
    i :| 0 <= i < |b| && !b[i].free && Ptr(b[i]) == p;
  }

  // Two payloads never share a byte, nor a header with a payload.
  lemma PayloadsAreApart(b: seq<Block>, end: nat, p: nat, q: nat)
    requires Spaced(b, end) && Increasing(b) && p in InUse(b) && q in InUse(b) && p < q
    ensures p + InUse(b)[p] + HEADER <= q && q + InUse(b)[q] <= end
  {
    var i := UsedBy(b, p);
    var j := UsedBy(b, q);
    hide InUse;
    InOrder(b, end, i, j);
    assert SpacedAt(b, end, j);
    if j + 1 < |b| {
      InOrder(b, end, j, |b| - 1);
      assert SpacedAt(b, end, |b| - 1);
    }
  }

  // ---- splitting -----------------------------------------------------------------------------------

  lemma SplitIsSpaced(b: seq<Block>, end: nat, i: nat, need: nat)
    requires Spaced(b, end) && i < |b| && b[i].free
    ensures Spaced(Split(b, i, need), end)
  {
    var r := Split(b, i, need);
    var x := b[i];
    if Divisible(x, need) {
      forall k | 0 <= k < |r|
        ensures r[k].size % 2 == 0 && SpacedAt(r, end, k)
      {
        if k < i {
          assert r[k] == b[k];
          assert SpacedAt(b, end, k);
        } else if k == i {
          assert r[k] == Untag(x.addr, need);
        } else if k == i + 1 {
          assert SpacedAt(b, end, i);
        } else {
          assert r[k] == b[k - 1];
          assert SpacedAt(b, end, k - 1);
        }
      }
    } else {
      assert forall k :: 0 <= k < |r| ==> r[k].addr == b[k].addr && r[k].size == b[k].size;
      forall k | 0 <= k < |r|
        ensures r[k].size % 2 == 0 && SpacedAt(r, end, k)
      {
        assert SpacedAt(b, end, k);
      }
    }
  }

  lemma SplitIsTiling(b: seq<Block>, end: nat, i: nat, need: nat)
    requires Heap(b, end) && i < |b| && b[i].free && (need % 2 == 0 || !Divisible(b[i], need))
    ensures Tiles(Split(b, i, need), end)
  {
    hide Aligned;
    var r := Split(b, i, need);
    var x := b[i];
    if Divisible(x, need) {
      assert b[i].size % 2 == 0;
      forall k | 0 <= k < |r|
        ensures TiledAt(r, end, k)
      {
        if k < i {
          assert r[k] == b[k];
          assert TiledAt(b, end, k);
        } else if k <= i + 1 {
          assert TiledAt(b, end, i);
        } else {
          assert r[k] == b[k - 1];
          assert TiledAt(b, end, k - 1);
        }
      }
    } else {
      forall k | 0 <= k < |r|
        ensures TiledAt(r, end, k)
      {
        assert TiledAt(b, end, k);
      }
    }
  }

  lemma SplitIsAligned(b: seq<Block>, i: nat, need: nat)
    requires Aligned(b) && i < |b| && b[i].free
    ensures Aligned(Split(b, i, need)) <==> !Divisible(b[i], need) || need % ALIGNMENT == 0
  {
    var r := Split(b, i, need);
    if Divisible(b[i], need) {
      assert r[i + 1].addr == b[i].addr + HEADER + need;
      forall k | 0 <= k < |r| && k != i + 1
        ensures r[k].addr % ALIGNMENT == 0
      {
        if k < i { assert r[k] == b[k]; }
        if k > i + 1 { assert r[k] == b[k - 1]; }
      }
    } else {
      assert forall k :: 0 <= k < |r| ==> r[k].addr == b[k].addr;
    }
  }

  // The block handed out is as large as asked for; no other payload changes.
  lemma SplitUses(b: seq<Block>, end: nat, i: nat, need: nat)
    requires Spaced(b, end) && Increasing(b) && i < |b| && b[i].free && (need % 2 == 0 || !Divisible(b[i], need))
    ensures Increasing(Split(b, i, need))
    ensures var r := Split(b, i, need);
            && |r| >= |b| && !r[i].free && r[i].addr == b[i].addr && Ptr(b[i]) !in InUse(b)
            && r[i].size == (if Divisible(b[i], need) then need else b[i].size)
            && InUse(r) == InUse(b)[Ptr(b[i]) := r[i].size]
  {
    hide *;
    SplitIsSpaced(b, end, i, need);
    SpacedIncreases(Split(b, i, need), end);
    NotUsed(b, i);
    SplitShape(b, i, need);
    SameUse(b, Split(b, i, need), i, if Divisible(b[i], need) then 1 else 0, Ptr(b[i]));
  }

  lemma NotUsed(b: seq<Block>, i: nat)
    requires Increasing(b) && i < |b| && b[i].free
    ensures Ptr(b[i]) !in InUse(b)
  {
    if Ptr(b[i]) in InUse(b) {
      var j := UsedBy(b, Ptr(b[i]));
      assert false;
    }
  }

  lemma SplitShape(b: seq<Block>, i: nat, need: nat)
    requires i < |b| && (need % 2 == 0 || !Divisible(b[i], need))
    ensures var r, wide := Split(b, i, need), if Divisible(b[i], need) then 1 else 0;
            && |r| == |b| + wide && !r[i].free && r[i].addr == b[i].addr
            && r[i].size == (if Divisible(b[i], need) then need else b[i].size)
            && (wide == 1 ==> r[i + 1].free)
            && (forall k :: 0 <= k < i ==> r[k] == b[k])
            && (forall k :: i < k < |b| ==> r[k + wide] == b[k])
  {
  }

  lemma SameUse(b: seq<Block>, r: seq<Block>, i: nat, wide: nat, p: nat)
    requires Increasing(b) && Increasing(r) && i < |b| && |r| == |b| + wide && wide <= 1 && p == Ptr(b[i])
    requires !r[i].free && r[i].addr == b[i].addr && (wide == 1 ==> r[i + 1].free)
    requires forall k :: 0 <= k < i ==> r[k] == b[k]
    requires forall k :: i < k < |b| ==> r[k + wide] == b[k]
    ensures InUse(r) == InUse(b)[p := r[i].size]
  {
    hide InUse;
    var m := InUse(b)[p := r[i].size];
    UsedAt(r, i);
    forall q | q in InUse(r)
      ensures q in m && m[q] == InUse(r)[q]
    {
      var k := UsedBy(r, q);
      if k < i {
        UsedAt(b, k);
      } else if k > i {
        assert r[k] == b[k - wide];
        UsedAt(b, k - wide);
      }
    }
    forall q | q in m
      ensures q in InUse(r)
    {
      if q != p {
        var k := UsedBy(b, q);
        if k < i {
          UsedAt(r, k);
        } else {
          UsedAt(r, k + wide);
        }
      }
    }
    assert InUse(r).Keys == m.Keys;
  }

  // ---- coalescing ------------------------------------------------------------------------------------

  lemma MergeIsSpaced(b: seq<Block>, end: nat, i: nat)
    requires Spaced(b, end) && i < |b|
    ensures Spaced(Merge(b, i), end)
  {
    var j := RunEnd(b, i + 1);
    var r := Merge(b, i);
    SpanBound(b, end, i + 1, j);
    forall k | 0 <= k < |r|
      ensures r[k].size % 2 == 0 && SpacedAt(r, end, k)
    {
      if k < i {
        assert SpacedAt(b, end, k);
      } else if k == i {
        assert SpacedAt(b, end, i);
      } else {
        assert r[k] == b[j + k - i - 1];
        assert SpacedAt(b, end, j + k - i - 1);
      }
    }
  }

  lemma {:induction false} SpanBound(b: seq<Block>, end: nat, i: nat, j: nat)
    requires Spaced(b, end) && 0 < i <= j <= |b|
    ensures Span(b, i, j) % 2 == 0
    ensures (if i < |b| then b[i].addr else end) + Span(b, i, j) <= if j < |b| then b[j].addr else end
    decreases j
  {
    if i < j {
      SpanBound(b, end, i, j - 1);
      assert SpacedAt(b, end, j - 1);
    }
  }

  lemma MergeIsHeap(b: seq<Block>, end: nat, i: nat)
    requires Heap(b, end) && i < |b|
    ensures Heap(Merge(b, i), end)
  {
    var j := RunEnd(b, i + 1);
    var r := Merge(b, i);
    MergeIsSpaced(b, end, i);
    SpanIsDistance(b, end, i + 1, j);
    hide Spaced;
    forall k | 0 <= k < |r|
      ensures r[k].addr % ALIGNMENT == 0 && TiledAt(r, end, k)
    {
      if k < i {
        assert TiledAt(b, end, k);
      } else if k == i {
        assert TiledAt(b, end, i);
      } else {
        assert r[k] == b[j + k - i - 1];
        assert TiledAt(b, end, j + k - i - 1);
      }
    }
  }

  // Coalescing takes no payload in use, and grows only the block itself.
  lemma MergeUses(b: seq<Block>, end: nat, i: nat)
    requires Spaced(b, end) && Increasing(b) && i < |b|
    ensures Increasing(Merge(b, i))
    ensures var r := Merge(b, i);
            && r[i].addr == b[i].addr && r[i].free == b[i].free && r[i].size >= b[i].size
            && InUse(r) == if b[i].free then InUse(b) else InUse(b)[Ptr(b[i]) := r[i].size]
  {
    hide *;
    MergeIsSpaced(b, end, i);
    SpacedIncreases(Merge(b, i), end);
    MergeShape(b, i);
    SameUseMerged(b, Merge(b, i), i, RunEnd(b, i + 1));
  }

  lemma MergeShape(b: seq<Block>, i: nat)
    requires i < |b|
    ensures var r, j := Merge(b, i), RunEnd(b, i + 1);
            && |r| == |b| - j + i + 1 && r[i].addr == b[i].addr && r[i].free == b[i].free && r[i].size >= b[i].size
            && (forall k :: 0 <= k < i ==> r[k] == b[k])
            && (forall k :: j <= k < |b| ==> r[k - j + i + 1] == b[k])
  {
  }

  lemma SameUseMerged(b: seq<Block>, r: seq<Block>, i: nat, j: nat)
    requires Increasing(b) && Increasing(r) && i < j <= |b| && |r| == |b| - j + i + 1
    requires r[i].addr == b[i].addr && r[i].free == b[i].free && forall k :: i < k < j ==> b[k].free
    requires forall k :: 0 <= k < i ==> r[k] == b[k]
    requires forall k :: j <= k < |b| ==> r[k - j + i + 1] == b[k]
    ensures InUse(r) == if b[i].free then InUse(b) else InUse(b)[Ptr(b[i]) := r[i].size]
  {
    hide InUse;
    var m := if b[i].free then InUse(b) else InUse(b)[Ptr(b[i]) := r[i].size];
    if !b[i].free { UsedAt(r, i); }
    forall q | q in InUse(r)
      ensures q in m && m[q] == InUse(r)[q]
    {
      var k := UsedBy(r, q);
      if k < i {
        UsedAt(b, k);
      } else if k > i {
        assert r[k] == b[j + k - i - 1];
        UsedAt(b, j + k - i - 1);
      }
    }
    forall q | q in m
      ensures q in InUse(r)
    {
      if b[i].free || q != Ptr(b[i]) {
        var k := UsedBy(b, q);
        UsedAt(r, if k < i then k else k - j + i + 1);
      }
    }
    assert InUse(r).Keys == m.Keys;
  }

  lemma FreedIncreases(b: seq<Block>, i: nat)
    requires Increasing(b) && i < |b|
    ensures Increasing(b[i := b[i].(free := true)])
  {
    var f := b[i := b[i].(free := true)];
    assert forall k :: 0 <= k < |b| ==> f[k].addr == b[k].addr;
  }

  lemma FreedUses(b: seq<Block>, i: nat)
    requires Increasing(b) && i < |b|
    ensures var f := b[i := b[i].(free := true)];
            Increasing(f) && InUse(f) == InUse(b) - {Ptr(b[i])}
  {
    hide *;
    var f := b[i := b[i].(free := true)];
    FreedIncreases(b, i);
    SameAddr(b[i], f[i]);
    var m := InUse(b) - {Ptr(b[i])};
    forall q | q in InUse(f)
      ensures q in m && m[q] == InUse(f)[q]
    {
      var k := UsedBy(f, q);
      UsedAt(b, k);
      OnePlace(b, k, i);
    }
    forall q | q in m
      ensures q in InUse(f)
    {
      var k := UsedBy(b, q);
      UsedAt(f, k);
    }
    assert InUse(f).Keys == m.Keys;
  }

  lemma SameAddr(x: Block, y: Block)
    ensures x.addr == y.addr ==> Ptr(x) == Ptr(y)
  {
  }

  lemma OnePlace(b: seq<Block>, k: nat, i: nat)
    requires Increasing(b) && k < |b| && i < |b| && k != i
    ensures Ptr(b[k]) != Ptr(b[i])
  {
  }

  // ---- allocating and freeing --------------------------------------------------------------------------

  // A fresh or reachable heap stays a tiling; the new payload is not in use yet,
  // holds what was asked for, and no other payload moves or changes size.
  lemma AllocateIsSafe(b: seq<Block>, end: nat, n: u32)
    requires Heap(b, end) && Increasing(b) && Allocate(b, n).Some?
    ensures var (r, p) := Allocate(b, n).value;
            && Heap(r, end) && Increasing(r)
            && p !in InUse(b) && p in InUse(r) && p % ALIGNMENT == 0
            && InUse(r) == InUse(b)[p := InUse(r)[p]]
            && (n < TWO32 - ALIGNMENT ==> InUse(r)[p] > n)
  {
    hide *;
    AllocateMeans(b, n);
    HeapParts(b, end);
    RoundedUp(n);
    var need := Rounded(n);
    var i := FirstFit(b, need, 0);
    var r := Split(b, i, need);
    RoomFor(b[i], need);
    SplitIsSpaced(b, end, i, need);
    SplitIsTiling(b, end, i, need);
    SplitIsAligned(b, i, need);
    SplitUses(b, end, i, need);
    HeapOf(r, end);
    UsedAt(r, i);
    SamePtr(r, b, i);
  }

  lemma AllocateMeans(b: seq<Block>, n: u32)
    requires Allocate(b, n).Some?
    ensures var i := FirstFit(b, Rounded(n), 0);
            && i < |b| && Suits(b[i], Rounded(n)) && b[i].free
            && Allocate(b, n).value == (Split(b, i, Rounded(n)), Ptr(b[i]))
  {
    hide Split;
    hide Rounded;
  }

  lemma RoomFor(x: Block, need: nat)
    requires Suits(x, need) && need % ALIGNMENT == 0
    ensures need % 2 == 0 && (x.size % 2 == 0 ==> x.size >= need)
  {
    hide Suits;
    EvenMultiple(need);
    SuitsMeans(x, need);
  }

  lemma SuitsMeans(x: Block, need: nat)
    requires Suits(x, need)
    ensures x.size + 1 >= need
  {
  }

  lemma EvenMultiple(n: nat)
    requires n % ALIGNMENT == 0
    ensures n % 2 == 0
  {
    var q := n / ALIGNMENT;
    ModUnique(n, 2, 8 * q, 0);
  }

  lemma SamePtr(r: seq<Block>, b: seq<Block>, i: nat)
    requires i < |r| && i < |b| && r[i].addr == b[i].addr && Aligned(r)
    ensures Ptr(r[i]) == Ptr(b[i]) && Ptr(r[i]) % ALIGNMENT == 0
  {
  }

  lemma RoundedUp(n: u32)
    ensures Rounded(n) % ALIGNMENT == 0 && (n < TWO32 - ALIGNMENT ==> n < Rounded(n) <= n + ALIGNMENT)
  {
  }

  lemma HeapParts(b: seq<Block>, end: nat)
    requires Heap(b, end)
    ensures Tiles(b, end) && Spaced(b, end) && Aligned(b) && forall i :: 0 <= i < |b| ==> b[i].size % 2 == 0
  {
  }

  lemma HeapOf(b: seq<Block>, end: nat)
    requires Tiles(b, end) && Spaced(b, end) && Aligned(b)
    ensures Heap(b, end)
  {
  }

  lemma FreeIsSafe(b: seq<Block>, end: nat, i: nat)
    requires Heap(b, end) && Increasing(b) && i < |b|
    ensures Heap(Free(b, i), end) && Increasing(Free(b, i))
    ensures InUse(Free(b, i)) == InUse(b) - {Ptr(b[i])}
  {
    var f := b[i := b[i].(free := true)];
    FreedIsHeap(b, end, i);
    FreedUses(b, i);
    HeapParts(f, end);
    hide Heap;
    hide InUse;
    MergeIsHeap(f, end, i);
    MergeUses(f, end, i);
  }

  lemma FreedIsHeap(b: seq<Block>, end: nat, i: nat)
    requires Heap(b, end) && i < |b|
    ensures Heap(b[i := b[i].(free := true)], end)
  {
    var f := b[i := b[i].(free := true)];
    forall k | 0 <= k < |f|
      ensures f[k].addr % ALIGNMENT == 0 && f[k].size % 2 == 0 && SpacedAt(f, end, k) && TiledAt(f, end, k)
    {
      assert TiledAt(b, end, k);
    }
  }
}
