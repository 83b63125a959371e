// The general purpose allocator: headers linked in address order.
// src/Memory.c
module Gpa {
  import opened Words
  import opened Blocks
  import opened HeapRuns

  // A header in memory; Size holds the free tag in its lowest bit.
  datatype Header = Header(prev: Option<nat>, next: Option<nat>, size: nat)

  function PrevOf(b: seq<Block>, i: nat): Option<nat>
    requires i < |b|
  {
    if i > 0 then Some(b[i - 1].addr) else None
  }

  function NextOf(b: seq<Block>, i: nat): Option<nat>
    requires i < |b|
  {
    if i + 1 < |b| then Some(b[i + 1].addr) else None
  }

  // The headers are the list of blocks: Next and Prev are mutual inverses.
  predicate LinkedAt(m: map<nat, Header>, b: seq<Block>, i: nat)
    requires i < |b|
  {
    b[i].addr in m && m[b[i].addr] == Header(PrevOf(b, i), NextOf(b, i), Tagged(b[i]))
  }

  predicate Linked(m: map<nat, Header>, b: seq<Block>) {
    forall i :: 0 <= i < |b| ==> LinkedAt(m, b, i)
  }

  class PascalGPA {
    // Memory at header addresses, counted from Mem.Head; headers coalesced away
    // stay behind in it.
    var Mem: map<nat, Header>
    ghost var Chain: seq<Block>
    const cap: u32

    ghost predicate Valid()
      reads this
    {
      Linked(Mem, Chain) && Spaced(Chain, Arena(cap)) && Increasing(Chain)
    }

    // GPAInit
    constructor (initialCap: u32)
      ensures Valid() && Chain == Fresh(initialCap) && cap == initialCap
    {
      cap := initialCap;
      Mem := map[0 := Header(None, None, initialCap - initialCap % 2 + 1)];
      Chain := Fresh(initialCap);
      new;
      FreshIsHeap(initialCap);
      assert LinkedAt(Mem, Chain, 0);
    }

    // The walk of GPAFindFreeNode: the first block free and large enough.
    method FindFreeNode(need: nat) returns (node: Option<nat>)
      requires Valid()
      ensures var i := FirstFit(Chain, need, 0);
              node == if i < |Chain| then Some(Chain[i].addr) else None
    {
      ghost var i, end := 0, Arena(cap);
      HeaderAt(Mem, Chain, end, 0);
      hide Spaced;
      hide Increasing;
      hide Linked;
      node := Some(0);
      while node.Some? && (Mem[node.value].size < need || Mem[node.value].size % 2 == 0)
        invariant 0 <= i <= |Chain| && node == (if i < |Chain| then Some(Chain[i].addr) else None)
        invariant node.Some? ==> node.value in Mem
        invariant FirstFit(Chain, need, 0) == FirstFit(Chain, need, i)
        decreases |Chain| - i
      {
        HeaderAt(Mem, Chain, end, i);
        node := Mem[node.value].next;
        i := i + 1;
        if i < |Chain| { HeaderAt(Mem, Chain, end, i); }
      }
      if node.Some? { HeaderAt(Mem, Chain, end, i); }
    }

    // GPASplitNode
    method SplitNode(node: nat, size: nat, ghost i: nat)
      requires Valid() && i < |Chain| && Chain[i].addr == node && Chain[i].free
      modifies this
      ensures Valid() && Chain == Split(old(Chain), i, size)
    {
      ghost var b, m, end := Chain, Mem, Arena(cap);
      HeaderAt(Mem, Chain, end, i);
      SplitIsSpaced(b, end, i, size);
      SpacedIncreases(Split(b, i, size), end);
      var header := Mem[node];
      Chain := Split(b, i, size);
      if header.size < size + HEADER + MIN_CAPACITY {
        Mem := Mem[node := header.(size := header.size - header.size % 2)];
        WholeLinked(m, Mem, b, i, size);
        return;
      }
      var leftover := header.size - header.size % 2 - size;
      var other, next := node + HEADER + size, header.next;
      NextAt(m, b, end, i);
      Mem := Mem[other := Header(None, next, OrTag(leftover - HEADER))];
      if next.Some? {
        Mem := Mem[next.value := Mem[next.value].(prev := Some(other))];
      }
      Mem := Mem[node := Mem[node].(size := size, next := Some(other))];
      Mem := Mem[other := Mem[other].(prev := Some(node))];
      SplitLinked(m, Mem, b, end, i, size);
    }

    // GPACoalesceNode
    method CoalesceNode(node: nat, ghost i: nat)
      requires Valid() && i < |Chain| && Chain[i].addr == node
      modifies this
      ensures Valid() && Chain == Merge(old(Chain), i)
    {
      ghost var b, m, end := Chain, Mem, Arena(cap);
      ghost var j := RunEnd(b, i + 1);
      HeaderAt(m, b, end, i);
      MergeIsSpaced(b, end, i);
      SpacedIncreases(Merge(b, i), end);
      var next := ConsumeFree(node, i);
      if j < |b| { BehindNode(m, b, end, i, j); }
      hide Spaced;
      hide Increasing;
      hide Linked;
      hide Merge;
      hide Arena;
      hide Span;
      hide RunEnd;
      hide Tagged;
      Mem := Mem[node := Mem[node].(next := next)];
      if next.Some? {
        Mem := Mem[next.value := Mem[next.value].(prev := Some(node))];
      }
      Chain := Merge(b, i);
      MergeLinked(m, Mem, b, end, i, j);
    }

    // Its loop: the free nodes behind are added to the size of this one.
    method ConsumeFree(node: nat, ghost i: nat) returns (next: Option<nat>)
      requires Valid() && i < |Chain| && Chain[i].addr == node
      modifies this`Mem
      ensures var j := RunEnd(Chain, i + 1);
              && next == (if j < |Chain| then Some(Chain[j].addr) else None)
              && Grown(old(Mem), Mem, node, Span(Chain, i + 1, j))
    {
      ghost var b, m, end := Chain, Mem, Arena(cap);
      HeaderAt(m, b, end, i);
      if i + 1 < |b| { BehindNode(m, b, end, i, i + 1); }
      hide Spaced;
      hide Increasing;
      hide Linked;
      hide Arena;
      hide Tagged;
      hide Span;
      hide RunEnd;
      next := Mem[node].next;
      ghost var j := i + 1;
      while next.Some? && Mem[next.value].size % 2 == 1
        invariant i < j <= |b| && next == (if j < |b| then Some(b[j].addr) else None)
        invariant Grown(m, Mem, node, Span(b, i + 1, j))
        invariant next.Some? ==> next.value in m && next.value != node
        invariant RunEnd(b, i + 1) == RunEnd(b, j)
        decreases |b| - j
      {
        BehindNode(m, b, end, i, j);
        var consumed := Mem[next.value];
        Mem := Mem[node := Mem[node].(size := Mem[node].size + (consumed.size - consumed.size % 2) + HEADER)];
        next := consumed.next;
        j := j + 1;
        if j < |b| { BehindNode(m, b, end, i, j); }
      }
      if j < |b| { BehindNode(m, b, end, i, j); }
    }

    // GPAAllocate; None where the source gives up with "Out of memory".
    method AllocateBytes(byteCount: u32) returns (p: Option<nat>)
      requires Valid()
      modifies this
      ensures Valid()
      ensures match Allocate(old(Chain), byteCount)
              case Some(r) => Chain == r.0 && p == Some(r.1)
              case None => Chain == old(Chain) && p == None
    {
      hide Spaced;
      hide Increasing;
      hide Linked;
      hide Split;
      var need := Rounded(byteCount);
      hide Rounded;
      var node := FindFreeNode(need);
      if node.None? {
        return None;
      }
      SplitNode(node.value, need, FirstFit(Chain, need, 0));
      p := Some(node.value + HEADER);
    }

    // GPADeallocateNode, CoalesceOnFree being set
    method DeallocateNode(node: nat, ghost i: nat)
      requires Valid() && i < |Chain| && Chain[i].addr == node
      modifies this
      ensures Valid() && Chain == Free(old(Chain), i)
    {
      SetFreeTag(node, i);
      CoalesceNode(node, i);
    }

    // SET_FREE_TAG
    method SetFreeTag(node: nat, ghost i: nat)
      requires Valid() && i < |Chain| && Chain[i].addr == node
      modifies this
      ensures Valid() && Chain == old(Chain)[i := old(Chain)[i].(free := true)]
    {
      ghost var b, m, end := Chain, Mem, Arena(cap);
      HeaderAt(Mem, Chain, end, i);
      Mem := Mem[node := Mem[node].(size := OrTag(Mem[node].size))];
      Chain := b[i := b[i].(free := true)];
      FreedLinked(m, Mem, b, end, i);
    }

    // GPADeallocate of an address that is NULL or a payload in use
    method Deallocate(p: Option<nat>)
      requires Valid()
      requires p.Some? ==> var i := BlockOf(Chain, p.value); i < |Chain| && !Chain[i].free
      modifies this
      ensures Valid()
      ensures Chain == if p.Some? then Free(old(Chain), BlockOf(old(Chain), p.value)) else old(Chain)
    {
      if p.Some? {
        DeallocateNode(p.value - HEADER, BlockOf(Chain, p.value));
      }
    }

    // GPAReallocate of NULL or a payload in use
    method ReallocateBytes(p: Option<nat>, newSize: u32) returns (q: Option<nat>)
      requires Valid() && newSize > 0
      requires p.Some? ==> var i := BlockOf(Chain, p.value); i < |Chain| && !Chain[i].free
      modifies this
      ensures Valid()
      ensures match if p.None? then Allocate(old(Chain), newSize) else Reallocate(old(Chain), BlockOf(old(Chain), p.value), newSize)
              case Some(r) => Chain == r.0 && q == Some(r.1)
              case None => q == None
    {
      if p.None? {
        q := AllocateBytes(newSize);
        return;
      }
      var node := p.value - HEADER;
      ghost var b, i, end := Chain, BlockOf(Chain, p.value), Arena(cap);
      HeaderAt(Mem, Chain, end, i);
      if newSize <= Mem[node].size {
        return p;
      }
      MergeKeepsUse(b, end, i);
      ReallocateMeans(b, i, newSize);
      CoalesceNode(node, i);
      HeaderAt(Mem, Chain, end, i);
      hide *;
      var size := Mem[node].size - Mem[node].size % 2;
      if size == newSize {
        return p;
      }
      if size > newSize {
        CutBack(node, newSize, i);
        return p;
      }
      q := MoveBytes(node, newSize, i);
    }

    // The block is cut to the size asked for, not rounded.
    method CutBack(node: nat, newSize: u32, ghost i: nat)
      requires Valid() && i < |Chain| && Chain[i].addr == node
      modifies this
      ensures Valid() && Chain == Split(old(Chain)[i := old(Chain)[i].(free := true)], i, newSize)
    {
      hide *;
      SetFreeTag(node, i);
      SplitNode(node, newSize, i);
    }

    // A block elsewhere is taken, and this one freed; what is returned is the
    // other's header.
    method MoveBytes(node: nat, newSize: u32, ghost i: nat) returns (q: Option<nat>)
      requires Valid() && i < |Chain| && Chain[i].addr == node && !Chain[i].free
      modifies this
      ensures Valid()
      ensures match Moved(old(Chain), i, newSize)
              case Some(r) => Chain == r.0 && q == Some(r.1.addr)
              case None => Chain == old(Chain) && q == None
    {
      ghost var m := Chain;
      var need := Rounded(newSize);
      hide *;
      q := FindFreeNode(need);
      MovedIs(m, i, newSize);
      if q.None? {
        return;
      }
      ghost var k := FirstFit(m, need, 0);
      SameElsewhere(m, k, need, i);
      SplitNode(q.value, need, k);
      DeallocateNode(node, if k < i && Divisible(m[k], need) then i + 1 else i);
    }
  }

  lemma MergeKeepsUse(b: seq<Block>, end: nat, i: nat)
    requires Spaced(b, end) && Increasing(b) && i < |b| && !b[i].free
    ensures var m := Merge(b, i); i < |m| && m[i].addr == b[i].addr && !m[i].free
  {
    hide Spaced;
    hide Increasing;
    hide Span;
  }

  lemma MovedIs(m: seq<Block>, i: nat, n: u32)
    requires i < |m| && !m[i].free
    ensures var need := Rounded(n);
            var k := FirstFit(m, need, 0);
            if k == |m| then Moved(m, i, n) == None
            else
              var j := if k < i && Divisible(m[k], need) then i + 1 else i;
              && k != i && m[k].free && j < |Split(m, k, need)|
              && Moved(m, i, n) == Some((Free(Split(m, k, need), j), m[k]))
  {
    var need := Rounded(n);
    var k := FirstFit(m, need, 0);
    if k < |m| { SameElsewhere(m, k, need, i); }
    hide Split;
    hide Free;
    hide Rounded;
    hide Divisible;
  }

  // `x | FREE_TAG`
  function OrTag(x: nat): nat { x - x % 2 + 1 }

  lemma HeaderAt(m: map<nat, Header>, b: seq<Block>, end: nat, i: nat)
    requires Linked(m, b) && Spaced(b, end) && (i < |b| || i == 0)
    ensures |b| > 0 && b[0].addr == 0
    ensures i < |b| && b[i].addr in m && b[i].size % 2 == 0
    ensures var h := m[b[i].addr];
            && h == Header(PrevOf(b, i), NextOf(b, i), Tagged(b[i]))
            && (h.size % 2 == 1 <==> b[i].free) && h.size - h.size % 2 == b[i].size
  {
    assert LinkedAt(m, b, i);
  }

  lemma NextAt(m: map<nat, Header>, b: seq<Block>, end: nat, i: nat)
    requires Linked(m, b) && Spaced(b, end) && i < |b|
    ensures NextOf(b, i).Some? ==> NextOf(b, i).value in m && NextOf(b, i).value >= b[i].addr + HEADER + b[i].size
  {
    if i + 1 < |b| {
      assert LinkedAt(m, b, i + 1);
      assert SpacedAt(b, end, i);
    }
  }

  // Only the size of `node` differs, by `more` bytes.
  predicate Grown(m: map<nat, Header>, m': map<nat, Header>, node: nat, more: nat) {
    && node in m && node in m' && m'[node] == m[node].(size := m[node].size + more)
    && forall a | a in m && a != node :: a in m' && m'[a] == m[a]
  }

  lemma BehindNode(m: map<nat, Header>, b: seq<Block>, end: nat, i: nat, j: nat)
    requires Linked(m, b) && Spaced(b, end) && Increasing(b) && i < j < |b|
    ensures b[j].addr in m && b[j].addr != b[i].addr
    ensures var h := m[b[j].addr];
            && h.next == (if j + 1 < |b| then Some(b[j + 1].addr) else None)
            && (h.size % 2 == 1 <==> b[j].free) && h.size - h.size % 2 == b[j].size
  {
    hide Spaced;
    HeaderAt(m, b, end, j);
  }

  lemma Apart(b: seq<Block>, i: nat, j: nat)
    requires Increasing(b) && i < j < |b|
    ensures b[i].addr != b[j].addr
  {
  }

  lemma WholeLinked(m: map<nat, Header>, m': map<nat, Header>, b: seq<Block>, i: nat, size: nat)
    requires Linked(m, b) && Increasing(b) && i < |b| && b[i].free && b[i].size % 2 == 0 && !Divisible(b[i], size)
    requires b[i].addr in m && m' == m[b[i].addr := m[b[i].addr].(size := b[i].size)]
    ensures Linked(m', Split(b, i, size))
  {
    var r := Split(b, i, size);
    forall k | 0 <= k < |r|
      ensures LinkedAt(m', r, k)
    {
      assert LinkedAt(m, b, k);
      if k < i { Apart(b, k, i); }
      if k > i { Apart(b, i, k); }
    }
  }

  // What the writes of GPASplitNode leave in memory.
  predicate SplitWritten(m: map<nat, Header>, m': map<nat, Header>, b: seq<Block>, i: nat, size: nat)
    requires i < |b|
  {
    var x, next := b[i], NextOf(b, i);
    var other := OtherAddr(x, size);
    && x.size >= size + HEADER
    && x.addr in m' && m'[x.addr] == Header(PrevOf(b, i), Some(other), size)
    && other in m' && m'[other] == Header(Some(x.addr), next, OrTag(x.size - size - HEADER))
    && (next.Some? ==> next.value in m && next.value in m' && m'[next.value] == m[next.value].(prev := Some(other)))
    && forall a | a in m && a != x.addr && a != other && Some(a) != next :: a in m' && m'[a] == m[a]
  }

  lemma SplitLinked(m: map<nat, Header>, m': map<nat, Header>, b: seq<Block>, end: nat, i: nat, size: nat)
    requires Linked(m, b) && Spaced(b, end) && i < |b| && b[i].free && Divisible(b[i], size) && SplitWritten(m, m', b, i, size)
    ensures Linked(m', Split(b, i, size))
  {
    var r, other := Split(b, i, size), OtherAddr(b[i], size);
    hide Spaced;
    forall k | 0 <= k < |r|
      ensures LinkedAt(m', r, k)
    {
      if k < i {
        assert LinkedAt(m, b, k);
        InOrder(b, end, k, i);
        if i + 1 < |b| { InOrder(b, end, k, i + 1); }
      } else if k > i + 1 {
        assert LinkedAt(m, b, k - 1);
        InOrder(b, end, i, k - 1);
        if k > i + 2 { InOrder(b, end, i + 1, k - 1); }
      }
    }
  }

  // What the writes of GPACoalesceNode leave in memory, `j` being where they stop.
  predicate MergeWritten(m: map<nat, Header>, m': map<nat, Header>, b: seq<Block>, i: nat, j: nat)
    requires i < j <= |b|
  {
    var x := b[i];
    var next := if j < |b| then Some(b[j].addr) else None;
    && x.addr in m' && m'[x.addr] == Header(PrevOf(b, i), next, Tagged(x) + Span(b, i + 1, j))
    && (next.Some? ==> next.value in m && next.value in m' && m'[next.value] == m[next.value].(prev := Some(x.addr)))
    && forall a | a in m && a != x.addr && Some(a) != next :: a in m' && m'[a] == m[a]
  }

  lemma MergeLinked(m: map<nat, Header>, m': map<nat, Header>, b: seq<Block>, end: nat, i: nat, j: nat)
    requires Linked(m, b) && Spaced(b, end) && i < j <= |b| && j == RunEnd(b, i + 1) && MergeWritten(m, m', b, i, j)
    ensures Linked(m', Merge(b, i))
  {
    var r := Merge(b, i);
    hide Spaced;
    hide RunEnd;
    forall k | 0 <= k < |r|
      ensures LinkedAt(m', r, k)
    {
      if k < i {
        assert LinkedAt(m, b, k);
        InOrder(b, end, k, i);
        if j < |b| { InOrder(b, end, k, j); }
      } else if k > i {
        var l := k - i - 1 + j;
        assert LinkedAt(m, b, l);
        InOrder(b, end, i, l);
        if l > j { InOrder(b, end, j, l); }
      }
    }
  }

  lemma FreedLinked(m: map<nat, Header>, m': map<nat, Header>, b: seq<Block>, end: nat, i: nat)
    requires Linked(m, b) && Spaced(b, end) && Increasing(b) && i < |b| && b[i].addr in m
    requires m' == m[b[i].addr := m[b[i].addr].(size := OrTag(m[b[i].addr].size))]
    ensures var f := b[i := b[i].(free := true)]; Linked(m', f) && Spaced(f, end) && Increasing(f)
  {
    var f := b[i := b[i].(free := true)];
    FreedIncreases(b, i);
    HeaderAt(m, b, end, i);
    forall k | 0 <= k < |f|
      ensures SpacedAt(f, end, k)
    {
      assert SpacedAt(b, end, k);
    }
    assert EvenSizes(f);
    hide Spaced;
    forall k | 0 <= k < |f|
      ensures LinkedAt(m', f, k)
    {
      assert LinkedAt(m, b, k);
      if k < i { Apart(b, k, i); }
      if k > i { Apart(b, i, k); }
    }
  }
}
