// Where a caller puts its arguments and where the callee looks for them.
// src/Compiler/Emitter.c, src/Compiler/VarList.c, src/Compiler/Compiler.c,
// src/Include/Common.h
module Arguments {
  import opened Words
  import opened Isa

  const ARGREG_COUNT := 4
  const ARGREG_F0 := 16
  const STACK_ALIGNMENT := 8
  const STACK_TOP := -1

  datatype Param = Param(size: nat, float: bool)

  // A register, or `size` bytes at an address.
  datatype Place = InRegister(id: nat) | OnStack(addr: int)

  // ---- rounding -------------------------------------------------------------------------

  // uRoundUpToMultipleOfPow2
  function RoundUp(n: nat, m: nat): nat
    requires m > 0
  {
    if n % m != 0 then (n + m) / m * m else n
  }

  // iRoundUpToMultipleOfPow2: for negative numbers, `n & ~Mask`
  function RoundUpSigned(n: int, m: nat): int
    requires m > 0
  {
    if n < 0 then (if n % m != 0 then n - n % m else n) else RoundUp(n, m)
  }

  lemma RoundUpIsLeast(n: nat, m: nat)
    requires m > 0
    ensures n <= RoundUp(n, m) < n + m && RoundUp(n, m) % m == 0
  {
    var q, r := n / m, n % m;
    assert n == q * m + r;
    if r != 0 {
      assert (n + m) / m == q + 1 by {
        DivUnique(n + m, m, q + 1, r);
      }
      assert (q + 1) * m == q * m + m;
      ModUnique((q + 1) * m, m, q + 1, 0);
    }
  }

  lemma DivUnique(x: int, m: int, k: int, r: int)
    requires m > 0 && 0 <= r < m && x == k * m + r
    ensures x / m == k
  {
    ModUnique(x, m, k, r);
    var d := x / m - k;
    assert x == x / m * m + x % m;
    assert d * m == 0;
    if d >= 1 { MulAtLeast(d, m); }
    if d <= -1 { MulAtLeast(-d, m); }
  }

  // What is deallocated is what was allocated.
  lemma RoundingMirrors(n: int, m: nat)
    requires m > 0
    ensures RoundUpSigned(-n, m) == -RoundUpSigned(n, m)
  {
    hide RoundUp;
    if n == 0 {
      assert RoundUpSigned(0, m) == 0 by { RoundUpIsLeast(0, m); }
    } else {
      hide RoundUpSigned;
      if n > 0 { Mirror(n, m); } else { Mirror(-n, m); }
    }
  }

  lemma Mirror(n: nat, m: nat)
    requires m > 0 && n > 0
    ensures RoundUpSigned(0 - n, m) == 0 - RoundUpSigned(n, m)
  {
    var q, r := n / m, n % m;
    assert n == q * m + r;
    if r == 0 {
      assert 0 - n == (0 - q) * m + 0;
      ModUnique(0 - n, m, 0 - q, 0);
    } else {
      assert 0 - n == (0 - q - 1) * m + (m - r);
      ModUnique(0 - n, m, 0 - q - 1, m - r);
      DivUnique(n + m, m, q + 1, r);
      assert (q + 1) * m == q * m + m;
    }
  }

  // ---- the two sides -------------------------------------------------------------------------

  // Bytes of the parameters on the stack among the first `n`, `hidden` registers
  // being taken by hidden parameters.
  function StackBytes(ps: seq<Param>, hidden: nat, n: nat): nat
    requires n <= |ps|
  {
    if n == 0 then 0
    else StackBytes(ps, hidden, n - 1) + if n - 1 + hidden < ARGREG_COUNT then 0 else ps[n - 1].size
  }

  function RegisterPlace(i: nat, float: bool): Place {
    InRegister(if float then i + ARGREG_F0 else i)
  }

  // PVMSetArg for parameter `i`, SP being the caller's after its allocation.
  function CallerPlace(ps: seq<Param>, hidden: nat, i: nat, sp: int): Place
    requires i < |ps|
  {
    if i + hidden < ARGREG_COUNT then RegisterPlace(i + hidden, ps[i].float)
    else OnStack(sp + STACK_ALIGNMENT - StackBytes(ps, hidden, i + 1))
  }

  // PVMCreateStackLocation
  function StackOffset(offset: int, stackSpace: nat): int {
    if offset == STACK_TOP then stackSpace else offset
  }

  // CompileLocalParameter for parameter `i`, FP being the callee's after ENTER.
  function CalleePlace(ps: seq<Param>, hidden: nat, i: nat, fp: int, stackSpace: nat): Place
    requires i < |ps|
  {
    if i + hidden < ARGREG_COUNT then RegisterPlace(i + hidden, ps[i].float)
    else OnStack(fp + StackOffset(0 - StackBytes(ps, hidden, i + 1), stackSpace))
  }

  // CompilePartialArgumentList: the running Base.
  method CallerPlaces(ps: seq<Param>, hidden: nat, sp: int) returns (places: seq<Place>)
    ensures |places| == |ps| && forall i :: 0 <= i < |ps| ==> places[i] == CallerPlace(ps, hidden, i, sp)
  {
    var base := STACK_ALIGNMENT;
    places := [];
    for i := 0 to |ps|
      invariant base == STACK_ALIGNMENT - StackBytes(ps, hidden, i)
      invariant |places| == i && forall k :: 0 <= k < i ==> places[k] == CallerPlace(ps, hidden, k, sp)
    {
      if i + hidden < ARGREG_COUNT {
        places := places + [RegisterPlace(i + hidden, ps[i].float)];
      } else {
        base := base - ps[i].size;
        places := places + [OnStack(sp + base)];
      }
    }
  }

  // The loop of CompileLocalParameter: the running ArgOffset.
  method CalleePlaces(ps: seq<Param>, hidden: nat, fp: int, stackSpace: nat) returns (places: seq<Place>)
    ensures |places| == |ps| && forall i :: 0 <= i < |ps| ==> places[i] == CalleePlace(ps, hidden, i, fp, stackSpace)
  {
    var argOffset := 0;
    places := [];
    for i := 0 to |ps|
      invariant argOffset == 0 - StackBytes(ps, hidden, i)
      invariant |places| == i && forall k :: 0 <= k < i ==> places[k] == CalleePlace(ps, hidden, k, fp, stackSpace)
    {
      if i + hidden < ARGREG_COUNT {
        places := places + [RegisterPlace(i + hidden, ps[i].float)];
      } else {
        argOffset := argOffset - ps[i].size;
        places := places + [OnStack(fp + StackOffset(argOffset, stackSpace))];
      }
    }
  }

  lemma {:induction false} StackBytesGrow(ps: seq<Param>, hidden: nat, i: nat, j: nat)
    requires i <= j <= |ps|
    ensures StackBytes(ps, hidden, i) <= StackBytes(ps, hidden, j)
    decreases j
  {
    if i < j { StackBytesGrow(ps, hidden, i, j - 1); }
  }

  // The callee looks where the caller wrote, except where the running offset is
  // -1, which PVMCreateStackLocation takes for STACK_TOP.
  lemma PlacesAgreeIff(ps: seq<Param>, hidden: nat, i: nat, sp: int, stackSpace: nat)
    requires i < |ps|
    ensures CallerPlace(ps, hidden, i, sp) == CalleePlace(ps, hidden, i, sp + STACK_ALIGNMENT, stackSpace)
            <==> i + hidden < ARGREG_COUNT || StackBytes(ps, hidden, i + 1) != 1
  {
  }

  // With no parameter of size 0, that is a first stack parameter of size 1.
  lemma AllPlacesAgreeIff(ps: seq<Param>, hidden: nat, sp: int, stackSpace: nat)
    requires hidden <= ARGREG_COUNT && forall k :: 0 <= k < |ps| ==> ps[k].size > 0
    ensures (forall i :: 0 <= i < |ps| ==>
               CallerPlace(ps, hidden, i, sp) == CalleePlace(ps, hidden, i, sp + STACK_ALIGNMENT, stackSpace))
            <==> |ps| + hidden <= ARGREG_COUNT || ps[ARGREG_COUNT - hidden].size != 1
  {
    var first := ARGREG_COUNT - hidden;
    NoStackBytes(ps, hidden, if first <= |ps| then first else |ps|);
    forall i | 0 <= i < |ps|
      ensures CallerPlace(ps, hidden, i, sp) == CalleePlace(ps, hidden, i, sp + STACK_ALIGNMENT, stackSpace)
              <==> i + hidden < ARGREG_COUNT || StackBytes(ps, hidden, i + 1) != 1
      ensures i > first ==> StackBytes(ps, hidden, i + 1) > 1
    {
      PlacesAgreeIff(ps, hidden, i, sp, stackSpace);
      if i > first { StackBytesGrow(ps, hidden, first + 1, i); }
    }
    if first < |ps| {
      assert StackBytes(ps, hidden, first + 1) == ps[first].size;
      PlacesAgreeIff(ps, hidden, first, sp, stackSpace);
    }
  }

  lemma {:induction false} NoStackBytes(ps: seq<Param>, hidden: nat, n: nat)
    requires n <= |ps| && n + hidden <= ARGREG_COUNT
    ensures StackBytes(ps, hidden, n) == 0
    decreases n
  {
    if n > 0 { NoStackBytes(ps, hidden, n - 1); }
  }

  // ---- the area allocated ------------------------------------------------------------------------

  // CalleeStackArgSize counts from the fifth parameter, hidden ones or not.
  function StackArgSize(ps: seq<Param>): nat { StackBytes(ps, 0, |ps|) }

  // PVMEmitStackAllocation
  function Allocated(ps: seq<Param>): nat { RoundUp(StackArgSize(ps), STACK_ALIGNMENT) }

  // The first registers of each file: integer argument `i` is in Ri and a float one
  // in Fi, counting hidden ones; GP, FP and SP are never among them.
  lemma RegisterArguments(ps: seq<Param>, hidden: nat, i: nat, sp: int)
    requires i < |ps|
    ensures CallerPlace(ps, hidden, i, sp).InRegister? <==> i + hidden < 4
    ensures i + hidden < 4 ==> CallerPlace(ps, hidden, i, sp) == InRegister(if ps[i].float then 16 + i + hidden else i + hidden)
    ensures CallerPlace(ps, hidden, i, sp) !in {InRegister(13), InRegister(14), InRegister(15)}
  {
  }

  predicate Disjoint(p: Place, n: nat, q: Place, m: nat) {
    match p
    case InRegister(r) => q != InRegister(r)
    case OnStack(a) => q.InRegister? || a + n <= q.addr || q.addr + m <= a
  }

  // No two arguments share a register or a byte; those on the stack lie downwards
  // in order.
  lemma ArgumentsAreApart(ps: seq<Param>, hidden: nat, i: nat, j: nat, sp: int)
    requires i < j < |ps|
    ensures Disjoint(CallerPlace(ps, hidden, i, sp), ps[i].size, CallerPlace(ps, hidden, j, sp), ps[j].size)
    ensures i + hidden >= ARGREG_COUNT ==>
              CallerPlace(ps, hidden, j, sp).OnStack? && CallerPlace(ps, hidden, i, sp).OnStack?
              && CallerPlace(ps, hidden, j, sp).addr + ps[j].size <= CallerPlace(ps, hidden, i, sp).addr
  {
    StackBytesGrow(ps, hidden, i + 1, j);
  }

  // ---- passing ---------------------------------------------------------------------------------

  // Registers by number, and bytes of the stack by address.
  datatype Passed = Passed(regs: map<nat, seq<u8>>, stack: map<int, u8>)

  function Put(w: Passed, p: Place, v: seq<u8>): Passed {
    match p
    case InRegister(r) => w.(regs := w.regs[r := v])
    case OnStack(a) => w.(stack := Store(w.stack, a, v))
  }

  function Store(m: map<int, u8>, a: int, v: seq<u8>): map<int, u8> {
    if |v| == 0 then m else Store(m, a, v[..|v| - 1])[a + |v| - 1 := v[|v| - 1]]
  }

  lemma {:induction false} StoreReads(m: map<int, u8>, a: int, v: seq<u8>)
    ensures forall b :: a <= b < a + |v| ==> b in Store(m, a, v) && Store(m, a, v)[b] == v[b - a]
    ensures forall b :: b in m ==> b in Store(m, a, v)
    ensures forall b :: b in m && !(a <= b < a + |v|) ==> Store(m, a, v)[b] == m[b]
    decreases |v|
  {
    if |v| > 0 { StoreReads(m, a, v[..|v| - 1]); }
  }

  predicate Holds(w: Passed, p: Place, v: seq<u8>) {
    match p
    case InRegister(r) => r in w.regs && w.regs[r] == v
    case OnStack(a) => forall b :: a <= b < a + |v| ==> b in w.stack && w.stack[b] == v[b - a]
  }

  // The caller passes the first `n` values, one after the other.
  function PassAll(w: Passed, ps: seq<Param>, vs: seq<seq<u8>>, hidden: nat, sp: int, n: nat): Passed
    requires n <= |ps| == |vs|
  {
    if n == 0 then w else Put(PassAll(w, ps, vs, hidden, sp, n - 1), CallerPlace(ps, hidden, n - 1, sp), vs[n - 1])
  }

  lemma PutApart(w: Passed, p: Place, v: seq<u8>, q: Place, u: seq<u8>)
    ensures Holds(Put(w, p, v), p, v)
    ensures Disjoint(q, |u|, p, |v|) && Holds(w, q, u) ==> Holds(Put(w, p, v), q, u)
  {
    if p.OnStack? {
      StoreReads(w.stack, p.addr, v);
      hide Store;
    }
  }

  lemma {:induction false} AllHeld(w: Passed, ps: seq<Param>, vs: seq<seq<u8>>, hidden: nat, sp: int, n: nat, i: nat)
    requires i < n <= |ps| == |vs| && forall k :: 0 <= k < |ps| ==> |vs[k]| == ps[k].size
    ensures Holds(PassAll(w, ps, vs, hidden, sp, n), CallerPlace(ps, hidden, i, sp), vs[i])
    decreases n
  {
    hide CallerPlace;
    hide Put;
    hide Holds;
    var last := CallerPlace(ps, hidden, n - 1, sp);
    PutApart(PassAll(w, ps, vs, hidden, sp, n - 1), last, vs[n - 1], CallerPlace(ps, hidden, i, sp), vs[i]);
    if i < n - 1 {
      AllHeld(w, ps, vs, hidden, sp, n - 1, i);
      ArgumentsAreApart(ps, hidden, i, n - 1, sp);
    }
  }

  // Once all are passed, the callee finds every value where it looks for it, unless
  // the first stack parameter has size 1.
  lemma ArgumentsArrive(w: Passed, ps: seq<Param>, vs: seq<seq<u8>>, hidden: nat, sp: int, stackSpace: nat, i: nat)
    requires i < |ps| == |vs| && (forall k :: 0 <= k < |ps| ==> |vs[k]| == ps[k].size > 0) && hidden <= ARGREG_COUNT
    requires |ps| + hidden <= ARGREG_COUNT || ps[ARGREG_COUNT - hidden].size != 1
    ensures Holds(PassAll(w, ps, vs, hidden, sp, |ps|), CalleePlace(ps, hidden, i, sp + STACK_ALIGNMENT, stackSpace), vs[i])
  {
    hide Holds;
    hide PassAll;
    AllHeld(w, ps, vs, hidden, sp, |ps|, i);
    AllPlacesAgreeIff(ps, hidden, sp, stackSpace);
  }

  predicate InsideAllocation(ps: seq<Param>, hidden: nat, i: nat, before: int)
    requires i < |ps|
  {
    match CallerPlace(ps, hidden, i, before + Allocated(ps))
    case OnStack(a) => before + STACK_ALIGNMENT <= a && a + ps[i].size <= before + Allocated(ps) + STACK_ALIGNMENT
    case InRegister(_) => true
  }

  // They all lie in the area allocated for them exactly when what is counted,
  // rounded up, covers what is passed; with no hidden parameter it does.
  lemma ArgumentsFitIff(ps: seq<Param>, hidden: nat, before: int)
    ensures (forall i :: 0 <= i < |ps| ==> InsideAllocation(ps, hidden, i, before))
            <==> StackBytes(ps, hidden, |ps|) <= Allocated(ps)
    ensures hidden == 0 ==> StackBytes(ps, hidden, |ps|) <= Allocated(ps)
  {
    RoundUpIsLeast(StackArgSize(ps), STACK_ALIGNMENT);
    hide RoundUp;
    forall i | 0 <= i < |ps|
      ensures InsideAllocation(ps, hidden, i, before) <==>
              i + hidden < ARGREG_COUNT || StackBytes(ps, hidden, i + 1) <= Allocated(ps)
    {
    }
    if StackBytes(ps, hidden, |ps|) <= Allocated(ps) {
      forall i | 0 <= i < |ps|
        ensures InsideAllocation(ps, hidden, i, before)
      {
        StackBytesGrow(ps, hidden, i + 1, |ps|);
      }
    } else {
      LastOnStack(ps, hidden, |ps|);
      assert !InsideAllocation(ps, hidden, |ps| - 1, before);
    }
    if hidden == 0 { assert StackBytes(ps, hidden, |ps|) == StackArgSize(ps); }
  }

  lemma LastOnStack(ps: seq<Param>, hidden: nat, n: nat)
    requires n <= |ps| && StackBytes(ps, hidden, n) > 0
    ensures n > 0 && n - 1 + hidden >= ARGREG_COUNT
  {
    if n > 0 && n - 1 + hidden < ARGREG_COUNT {
      NoStackBytes(ps, hidden, n);
    }
  }

  // A hidden parameter and four others: the fourth is outside what is allocated.
  lemma HiddenParameterOverflows(ps: seq<Param>, before: int)
    requires |ps| == ARGREG_COUNT && ps[3].size > 0
    ensures Allocated(ps) == 0 && !InsideAllocation(ps, 1, 3, before)
  {
    NoStackBytes(ps, 0, 4);
    NoStackBytes(ps, 1, 3);
    assert StackBytes(ps, 1, 4) == ps[3].size;
  }
}
