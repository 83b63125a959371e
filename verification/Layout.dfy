// Offsets of variables, record fields and array elements.
// src/Compiler/VarList.c, src/Compiler/Compiler.c, src/Compiler/Expr.c,
// src/Compiler/Emitter.c, src/Include/Variable.h
module Layout {
  import opened Words
  import opened Arguments

  const GLOBAL_ALIGNMENT := 4

  datatype Type =
    | Scalar(size: nat)
    | Record(fields: seq<Type>)
    | Array(low: int, high: int, elem: Type)

  // ---- sizes -------------------------------------------------------------------------------

  // Type.Size; the fields of a record are packed.
  function SizeOf(t: Type): nat {
    match t
    case Scalar(size) => size
    case Record(fields) => FieldOffset(fields, |fields|)
    case Array(low, high, elem) => if high < low then 0 else (high - low + 1) * SizeOf(elem)
  }

  function FieldOffset(fields: seq<Type>, n: nat): nat
    requires n <= |fields|
    decreases fields, n
  {
    if n == 0 then 0 else FieldOffset(fields, n - 1) + SizeOf(fields[n - 1])
  }

  // ---- access paths -----------------------------------------------------------------------------

  datatype Access = Field(i: nat) | Element(k: int)

  predicate Selects(t: Type, a: Access) {
    match a
    case Field(i) => t.Record? && i < |t.fields|
    case Element(k) => t.Array? && t.low <= k <= t.high
  }

  function Selected(t: Type, a: Access): Type
    requires Selects(t, a)
  {
    match a
    case Field(i) => t.fields[i]
    case Element(k) => t.elem
  }

  // VariableAccess adds the member's offset; PVMEmitLoadArrayElement adds
  // `-Low*Size` to the location and `Index*Size` to the register.
  function Displacement(t: Type, a: Access): int
    requires Selects(t, a)
  {
    match a
    case Field(i) => FieldOffset(t.fields, i)
    case Element(k) => k * SizeOf(t.elem) - t.low * SizeOf(t.elem)
  }

  predicate Valid(t: Type, path: seq<Access>) {
    |path| == 0 || (Selects(t, path[0]) && Valid(Selected(t, path[0]), path[1..]))
  }

  function Offset(t: Type, path: seq<Access>): int
    requires Valid(t, path)
  {
    if |path| == 0 then 0 else Displacement(t, path[0]) + Offset(Selected(t, path[0]), path[1..])
  }

  function TypeAt(t: Type, path: seq<Access>): Type
    requires Valid(t, path)
  {
    if |path| == 0 then t else TypeAt(Selected(t, path[0]), path[1..])
  }

  lemma {:induction false} FieldOffsetsGrow(fields: seq<Type>, i: nat, j: nat)
    requires i <= j <= |fields|
    ensures FieldOffset(fields, i) <= FieldOffset(fields, j)
    decreases j
  {
    if i < j { FieldOffsetsGrow(fields, i, j - 1); }
  }

  lemma Scaled(k: int, low: int, high: int, s: nat)
    requires low <= k <= high
    ensures k * s - low * s == (k - low) * s
    ensures 0 <= (k - low) * s && (k - low) * s + s <= (high - low + 1) * s
  {
    var a, b := k - low, high - k;
    assert (a + b + 1) * s == a * s + b * s + s;
    assert a * s >= 0 && b * s >= 0;
  }

  lemma ScaledApart(k: int, l: int, low: int, s: nat)
    requires low <= k < l
    ensures (k - low) * s + s <= (l - low) * s
  {
    var a, b := k - low, l - k - 1;
    assert (a + b + 1) * s == a * s + b * s + s;
    assert b * s >= 0;
  }

  // What one access selects lies inside what it selects from.
  lemma SelectedInside(t: Type, a: Access)
    requires Selects(t, a)
    ensures 0 <= Displacement(t, a) && Displacement(t, a) + SizeOf(Selected(t, a)) <= SizeOf(t)
  {
    match a
    case Field(i) => FieldOffsetsGrow(t.fields, i + 1, |t.fields|);
    case Element(k) => Scaled(k, t.low, t.high, SizeOf(t.elem));
  }

  // Two different accesses select parts that do not overlap.
  lemma SelectedApart(t: Type, a: Access, b: Access)
    requires Selects(t, a) && Selects(t, b) && a != b
    ensures Displacement(t, a) + SizeOf(Selected(t, a)) <= Displacement(t, b)
            || Displacement(t, b) + SizeOf(Selected(t, b)) <= Displacement(t, a)
  {
    match a
    case Field(i) =>
      if i < b.i { FieldOffsetsGrow(t.fields, i + 1, b.i); } else { FieldOffsetsGrow(t.fields, b.i + 1, i); }
    case Element(k) =>
      var s := SizeOf(t.elem);
      Scaled(k, t.low, t.high, s);
      Scaled(b.k, t.low, t.high, s);
      if k < b.k { ScaledApart(k, b.k, t.low, s); } else { ScaledApart(b.k, k, t.low, s); }
  }

  // Every access path stays inside the variable.
  lemma {:induction false} PathInside(t: Type, path: seq<Access>)
    requires Valid(t, path)
    ensures 0 <= Offset(t, path) && Offset(t, path) + SizeOf(TypeAt(t, path)) <= SizeOf(t)
    decreases |path|
  {
    hide Displacement;
    hide SizeOf;
    if |path| > 0 {
      SelectedInside(t, path[0]);
      PathInside(Selected(t, path[0]), path[1..]);
    }
  }

  // Two access paths neither of which is a prefix of the other denote disjoint
  // bytes.
  lemma {:induction false} PathsApart(t: Type, p: seq<Access>, q: seq<Access>)
    requires Valid(t, p) && Valid(t, q) && !(p <= q) && !(q <= p)
    ensures Offset(t, p) + SizeOf(TypeAt(t, p)) <= Offset(t, q) || Offset(t, q) + SizeOf(TypeAt(t, q)) <= Offset(t, p)
    decreases |p|
  {
    hide Displacement;
    hide SizeOf;
    if p[0] == q[0] {
      assert p == [p[0]] + p[1..] && q == [q[0]] + q[1..];
      PathsApart(Selected(t, p[0]), p[1..], q[1..]);
    } else {
      SelectedApart(t, p[0], q[0]);
      PathInside(Selected(t, p[0]), p[1..]);
      PathInside(Selected(t, q[0]), q[1..]);
    }
  }

  // No byte is wasted: each belongs to exactly one part that can be selected,
  lemma ByteIsSelected(t: Type, b: nat) returns (a: Access)
    requires !t.Scalar? && b < SizeOf(t)
    ensures Selects(t, a) && Displacement(t, a) <= b < Displacement(t, a) + SizeOf(Selected(t, a))
  {
    match t
    case Record(fields) =>
      var i := FieldAt(fields, |fields|, b);
      a := Field(i);
    case Array(low, high, elem) =>
      var s := SizeOf(elem);
      if s == 0 { Nothing(high - low + 1); }
      var q := b / s;
      ElementAt(b, s, high - low + 1);
      a := Element(low + q);
      Scaled(low + q, low, high, s);
  }

  lemma Nothing(n: int)
    ensures n * 0 == 0
  {
  }

  lemma ElementAt(b: nat, s: nat, n: int)
    requires s > 0 && b < n * s
    ensures b / s < n && b / s * s <= b < b / s * s + s
  {
    var q := b / s;
    assert b == q * s + b % s;
    if q >= n { TimesGrows(n, q, s); }
  }

  lemma TimesGrows(n: int, q: int, s: nat)
    requires n <= q
    ensures n * s <= q * s
  {
    var k := q - n;
    assert (n + k) * s == n * s + k * s;
    assert k * s >= 0;
  }

  lemma {:induction false} FieldAt(fields: seq<Type>, n: nat, b: nat) returns (i: nat)
    requires n <= |fields| && b < FieldOffset(fields, n)
    ensures i < n && FieldOffset(fields, i) <= b < FieldOffset(fields, i) + SizeOf(fields[i])
    decreases n
  {
    hide SizeOf;
    if b >= FieldOffset(fields, n - 1) { i := n - 1; } else { i := FieldAt(fields, n - 1, b); }
  }

  // and so to a scalar at the end of some access path.
  lemma {:induction false} ByteHasPath(t: Type, b: nat) returns (path: seq<Access>)
    requires b < SizeOf(t)
    ensures Valid(t, path) && TypeAt(t, path).Scalar?
    ensures Offset(t, path) <= b < Offset(t, path) + SizeOf(TypeAt(t, path))
    decreases t
  {
    if t.Scalar? {
      path := [];
    } else {
      var a := ByteIsSelected(t, b);
      var d := Displacement(t, a);
      SelectedInside(t, a);
      hide SizeOf;
      hide Displacement;
      var rest := ByteHasPath(Selected(t, a), b - d);
      path := [a] + rest;
      assert path[1..] == rest;
    }
  }

  // The running location while an access path is compiled.
  method Locate(t: Type, path: seq<Access>, location: int) returns (at: int, ty: Type)
    requires Valid(t, path)
    ensures at == location + Offset(t, path) && ty == TypeAt(t, path)
  {
    at, ty := location, t;
    var i := 0;
    while i < |path|
      invariant 0 <= i <= |path| && Valid(ty, path[i..])
      invariant at + Offset(ty, path[i..]) == location + Offset(t, path)
      invariant TypeAt(ty, path[i..]) == TypeAt(t, path)
    {
      assert path[i..][1..] == path[i + 1..];
      at, ty := at + Displacement(ty, path[i]), Selected(ty, path[i]);
      i := i + 1;
    }
  }

  // ---- variables of one scope ----------------------------------------------------------------------

  // The address of variable `i` of those with the sizes given.
  function Address(sizes: seq<nat>, start: nat, alignment: nat, i: nat): nat
    requires i <= |sizes| && alignment > 0
  {
    if i == 0 then start else Address(sizes, start, alignment, i - 1) + RoundUp(sizes[i - 1], alignment)
  }

  // A declaration `a, b, c: type`.
  datatype Group = Group(count: nat, size: nat)

  function Copies(g: Group): (sizes: seq<nat>)
    ensures |sizes| == g.count
  {
    seq(g.count, _ => g.size)
  }

  function Sizes(gs: seq<Group>): seq<nat> {
    if |gs| == 0 then [] else Sizes(gs[..|gs| - 1]) + Copies(gs[|gs| - 1])
  }

  // The groups before the first that does not move the end address, at which the
  // compiler gives up.
  function Accepted(gs: seq<Group>): (n: nat)
    ensures n <= |gs|
    ensures forall k :: 0 <= k < n ==> gs[k].size > 0 && gs[k].count > 0
    ensures n < |gs| ==> gs[n].size == 0 || gs[n].count == 0
  {
    if |gs| == 0 then 0
    else var n := Accepted(gs[..|gs| - 1]);
      if n < |gs| - 1 || gs[n].size == 0 || gs[n].count == 0 then n else n + 1
  }

  lemma {:induction false} AddressesGrow(sizes: seq<nat>, start: nat, a: nat, i: nat, j: nat)
    requires i <= j <= |sizes| && a > 0
    ensures Address(sizes, start, a, i) <= Address(sizes, start, a, j)
    decreases j
  {
    hide RoundUp;
    if i < j { AddressesGrow(sizes, start, a, i, j - 1); }
  }

  lemma AddMultiples(x: nat, y: nat, a: nat)
    requires a > 0 && x % a == 0 && y % a == 0
    ensures (x + y) % a == 0
  {
    var p, q := x / a, y / a;
    assert x == p * a && y == q * a;
    assert x + y == (p + q) * a + 0;
    ModUnique(x + y, a, p + q, 0);
  }

  // Variables of one scope are disjoint, in order, inside the space given to
  // them, and aligned if its start is.
  lemma VariablesAreApart(sizes: seq<nat>, start: nat, a: nat, i: nat, j: nat)
    requires i < j < |sizes| && a > 0
    ensures start <= Address(sizes, start, a, i)
    ensures Address(sizes, start, a, i) + sizes[i] <= Address(sizes, start, a, j)
    ensures Address(sizes, start, a, j) + sizes[j] <= Address(sizes, start, a, |sizes|)
  {
    hide *;
    NextAddress(sizes, start, a, i);
    NextAddress(sizes, start, a, j);
    FirstAddress(sizes, start, a);
    AddressesGrow(sizes, start, a, 0, i);
    AddressesGrow(sizes, start, a, i + 1, j);
    AddressesGrow(sizes, start, a, j + 1, |sizes|);
  }

  lemma FirstAddress(sizes: seq<nat>, start: nat, a: nat)
    requires a > 0
    ensures Address(sizes, start, a, 0) == start
  {
  }

  lemma NextAddress(sizes: seq<nat>, start: nat, a: nat, i: nat)
    requires i < |sizes| && a > 0
    ensures Address(sizes, start, a, i) + sizes[i] <= Address(sizes, start, a, i + 1)
  {
    RoundUpIsLeast(sizes[i], a);
    hide RoundUp;
  }

  // and less than one unit of alignment is left between them.
  lemma VariablesAreClose(sizes: seq<nat>, start: nat, a: nat, i: nat)
    requires i < |sizes| && a > 0
    ensures Address(sizes, start, a, i) + sizes[i] <= Address(sizes, start, a, i + 1) < Address(sizes, start, a, i) + sizes[i] + a
  {
    RoundUpIsLeast(sizes[i], a);
    hide RoundUp;
  }

  lemma {:induction false} VariablesAreAligned(sizes: seq<nat>, start: nat, a: nat, i: nat)
    requires i <= |sizes| && a > 0 && start % a == 0
    ensures Address(sizes, start, a, i) % a == 0
    decreases i
  {
    if i > 0 {
      VariablesAreAligned(sizes, start, a, i - 1);
      RoundUpIsLeast(sizes[i - 1], a);
      AddMultiples(Address(sizes, start, a, i - 1), RoundUp(sizes[i - 1], a), a);
    }
  }

  // With alignment 1 the variables are packed, which is how a record's fields
  // get their offsets.
  lemma {:induction false} FieldsArePacked(fields: seq<Type>, sizes: seq<nat>, n: nat)
    requires |sizes| == |fields| && (forall k :: 0 <= k < |fields| ==> sizes[k] == SizeOf(fields[k])) && n <= |fields|
    ensures Address(sizes, 0, 1, n) == FieldOffset(fields, n)
    decreases n
  {
    if n > 0 { FieldsArePacked(fields, sizes, n - 1); }
  }

  lemma {:induction false} AddressAppend(s: seq<nat>, t: seq<nat>, start: nat, a: nat, i: nat)
    requires i <= |t| && a > 0
    ensures Address(s + t, start, a, |s| + i) == Address(t, Address(s, start, a, |s|), a, i)
    decreases i
  {
    hide RoundUp;
    if i == 0 {
      SameAddress(s + t, s, start, a, |s|);
    } else {
      AddressAppend(s, t, start, a, i - 1);
    }
  }

  lemma {:induction false} SameAddress(s: seq<nat>, t: seq<nat>, start: nat, a: nat, i: nat)
    requires i <= |s| && i <= |t| && a > 0 && forall k :: 0 <= k < i ==> s[k] == t[k]
    ensures Address(s, start, a, i) == Address(t, start, a, i)
    decreases i
  {
    hide RoundUp;
    if i > 0 { SameAddress(s, t, start, a, i - 1); }
  }

  function Addresses(sizes: seq<nat>, start: nat, a: nat): (r: seq<nat>)
    requires a > 0
    ensures |r| == |sizes|
  {
    seq(|sizes|, i requires 0 <= i < |sizes| => Address(sizes, start, a, i))
  }

  lemma AddressesAppend(s: seq<nat>, t: seq<nat>, start: nat, a: nat)
    requires a > 0
    ensures Addresses(s + t, start, a) == Addresses(s, start, a) + Addresses(t, Address(s, start, a, |s|), a)
    ensures Address(s + t, start, a, |s + t|) == Address(t, Address(s, start, a, |s|), a, |t|)
  {
    hide RoundUp;
    hide Address;
    var l, r := Addresses(s + t, start, a), Addresses(s, start, a) + Addresses(t, Address(s, start, a, |s|), a);
    forall k | 0 <= k < |l|
      ensures l[k] == r[k]
    {
      if k < |s| { SameAddress(s + t, s, start, a, k); } else { AddressAppend(s, t, start, a, k - |s|); }
    }
    AddressAppend(s, t, start, a, |t|);
  }

  // CompileVarList
  method CompileVarList(g: Group, startAddr: nat, alignment: nat) returns (addrs: seq<nat>, endAddr: nat)
    requires alignment > 0
    ensures addrs == Addresses(Copies(g), startAddr, alignment)
    ensures endAddr == Address(Copies(g), startAddr, alignment, g.count)
  {
    var alignedSize := AlignedSize(g.size, alignment);
    hide *;
    ghost var all := Addresses(Copies(g), startAddr, alignment);
    addrs, endAddr := [], startAddr;
    for i := 0 to g.count
      invariant addrs == all[..i]
      invariant endAddr == Address(Copies(g), startAddr, alignment, i)
    {
      addrs := addrs + [endAddr];
      endAddr := endAddr + alignedSize;
    }
    assert all[..g.count] == all;
  }

  // `Type.Size & ~Mask` tests, `(Type.Size + Alignment) & Mask` rounds.
  method AlignedSize(size: nat, alignment: nat) returns (r: nat)
    requires alignment > 0
    ensures r == RoundUp(size, alignment)
  {
    r := size;
    if size % alignment != 0 {
      r := (size + alignment) / alignment * alignment;
    }
  }

  // CompileVarBlock, and the fields of a record: one list after the other.
  method CompileVarBlock(gs: seq<Group>, baseAddr: nat, alignment: nat) returns (addrs: seq<nat>, totalSize: nat, ok: bool)
    requires alignment > 0
    ensures ok <==> Accepted(gs) == |gs|
    ensures var sizes := Sizes(gs[..Accepted(gs)]);
            && Addresses(sizes, baseAddr, alignment) <= addrs
            && baseAddr + totalSize == Address(sizes, baseAddr, alignment, |sizes|)
            && (ok ==> addrs == Addresses(sizes, baseAddr, alignment))
  {
    hide RoundUp;
    hide Address;
    addrs, totalSize := [], 0;
    NoVariables(baseAddr, alignment);
    for i := 0 to |gs|
      invariant Accepted(gs[..i]) == i
      invariant addrs == Addresses(Sizes(gs[..i]), baseAddr, alignment)
      invariant baseAddr + totalSize == Address(Sizes(gs[..i]), baseAddr, alignment, |Sizes(gs[..i])|)
    {
      var sizes := Sizes(gs[..i]);
      assert gs[..i + 1][..i] == gs[..i];
      AddressesAppend(sizes, Copies(gs[i]), baseAddr, alignment);
      Moves(gs[i], baseAddr + totalSize, alignment);
      var more, nextSize := CompileVarList(gs[i], baseAddr + totalSize, alignment);
      addrs := addrs + more;
      if nextSize == baseAddr + totalSize {
        StopsAt(gs, i);
        return addrs, totalSize, false;
      }
      totalSize := nextSize - baseAddr;
    }
    assert gs[..|gs|] == gs;
    ok := true;
  }

  lemma NoVariables(start: nat, a: nat)
    requires a > 0
    ensures Addresses([], start, a) == [] && Address([], start, a, 0) == start && Sizes([]) == []
  {
  }

  // A list moves the end address unless it is empty or of size 0.
  lemma Moves(g: Group, start: nat, a: nat)
    requires a > 0
    ensures Address(Copies(g), start, a, g.count) >= start
    ensures Address(Copies(g), start, a, g.count) == start <==> g.count == 0 || g.size == 0
  {
    RoundUpIsLeast(g.size, a);
    hide RoundUp;
    if g.size == 0 {
      Still(g, start, a, g.count);
    } else if g.count > 0 {
      AddressesGrow(Copies(g), start, a, 0, g.count - 1);
    }
  }

  lemma NothingRounded(a: nat)
    requires a > 0
    ensures RoundUp(0, a) == 0
  {
    ModUnique(0, a, 0, 0);
  }

  lemma {:induction false} Still(g: Group, start: nat, a: nat, i: nat)
    requires a > 0 && g.size == 0 && i <= g.count
    ensures Address(Copies(g), start, a, i) == start
    decreases i
  {
    NothingRounded(a);
    hide RoundUp;
    hide Address;
    if i == 0 {
    } else {
      Still(g, start, a, i - 1);
    }
  }

  lemma {:induction false} StopsAt(gs: seq<Group>, i: nat)
    requires i < |gs| && Accepted(gs[..i]) == i && (gs[i].size == 0 || gs[i].count == 0)
    ensures Accepted(gs) == i
    decreases |gs|
  {
    var front := gs[..|gs| - 1];
    if i < |gs| - 1 {
      assert front[..i] == gs[..i];
      StopsAt(front, i);
    }
  }
}
