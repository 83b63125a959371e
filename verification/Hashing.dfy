// Names, compared and hashed without regard to case, and slot masks.
// src/Vartab.c, src/Tokenizer.c, src/Include/Common.h
module Hashing {
  import opened Words

  // ---- folding and hashing ---------------------------------------------------------

  // CHR_TO_UPPER clears bit 5
  function Upper(c: u8): u8 { if c / 0x20 % 2 == 1 then c - 0x20 else c }

  function Fold(name: seq<u8>): (r: seq<u8>)
    ensures |r| == |name|
  {
    seq(|name|, i requires 0 <= i < |name| => Upper(name[i]))
  }

  // Bytes that differ in bit 5 at most, and names of such bytes.
  predicate SameByte(c: u8, d: u8) { c % 0x20 == d % 0x20 && c / 0x40 == d / 0x40 }

  predicate SameButCase(a: seq<u8>, b: seq<u8>) {
    |a| == |b| && forall i :: 0 <= i < |a| ==> SameByte(a[i], b[i])
  }

  // Folding identifies exactly these.
  lemma FoldIff(a: seq<u8>, b: seq<u8>)
    ensures Fold(a) == Fold(b) <==> SameButCase(a, b)
  {
    forall c: u8, d: u8
      ensures Upper(c) == Upper(d) <==> SameByte(c, d)
    {
      UpperIff(c, d);
    }
    if Fold(a) == Fold(b) {
      forall i | 0 <= i < |a|
        ensures SameByte(a[i], b[i])
      {
        assert Fold(a)[i] == Fold(b)[i];
      }
    }
  }

  lemma UpperIff(c: u8, d: u8)
    ensures Upper(c) == Upper(d) <==> SameByte(c, d)
  {
    assert c == 0x40 * (c / 0x40) + 0x20 * (c / 0x20 % 2) + c % 0x20;
    assert d == 0x40 * (d / 0x40) + 0x20 * (d / 0x20 % 2) + d % 0x20;
  }

  function Lower(c: u8): u8 { if 'A' as int <= c <= 'Z' as int then c + 0x20 else c }

  function LowerCase(name: seq<u8>): (r: seq<u8>)
    ensures |r| == |name|
  {
    seq(|name|, i requires 0 <= i < |name| => Lower(name[i]))
  }

  // A name and its lower-case spelling fold together.
  lemma LowerCaseFolds(name: seq<u8>)
    ensures Fold(LowerCase(name)) == Fold(name)
  {
    FoldIff(LowerCase(name), name);
  }

  predicate InIdentifier(c: u8) {
    'A' as int <= c <= 'Z' as int || 'a' as int <= c <= 'z' as int || '0' as int <= c <= '9' as int || c == '_' as int
  }

  // Identifiers fold together exactly when their lower-case spellings are the same.
  lemma IdentifiersFoldIff(a: seq<u8>, b: seq<u8>)
    requires (forall c :: c in a ==> InIdentifier(c)) && (forall c :: c in b ==> InIdentifier(c))
    ensures Fold(a) == Fold(b) <==> LowerCase(a) == LowerCase(b)
  {
    FoldIff(a, b);
    hide Fold;
    hide SameByte;
    hide Lower;
    hide InIdentifier;
    if |a| == |b| {
      forall i | 0 <= i < |a|
        ensures SameByte(a[i], b[i]) <==> LowerCase(a)[i] == LowerCase(b)[i]
      {
        assert a[i] in a && b[i] in b;
        IdentifierBytes(a[i], b[i]);
      }
    }
  }

  lemma IdentifierBytes(c: u8, d: u8)
    requires InIdentifier(c) && InIdentifier(d)
    ensures SameByte(c, d) <==> Lower(c) == Lower(d)
  {
    assert c == 0x40 * (c / 0x40) + 0x20 * (c / 0x20 % 2) + c % 0x20;
    assert d == 0x40 * (d / 0x40) + 0x20 * (d / 0x20 % 2) + d % 0x20;
  }

  const BASIS: u32 := 2166136261
  const PRIME: u32 := 16777619

  // The bits `x ^ y`.
  function Xor(x: nat, y: nat): nat
    decreases x + y
  {
    if x == 0 then y else if y == 0 then x else (x + y) % 2 + 2 * Xor(x / 2, y / 2)
  }

  function Mix(h: u32, c: u8): u32 { Low32(Xor(h, c) * PRIME) }

  function HashStr(name: seq<u8>): u32 {
    if |name| == 0 then BASIS else Mix(HashStr(name[..|name| - 1]), Upper(name[|name| - 1]))
  }

  // Names that differ only in case hash alike.
  lemma {:induction false} HashIgnoresCase(a: seq<u8>, b: seq<u8>)
    requires Fold(a) == Fold(b)
    ensures HashStr(a) == HashStr(b)
    decreases |a|
  {
    hide Mix;
    hide Upper;
    assert |a| == |b|;
    if |a| > 0 {
      var n := |a| - 1;
      assert Fold(a)[n] == Fold(b)[n];
      assert Fold(a[..n]) == Fold(a)[..n] && Fold(b[..n]) == Fold(b)[..n];
      HashIgnoresCase(a[..n], b[..n]);
    }
  }

  method HashOf(name: seq<u8>) returns (h: u32)
    ensures h == HashStr(name)
  {
    hide Mix;
    h := BASIS;
    for i := 0 to |name|
      invariant h == HashStr(name[..i])
    {
      assert name[..i + 1][..i] == name[..i];
      h := Mix(h, Upper(name[i]));
    }
    assert name[..|name|] == name;
  }

  // TokenEqualNoCase on two names of one length
  method EqualNoCase(a: seq<u8>, b: seq<u8>) returns (same: bool)
    requires |a| == |b|
    ensures same <==> Fold(a) == Fold(b)
    ensures same <==> SameButCase(a, b)
  {
    FoldIff(a, b);
    for i := 0 to |a|
      invariant forall k :: 0 <= k < i ==> Upper(a[k]) == Upper(b[k])
    {
      if Upper(a[i]) != Upper(b[i]) {
        assert Fold(a)[i] != Fold(b)[i];
        return false;
      }
    }
    assert Fold(a) == Fold(b);
    return true;
  }

  // ---- masks ----------------------------------------------------------------------------

  // The bits `x & y`.
  function And(x: nat, y: nat): nat
    decreases y
  {
    if y == 0 then 0 else (x % 2) * (y % 2) + 2 * And(x / 2, y / 2)
  }

  predicate IsPow2(n: nat) {
    n == 1 || (n > 0 && n % 2 == 0 && IsPow2(n / 2))
  }

  // `Hash & (Cap - 1)`
  function Home(hash: nat, cap: nat): (h: nat)
    requires cap > 0
    ensures h < cap
  {
    MaskBelow(hash, cap - 1);
    And(hash, cap - 1)
  }

  lemma {:induction false} MaskIsModulo(x: nat, cap: nat)
    requires IsPow2(cap)
    ensures Home(x, cap) == x % cap
    decreases cap
  {
    if cap > 1 {
      MaskIsModulo(x / 2, cap / 2);
      MaskStep(x, cap);
      HalfModulo(x, cap / 2);
      hide Home;
    }
  }

  lemma HalfModulo(x: nat, k: nat)
    requires k > 0
    ensures x % (2 * k) == 2 * (x / 2 % k) + x % 2
  {
    var h := x / 2;
    var q, r := h / k, h % k;
    assert h == q * k + r;
    DoubleProduct(q, k);
    ModUnique(x, 2 * k, q, 2 * r + x % 2);
  }

  lemma DoubleProduct(q: int, k: int)
    ensures q * (2 * k) == 2 * (q * k)
  {
  }

  lemma MaskStep(x: nat, cap: nat)
    requires cap > 0 && cap % 2 == 0
    ensures Home(x, cap) == x % 2 + 2 * Home(x / 2, cap / 2)
  {
    assert (cap - 1) / 2 == cap / 2 - 1 && (cap - 1) % 2 == 1;
  }

  lemma {:induction false} MaskBelow(x: nat, y: nat)
    ensures And(x, y) <= y
    decreases y
  {
    if y > 0 {
      MaskBelow(x / 2, y / 2);
      LowBits(x, y);
    }
  }

  lemma LowBits(x: nat, y: nat)
    ensures (x % 2) * (y % 2) <= y % 2 && y == 2 * (y / 2) + y % 2
  {
    if x % 2 == 0 {
    } else {
      assert x % 2 == 1;
    }
  }

  // Masking reaches every slot exactly when the capacity is a power of two;
  // the rounding VartabInit computes is never stored.
  lemma {:induction false} EverySlotIsReachable(cap: nat)
    requires cap > 0
    ensures IsPow2(cap) <==> (forall j: nat :: j < cap ==> Home(j, cap) == j)
    decreases cap
  {
    if cap == 1 {
    } else if cap % 2 == 1 {
      OddMask(cap);
    } else {
      hide Home;
      var k := cap / 2;
      EverySlotIsReachable(k);
      if IsPow2(cap) {
        forall j: nat | j < cap
          ensures Home(j, cap) == j
        {
          MaskStep(j, cap);
        }
      } else {
        var j: nat :| j < k && Home(j, k) != j;
        MaskStep(2 * j, cap);
      }
    }
  }

  lemma OddMask(cap: nat)
    requires cap > 1 && cap % 2 == 1
    ensures Home(1, cap) != 1 && !IsPow2(cap)
  {
    assert (cap - 1) % 2 == 0;
  }
}
