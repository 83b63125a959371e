// Rebuilding a table: what VartabResize leaves, and when it loses names.
// src/Vartab.c
module Rehash {
  import opened Words
  import opened Hashing
  import opened Probing

  // ---- counting slots -----------------------------------------------------------------

  function Tally(t: seq<Slot>, p: Slot -> bool): (n: nat)
    ensures n <= |t|
  {
    if |t| == 0 then 0 else Tally(t[..|t| - 1], p) + if p(t[|t| - 1]) then 1 else 0
  }

  lemma {:induction false} TallyUpdate(t: seq<Slot>, i: nat, s: Slot, p: Slot -> bool)
    requires i < |t|
    ensures Tally(t[i := s], p) + (if p(t[i]) then 1 else 0) == Tally(t, p) + if p(s) then 1 else 0
    decreases |t|
  {
    var n := |t| - 1;
    if i == n {
      assert t[i := s][..n] == t[..n];
    } else {
      assert t[i := s][..n] == t[..n][i := s];
      TallyUpdate(t[..n], i, s, p);
    }
  }

  lemma {:induction false} TallyAppend(a: seq<Slot>, b: seq<Slot>, p: Slot -> bool)
    ensures Tally(a + b, p) == Tally(a, p) + Tally(b, p)
    decreases |b|
  {
    if |b| == 0 {
      assert a + b == a;
    } else {
      assert (a + b)[..|a + b| - 1] == a + b[..|b| - 1];
      TallyAppend(a, b[..|b| - 1], p);
    }
  }

  lemma {:induction false} TallyExtremes(t: seq<Slot>, p: Slot -> bool)
    ensures Tally(t, p) == |t| <==> forall i :: 0 <= i < |t| ==> p(t[i])
    ensures Tally(t, p) == 0 <==> forall i :: 0 <= i < |t| ==> !p(t[i])
    decreases |t|
  {
    if |t| > 0 {
      var front := t[..|t| - 1];
      TallyExtremes(front, p);
      assert forall i :: 0 <= i < |front| ==> front[i] == t[i];
    }
  }

  lemma {:induction false} TallyWeaken(t: seq<Slot>, p: Slot -> bool, q: Slot -> bool)
    requires forall s :: p(s) ==> q(s)
    ensures Tally(t, p) <= Tally(t, q)
    decreases |t|
  {
    if |t| > 0 { TallyWeaken(t[..|t| - 1], p, q); }
  }

  function InUse(): Slot -> bool { s => !IsEmpty(s) }
  function IsLive(): Slot -> bool { s => Live(s) }

  lemma SomeEmpty(t: seq<Slot>)
    requires Tally(t, InUse()) < |t|
    ensures HasEmpty(t)
  {
    TallyExtremes(t, InUse());
  }

  // ---- rebuilding -------------------------------------------------------------------------

  predicate Named(t: seq<Slot>) {
    forall i :: 0 <= i < |t| && Live(t[i]) ==> !t[i].unset
  }

  predicate NoTombstones(t: seq<Slot>) {
    forall i :: 0 <= i < |t| && IsTombstoned(t[i]) ==> IsEmpty(t[i])
  }

  function Blank(n: nat): seq<Slot> { seq(n, _ => ZERO) }

  // One step of the loop of VartabResize: `cap` is what it probes with.
  function Copy(r: seq<Slot>, cap: nat, s: Slot): (r': seq<Slot>)
    requires 0 < cap <= |r|
    ensures |r'| == |r|
  {
    match Search(r, cap, s.name, s.hash, 0, None)
    case Some(i) => r[i := s]
    case None => r
  }

  function Spread(t: seq<Slot>, cap: nat, size: nat): (r: seq<Slot>)
    requires 0 < cap <= size
    ensures |r| == size
  {
    if |t| == 0 then Blank(size) else
    var r := Spread(t[..|t| - 1], cap, size);
    if Live(t[|t| - 1]) then Copy(r, cap, t[|t| - 1]) else r
  }

  lemma {:induction false} SpreadPrefix(t: seq<Slot>, cap: nat, size: nat)
    requires 0 < cap <= size
    ensures Spread(t, cap, size) == Spread(t, cap, cap) + Blank(size - cap)
    decreases |t|
  {
    hide Search;
    if |t| == 0 {
      assert Blank(size) == Blank(cap) + Blank(size - cap);
    } else {
      var front, s := t[..|t| - 1], t[|t| - 1];
      SpreadPrefix(front, cap, size);
      var r, low := Spread(front, cap, size), Spread(front, cap, cap);
      SearchPrefix(r, cap, s.name, s.hash, 0, None);
      assert r[..cap] == low;
    }
  }

  // What a rebuilt table is.
  predicate Rebuilt(t: seq<Slot>, r: seq<Slot>) {
    && Hashed(r) && NoDuplicates(r) && Reachable(r) && Named(r) && NoTombstones(r)
    && NoDuplicates(t) && Contents(r) == Contents(t)
    && Tally(r, InUse()) == Tally(t, IsLive())
  }

  lemma FrontDistinct(t: seq<Slot>)
    requires NoDuplicates(t) && |t| > 0
    ensures NoDuplicates(t[..|t| - 1])
    ensures var s := t[|t| - 1]; Live(s) ==> Fold(s.name) !in Contents(t[..|t| - 1])
  {
    hide Fold;
    var n := |t| - 1;
    var front, s := t[..n], t[n];
    assert NoDuplicates(front);
    if Live(s) && Fold(s.name) in Contents(front) {
      var j := KeySlot(front, Fold(s.name));
      assert false;
    }
  }

  lemma FrontContents(t: seq<Slot>)
    requires NoDuplicates(t) && |t| > 0 && NoDuplicates(t[..|t| - 1])
    requires var s := t[|t| - 1]; Live(s) ==> Fold(s.name) !in Contents(t[..|t| - 1])
    ensures var front, s := t[..|t| - 1], t[|t| - 1];
            Contents(t) == if Live(s) then Contents(front)[Fold(s.name) := Bound(s)] else Contents(front)
  {
    hide Fold;
    hide Contents;
    hide NoDuplicates;
    var n := |t| - 1;
    var front, s := t[..n], t[n];
    var m := if Live(s) then Contents(front)[Fold(s.name) := Bound(s)] else Contents(front);
    forall k | k in Contents(t)
      ensures k in m && m[k] == Contents(t)[k]
    {
      var j := KeySlot(t, k);
      if j < n { ContentsAt(front, j); } else { ContentsAt(t, n); }
    }
    forall k | k in m
      ensures k in Contents(t)
    {
      if k in Contents(front) {
        var j := KeySlot(front, k);
        ContentsAt(t, j);
      } else {
        ContentsAt(t, n);
      }
    }
    assert Contents(t).Keys == m.Keys;
  }

  lemma FrontOk(t: seq<Slot>)
    requires Hashed(t) && NoDuplicates(t) && Named(t) && |t| > 0
    ensures var front, s := t[..|t| - 1], t[|t| - 1];
            && Hashed(front) && NoDuplicates(front) && Named(front)
            && (Live(s) ==> Fold(s.name) !in Contents(front) && s == Slot(false, s.name, HashStr(s.name), s.info))
            && Contents(t) == if Live(s) then Contents(front)[Fold(s.name) := Bound(s)] else Contents(front)
  {
    hide HashStr;
    hide Contents;
    FrontDistinct(t);
    FrontContents(t);
    hide NoDuplicates;
  }

  lemma BlankIsRebuilt(n: nat)
    requires n > 0
    ensures Rebuilt([], Blank(n))
  {
    TallyExtremes(Blank(n), InUse());
    assert Contents(Blank(n)) == Contents([]);
  }

  lemma {:induction false} SpreadIsExact(t: seq<Slot>, cap: nat)
    requires cap > 0 && Hashed(t) && NoDuplicates(t) && Named(t) && Tally(t, IsLive()) < cap
    ensures Rebuilt(t, Spread(t, cap, cap))
    decreases |t|
  {
    hide *;
    if |t| == 0 {
      SpreadNothing(t, cap);
      BlankIsRebuilt(cap);
    } else {
      var front, s := t[..|t| - 1], t[|t| - 1];
      FrontOk(t);
      SpreadStep(t, cap);
      SpreadIsExact(front, cap);
      if Live(s) {
        CopyIsExact(t, Spread(front, cap, cap));
      } else {
        SkipIsExact(t, Spread(front, cap, cap));
      }
    }
  }

  lemma SpreadNothing(t: seq<Slot>, cap: nat)
    requires cap > 0 && |t| == 0
    ensures Spread(t, cap, cap) == Blank(cap) && t == []
  {
  }

  lemma SpreadStep(t: seq<Slot>, cap: nat)
    requires cap > 0 && |t| > 0
    ensures var front, s := t[..|t| - 1], t[|t| - 1];
            var r := Spread(front, cap, cap);
            && Spread(t, cap, cap) == (if Live(s) then Copy(r, cap, s) else r)
            && Tally(t, IsLive()) == Tally(front, IsLive()) + if Live(s) then 1 else 0
  {
    hide Copy;
  }

  lemma SkipIsExact(t: seq<Slot>, r: seq<Slot>)
    requires Hashed(t) && NoDuplicates(t) && Named(t) && |t| > 0 && Rebuilt(t[..|t| - 1], r) && !Live(t[|t| - 1])
    ensures Rebuilt(t, r)
  {
    FrontOk(t);
    hide Hashed;
    hide Reachable;
    hide Contents;
    hide Named;
    hide NoTombstones;
    hide NoDuplicates;
  }

  // A new name goes to an empty slot.
  lemma CopyWhere(r: seq<Slot>, s: Slot) returns (i: nat)
    requires |r| > 0 && Hashed(r) && NoDuplicates(r) && Reachable(r) && NoTombstones(r) && Tally(r, InUse()) < |r|
    requires Live(s) && s == Slot(false, s.name, HashStr(s.name), s.info) && Fold(s.name) !in Contents(r)
    ensures i < |r| && Copy(r, |r|, s) == r[i := s] == Put(r, s.name, s.info) && IsEmpty(r[i]) && HasEmpty(r)
  {
    SomeEmpty(r);
    i := PutWhere(r, s.name);
    hide Hashed;
    hide HashStr;
    hide Fold;
    hide Search;
    hide Reachable;
    if Live(r[i]) {
      ContentsAt(r, i);
      assert false;
    }
  }

  lemma StaysTidy(r: seq<Slot>, i: nat, s: Slot)
    requires Named(r) && NoTombstones(r) && i < |r| && Live(s) && !s.unset
    ensures Named(r[i := s]) && NoTombstones(r[i := s])
  {
  }

  lemma CopyIsExact(t: seq<Slot>, r: seq<Slot>)
    requires Hashed(t) && NoDuplicates(t) && Named(t) && |t| > 0 && Rebuilt(t[..|t| - 1], r) && Live(t[|t| - 1])
    requires Tally(t, IsLive()) <= |r|
    ensures Rebuilt(t, Copy(r, |r|, t[|t| - 1]))
  {
    hide Hashed;
    hide HashStr;
    hide Fold;
    hide Search;
    hide Copy;
    hide Put;
    hide Reachable;
    hide Contents;
    hide NoDuplicates;
    hide Named;
    hide NoTombstones;
    var s := t[|t| - 1];
    FrontOk(t);
    var i := CopyWhere(r, s);
    PutBinds(r, s.name, s.info);
    StaysTidy(r, i, s);
    TallyUpdate(r, i, s, InUse());
  }

  // Storing anything, in any table with an empty slot: the search ends, and one
  // more slot is in use at most.
  lemma PutKeepsShape(t: seq<Slot>, cap: nat, name: seq<u8>, hash: u32, s: Slot)
    requires 0 < cap <= |t| && HasEmpty(t[..cap]) && Hashed(t) && Named(t) && !s.unset && s.name == name && s.hash == hash
    requires Live(s) ==> hash == HashStr(name)
    ensures var r := Search(t, cap, name, hash, 0, None);
            && r.Some? && Hashed(t[r.value := s]) && Named(t[r.value := s])
            && Tally(t[r.value := s], InUse()) == Tally(t, InUse()) + if IsEmpty(t[r.value]) then 1 else 0
  {
    hide HashStr;
    hide Fold;
    hide Home;
    var z :| 0 <= z < cap && IsEmpty(t[..cap][z]);
    var h := Home(hash, cap);
    SearchOutcome(t, cap, name, hash, 0, None);
    assert Stops(t[Ix(h, cap, Dist(h, cap, z))], name, hash);
    var r := Search(t, cap, name, hash, 0, None);
    TallyUpdate(t, r.value, s, InUse());
  }

  // A rebuild never misses a free slot, whatever the table it starts from.
  lemma {:induction false} SpreadKeepsShape(t: seq<Slot>, cap: nat, size: nat)
    requires 0 < cap <= size && Hashed(t) && Named(t) && Tally(t, IsLive()) < cap
    ensures var r := Spread(t, cap, size);
            && Hashed(r) && Named(r) && Tally(r, InUse()) <= Tally(t, IsLive()) && HasEmpty(r[..cap])
    decreases |t|
  {
    hide Search;
    hide HashStr;
    if |t| == 0 {
      TallyExtremes(Blank(size), InUse());
      assert IsEmpty(Blank(size)[..cap][0]);
    } else {
      var front, s := t[..|t| - 1], t[|t| - 1];
      SpreadKeepsShape(front, cap, size);
      var r := Spread(front, cap, size);
      if Live(s) { PutKeepsShape(r, cap, s.name, s.hash, s); }
      FirstPart(Spread(t, cap, size), cap, InUse());
      SomeEmpty(Spread(t, cap, size)[..cap]);
    }
  }

  lemma FirstPart(t: seq<Slot>, cap: nat, p: Slot -> bool)
    requires cap <= |t|
    ensures Tally(t[..cap], p) <= Tally(t, p)
  {
    hide Tally;
    TallySplit(t, cap, p);
  }

  lemma TallySplit(t: seq<Slot>, j: nat, p: Slot -> bool)
    requires j <= |t|
    ensures Tally(t, p) == Tally(t[..j], p) + Tally(t[j..], p)
  {
    hide Tally;
    TallyAppend(t[..j], t[j..], p);
    assert t == t[..j] + t[j..];
  }

  // The rebuilt table holds the live slots, nothing else.
  lemma {:induction false} SpreadTally(t: seq<Slot>, cap: nat, p: Slot -> bool)
    requires cap > 0 && Hashed(t) && NoDuplicates(t) && Named(t) && Tally(t, IsLive()) < cap
    requires forall s :: p(s) ==> Live(s)
    ensures Tally(Spread(t, cap, cap), p) == Tally(t, p)
    decreases |t|
  {
    if |t| == 0 {
      TallyExtremes(Blank(cap), p);
    } else {
      var front, s := t[..|t| - 1], t[|t| - 1];
      FrontOk(t);
      SpreadStep(t, cap);
      SpreadTally(front, cap, p);
      if Live(s) {
        SpreadIsExact(front, cap);
        var r := Spread(front, cap, cap);
        var i := CopyWhere(r, s);
        TallyUpdate(r, i, s, p);
      }
    }
  }

  // ---- what probing with the old capacity does -----------------------------------------------

  function AboveHalf(cap: nat): Slot -> bool
    requires cap > 0
  {
    s => Live(s) && Home(s.hash, 2 * cap) >= cap
  }

  function HomeFrom(cap: nat, j: nat): Slot -> bool
    requires cap > 0
  {
    s => Live(s) && Home(s.hash, cap) >= j
  }

  // Every name's home under the doubled capacity is in the lower half, and the
  // names whose home is at or behind any slot fit between it and the end.
  predicate ResizeSafe(t: seq<Slot>, cap: nat)
    requires cap > 0
  {
    && (forall i :: 0 <= i < |t| && Live(t[i]) ==> Home(t[i].hash, 2 * cap) < cap)
    && (forall j :: 0 <= j <= cap ==> Tally(t, HomeFrom(cap, j)) <= cap - j)
  }

  predicate NoWrap(r: seq<Slot>) {
    forall i :: 0 <= i < |r| && Live(r[i]) ==> Home(r[i].hash, |r|) <= i
  }

  lemma ModDoubles(x: nat, c: nat)
    requires c > 0
    ensures x % (2 * c) == x % c + if x / c % 2 == 1 then c else 0
  {
    var q, m := x / c, x % c;
    assert x == q * c + m;
    SplitProduct(q, c);
    ModUnique(x, 2 * c, q / 2, (if q % 2 == 1 then c else 0) + m);
  }

  lemma SplitProduct(q: nat, c: nat)
    ensures q * c == q / 2 * (2 * c) + if q % 2 == 1 then c else 0
  {
    var k := q / 2;
    DoubleProduct(k, c);
    assert q == 2 * k || q == 2 * k + 1;
    if q % 2 == 1 {
      assert (2 * k + 1) * c == 2 * (k * c) + c;
    } else {
      assert 2 * k * c == 2 * (k * c);
    }
  }

  lemma HomeDoubles(hash: nat, cap: nat)
    requires cap > 0 && IsPow2(cap)
    ensures Home(hash, 2 * cap) == Home(hash, cap) || Home(hash, 2 * cap) == Home(hash, cap) + cap
  {
    DoubleIsPow2(cap);
    hide IsPow2;
    MaskIsModulo(hash, cap);
    MaskIsModulo(hash, 2 * cap);
    hide Home;
    ModDoubles(hash, cap);
    hide *;
  }

  lemma DoubleIsPow2(cap: nat)
    requires cap > 0 && IsPow2(cap)
    ensures IsPow2(2 * cap)
  {
    assert 2 * cap / 2 == cap;
  }

  // Names wrap around the end exactly when some suffix is too small for them.
  lemma WrapsIffCrowded(r: seq<Slot>)
    requires |r| > 0 && Reachable(r) && NoTombstones(r) && HasEmpty(r)
    ensures NoWrap(r) <==> forall j :: 0 <= j <= |r| ==> Tally(r, HomeFrom(|r|, j)) <= |r| - j
  {
    hide Home;
    if NoWrap(r) {
      forall j | 0 <= j <= |r|
        ensures Tally(r, HomeFrom(|r|, j)) <= |r| - j
      {
        SuffixHolds(r, j);
      }
    } else {
      var w :| 0 <= w < |r| && Live(r[w]) && Home(r[w].hash, |r|) > w;
      var j := CrowdedFrom(r, w);
    }
  }

  lemma SuffixHolds(r: seq<Slot>, j: nat)
    requires |r| > 0 && NoWrap(r) && j <= |r|
    ensures Tally(r, HomeFrom(|r|, j)) <= |r| - j
  {
    FewFromHere(r, j);
    hide *;
    TallySplit(r, j, HomeFrom(|r|, j));
  }

  lemma FewFromHere(r: seq<Slot>, j: nat)
    requires |r| > 0 && NoWrap(r) && j <= |r|
    ensures Tally(r[..j], HomeFrom(|r|, j)) == 0
  {
    hide Home;
    hide Tally;
    var p := HomeFrom(|r|, j);
    forall i | 0 <= i < j
      ensures !p(r[..j][i])
    {
      assert r[..j][i] == r[i];
    }
    TallyExtremes(r[..j], p);
  }

  // The start of the run of used slots at the end of the table.
  lemma {:induction false} RunStart(r: seq<Slot>, k: nat) returns (j: nat)
    requires k <= |r| && (forall i :: k <= i < |r| ==> !IsEmpty(r[i])) && HasEmpty(r)
    ensures 0 < j <= k && IsEmpty(r[j - 1]) && forall i :: j <= i < |r| ==> !IsEmpty(r[i])
    decreases k
  {
    if k > 0 && IsEmpty(r[k - 1]) {
      j := k;
    } else {
      j := RunStart(r, k - 1);
    }
  }

  lemma CrowdedFrom(r: seq<Slot>, w: nat) returns (j: nat)
    requires |r| > 0 && Reachable(r) && NoTombstones(r) && HasEmpty(r)
    requires w < |r| && Live(r[w]) && Home(r[w].hash, |r|) > w
    ensures 0 <= j <= |r| && Tally(r, HomeFrom(|r|, j)) > |r| - j
  {
    hide Home;
    j := RunStart(r, |r|);
    var p := HomeFrom(|r|, j);
    forall i | j <= i < |r|
      ensures p(r[i])
    {
      BehindEmpty(r, i, j);
    }
    WrapsOver(r, w, j);
    TallyAppend(r[..j], r[j..], p);
    assert r == r[..j] + r[j..];
    TallyExtremes(r[j..], p);
    TallyExtremes(r[..j], p);
    assert r[..j][w] == r[w];
  }

  // No empty slot is nearer to a name's home than the name.
  lemma EmptyIsFurther(r: seq<Slot>, i: nat, k: nat)
    requires i < |r| && k < |r| && ReachableAt(r, i) && IsEmpty(r[k])
    ensures var h := Home(r[i].hash, |r|); Dist(h, |r|, k) >= Dist(h, |r|, i)
  {
    hide Home;
    var h := Home(r[i].hash, |r|);
    assert Ix(h, |r|, Dist(h, |r|, k)) == k;
  }

  // A slot behind an empty one holds a name whose home is behind it too.
  lemma BehindEmpty(r: seq<Slot>, i: nat, j: nat)
    requires |r| > 0 && Reachable(r) && NoTombstones(r)
    requires 0 < j <= i < |r| && IsEmpty(r[j - 1]) && !IsEmpty(r[i])
    ensures HomeFrom(|r|, j)(r[i])
  {
    hide Home;
    assert ReachableAt(r, i);
    EmptyIsFurther(r, i, j - 1);
  }

  // A name that wrapped lies before the last empty slot, its home behind it.
  lemma WrapsOver(r: seq<Slot>, w: nat, j: nat)
    requires |r| > 0 && Reachable(r)
    requires w < |r| && Live(r[w]) && Home(r[w].hash, |r|) > w
    requires 0 < j <= |r| && IsEmpty(r[j - 1])
    ensures w < j && HomeFrom(|r|, j)(r[w])
  {
    hide Home;
    assert ReachableAt(r, w);
    EmptyIsFurther(r, w, j - 1);
  }

  // A name in the lower half of the doubled table is reachable exactly when
  // neither its home moved up nor its place wrapped.
  lemma ReachableInLowerHalf(r: seq<Slot>, i: nat)
    requires |r| > 0 && IsPow2(|r|) && i < |r| && Live(r[i]) && ReachableAt(r, i)
    ensures ReachableAt(r + Blank(|r|), i) <==> Home(r[i].hash, 2 * |r|) < |r| && Home(r[i].hash, |r|) <= i
  {
    var cap := |r|;
    var t := r + Blank(cap);
    HomeDoubles(r[i].hash, cap);
    hide Home;
    var h, h2 := Home(r[i].hash, cap), Home(r[i].hash, 2 * cap);
    var n := Dist(h2, 2 * cap, i);
    if h2 >= cap {
      assert IsEmpty(t[Ix(h2, 2 * cap, 0)]);
    } else if h <= i {
      forall d: nat | d < n
        ensures !IsEmpty(t[Ix(h2, 2 * cap, d)])
      {
        assert Ix(h, cap, d) == Ix(h2, 2 * cap, d);
      }
    } else {
      assert IsEmpty(t[Ix(h2, 2 * cap, cap - h2)]);
    }
  }

  lemma BlankBehind(r: seq<Slot>, n: nat)
    requires Hashed(r) && Named(r)
    ensures var t := r + Blank(n);
            Hashed(t) && Named(t) && Tally(t, InUse()) == Tally(r, InUse()) && (n > 0 ==> HasEmpty(t))
            && (NoDuplicates(r) ==> NoDuplicates(t))
  {
    hide HashStr;
    hide Fold;
    var t := r + Blank(n);
    if n > 0 { assert IsEmpty(t[|r|]); }
    TallyExtremes(Blank(n), InUse());
    TallyAppend(r, Blank(n), InUse());
  }

  lemma BlankContents(r: seq<Slot>, n: nat)
    requires NoDuplicates(r) && NoDuplicates(r + Blank(n))
    ensures Contents(r + Blank(n)) == Contents(r)
  {
    hide Fold;
    hide NoDuplicates;
    hide Contents;
    var t := r + Blank(n);
    forall k | k in Contents(t)
      ensures k in Contents(r) && Contents(r)[k] == Contents(t)[k]
    {
      var j := KeySlot(t, k);
      ContentsAt(r, j);
    }
    forall k | k in Contents(r)
      ensures k in Contents(t)
    {
      var j := KeySlot(r, k);
      ContentsAt(t, j);
    }
    assert Contents(t).Keys == Contents(r).Keys;
  }

  // As written, a resize keeps every slot's binding in the table but leaves it
  // where lookups find it exactly when ResizeSafe held before.
  lemma ResizeKeepsNamesIff(t: seq<Slot>)
    requires |t| > 0 && IsPow2(|t|) && Hashed(t) && NoDuplicates(t) && Named(t) && Tally(t, IsLive()) < |t|
    ensures var r := Spread(t, |t|, 2 * |t|);
            && Hashed(r) && NoDuplicates(r) && Named(r) && HasEmpty(r) && Contents(r) == Contents(t)
            && Tally(r, InUse()) == Tally(t, IsLive())
            && (Reachable(r) <==> ResizeSafe(t, |t|))
            && ((forall name: seq<u8> :: |name| > 0 ==> Lookup(r, name) == Find(Contents(t), name)) <==> ResizeSafe(t, |t|))
  {
    hide *;
    var cap := |t|;
    var low := Spread(t, cap, cap);
    var r := Spread(t, cap, 2 * cap);
    SpreadPrefix(t, cap, 2 * cap);
    SpreadIsExact(t, cap);
    RebuiltParts(t, low);
    BlankBehind(low, cap);
    BlankContents(low, cap);
    SafeInRebuilt(t, low);
    LookupsAgreeIff(r);
  }

  lemma RebuiltParts(t: seq<Slot>, r: seq<Slot>)
    requires Rebuilt(t, r)
    ensures Hashed(r) && NoDuplicates(r) && Reachable(r) && Named(r) && NoTombstones(r)
    ensures NoDuplicates(t) && Contents(r) == Contents(t) && Tally(r, InUse()) == Tally(t, IsLive())
  {
  }

  lemma SafeInRebuilt(t: seq<Slot>, low: seq<Slot>)
    requires |t| > 0 && IsPow2(|t|) && Hashed(t) && NoDuplicates(t) && Named(t) && Tally(t, IsLive()) < |t|
    requires low == Spread(t, |t|, |t|) && Rebuilt(t, low)
    ensures Reachable(low + Blank(|t|)) <==> ResizeSafe(t, |t|)
  {
    SpreadLength(t, |t|, |t|);
    SafeAlike(t, low);
    RebuiltParts(t, low);
    SomeEmpty(low);
    hide *;
    ReachableAlike(low);
  }

  lemma SpreadLength(t: seq<Slot>, probe: nat, cap: nat)
    requires 0 < probe <= cap
    ensures |Spread(t, probe, cap)| == cap
  {
  }

  predicate LowHomes(r: seq<Slot>)
    requires |r| > 0
  {
    forall i :: 0 <= i < |r| && Live(r[i]) ==> Home(r[i].hash, 2 * |r|) < |r|
  }

  // Counting the names by their homes, it does not matter in which slots they are.
  lemma SafeAlike(t: seq<Slot>, low: seq<Slot>)
    requires |t| > 0 && IsPow2(|t|) && Hashed(t) && NoDuplicates(t) && Named(t) && Tally(t, IsLive()) < |t|
    requires low == Spread(t, |t|, |t|) && Rebuilt(t, low) && |low| == |t|
    ensures ResizeSafe(t, |t|) <==> LowHomes(low) && NoWrap(low)
  {
    hide Spread;
    hide Hashed;
    hide HashStr;
    hide Contents;
    hide NoDuplicates;
    hide Home;
    hide Tally;
    var cap := |t|;
    SomeEmpty(low);
    WrapsIffCrowded(low);
    hide NoWrap;
    hide Reachable;
    SpreadTally(t, cap, AboveHalf(cap));
    TallyExtremes(t, AboveHalf(cap));
    TallyExtremes(low, AboveHalf(cap));
    forall j | 0 <= j <= cap
      ensures Tally(low, HomeFrom(cap, j)) == Tally(t, HomeFrom(cap, j))
    {
      SpreadTally(t, cap, HomeFrom(cap, j));
    }
  }

  lemma ReachableAlike(low: seq<Slot>)
    requires |low| > 0 && IsPow2(|low|) && Reachable(low)
    ensures Reachable(low + Blank(|low|)) <==> LowHomes(low) && NoWrap(low)
  {
    hide Home;
    hide ReachableAt;
    var cap := |low|;
    var r := low + Blank(cap);
    assert forall i :: 0 <= i < cap ==> r[i] == low[i];
    assert forall i :: cap <= i < 2 * cap ==> !Live(r[i]);
    forall i | 0 <= i < cap && Live(low[i])
      ensures ReachableAt(r, i) <==> Home(low[i].hash, 2 * cap) < cap && Home(low[i].hash, cap) <= i
    {
      assert ReachableAt(low, i);
      ReachableInLowerHalf(low, i);
    }
  }

  // Probing with the new capacity always keeps them.
  lemma RepairedResizeKeepsNames(t: seq<Slot>)
    requires |t| > 0 && Hashed(t) && NoDuplicates(t) && Named(t) && Tally(t, IsLive()) < |t|
    ensures Rebuilt(t, Spread(t, 2 * |t|, 2 * |t|))
    ensures var r := Spread(t, 2 * |t|, 2 * |t|);
            forall name: seq<u8> :: |name| > 0 ==> Lookup(r, name) == Find(Contents(t), name)
  {
    var r := Spread(t, 2 * |t|, 2 * |t|);
    SpreadIsExact(t, 2 * |t|);
    hide Spread;
    SomeEmpty(r);
    LookupsAgreeIff(r);
  }

  // The name "A" in a table of four slots is lost by the first resize.
  lemma FirstResizeLosesA(info: Info)
    ensures var a := Slot(false, [0x41], HashStr([0x41]), info);
            var t := [a, ZERO, ZERO, ZERO];
            && Lookup(t, [0x41]) == Some(Bound(a))
            && !ResizeSafe(t, 4) && Lookup(Spread(t, 4, 8), [0x41]) == None
  {
    HashOfA();
    var a := Slot(false, [0x41], HashStr([0x41]), info);
    var t := [a, ZERO, ZERO, ZERO];
    HomesOfA(a);
    SpreadsLow(a, t);
    assert Search(t, 4, a.name, a.hash, 0, None) == Some(0);
    var r := Blank(8)[0 := a];
    assert Search(r, 8, a.name, a.hash, 0, None) == Some(4);
    assert Live(t[0]);
    hide Spread;
    hide HashStr;
    hide Search;
    hide Home;
    hide Tally;
  }

  lemma HomesOfA(a: Slot)
    requires a.hash == 0xC40BF6CC
    ensures Home(a.hash, 4) == 0 && Home(a.hash, 8) == 4
  {
    MaskIsModulo(a.hash, 4);
    MaskIsModulo(a.hash, 8);
    hide Home;
  }

  lemma SpreadsLow(a: Slot, t: seq<Slot>)
    requires !a.unset && |a.name| == 1 && Home(a.hash, 4) == 0 && t == [a, ZERO, ZERO, ZERO]
    ensures Spread(t, 4, 8) == Blank(8)[0 := a]
  {
    hide Home;
    var b := Blank(8);
    assert Search(b, 4, a.name, a.hash, 0, None) == Some(0);
    var r := b[0 := a];
    hide Search;
    assert t[..3][..2][..1] == [a] && [a][..0] == [];
    assert Spread([a], 4, 8) == r;
    assert Spread(t[..3][..2], 4, 8) == r;
    assert Spread(t[..3], 4, 8) == r;
  }

  lemma HashOfA()
    ensures HashStr([0x41]) == 0xC40BF6CC
  {
    XorOfA();
    hide Xor;
    assert [0x41][..0] == [];
  }

  lemma XorOfA()
    ensures Xor(0x811C9DC5, 0x41) == 0x811C9D84
  {
    assert Xor(0x2047277, 0x1) == 0x2047276;
    assert Xor(0x408E4EE, 0x2) == 0x408E4EC;
    assert Xor(0x811C9DC, 0x4) == 0x811C9D8;
    assert Xor(0x102393B8, 0x8) == 0x102393B0;
    assert Xor(0x20472771, 0x10) == 0x20472761;
    assert Xor(0x408E4EE2, 0x20) == 0x408E4EC2;
    assert Xor(0x811C9DC5, 0x41) == 0x811C9D84;
  }
}
