// What a table of slots means as a map, and what probing finds in it.
// src/Vartab.c
module Probing {
  import opened Words
  import opened Hashing

  // `unset` (no name pointer) marks a slot never used, a name of length 0 a
  // deleted one.
  datatype Info = Info(line: nat, ty: nat, location: nat)
  datatype Slot = Slot(unset: bool, name: seq<u8>, hash: u32, info: Info)
  datatype Binding = Binding(name: seq<u8>, info: Info)

  const ZERO := Slot(true, [], 0, Info(0, 0, 0))

  predicate IsTombstoned(s: Slot) { |s.name| == 0 }
  predicate IsEmpty(s: Slot) { IsTombstoned(s) && s.unset }
  predicate Live(s: Slot) { |s.name| > 0 }

  predicate Matches(s: Slot, name: seq<u8>, hash: u32) {
    |name| == |s.name| && hash == s.hash && Fold(name) == Fold(s.name)
  }

  // ---- probe sequences -----------------------------------------------------------------

  // The slot `d` steps behind `h`.
  function Ix(h: nat, cap: nat, d: nat): (i: nat)
    requires h < cap && d <= 2 * cap
    ensures i < cap
  {
    if h + d < cap then h + d else if h + d < 2 * cap then h + d - cap else h + d - 2 * cap
  }

  function Dist(h: nat, cap: nat, i: nat): (d: nat)
    requires h < cap && i < cap
    ensures d < cap && Ix(h, cap, d) == i
  {
    if h <= i then i - h else i + cap - h
  }

  // VartabFindValidSlot from its `d`-th step on; None is its unreachable exit.
  function Search(t: seq<Slot>, cap: nat, name: seq<u8>, hash: u32, d: nat, tomb: Option<nat>): (r: Option<nat>)
    requires 0 < cap <= |t| && d <= 2 * cap && (tomb.Some? ==> tomb.value < cap)
    ensures r.Some? ==> r.value < cap
    decreases 2 * cap - d
  {
    if d == 2 * cap then None else
    var i := Ix(Home(hash, cap), cap, d);
    if Matches(t[i], name, hash) then Some(i)
    else if IsEmpty(t[i]) then Some(if tomb.Some? then tomb.value else i)
    else Search(t, cap, name, hash, d + 1, if tomb.None? && IsTombstoned(t[i]) then Some(i) else tomb)
  }

  predicate Stops(s: Slot, name: seq<u8>, hash: u32) { Matches(s, name, hash) || IsEmpty(s) }

  function FirstStop(t: seq<Slot>, cap: nat, name: seq<u8>, hash: u32, d: nat): (r: nat)
    requires 0 < cap <= |t| && d <= 2 * cap
    ensures d <= r <= 2 * cap
    ensures forall k: nat :: d <= k < r ==> !Stops(t[Ix(Home(hash, cap), cap, k)], name, hash)
    ensures r < 2 * cap ==> Stops(t[Ix(Home(hash, cap), cap, r)], name, hash)
    decreases 2 * cap - d
  {
    if d == 2 * cap || Stops(t[Ix(Home(hash, cap), cap, d)], name, hash) then d
    else FirstStop(t, cap, name, hash, d + 1)
  }

  // The search returns the first match, or the first slot before it that can be
  // reused.
  lemma {:induction false} SearchOutcome(t: seq<Slot>, cap: nat, name: seq<u8>, hash: u32, d: nat, tomb: Option<nat>)
    requires 0 < cap <= |t| && d <= 2 * cap && (tomb.Some? ==> tomb.value < cap)
    ensures var h := Home(hash, cap);
            var e := FirstStop(t, cap, name, hash, d);
            match Search(t, cap, name, hash, d, tomb)
            case None => e == 2 * cap
            case Some(i) =>
              && e < 2 * cap
              && if Matches(t[Ix(h, cap, e)], name, hash) then i == Ix(h, cap, e)
                 else if tomb.Some? then i == tomb.value
                 else exists k: nat :: d <= k <= e && i == Ix(h, cap, k) && IsTombstoned(t[i])
    decreases 2 * cap - d
  {
    hide Home;
    hide Ix;
    hide Matches;
    if d < 2 * cap {
      var i := Ix(Home(hash, cap), cap, d);
      if !Stops(t[i], name, hash) {
        SearchOutcome(t, cap, name, hash, d + 1, if tomb.None? && IsTombstoned(t[i]) then Some(i) else tomb);
      }
    }
  }

  // Only the first `cap` slots matter to a search under capacity `cap`.
  lemma {:induction false} SearchPrefix(t: seq<Slot>, cap: nat, name: seq<u8>, hash: u32, d: nat, tomb: Option<nat>)
    requires 0 < cap <= |t| && d <= 2 * cap && (tomb.Some? ==> tomb.value < cap)
    ensures Search(t, cap, name, hash, d, tomb) == Search(t[..cap], cap, name, hash, d, tomb)
    decreases 2 * cap - d
  {
    hide Home;
    hide Ix;
    hide Matches;
    if d < 2 * cap {
      var i := Ix(Home(hash, cap), cap, d);
      assert t[..cap][i] == t[i];
      if !Stops(t[i], name, hash) {
        SearchPrefix(t, cap, name, hash, d + 1, if tomb.None? && IsTombstoned(t[i]) then Some(i) else tomb);
      }
    }
  }

  // ---- the map a table stands for ---------------------------------------------------------

  predicate Hashed(t: seq<Slot>) {
    forall i :: 0 <= i < |t| && Live(t[i]) ==> t[i].hash == HashStr(t[i].name)
  }

  predicate NoDuplicates(t: seq<Slot>) {
    forall i, j :: 0 <= i < j < |t| && Live(t[i]) && Live(t[j]) ==> Fold(t[i].name) != Fold(t[j].name)
  }

  predicate HasEmpty(t: seq<Slot>) { exists i :: 0 <= i < |t| && IsEmpty(t[i]) }

  // No slot on the first `n` steps from `h` is empty.
  predicate Clear(t: seq<Slot>, h: nat, n: nat)
    requires h < |t| && n <= 2 * |t|
  {
    forall d: nat :: d < n ==> !IsEmpty(t[Ix(h, |t|, d)])
  }

  predicate ReachableAt(t: seq<Slot>, i: nat)
    requires i < |t|
  {
    var h := Home(t[i].hash, |t|);
    Clear(t, h, Dist(h, |t|, i))
  }

  predicate Reachable(t: seq<Slot>) {
    forall i :: 0 <= i < |t| && Live(t[i]) ==> ReachableAt(t, i)
  }

  function Bound(s: Slot): Binding { Binding(s.name, s.info) }

  function Contents(t: seq<Slot>): map<seq<u8>, Binding>
    requires NoDuplicates(t)
  {
    map i | 0 <= i < |t| && Live(t[i]) :: Fold(t[i].name) := Bound(t[i])
  }

  // VartabFindWithHash
  function Lookup(t: seq<Slot>, name: seq<u8>): Option<Binding>
    requires |t| > 0
  {
    match Search(t, |t|, name, HashStr(name), 0, None)
    case Some(i) => if Live(t[i]) then Some(Bound(t[i])) else None
    case None => None
  }

  function Find(m: map<seq<u8>, Binding>, name: seq<u8>): Option<Binding> {
    if Fold(name) in m then Some(m[Fold(name)]) else None
  }

  lemma ContentsAt(t: seq<Slot>, i: nat)
    requires NoDuplicates(t) && i < |t| && Live(t[i])
    ensures Fold(t[i].name) in Contents(t) && Contents(t)[Fold(t[i].name)] == Bound(t[i])
  {
  }

  lemma SlotOf(t: seq<Slot>, name: seq<u8>) returns (i: nat)
    requires NoDuplicates(t) && Fold(name) in Contents(t)
    ensures i < |t| && Live(t[i]) && Fold(t[i].name) == Fold(name) && Contents(t)[Fold(name)] == Bound(t[i])
  {
    i :| 0 <= i < |t| && Live(t[i]) && Fold(t[i].name) == Fold(name);
  }

  // A reachable binding is found.
  lemma FindsMatch(t: seq<Slot>, i: nat, name: seq<u8>)
    requires Hashed(t) && NoDuplicates(t) && i < |t| && Live(t[i]) && ReachableAt(t, i) && Fold(name) == Fold(t[i].name)
    ensures Search(t, |t|, name, HashStr(name), 0, None) == Some(i)
  {
    hide HashStr;
    hide Fold;
    hide Home;
    HashIgnoresCase(name, t[i].name);
    assert |Fold(name)| == |name|;
    var hash := HashStr(name);
    var h := Home(hash, |t|);
    var e := Dist(h, |t|, i);
    var r := FirstStop(t, |t|, name, hash, 0);
    SearchOutcome(t, |t|, name, hash, 0, None);
    if r < e {
      assert false;
    }
    assert Stops(t[Ix(h, |t|, e)], name, hash);
  }

  // With no binding, the search ends at a slot that can take one, every slot
  // before it being in use.
  lemma FindsRoom(t: seq<Slot>, name: seq<u8>) returns (k: nat)
    requires HasEmpty(t) && |name| > 0
    requires forall i :: 0 <= i < |t| && Live(t[i]) ==> Fold(t[i].name) != Fold(name)
    ensures k < |t|
    ensures var h := Home(HashStr(name), |t|);
            var i := Ix(h, |t|, k);
            Search(t, |t|, name, HashStr(name), 0, None) == Some(i) && !Live(t[i]) && Clear(t, h, k)
  {
    hide HashStr;
    hide Fold;
    hide Home;
    var hash := HashStr(name);
    var h := Home(hash, |t|);
    var z :| 0 <= z < |t| && IsEmpty(t[z]);
    var e := Dist(h, |t|, z);
    var r := FirstStop(t, |t|, name, hash, 0);
    SearchOutcome(t, |t|, name, hash, 0, None);
    assert r <= e by {
      assert Stops(t[Ix(h, |t|, e)], name, hash);
    }
    var i := Search(t, |t|, name, hash, 0, None).value;
    k :| 0 <= k <= r && i == Ix(h, |t|, k) && IsTombstoned(t[i]);
  }

  // Lookups answer from the map the table stands for exactly when every live
  // slot is reached from its home through slots in use.
  lemma LookupsAgreeIff(t: seq<Slot>)
    requires Hashed(t) && NoDuplicates(t) && HasEmpty(t)
    ensures Reachable(t) <==> forall name: seq<u8> :: |name| > 0 ==> Lookup(t, name) == Find(Contents(t), name)
  {
    hide HashStr;
    hide Fold;
    hide Contents;
    if Reachable(t) {
      forall name: seq<u8> | |name| > 0
        ensures Lookup(t, name) == Find(Contents(t), name)
      {
        LookupAgrees(t, name);
      }
    } else {
      var i :| 0 <= i < |t| && Live(t[i]) && !ReachableAt(t, i);
      ContentsAt(t, i);
      MissesUnreachable(t, i);
    }
  }

  lemma LookupAgrees(t: seq<Slot>, name: seq<u8>)
    requires Hashed(t) && NoDuplicates(t) && HasEmpty(t) && Reachable(t) && |name| > 0
    ensures Lookup(t, name) == Find(Contents(t), name)
  {
    if Fold(name) in Contents(t) {
      var i := SlotOf(t, name);
      FindsMatch(t, i, name);
    } else {
      forall i | 0 <= i < |t| && Live(t[i])
        ensures Fold(t[i].name) != Fold(name)
      {
        ContentsAt(t, i);
      }
      var k := FindsRoom(t, name);
    }
  }

  lemma MissesUnreachable(t: seq<Slot>, i: nat)
    requires Hashed(t) && NoDuplicates(t) && i < |t| && Live(t[i]) && !ReachableAt(t, i)
    ensures Lookup(t, t[i].name) == None
  {
    hide HashStr;
    hide Fold;
    hide Home;
    var name, hash := t[i].name, t[i].hash;
    var h := Home(hash, |t|);
    var e := Dist(h, |t|, i);
    var d: nat :| d < e && IsEmpty(t[Ix(h, |t|, d)]);
    var r := FirstStop(t, |t|, name, hash, 0);
    SearchOutcome(t, |t|, name, hash, 0, None);
    assert r <= d by {
      assert Stops(t[Ix(h, |t|, d)], name, hash);
    }
    assert !Matches(t[Ix(h, |t|, r)], name, hash);
  }

  // ---- storing and deleting -------------------------------------------------------------------

  function Put(t: seq<Slot>, name: seq<u8>, info: Info): seq<Slot>
    requires |t| > 0
  {
    match Search(t, |t|, name, HashStr(name), 0, None)
    case Some(i) => t[i := Slot(false, name, HashStr(name), info)]
    case None => t
  }

  lemma ClearUpdate(t: seq<Slot>, i: nat, s: Slot, h: nat, n: nat)
    requires i < |t| && h < |t| && n <= 2 * |t| && Clear(t, h, n) && !IsEmpty(s)
    ensures Clear(t[i := s], h, n)
  {
  }

  // Filling a slot keeps the others reachable.
  lemma ReachableUpdate(t: seq<Slot>, i: nat, s: Slot)
    requires Reachable(t) && i < |t| && !IsEmpty(s) && (Live(s) ==> ReachableAt(t[i := s], i))
    ensures Reachable(t[i := s])
  {
    hide Home;
    hide Clear;
    var t' := t[i := s];
    forall j | 0 <= j < |t| && Live(t'[j])
      ensures ReachableAt(t', j)
    {
      if j != i {
        var h := Home(t[j].hash, |t|);
        assert ReachableAt(t, j);
        ClearUpdate(t, i, s, h, Dist(h, |t|, j));
      }
    }
  }

  // Where Put stores a name: its own slot if it is bound, else a free slot.
  lemma PutWhere(t: seq<Slot>, name: seq<u8>) returns (i: nat)
    requires Hashed(t) && NoDuplicates(t) && HasEmpty(t) && Reachable(t) && |name| > 0
    ensures i < |t| && Search(t, |t|, name, HashStr(name), 0, None) == Some(i)
    ensures forall j :: 0 <= j < |t| && j != i && Live(t[j]) ==> Fold(t[j].name) != Fold(name)
    ensures Live(t[i]) ==> Fold(t[i].name) == Fold(name)
    ensures var h := Home(HashStr(name), |t|); Clear(t, h, Dist(h, |t|, i))
  {
    hide HashStr;
    hide Fold;
    hide Home;
    if j :| 0 <= j < |t| && Live(t[j]) && Fold(t[j].name) == Fold(name) {
      i := j;
      HashIgnoresCase(name, t[i].name);
      FindsMatch(t, i, name);
      assert ReachableAt(t, i);
    } else {
      var k := FindsRoom(t, name);
      i := Ix(Home(HashStr(name), |t|), |t|, k);
      assert Dist(Home(HashStr(name), |t|), |t|, i) == k;
    }
  }

  // VartabSet below its load limit.
  lemma PutBinds(t: seq<Slot>, name: seq<u8>, info: Info)
    requires Hashed(t) && NoDuplicates(t) && HasEmpty(t) && Reachable(t) && |name| > 0
    ensures var t' := Put(t, name, info);
            && Hashed(t') && NoDuplicates(t') && Reachable(t') && |t'| == |t|
            && Contents(t') == Contents(t)[Fold(name) := Binding(name, info)]
  {
    var i := PutWhere(t, name);
    hide HashStr;
    hide Fold;
    hide Home;
    hide Search;
    var s := Slot(false, name, HashStr(name), info);
    var t' := t[i := s];
    var h := Home(HashStr(name), |t|);
    ClearUpdate(t, i, s, h, Dist(h, |t|, i));
    assert ReachableAt(t', i);
    ReachableUpdate(t, i, s);
    ContentsReplaced(t, i, s);
  }

  lemma KeySlot(t: seq<Slot>, k: seq<u8>) returns (i: nat)
    requires NoDuplicates(t) && k in Contents(t)
    ensures i < |t| && Live(t[i]) && Fold(t[i].name) == k && Contents(t)[k] == Bound(t[i])
  {
    i :| 0 <= i < |t| && Live(t[i]) && Fold(t[i].name) == k;
  }

  lemma ContentsReplaced(t: seq<Slot>, i: nat, s: Slot)
    requires NoDuplicates(t) && i < |t| && Live(s) && (Live(t[i]) ==> Fold(t[i].name) == Fold(s.name))
    requires forall j :: 0 <= j < |t| && j != i && Live(t[j]) ==> Fold(t[j].name) != Fold(s.name)
    ensures NoDuplicates(t[i := s])
    ensures Contents(t[i := s]) == Contents(t)[Fold(s.name) := Bound(s)]
  {
    hide Fold;
    hide Contents;
    var t' := t[i := s];
    assert NoDuplicates(t');
    hide NoDuplicates;
    var m, m' := Contents(t)[Fold(s.name) := Bound(s)], Contents(t');
    ContentsAt(t', i);
    forall k | k in m'
      ensures k in m && m[k] == m'[k]
    {
      var j := KeySlot(t', k);
      if j != i { ContentsAt(t, j); }
    }
    forall k | k in m
      ensures k in m'
    {
      if k != Fold(s.name) {
        var j := KeySlot(t, k);
        ContentsAt(t', j);
      }
    }
    assert m'.Keys == m.Keys;
  }

  // VartabDelete of a bound name.
  lemma DeleteUnbinds(t: seq<Slot>, i: nat)
    requires Hashed(t) && NoDuplicates(t) && Reachable(t) && i < |t| && Live(t[i]) && !t[i].unset
    ensures var t' := t[i := t[i].(name := [])];
            && Hashed(t') && NoDuplicates(t') && Reachable(t')
            && Contents(t') == Contents(t) - {Fold(t[i].name)}
  {
    hide HashStr;
    hide Fold;
    hide Home;
    hide Contents;
    var s := t[i].(name := []);
    var t' := t[i := s];
    ReachableUpdate(t, i, s);
    hide Reachable;
    assert Hashed(t');
    Distinct(t, i);
    hide NoDuplicates;
    var m, m' := Contents(t) - {Fold(t[i].name)}, Contents(t');
    forall k | k in m'
      ensures k in m && m[k] == m'[k]
    {
      var j := KeySlot(t', k);
      ContentsAt(t, j);
    }
    forall k | k in m
      ensures k in m'
    {
      var j := KeySlot(t, k);
      ContentsAt(t', j);
    }
    assert m'.Keys == m.Keys;
  }

  lemma Distinct(t: seq<Slot>, i: nat)
    requires NoDuplicates(t) && i < |t| && Live(t[i])
    ensures NoDuplicates(t[i := t[i].(name := [])])
    ensures forall j :: 0 <= j < |t| && j != i && Live(t[j]) ==> Fold(t[j].name) != Fold(t[i].name)
  {
    hide Fold;
  }
}
