// Copying a table: tombstones, and why a clone keeps at most one.
// src/Vartab.c
module Tombstones {
  import opened Words
  import opened Hashing
  import opened Probing
  import opened Rehash

  predicate IsDeleted(s: Slot) { IsTombstoned(s) && !s.unset }

  // Stored under the empty name, as VartabClone does with a tombstone: it can
  // be found again, and there is no second one.
  predicate OneTombstone(t: seq<Slot>) {
    && (forall i :: 0 <= i < |t| && IsDeleted(t[i]) ==> t[i].hash == BASIS && ReachableAt(t, i))
    && (forall i, j :: 0 <= i < j < |t| ==> !(IsDeleted(t[i]) && IsDeleted(t[j])))
  }

  lemma StaysReachable(t: seq<Slot>, i: nat, s: Slot, j: nat)
    requires i < |t| && j < |t| && j != i && !IsEmpty(s) && ReachableAt(t, j)
    ensures ReachableAt(t[i := s], j)
  {
    hide Home;
    hide Clear;
    ClearUpdate(t, i, s, Home(t[j].hash, |t|), Dist(Home(t[j].hash, |t|), |t|, j));
  }

  lemma PutKeepsOneTombstone(t: seq<Slot>, name: seq<u8>, info: Info)
    requires Hashed(t) && NoDuplicates(t) && HasEmpty(t) && Reachable(t) && |name| > 0 && OneTombstone(t)
    ensures OneTombstone(Put(t, name, info))
  {
    var i := PutWhere(t, name);
    hide Search;
    hide HashStr;
    hide Fold;
    hide ReachableAt;
    var s := Slot(false, name, HashStr(name), info);
    var t' := t[i := s];
    forall j | 0 <= j < |t| && IsDeleted(t'[j])
      ensures ReachableAt(t', j)
    {
      StaysReachable(t, i, s, j);
    }
  }

  lemma TombstoneFound(t: seq<Slot>, m: nat)
    requires OneTombstone(t) && m < |t| && IsDeleted(t[m])
    ensures Search(t, |t|, [], BASIS, 0, None) == Some(m)
    ensures var h := Home(BASIS, |t|); Clear(t, h, Dist(h, |t|, m))
  {
    hide Home;
    var h := Home(BASIS, |t|);
    var r := FirstStop(t, |t|, [], BASIS, 0);
    SearchOutcome(t, |t|, [], BASIS, 0, None);
    hide Search;
    var e := Dist(h, |t|, m);
    assert ReachableAt(t, m);
    assert Matches(t[m], [], BASIS);
    assert Stops(t[Ix(h, |t|, e)], [], BASIS);
    if r < e {
      assert false;
    }
  }

  lemma NoTombstoneFound(t: seq<Slot>) returns (i: nat)
    requires |t| > 0 && HasEmpty(t) && NoTombstones(t)
    ensures i < |t| && Search(t, |t|, [], BASIS, 0, None) == Some(i) && IsEmpty(t[i])
    ensures var h := Home(BASIS, |t|); Clear(t, h, Dist(h, |t|, i))
  {
    hide Home;
    hide Fold;
    var h := Home(BASIS, |t|);
    var z :| 0 <= z < |t| && IsEmpty(t[z]);
    var r := FirstStop(t, |t|, [], BASIS, 0);
    SearchOutcome(t, |t|, [], BASIS, 0, None);
    hide Search;
    assert Stops(t[Ix(h, |t|, Dist(h, |t|, z))], [], BASIS);
    i := Ix(h, |t|, r);
    assert Dist(h, |t|, i) == r;
  }

  // Where a tombstone goes: onto the one there is, else into an empty slot.
  lemma TombstoneWhere(t: seq<Slot>) returns (i: nat)
    requires |t| > 0 && HasEmpty(t) && OneTombstone(t)
    ensures i < |t| && Search(t, |t|, [], BASIS, 0, None) == Some(i) && !Live(t[i])
    ensures var h := Home(BASIS, |t|); Clear(t, h, Dist(h, |t|, i))
    ensures forall j :: 0 <= j < |t| && j != i ==> !IsDeleted(t[j])
  {
    hide Home;
    hide Search;
    hide Clear;
    if m :| 0 <= m < |t| && IsDeleted(t[m]) {
      TombstoneFound(t, m);
      i := m;
    } else {
      i := NoTombstoneFound(t);
    }
  }

  lemma PutTombstone(t: seq<Slot>, info: Info)
    requires Hashed(t) && NoDuplicates(t) && |t| > 0 && HasEmpty(t) && Reachable(t) && OneTombstone(t)
    ensures var t' := Put(t, [], info);
            && NoDuplicates(t') && Reachable(t') && OneTombstone(t') && Contents(t') == Contents(t)
  {
    var i := TombstoneWhere(t);
    hide Search;
    hide Fold;
    hide Home;
    hide ReachableAt;
    var s := Slot(false, [], BASIS, info);
    var t' := t[i := s];
    var h := Home(BASIS, |t|);
    ReachableUpdate(t, i, s);
    Replaced(t, i, s);
    ClearUpdate(t, i, s, h, Dist(h, |t|, i));
    hide Contents;
    hide NoDuplicates;
    hide Reachable;
  }

  lemma Replaced(t: seq<Slot>, i: nat, s: Slot)
    requires NoDuplicates(t) && i < |t| && !Live(t[i]) && !Live(s)
    ensures NoDuplicates(t[i := s]) && Contents(t[i := s]) == Contents(t)
  {
    hide Fold;
    var t' := t[i := s];
    assert NoDuplicates(t');
    hide NoDuplicates;
    hide Contents;
    forall k | k in Contents(t)
      ensures k in Contents(t') && Contents(t')[k] == Contents(t)[k]
    {
      var j := KeySlot(t, k);
      ContentsAt(t', j);
    }
    forall k | k in Contents(t')
      ensures k in Contents(t)
    {
      var j := KeySlot(t', k);
      ContentsAt(t, j);
    }
    assert Contents(t').Keys == Contents(t).Keys;
  }
}
