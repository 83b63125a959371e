// The symbol table: open addressing, linear probing, tombstones, doubling.
// src/Vartab.c
module Vartabs {
  import opened Words
  import opened Hashing
  import opened Probing
  import opened Rehash
  import opened Tombstones

  const GROW_FACTOR := 2

  // `Cap * 3/4`
  function MaxLoad(cap: nat): nat { cap * 3 / 4 }

  predicate Exceeds(cap: nat, count: nat) { count + 1 > MaxLoad(cap) }

  // VartabFindValidSlot from a slot on, `left` steps before its unreachable exit.
  function SearchFrom(t: seq<Slot>, cap: nat, name: seq<u8>, hash: u32, index: nat, left: nat, tomb: Option<nat>): Option<nat>
    requires index < cap <= |t|
    decreases left
  {
    if left == 0 then None
    else if Matches(t[index], name, hash) then Some(index)
    else if IsEmpty(t[index]) then Some(if tomb.Some? then tomb.value else index)
    else SearchFrom(t, cap, name, hash, Home(index + 1, cap), left - 1, if tomb.None? && IsTombstoned(t[index]) then Some(index) else tomb)
  }

  method FindValidSlot(table: array<Slot>, cap: nat, name: seq<u8>, hash: u32) returns (r: Option<nat>)
    requires 0 < cap <= table.Length
    ensures r == SearchFrom(table[..], cap, name, hash, Home(hash, cap), 2 * cap, None)
    ensures IsPow2(cap) ==> r == Search(table[..], cap, name, hash, 0, None)
  {
    hide Home;
    hide Fold;
    hide Search;
    hide IsPow2;
    ghost var t := table[..];
    if IsPow2(cap) {
      FirstIx(hash, cap);
      MaskSteps(t, cap, name, hash, 0, None);
    }
    var tombstoned: Option<nat> := None;
    var index := Home(hash, cap);
    var i := 0;
    while i < 2 * cap
      invariant 0 <= i <= 2 * cap && 0 <= index < cap
      invariant SearchFrom(t, cap, name, hash, Home(hash, cap), 2 * cap, None) == SearchFrom(t, cap, name, hash, index, 2 * cap - i, tombstoned)
    {
      var slot := table[index];
      if |name| == |slot.name| && hash == slot.hash {
        var same := EqualNoCase(name, slot.name);
        if same {
          return Some(index);
        }
      }
      if IsEmpty(slot) {
        return if tombstoned.None? then Some(index) else tombstoned;
      }
      if tombstoned.None? && IsTombstoned(slot) {
        tombstoned := Some(index);
      }
      index := Home(index + 1, cap);
      i := i + 1;
    }
    return None;
  }

  // Under a power of two the masked steps go round the table.
  lemma {:induction false} MaskSteps(t: seq<Slot>, cap: nat, name: seq<u8>, hash: u32, d: nat, tomb: Option<nat>)
    requires 0 < cap <= |t| && IsPow2(cap) && d <= 2 * cap && (tomb.Some? ==> tomb.value < cap)
    ensures SearchFrom(t, cap, name, hash, Ix(Home(hash, cap), cap, d), 2 * cap - d, tomb) == Search(t, cap, name, hash, d, tomb)
    decreases 2 * cap - d
  {
    hide Home;
    hide Ix;
    hide Matches;
    hide IsPow2;
    SearchStep(t, cap, name, hash, d, tomb);
    if d < 2 * cap {
      var index := Ix(Home(hash, cap), cap, d);
      NextIx(Home(hash, cap), cap, d);
      MaskSteps(t, cap, name, hash, d + 1, if tomb.None? && IsTombstoned(t[index]) then Some(index) else tomb);
    }
  }

  lemma FirstIx(hash: u32, cap: nat)
    requires cap > 0
    ensures Ix(Home(hash, cap), cap, 0) == Home(hash, cap)
  {
  }

  lemma NextIx(h: nat, cap: nat, d: nat)
    requires IsPow2(cap) && h < cap && d < 2 * cap
    ensures Home(Ix(h, cap, d) + 1, cap) == Ix(h, cap, d + 1)
  {
    hide Home;
    hide IsPow2;
    MaskIsModulo(Ix(h, cap, d) + 1, cap);
    ModUnique(Ix(h, cap, d) + 1, cap, if Ix(h, cap, d) + 1 == cap then 1 else 0, Ix(h, cap, d + 1));
  }

  lemma SearchStep(t: seq<Slot>, cap: nat, name: seq<u8>, hash: u32, d: nat, tomb: Option<nat>)
    requires 0 < cap <= |t| && d <= 2 * cap && (tomb.Some? ==> tomb.value < cap)
    ensures d == 2 * cap ==> Search(t, cap, name, hash, d, tomb) == None
    ensures d < 2 * cap ==>
              var i := Ix(Home(hash, cap), cap, d);
              Search(t, cap, name, hash, d, tomb) ==
                if Matches(t[i], name, hash) then Some(i)
                else if IsEmpty(t[i]) then Some(if tomb.Some? then tomb.value else i)
                else Search(t, cap, name, hash, d + 1, if tomb.None? && IsTombstoned(t[i]) then Some(i) else tomb)
  {
  }

  // The fields of a table.
  datatype Fields = Fields(t: seq<Slot>, cap: nat, count: nat)

  // What holds of the fields on every run.
  predicate Sound(f: Fields) {
    && |f.t| == f.cap > 0 && IsPow2(f.cap) && Hashed(f.t) && Named(f.t)
    && Tally(f.t, InUse()) <= f.count <= MaxLoad(f.cap)
  }

  // What makes the fields a map.
  predicate Faithful(f: Fields) {
    NoDuplicates(f.t) && Reachable(f.t) && Tally(f.t, InUse()) == f.count
  }

  lemma RoomLeft(f: Fields)
    requires Sound(f)
    ensures HasEmpty(f.t) && Tally(f.t, IsLive()) < f.cap && Tally(f.t, IsLive()) <= f.count
  {
    SomeEmpty(f.t);
    TallyWeaken(f.t, IsLive(), InUse());
  }

  // ---- what each operation does to the fields ------------------------------------------------

  function Removed(t: seq<Slot>, name: seq<u8>): seq<Slot>
    requires |t| > 0
  {
    match Search(t, |t|, name, HashStr(name), 0, None)
    case Some(i) => if Live(t[i]) then t[i := t[i].(name := [])] else t
    case None => t
  }

  // Line 236 of src/Vartab.c probes the new table with the old capacity;
  // `repaired` tables probe it with the new one.
  function Resized(f: Fields, repaired: bool): Fields
    requires f.cap > 0
  {
    var cap := GROW_FACTOR * f.cap;
    Fields(Spread(f.t, if repaired then cap else f.cap, cap), cap, Tally(f.t, IsLive()))
  }

  function Grown(f: Fields, repaired: bool): Fields
    requires f.cap > 0
  {
    if Exceeds(f.cap, f.count) then Resized(f, repaired) else f
  }

  function Stored(f: Fields, name: seq<u8>, info: Info): Fields
    requires |f.t| > 0
  {
    var at := Search(f.t, |f.t|, name, HashStr(name), 0, None);
    Fields(Put(f.t, name, info), f.cap, f.count + if at.Some? && IsEmpty(f.t[at.value]) then 1 else 0)
  }

  function After(f: Fields, repaired: bool, op: Op): Fields
    requires |f.t| == f.cap > 0
  {
    match op
    case Setting(name, info) => Stored(Grown(f, repaired), name, info)
    case Deleting(name) => f.(t := Removed(f.t, name))
    case Finding(_) => f
    case Resetting => Fields(Blank(f.cap), f.cap, 0)
    case Cloning => CopyOf(f.t, f.cap)
  }

  // A clone: every slot ever used is stored in a blank table, which never grows.
  function CopyOf(t: seq<Slot>, cap: nat): (r: Fields)
    requires cap > 0
    ensures |r.t| == r.cap == cap
  {
    if |t| == 0 then Fields(Blank(cap), cap, 0) else
    var r, last := CopyOf(t[..|t| - 1], cap), t[|t| - 1];
    if IsEmpty(last) then r else Stored(r, last.name, last.info)
  }

  function Reply(f: Fields, op: Op): Option<Binding>
    requires |f.t| > 0
  {
    match op
    case Setting(name, info) => Some(Binding(name, info))
    case Deleting(name) => Lookup(f.t, name)
    case Finding(name) => Lookup(f.t, name)
    case Resetting => None
    case Cloning => None
  }

  // No table outgrown, or one whose resize loses no name.
  predicate GrowsSafely(f: Fields, repaired: bool)
    requires f.cap > 0
  {
    repaired || !Exceeds(f.cap, f.count) || ResizeSafe(f.t, f.cap)
  }

  lemma ResizedIsSound(f: Fields, repaired: bool)
    requires Sound(f)
    ensures var r := Resized(f, repaired);
            && |r.t| == r.cap == 2 * f.cap && IsPow2(r.cap) && Hashed(r.t) && Named(r.t) && HasEmpty(r.t)
            && Tally(r.t, InUse()) <= r.count < MaxLoad(r.cap)
  {
    hide *;
    Parts(f);
    RoomLeft(f);
    ResizedIs(f, repaired);
    LoadDoubles(f);
    var r := Resized(f, repaired);
    SpreadKeepsShape(f.t, if repaired then 2 * f.cap else f.cap, 2 * f.cap);
    SomeEmpty(r.t);
  }

  lemma LoadDoubles(f: Fields)
    requires Sound(f)
    ensures GROW_FACTOR * f.cap == 2 * f.cap && f.count <= MaxLoad(f.cap) < MaxLoad(2 * f.cap) < 2 * f.cap
  {
    hide Hashed;
    hide Named;
    hide IsPow2;
    hide Tally;
  }

  lemma ResizedIsFaithful(f: Fields, repaired: bool)
    requires Sound(f) && Faithful(f) && (repaired || ResizeSafe(f.t, f.cap))
    ensures Faithful(Resized(f, repaired)) && Contents(Resized(f, repaired).t) == Contents(f.t)
  {
    hide Spread;
    hide Contents;
    hide ResizeSafe;
    RoomLeft(f);
    hide Reachable;
    hide Hashed;
    hide Named;
    hide NoDuplicates;
    if repaired {
      RepairedResizeKeepsNames(f.t);
      RebuiltParts(f.t, Spread(f.t, 2 * f.cap, 2 * f.cap));
    } else {
      ResizeKeepsNamesIff(f.t);
    }
  }

  lemma GrownIsSound(f: Fields, repaired: bool)
    requires Sound(f)
    ensures var g := Grown(f, repaired);
            && |g.t| == g.cap > 0 && IsPow2(g.cap) && Hashed(g.t) && Named(g.t) && HasEmpty(g.t)
            && Tally(g.t, InUse()) <= g.count < MaxLoad(g.cap)
            && (Faithful(f) && GrowsSafely(f, repaired) ==> Faithful(g) && Contents(g.t) == Contents(f.t))
  {
    hide Hashed;
    hide Named;
    hide NoDuplicates;
    hide Reachable;
    hide Contents;
    hide ResizeSafe;
    hide HasEmpty;
    hide Resized;
    hide IsPow2;
    RoomLeft(f);
    if Exceeds(f.cap, f.count) {
      ResizedIsSound(f, repaired);
      if Faithful(f) && GrowsSafely(f, repaired) { ResizedIsFaithful(f, repaired); }
    }
  }

  // Storing always finds a slot, and counts it if it was empty.
  lemma StoredIsSound(g: Fields, name: seq<u8>, info: Info)
    requires |g.t| == g.cap > 0 && IsPow2(g.cap) && Hashed(g.t) && Named(g.t) && HasEmpty(g.t)
    requires Tally(g.t, InUse()) <= g.count < MaxLoad(g.cap)
    ensures Sound(Stored(g, name, info)) && Search(g.t, |g.t|, name, HashStr(name), 0, None).Some?
    ensures Tally(g.t, InUse()) == g.count ==> Tally(Put(g.t, name, info), InUse()) == Stored(g, name, info).count
  {
    hide Hashed;
    hide Named;
    hide HasEmpty;
    hide HashStr;
    hide Search;
    hide IsPow2;
    hide MaxLoad;
    hide Tally;
    assert g.t[..|g.t|] == g.t;
    PutKeepsShape(g.t, |g.t|, name, HashStr(name), Slot(false, name, HashStr(name), info));
  }

  lemma StoredIsFaithful(g: Fields, name: seq<u8>, info: Info)
    requires |g.t| == g.cap > 0 && IsPow2(g.cap) && Hashed(g.t) && Named(g.t) && HasEmpty(g.t)
    requires Tally(g.t, InUse()) <= g.count < MaxLoad(g.cap) && Faithful(g) && |name| > 0
    ensures Faithful(Stored(g, name, info))
    ensures Contents(Put(g.t, name, info)) == Contents(g.t)[Fold(name) := Binding(name, info)]
  {
    hide Hashed;
    hide Named;
    hide HasEmpty;
    hide HashStr;
    hide Search;
    hide IsPow2;
    hide MaxLoad;
    hide Tally;
    hide NoDuplicates;
    hide Reachable;
    hide Contents;
    hide Fold;
    hide Put;
    StoredIsSound(g, name, info);
    PutBinds(g.t, name, info);
  }

  lemma SetProceeds(f: Fields, repaired: bool, name: seq<u8>, info: Info)
    requires Sound(f)
    ensures var g := Grown(f, repaired);
            |g.t| == g.cap > 0 && IsPow2(g.cap) && Search(g.t, |g.t|, name, HashStr(name), 0, None).Some?
  {
    hide Stored;
    hide Search;
    hide HashStr;
    GrownIsSound(f, repaired);
    StoredIsSound(Grown(f, repaired), name, info);
  }

  // What a search that ends at a live slot found is the name asked for.
  lemma FoundName(t: seq<Slot>, name: seq<u8>, i: nat)
    requires |t| > 0 && i < |t| && Live(t[i]) && Search(t, |t|, name, HashStr(name), 0, None) == Some(i)
    ensures Fold(t[i].name) == Fold(name)
  {
    hide HashStr;
    hide Fold;
    SearchOutcome(t, |t|, name, HashStr(name), 0, None);
  }

  lemma RemovedIsSound(f: Fields, name: seq<u8>)
    requires Sound(f)
    ensures Sound(f.(t := Removed(f.t, name)))
  {
    hide Hashed;
    hide Named;
    hide HashStr;
    hide Search;
    hide IsPow2;
    hide MaxLoad;
    var at := Search(f.t, |f.t|, name, HashStr(name), 0, None);
    if at.Some? && Live(f.t[at.value]) {
      TallyUpdate(f.t, at.value, f.t[at.value].(name := []), InUse());
      DeletedSlot(f.t, at.value);
    }
  }

  lemma DeletedSlot(t: seq<Slot>, i: nat)
    requires Hashed(t) && Named(t) && i < |t| && Live(t[i])
    ensures !t[i].unset && Hashed(t[i := t[i].(name := [])]) && Named(t[i := t[i].(name := [])])
  {
  }

  lemma RemovedIsFaithful(f: Fields, name: seq<u8>)
    requires Sound(f) && Faithful(f) && |name| > 0
    ensures var t' := Removed(f.t, name);
            && Faithful(f.(t := t')) && Lookup(f.t, name) == Find(Contents(f.t), name)
            && Contents(t') == Contents(f.t) - {Fold(name)}
  {
    RoomLeft(f);
    LookupAgrees(f.t, name);
    hide *;
    Parts(f);
    if FoundAt(f.t, name) {
      RemovedFound(f, name);
    } else {
      assert f.(t := f.t) == f;
      assert Contents(f.t) - {Fold(name)} == Contents(f.t);
    }
  }

  predicate FoundAt(t: seq<Slot>, name: seq<u8>)
    requires |t| > 0
  {
    var at := Search(t, |t|, name, HashStr(name), 0, None);
    at.Some? && Live(t[at.value])
  }

  lemma Parts(f: Fields)
    requires Sound(f)
    ensures |f.t| == f.cap > 0 && IsPow2(f.cap) && Hashed(f.t) && Named(f.t) && Tally(f.t, InUse()) <= f.count
    ensures Faithful(f) ==> NoDuplicates(f.t) && Reachable(f.t) && Tally(f.t, InUse()) == f.count
  {
  }

  lemma RemovedFound(f: Fields, name: seq<u8>)
    requires |f.t| > 0 && FoundAt(f.t, name)
    requires Hashed(f.t) && Named(f.t) && NoDuplicates(f.t) && Reachable(f.t) && Tally(f.t, InUse()) == f.count
    ensures var t' := Removed(f.t, name);
            Faithful(f.(t := t')) && Contents(t') == Contents(f.t) - {Fold(name)}
  {
    hide Reachable;
    hide Contents;
    hide Fold;
    hide Hashed;
    hide NoDuplicates;
    hide HashStr;
    hide Search;
    var t := f.t;
    var i := Search(t, |t|, name, HashStr(name), 0, None).value;
    FoundName(t, name, i);
    hide Named;
    DeleteUnbinds(t, i);
    TallyUpdate(t, i, t[i].(name := []), InUse());
  }

  lemma BlankIsFaithful(cap: nat)
    requires cap > 0 && IsPow2(cap)
    ensures var f := Fields(Blank(cap), cap, 0); Sound(f) && Faithful(f) && Contents(f.t) == map[]
  {
    TallyExtremes(Blank(cap), InUse());
    assert Contents(Blank(cap)) == map[];
  }

  // ---- whole runs ------------------------------------------------------------------------------

  datatype Op =
    | Setting(name: seq<u8>, info: Info)
    | Deleting(name: seq<u8>)
    | Finding(name: seq<u8>)
    | Resetting
    // The run goes on with a clone of the table.
    | Cloning

  // What a plain map does.
  function Apply(m: map<seq<u8>, Binding>, op: Op): map<seq<u8>, Binding> {
    match op
    case Setting(name, info) => m[Fold(name) := Binding(name, info)]
    case Deleting(name) => m - {Fold(name)}
    case Finding(_) => m
    case Resetting => map[]
    case Cloning => m
  }

  // What each operation answers: the binding found, deleted or made.
  function Answer(m: map<seq<u8>, Binding>, op: Op): Option<Binding> {
    match op
    case Setting(name, info) => Some(Binding(name, info))
    case Deleting(name) => Find(m, name)
    case Finding(name) => Find(m, name)
    case Resetting => None
    case Cloning => None
  }

  function ApplyAll(m: map<seq<u8>, Binding>, ops: seq<Op>): map<seq<u8>, Binding> {
    if |ops| == 0 then m else Apply(ApplyAll(m, ops[..|ops| - 1]), ops[|ops| - 1])
  }

  function Answers(m: map<seq<u8>, Binding>, ops: seq<Op>): (r: seq<Option<Binding>>)
    ensures |r| == |ops|
  {
    if |ops| == 0 then [] else
    Answers(m, ops[..|ops| - 1]) + [Answer(ApplyAll(m, ops[..|ops| - 1]), ops[|ops| - 1])]
  }

  predicate NamesGiven(op: Op) {
    match op
    case Setting(name, _) => |name| > 0
    case Deleting(name) => |name| > 0
    case Finding(name) => |name| > 0
    case Resetting => true
    case Cloning => true
  }

  function AfterAll(f: Fields, repaired: bool, ops: seq<Op>): Fields
    requires Sound(f)
    ensures Sound(AfterAll(f, repaired, ops))
  {
    if |ops| == 0 then f else
    var g := AfterAll(f, repaired, ops[..|ops| - 1]);
    StepIsSound(g, repaired, ops[|ops| - 1]);
    After(g, repaired, ops[|ops| - 1])
  }

  function Replies(f: Fields, repaired: bool, ops: seq<Op>): (r: seq<Option<Binding>>)
    requires Sound(f)
    ensures |r| == |ops|
  {
    if |ops| == 0 then [] else
    var front := ops[..|ops| - 1];
    Replies(f, repaired, front) + [Reply(AfterAll(f, repaired, front), ops[|ops| - 1])]
  }

  // Every Set of the run that outgrows its table does so safely.
  predicate SafeRun(f: Fields, repaired: bool, ops: seq<Op>)
    requires Sound(f)
  {
    |ops| == 0 ||
    (var front := ops[..|ops| - 1];
     SafeRun(f, repaired, front)
     && (ops[|ops| - 1].Setting? ==> GrowsSafely(AfterAll(f, repaired, front), repaired)))
  }

  // On every run, as written too, the load stays at most three quarters, so a
  // probe always meets an empty slot or a match.
  lemma StepIsSound(f: Fields, repaired: bool, op: Op)
    requires Sound(f)
    ensures Sound(After(f, repaired, op))
    ensures op.Setting? ==> var g := Grown(f, repaired); |g.t| > 0 && Search(g.t, |g.t|, op.name, HashStr(op.name), 0, None).Some?
  {
    hide Sound;
    hide HashStr;
    hide Search;
    hide Grown;
    hide Stored;
    hide Removed;
    Parts(f);
    match op
    case Setting(name, info) =>
      GrownIsSound(f, repaired);
      StoredIsSound(Grown(f, repaired), name, info);
    case Deleting(name) => RemovedIsSound(f, name);
    case Finding(_) =>
    case Resetting => BlankIsFaithful(f.cap);
    case Cloning =>
      CopyIsSound(f, |f.t|);
      assert f.t[..|f.t|] == f.t;
  }

  // In numbers: of four slots at most three are used, and a Set doubles the table
  // exactly when one more would be too many.
  lemma LoadInNumbers(f: Fields, repaired: bool, op: Op)
    requires Sound(f)
    ensures 4 * f.count <= 3 * f.cap && 4 * After(f, repaired, op).count <= 3 * After(f, repaired, op).cap
    ensures After(f, repaired, op).cap == if op.Setting? && 4 * (f.count + 1) > 3 * f.cap then 2 * f.cap else f.cap
  {
    StepIsSound(f, repaired, op);
    InNumbers(f);
    InNumbers(After(f, repaired, op));
    hide Sound;
    hide Stored;
    hide Removed;
    hide CopyOf;
    if op.Setting? { StoredKeepsCap(Grown(f, repaired), op.name, op.info); }
  }

  lemma InNumbers(f: Fields)
    requires Sound(f)
    ensures f.cap > 0 && |f.t| == f.cap && 4 * f.count <= 3 * f.cap
    ensures Exceeds(f.cap, f.count) <==> 4 * (f.count + 1) > 3 * f.cap
  {
    hide Hashed;
    hide Named;
    hide IsPow2;
    hide Tally;
  }

  lemma StoredKeepsCap(f: Fields, name: seq<u8>, info: Info)
    requires |f.t| > 0
    ensures Stored(f, name, info).cap == f.cap
  {
    hide Put;
    hide Search;
  }

  lemma StepIsMap(f: Fields, repaired: bool, op: Op)
    requires Sound(f) && Faithful(f) && NamesGiven(op) && (op.Setting? ==> GrowsSafely(f, repaired))
    ensures Faithful(After(f, repaired, op)) && Reply(f, op) == Answer(Contents(f.t), op)
    ensures Contents(After(f, repaired, op).t) == Apply(Contents(f.t), op)
  {
    hide IsPow2;
    hide HashStr;
    hide Search;
    hide Grown;
    hide GrowsSafely;
    hide Removed;
    hide Lookup;
    hide Find;
    hide Contents;
    hide NoDuplicates;
    hide Reachable;
    hide Hashed;
    hide Named;
    match op
    case Setting(name, info) =>
      GrownIsSound(f, repaired);
      StoredIsFaithful(Grown(f, repaired), name, info);
    case Deleting(name) => RemovedIsFaithful(f, name);
    case Finding(name) =>
      RoomLeft(f);
      LookupAgrees(f.t, name);
    case Resetting => BlankIsFaithful(f.cap);
    case Cloning =>
      CopyIsFaithful(f, |f.t|);
      assert f.t[..|f.t|] == f.t;
  }

  // A table is a map without regard to case, over any run.
  lemma {:induction false} RunIsMap(f: Fields, repaired: bool, ops: seq<Op>)
    requires Sound(f) && Faithful(f) && SafeRun(f, repaired, ops)
    requires forall i :: 0 <= i < |ops| ==> NamesGiven(ops[i])
    ensures Faithful(AfterAll(f, repaired, ops))
    ensures Contents(AfterAll(f, repaired, ops).t) == ApplyAll(Contents(f.t), ops)
    ensures Replies(f, repaired, ops) == Answers(Contents(f.t), ops)
    decreases |ops|
  {
    hide Sound;
    hide Contents;
    hide NoDuplicates;
    hide Reachable;
    hide After;
    hide Apply;
    hide Answer;
    hide Reply;
    hide GrowsSafely;
    if |ops| > 0 {
      var front := ops[..|ops| - 1];
      RunIsMap(f, repaired, front);
      StepIsMap(AfterAll(f, repaired, front), repaired, ops[|ops| - 1]);
    }
  }

  // What the operations so far have left bound to a name: what the last of them on
  // the name, in whatever case it was spelled, bound to it.
  function LastBound(ops: seq<Op>, name: seq<u8>): Option<Binding> {
    if |ops| == 0 then None else
    var earlier := LastBound(ops[..|ops| - 1], name);
    match ops[|ops| - 1]
    case Setting(other, info) => if SameButCase(other, name) then Some(Binding(other, info)) else earlier
    case Deleting(other) => if SameButCase(other, name) then None else earlier
    case Resetting => None
    case _ => earlier
  }

  lemma {:induction false} MapIsLastBound(ops: seq<Op>, name: seq<u8>)
    ensures Find(ApplyAll(map[], ops), name) == LastBound(ops, name)
    decreases |ops|
  {
    hide Fold;
    hide SameButCase;
    if |ops| > 0 {
      var op := ops[|ops| - 1];
      MapIsLastBound(ops[..|ops| - 1], name);
      if op.Setting? || op.Deleting? { FoldIff(op.name, name); }
    }
  }

  // A new table answers every lookup, and every deletion, with what was last bound
  // to the name in any spelling.
  lemma RunAnswersLast(cap: nat, repaired: bool, ops: seq<Op>, name: seq<u8>)
    requires cap > 0 && IsPow2(cap) && |name| > 0 && forall i :: 0 <= i < |ops| ==> NamesGiven(ops[i])
    ensures Sound(Fields(Blank(cap), cap, 0))
    ensures SafeRun(Fields(Blank(cap), cap, 0), repaired, ops) ==>
              forall asked | asked == Finding(name) || asked == Deleting(name) ::
                Replies(Fields(Blank(cap), cap, 0), repaired, ops + [asked])[|ops|] == LastBound(ops, name)
  {
    var f := Fields(Blank(cap), cap, 0);
    BlankIsFaithful(cap);
    hide *;
    if SafeRun(f, repaired, ops) {
      forall asked | asked == Finding(name) || asked == Deleting(name)
        ensures Replies(f, repaired, ops + [asked])[|ops|] == LastBound(ops, name)
      {
        LastReply(f, repaired, ops, asked);
        RunIsMap(f, repaired, ops + [asked]);
        LastAnswer(Contents(f.t), ops, asked);
        MapIsLastBound(ops, name);
      }
    }
  }

  lemma LastReply(f: Fields, repaired: bool, ops: seq<Op>, asked: Op)
    requires Sound(f) && SafeRun(f, repaired, ops) && (asked.Finding? || asked.Deleting?) && |asked.name| > 0
    requires forall i :: 0 <= i < |ops| ==> NamesGiven(ops[i])
    ensures SafeRun(f, repaired, ops + [asked])
    ensures forall i :: 0 <= i < |ops + [asked]| ==> NamesGiven((ops + [asked])[i])
  {
    hide Sound;
    hide AfterAll;
    assert (ops + [asked])[..|ops|] == ops;
  }

  lemma LastAnswer(m: map<seq<u8>, Binding>, ops: seq<Op>, asked: Op)
    requires asked.Finding? || asked.Deleting?
    ensures Answers(m, ops + [asked])[|ops|] == Find(ApplyAll(m, ops), asked.name)
  {
    hide Find;
    hide ApplyAll;
    assert (ops + [asked])[..|ops|] == ops;
  }

  lemma {:induction false} RepairedRunsAreSafe(f: Fields, ops: seq<Op>)
    requires Sound(f)
    ensures SafeRun(f, true, ops)
    decreases |ops|
  {
    hide Sound;
    hide AfterAll;
    if |ops| > 0 { RepairedRunsAreSafe(f, ops[..|ops| - 1]); }
  }

  // ---- the table ---------------------------------------------------------------------------------

  class Vartab {
    var Table: array<Slot>
    var Cap: nat
    var Count: nat
    const repaired: bool

    ghost function Value(): (f: Fields)
      reads this, Table
      ensures f == Fields(Table[..], Cap, Count)
    {
      Fields(Table[..], Cap, Count)
    }

    // VartabInit: the capacity rounded up to a power of two is not the one used.
    constructor (initialCap: nat, repaired: bool)
      ensures Value() == Fields(Blank(initialCap), initialCap, 0) && fresh(Table) && this.repaired == repaired
      ensures Sound(Value()) <==> initialCap > 0 && IsPow2(initialCap)
      ensures Sound(Value()) ==> Faithful(Value()) && Contents(Table[..]) == map[]
    {
      Table := new Slot[initialCap](_ => ZERO);
      Cap, Count := initialCap, 0;
      this.repaired := repaired;
      new;
      assert Table[..] == Blank(initialCap);
      if initialCap > 0 && IsPow2(initialCap) { BlankIsFaithful(initialCap); }
    }

    // VartabReset
    method Reset()
      requires Sound(Value())
      modifies this`Count, Table
      ensures Value() == After(old(Value()), repaired, Resetting)
    {
      forall i | 0 <= i < Table.Length {
        Table[i] := ZERO;
      }
      Count := 0;
      assert Table[..] == Blank(Cap);
    }

    // VartabFindWithHash on the hash of the name
    method FindWithHash(name: seq<u8>) returns (r: Option<Binding>)
      requires Sound(Value())
      ensures r == Lookup(Table[..], name)
    {
      hide Hashed;
      hide Named;
      hide Search;
      hide HashStr;
      hide Tally;
      var hash := HashOf(name);
      var at := FindValidSlot(Table, Cap, name, hash);
      if at.None? || IsTombstoned(Table[at.value]) {
        return None;
      }
      return Some(Binding(Table[at.value].name, Table[at.value].info));
    }

    // VartabDelete
    method Delete(name: seq<u8>) returns (r: Option<Binding>)
      requires Sound(Value())
      modifies Table
      ensures Value() == After(old(Value()), repaired, Deleting(name))
      ensures r == Lookup(old(Table[..]), name)
    {
      ghost var t := Table[..];
      Parts(Value());
      hide Sound;
      hide Search;
      hide HashStr;
      var hash := HashOf(name);
      var at := FindValidSlot(Table, Cap, name, hash);
      if at.None? || IsTombstoned(Table[at.value]) {
        return None;
      }
      var i := at.value;
      r := Some(Binding(Table[i].name, Table[i].info));
      Table[i] := Table[i].(name := []);
      assert Table[..] == t[i := t[i].(name := [])];
    }

    // VartabResize
    method Resize()
      requires Sound(Value())
      modifies this
      ensures fresh(Table) && Value() == Resized(old(Value()), repaired)
    {
      hide *;
      ghost var f := Value();
      Parts(f);
      ResizedIs(f, repaired);
      var newCap := GROW_FACTOR * Cap;
      var newTable := new Slot[newCap](_ => ZERO);
      BlankArray(newTable[..], newCap);
      Count := Rebuild(newTable, if repaired then newCap else Cap);
      Table := newTable;
      Cap := newCap;
    }

    // Its loop, and the number of slots copied.
    method Rebuild(newTable: array<Slot>, probe: nat) returns (count: nat)
      requires Table.Length == Cap && newTable != Table && 0 < probe <= newTable.Length && IsPow2(probe)
      requires newTable[..] == Blank(newTable.Length)
      modifies newTable
      ensures newTable[..] == Spread(Table[..], probe, newTable.Length) && count == Tally(Table[..], IsLive())
    {
      hide Spread;
      hide Search;
      hide Tally;
      hide IsPow2;
      ghost var t := Table[..];
      SpreadEmpty(probe, newTable.Length);
      count := 0;
      for i := 0 to Cap
        invariant Table[..] == t
        invariant newTable[..] == Spread(t[..i], probe, newTable.Length)
        invariant count == Tally(t[..i], IsLive())
      {
        SpreadNext(t, i, probe, newTable.Length);
        ghost var r := newTable[..];
        if !IsTombstoned(Table[i]) {
          var at := FindValidSlot(newTable, probe, Table[i].name, Table[i].hash);
          if at.Some? {
            newTable[at.value] := Table[i];
          }
          assert newTable[..] == Copy(r, probe, t[i]);
          count := count + 1;
        }
      }
      assert t[..Cap] == t;
    }

    // VartabSet
    method Set(name: seq<u8>, info: Info)
      requires Sound(Value())
      modifies this, Table
      ensures Value() == After(old(Value()), repaired, Setting(name, info))
      ensures Table == old(Table) || fresh(Table)
    {
      SetProceeds(Value(), repaired, name, info);
      hide Sound;
      hide Search;
      hide HashStr;
      hide Resized;
      hide IsPow2;
      hide MaxLoad;
      if Exceeds(Cap, Count) {
        Resize();
      }
      ghost var t := Table[..];
      var hash := HashOf(name);
      var at := FindValidSlot(Table, Cap, name, hash);
      var i := at.value;
      if IsEmpty(Table[i]) {
        Count := Count + 1;
      }
      Table[i] := Slot(false, name, hash, info);
      assert Table[..] == t[i := Slot(false, name, hash, info)];
    }

    // VartabClone: every slot ever used is stored again, tombstones under the
    // empty name.
    method Clone() returns (c: Vartab)
      requires Sound(Value())
      ensures fresh(c) && fresh(c.Table) && Sound(c.Value()) && c.Cap == Cap && c.Count <= Count
      ensures c.Value() == After(Value(), repaired, Cloning)
      ensures Faithful(Value()) ==>
                Faithful(c.Value()) && Contents(c.Table[..]) == Contents(Table[..]) && OneTombstone(c.Table[..])
    {
      ghost var f, good := Value(), Faithful(Value());
      hide *;
      Parts(f);
      NothingCopied(f, repaired);
      c := new Vartab(Cap, repaired);
      StartsCloned(Cap);
      for i := 0 to Cap
        invariant Sound(c.Value()) && c.Cap == Cap && fresh(c) && fresh(c.Table)
        invariant Table[..] == f.t && unchanged(this)
        invariant c.Count <= Tally(f.t[..i], InUse())
        invariant c.Value() == CopyOf(f.t[..i], f.cap)
      {
        CopyIsSound(f, i);
        CopyNext(f, i);
        CloneStep(f, i, c.Value(), c.repaired);
        if !IsEmpty(Table[i]) {
          StepIsSound(c.Value(), c.repaired, Setting(f.t[i].name, f.t[i].info));
          c.Set(Table[i].name, Table[i].info);
        }
      }
      assert f.t[..Cap] == f.t;
      if good {
        CopyIsFaithful(f, Cap);
        ClonedMeans(f.t, c.Value());
      }
    }
  }

  // ---- clones -----------------------------------------------------------------------------------

  // A clone in progress: the first slots `t` are in `r`.
  predicate Cloned(t: seq<Slot>, r: Fields) {
    && Faithful(r) && NoDuplicates(t) && Contents(r.t) == Contents(t) && OneTombstone(r.t)
  }

  lemma StartsCloned(cap: nat)
    ensures Cloned([], Fields(Blank(cap), cap, 0)) && Tally([], InUse()) == 0
  {
    TallyExtremes(Blank(cap), InUse());
    assert Contents(Blank(cap)) == map[];
  }

  // Before each copy the clone is below its load limit, so it never grows.
  lemma CloneStep(f: Fields, i: nat, r: Fields, repaired: bool)
    requires Sound(f) && i < |f.t| && Sound(r) && r.cap == f.cap && r.count <= Tally(f.t[..i], InUse())
    ensures |f.t| == f.cap && |r.t| == r.cap > 0
    ensures Tally(f.t[..i + 1], InUse()) == Tally(f.t[..i], InUse()) + if IsEmpty(f.t[i]) then 0 else 1
    ensures var s := f.t[i];
            !IsEmpty(s) ==> After(r, repaired, Setting(s.name, s.info)) == Stored(r, s.name, s.info)
                            && r.count < MaxLoad(r.cap)
                            && Stored(r, s.name, s.info).cap == r.cap && Stored(r, s.name, s.info).count <= r.count + 1
  {
    hide Hashed;
    hide Named;
    hide Put;
    hide Search;
    hide HashStr;
    hide IsPow2;
    assert f.t[..i + 1][..i] == f.t[..i];
    FirstPart(f.t, i + 1, InUse());
  }

  lemma CloneCopies(f: Fields, i: nat, r: Fields)
    requires Sound(f) && i < |f.t| && Sound(r) && Faithful(f) && Cloned(f.t[..i], r)
    requires !IsEmpty(f.t[i]) ==> r.count < MaxLoad(r.cap)
    ensures var s := f.t[i]; Cloned(f.t[..i + 1], if IsEmpty(s) then r else Stored(r, s.name, s.info))
  {
    var s := f.t[i];
    Parts(f);
    Parts(r);
    PrefixOk(f.t, i);
    RoomLeft(r);
    hide Hashed;
    hide Named;
    hide HasEmpty;
    hide Put;
    hide Search;
    hide HashStr;
    hide IsPow2;
    hide NoDuplicates;
    hide Reachable;
    hide Contents;
    hide OneTombstone;
    hide Tally;
    hide MaxLoad;
    if !IsEmpty(s) { StoredIsSound(r, s.name, s.info); }
    if Live(s) {
      PutBinds(r.t, s.name, s.info);
      PutKeepsOneTombstone(r.t, s.name, s.info);
    } else if !IsEmpty(s) {
      assert s.name == [];
      PutTombstone(r.t, s.info);
    }
  }

  lemma ResizedIs(f: Fields, repaired: bool)
    requires f.cap > 0 && IsPow2(f.cap)
    ensures var cap := GROW_FACTOR * f.cap;
            && cap >= f.cap && IsPow2(cap)
            && Resized(f, repaired) == Fields(Spread(f.t, if repaired then cap else f.cap, cap), cap, Tally(f.t, IsLive()))
  {
    hide Spread;
    hide Tally;
  }

  lemma BlankArray(t: seq<Slot>, cap: nat)
    requires |t| == cap && forall i :: 0 <= i < cap ==> t[i] == ZERO
    ensures t == Blank(cap)
  {
  }

  lemma CopyNext(f: Fields, i: nat)
    requires i < |f.t| && f.cap > 0
    ensures var r, s := CopyOf(f.t[..i], f.cap), f.t[i];
            CopyOf(f.t[..i + 1], f.cap) == if IsEmpty(s) then r else Stored(r, s.name, s.info)
  {
    hide Stored;
    assert f.t[..i + 1][..i] == f.t[..i];
  }

  lemma NothingCopied(f: Fields, repaired: bool)
    requires |f.t| == f.cap > 0
    ensures CopyOf(f.t[..0], f.cap) == Fields(Blank(f.cap), f.cap, 0) && CopyOf(f.t, f.cap) == After(f, repaired, Cloning)
  {
  }

  lemma ClonedMeans(t: seq<Slot>, r: Fields)
    requires Cloned(t, r)
    ensures Faithful(r) && NoDuplicates(t) && Contents(r.t) == Contents(t) && OneTombstone(r.t)
  {
  }

  lemma {:induction false} CopyIsSound(f: Fields, i: nat)
    requires Sound(f) && i <= |f.t|
    ensures f.cap > 0
    ensures var r := CopyOf(f.t[..i], f.cap);
            Sound(r) && r.cap == f.cap && r.count <= Tally(f.t[..i], InUse())
    decreases i
  {
    hide *;
    Parts(f);
    if i == 0 {
      NothingCopied(f, false);
      BlankIsFaithful(f.cap);
      StartsCloned(f.cap);
      assert f.t[..0] == [];
    } else {
      var r, s := CopyOf(f.t[..i - 1], f.cap), f.t[i - 1];
      CopyIsSound(f, i - 1);
      CopyNext(f, i - 1);
      CloneStep(f, i - 1, r, false);
      if !IsEmpty(s) {
        RoomToStore(r);
        StoredIsSound(r, s.name, s.info);
      }
    }
  }

  lemma RoomToStore(f: Fields)
    requires Sound(f)
    ensures |f.t| == f.cap > 0 && IsPow2(f.cap) && Hashed(f.t) && Named(f.t) && HasEmpty(f.t) && Tally(f.t, InUse()) <= f.count
  {
    RoomLeft(f);
  }

  lemma {:induction false} CopyIsFaithful(f: Fields, i: nat)
    requires Sound(f) && Faithful(f) && i <= |f.t|
    ensures f.cap > 0 && Cloned(f.t[..i], CopyOf(f.t[..i], f.cap))
    decreases i
  {
    hide *;
    Parts(f);
    if i == 0 {
      NothingCopied(f, false);
      StartsCloned(f.cap);
      assert f.t[..0] == [];
    } else {
      var r := CopyOf(f.t[..i - 1], f.cap);
      CopyIsFaithful(f, i - 1);
      CopyIsSound(f, i - 1);
      CopyNext(f, i - 1);
      CloneStep(f, i - 1, r, false);
      CloneCopies(f, i - 1, r);
    }
  }

  // What the slots up to `i` stand for, with and without slot `i`.
  lemma PrefixOk(t: seq<Slot>, i: nat)
    requires NoDuplicates(t) && Hashed(t) && Named(t) && i < |t|
    ensures var front, next := t[..i], t[..i + 1];
            && NoDuplicates(front) && NoDuplicates(next)
            && (Live(t[i]) ==> Fold(t[i].name) !in Contents(front))
            && Contents(next) == if Live(t[i]) then Contents(front)[Fold(t[i].name) := Bound(t[i])] else Contents(front)
  {
    var next := t[..i + 1];
    assert next[..i] == t[..i] && next[i] == t[i];
    PrefixShape(t, i + 1);
    hide Hashed;
    hide Named;
    hide NoDuplicates;
    hide Contents;
    FrontOk(next);
  }

  lemma PrefixShape(t: seq<Slot>, n: nat)
    requires NoDuplicates(t) && Hashed(t) && Named(t) && n <= |t|
    ensures NoDuplicates(t[..n]) && Hashed(t[..n]) && Named(t[..n])
  {
    hide Fold;
    hide HashStr;
  }

  lemma SpreadEmpty(probe: nat, size: nat)
    requires 0 < probe <= size
    ensures Spread([], probe, size) == Blank(size) && Tally([], IsLive()) == 0
  {
  }

  lemma SpreadNext(t: seq<Slot>, i: nat, probe: nat, size: nat)
    requires i < |t| && 0 < probe <= size
    ensures var r := Spread(t[..i], probe, size);
            Spread(t[..i + 1], probe, size) == (if Live(t[i]) then Copy(r, probe, t[i]) else r)
    ensures Tally(t[..i + 1], IsLive()) == Tally(t[..i], IsLive()) + if Live(t[i]) then 1 else 0
  {
    hide Copy;
    assert t[..i + 1][..i] == t[..i];
  }
}
