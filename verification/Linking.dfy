// Subroutine references: recorded while code is emitted, resolved at the end.
// src/Compiler/Data.c, src/Compiler/Emitter.c, src/Compiler/VarList.c
module Linking {
  import opened Words
  import opened Isa
  import opened Codec
  import opened Machine
  import opened Chunks
  import opened Backpatch
  import opened Patching

  // A CALL, or an LDRIP of a 32-bit offset, referring to subroutine `sub`.
  datatype Reference = Reference(at: int, i: Instr, sub: nat)

  predicate IsReference(i: Instr) {
    (i.Branch? && i.op == CALL) || (i.Immediate? && i.op == LDRIP && i.ty == IMM_I32)
  }

  // SUBROUTINE_INVALID_LOCATION until the subroutine has a body
  const INVALID_LOCATION := 0xFFFF_FFFF

  function Where(locations: map<nat, int>, sub: nat): int {
    if sub in locations then locations[sub] else INVALID_LOCATION
  }

  // The instruction at a reference once it is resolved.
  function Resolved(f: Reference, locations: map<nat, int>): Instr
    requires IsReference(f.i) && IsSite(f.i)
  {
    Retarget(f.i, Where(locations, f.sub) - f.at - Size(f.i))
  }

  // ResolveSubroutineReferences
  function Link(code: seq<u16>, refs: seq<Reference>, locations: map<nat, int>): (r: seq<u16>)
    ensures |r| == |code|
  {
    if |refs| == 0 then code else
    var r := Link(code, refs[..|refs| - 1], locations);
    var f := refs[|refs| - 1];
    if Site(r, f.at) then Patch(r, f.at, Where(locations, f.sub)) else r
  }

  // Every reference is a distinct instruction of the code.
  predicate RecordedAt(code: seq<u16>, f: Reference) {
    IsReference(f.i) && IsSite(f.i) && Placed(code, f.at, Encode(f.i))
  }

  predicate Recorded(code: seq<u16>, refs: seq<Reference>) {
    && (forall k :: 0 <= k < |refs| ==> RecordedAt(code, refs[k]))
    && (forall j, k :: 0 <= j < k < |refs| ==> refs[j].at + Size(refs[j].i) <= refs[k].at)
  }

  predicate InReference(refs: seq<Reference>, w: int) {
    exists k :: 0 <= k < |refs| && refs[k].at <= w < refs[k].at + Size(refs[k].i)
  }

  lemma OneResolved(code: seq<u16>, f: Reference, locations: map<nat, int>)
    requires RecordedAt(code, f)
    ensures Site(code, f.at)
    ensures var r := Patch(code, f.at, Where(locations, f.sub));
            && Placed(r, f.at, Encode(Resolved(f, locations)))
            && Unchanged(code, r, f.at, f.at + Size(f.i))
  {
    hide Encode;
    hide Site;
    hide Patch;
    PatchRetargets(code, f.at, Where(locations, f.sub), f.i);
  }

  lemma StillRecorded(code: seq<u16>, r: seq<u16>, lo: int, hi: int, at: int, ws: seq<u16>)
    requires Unchanged(code, r, lo, hi) && Placed(code, at, ws) && (at + |ws| <= lo || hi <= at)
    ensures Placed(r, at, ws)
  {
    Keep(code, r, lo, hi, at, ws);
  }

  // After the first `n` references: those are resolved, the others and all other
  // words are as before.
  lemma {:induction false} LinkPrefix(code: seq<u16>, refs: seq<Reference>, n: nat, locations: map<nat, int>)
    requires Recorded(code, refs) && n <= |refs|
    ensures var r := Link(code, refs[..n], locations);
            && (forall k :: 0 <= k < n ==> Placed(r, refs[k].at, Encode(Resolved(refs[k], locations))))
            && (forall k :: 0 <= k < n && refs[k].sub in locations ==>
                  Placed(r, refs[k].at, Encode(Retarget(refs[k].i, locations[refs[k].sub] - refs[k].at - Size(refs[k].i)))))
            && (forall k :: n <= k < |refs| ==> RecordedAt(r, refs[k]))
            && (forall w :: 0 <= w < |code| && !InReference(refs, w) ==> r[w] == code[w])
    decreases n
  {
    hide Patch;
    hide Site;
    hide Encode;
    hide Placed;
    if n == 0 {
      assert refs[..0] == [];
    } else {
      LinkPrefix(code, refs, n - 1, locations);
      var f := refs[n - 1];
      assert refs[..n][..n - 1] == refs[..n - 1];
      var r := Link(code, refs[..n - 1], locations);
      assert RecordedAt(r, f);
      OneResolved(r, f, locations);
      var r' := Link(code, refs[..n], locations);
      assert r' == Patch(r, f.at, Where(locations, f.sub));
      hide Link;
      var hi := f.at + Size(f.i);
      forall k | 0 <= k < n
        ensures Placed(r', refs[k].at, Encode(Resolved(refs[k], locations)))
      {
        if k < n - 1 {
          StillRecorded(r, r', f.at, hi, refs[k].at, Encode(Resolved(refs[k], locations)));
        }
      }
      forall k | n <= k < |refs|
        ensures RecordedAt(r', refs[k])
      {
        assert RecordedAt(r, refs[k]);
        StillRecorded(r, r', f.at, hi, refs[k].at, Encode(refs[k].i));
      }
      forall w | 0 <= w < |code| && !InReference(refs, w)
        ensures r'[w] == code[w]
      {
        assert !(f.at <= w < hi);
      }
    }
  }

  lemma AtIsNat(code: seq<u16>, at: int)
    requires Site(code, at)
    ensures at >= 0
  {
  }

  lemma NothingLinked(code: seq<u16>, locations: map<nat, int>)
    ensures Link(code, [], locations) == code
  {
  }

  // The next reference to resolve is still as it was recorded.
  lemma NextReference(code: seq<u16>, refs: seq<Reference>, i: nat, locations: map<nat, int>)
    requires Recorded(code, refs) && i < |refs|
    ensures var r := Link(code, refs[..i], locations);
            Site(r, refs[i].at) && Link(code, refs[..i + 1], locations) == Patch(r, refs[i].at, Where(locations, refs[i].sub))
  {
    hide Encode;
    hide Patch;
    hide Site;
    hide Placed;
    LinkPrefix(code, refs, i, locations);
    var r := Link(code, refs[..i], locations);
    assert RecordedAt(r, refs[i]);
    OneResolved(r, refs[i], locations);
    assert refs[..i + 1][..i] == refs[..i];
  }

  // Linking is exact: each reference decodes to the same instruction on the same
  // register, transferring to, or loading the address of, the body its subroutine
  // was given, exactly when the distance fits its field; no other word changes.
  lemma LinkingIsExact(code: seq<u16>, refs: seq<Reference>, locations: map<nat, int>, k: nat)
    requires Recorded(code, refs) && k < |refs| && refs[k].sub in locations
    ensures var r := Link(code, refs, locations);
            var f := refs[k];
            var a := locations[f.sub];
            if f.i.Branch? then
              var j := Branch(CALL, a - f.at - 2);
              Target(j, f.at) == a && (Decode(r, f.at) == Some((j, f.at + 2)) <==> Fits24(a - f.at - 2))
            else
              var j := Immediate(LDRIP, f.i.rd, IMM_I32, a - f.at - 3);
              Target(j, f.at) == a && (Decode(r, f.at) == Some((j, f.at + 3)) <==> Fits32(a - f.at - 3))
    ensures forall w :: 0 <= w < |code| && !InReference(refs, w) ==> Link(code, refs, locations)[w] == code[w]
  {
    hide *;
    assert refs[..|refs|] == refs;
    LinkPrefix(code, refs, |refs|, locations);
    var f := refs[k];
    RecordedThere(code, refs, k);
    ResolvedIs(f, locations);
    var j, r := Resolved(f, locations), Link(code, refs, locations);
    if j.Immediate? {
      DecodeImmediate(r, f.at, j);
    } else {
      DecodeBranch(r, f.at, j);
    }
  }

  lemma RecordedThere(code: seq<u16>, refs: seq<Reference>, k: nat)
    requires Recorded(code, refs) && k < |refs|
    ensures IsReference(refs[k].i) && IsSite(refs[k].i) && Placed(code, refs[k].at, Encode(refs[k].i))
  {
    hide Encode;
    hide Placed;
    assert RecordedAt(code, refs[k]);
  }

  lemma ResolvedIs(f: Reference, locations: map<nat, int>)
    requires IsReference(f.i) && IsSite(f.i) && f.sub in locations
    ensures var a, j := locations[f.sub], Resolved(f, locations);
            && Target(j, f.at) == a && (j.Branch? <==> f.i.Branch?) && (j.Branch? || j.Immediate?)
            && (j.Branch? ==> j == Branch(CALL, a - f.at - 2) && Size(j) == 2 && OpcodeOk(j) && (OperandsFit(j) <==> Fits24(a - f.at - 2)))
            && (j.Immediate? ==> j == Immediate(LDRIP, f.i.rd, IMM_I32, a - f.at - 3) && Size(j) == 3
                                 && OpcodeOk(j) && ImmType(j.ty) && (OperandsFit(j) <==> Fits32(a - f.at - 3)))
            && (f.i.Branch? ==> Target(Branch(CALL, a - f.at - 2), f.at) == a)
            && (f.i.Immediate? ==> Target(Immediate(LDRIP, f.i.rd, IMM_I32, a - f.at - 3), f.at) == a)
  {
  }

  // A subroutine that got no body is at no address that a call could reach from code
  // of less than 2^31 words: its references are aimed at 2^32 - 1, and a call does
  // not get there.
  lemma UndefinedIsNotReached(code: seq<u16>, refs: seq<Reference>, locations: map<nat, int>, k: nat)
    requires Recorded(code, refs) && k < |refs| && refs[k].sub !in locations && |code| < 0x8000_0000
    ensures var f := refs[k];
            && Target(Resolved(f, locations), f.at) == 0x1_0000_0000 - 1
            && (f.i.Branch? ==> Decode(Link(code, refs, locations), f.at) != Some((Resolved(f, locations), f.at + 2)))
  {
    hide *;
    assert refs[..|refs|] == refs;
    LinkPrefix(code, refs, |refs|, locations);
    RecordedThere(code, refs, k);
    UndefinedIs(code, refs[k], locations);
    if refs[k].i.Branch? { DecodeBranch(Link(code, refs, locations), refs[k].at, Resolved(refs[k], locations)); }
  }

  lemma UndefinedIs(code: seq<u16>, f: Reference, locations: map<nat, int>)
    requires IsReference(f.i) && IsSite(f.i) && f.sub !in locations && Placed(code, f.at, Encode(f.i)) && |code| < 0x8000_0000
    ensures var j := Resolved(f, locations);
            && Target(j, f.at) == 0x1_0000_0000 - 1
            && (f.i.Branch? ==> j.Branch? && j.op == CALL && OpcodeOk(j) && Size(j) == 2 && !OperandsFit(j))
  {
    hide Encode;
  }

  // ---- from the first reference to the last body --------------------------------------------

  // What is done while a program is compiled, as far as references go.
  datatype Op =
    | Calling(sub: nat)
    | Loading(rd: reg, sub: nat)
    | Writing(ws: seq<u16>)
    // A body starts here.
    | Defining(sub: nat)

  datatype Record = Record(code: seq<u16>, refs: seq<Reference>, locations: map<nat, int>)

  function Do(r: Record, op: Op): Record {
    var at := |r.code|;
    match op
    case Calling(sub) => Noting(r, Reference(at, Branch(CALL, 0 - at - 2), sub))
    case Loading(rd, sub) => Noting(r, Reference(at, Immediate(LDRIP, rd, IMM_I32, 0 - at - 3), sub))
    case Writing(ws) => r.(code := r.code + ws)
    case Defining(sub) => r.(locations := r.locations[sub := at])
  }

  function Noting(r: Record, f: Reference): Record {
    r.(code := r.code + Encode(f.i), refs := r.refs + [f])
  }

  function DoAll(ops: seq<Op>): Record {
    if |ops| == 0 then Record([], [], map[]) else Do(DoAll(ops[..|ops| - 1]), ops[|ops| - 1])
  }

  predicate Complete(r: Record) {
    && Recorded(r.code, r.refs)
    && forall k :: 0 <= k < |r.refs| ==> r.refs[k].at + Size(r.refs[k].i) <= |r.code|
  }

  lemma {:induction false} AllComplete(ops: seq<Op>)
    ensures Complete(DoAll(ops))
    decreases |ops|
  {
    if |ops| > 0 {
      AllComplete(ops[..|ops| - 1]);
      StaysComplete(DoAll(ops[..|ops| - 1]), ops[|ops| - 1]);
    }
  }

  lemma StaysComplete(r: Record, op: Op)
    requires Complete(r)
    ensures Complete(Do(r, op))
  {
    hide Encode;
    hide RecordedAt;
    match op
    case Calling(sub) => NotesReference(r, Reference(|r.code|, Branch(CALL, 0 - |r.code| - 2), sub));
    case Loading(rd, sub) => NotesReference(r, Reference(|r.code|, Immediate(LDRIP, rd, IMM_I32, 0 - |r.code| - 3), sub));
    case Writing(ws) => AppendKeeps(r.code, ws, r.refs);
    case Defining(_) =>
  }

  lemma NotesReference(r: Record, f: Reference)
    requires Complete(r) && f.at == |r.code| && IsReference(f.i) && IsSite(f.i)
    ensures Complete(Noting(r, f))
  {
    hide Encode;
    AppendKeeps(r.code, Encode(f.i), r.refs);
    AddKeeps(r.code, r.code + Encode(f.i), r.refs, f);
  }

  // References and code only grow.
  lemma {:induction false} Grows(ops: seq<Op>, n: nat)
    requires n <= |ops|
    ensures DoAll(ops[..n]).refs <= DoAll(ops).refs && DoAll(ops[..n]).code <= DoAll(ops).code
    decreases |ops|
  {
    hide Encode;
    if n == |ops| {
      assert ops[..n] == ops;
    } else {
      var front := ops[..|ops| - 1];
      Grows(front, n);
      assert front[..n] == ops[..n];
    }
  }

  // Where the last body of a subroutine starts.
  function BodyOf(ops: seq<Op>, sub: nat): Option<nat> {
    if |ops| == 0 then None
    else if ops[|ops| - 1] == Defining(sub) then Some(|DoAll(ops[..|ops| - 1]).code|)
    else BodyOf(ops[..|ops| - 1], sub)
  }

  lemma {:induction false} BodyIsLocated(ops: seq<Op>, sub: nat)
    ensures BodyOf(ops, sub).None? <==> sub !in DoAll(ops).locations
    ensures BodyOf(ops, sub).Some? ==> DoAll(ops).locations[sub] == BodyOf(ops, sub).value
    decreases |ops|
  {
    hide Encode;
    if |ops| > 0 { BodyIsLocated(ops[..|ops| - 1], sub); }
  }

  // Whatever is written in between, and whether the body comes before the call or
  // behind it: once resolved, a call transfers to the body of its subroutine
  // exactly when the distance fits 24 bits, and a load loads its address exactly
  // when it fits 32.
  lemma ReferencesReachBodies(ops: seq<Op>, k: nat, sub: nat)
    requires k < |ops| && (ops[k] == Calling(sub) || (ops[k].Loading? && ops[k].sub == sub)) && BodyOf(ops, sub).Some?
    ensures var r := DoAll(ops);
            var linked := Link(r.code, r.refs, r.locations);
            var site, a: int := |DoAll(ops[..k]).code|, BodyOf(ops, sub).value;
            if ops[k].Calling? then
              Decode(linked, site) == Some((Branch(CALL, a - (site + 2)), site + 2)) <==> Fits24(a - (site + 2))
            else
              Decode(linked, site) == Some((Immediate(LDRIP, ops[k].rd, IMM_I32, a - (site + 3)), site + 3)) <==> Fits32(a - (site + 3))
  {
    hide *;
    var r, before := DoAll(ops), DoAll(ops[..k]);
    CompleteMeans(ops);
    BodyIsLocated(ops, sub);
    Grows(ops, k + 1);
    NotedBy(ops, k);
    var i := |before.refs|;
    assert DoAll(ops[..k + 1]).refs[i] == r.refs[i];
    LinkingIsExact(r.code, r.refs, r.locations, i);
  }

  lemma CompleteMeans(ops: seq<Op>)
    ensures Recorded(DoAll(ops).code, DoAll(ops).refs)
  {
    AllComplete(ops);
    hide Recorded;
    hide DoAll;
  }

  lemma NotedBy(ops: seq<Op>, k: nat)
    requires k < |ops| && (ops[k].Calling? || ops[k].Loading?)
    ensures var before := DoAll(ops[..k]);
            var at := |before.code|;
            DoAll(ops[..k + 1]).refs == before.refs + [Reference(at, if ops[k].Calling? then Branch(CALL, 0 - at - 2)
                                                                     else Immediate(LDRIP, ops[k].rd, IMM_I32, 0 - at - 3), ops[k].sub)]
  {
    hide Encode;
    assert ops[..k + 1][..k] == ops[..k];
  }

  // Executed, such a call goes there.
  lemma LinkedCallArrives(ops: seq<Op>, k: nat, sub: nat, d: Data)
    requires k < |ops| && ops[k] == Calling(sub) && BodyOf(ops, sub).Some? && d.left > 0
    requires Fits24(BodyOf(ops, sub).value - (|DoAll(ops[..k]).code| + 2))
    ensures var r := DoAll(ops);
            var to := Step(Link(r.code, r.refs, r.locations), VM(|DoAll(ops[..k]).code|, d));
            to.Some? && to.value.ip == BodyOf(ops, sub).value
  {
    hide Decode;
    hide Link;
    hide DoAll;
    hide BodyOf;
    ReferencesReachBodies(ops, k, sub);
  }

  // A call compiled, its subroutine's body behind it.
  lemma CallThenBody(sub: nat, ws: seq<u16>, k: nat)
    requires k == |ws| && Fits24(k)
    ensures var r := DoAll([Calling(sub), Writing(ws), Defining(sub)]);
            Decode(Link(r.code, r.refs, r.locations), 0) == Some((Branch(CALL, k), 2))
  {
    hide Decode;
    hide Link;
    var ops := [Calling(sub), Writing(ws), Defining(sub)];
    assert ops[..0] == [] && ops[..1][..0] == [] && ops[..2][..1] == ops[..1] && ops[..3][..2] == ops[..2] && ops[..3] == ops;
    ReferencesReachBodies(ops, 0, sub);
    assert |DoAll(ops[..1]).code| == 2;
    assert BodyOf(ops, sub) == Some(|DoAll(ops[..2]).code|);
  }

  // ---- the compiler's record -----------------------------------------------------------

  class SubroutineReferences {
    const chunk: Chunk
    var References: seq<Reference>
    var Locations: map<nat, int>

    ghost function Value(): (r: Record)
      reads this, chunk
      ensures r == Record(chunk.Code, References, Locations)
    {
      Record(chunk.Code, References, Locations)
    }

    ghost predicate Valid()
      reads this, chunk
    {
      Complete(Value())
    }

    constructor (chunk: Chunk)
      ensures Valid() && this.chunk == chunk && References == [] && Locations == map[]
    {
      this.chunk := chunk;
      References, Locations := [], map[];
    }

    // Any other words written in between.
    method Write(ws: seq<u16>)
      requires Valid()
      modifies chunk`Code
      ensures Valid() && Value() == Do(old(Value()), Writing(ws))
    {
      ghost var before := chunk.Code;
      for i := 0 to |ws|
        invariant chunk.Code == before + ws[..i]
      {
        var _ := chunk.WriteCode(ws[i]);
        assert ws[..i + 1] == ws[..i] + [ws[i]];
      }
      assert ws[..|ws|] == ws;
      AppendKeeps(before, ws, References);
    }

    // CompilerEmitCall of a plain subroutine: PVMEmitCall to 0, recorded.
    method EmitCall(sub: nat)
      requires Valid()
      modifies this`References, chunk`Code
      ensures Valid() && Value() == Do(old(Value()), Calling(sub))
    {
      var site := |chunk.Code|;
      PushReference(Branch(CALL, 0 - site - 2), sub);
    }

    // PVMEmitLoadSubroutineAddr of 0, recorded.
    method EmitLoadAddress(rd: reg, sub: nat)
      requires Valid()
      modifies this`References, chunk`Code
      ensures Valid() && Value() == Do(old(Value()), Loading(rd, sub))
    {
      var site := |chunk.Code|;
      PushReference(Immediate(LDRIP, rd, IMM_I32, 0 - site - 3), sub);
    }

    // PushSubroutineReference, behind the instruction's words
    method PushReference(i: Instr, sub: nat)
      requires Valid() && IsReference(i) && IsSite(i)
      modifies this`References, chunk`Code
      ensures Valid() && Value() == Noting(old(Value()), Reference(old(|chunk.Code|), i, sub))
    {
      ghost var before, refs := chunk.Code, References;
      var f := Reference(|chunk.Code|, i, sub);
      Write(Encode(i));
      References := References + [f];
      hide Encode;
      hide Placed;
      AddKeeps(before, chunk.Code, refs, f);
    }

    // ResolveSubroutineReferences
    method Resolve()
      requires Valid()
      modifies this`References, chunk`Code
      ensures chunk.Code == Link(old(chunk.Code), old(References), Locations) && References == []
    {
      hide *;
      ghost var before, recorded := chunk.Code, References;
      NothingLinked(before, Locations);
      NowRecorded();
      for i := 0 to |References|
        invariant References == recorded && Recorded(before, recorded)
        invariant chunk.Code == Link(before, References[..i], Locations)
      {
        NextReference(before, References, i, Locations);
        AtIsNat(chunk.Code, References[i].at);
        PatchBranch(chunk, References[i].at, Where(Locations, References[i].sub));
      }
      assert References[..|References|] == References;
      References := [];
    }

    lemma NowRecorded()
      requires Valid()
      ensures Recorded(chunk.Code, References)
    {
    }

    // CompileSubroutineBlock: a body starts here.
    method Define(sub: nat)
      requires Valid()
      modifies this`Locations
      ensures Valid() && Value() == Do(old(Value()), Defining(sub))
    {
      Locations := Locations[sub := |chunk.Code|];
    }
  }

  lemma AppendKeeps(code: seq<u16>, ws: seq<u16>, refs: seq<Reference>)
    requires Recorded(code, refs)
    requires forall k :: 0 <= k < |refs| ==> refs[k].at + Size(refs[k].i) <= |code|
    ensures Recorded(code + ws, refs)
  {
    hide Encode;
    forall k | 0 <= k < |refs|
      ensures RecordedAt(code + ws, refs[k])
    {
      var f := refs[k];
      assert RecordedAt(code, f);
      assert (code + ws)[f.at..f.at + |Encode(f.i)|] == code[f.at..f.at + |Encode(f.i)|];
    }
  }

  lemma AddKeeps(code: seq<u16>, code': seq<u16>, refs: seq<Reference>, f: Reference)
    requires Recorded(code', refs) && code' == code + Encode(f.i) && f.at == |code| && IsReference(f.i) && IsSite(f.i)
    requires forall k :: 0 <= k < |refs| ==> refs[k].at + Size(refs[k].i) <= |code|
    ensures Recorded(code', refs + [f])
    ensures forall k :: 0 <= k < |refs + [f]| ==> (refs + [f])[k].at + Size((refs + [f])[k].i) <= |code'|
  {
    hide Encode;
    var all := refs + [f];
    forall k | 0 <= k < |all|
      ensures RecordedAt(code', all[k])
    {
      if k < |refs| { assert RecordedAt(code', refs[k]); }
    }
  }
}
