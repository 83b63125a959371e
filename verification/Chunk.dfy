// The code chunk: growing code words, and the line table searched by address.
// src/PVM/Chunk.c
module Chunks {
  import opened Words
  import opened Isa
  import opened Codec

  datatype Source = Source(text: nat, len: nat, line: nat)

  // Up to eight source ranges that map to one instruction address.
  datatype LineInfo = LineInfo(offset: nat, sources: seq<Source>)

  const MAX_SOURCES := 8

  // Entries are strictly increasing and none is behind the end of the code.
  predicate Sorted(debug: seq<LineInfo>, count: nat) {
    (forall i, j :: 0 <= i < j < |debug| ==> debug[i].offset < debug[j].offset)
    && (forall i :: 0 <= i < |debug| ==> debug[i].offset <= count)
  }

  // The linear search: the last entry not beyond `off`, or the first entry.
  predicate IsFloor(debug: seq<LineInfo>, off: nat, i: nat) {
    && i < |debug|
    && (debug[i].offset <= off || i == 0)
    && (forall k :: i < k < |debug| ==> debug[k].offset > off)
  }

  lemma FloorUnique(debug: seq<LineInfo>, off: nat, i: nat, j: nat)
    requires IsFloor(debug, off, i) && IsFloor(debug, off, j)
    ensures i == j
  {
  }

  function Noted(debug: seq<LineInfo>, at: nat, src: Source): seq<LineInfo> {
    var n := |debug|;
    if n > 0 && debug[n - 1].offset == at then
      var s := debug[n - 1].sources;
      debug[n - 1 := LineInfo(at, if |s| < MAX_SOURCES then s + [src] else s[|s| - 1 := src])]
    else debug + [LineInfo(at, [src])]
  }

  lemma NotedSorted(debug: seq<LineInfo>, at: nat, src: Source)
    requires Sorted(debug, at)
    ensures Sorted(Noted(debug, at, src), at)
    ensures exists i :: 0 <= i < |Noted(debug, at, src)| && Noted(debug, at, src)[i].offset == at
  {
    var r := Noted(debug, at, src);
    assert r[|r| - 1].offset == at;
  }

  // What is looked up at the current address is what was noted last; looked up
  // anywhere in front of it, what was found before.
  lemma NotedIsFound(debug: seq<LineInfo>, at: nat, src: Source, off: nat, i: nat)
    requires Sorted(debug, at) && off <= at && IsFloor(Noted(debug, at, src), off, i)
    ensures off == at ==> Noted(debug, at, src)[i].offset == at && src in Noted(debug, at, src)[i].sources
    ensures off < at && |debug| > 0 && debug[0].offset <= off ==> IsFloor(debug, off, i) && Noted(debug, at, src)[i] == debug[i]
  {
    var r := Noted(debug, at, src);
    assert r[|r| - 1].offset == at;
    assert r[|r| - 1].sources[|r[|r| - 1].sources| - 1] == src;
    if off < at && |debug| > 0 && debug[0].offset <= off {
      assert forall k :: 0 <= k < |debug| ==> r[k].offset == debug[k].offset;
      assert r[0].offset <= off && i != |r| - 1;
    }
  }

  // Sources noted at one address stay in order, the last of eight giving way.
  lemma NotedSources(debug: seq<LineInfo>, at: nat, src: Source)
    ensures var r := Noted(debug, at, src);
            && |debug| <= |r| <= |debug| + 1 && (forall k :: 0 <= k < |r| - 1 ==> r[k] == debug[k])
            && (|r| > |debug| ==> r[|r| - 1] == LineInfo(at, [src]))
            && (|r| == |debug| ==>
                  var before, now := debug[|r| - 1].sources, r[|r| - 1].sources;
                  && now[|now| - 1] == src && |now| == (if |before| < 8 then |before| + 1 else |before|)
                  && forall k :: 0 <= k < |now| - 1 ==> now[k] == before[k])
    ensures |Noted(debug, at, src)| == |debug| <==> |debug| > 0 && debug[|debug| - 1].offset == at
  {
  }

  class Chunk {
    var Code: seq<u16>
    var EntryPoint: nat
    var Debug: seq<LineInfo>

    ghost predicate Valid()
      reads this
    {
      Sorted(Debug, |Code|)
    }

    constructor ()
      ensures Valid() && Code == [] && Debug == [] && EntryPoint == 0
    {
      Code, Debug, EntryPoint := [], [], 0;
    }

    // ChunkWriteCode
    method WriteCode(w: u16) returns (at: nat)
      modifies this`Code
      ensures at == old(|Code|) && Code == old(Code) + [w]
      ensures old(Valid()) ==> Valid()
    {
      at := |Code|;
      Code := Code + [w];
    }

    // ChunkWriteMovImm: the opcode of the first range that holds the value,
    // then its words, low to high.
    method WriteMovImm(rd: reg, imm: u64) returns (at: nat)
      modifies this`Code
      ensures at == old(|Code|) && Code == old(Code) + Encode(MovImm(rd, imm))
      ensures old(Valid()) ==> Valid()
    {
      hide Pack;
      hide Nibble;
      hide WordsOf;
      hide Signed64;
      hide Encode;
      hide MovImm;
      MovImmWords(rd, imm);
      var s := Signed64(imm);
      var count := 0;
      at := |Code|;
      ghost var before := Code;
      if -8 <= s <= 7 {
        at := WriteCode(Pack(MOVQI, rd, Nibble(s)));
      } else if -0x8000 <= s < 0x8000 {
        at := WriteCode(Pack(MOVI, rd, IMM_I16));
        count := 1;
      } else if imm <= 0xFFFF {
        at := WriteCode(Pack(MOVI, rd, IMM_U16));
        count := 1;
      } else if -0x8000_0000 <= s < 0x8000_0000 {
        at := WriteCode(Pack(MOVI, rd, IMM_I32));
        count := 2;
      } else if imm <= 0xFFFF_FFFF {
        at := WriteCode(Pack(MOVI, rd, IMM_U32));
        count := 2;
      } else if -0x8000_0000_0000 <= s < 0x8000_0000_0000 {
        at := WriteCode(Pack(MOVI, rd, IMM_I48));
        count := 3;
      } else if imm <= 0xFFFF_FFFF_FFFF {
        at := WriteCode(Pack(MOVI, rd, IMM_U48));
        count := 3;
      } else {
        at := WriteCode(Pack(MOVI, rd, IMM_U64));
        count := 4;
      }
      WriteWords(imm, count);
      assert Code == before + Encode(MovImm(rd, imm));
    }

    // The loop of ChunkWriteMovImm: `Imm >> i*16` for each word.
    method WriteWords(imm: u64, count: nat)
      requires count <= 4
      modifies this`Code
      ensures Code == old(Code) + WordsOf(imm, count)
      ensures old(Valid()) ==> Valid()
    {
      ghost var before := Code;
      var i, shifted: int := 0, imm;
      while i < count
        invariant 0 <= i <= count && |Code| >= |before|
        invariant Code + WordsOf(shifted, count - i) == before + WordsOf(imm, count)
      {
        ghost var code := Code;
        ghost var rest := WordsOf(shifted / TWO16, count - i - 1);
        assert WordsOf(shifted, count - i) == [shifted % TWO16] + rest;
        var _ := WriteCode(shifted % TWO16);
        assert Code + rest == code + WordsOf(shifted, count - i);
        shifted := shifted / TWO16;
        i := i + 1;
      }
      assert Code + WordsOf(shifted, 0) == Code;
    }

    // ChunkWriteDebugInfo
    method WriteDebugInfo(src: Source)
      modifies this`Debug
      ensures Debug == Noted(old(Debug), |Code|, src)
      ensures old(Valid()) ==> Valid()
    {
      ghost var before := Debug;
      var n := |Debug|;
      if n > 0 && Debug[n - 1].offset == |Code| {
        var s := Debug[n - 1].sources;
        var sources := if |s| < MAX_SOURCES then s + [src] else s[|s| - 1 := src];
        Debug := Debug[n - 1 := LineInfo(|Code|, sources)];
      } else {
        Debug := Debug + [LineInfo(|Code|, [src])];
      }
      if Sorted(before, |Code|) { NotedSorted(before, |Code|, src); }
    }

    // ChunkReset: keeping functions drops as many entries as lie at or behind
    // the entry point - which, the table being sorted, are exactly those.  An entry
    // point behind the code, which an earlier reset can leave there, raises the
    // count over `stale`, what the buffer happens to hold behind it.
    method Reset(preserve: bool, stale: seq<u16>)
      requires Valid() && (preserve ==> EntryPoint <= |Code| + |stale|)
      modifies this`Code, this`Debug
      ensures Valid()
      ensures Code == if preserve then (old(Code) + stale)[..EntryPoint] else []
      ensures Debug <= old(Debug)
      ensures forall i :: 0 <= i < old(|Debug|) ==>
                (i < |Debug| <==> preserve && old(Debug)[i].offset < EntryPoint)
    {
      if preserve {
        var keep := |Debug|;
        var i := 0;
        while i < |Debug|
          invariant 0 <= i <= |Debug| && 0 <= keep <= |Debug|
          invariant keep <= |Debug| && (keep < |Debug| ==> keep + i >= |Debug|)
          invariant keep == |Debug| - Behind(Debug[..i], EntryPoint)
        {
          assert Debug[..i + 1][..i] == Debug[..i];
          if Debug[i].offset >= EntryPoint {
            keep := keep - 1;
          }
          i := i + 1;
        }
        assert Debug[..|Debug|] == Debug;
        BehindIsSuffix(Debug, |Code|, EntryPoint);
        Code := (Code + stale)[..EntryPoint];
        Debug := Debug[..keep];
      } else {
        Code := [];
        Debug := [];
      }
    }

    // ChunkGetDebugInfo: halve while more than ten entries are left, then walk.
    method GetDebugInfo(off: nat) returns (r: Option<nat>)
      requires Valid()
      ensures r.None? <==> Debug == []
      ensures r.Some? ==> IsFloor(Debug, off, r.value)
    {
      var n := |Debug|;
      if n == 0 {
        return None;
      }
      if Debug[n - 1].offset <= off {
        return Some(n - 1);
      }
      var ret, upper, lower := n / 2, n - 1, 0;
      while upper - lower > 10
        invariant 0 <= lower <= upper < n
        invariant upper - lower > 10 ==> lower < ret < upper
        invariant lower == 0 || Debug[lower].offset <= off
        invariant Debug[upper].offset > off
        decreases upper - lower
      {
        if off > Debug[ret].offset {
          lower := ret;
          ret := lower + (upper - ret) / 2;
        } else if off < Debug[ret].offset {
          upper := ret;
          ret := lower + (ret - lower) / 2;
        } else {
          return Some(ret);
        }
      }
      ret := lower;
      while ret < upper
        invariant lower <= ret <= upper
        invariant ret == 0 || Debug[ret].offset <= off
      {
        if Debug[ret].offset == off || Debug[ret + 1].offset > off {
          break;
        }
        ret := ret + 1;
      }
      return Some(ret);
    }
  }

  lemma MovImmWords(rd: reg, imm: u64)
    ensures var s := Signed64(imm);
            Encode(MovImm(rd, imm)) ==
              if -8 <= s <= 7 then [Pack(MOVQI, rd, Nibble(s))] + WordsOf(imm, 0)
              else if -0x8000 <= s < 0x8000 then [Pack(MOVI, rd, IMM_I16)] + WordsOf(imm, 1)
              else if imm <= 0xFFFF then [Pack(MOVI, rd, IMM_U16)] + WordsOf(imm, 1)
              else if -0x8000_0000 <= s < 0x8000_0000 then [Pack(MOVI, rd, IMM_I32)] + WordsOf(imm, 2)
              else if imm <= 0xFFFF_FFFF then [Pack(MOVI, rd, IMM_U32)] + WordsOf(imm, 2)
              else if -0x8000_0000_0000 <= s < 0x8000_0000_0000 then [Pack(MOVI, rd, IMM_I48)] + WordsOf(imm, 3)
              else if imm <= 0xFFFF_FFFF_FFFF then [Pack(MOVI, rd, IMM_U48)] + WordsOf(imm, 3)
              else [Pack(MOVI, rd, IMM_U64)] + WordsOf(imm, 4)
  {
    hide Pack;
    hide Nibble;
    WordsSigned(imm, Size(MovImm(rd, imm)) - 1);
  }

  lemma WordsSigned(imm: u64, n: nat)
    requires n <= 4
    ensures WordsOf(imm, n) == WordsOf(Signed64(imm), n)
  {
    if Signed64(imm) != imm {
      SameDigits(imm, imm - TWO64, Pow16(4 - n), n);
      assert Pow16(4) == TWO64 && Pow16(3) == TWO48 && Pow16(2) == TWO32 && Pow16(1) == TWO16;
    }
  }

  // Digits below 2^(16 n) do not change by adding a multiple of it.
  lemma {:induction false} SameDigits(x: int, y: int, k: int, n: nat)
    requires x == y + k * Pow16(n)
    ensures WordsOf(x, n) == WordsOf(y, n)
    decreases n
  {
    if n > 0 {
      var p := k * Pow16(n - 1);
      assert k * Pow16(n) == TWO16 * p;
      assert x / TWO16 == y / TWO16 + p && x % TWO16 == y % TWO16;
      SameDigits(x / TWO16, y / TWO16, k, n - 1);
    }
  }

  function Behind(debug: seq<LineInfo>, entry: nat): (n: nat)
    ensures n <= |debug|
  {
    if |debug| == 0 then 0
    else Behind(debug[..|debug| - 1], entry) + if debug[|debug| - 1].offset >= entry then 1 else 0
  }

  lemma {:induction false} BehindIsSuffix(debug: seq<LineInfo>, count: nat, entry: nat)
    requires Sorted(debug, count)
    ensures var keep := |debug| - Behind(debug, entry);
            forall i :: 0 <= i < |debug| ==> (i < keep <==> debug[i].offset < entry)
    decreases |debug|
  {
    if |debug| > 0 {
      BehindIsSuffix(debug[..|debug| - 1], count, entry);
    }
  }
}
