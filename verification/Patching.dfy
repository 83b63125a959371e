// One lemma per statement: the words emitted in one pass, once its own holes
// are patched, are the statement's finished words (its breaks still pending).
// src/Compiler/Compiler.c
module Patching {
  import opened Words
  import opened Isa
  import opened Codec
  import opened Chunks
  import opened Statements
  import opened Preservation
  import opened Backpatch

  // Patching one conditional branch in the middle of emitted words.
  lemma PatchCond(code0: seq<u16>, w: seq<u16>, l: CondLoc, onFalse: bool, post: seq<u16>, to: int)
    ensures var i := if onFalse then BranchIfFalse(l, 0) else BranchIfTrue(l, 0);
            var code := code0 + w + Encode(i) + post;
            var from := |code0| + |w|;
            var off := to - from - 2;
            var j := if onFalse then BranchIfFalse(l, off) else BranchIfTrue(l, off);
            Site(code, from) && Patch(code, from, to) == code0 + w + Encode(j) + post && |Encode(j)| == 2
  {
    hide Encode;
    hide Site;
    hide Patch;
    var i := if onFalse then BranchIfFalse(l, 0) else BranchIfTrue(l, 0);
    var code := code0 + w + Encode(i) + post;
    var from := |code0| + |w|;
    assert Placed(code, from, Encode(i));
    PatchRetargets(code, from, to, i);
    var off := to - from - 2;
    var j := if onFalse then BranchIfFalse(l, off) else BranchIfTrue(l, off);
    var r := Patch(code, from, to);
    var x := code0 + w + Encode(j) + post;
    assert r[from..from + 2] == Encode(j);
    forall k | 0 <= k < |r|
      ensures r[k] == x[k]
    {
      if from <= k < from + 2 { assert r[k] == r[from..from + 2][k - from]; }
    }
    assert r == x;
  }

  // Patching the breaks of a loop body in the middle of emitted words.
  lemma PatchBody(pre: seq<u16>, t: Stmt, c: Ctx, post: seq<u16>, to: int)
    ensures var code := pre + Gen(t, c, |pre|, 0) + post;
            var sites := BreakSites(t, c, |pre|);
            Holes(code, sites, |pre|, |pre| + Len(t, c), 0)
            && PatchAll(code, sites, to) == pre + Gen(t, c, |pre|, to) + post
  {
    hide Gen;
    hide Len;
    hide BreakSites;
    hide Holes;
    hide PatchAll;
    var x0, x1 := Gen(t, c, |pre|, 0), Gen(t, c, |pre|, to);
    var code := pre + x0 + post;
    assert Placed(code, |pre|, x0);
    BreaksAreHoles(t, c, code, |pre|, 0);
    RetargetBreaks(t, c, code, |pre|, 0, to);
    var r := PatchAll(code, BreakSites(t, c, |pre|), to);
    var want := pre + x1 + post;
    forall k | 0 <= k < |r|
      ensures r[k] == want[k]
    {
      if |pre| <= k < |pre| + |x0| { assert r[k] == r[|pre|..|pre| + |x1|][k - |pre|]; }
    }
    assert r == want;
  }

  // A jump emitted with target 0, patched.
  lemma PatchOneJump(pre: seq<u16>, post: seq<u16>, to: int)
    ensures var code := pre + Encode(Jump(0 - |pre| - 2)) + post;
            Site(code, |pre|) && Patch(code, |pre|, to) == pre + Encode(Jump(to - |pre| - 2)) + post
  {
    hide Encode;
    hide Site;
    hide Patch;
    var off := 0 - |pre| - 2;
    var code := pre + Encode(Jump(off)) + post;
    JumpIsSite(off);
    JumpIsSite(to - |pre| - 2);
    assert Placed(code, |pre|, Encode(Jump(off)));
    PatchRetargets(code, |pre|, to, Jump(off));
    var r := Patch(code, |pre|, to);
    var want := pre + Encode(Jump(to - |pre| - 2)) + post;
    forall k | 0 <= k < |r|
      ensures r[k] == want[k]
    {
      if |pre| <= k < |pre| + 2 { assert r[k] == r[|pre|..|pre| + 2][k - |pre|]; }
    }
    assert r == want;
  }

  // Patching the jumps behind the arms, `post` being the words of the else part.
  lemma PatchOuts(pre: seq<u16>, t: Stmt, c: Ctx, post: seq<u16>, to: int)
    requires t.Case?
    ensures var code := pre + GenArms(t, t.arms, c, |pre|, 0, 0) + post;
            var sites := OutSites(t, t.arms, c, |pre|);
            Holes(code, sites, |pre|, |pre| + LenArms(t, t.arms, c), 0)
            && PatchAll(code, sites, to) == pre + GenArms(t, t.arms, c, |pre|, 0, to) + post
  {
    hide GenArms;
    hide LenArms;
    hide OutSites;
    hide Holes;
    hide PatchAll;
    var x0, x1 := GenArms(t, t.arms, c, |pre|, 0, 0), GenArms(t, t.arms, c, |pre|, 0, to);
    var code := pre + x0 + post;
    assert Placed(code, |pre|, x0);
    OutsAreSites(t, t.arms, c, code, |pre|, 0);
    RetargetOuts(t, t.arms, c, code, |pre|, 0, 0, to);
    var r := PatchAll(code, OutSites(t, t.arms, c, |pre|), to);
    var want := pre + x1 + post;
    forall k | 0 <= k < |r|
      ensures r[k] == want[k]
    {
      if |pre| <= k < |pre| + |x0| { assert r[k] == r[|pre|..|pre| + |x1|][k - |pre|]; }
    }
    assert r == want;
  }

  // PVMPatchBranch: the switch over the opcode at the site.
  method PatchBranch(chunk: Chunk, from: nat, to: int)
    requires Site(chunk.Code, from)
    modifies chunk`Code
    ensures chunk.Code == Patch(old(chunk.Code), from, to)
  {
    var code := chunk.Code;
    var w, op, off := code[from], GetOp(code[from]), to - from;
    if op == BRI {
      code := code[from + 1 := Half(off - 1)];
    } else if op == BNZ || op == BEZ {
      code := code[from := Pack(op, GetRd(w), Nibble(off - 2))][from + 1 := Half((off - 2) / 0x10)];
    } else if op == LDRIP {
      code := code[from + 1 := Half(off - 3)][from + 2 := Half((off - 3) / TWO16)];
    } else {
      code := code[from := PackByte(op, off - 2)][from + 1 := Half((off - 2) / 0x100)];
    }
    chunk.Code := code;
  }

}
