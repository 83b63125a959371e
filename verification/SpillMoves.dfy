// The moves of the register allocator, run on the machine.
// src/Compiler/Emitter.c, src/PVM/PVM.c
module SpillMoves {
  import opened Words
  import opened Isa
  import opened Machine
  import opened Registers
  import P = Pointers

  // MoveRegToMem and MoveMemToReg of 64 bits, off SP
  function MoveWords(x: Move): seq<u16> {
    match x
    case Spill(r, off) => Encode(P.WideStore(r, SP, off))
    case Unspill(r, off) => Encode(P.WideLoad(r, SP, off))
  }

  // A cell of the table of slots: one of those directly below SP.
  predicate IsSlot(off: int) { off % 8 == 0 && -8 * TABLE_SIZE * 2 <= off < 0 }

  function CellAt(d: Data, off: int): int { d.R[SP] as int + off }

  // The machine's registers and memory hold what the abstract cells say.
  predicate Matches(m: Cells, d: Data) {
    && m.R == d.R && d.R[SP] >= 8 * TABLE_SIZE * 2
    && forall off :: off in m.stack ==> IsSlot(off) && Load64(d.mem, CellAt(d, off)) == m.stack[off]
  }

  // Running a move does to the machine what it does to the cells.
  lemma MoveRuns(x: Move, m: Cells, code: seq<u16>, at: int, d: Data) returns (d': Data)
    requires Matches(m, d) && IsSlot(x.off) && x.r != SP && (x.Unspill? ==> x.off in m.stack) && Placed(code, at, MoveWords(x))
    ensures var hi := at + |MoveWords(x)|;
            |m.R| == REG_COUNT && Runs(code, at, hi, VM(at, d), 1, VM(hi, d'))
    ensures Matches(Do(m, [x]), d') && d'.frames == d.frames && d'.R[SP] == d.R[SP]
  {
    hide Runs;
    hide Encode;
    hide Store64;
    hide Load64;
    DoOne(m, x);
    SlotAddress(d, x.off);
    hide Do;
    match x
    case Spill(r, off) =>
      P.WideStoreRuns(r, SP, off, code, at, d);
      d' := d.(mem := Store64(d.mem, CellAt(d, off), d.R[r]));
      forall o | o in m.stack || o == off
        ensures Load64(d'.mem, CellAt(d, o)) == if o == off then d.R[r] else m.stack[o]
      {
        LoadStore64(d.mem, CellAt(d, off), d.R[r], CellAt(d, o));
      }
    case Unspill(r, off) =>
      P.WideLoadRuns(r, SP, off, code, at, d);
      d' := d.(R := d.R[r := m.stack[off]]);
  }

  lemma SlotAddress(d: Data, off: int)
    requires IsSlot(off) && d.R[SP] >= 8 * TABLE_SIZE * 2
    ensures Address(d, SP, off) == CellAt(d, off) && Fits32(off)
  {
  }

  // So a spill and the unspilling of its slot, with other slots written in between,
  // bring the register's value back.
  lemma SpilledComesBack(r: reg, q: reg, off: int, other: int, u: reg, code: seq<u16>, at: int, d: Data) returns (d': Data)
    requires IsSlot(off) && IsSlot(other) && off != other && r != SP && q != SP && u != SP && d.R[SP] >= 8 * TABLE_SIZE * 2
    requires Placed(code, at, MoveWords(Spill(r, off)) + MoveWords(Spill(u, other)) + MoveWords(Unspill(q, off)))
    ensures var ws := MoveWords(Spill(r, off)) + MoveWords(Spill(u, other)) + MoveWords(Unspill(q, off));
            Runs(code, at, at + |ws|, VM(at, d), 3, VM(at + |ws|, d')) && d'.R == d.R[q := d.R[r]]
  {
    hide Runs;
    hide Encode;
    hide MoveWords;
    hide Placed;
    hide Load64;
    var w1, w2, w3 := MoveWords(Spill(r, off)), MoveWords(Spill(u, other)), MoveWords(Unspill(q, off));
    Split(code, at, w1 + w2, w3);
    Split(code, at, w1, w2);
    var a1, a2, hi := at + |w1|, at + |w1| + |w2|, at + |w1| + |w2| + |w3|;
    var m := Cells(d.R, map[]);
    DoOne(m, Spill(r, off));
    var d1 := MoveRuns(Spill(r, off), m, code, at, d);
    var m1 := Do(m, [Spill(r, off)]);
    DoOne(m1, Spill(u, other));
    var d2 := MoveRuns(Spill(u, other), m1, code, a1, d1);
    var m2 := Do(m1, [Spill(u, other)]);
    DoOne(m2, Unspill(q, off));
    d' := MoveRuns(Unspill(q, off), m2, code, a2, d2);
    hide Do;
    RunsWiden(code, at, a1, at, hi, VM(at, d), 1, VM(a1, d1));
    RunsWiden(code, a1, a2, at, hi, VM(a1, d1), 1, VM(a2, d2));
    RunsWiden(code, a2, hi, at, hi, VM(a2, d2), 1, VM(hi, d'));
    RunsJoin(code, at, hi, VM(at, d), 1, VM(a1, d1), 1, VM(a2, d2));
    RunsJoin(code, at, hi, VM(at, d), 2, VM(a2, d2), 1, VM(hi, d'));
  }
}
