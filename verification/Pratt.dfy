// The Pratt expression parser, read as a parser of token lists.
// src/Compiler/Expr.c
module Pratt {
  import opened Words
  import opened Grammar

  const PREC_SINGLE := 0
  const PREC_EXPR := 1
  const PREC_SIMPLE := 2
  const PREC_TERM := 3
  const PREC_FACTOR := 4
  const PREC_VARIABLE := 5
  const PREC_HIGHEST := 6

  // The third column of the precedence table.
  function Prec(t: Token): nat {
    match t
    case Caret | Dot | LeftBracket | LeftParen => PREC_VARIABLE
    case Not => PREC_FACTOR
    case Star | Div | Slash | Mod | And => PREC_TERM
    case Xor | Plus | Minus | Shr | Shl | Asr | LessLess | GreaterGreater | Or => PREC_SIMPLE
    case Less | Greater | LessEqual | GreaterEqual | Equal | LessGreater => PREC_EXPR
    case _ => PREC_SINGLE
  }

  predicate IsLeaf(t: Token) { t.Literal? || t.Identifier? }
  predicate IsPrefix(t: Token) { t.Not? || t.Plus? || t.Minus? }
  predicate IsBinary(t: Token) { PREC_EXPR <= Prec(t) <= PREC_TERM }

  type Parsed = Option<(Expr, seq<Token>)>

  function Head(ts: seq<Token>): nat {
    if |ts| == 0 then PREC_SINGLE else Prec(ts[0])
  }

  // ---- the parser ---------------------------------------------------------------------

  // ParsePrecedence
  function Parse(q: nat, ts: seq<Token>): (r: Parsed)
    ensures r.Some? ==> |r.value.1| < |ts|
    decreases |ts|, 1
  {
    match Prefix(ts)
    case Some(p) => Loop(q, p.0, p.1)
    case None => None
  }

  // The prefix routines.
  function Prefix(ts: seq<Token>): (r: Parsed)
    ensures r.Some? ==> |r.value.1| < |ts|
    decreases |ts|, 0
  {
    if |ts| == 0 then None
    else if IsLeaf(ts[0]) then Some((Leaf(ts[0]), ts[1..]))
    else if ts[0].At? then
      match Parse(PREC_VARIABLE, ts[1..])
      case Some(p) => Some((AddrOf(p.0), p.1))
      case None => None
    else if IsPrefix(ts[0]) then
      match Parse(PREC_FACTOR, ts[1..])
      case Some(p) => Some((Unary(ts[0], p.0), p.1))
      case None => None
    else if ts[0].LeftParen? then
      match Parse(PREC_EXPR, ts[1..])
      case Some(p) => if |p.1| > 0 && p.1[0].RightParen? then Some((p.0, p.1[1..])) else None
      case None => None
    else None
  }

  // The infix routine of the next token, which is consumed.
  function Infix(left: Expr, ts: seq<Token>): (r: Parsed)
    requires |ts| > 0
    ensures r.Some? ==> |r.value.1| < |ts|
    decreases |ts|, 0
  {
    if ts[0].Caret? then Some((Deref(left), ts[1..]))
    else if ts[0].Dot? then
      if |ts| > 1 && ts[1].Identifier? then Some((Member(left, ts[1]), ts[2..])) else None
    else if ts[0].LeftBracket? then
      match Parse(PREC_EXPR, ts[1..])
      case Some(p) => if |p.1| > 0 && p.1[0].RightBracket? then Some((Index(left, p.0), p.1[1..])) else None
      case None => None
    else if IsBinary(ts[0]) then
      match Parse(Prec(ts[0]) + 1, ts[1..])
      case Some(p) => Some((Binary(ts[0], left, p.0), p.1))
      case None => None
    else None
  }

  // The loop of ParseAssignmentLhs.
  function Loop(q: nat, left: Expr, ts: seq<Token>): (r: Parsed)
    ensures r.Some? ==> |r.value.1| <= |ts|
    decreases |ts|, 1
  {
    if |ts| == 0 || Prec(ts[0]) < q then Some((left, ts))
    else match Infix(left, ts)
      case Some(p) => Loop(q, p.0, p.1)
      case None => None
  }

  // ---- printing ---------------------------------------------------------------------------

  // The lowest bound under which the expression parses without parentheses.
  function Level(e: Expr): nat {
    if e.Binary? then Prec(e.op) else PREC_HIGHEST
  }

  // The highest precedence of a following token that leaves it whole.
  function Tail(e: Expr): nat {
    match e
    case Binary(op, _, _) => Prec(op)
    case Unary(_, _) => PREC_TERM
    case AddrOf(e1) => if e1.Binary? || Tail(e1) > PREC_FACTOR then PREC_FACTOR else Tail(e1)
    case _ => PREC_HIGHEST
  }

  function Parens(ts: seq<Token>): seq<Token> { [LeftParen] + ts + [RightParen] }

  function PrintRight(q: nat, e: Expr): seq<Token>
    decreases e, 1
  {
    if Level(e) < q then Parens(Print(e)) else Print(e)
  }

  function PrintLeft(e: Expr, p: nat): seq<Token>
    decreases e, 1
  {
    if Tail(e) < p then Parens(Print(e)) else Print(e)
  }

  function Print(e: Expr): seq<Token>
    decreases e, 0
  {
    match e
    case Leaf(t) => [t]
    case AddrOf(e1) => [At] + PrintRight(PREC_VARIABLE, e1)
    case Unary(op, e1) => [op] + PrintRight(PREC_FACTOR, e1)
    case Binary(op, l, r) => PrintLeft(l, Prec(op)) + [op] + PrintRight(Prec(op) + 1, r)
    case Deref(e1) => PrintLeft(e1, PREC_VARIABLE) + [Caret]
    case Member(e1, name) => PrintLeft(e1, PREC_VARIABLE) + [Dot, name]
    case Index(e1, i) => PrintLeft(e1, PREC_VARIABLE) + [LeftBracket] + Print(i) + [RightBracket]
  }

  // Trees a parse can give.
  predicate WellFormed(e: Expr) {
    match e
    case Leaf(t) => IsLeaf(t)
    case AddrOf(e1) => WellFormed(e1)
    case Unary(op, e1) => IsPrefix(op) && WellFormed(e1)
    case Binary(op, l, r) => IsBinary(op) && WellFormed(l) && WellFormed(r)
    case Deref(e1) => WellFormed(e1)
    case Member(e1, name) => name.Identifier? && WellFormed(e1)
    case Index(e1, i) => WellFormed(e1) && WellFormed(i)
  }

  // ---- parsing undoes printing -----------------------------------------------------------------

  // Printed in a place it fits, an expression is parsed and the loop goes on with it.
  lemma {:induction false} ParsesPrinted(q: nat, e: Expr, rest: seq<Token>)
    requires WellFormed(e) && q <= PREC_VARIABLE && q <= Level(e) && Head(rest) <= Tail(e)
    ensures Parse(q, Print(e) + rest) == Loop(q, e, rest)
    decreases e, 0, 1
  {
    hide Parse;
    hide Prefix;
    hide Loop;
    hide Infix;
    match e
    case Leaf(t) => ParseLeaf(q, t, rest);
    case AddrOf(_) => ParsesPrefixed(q, e, rest);
    case Unary(_, _) => ParsesPrefixed(q, e, rest);
    case Binary(_, _, _) => ParsesBinary(q, e, rest);
    case _ => ParsesPostfix(q, e, rest);
  }

  lemma ParsesPrefixed(q: nat, e: Expr, rest: seq<Token>)
    requires WellFormed(e) && (e.AddrOf? || e.Unary?) && Head(rest) <= Tail(e)
    ensures Parse(q, Print(e) + rest) == Loop(q, e, rest)
    decreases e, 0, 0
  {
    hide Parse;
    hide Loop;
    hide PrintRight;
    var op, bound := if e.AddrOf? then At else e.op, if e.AddrOf? then PREC_VARIABLE else PREC_FACTOR;
    TailHigh(e.e);
    ParsesRight(bound, e.e, rest);
    ParsePrefixed(q, op, PrintRight(bound, e.e) + rest, e.e, rest);
    assert Print(e) + rest == [op] + (PrintRight(bound, e.e) + rest);
  }

  lemma ParsesBinary(q: nat, e: Expr, rest: seq<Token>)
    requires WellFormed(e) && e.Binary? && q <= Level(e) && Head(rest) <= Tail(e)
    ensures Parse(q, Print(e) + rest) == Loop(q, e, rest)
    decreases e, 0, 0
  {
    hide Parse;
    hide Loop;
    hide PrintRight;
    hide PrintLeft;
    var p := Prec(e.op);
    var more := [e.op] + (PrintRight(p + 1, e.r) + rest);
    TailHigh(e.r);
    ParsesLeft(q, e.l, more);
    ParsesRight(p + 1, e.r, rest);
    LoopOver(q, e.l, e.op, PrintRight(p + 1, e.r) + rest, e.r, rest);
    assert Print(e) + rest == PrintLeft(e.l, p) + more;
  }

  lemma PostfixParts(e: Expr, rest: seq<Token>)
    requires WellFormed(e) && (e.Deref? || e.Member? || e.Index?)
    ensures WellFormed(e.e)
    ensures e.Deref? ==> Print(e) + rest == PrintLeft(e.e, PREC_VARIABLE) + ([Caret] + rest)
    ensures e.Member? ==> e.name.Identifier? && Print(e) + rest == PrintLeft(e.e, PREC_VARIABLE) + ([Dot, e.name] + rest)
    ensures e.Index? ==> WellFormed(e.i)
    ensures e.Index? ==> Print(e) + rest == PrintLeft(e.e, PREC_VARIABLE) + ([LeftBracket] + (Print(e.i) + ([RightBracket] + rest)))
  {
    hide PrintLeft;
    if e.Index? {
      var a, b, c := PrintLeft(e.e, PREC_VARIABLE), Print(e.i), [RightBracket] + rest;
      assert a + [LeftBracket] + b + [RightBracket] + rest == a + ([LeftBracket] + (b + c));
    }
  }

  lemma HeadsOf(ts: seq<Token>)
    ensures Head([Caret] + ts) == PREC_VARIABLE && Head([LeftBracket] + ts) == PREC_VARIABLE && Head([RightBracket] + ts) == PREC_SINGLE
    ensures forall name: Token :: Head([Dot, name] + ts) == PREC_VARIABLE
  {
  }

  lemma ParsesPostfix(q: nat, e: Expr, rest: seq<Token>)
    requires WellFormed(e) && q <= PREC_VARIABLE && (e.Deref? || e.Member? || e.Index?)
    ensures Parse(q, Print(e) + rest) == Loop(q, e, rest)
    decreases e, 0, 0
  {
    hide *;
    PostfixParts(e, rest);
    HeadsOf(rest);
    match e
    case Deref(e1) =>
      ParsesLeft(q, e1, [Caret] + rest);
      LoopCaret(q, e1, rest);
    case Member(e1, name) =>
      ParsesLeft(q, e1, [Dot, name] + rest);
      LoopDot(q, e1, name, rest);
    case Index(e1, i) =>
      var inner := Print(i) + ([RightBracket] + rest);
      HeadsOf(inner);
      ParsesLeft(q, e1, [LeftBracket] + inner);
      ParsesWhole(i, [RightBracket] + rest);
      LoopBracket(q, e1, inner, i, rest);
  }

  lemma TailHigh(e: Expr)
    ensures e.Binary? || Tail(e) >= PREC_TERM
    ensures Tail(e) <= Level(e)
  {
  }

  // As a whole expression, before a token that has no precedence.
  lemma ParsesWhole(e: Expr, rest: seq<Token>)
    requires WellFormed(e) && Head(rest) == PREC_SINGLE
    ensures Parse(PREC_EXPR, Print(e) + rest) == Some((e, rest))
    decreases e, 1
  {
    hide Parse;
    ParsesPrinted(PREC_EXPR, e, rest);
  }

  lemma ParsesParens(q: nat, e: Expr, rest: seq<Token>)
    requires WellFormed(e)
    ensures Parse(q, Parens(Print(e)) + rest) == Loop(q, e, rest)
    decreases e, 2
  {
    hide Loop;
    hide Infix;
    hide Print;
    var inner := Print(e) + ([RightParen] + rest);
    ParsesWhole(e, [RightParen] + rest);
    var ts := Parens(Print(e)) + rest;
    assert ts == [LeftParen] + inner;
    assert ts[1..] == inner;
    assert ([RightParen] + rest)[1..] == rest;
    GroupParsed(ts, e, rest);
  }

  lemma GroupParsed(ts: seq<Token>, e: Expr, rest: seq<Token>)
    requires |ts| > 0 && ts[0].LeftParen? && Parse(PREC_EXPR, ts[1..]) == Some((e, [RightParen] + rest))
    ensures Prefix(ts) == Some((e, rest))
  {
    hide Parse;
    assert ([RightParen] + rest)[1..] == rest;
  }

  // An operand parsed under the bound `q`.
  lemma ParsesRight(q: nat, e: Expr, rest: seq<Token>)
    requires WellFormed(e) && q <= PREC_VARIABLE && Head(rest) < q && (Level(e) >= q ==> Head(rest) <= Tail(e))
    ensures Parse(q, PrintRight(q, e) + rest) == Some((e, rest))
    decreases e, 3
  {
    hide Parse;
    hide Prefix;
    hide Print;
    if Level(e) < q {
      ParsesParens(q, e, rest);
    } else {
      ParsesPrinted(q, e, rest);
    }
  }

  // An operand in front of the operator that starts `more`.
  lemma ParsesLeft(q: nat, e: Expr, more: seq<Token>)
    requires WellFormed(e) && q <= Head(more) <= PREC_VARIABLE
    ensures Parse(q, PrintLeft(e, Head(more)) + more) == Loop(q, e, more)
    decreases e, 3
  {
    hide Parse;
    hide Prefix;
    hide Loop;
    hide Print;
    TailHigh(e);
    if Tail(e) < Head(more) {
      ParsesParens(q, e, more);
    } else {
      ParsesPrinted(q, e, more);
    }
  }

  lemma ParseLeaf(q: nat, t: Token, rest: seq<Token>)
    requires IsLeaf(t)
    ensures Parse(q, [t] + rest) == Loop(q, Leaf(t), rest)
  {
    hide Loop;
    assert ([t] + rest)[1..] == rest;
  }

  lemma ParsePrefixed(q: nat, op: Token, ts: seq<Token>, e: Expr, rest: seq<Token>)
    requires IsPrefix(op) || op.At?
    requires Parse(if op.At? then PREC_VARIABLE else PREC_FACTOR, ts) == Some((e, rest))
    ensures Parse(q, [op] + ts) == Loop(q, if op.At? then AddrOf(e) else Unary(op, e), rest)
  {
    hide Loop;
    assert ([op] + ts)[1..] == ts;
  }

  lemma LoopOver(q: nat, l: Expr, op: Token, ts: seq<Token>, r: Expr, rest: seq<Token>)
    requires IsBinary(op) && q <= Prec(op) && Parse(Prec(op) + 1, ts) == Some((r, rest))
    ensures Loop(q, l, [op] + ts) == Loop(q, Binary(op, l, r), rest)
  {
    hide Parse;
    assert ([op] + ts)[1..] == ts;
  }

  lemma LoopCaret(q: nat, e: Expr, rest: seq<Token>)
    requires q <= PREC_VARIABLE
    ensures Loop(q, e, [Caret] + rest) == Loop(q, Deref(e), rest)
  {
    assert ([Caret] + rest)[1..] == rest;
  }

  lemma LoopDot(q: nat, e: Expr, name: Token, rest: seq<Token>)
    requires q <= PREC_VARIABLE && name.Identifier?
    ensures Loop(q, e, [Dot, name] + rest) == Loop(q, Member(e, name), rest)
  {
    assert ([Dot, name] + rest)[2..] == rest;
  }

  lemma LoopBracket(q: nat, e: Expr, ts: seq<Token>, i: Expr, rest: seq<Token>)
    requires q <= PREC_VARIABLE && Parse(PREC_EXPR, ts) == Some((i, [RightBracket] + rest))
    ensures Loop(q, e, [LeftBracket] + ts) == Loop(q, Index(e, i), rest)
  {
    hide Parse;
    assert ([LeftBracket] + ts)[1..] == ts;
    assert ([RightBracket] + rest)[1..] == rest;
  }

  // ---- the parser is the grammar's -------------------------------------------------------------

  // The operator classes are the levels of the table.
  lemma ClassesAreLevels(t: Token)
    ensures Relational(t) <==> Prec(t) == PREC_EXPR
    ensures Additive(t) <==> Prec(t) == PREC_SIMPLE
    ensures Multiplicative(t) <==> Prec(t) == PREC_TERM
    ensures t.Not? <==> Prec(t) == PREC_FACTOR
    ensures t.Caret? || t.Dot? || t.LeftBracket? || t.LeftParen? <==> Prec(t) == PREC_VARIABLE
    ensures GoesOn(t) <==> Prec(t) != PREC_SINGLE
    ensures Sign(t) <==> IsPrefix(t)
  {
  }

  // The highest bound a nonterminal is parsed under, and the highest precedence of
  // a token behind it.
  function Bound(n: Nonterminal): nat {
    match n case Expression => PREC_EXPR case Simple => PREC_SIMPLE case Term => PREC_TERM case _ => PREC_VARIABLE
  }

  function Follow(n: Nonterminal): nat {
    match n case Expression => PREC_EXPR case Simple => PREC_SIMPLE case Chain => PREC_VARIABLE case _ => PREC_TERM
  }

  // Whatever derives from the grammar is parsed, and the loop goes on with it.
  lemma {:induction false} DerivedParses(n: Nonterminal, q: nat, ts: seq<Token>, e: Expr, rest: seq<Token>)
    requires Derives(n, ts, e) && q <= Bound(n) && Head(rest) <= Follow(n)
    ensures Parse(q, ts + rest) == Loop(q, e, rest)
    decreases |ts|, Rank(n)
  {
    hide Parse;
    hide Loop;
    hide Prec;
    match n
    case Expression =>
      if Derives(Simple, ts, e) { DerivedParses(Simple, q, ts, e, rest); } else { BinaryParses(n, q, ts, e, rest, Simple); }
    case Simple =>
      if Derives(Term, ts, e) { DerivedParses(Term, q, ts, e, rest); } else { BinaryParses(n, q, ts, e, rest, Term); }
    case Term =>
      if Derives(Factor, ts, e) { DerivedParses(Factor, q, ts, e, rest); } else { BinaryParses(n, q, ts, e, rest, Factor); }
    case Factor =>
      if Derives(Chain, ts, e) { DerivedParses(Chain, q, ts, e, rest); } else { PrefixedParses(q, ts, e, rest); }
    case Chain =>
      if Operand(ts, e) {
        assert ts == [ts[0]];
        ParseLeaf(q, ts[0], rest);
      } else if Grouped(ts, e) {
        GroupedParses(q, ts, e, rest);
      } else {
        FollowedParses(q, ts, e, rest);
      }
  }

  lemma {:induction false} BinaryParses(n: Nonterminal, q: nat, ts: seq<Token>, e: Expr, rest: seq<Token>, right: Nonterminal)
    requires (n == Expression && right == Simple) || (n == Simple && right == Term) || (n == Term && right == Factor)
    requires e.Binary? && (match n case Expression => Relational(e.op) case Simple => Additive(e.op) case _ => Multiplicative(e.op))
    requires (exists k :: Splits(n, ts, e, k, right)) && q <= Bound(n) && Head(rest) <= Follow(n)
    ensures Parse(q, ts + rest) == Loop(q, e, rest)
    decreases |ts|, 1
  {
    hide Parse;
    hide Loop;
    hide Prec;
    hide Derives;
    var k :| Splits(n, ts, e, k, right);
    var a, b := ts[..k], ts[k + 1..];
    var more := [e.op] + (b + rest);
    ClassesAreLevels(e.op);
    DerivedParses(n, q, a, e.l, more);
    DerivedParses(right, Prec(e.op) + 1, b, e.r, rest);
    LoopStops(Prec(e.op) + 1, e.r, rest);
    LoopOver(q, e.l, e.op, b + rest, e.r, rest);
    assert ts + rest == a + more;
  }

  lemma LoopStops(q: nat, e: Expr, rest: seq<Token>)
    requires Head(rest) < q
    ensures Loop(q, e, rest) == Some((e, rest))
  {
  }

  lemma {:induction false} PrefixedParses(q: nat, ts: seq<Token>, e: Expr, rest: seq<Token>)
    requires Prefixed(ts, e) && Head(rest) <= PREC_TERM
    ensures Parse(q, ts + rest) == Loop(q, e, rest)
    decreases |ts|, 1
  {
    hide Parse;
    hide Loop;
    hide Prec;
    hide Derives;
    var bound := if e.AddrOf? then PREC_VARIABLE else PREC_FACTOR;
    ClassesAreLevels(ts[0]);
    DerivedParses(Factor, bound, ts[1..], e.e, rest);
    LoopStops(bound, e.e, rest);
    ParsePrefixed(q, ts[0], ts[1..] + rest, e.e, rest);
    assert ts + rest == [ts[0]] + (ts[1..] + rest);
  }

  lemma {:induction false} GroupedParses(q: nat, ts: seq<Token>, e: Expr, rest: seq<Token>)
    requires Grouped(ts, e)
    ensures Parse(q, ts + rest) == Loop(q, e, rest)
    decreases |ts|, 1
  {
    var inner := ts[1..|ts| - 1];
    var all := ts + rest;
    assert all[1..] == inner + ([RightParen] + rest) && ([RightParen] + rest)[1..] == rest;
    DerivedParses(Expression, PREC_EXPR, inner, e, [RightParen] + rest);
    LoopStops(PREC_EXPR, e, [RightParen] + rest);
    hide Loop;
    GroupParsed(all, e, rest);
  }

  lemma {:induction false} FollowedParses(q: nat, ts: seq<Token>, e: Expr, rest: seq<Token>)
    requires Followed(ts, e) && q <= PREC_VARIABLE
    ensures Parse(q, ts + rest) == Loop(q, e, rest)
    decreases |ts|, 1
  {
    hide Parse;
    hide Loop;
    hide Derives;
    var n := |ts|;
    match e
    case Deref(e1) =>
      DerivedParses(Chain, q, ts[..n - 1], e1, [Caret] + rest);
      LoopCaret(q, e1, rest);
      assert ts + rest == ts[..n - 1] + ([Caret] + rest);
    case Member(e1, name) =>
      DerivedParses(Chain, q, ts[..n - 2], e1, [Dot, name] + rest);
      LoopDot(q, e1, name, rest);
      assert ts + rest == ts[..n - 2] + ([Dot, name] + rest);
    case Index(e1, i) =>
      var k :| Indexed(ts, e, k);
      var inner := ts[k + 1..n - 1];
      var more := inner + ([RightBracket] + rest);
      DerivedParses(Chain, q, ts[..k], e1, [LeftBracket] + more);
      DerivedParses(Expression, PREC_EXPR, inner, i, [RightBracket] + rest);
      LoopStops(PREC_EXPR, i, [RightBracket] + rest);
      LoopBracket(q, e1, more, i, rest);
      assert ts + rest == ts[..k] + ([LeftBracket] + more);
  }

  // What is parsed under a bound.
  function Parsing(q: nat): Nonterminal {
    if q <= PREC_EXPR then Expression else if q == PREC_SIMPLE then Simple else if q == PREC_TERM then Term else Factor
  }

  // The first `n` tokens, `rest` being what is left of them.
  function Read(ts: seq<Token>, rest: seq<Token>): seq<Token>
    requires |rest| <= |ts|
  {
    ts[..|ts| - |rest|]
  }

  predicate IsRest(ts: seq<Token>, rest: seq<Token>) { |rest| <= |ts| && ts[|ts| - |rest|..] == rest }

  // Conversely, whatever is parsed derives.
  lemma {:induction false} ParsedDerives(q: nat, ts: seq<Token>)
    requires PREC_EXPR <= q <= PREC_VARIABLE && Parse(q, ts).Some?
    ensures var (e, rest) := Parse(q, ts).value;
            IsRest(ts, rest) && Derives(Parsing(q), Read(ts, rest), e) && Head(rest) < q
    decreases |ts|, 3
  {
    hide Prefix;
    hide Loop;
    hide Derives;
    hide Prec;
    PrefixDerives(ts);
    var (e, rest) := Prefix(ts).value;
    if Derives(Chain, Read(ts, rest), e) {
      HeadBound(rest);
      LoopDerives(q, Chain, ts, e, |ts| - |rest|);
    } else {
      LoopDerives(q, Factor, ts, e, |ts| - |rest|);
    }
  }

  lemma HeadBound(ts: seq<Token>)
    ensures Head(ts) <= PREC_VARIABLE
  {
  }

  lemma {:induction false} PrefixDerives(ts: seq<Token>)
    requires Prefix(ts).Some?
    ensures var (e, rest) := Prefix(ts).value;
            && IsRest(ts, rest)
            && (Derives(Chain, Read(ts, rest), e) || (Derives(Factor, Read(ts, rest), e) && Head(rest) <= PREC_FACTOR))
    decreases |ts|, 1
  {
    hide Parse;
    hide Prec;
    ClassesAreLevels(ts[0]);
    var (e, rest) := Prefix(ts).value;
    if IsLeaf(ts[0]) {
      assert Operand(Read(ts, rest), e);
    } else if ts[0].At? {
      ParsedDerives(PREC_VARIABLE, ts[1..]);
      hide Derives;
      PrefixRead(ts, rest);
      PrefixedIsFactor(Read(ts, rest), e);
    } else if IsPrefix(ts[0]) {
      ParsedDerives(PREC_FACTOR, ts[1..]);
      hide Derives;
      PrefixRead(ts, rest);
      PrefixedIsFactor(Read(ts, rest), e);
    } else {
      ParsedDerives(PREC_EXPR, ts[1..]);
      hide Derives;
      GroupRead(ts, e, rest);
      ChainOf(Read(ts, rest), e);
    }
  }

  lemma PrefixRead(ts: seq<Token>, rest: seq<Token>)
    requires |ts| > 0 && IsRest(ts[1..], rest)
    ensures IsRest(ts, rest) && |Read(ts, rest)| > 0 && Read(ts, rest)[0] == ts[0] && Read(ts, rest)[1..] == Read(ts[1..], rest)
  {
  }

  lemma GroupRead(ts: seq<Token>, e: Expr, rest: seq<Token>)
    requires |ts| > 0 && ts[0] == LeftParen
    requires var more := [RightParen] + rest; IsRest(ts[1..], more) && Derives(Expression, Read(ts[1..], more), e)
    ensures IsRest(ts, rest) && Grouped(Read(ts, rest), e)
  {
    hide Derives;
    var more, r := [RightParen] + rest, Read(ts, rest);
    assert ts[1..][|ts| - 1 - |more|..] == more;
    assert ts[|ts| - |more|..] == more;
    assert ts[|ts| - |more|] == more[0];
    assert r[1..|r| - 1] == Read(ts[1..], more);
    assert ts[|ts| - |rest|..] == more[1..];
  }

  lemma PrefixedIsFactor(ts: seq<Token>, e: Expr)
    requires Prefixed(ts, e)
    ensures Derives(Factor, ts, e)
  {
  }

  lemma ChainOf(ts: seq<Token>, e: Expr)
    requires Grouped(ts, e) || Followed(ts, e)
    ensures Derives(Chain, ts, e)
  {
    hide Grouped;
    hide Followed;
  }

  // A tighter nonterminal derives what a looser one may.
  lemma Looser(n: Nonterminal, q: nat, ts: seq<Token>, e: Expr)
    requires Derives(n, ts, e) && q <= Bound(n)
    ensures Derives(Parsing(q), ts, e)
  {
    hide Splits;
    hide Prefixed;
    hide Operand;
    hide Grouped;
    hide Followed;
    assert n == Chain ==> Derives(Factor, ts, e);
    assert n == Chain || n == Factor ==> q <= PREC_TERM ==> Derives(Term, ts, e);
    assert (n != Expression && n != Simple) && q <= PREC_SIMPLE ==> Derives(Term, ts, e) ==> Derives(Simple, ts, e);
  }

  // The next token's highest precedence behind what was read as `n`.
  function Behind(n: Nonterminal): nat {
    match n case Factor => PREC_FACTOR case _ => Follow(n)
  }

  lemma {:induction false} LoopDerives(q: nat, n: Nonterminal, ts: seq<Token>, left: Expr, k: nat)
    requires PREC_EXPR <= q <= Bound(n) && k <= |ts| && Derives(n, ts[..k], left) && Head(ts[k..]) <= Behind(n)
    requires Loop(q, left, ts[k..]).Some?
    ensures var (e, rest) := Loop(q, left, ts[k..]).value;
            IsRest(ts, rest) && Derives(Parsing(q), Read(ts, rest), e) && Head(rest) < q
    decreases |ts| - k, 2
  {
    hide Derives;
    hide Infix;
    hide Prec;
    if Head(ts[k..]) < q {
      LoopStops(q, left, ts[k..]);
      Looser(n, q, ts[..k], left);
    } else {
      assert ts[k..][0] == ts[k];
      var m, j := InfixDerives(q, n, ts, left, k);
      var p := Infix(left, ts[k..]).value;
      LoopDerives(q, m, ts, p.0, j);
    }
  }

  // One more operator, and what has been read by then.
  lemma {:induction false} InfixDerives(q: nat, n: Nonterminal, ts: seq<Token>, left: Expr, k: nat) returns (m: Nonterminal, j: nat)
    requires PREC_EXPR <= q <= Bound(n) && k < |ts| && Derives(n, ts[..k], left) && q <= Prec(ts[k]) <= Behind(n)
    requires Infix(left, ts[k..]).Some?
    ensures var (e, rest) := Infix(left, ts[k..]).value;
            && k < j <= |ts| && rest == ts[j..] && Derives(m, ts[..j], e)
            && q <= Bound(m) && Head(rest) <= Behind(m)
    decreases |ts| - k, 1
  {
    hide *;
    var op, more := ts[k], ts[k + 1..];
    assert ts[k..][0] == op && ts[k..][1..] == more;
    var rest := Infix(left, ts[k..]).value.1;
    InfixIs(left, ts[k..]);
    Levels(q, n, op);
    HeadBound(rest);
    if IsBinary(op) {
      var p := Prec(op);
      ParsedDerives(p + 1, more);
      var right := Parse(p + 1, more).value.0;
      m, j := Parsing(p), |ts| - |rest|;
      Looser(n, p, ts[..k], left);
      BinaryRead(ts, k, left, right, rest, p);
      AfterBinary(p, q);
    } else {
      m := Chain;
      j := PostfixDerives(ts, left, k);
    }
  }

  // The two kinds of infix routines.
  lemma InfixIs(left: Expr, ts: seq<Token>)
    requires |ts| > 0 && Infix(left, ts).Some?
    ensures IsBinary(ts[0]) ==> PREC_EXPR <= Prec(ts[0]) <= PREC_TERM
    ensures if IsBinary(ts[0]) then
              var p := Prec(ts[0]);
              && Parse(p + 1, ts[1..]).Some?
              && Infix(left, ts).value == (Binary(ts[0], left, Parse(p + 1, ts[1..]).value.0), Parse(p + 1, ts[1..]).value.1)
            else Prec(ts[0]) == PREC_VARIABLE
  {
    hide Parse;
  }

  lemma Levels(q: nat, n: Nonterminal, op: Token)
    requires q <= Prec(op) <= Behind(n)
    ensures Prec(op) == PREC_VARIABLE ==> n == Chain && q <= Bound(Chain)
    ensures Prec(op) <= PREC_TERM ==> Prec(op) <= Bound(n)
    ensures PREC_EXPR == 1 && PREC_TERM == 3 && PREC_VARIABLE == 5
    ensures Behind(Chain) == PREC_VARIABLE
  {
    hide Prec;
  }

  lemma AfterBinary(p: nat, q: nat)
    requires PREC_EXPR <= p <= PREC_TERM && q <= p
    ensures q <= Bound(Parsing(p)) && Behind(Parsing(p)) == p
  {
  }

  lemma {:induction false} PostfixDerives(ts: seq<Token>, left: Expr, k: nat) returns (j: nat)
    requires k < |ts| && Derives(Chain, ts[..k], left) && !IsBinary(ts[k]) && Infix(left, ts[k..]).Some?
    ensures var (e, rest) := Infix(left, ts[k..]).value;
            k < j <= |ts| && rest == ts[j..] && Derives(Chain, ts[..j], e)
    decreases |ts| - k, 0
  {
    hide Parse;
    hide Derives;
    hide Prec;
    var more := ts[k + 1..];
    assert ts[k..][0] == ts[k] && ts[k..][1..] == more;
    var (e, rest) := Infix(left, ts[k..]).value;
    if ts[k].Caret? {
      j := k + 1;
      assert ts[..k + 1][..k] == ts[..k];
    } else if ts[k].Dot? {
      j := k + 2;
      assert ts[k..][1] == ts[k + 1];
      assert ts[..k + 2][..k] == ts[..k];
    } else {
      ParsedDerives(PREC_EXPR, more);
      var (i, tail) := Parse(PREC_EXPR, more).value;
      j := |ts| - |rest|;
      IndexRead(ts, k, left, i, tail);
    }
    ChainOf(ts[..j], e);
  }

  lemma IndexRead(ts: seq<Token>, k: nat, left: Expr, i: Expr, tail: seq<Token>)
    requires k < |ts| && ts[k] == LeftBracket && Derives(Chain, ts[..k], left)
    requires IsRest(ts[k + 1..], tail) && Derives(Expression, Read(ts[k + 1..], tail), i) && |tail| > 0 && tail[0] == RightBracket
    ensures var j := |ts| - |tail| + 1;
            k < j <= |ts| && tail[1..] == ts[j..] && Followed(ts[..j], Index(left, i))
  {
    hide Derives;
    var j := |ts| - |tail| + 1;
    assert ts[k + 1..][|ts| - k - 1 - |tail|..] == ts[j - 1..] == tail;
    assert ts[j - 1] == tail[0];
    assert ts[..j][k + 1..j - 1] == Read(ts[k + 1..], tail) && ts[..j][..k] == ts[..k];
    assert Indexed(ts[..j], Index(left, i), k);
  }

  lemma BinaryRead(ts: seq<Token>, k: nat, left: Expr, right: Expr, rest: seq<Token>, p: nat)
    requires k < |ts| && PREC_EXPR <= p <= PREC_TERM && Prec(ts[k]) == p && Derives(Parsing(p), ts[..k], left)
    requires IsRest(ts[k + 1..], rest) && Derives(Parsing(p + 1), Read(ts[k + 1..], rest), right)
    ensures var j := |ts| - |rest|;
            k < j <= |ts| && rest == ts[j..] && Derives(Parsing(p), ts[..j], Binary(ts[k], left, right))
  {
    ClassesAreLevels(ts[k]);
    var j, e := |ts| - |rest|, Binary(ts[k], left, right);
    assert ts[k + 1..][|ts| - k - 1 - |rest|..] == ts[j..];
    assert ts[..j][..k] == ts[..k] && ts[..j][k + 1..] == Read(ts[k + 1..], rest);
    assert Splits(Parsing(p), ts[..j], e, k, Parsing(p + 1));
    hide Splits;
    hide Prec;
  }

  // The parser reads exactly what the grammar derives, in front of a token that
  // cannot go on; so no token list derives two trees.
  lemma ParseIsGrammar(ts: seq<Token>, e: Expr, rest: seq<Token>)
    ensures Parse(PREC_EXPR, ts) == Some((e, rest)) <==> Reads(ts, e, rest)
  {
    hide Parse;
    hide Loop;
    hide Derives;
    hide Prec;
    if |rest| > 0 { ClassesAreLevels(rest[0]); }
    if Reads(ts, e, rest) {
      var n := |ts| - |rest|;
      assert ts == ts[..n] + rest;
      DerivedParses(Expression, PREC_EXPR, ts[..n], e, rest);
      LoopStops(PREC_EXPR, e, rest);
    } else if Parse(PREC_EXPR, ts) == Some((e, rest)) {
      ParsedDerives(PREC_EXPR, ts);
    }
  }

  lemma OneTree(ts: seq<Token>, e: Expr, other: Expr)
    requires Derives(Expression, ts, e) && Derives(Expression, ts, other)
    ensures e == other
  {
    hide Parse;
    hide Derives;
    assert ts[..|ts| - 0] == ts && ts[|ts|..] == [];
    assert Reads(ts, e, []) && Reads(ts, other, []);
    ParseIsGrammar(ts, e, []);
    ParseIsGrammar(ts, other, []);
  }

  // Every well-formed tree has a token list: the one printed.
  lemma PrintedDerives(e: Expr)
    requires WellFormed(e)
    ensures Derives(Expression, Print(e), e)
  {
    hide Parse;
    hide Derives;
    hide Print;
    ParsesWhole(e, []);
    var ts := Print(e);
    assert ts + [] == ts;
    ParseIsGrammar(ts, e, []);
    assert ts[..|ts| - 0] == ts;
  }

  // ---- the parentheses printed are needed ---------------------------------------------------------

  // What `n` tokens read so far must pay for: the tree printed, and parentheses
  // around it if it does not fit under `q`, or not in front of what follows.
  predicate Pays(n: int, q: nat, e: Expr, next: nat) {
    n >= |Print(e)| + if Level(e) < q || Tail(e) < next then 2 else 0
  }

  function Extra(parens: bool): nat { if parens then 2 else 0 }

  lemma PrintSize(e: Expr)
    ensures |Print(e)| ==
            match e
            case Leaf(_) => 1
            case AddrOf(e1) => 1 + |Print(e1)| + Extra(Level(e1) < PREC_VARIABLE)
            case Unary(_, e1) => 1 + |Print(e1)| + Extra(Level(e1) < PREC_FACTOR)
            case Binary(op, l, r) =>
              |Print(l)| + Extra(Tail(l) < Prec(op)) + 1 + |Print(r)| + Extra(Level(r) < Prec(op) + 1)
            case Deref(e1) => |Print(e1)| + Extra(Tail(e1) < PREC_VARIABLE) + 1
            case Member(e1, _) => |Print(e1)| + Extra(Tail(e1) < PREC_VARIABLE) + 2
            case Index(e1, i) => |Print(e1)| + Extra(Tail(e1) < PREC_VARIABLE) + 2 + |Print(i)|
  {
  }

  lemma {:induction false} ParsePays(q: nat, ts: seq<Token>)
    requires PREC_EXPR <= q <= PREC_VARIABLE && Parse(q, ts).Some?
    ensures var (e, rest) := Parse(q, ts).value;
            WellFormed(e) && Pays(|ts| - |rest|, q, e, Head(rest)) && Head(rest) < q
    decreases |ts|, 2
  {
    hide Prefix;
    hide Loop;
    hide Print;
    PrefixPays(ts);
    var p := Prefix(ts).value;
    LoopPays(q, p.0, p.1, |ts| - |p.1|);
  }

  lemma {:induction false} PrefixPays(ts: seq<Token>)
    requires Prefix(ts).Some?
    ensures var (e, rest) := Prefix(ts).value;
            WellFormed(e) && Pays(|ts| - |rest|, PREC_HIGHEST, e, Head(rest))
    decreases |ts|, 1
  {
    hide Parse;
    hide Print;
    PrintSize(Prefix(ts).value.0);
    if IsLeaf(ts[0]) {
    } else if ts[0].At? {
      ParsePays(PREC_VARIABLE, ts[1..]);
    } else if IsPrefix(ts[0]) {
      ParsePays(PREC_FACTOR, ts[1..]);
      var e := Parse(PREC_FACTOR, ts[1..]).value.0;
      TailHigh(e);
    } else {
      ParsePays(PREC_EXPR, ts[1..]);
    }
  }

  lemma {:induction false} LoopPays(q: nat, left: Expr, ts: seq<Token>, n: int)
    requires PREC_EXPR <= q <= PREC_VARIABLE && Loop(q, left, ts).Some?
    requires WellFormed(left) && Pays(n, q, left, Head(ts))
    ensures var (e, rest) := Loop(q, left, ts).value;
            WellFormed(e) && Pays(n + |ts| - |rest|, q, e, Head(rest)) && Head(rest) < q
    decreases |ts|, 1
  {
    if !(|ts| == 0 || Prec(ts[0]) < q) {
      InfixPays(q, left, ts, n);
      hide Infix;
      var p := Infix(left, ts).value;
      LoopPays(q, p.0, p.1, n + |ts| - |p.1|);
    }
  }

  lemma {:induction false} InfixPays(q: nat, left: Expr, ts: seq<Token>, n: int)
    requires |ts| > 0 && q <= Prec(ts[0]) && Infix(left, ts).Some?
    requires WellFormed(left) && Pays(n, q, left, Head(ts))
    ensures var (e, rest) := Infix(left, ts).value;
            WellFormed(e) && Pays(n + |ts| - |rest|, q, e, Head(rest))
    decreases |ts|, 0
  {
    hide Parse;
    hide Print;
    PrintSize(Infix(left, ts).value.0);
    if ts[0].LeftBracket? {
      ParsePays(PREC_EXPR, ts[1..]);
    } else if IsBinary(ts[0]) {
      ParsePays(Prec(ts[0]) + 1, ts[1..]);
    }
  }

  // No token list shorter than the printed one parses to the same tree.
  lemma PrintIsShortest(ts: seq<Token>)
    requires Parse(PREC_EXPR, ts).Some?
    ensures var (e, rest) := Parse(PREC_EXPR, ts).value;
            WellFormed(e) && |Print(e)| <= |ts| - |rest|
  {
    hide Parse;
    hide Print;
    hide WellFormed;
    hide Tail;
    ParsePays(PREC_EXPR, ts);
  }

  // ---- the compiler's loop ---------------------------------------------------------------------------

  // Compiler->Next is the token at `Next`, Compiler->Curr the one before it.
  class TokenParser {
    const tokens: seq<Token>
    var Next: nat

    ghost predicate Valid()
      reads this
    {
      Next <= |tokens|
    }

    ghost function Left(): seq<Token>
      requires Valid()
      reads this
    {
      tokens[Next..]
    }

    constructor (tokens: seq<Token>)
      ensures Valid() && Left() == tokens && this.tokens == tokens
    {
      this.tokens := tokens;
      Next := 0;
    }

    // CompileExpr; None is any of the "Expected ..." errors.
    method CompileExpr() returns (r: Option<Expr>)
      requires Valid()
      modifies this
      ensures Valid()
      ensures r.Some? ==> Reads(old(Left()), r.value, Left())
      ensures r.None? ==> forall e, rest :: !Reads(old(Left()), e, rest)
    {
      hide Reads;
      hide Parse;
      ghost var ts := Left();
      r := ParsePrecedence(PREC_EXPR);
      if r.Some? {
        ParseIsGrammar(ts, r.value, Left());
      } else {
        forall e, rest
          ensures !Reads(ts, e, rest)
        {
          ParseIsGrammar(ts, e, rest);
        }
      }
    }

    method ParsePrecedence(prec: nat) returns (r: Option<Expr>)
      requires Valid()
      modifies this
      ensures Valid() && Next >= old(Next)
      ensures match Parse(prec, old(Left()))
              case Some(p) => r == Some(p.0) && Left() == p.1
              case None => r == None
      decreases |tokens| - Next, 3
    {
      if Next == |tokens| {
        return None;
      }
      var curr := tokens[Next];
      Next := Next + 1;
      r := ParseAssignmentLhs(curr, prec);
    }

    // ParseAssignmentLhs: the prefix routine of the current token, then infix
    // routines as long as the next token binds at least as tightly.
    method ParseAssignmentLhs(curr: Token, prec: nat) returns (r: Option<Expr>)
      requires Valid() && Next > 0 && curr == tokens[Next - 1]
      modifies this
      ensures Valid() && Next >= old(Next)
      ensures match Parse(prec, old(tokens[Next - 1..]))
              case Some(p) => r == Some(p.0) && Left() == p.1
              case None => r == None
      decreases |tokens| - Next + 1, 2
    {
      hide Prefix;
      hide Infix;
      hide Prec;
      ghost var from, start := Next, tokens[Next - 1..];
      var left := PrefixRoutine(curr);
      while left.Some? && Next < |tokens| && prec <= Prec(tokens[Next])
        invariant Valid() && Next >= from
        invariant left.None? ==> Parse(prec, start) == None
        invariant left.Some? ==> Parse(prec, start) == Loop(prec, left.value, Left())
        decreases left.Some?, |tokens| - Next
      {
        left := InfixRoutine(left.value);
      }
      r := left;
    }

    method PrefixRoutine(curr: Token) returns (r: Option<Expr>)
      requires Valid() && Next > 0 && curr == tokens[Next - 1]
      modifies this
      ensures Valid() && Next >= old(Next)
      ensures match Prefix(old(tokens[Next - 1..]))
              case Some(p) => r == Some(p.0) && Left() == p.1
              case None => r == None
      decreases |tokens| - Next + 1, 1
    {
      hide Parse;
      ghost var ts := tokens[Next - 1..];
      assert ts[0] == curr && ts[1..] == Left();
      if IsLeaf(curr) {
        return Some(Leaf(curr));
      }
      if curr.At? {
        var e := ParsePrecedence(PREC_VARIABLE);
        return if e.Some? then Some(AddrOf(e.value)) else None;
      }
      if IsPrefix(curr) {
        var e := ParsePrecedence(PREC_FACTOR);
        return if e.Some? then Some(Unary(curr, e.value)) else None;
      }
      if curr.LeftParen? {
        var e := ParsePrecedence(PREC_EXPR);
        var closed := Consume(RightParen);
        return if closed then e else None;
      }
      return None;
    }

    // ConsumeOrError
    method Consume(t: Token) returns (ok: bool)
      requires Valid()
      modifies this
      ensures Valid() && Next >= old(Next)
      ensures ok == (|old(Left())| > 0 && old(Left())[0] == t)
      ensures Left() == if ok then old(Left())[1..] else old(Left())
    {
      ok := Next < |tokens| && tokens[Next] == t;
      if ok {
        Next := Next + 1;
      }
    }

    method InfixRoutine(left: Expr) returns (r: Option<Expr>)
      requires Valid() && Next < |tokens|
      modifies this
      ensures Valid() && Next > old(Next)
      ensures match Infix(left, old(Left()))
              case Some(p) => r == Some(p.0) && Left() == p.1
              case None => r == None
      decreases |tokens| - Next, 4
    {
      hide Parse;
      ghost var ts := Left();
      var op := tokens[Next];
      Next := Next + 1;
      assert ts[0] == op && ts[1..] == Left();
      if op.Caret? {
        return Some(Deref(left));
      }
      if op.Dot? {
        if Next < |tokens| && tokens[Next].Identifier? {
          Next := Next + 1;
          assert ts[2..] == Left();
          return Some(Member(left, tokens[Next - 1]));
        }
        return None;
      }
      if op.LeftBracket? {
        var i := ParsePrecedence(PREC_EXPR);
        var closed := Consume(RightBracket);
        return if closed && i.Some? then Some(Index(left, i.value)) else None;
      }
      if IsBinary(op) {
        var e := ParsePrecedence(Prec(op) + 1);
        return if e.Some? then Some(Binary(op, left, e.value)) else None;
      }
      return None;
    }
  }
}
