// The grammar of expressions: operator classes, and which token lists derive
// which trees.
// src/Compiler/Expr.c
module Grammar {
  datatype LiteralKind = CharLiteral | IntegerLiteral | NumberLiteral | StringLiteral | TrueLiteral | FalseLiteral

  datatype Token =
    | Literal(kind: LiteralKind, value: nat) | Identifier(name: nat)
    | At | Caret | Dot | LeftBracket | RightBracket | LeftParen | RightParen
    | Not | Star | Div | Slash | Mod | And
    | Xor | Plus | Minus | Shr | Shl | Asr | LessLess | GreaterGreater | Or
    | Less | Greater | LessEqual | GreaterEqual | Equal | LessGreater
    // anything else: it has no entry in the precedence table
    | Other(n: nat)

  datatype Expr =
    | Leaf(t: Token)
    | AddrOf(e: Expr)
    | Unary(op: Token, e: Expr)
    | Binary(op: Token, l: Expr, r: Expr)
    | Deref(e: Expr)
    | Member(e: Expr, name: Token)
    | Index(e: Expr, i: Expr)

  // ---- operator classes -----------------------------------------------------------------

  predicate Relational(t: Token) {
    t.Less? || t.Greater? || t.LessEqual? || t.GreaterEqual? || t.Equal? || t.LessGreater?
  }

  predicate Additive(t: Token) {
    t.Plus? || t.Minus? || t.Or? || t.Xor? || t.Shl? || t.Shr? || t.Asr? || t.LessLess? || t.GreaterGreater?
  }

  predicate Multiplicative(t: Token) { t.Star? || t.Slash? || t.Div? || t.Mod? || t.And? }

  predicate Sign(t: Token) { t.Plus? || t.Minus? || t.Not? }

  // Tokens that cannot follow a whole expression: it would go on, or be an error.
  predicate GoesOn(t: Token) {
    Relational(t) || Additive(t) || Multiplicative(t) || t.Not? || t.Caret? || t.Dot? || t.LeftBracket? || t.LeftParen?
  }

  // ---- derivations ------------------------------------------------------------------------

  // expression = simple { relational simple }       from left to right
  // simple     = term { additive term }
  // term       = factor { multiplicative factor }
  // factor     = sign factor | "@" factor | chain
  // chain      = literal | name | "(" expression ")" | chain ( "^" | "." name | "[" expression "]" )
  datatype Nonterminal = Expression | Simple | Term | Factor | Chain

  function Rank(n: Nonterminal): nat {
    match n case Expression => 6 case Simple => 5 case Term => 4 case Factor => 3 case Chain => 2
  }

  ghost predicate Derives(n: Nonterminal, ts: seq<Token>, e: Expr)
    decreases |ts|, Rank(n)
  {
    match n
    case Expression => Derives(Simple, ts, e) || (e.Binary? && Relational(e.op) && exists k :: Splits(Expression, ts, e, k, Simple))
    case Simple => Derives(Term, ts, e) || (e.Binary? && Additive(e.op) && exists k :: Splits(Simple, ts, e, k, Term))
    case Term => Derives(Factor, ts, e) || (e.Binary? && Multiplicative(e.op) && exists k :: Splits(Term, ts, e, k, Factor))
    case Factor => Derives(Chain, ts, e) || Prefixed(ts, e)
    case Chain => Operand(ts, e) || Grouped(ts, e) || Followed(ts, e)
  }

  // Left operand, operator at `k`, right operand.
  ghost predicate Splits(left: Nonterminal, ts: seq<Token>, e: Expr, k: int, right: Nonterminal)
    requires e.Binary?
    decreases |ts|, 0
  {
    0 <= k < |ts| && ts[k] == e.op && Derives(left, ts[..k], e.l) && Derives(right, ts[k + 1..], e.r)
  }

  ghost predicate Prefixed(ts: seq<Token>, e: Expr)
    decreases |ts|, 0
  {
    |ts| > 0 && match e
                case Unary(op, e1) => ts[0] == op && Sign(op) && Derives(Factor, ts[1..], e1)
                case AddrOf(e1) => ts[0] == At && Derives(Factor, ts[1..], e1)
                case _ => false
  }

  predicate Operand(ts: seq<Token>, e: Expr) {
    |ts| == 1 && (ts[0].Literal? || ts[0].Identifier?) && e == Leaf(ts[0])
  }

  ghost predicate Grouped(ts: seq<Token>, e: Expr)
    decreases |ts|, 0
  {
    |ts| >= 2 && ts[0] == LeftParen && ts[|ts| - 1] == RightParen && Derives(Expression, ts[1..|ts| - 1], e)
  }

  ghost predicate Followed(ts: seq<Token>, e: Expr)
    decreases |ts|, 1
  {
    var n := |ts|;
    match e
    case Deref(e1) => n > 0 && ts[n - 1] == Caret && Derives(Chain, ts[..n - 1], e1)
    case Member(e1, name) => n > 1 && ts[n - 2] == Dot && ts[n - 1] == name && name.Identifier? && Derives(Chain, ts[..n - 2], e1)
    case Index(e1, _) => exists k :: Indexed(ts, e, k)
    case _ => false
  }

  ghost predicate Indexed(ts: seq<Token>, e: Expr, k: int)
    requires e.Index?
    decreases |ts|, 0
  {
    var n := |ts|;
    && 0 <= k < n - 1 && ts[k] == LeftBracket && ts[n - 1] == RightBracket
    && Derives(Chain, ts[..k], e.e) && Derives(Expression, ts[k + 1..n - 1], e.i)
  }

  // An expression is read off the front of `ts`, and `rest` is left.
  ghost predicate Reads(ts: seq<Token>, e: Expr, rest: seq<Token>) {
    var n := |ts| - |rest|;
    && n >= 0 && ts[n..] == rest && Derives(Expression, ts[..n], e)
    && (|rest| > 0 ==> !GoesOn(rest[0]))
  }
}
