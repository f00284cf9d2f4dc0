// What the parser makes of operators, said without its tables: which of two
// operators takes the operand between them, and the node each symbol makes.
module Precedence {
  import opened Syntax
  import opened Grammar
  import opened Completeness

  /** Operators from the tightest to the loosest; those of one class group to the left. */
  const CLASSES: seq<set<Infix>> :=
    [{AS, IS, OF},
     {STAR, FSLASH},
     {PLUS, MINUS},
     {LSHIFT, RSHIFT},
     {LT, LTE, GT, GTE, MIN, MAX},
     {EQEQ, NEQ},
     {BAND},
     {BOR},
     {LAND},
     {LOR}]

  ghost predicate Tighter(s: Infix, t: Infix) {
    exists i, j :: 0 <= i < j < |CLASSES| && s in CLASSES[i] && t in CLASSES[j]
  }

  /** The node of a binary operator between `l` and `r`. */
  function NodeOf(s: Infix, l: Expr, r: Expr): Expr {
    match s
    case PLUS => Bin(ADD, l, r)
    case MINUS => Bin(SUB, l, r)
    case STAR => Bin(MUL, l, r)
    case FSLASH => Bin(DIV, l, r)
    case EQEQ => Bin(EQ, l, r)
    case NEQ => Bin(NE, l, r)
    case GT => Bin(GT_, l, r)
    case GTE => Bin(GE, l, r)
    case MAX => Bin(MAX_, l, r)
    case LT => Bin(LT_, l, r)
    case LTE => Bin(LE, l, r)
    case MIN => Bin(MIN_, l, r)
    case BOR => Bin(OR, l, r)
    case BAND => Bin(AND, l, r)
    case LSHIFT => Bin(SHL, l, r)
    case RSHIFT => Bin(SHR, l, r)
    case LOR => LBin(LOGOR, l, r)
    case LAND => LBin(LOGAND, l, r)
    case AS => Cast(l, r)
    case IS => Test(l, r)
    case OF => Prop(l, r)
  }

  /** Position of an operator's class. */
  function Class(s: Infix): (i: nat)
    ensures i < |CLASSES| && s in CLASSES[i]
  {
    match s
    case AS => 0
    case IS => 0
    case OF => 0
    case STAR => 1
    case FSLASH => 1
    case PLUS => 2
    case MINUS => 2
    case LSHIFT => 3
    case RSHIFT => 3
    case LT => 4
    case LTE => 4
    case GT => 4
    case GTE => 4
    case MIN => 4
    case MAX => 4
    case EQEQ => 5
    case NEQ => 5
    case BAND => 6
    case BOR => 7
    case LAND => 8
    case LOR => 9
  }

  lemma ClassUnique(s: Infix, i: nat)
    requires i < |CLASSES| && s in CLASSES[i]
    ensures i == Class(s)
  {
    match s
    case AS =>
    case IS =>
    case OF =>
    case STAR =>
    case FSLASH =>
    case PLUS =>
    case MINUS =>
    case LSHIFT =>
    case RSHIFT =>
    case LT =>
    case LTE =>
    case GT =>
    case GTE =>
    case MIN =>
    case MAX =>
    case EQEQ =>
    case NEQ =>
    case BAND =>
    case BOR =>
    case LAND =>
    case LOR =>
  }

  lemma TighterIsClass(s: Infix, t: Infix)
    ensures Tighter(s, t) <==> Class(s) < Class(t)
  {
    hide Class;
    if Tighter(s, t) {
      var i, j :| 0 <= i < j < |CLASSES| && s in CLASSES[i] && t in CLASSES[j];
      ClassUnique(s, i);
      ClassUnique(t, j);
    }
  }

  /** The table of precedences is that order. */
  lemma TableOrders(s: Infix, t: Infix)
    ensures BinaryPrec(Op(s)) > BinaryPrec(Op(t)) <==> Tighter(s, t)
  {
    TighterIsClass(s, t);
    hide Tighter;
  }

  /** An operand that stands alone on the right of `s`: a type after `as` and `is`. */
  predicate Operand(s: Infix, e: Expr) {
    if s == AS || s == IS then e.Type? else Canonical(e) && IsPrimary(e)
  }

  lemma NodeShape(s: Infix, l: Expr, r: Expr)
    ensures var e := NodeOf(s, l, r);
            && IsInfix(e) && SymbolOf(e) == s && e.lhs == l && e.rhs == r
            && Yield(e) == Yield(l) + [Op(s)] + Yield(r)
  {
    hide *;
    NodeSymbol(s, l, r);
    InfixYield(NodeOf(s, l, r));
  }

  lemma NodeSymbol(s: Infix, l: Expr, r: Expr)
    ensures var e := NodeOf(s, l, r); IsInfix(e) && SymbolOf(e) == s && e.lhs == l && e.rhs == r
  {
  }

  lemma InfixYield(e: Expr)
    requires IsInfix(e)
    ensures Yield(e) == Yield(e.lhs) + [Op(SymbolOf(e))] + Yield(e.rhs)
  {
  }

  lemma NodeCanonical(s: Infix, l: Expr, r: Expr)
    requires Canonical(l) && PrecOf(l) >= BinaryPrec(Op(s))
    requires Operand(s, r) || (s != AS && s != IS && Canonical(r) && PrecOf(r) > BinaryPrec(Op(s)))
    ensures Canonical(NodeOf(s, l, r)) && PrecOf(NodeOf(s, l, r)) == BinaryPrec(Op(s))
  {
    NodeSymbol(s, l, r);
    PrecBounded(s);
    hide BinaryPrec, Yield, NodeOf;
  }

  lemma PrecBounded(s: Infix)
    ensures BinaryPrec(Op(s)) < 100
  {
  }

  /** An operator that binds strictly tighter than the one before it takes the operand between them, and
    * otherwise the one before does. A type is not an operand that could be taken. */
  lemma Grouping(a: Expr, s: Infix, b: Expr, t: Infix, c: Expr)
    requires Canonical(a) && IsPrimary(a) && Operand(s, b) && Operand(t, c)
    ensures ParseExpr(Yield(a) + [Op(s)] + Yield(b) + [Op(t)] + Yield(c))
         == Done(if Tighter(t, s) then NodeOf(s, a, NodeOf(t, b, c)) else NodeOf(t, NodeOf(s, a, b), c), [])
  {
    hide *;
    TableOrders(t, s);
    OperandMeans(s, b);
    OperandMeans(t, c);
    var tokens := Yield(a) + [Op(s)] + Yield(b) + [Op(t)] + Yield(c);
    PrimaryPrec(a, s);
    if Tighter(t, s) {
      NotTypeOperator(s, t);
      PrimaryPrec(b, t);
      var inner := NodeOf(t, b, c);
      NodeCanonical(t, b, c);
      NodeShape(t, b, c);
      NodeCanonical(s, a, inner);
      NodeShape(s, a, inner);
      Regroup(Yield(a), [Op(s)], Yield(b), [Op(t)], Yield(c));
      Whole(NodeOf(s, a, inner), tokens);
    } else {
      var inner := NodeOf(s, a, b);
      NodeCanonical(s, a, b);
      NodeShape(s, a, b);
      NodeCanonical(t, inner, c);
      NodeShape(t, inner, c);
      Whole(NodeOf(t, inner, c), tokens);
    }
  }

  lemma Regroup(a: seq<Token>, s: seq<Token>, b: seq<Token>, t: seq<Token>, c: seq<Token>)
    ensures a + s + (b + t + c) == a + s + b + t + c
  {
  }

  lemma OperandMeans(s: Infix, e: Expr)
    requires Operand(s, e)
    ensures s != AS && s != IS ==> Canonical(e) && IsPrimary(e)
  {
  }

  lemma PrimaryPrec(e: Expr, s: Infix)
    requires IsPrimary(e)
    ensures PrecOf(e) > BinaryPrec(Op(s))
  {
  }

  /** Nothing binds tighter than `as` and `is`. */
  lemma NotTypeOperator(s: Infix, t: Infix)
    requires Tighter(t, s)
    ensures s != AS && s != IS
  {
    TighterIsClass(t, s);
    hide Tighter;
  }

  lemma NothingFollows(e: Expr)
    ensures Follows(e, []) && !Head([]).Op?
  {
  }

  /** Prefix operators, by their tokens. */
  lemma PrefixForms(a: Expr)
    requires Canonical(a) && !IsInfix(a)
    ensures ParseExpr([Op(MINUS)] + Yield(a)) == Done(Unary(NEG, a), [])
    ensures ParseExpr([Not] + Yield(a)) == Done(Unary(NOT, a), [])
    ensures ParseExpr([Op(STAR)] + Yield(a)) == Done(Unary(DEREF, a), [])
    ensures ParseExpr([Op(BAND)] + Yield(a)) == Done(Unary(ADDROF, a), [])
    ensures ParseExpr([Ellipsis] + Yield(a)) == Done(Explode(a), [])
  {
    hide ParseExpr;
    Whole(Unary(NEG, a), [Op(MINUS)] + Yield(a));
    Whole(Unary(NOT, a), [Not] + Yield(a));
    Whole(Unary(DEREF, a), [Op(STAR)] + Yield(a));
    Whole(Unary(ADDROF, a), [Op(BAND)] + Yield(a));
    Whole(Explode(a), [Ellipsis] + Yield(a));
  }

  lemma Whole(e: Expr, tokens: seq<Token>)
    requires Canonical(e) && Yield(e) == tokens
    ensures ParseExpr(tokens) == Done(e, [])
  {
    NothingFollows(e);
    ExprBack(e, []);
    assert tokens + [] == tokens;
  }

  /** A prefix operator takes its operand before any operator after it. */
  lemma PrefixTakesFirst(a: Expr, s: Infix, b: Expr)
    requires Canonical(a) && IsPrimary(a) && Operand(s, b)
    ensures ParseExpr([Op(MINUS)] + Yield(a) + [Op(s)] + Yield(b)) == Done(NodeOf(s, Unary(NEG, a), b), [])
  {
    hide *;
    Negated(a, s);
    OperandMeans(s, b);
    NodeCanonical(s, Unary(NEG, a), b);
    NodeShape(s, Unary(NEG, a), b);
    Whole(NodeOf(s, Unary(NEG, a), b), [Op(MINUS)] + Yield(a) + [Op(s)] + Yield(b));
  }

  lemma Negated(a: Expr, s: Infix)
    requires Canonical(a) && (!IsInfix(a) || IsPrimary(a))
    ensures Canonical(Unary(NEG, a)) && Yield(Unary(NEG, a)) == [Op(MINUS)] + Yield(a)
    ensures PrecOf(Unary(NEG, a)) > BinaryPrec(Op(s))
  {
    hide BinaryPrec;
    PrecBounded(s);
  }

  /** It takes the whole chain after its operand. */
  lemma PrefixTakesChain(a: Expr, i: Expr)
    requires Canonical(a) && IsPrimary(a) && Canonical(i)
    ensures ParseExpr([Op(MINUS)] + Yield(a) + [LBracket] + Yield(i) + [RBracket])
         == Done(Unary(NEG, Index(a, i)), [])
  {
    hide *;
    Indexed(a, i);
    Negated(Index(a, i), PLUS);
    var tokens := [Op(MINUS)] + Yield(a) + [LBracket] + Yield(i) + [RBracket];
    assert [Op(MINUS)] + (Yield(a) + [LBracket] + Yield(i) + [RBracket]) == tokens;
    Whole(Unary(NEG, Index(a, i)), tokens);
  }

  lemma Indexed(a: Expr, i: Expr)
    requires Canonical(a) && IsPrimary(a) && Canonical(i)
    ensures Canonical(Index(a, i)) && !IsInfix(Index(a, i))
    ensures Yield(Index(a, i)) == Yield(a) + [LBracket] + Yield(i) + [RBracket]
  {
  }

  /** Operands, by their tokens. */
  lemma OperandForms(x: string, y: string, kind: IntKind, n: nat, b: bool)
    requires n <= MaxOf(kind)
    ensures ParseExpr([Ident(x)]) == Done(Var(x), [])
    ensures ParseExpr([LitInt(kind, n)]) == Done(Int(kind, n), [])
    ensures ParseExpr([LitBool(b)]) == Done(Bool(b), [])
    ensures ParseExpr([Dot, Ident(x)]) == Done(Selector(x), [])
    ensures ParseExpr([LParen, Ident(x), Comma, Ident(y), RParen]) == Done(Tuple([Var(x), Var(y)]), [])
    ensures ParseExpr([Ident(x), Not]) == Done(Eff(Var(x)), [])
    ensures ParseExpr([Ident(x), Dot, Ident(y)]) == Done(Access(Var(x), Var(y)), [])
    ensures ParseExpr([Ident(x), LBracket, Ident(y), RBracket]) == Done(Index(Var(x), Var(y)), [])
    ensures ParseExpr([Ident(x), LParen, Ident(y), RParen]) == Done(Call(Var(x), [Var(y)], x == "printf"), [])
  {
    hide ParseExpr;
    Whole(Var(x), [Ident(x)]);
    Whole(Int(kind, n), [LitInt(kind, n)]);
    Whole(Bool(b), [LitBool(b)]);
    Whole(Selector(x), [Dot, Ident(x)]);
    var pair := [Var(x), Var(y)];
    assert pair[1..] == [Var(y)];
    assert Yield(Var(x)) == [Ident(x)] && Yield(Var(y)) == [Ident(y)];
    assert YieldList(pair) == [Ident(x), Comma, Ident(y)];
    assert AllCanonical(pair[1..]);
    Whole(Tuple(pair), [LParen, Ident(x), Comma, Ident(y), RParen]);
    Whole(Eff(Var(x)), [Ident(x), Not]);
    Whole(Access(Var(x), Var(y)), [Ident(x), Dot, Ident(y)]);
    Whole(Index(Var(x), Var(y)), [Ident(x), LBracket, Ident(y), RBracket]);
    assert YieldList([Var(y)]) == [Ident(y)] && AllCanonical([Var(y)]);
    assert (Var(x) == Var("printf")) == (x == "printf");
    Whole(Call(Var(x), [Var(y)], x == "printf"), [Ident(x), LParen, Ident(y), RParen]);
  }
}
