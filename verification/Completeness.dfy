// Every tree of the grammar is parsed back from its own tokens.
module Completeness {
  import opened Syntax
  import opened Grammar

  /** What may come after the tokens of `e` without being taken into it. */
  predicate Follows(e: Expr, rest: seq<Token>) {
    var t := Head(rest);
    EndsInType(e) || (!t.Dot? && !t.LBracket? && !t.LParen? && (EndsPlain(e) ==> !t.Not?))
  }

  lemma {:induction false} HeadOfPostfix(e: Expr)
    requires Canonical(e) && IsPostfix(e)
    ensures Yield(e) != []
    ensures var t := Yield(e)[0]; t.Ident? || t.LitInt? || t.LitBool? || t.LParen? || t.Dot?
  {
    match e
    case Eff(x) => HeadOfPostfix(x);
    case Index(x, _) => HeadOfPostfix(x);
    case Call(f, _, _) => HeadOfPostfix(f);
    case Access(l, _) => HeadOfPostfix(l);
    case _ =>
  }

  lemma {:induction false} HeadOfExpr(e: Expr)
    requires Canonical(e)
    ensures Yield(e) != [] && !Yield(e)[0].RParen?
  {
    if IsPostfix(e) {
      HeadOfPostfix(e);
    } else if IsInfix(e) {
      HeadOfExpr(e.lhs);
    }
  }

  lemma {:induction false} PrimaryBack(e: Expr, rest: seq<Token>)
    requires Canonical(e) && IsPrimary(e)
    ensures ParsePrimary(Yield(e) + rest) == Done(e, rest)
    decreases e, 1
  {
    var ts := Yield(e) + rest;
    if e.Tuple? {
      TupleBack(e.es, rest);
      assert ts == [LParen] + YieldList(e.es) + [RParen] + rest;
    } else if e.Selector? {
      assert ts[1..] == [Ident(e.name)] + rest && ts[2..] == rest;
    } else {
      assert ts[1..] == rest;
    }
  }

  lemma {:induction false} TupleBack(es: seq<Expr>, rest: seq<Token>)
    requires AllCanonical(es)
    ensures ParseTuple([LParen] + YieldList(es) + [RParen] + rest) == DoneList(es, rest)
    decreases es, 1
  {
    var ts := [LParen] + YieldList(es) + [RParen] + rest;
    assert ts[1..] == YieldList(es) + [RParen] + rest;
    if es == [] {
      assert ts[2..] == rest;
    } else {
      HeadOfExpr(es[0]);
      assert ts[1] == Yield(es[0])[0];
      ItemsBack(es, rest);
    }
  }

  lemma Separated(e: Expr, t: Token, rest: seq<Token>)
    requires t.Comma? || t.RParen? || t.RBracket?
    ensures Follows(e, [t] + rest)
  {
  }

  lemma {:induction false} ItemsBack(es: seq<Expr>, rest: seq<Token>)
    requires AllCanonical(es) && es != []
    ensures ParseItems(YieldList(es) + [RParen] + rest) == DoneList(es, rest)
    decreases es, 0
  {
    hide ParseExpr, Yield, Canonical, Follows;
    var ts := YieldList(es) + [RParen] + rest;
    Separated(es[0], RParen, rest);
    if |es| == 1 {
      var after := [RParen] + rest;
      assert ts == Yield(es[0]) + after;
      ExprBack(es[0], after);
      assert after[1..] == rest && es == [es[0]];
    } else {
      var more := YieldList(es[1..]) + [RParen] + rest;
      var after := [Comma] + more;
      assert ts == Yield(es[0]) + after;
      Separated(es[0], Comma, more);
      ExprBack(es[0], after);
      assert after[1..] == more;
      HeadOfExpr(es[1]);
      assert more[0] == Yield(es[1])[0];
      ItemsBack(es[1..], rest);
      assert es == [es[0]] + es[1..];
    }
  }

  /** The clauses of the definitions for the links of a postfix chain. */
  lemma ChainShape(x: Expr, y: Expr, es: seq<Expr>)
    requires Canonical(x) && IsPostfix(x)
    ensures Canonical(y) && IsPrimary(y) ==> Canonical(Access(x, y))
    ensures Canonical(y) ==> Canonical(Index(x, y))
    ensures AllCanonical(es) ==> Canonical(Call(x, es, x == Var("printf")))
    ensures IsPostfix(Access(x, y)) && !IsPrimary(Access(x, y)) && IsPostfix(Index(x, y)) && !IsPrimary(Index(x, y))
    ensures var c := Call(x, es, x == Var("printf")); IsPostfix(c) && !IsPrimary(c)
    ensures Yield(Access(x, y)) == Yield(x) + [Dot] + Yield(y)
    ensures Yield(Index(x, y)) == Yield(x) + [LBracket] + Yield(y) + [RBracket]
    ensures Yield(Call(x, es, x == Var("printf"))) == Yield(x) + ([LParen] + YieldList(es) + [RParen])
  {
  }

  lemma ChainParts(e: Expr)
    requires Canonical(e)
    ensures e.Index? ==> Canonical(e.operand) && IsPostfix(e.operand) && Canonical(e.index)
    ensures e.Index? ==> Yield(e) == Yield(e.operand) + [LBracket] + Yield(e.index) + [RBracket]
    ensures e.Access? ==> Canonical(e.lhs) && IsPostfix(e.lhs) && Canonical(e.rhs) && IsPrimary(e.rhs)
    ensures e.Access? ==> Yield(e) == Yield(e.lhs) + [Dot] + Yield(e.rhs)
    ensures e.Call? ==> Canonical(e.callee) && IsPostfix(e.callee) && AllCanonical(e.args)
    ensures e.Call? ==> e.isC == (e.callee == Var("printf"))
    ensures e.Call? ==> Yield(e) == Yield(e.callee) + ([LParen] + YieldList(e.args) + [RParen])
  {
  }

  lemma {:induction false} PostfixBack(e: Expr, rest: seq<Token>)
    requires Canonical(e) && IsPostfix(e) && (IsPrimary(e) ==> !Head(rest).Not?)
    ensures ParsePostfix(Yield(e) + rest) == PostfixRest(e, rest)
    decreases e, 2
  {
    if e.Eff? {
      PrimaryBack(e.operand, [Not] + rest);
      assert Yield(e) + rest == Yield(e.operand) + ([Not] + rest);
      assert ([Not] + rest)[1..] == rest;
    } else if e.Index? {
      IndexBack(e, rest);
    } else if e.Call? {
      CallBack(e, rest);
    } else if e.Access? {
      AccessBack(e, rest);
    } else {
      PrimaryBack(e, rest);
    }
  }

  lemma {:induction false} IndexBack(e: Expr, rest: seq<Token>)
    requires Canonical(e) && e.Index?
    ensures ParsePostfix(Yield(e) + rest) == PostfixRest(e, rest)
    decreases e, 1
  {
    hide ParsePostfix, ParseExpr, Yield, Canonical, IsPostfix;
    ChainParts(e);
    var after := [RBracket] + rest;
    var next := [LBracket] + (Yield(e.index) + after);
    PostfixBack(e.operand, next);
    assert Yield(e) + rest == Yield(e.operand) + next;
    assert next[1..] == Yield(e.index) + after;
    ExprBack(e.index, after);
    assert after[1..] == rest;
  }

  lemma {:induction false} CallBack(e: Expr, rest: seq<Token>)
    requires Canonical(e) && e.Call?
    ensures ParsePostfix(Yield(e) + rest) == PostfixRest(e, rest)
    decreases e, 1
  {
    hide ParsePostfix, ParseTuple, Yield, Canonical, IsPostfix;
    ChainParts(e);
    var next := [LParen] + YieldList(e.args) + [RParen] + rest;
    PostfixBack(e.callee, next);
    assert Yield(e) + rest == Yield(e.callee) + next;
    TupleBack(e.args, rest);
  }

  lemma {:induction false} AccessBack(e: Expr, rest: seq<Token>)
    requires Canonical(e) && e.Access?
    ensures ParsePostfix(Yield(e) + rest) == PostfixRest(e, rest)
    decreases e, 1
  {
    hide ParsePostfix, ParsePrimary, Yield, Canonical, IsPostfix;
    ChainParts(e);
    var next := [Dot] + (Yield(e.rhs) + rest);
    PostfixBack(e.lhs, next);
    assert Yield(e) + rest == Yield(e.lhs) + next;
    assert next[1..] == Yield(e.rhs) + rest;
    PrimaryBack(e.rhs, rest);
  }

  lemma PrefixShape(e: Expr, t: Token, rest: seq<Token>)
    requires (e.Unary? && t == UnarySymbol(e.uop)) || (e.Explode? && t.Ellipsis?)
    ensures Canonical(e) <==> Canonical(e.operand) && !IsInfix(e.operand)
    ensures Yield(e) == [t] + Yield(e.operand)
    ensures !IsInfix(e.operand) ==> (Follows(e, rest) <==> Follows(e.operand, rest))
  {
  }

  /** The clauses of the definitions for an operator node. */
  lemma InfixShape(e: Expr, rest: seq<Token>)
    requires IsInfix(e)
    ensures Yield(e) == Yield(e.lhs) + [Op(SymbolOf(e))] + Yield(e.rhs)
    ensures Canonical(e) == (
              && Canonical(e.lhs) && PrecOf(e.lhs) >= PrecOf(e)
              && if e.Cast? || e.Test? then e.rhs.Type? else Canonical(e.rhs) && PrecOf(e.rhs) > PrecOf(e))
    ensures Follows(e, rest) <==> e.Cast? || e.Test? || Follows(e.rhs, rest)
    ensures PrecOf(e) == BinaryPrec(Op(SymbolOf(e)))
  {
  }

  lemma {:induction false} UnaryBack(e: Expr, rest: seq<Token>)
    requires Canonical(e) && !IsInfix(e) && Follows(e, rest)
    ensures ParseUnary(Yield(e) + rest) == Done(e, rest)
    decreases e, 3
  {
    hide Yield, Canonical, Follows, ParsePostfix;
    if e.Unary? || e.Explode? {
      PrefixShape(e, if e.Unary? then UnarySymbol(e.uop) else Ellipsis, rest);
      UnaryBack(e.operand, rest);
      assert (Yield(e) + rest)[1..] == Yield(e.operand) + rest;
    } else {
      NotAType(e);
      HeadOfPostfix(e);
      PostfixFollows(e, rest);
      PostfixBack(e, rest);
    }
  }

  lemma NotAType(e: Expr)
    requires Canonical(e)
    ensures !e.Type?
  {
  }

  lemma PostfixFollows(e: Expr, rest: seq<Token>)
    requires IsPostfix(e) && Follows(e, rest)
    ensures IsPrimary(e) ==> !Head(rest).Not?
    ensures PostfixRest(e, rest) == Done(e, rest)
  {
  }

  lemma CombineSymbol(e: Expr)
    requires IsInfix(e)
    ensures Combine(SymbolOf(e), e.lhs, e.rhs) == e
  {
  }

  /** After the first operand of an operator tree comes an operator that binds
      at least as tightly as the tree's own. */
  lemma {:induction false} FirstOperator(e: Expr, rest: seq<Token>)
    requires Canonical(e) && IsInfix(e)
    ensures var r := ParseUnary(Yield(e) + rest); r.Done? && BinaryPrec(Head(r.rest)) >= PrecOf(e)
    decreases e, 4
  {
    var next := [Op(SymbolOf(e))] + (Yield(e.rhs) + rest);
    assert Yield(e) + rest == Yield(e.lhs) + next;
    if IsInfix(e.lhs) {
      FirstOperator(e.lhs, next);
    } else {
      UnaryBack(e.lhs, next);
    }
  }

  lemma FollowsOperator(e: Expr, rest: seq<Token>)
    requires IsInfix(e)
    ensures Follows(e.lhs, [Op(SymbolOf(e))] + rest)
  {
  }

  /** Climbing from precedence `prec` rebuilds `e` and carries on after it. */
  lemma {:induction false} InfixBack(prec: nat, e: Expr, rest: seq<Token>)
    requires Canonical(e) && Follows(e, rest) && prec <= PrecOf(e) && BinaryPrec(Head(rest)) <= PrecOf(e)
    ensures ParseFrom(prec, Yield(e) + rest) == ParseBinRhs(prec, e, rest)
    decreases e, 5
  {
    hide ParseOperand, Combine, Follows, ParseUnary, BinaryPrec, Yield, Canonical, PrecOf, SymbolOf;
    if !IsInfix(e) {
      UnaryBack(e, rest);
    } else {
      InfixShape(e, rest);
      PrecPositive(e);
      var tail := Yield(e.rhs) + rest;
      FollowsOperator(e, tail);
      var next := [Op(SymbolOf(e))] + tail;
      assert Yield(e) + rest == Yield(e.lhs) + next;
      InfixBack(prec, e.lhs, next);
      assert next[1..] == tail;
      CombineSymbol(e);
      OperandBack(e, rest);
    }
  }

  lemma NotTypeOperator(e: Expr)
    requires IsInfix(e)
    ensures (SymbolOf(e) == AS || SymbolOf(e) == IS) <==> (e.Cast? || e.Test?)
  {
  }

  lemma TypeYield(e: Expr)
    requires e.Type?
    ensures Yield(e) == [TypeName(e.id)]
  {
  }

  lemma PrecPositive(e: Expr)
    ensures PrecOf(e) >= 1
  {
  }

  lemma ClimbStops(prec: nat, e: Expr, rest: seq<Token>)
    requires BinaryPrec(Head(rest)) < prec
    ensures ParseBinRhs(prec, e, rest) == Done(e, rest)
  {
  }

  lemma TypesBindTightest(e: Expr, t: Token)
    requires e.Cast? || e.Test?
    ensures BinaryPrec(t) <= PrecOf(e)
  {
  }

  /** The right operand, including everything that binds tighter than the operator. */
  lemma {:induction false} OperandBack(e: Expr, rest: seq<Token>)
    requires Canonical(e) && IsInfix(e) && Follows(e, rest) && BinaryPrec(Head(rest)) <= PrecOf(e)
    ensures var q := PrecOf(e); var r := ParseOperand(SymbolOf(e), Yield(e.rhs) + rest);
      && r.Done?
      && (if q < BinaryPrec(Head(r.rest)) then ParseBinRhs(q + 1, r.e, r.rest) else r) == Done(e.rhs, rest)
    decreases e, 4
  {
    hide ParseBinRhs, ParseUnary, BinaryPrec, Yield, Canonical, Follows, PrecOf, SymbolOf;
    InfixShape(e, rest);
    NotTypeOperator(e);
    var ts := Yield(e.rhs) + rest;
    if e.Cast? || e.Test? {
      TypesBindTightest(e, Head(rest));
      TypeYield(e.rhs);
      assert ts[1..] == rest;
    } else if IsInfix(e.rhs) {
      FirstOperator(e.rhs, rest);
      PrecPositive(e);
      InfixBack(PrecOf(e) + 1, e.rhs, rest);
      ClimbStops(PrecOf(e) + 1, e.rhs, rest);
    } else {
      UnaryBack(e.rhs, rest);
    }
  }

  /** Every canonical tree is what the parser makes of its tokens, exactly. */
  lemma {:induction false} ExprBack(e: Expr, rest: seq<Token>)
    requires Canonical(e) && Follows(e, rest) && !Head(rest).Op?
    ensures ParseExpr(Yield(e) + rest) == Done(e, rest)
    decreases e, 6
  {
    InfixBack(0, e, rest);
  }

  /** The grammar is unambiguous: no two trees have the same tokens. */
  lemma Unambiguous(e: Expr, f: Expr)
    requires Canonical(e) && Canonical(f) && Yield(e) == Yield(f)
    ensures e == f
  {
    ExprBack(e, []);
    ExprBack(f, []);
  }
}
