// Whatever the parser accepts is the token sequence of the tree it returns,
// up to unary plus, which leaves no trace in the tree.
module Soundness {
  import opened Syntax
  import opened Grammar
  import opened Completeness

  /** Whether an operand is expected after `t`. */
  predicate After(t: Token, prefix: bool) {
    t.Op? || t.LParen? || t.LBracket? || t.Comma? || t.Ellipsis? || (t.Not? && prefix)
  }

  /** The tokens without those `+` that stand where an operand is expected. */
  function Erase(ts: seq<Token>, prefix: bool): (r: seq<Token>)
    ensures |r| <= |ts|
    ensures !prefix ==> Head(r) == Head(ts)
  {
    if ts == [] then []
    else if prefix && ts[0] == Op(PLUS) then Erase(ts[1..], true)
    else [ts[0]] + Erase(ts[1..], After(ts[0], prefix))
  }

  predicate Suffix(rest: seq<Token>, ts: seq<Token>) {
    |rest| <= |ts| && ts[|ts| - |rest|..] == rest
  }

  lemma SuffixTrans(a: seq<Token>, b: seq<Token>, c: seq<Token>)
    requires Suffix(a, b) && Suffix(b, c)
    ensures Suffix(a, c)
  {
    assert c[|c| - |a|..] == c[|c| - |b|..][|b| - |a|..];
  }

  lemma SuffixDrop(ts: seq<Token>, k: nat)
    requires k <= |ts|
    ensures Suffix(ts[k..], ts)
  {
  }

  /** What the soundness lemmas say of a tree parsed from `ts`, an operand being expected. */
  ghost predicate Reads(e: Expr, rest: seq<Token>, ts: seq<Token>) {
    Canonical(e) && Suffix(rest, ts) && Erase(ts, true) == Yield(e) + Erase(rest, false)
  }

  lemma EraseStep(ts: seq<Token>, prefix: bool)
    requires ts != [] && !(prefix && ts[0] == Op(PLUS))
    ensures Erase(ts, prefix) == [ts[0]] + Erase(ts[1..], After(ts[0], prefix))
  {
  }

  lemma TupleShape(es: seq<Expr>)
    ensures Yield(Tuple(es)) == [LParen] + YieldList(es) + [RParen] && (Canonical(Tuple(es)) <==> AllCanonical(es))
  {
  }

  lemma {:induction false} PrimarySound(ts: seq<Token>)
    requires ParsePrimary(ts).Done?
    ensures var r := ParsePrimary(ts); Reads(r.e, r.rest, ts) && IsPrimary(r.e) && Erase(ts, false) == Erase(ts, true)
    decreases |ts|, 1
  {
    var r := ParsePrimary(ts);
    if ts[0].LParen? {
      hide Suffix, ParseTuple, Erase, Yield, Canonical;
      TupleSound(ts);
      TupleShape(r.e.es);
    } else if ts[0].Dot? {
      hide YieldList, ParseTuple, Suffix;
      SuffixDrop(ts, 2);
      assert ts[1..][1..] == ts[2..];
      EraseStep(ts, true);
      EraseStep(ts, false);
      EraseStep(ts[1..], false);
      assert [ts[0]] + ([ts[1]] + Erase(ts[2..], false)) == [ts[0], ts[1]] + Erase(ts[2..], false);
    } else {
      hide YieldList, ParseTuple, Suffix;
      SuffixDrop(ts, 1);
    }
  }

  lemma {:induction false} TupleSound(ts: seq<Token>)
    requires ParseTuple(ts).DoneList?
    ensures var r := ParseTuple(ts);
      && AllCanonical(r.es) && Suffix(r.rest, ts) && Erase(ts, false) == Erase(ts, true)
      && Erase(ts, true) == [LParen] + YieldList(r.es) + [RParen] + Erase(r.rest, false)
    decreases |ts|, 0
  {
    hide Suffix, ParseItems, AllCanonical, YieldList;
    var r := ParseTuple(ts);
    SuffixDrop(ts, 1);
    if ts[1].RParen? {
      SuffixDrop(ts, 2);
      assert ts[1..][1..] == ts[2..];
      NoneCanonical();
      assert Erase(ts[1..], true) == [RParen] + Erase(ts[2..], false);
      assert [LParen] + [] + [RParen] + Erase(ts[2..], false) == [LParen] + ([RParen] + Erase(ts[2..], false));
    } else {
      ItemsSound(ts[1..]);
      SuffixTrans(r.rest, ts[1..], ts);
      assert [LParen] + (YieldList(r.es) + [RParen] + Erase(r.rest, false))
          == [LParen] + YieldList(r.es) + [RParen] + Erase(r.rest, false);
    }
  }

  lemma NoneCanonical()
    ensures AllCanonical([]) && YieldList([]) == []
  {
  }

  lemma {:induction false} ItemsSound(ts: seq<Token>)
    requires ParseItems(ts).DoneList?
    ensures var r := ParseItems(ts);
      && r.es != [] && AllCanonical(r.es) && Suffix(r.rest, ts)
      && Erase(ts, true) == YieldList(r.es) + [RParen] + Erase(r.rest, false)
    decreases |ts|, 6
  {
    hide Suffix, ParseExpr, Canonical, Follows, Yield, Erase;
    ExprSound(ts);
    NoneCanonical();
    OneItem(ParseExpr(ts).e);
    var first := ParseExpr(ts);
    var e, rest := first.e, first.rest;
    SuffixDrop(rest, 1);
    SuffixTrans(rest[1..], rest, ts);
    EraseStep(rest, false);
    if rest[0].Comma? {
      var more := ParseItems(rest[1..]);
      ItemsSound(rest[1..]);
      SuffixTrans(more.rest, rest[1..], ts);
      ListAppend(e, more.es);
      assert Yield(e) + ([Comma] + (YieldList(more.es) + [RParen] + Erase(more.rest, false)))
          == Yield(e) + [Comma] + YieldList(more.es) + [RParen] + Erase(more.rest, false);
    } else {
      assert Yield(e) + ([RParen] + Erase(rest[1..], false)) == Yield(e) + [RParen] + Erase(rest[1..], false);
    }
  }

  lemma OneItem(e: Expr)
    ensures YieldList([e]) == Yield(e) && (AllCanonical([e]) <==> Canonical(e))
  {
  }

  lemma ListAppend(e: Expr, es: seq<Expr>)
    requires es != []
    ensures YieldList([e] + es) == Yield(e) + [Comma] + YieldList(es)
    ensures AllCanonical([e] + es) <==> Canonical(e) && AllCanonical(es)
  {
    assert ([e] + es)[1..] == es;
  }

  /** A postfix chain that goes on from `operand` at `ts`. */
  ghost predicate Extends(r: Parse, operand: Expr, ts: seq<Token>) {
    r.Done? ==>
      && Canonical(r.e) && IsPostfix(r.e) && Suffix(r.rest, ts)
      && Yield(r.e) + Erase(r.rest, false) == Yield(operand) + Erase(ts, false)
      && (var t := Head(r.rest); !t.Dot? && !t.LBracket? && !t.LParen?)
      && (IsPrimary(r.e) ==> r.e == operand && r.rest == ts)
  }

  lemma ExtendsSelf(operand: Expr, ts: seq<Token>)
    requires Canonical(operand) && IsPostfix(operand)
    requires var t := Head(ts); !t.Dot? && !t.LBracket? && !t.LParen?
    ensures Extends(Done(operand, ts), operand, ts)
  {
    assert ts[|ts| - |ts|..] == ts;
  }

  lemma ExtendsMore(r: Parse, operand: Expr, ts: seq<Token>, longer: Expr, rest: seq<Token>)
    requires Extends(r, longer, rest) && !IsPrimary(longer) && Suffix(rest, ts)
    requires Yield(longer) + Erase(rest, false) == Yield(operand) + Erase(ts, false)
    ensures Extends(r, operand, ts)
  {
    if r.Done? {
      SuffixTrans(r.rest, rest, ts);
    }
  }

  lemma {:induction false} PostfixRestSound(operand: Expr, ts: seq<Token>)
    requires Canonical(operand) && IsPostfix(operand)
    ensures Extends(PostfixRest(operand, ts), operand, ts)
    decreases |ts|, 2
  {
    hide Extends, Canonical, IsPostfix, Yield, Erase, ParseTuple, ParsePrimary, ParseExpr, Suffix;
    if PostfixRest(operand, ts).Fail? {
      NotDone(operand, ts);
    } else {
      if Head(ts).Dot? {
        AccessSound(operand, ts);
      } else if Head(ts).LBracket? {
        IndexSound(operand, ts);
      } else if Head(ts).LParen? {
        CallSound(operand, ts);
      } else {
        ExtendsSelf(operand, ts);
      }
    }
  }

  lemma NotDone(operand: Expr, ts: seq<Token>)
    ensures Extends(Fail, operand, ts)
  {
  }

  lemma {:induction false} AccessSound(operand: Expr, ts: seq<Token>)
    requires Canonical(operand) && IsPostfix(operand) && Head(ts).Dot? && PostfixRest(operand, ts).Done?
    ensures Extends(PostfixRest(operand, ts), operand, ts)
    decreases |ts|, 1
  {
    hide Suffix, ParsePrimary, Extends, Canonical, IsPostfix, IsPrimary, Yield, Erase;
    EraseStep(ts, false);
    PrimarySound(ts[1..]);
    var p := ParsePrimary(ts[1..]);
    SuffixDrop(ts, 1);
    SuffixTrans(p.rest, ts[1..], ts);
    ChainShape(operand, p.e, []);
    PostfixRestSound(Access(operand, p.e), p.rest);
    Reassociate(Yield(operand), [Dot], Yield(p.e), Erase(p.rest, false));
    ExtendsMore(PostfixRest(operand, ts), operand, ts, Access(operand, p.e), p.rest);
  }

  lemma {:induction false} IndexSound(operand: Expr, ts: seq<Token>)
    requires Canonical(operand) && IsPostfix(operand) && Head(ts).LBracket? && PostfixRest(operand, ts).Done?
    ensures Extends(PostfixRest(operand, ts), operand, ts)
    decreases |ts|, 1
  {
    hide Suffix, ParseExpr, Extends, Follows, Canonical, IsPostfix, Yield, Erase;
    EraseStep(ts, false);
    ExprSound(ts[1..]);
    var p := ParseExpr(ts[1..]);
    var rest := p.rest[1..];
    SuffixDrop(ts, 1);
    SuffixDrop(p.rest, 1);
    SuffixTrans(rest, p.rest, ts[1..]);
    SuffixTrans(rest, ts[1..], ts);
    ChainShape(operand, p.e, []);
    PostfixRestSound(Index(operand, p.e), rest);
    EraseStep(p.rest, false);
    Reassociate(Yield(operand), [LBracket], Yield(p.e), [RBracket] + Erase(rest, false));
    assert Yield(operand) + [LBracket] + Yield(p.e) + ([RBracket] + Erase(rest, false))
        == Yield(operand) + [LBracket] + Yield(p.e) + [RBracket] + Erase(rest, false);
    ExtendsMore(PostfixRest(operand, ts), operand, ts, Index(operand, p.e), rest);
  }

  lemma {:induction false} CallSound(operand: Expr, ts: seq<Token>)
    requires Canonical(operand) && IsPostfix(operand) && Head(ts).LParen? && PostfixRest(operand, ts).Done?
    ensures Extends(PostfixRest(operand, ts), operand, ts)
    decreases |ts|, 1
  {
    hide Suffix, ParseTuple, Extends, Canonical, IsPostfix, Yield, Erase;
    TupleSound(ts);
    var p := ParseTuple(ts);
    var call := Call(operand, p.es, operand == Var("printf"));
    ChainShape(operand, operand, p.es);
    PostfixRestSound(call, p.rest);
    assert Yield(operand) + ([LParen] + YieldList(p.es) + [RParen] + Erase(p.rest, false))
        == Yield(operand) + ([LParen] + YieldList(p.es) + [RParen]) + Erase(p.rest, false);
    ExtendsMore(PostfixRest(operand, ts), operand, ts, call, p.rest);
  }

  lemma {:induction false} PostfixSound(ts: seq<Token>)
    requires ParsePostfix(ts).Done?
    ensures var r := ParsePostfix(ts); Reads(r.e, r.rest, ts) && IsPostfix(r.e) && Follows(r.e, r.rest)
    decreases |ts|, 2
  {
    hide Suffix, ParsePrimary, PostfixRest, Erase, Yield, Canonical, EndsInType;
    PrimarySound(ts);
    var r, p := ParsePostfix(ts), ParsePrimary(ts);
    if Head(p.rest).Not? {
      var rest := p.rest[1..];
      SuffixDrop(p.rest, 1);
      SuffixTrans(rest, p.rest, ts);
      EraseStep(p.rest, false);
      EffShape(p.e);
      PostfixRestSound(Eff(p.e), rest);
      SuffixTrans(r.rest, rest, ts);
      assert Yield(p.e) + ([Not] + Erase(rest, false)) == Yield(p.e) + [Not] + Erase(rest, false);
    } else {
      PostfixRestSound(p.e, p.rest);
      SuffixTrans(r.rest, p.rest, ts);
    }
  }

  lemma EffShape(x: Expr)
    requires Canonical(x) && IsPrimary(x)
    ensures Canonical(Eff(x)) && IsPostfix(Eff(x)) && !IsPrimary(Eff(x)) && Yield(Eff(x)) == Yield(x) + [Not]
  {
  }

  lemma {:induction false} UnarySound(ts: seq<Token>)
    requires ParseUnary(ts).Done?
    ensures var r := ParseUnary(ts); Reads(r.e, r.rest, ts) && !IsInfix(r.e) && Follows(r.e, r.rest)
    decreases |ts|, 3
  {
    hide Suffix, ParsePostfix, Yield, Erase, Canonical, Follows;
    var r := ParseUnary(ts);
    var t := Head(ts);
    if t == Op(PLUS) {
      UnarySound(ts[1..]);
      ErasePlus(ts);
      SuffixDrop(ts, 1);
      SuffixTrans(r.rest, ts[1..], ts);
    } else if t.Not? || t.Ellipsis? || t == Op(MINUS) || t == Op(STAR) || t == Op(BAND) {
      UnarySound(ts[1..]);
      EraseStep(ts, true);
      PrefixShape(r.e, t, r.rest);
      SuffixDrop(ts, 1);
      SuffixTrans(r.rest, ts[1..], ts);
      assert [t] + (Yield(r.e.operand) + Erase(r.rest, false)) == [t] + Yield(r.e.operand) + Erase(r.rest, false);
    } else {
      PostfixSound(ts);
    }
  }

  lemma ErasePlus(ts: seq<Token>)
    requires ts != [] && ts[0] == Op(PLUS)
    ensures Erase(ts, true) == Erase(ts[1..], true)
  {
  }

  /** What climbing from `prec` makes of `lhs` and the tokens after it. */
  ghost predicate Climbs(r: Parse, prec: nat, lhs: Expr, ts: seq<Token>) {
    r.Done? ==>
      && Canonical(r.e) && Suffix(r.rest, ts)
      && Yield(r.e) + Erase(r.rest, false) == Yield(lhs) + Erase(ts, false)
      && Follows(r.e, r.rest) && BinaryPrec(Head(r.rest)) < prec
      && (r.e == lhs || PrecOf(r.e) >= prec)
  }

  lemma {:induction false} BinRhsSound(prec: nat, lhs: Expr, ts: seq<Token>)
    requires Canonical(lhs) && Follows(lhs, ts) && BinaryPrec(Head(ts)) <= PrecOf(lhs)
    ensures Climbs(ParseBinRhs(prec, lhs, ts), prec, lhs, ts)
    decreases |ts|, 7
  {
    hide Suffix, Canonical, Follows, Yield, ParseOperand, Combine, BinaryPrec, PrecOf, Erase;
    var r := ParseBinRhs(prec, lhs, ts);
    if BinaryPrec(Head(ts)) < prec {
      SuffixDrop(ts, 0);
      assert ts[0..] == ts;
    } else if r.Done? {
      OnlyOperatorsContinue(Head(ts), prec);
      var rhs := TightOperand(ts);
      CombineSound(ts[0].infix, lhs, rhs.e, ts, rhs.rest);
      BinRhsSound(prec, Combine(ts[0].infix, lhs, rhs.e), rhs.rest);
      SuffixTrans(r.rest, rhs.rest, ts);
    }
  }

  /** An operator's right operand with everything that binds tighter. */
  lemma {:induction false} TightOperand(ts: seq<Token>) returns (rhs: Parse)
    requires ts != [] && ts[0].Op?
    requires var o := ParseOperand(ts[0].infix, ts[1..]); var q := BinaryPrec(ts[0]);
      o.Done? && q >= 1 && (q < BinaryPrec(Head(o.rest)) ==> ParseBinRhs(q + 1, o.e, o.rest).Done?)
    ensures var o := ParseOperand(ts[0].infix, ts[1..]); var q := BinaryPrec(ts[0]);
      rhs == if q < BinaryPrec(Head(o.rest)) then ParseBinRhs(q + 1, o.e, o.rest) else o
    ensures rhs.Done? && Suffix(rhs.rest, ts) && |rhs.rest| < |ts|
    ensures Erase(ts, false) == [ts[0]] + (Yield(rhs.e) + Erase(rhs.rest, false))
    ensures BinaryPrec(Head(rhs.rest)) <= BinaryPrec(ts[0])
    ensures if ts[0].infix == AS || ts[0].infix == IS then rhs.e.Type?
            else Canonical(rhs.e) && PrecOf(rhs.e) > BinaryPrec(ts[0]) && Follows(rhs.e, rhs.rest)
    decreases |ts|, 6
  {
    hide Suffix, Canonical, Follows, Yield, ParseOperand, ParseBinRhs, Erase, BinaryPrec;
    var operand := ParseOperand(ts[0].infix, ts[1..]);
    OperandSound(ts[0].infix, ts);
    SuffixDrop(ts, 1);
    SuffixTrans(operand.rest, ts[1..], ts);
    var q := BinaryPrec(ts[0]);
    LooserThanAtoms(ts[0]);
    LooserThanAtoms(Head(operand.rest));
    if q < BinaryPrec(Head(operand.rest)) {
      rhs := ParseBinRhs(q + 1, operand.e, operand.rest);
      BinRhsSound(q + 1, operand.e, operand.rest);
      SuffixTrans(rhs.rest, operand.rest, ts);
    } else {
      rhs := operand;
    }
  }

  lemma LooserThanAtoms(t: Token)
    ensures BinaryPrec(t) < 100
  {
  }

  /** The first operand to the right of an operator. */
  lemma {:induction false} OperandSound(infix: Infix, ts: seq<Token>)
    requires ts != [] && ts[0] == Op(infix) && ParseOperand(infix, ts[1..]).Done?
    ensures var r := ParseOperand(infix, ts[1..]);
      && Suffix(r.rest, ts[1..]) && Erase(ts, false) == [ts[0]] + (Yield(r.e) + Erase(r.rest, false))
      && if infix == AS || infix == IS then r.e.Type? else Canonical(r.e) && !IsInfix(r.e) && Follows(r.e, r.rest)
    ensures BinaryPrec(ts[0]) < BinaryPrec(Head(ParseOperand(infix, ts[1..]).rest)) ==> infix != AS && infix != IS
    decreases |ts|, 4
  {
    hide ParseUnary;
    if infix != AS && infix != IS {
      UnarySound(ts[1..]);
    }
  }

  lemma CombineShape(infix: Infix, lhs: Expr, rhs: Expr)
    ensures var e := Combine(infix, lhs, rhs);
      && IsInfix(e) && SymbolOf(e) == infix && e.lhs == lhs && e.rhs == rhs
      && (e.Cast? || e.Test? <==> infix == AS || infix == IS)
  {
  }

  lemma CombineSound(infix: Infix, lhs: Expr, rhs: Expr, ts: seq<Token>, rest: seq<Token>)
    requires Canonical(lhs) && Follows(lhs, ts) && ts != [] && ts[0] == Op(infix) && BinaryPrec(ts[0]) <= PrecOf(lhs)
    requires if infix == AS || infix == IS then rhs.Type?
             else Canonical(rhs) && PrecOf(rhs) > BinaryPrec(ts[0]) && Follows(rhs, rest)
    requires Erase(ts, false) == [ts[0]] + (Yield(rhs) + Erase(rest, false))
    requires BinaryPrec(Head(rest)) <= BinaryPrec(ts[0])
    ensures var e := Combine(infix, lhs, rhs);
      && Canonical(e) && PrecOf(e) == BinaryPrec(ts[0]) && Follows(e, rest) && BinaryPrec(Head(rest)) <= PrecOf(e)
      && Yield(e) + Erase(rest, false) == Yield(lhs) + Erase(ts, false)
  {
    hide Yield, Canonical, Combine, SymbolOf, BinaryPrec, Follows, PrecOf, Erase;
    var e := Combine(infix, lhs, rhs);
    CombineShape(infix, lhs, rhs);
    InfixShape(e, rest);
    Reassociate(Yield(lhs), [Op(infix)], Yield(rhs), Erase(rest, false));
  }

  lemma Reassociate(a: seq<Token>, b: seq<Token>, c: seq<Token>, d: seq<Token>)
    ensures a + b + c + d == a + (b + (c + d))
  {
  }

  lemma {:induction false} ExprSound(ts: seq<Token>)
    requires ParseExpr(ts).Done?
    ensures var r := ParseExpr(ts); Reads(r.e, r.rest, ts) && Follows(r.e, r.rest) && !Head(r.rest).Op?
    decreases |ts|, 5
  {
    hide Suffix, ParseUnary, ParseBinRhs, Canonical, Follows, Yield;
    UnarySound(ts);
    var u := ParseUnary(ts);
    BinRhsSound(0, u.e, u.rest);
    SuffixTrans(ParseExpr(ts).rest, u.rest, ts);
  }

  // ----- the grammar, from both sides -----

  lemma {:induction false} EraseWhole(ts: seq<Token>, prefix: bool)
    requires |Erase(ts, prefix)| == |ts|
    ensures Erase(ts, prefix) == ts
  {
    if ts != [] {
      EraseWhole(ts[1..], After(ts[0], prefix));
    }
  }

  lemma {:induction false} EraseLess(ts: seq<Token>)
    ensures |Erase(ts, true)| <= |Erase(ts, false)|
  {
    if ts != [] {
      EraseLess(ts[1..]);
    }
  }

  /** What follows a position in tokens without unary plus has none either. */
  lemma {:induction false} EraseLater(ts: seq<Token>, prefix: bool, k: nat)
    requires Erase(ts, prefix) == ts && k <= |ts|
    ensures Erase(ts[k..], false) == ts[k..]
  {
    if k == 0 {
      assert ts[0..] == ts;
      EraseLess(ts);
      EraseWhole(ts, false);
    } else {
      assert ts[1..][k - 1..] == ts[k..];
      EraseLater(ts[1..], After(ts[0], prefix), k - 1);
    }
  }

  /** On tokens without unary plus the parser accepts exactly the token
      sequences of canonical trees, and returns that tree and what follows. */
  lemma ParsesExactly(ts: seq<Token>, e: Expr, rest: seq<Token>)
    requires Erase(ts, true) == ts
    ensures ParseExpr(ts) == Done(e, rest) <==>
            Canonical(e) && ts == Yield(e) + rest && Follows(e, rest) && !Head(rest).Op?
  {
    if ParseExpr(ts) == Done(e, rest) {
      ExprSound(ts);
      EraseLater(ts, true, |ts| - |rest|);
    }
    if Canonical(e) && ts == Yield(e) + rest && Follows(e, rest) && !Head(rest).Op? {
      ExprBack(e, rest);
    }
  }

  /** Unary plus has no effect on the tree. */
  lemma PlusIgnored(ts: seq<Token>)
    ensures var r := ParseExpr(ts);
            r.Done? ==> ParseExpr(Erase(ts, true)) == Done(r.e, Erase(r.rest, false))
  {
    if ParseExpr(ts).Done? {
      var r := ParseExpr(ts);
      ExprSound(ts);
      ExprBack(r.e, Erase(r.rest, false));
    }
  }
}
