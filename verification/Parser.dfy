// The parser itself: a lexer position and a one-token look-ahead. Each method
// computes the function of Grammar.dfy and consumes exactly what it says.
module Parser {
  import opened Syntax
  import opened Grammar

  datatype Peeked = NoToken | Peeked(token: Token)

  datatype Answer = Error | Node(e: Expr)

  datatype Answers = Errors | Nodes(es: seq<Expr>)

  class Parser {
    const input: seq<Token>
    var offset: nat
    var peeked: Peeked
    var thisToken: Token

    ghost predicate Valid()
      reads this
    {
      && End !in input && offset <= |input|
      && (peeked == Peeked(End) ==> offset == |input|)
    }

    /** The tokens not yet consumed: the one looked at, then the lexer's. */
    ghost function Remaining(): seq<Token>
      reads this
      requires offset <= |input|
    {
      (if peeked.NoToken? || peeked.token == End then [] else [peeked.token]) + input[offset..]
    }

    constructor (input: seq<Token>)
      requires End !in input
      ensures Valid() && Remaining() == input
    {
      this.input := input;
      offset := 0;
      peeked := NoToken;
      thisToken := End;
      new;
      assert [] + input[0..] == input;
    }

    method Next() returns (t: Token)
      requires Valid()
      modifies this
      ensures Valid() && t == Head(old(Remaining())) && Remaining() == Tail(old(Remaining())) && peeked.NoToken?
    {
      if peeked.Peeked? {
        t := peeked.token;
        peeked := NoToken;
      } else if offset < |input| {
        t := input[offset];
        assert input[offset..][1..] == input[offset + 1..];
        offset := offset + 1;
      } else {
        t := End;
      }
      thisToken := t;
      assert [] + input[offset..] == input[offset..];
    }

    method Peek() returns (t: Token)
      requires Valid()
      modifies this
      ensures Valid() && t == Head(Remaining()) && Remaining() == old(Remaining())
    {
      ghost var before := Remaining();
      EndOnlyAtTheEnd();
      t := Next();
      assert [] + input[offset..] == input[offset..] == Tail(before);
      peeked := Peeked(t);
      if before == [] {
        assert |input[offset..]| == 0;
      } else {
        assert [before[0]] + Tail(before) == before;
      }
    }

    /** `End` stands only for the end of the input. */
    lemma EndOnlyAtTheEnd()
      requires Valid()
      ensures Head(Remaining()) == End ==> Remaining() == [] && offset == |input|
    {
      if offset < |input| {
        assert input[offset] in input;
      }
    }

    method ParseTypeOperand() returns (r: Answer)
      requires Valid()
      modifies this
      ensures Matches(r, ParseType(old(Remaining())))
    {
      var t := Peek();
      if t.TypeName? {
        var _ := Next();
        r := Node(Type(t.id));
      } else {
        r := Error;
      }
    }

    /** A node and the tokens left, or an error. */
    ghost predicate Matches(r: Answer, p: Parse)
      reads this
    {
      match p
      case Fail => r == Error
      case Done(e, rest) => r == Node(e) && Valid() && Remaining() == rest
    }

    ghost predicate MatchesList(r: Answers, p: ParseList)
      reads this
    {
      match p
      case FailList => r == Errors
      case DoneList(es, rest) => r == Nodes(es) && Valid() && Remaining() == rest
    }

    method Primary() returns (r: Answer)
      requires Valid()
      modifies this
      ensures Matches(r, ParsePrimary(old(Remaining())))
      decreases |Remaining()|, 1
    {
      hide ParseTuple, MaxOf;
      var t := Peek();
      match t {
        case Dot =>
          var _ := Next();
          var name := Peek();
          if name.Ident? {
            var _ := Next();
            r := Node(Selector(name.name));
          } else {
            r := Error;
          }
        case Ident(name) =>
          var _ := Next();
          r := Node(Var(name));
        case LitBool(b) =>
          var _ := Next();
          r := Node(Bool(b));
        case LitInt(kind, value) =>
          var _ := Next();
          r := if value > MaxOf(kind) then Error else Node(Int(kind, value));
        case LParen =>
          var list := TupleList();
          r := if list.Errors? then Error else Node(Tuple(list.es));
        case _ => r := Error;
      }
    }

    method TupleList() returns (r: Answers)
      requires Valid()
      modifies this
      ensures MatchesList(r, ParseTuple(old(Remaining())))
      decreases |Remaining()|, 0
    {
      var t := Peek();
      if !t.LParen? {
        return Errors;
      }
      ghost var ts := Remaining();
      var _ := Next();
      var es: seq<Expr> := [];
      t := Peek();
      if !t.RParen? {
        ghost var whole := ParseItems(Remaining());
        var more := true;
        while more
          invariant Valid() && |Remaining()| < |ts|
          invariant more ==> whole == Prepend(es, ParseItems(Remaining()))
          invariant !more ==> whole == (if Head(Remaining()).RParen? then DoneList(es, Remaining()[1..]) else FailList)
          decreases if more then 1 else 0, |Remaining()|
        {
          hide ParseExpr;
          ghost var here := Remaining();
          var e := Expression();
          if e.Error? {
            return Errors;
          }
          t := Peek();
          more := t.Comma?;
          PrependItem(es, e.e, here);
          es := es + [e.e];
          if more {
            var _ := Next();
            t := Peek();
            if t.RParen? {
              return Errors;
            }
          }
        }
        t := Peek();
      }
      if !t.RParen? {
        return Errors;
      }
      var _ := Next();
      r := Nodes(es);
    }

    method Postfix() returns (r: Answer)
      requires Valid()
      modifies this
      ensures Matches(r, ParsePostfix(old(Remaining())))
      decreases |Remaining()|, 2
    {
      hide ParsePrimary, ParseExpr, ParseTuple;
      r := Primary();
      if r.Error? {
        return;
      }
      ghost var whole := ParsePostfix(old(Remaining()));
      var operand := r.e;
      var t := Peek();
      if t.Not? {
        var _ := Next();
        operand := Eff(operand);
      }
      while true
        invariant Valid() && |Remaining()| < |old(Remaining())|
        invariant whole == PostfixRest(operand, Remaining())
        decreases |Remaining()|
      {
        hide PostfixRest, ParsePostfix, OneLink;
        OneLinkThenRest(operand, Remaining());
        t := Peek();
        if !t.Dot? && !t.LBracket? && !t.LParen? {
          return Node(operand);
        }
        r := Link(operand);
        if r.Error? {
          return;
        }
        operand := r.e;
      }
    }

    /** One access, index or call on `operand`. */
    method Link(operand: Expr) returns (r: Answer)
      requires Valid()
      modifies this
      ensures Matches(r, OneLink(operand, old(Remaining())))
      decreases |Remaining()|, 1
    {
      hide ParsePrimary, ParseExpr, ParseTuple;
      var t := Peek();
      if t.Dot? {
        var _ := Next();
        r := Primary();
        r := if r.Error? then Error else Node(Access(operand, r.e));
      } else if t.LBracket? {
        r := IndexOf();
        r := if r.Error? then Error else Node(Index(operand, r.e));
      } else if t.LParen? {
        var list := TupleList();
        r := if list.Errors? then Error else Node(Call(operand, list.es, operand == Var("printf")));
      } else {
        r := Error;
      }
    }

    /** An index between brackets. */
    method IndexOf() returns (r: Answer)
      requires Valid() && Head(Remaining()).LBracket?
      modifies this
      ensures var p := ParseExpr(old(Remaining())[1..]);
              Matches(r, if p.Done? && Head(p.rest).RBracket? then Done(p.e, p.rest[1..]) else Fail)
      decreases |Remaining()|, 0
    {
      var _ := Next();
      r := Expression();
      if r.Node? {
        var t := Peek();
        if !t.RBracket? {
          return Error;
        }
        var _ := Next();
      }
    }

    method UnaryExpr() returns (r: Answer)
      requires Valid()
      modifies this
      ensures Matches(r, ParseUnary(old(Remaining())))
      decreases |Remaining()|, 3
    {
      hide ParsePostfix;
      var t := Peek();
      match t {
        case Not => r := PrefixOf(NOT);
        case Op(infix) =>
          if infix == MINUS {
            r := PrefixOf(NEG);
          } else if infix == PLUS {
            var _ := Next();
            r := UnaryExpr();
          } else if infix == STAR {
            r := PrefixOf(DEREF);
          } else if infix == BAND {
            r := PrefixOf(ADDROF);
          } else {
            r := Postfix();
          }
        case Ellipsis =>
          var _ := Next();
          r := UnaryExpr();
          r := if r.Error? then Error else Node(Explode(r.e));
        case _ => r := Postfix();
      }
    }

    method PrefixOf(op: UnaryOp) returns (r: Answer)
      requires Valid() && Remaining() != []
      modifies this
      ensures Matches(r, Prefix(op, ParseUnary(old(Remaining())[1..])))
      decreases |Remaining()|, 2
    {
      var _ := Next();
      r := UnaryExpr();
      r := if r.Error? then Error else Node(Unary(op, r.e));
    }

    /** Precedence climbing: the loop replaces `lhs` by ever larger trees. */
    method BinRhs(prec: nat, lhs: Expr) returns (r: Answer)
      requires Valid()
      modifies this
      ensures Matches(r, ParseBinRhs(prec, lhs, old(Remaining())))
      decreases |Remaining()|, 4
    {
      hide ParseUnary;
      var tree := lhs;
      ghost var whole := ParseBinRhs(prec, lhs, Remaining());
      while true
        invariant Valid() && |Remaining()| <= |old(Remaining())|
        invariant whole == ParseBinRhs(prec, tree, Remaining())
        decreases |Remaining()|
      {
        var t := Peek();
        var peekPrec := BinaryPrec(t);
        if peekPrec < prec {
          return Node(tree);
        }
        var _ := Next();
        var kind := t.infix;
        r := OperandOf(kind);
        if r.Error? {
          return;
        }
        t := Peek();
        if peekPrec < BinaryPrec(t) {
          r := BinRhs(peekPrec + 1, r.e);
          if r.Error? {
            return;
          }
        }
        tree := Combine(kind, tree, r.e);
      }
    }

    method OperandOf(kind: Infix) returns (r: Answer)
      requires Valid()
      modifies this
      ensures Matches(r, ParseOperand(kind, old(Remaining())))
      decreases |Remaining()|, 4
    {
      if kind == AS || kind == IS {
        r := ParseTypeOperand();
      } else {
        r := UnaryExpr();
      }
    }

    method Expression() returns (r: Answer)
      requires Valid()
      modifies this
      ensures Matches(r, ParseExpr(old(Remaining())))
      decreases |Remaining()|, 5
    {
      hide ParseUnary, ParseBinRhs;
      assert ParseExpr(Remaining()) == ParseFrom(0, Remaining());
      r := UnaryExpr();
      if r.Node? {
        r := BinRhs(0, r.e);
      }
    }
  }

  /** A single link of a postfix chain. */
  function OneLink(operand: Expr, ts: seq<Token>): (r: Parse)
    ensures r.Done? ==> |r.rest| < |ts|
  {
    match Head(ts)
    case Dot =>
      (match ParsePrimary(ts[1..])
       case Fail => Fail
       case Done(e, rest) => Done(Access(operand, e), rest))
    case LBracket =>
      (match ParseExpr(ts[1..])
       case Fail => Fail
       case Done(e, rest) => if Head(rest).RBracket? then Done(Index(operand, e), rest[1..]) else Fail)
    case LParen =>
      (match ParseTuple(ts)
       case FailList => Fail
       case DoneList(es, rest) => Done(Call(operand, es, operand == Var("printf")), rest))
    case _ => Fail
  }

  lemma OneLinkThenRest(operand: Expr, ts: seq<Token>)
    ensures var t := Head(ts);
      PostfixRest(operand, ts) ==
      if t.Dot? || t.LBracket? || t.LParen? then
        var l := OneLink(operand, ts);
        if l.Done? then PostfixRest(l.e, l.rest) else Fail
      else Done(operand, ts)
  {
    hide ParsePrimary, ParseExpr, ParseTuple;
  }

  function Prepend(es: seq<Expr>, p: ParseList): ParseList {
    if p.FailList? then p else DoneList(es + p.es, p.rest)
  }

  lemma PrependItem(es: seq<Expr>, e: Expr, ts: seq<Token>)
    requires ParseExpr(ts).Done? && ParseExpr(ts).e == e
    ensures var rest := ParseExpr(ts).rest;
      && (Head(rest).Comma? && Head(rest[1..]).RParen? ==> Prepend(es, ParseItems(ts)) == FailList)
      && (Head(rest).Comma? && !Head(rest[1..]).RParen? ==>
            Prepend(es, ParseItems(ts)) == Prepend(es + [e], ParseItems(rest[1..])))
      && (!Head(rest).Comma? ==>
            Prepend(es, ParseItems(ts)) == if Head(rest).RParen? then DoneList(es + [e], rest[1..]) else FailList)
  {
    var rest := ParseExpr(ts).rest;
    if Head(rest).Comma? && ParseItems(rest[1..]).DoneList? {
      var more := ParseItems(rest[1..]);
      assert es + ([e] + more.es) == es + [e] + more.es;
    }
  }
}
