// The recursive-descent parser as functions from the remaining tokens to a
// tree and the tokens left over. The mutable parser is in Parser.dfy.
module Grammar {
  import opened Syntax

  datatype Parse = Fail | Done(e: Expr, rest: seq<Token>)

  datatype ParseList = FailList | DoneList(es: seq<Expr>, rest: seq<Token>)

  function Head(ts: seq<Token>): Token {
    if ts == [] then End else ts[0]
  }

  /** The lexer keeps answering `End` at the end of the input. */
  function Tail(ts: seq<Token>): seq<Token> {
    if ts == [] then [] else ts[1..]
  }

  function ParseType(ts: seq<Token>): (r: Parse)
    ensures r.Done? ==> |r.rest| < |ts|
  {
    if Head(ts).TypeName? then Done(Type(ts[0].id), ts[1..]) else Fail
  }

  function ParsePrimary(ts: seq<Token>): (r: Parse)
    ensures r.Done? ==> |r.rest| < |ts|
    decreases |ts|, 1
  {
    match Head(ts)
    case Dot => if Head(ts[1..]).Ident? then Done(Selector(ts[1].name), ts[2..]) else Fail
    case Ident(name) => Done(Var(name), ts[1..])
    case LitBool(b) => Done(Bool(b), ts[1..])
    case LitInt(kind, value) => if value > MaxOf(kind) then Fail else Done(Int(kind, value), ts[1..])
    case LParen =>
      (match ParseTuple(ts)
       case FailList => Fail
       case DoneList(es, rest) => Done(Tuple(es), rest))
    case _ => Fail
  }

  /** A parenthesised list. A comma must be followed by another expression. */
  function ParseTuple(ts: seq<Token>): (r: ParseList)
    ensures r.DoneList? ==> |r.rest| < |ts|
    decreases |ts|, 0
  {
    if !Head(ts).LParen? then FailList
    else if Head(ts[1..]).RParen? then DoneList([], ts[2..])
    else ParseItems(ts[1..])
  }

  /** At least one expression, up to and including the closing parenthesis. */
  function ParseItems(ts: seq<Token>): (r: ParseList)
    ensures r.DoneList? ==> |r.rest| < |ts|
    decreases |ts|, 6
  {
    match ParseExpr(ts)
    case Fail => FailList
    case Done(e, rest) =>
      if Head(rest).Comma? then
        if Head(rest[1..]).RParen? then FailList else
        match ParseItems(rest[1..])
        case FailList => FailList
        case DoneList(es, rest') => DoneList([e] + es, rest')
      else if Head(rest).RParen? then DoneList([e], rest[1..])
      else FailList
  }

  function ParsePostfix(ts: seq<Token>): (r: Parse)
    ensures r.Done? ==> |r.rest| < |ts|
    decreases |ts|, 2
  {
    match ParsePrimary(ts)
    case Fail => Fail
    case Done(e, rest) =>
      if Head(rest).Not? then PostfixRest(Eff(e), rest[1..]) else PostfixRest(e, rest)
  }

  function PostfixRest(operand: Expr, ts: seq<Token>): (r: Parse)
    ensures r.Done? ==> |r.rest| <= |ts|
    decreases |ts|, 1
  {
    match Head(ts)
    case Dot =>
      (match ParsePrimary(ts[1..])
       case Fail => Fail
       case Done(e, rest) => PostfixRest(Access(operand, e), rest))
    case LBracket =>
      (match ParseExpr(ts[1..])
       case Fail => Fail
       case Done(e, rest) =>
         if Head(rest).RBracket? then PostfixRest(Index(operand, e), rest[1..]) else Fail)
    case LParen =>
      (match ParseTuple(ts)
       case FailList => Fail
       case DoneList(es, rest) => PostfixRest(Call(operand, es, operand == Var("printf")), rest))
    case _ => Done(operand, ts)
  }

  function ParseUnary(ts: seq<Token>): (r: Parse)
    ensures r.Done? ==> |r.rest| < |ts|
    decreases |ts|, 3
  {
    match Head(ts)
    case Not => Prefix(NOT, ParseUnary(ts[1..]))
    case Ellipsis =>
      var r := ParseUnary(ts[1..]);
      if r.Done? then Done(Explode(r.e), r.rest) else Fail
    case Op(infix) =>
      (match infix
       case MINUS => Prefix(NEG, ParseUnary(ts[1..]))
       case PLUS => ParseUnary(ts[1..])
       case STAR => Prefix(DEREF, ParseUnary(ts[1..]))
       case BAND => Prefix(ADDROF, ParseUnary(ts[1..]))
       case _ => ParsePostfix(ts))
    case _ => ParsePostfix(ts)
  }

  function Prefix(op: UnaryOp, r: Parse): Parse {
    if r.Done? then Done(Unary(op, r.e), r.rest) else Fail
  }

  /** The node that an operator token makes of its operands. */
  function Combine(token: Infix, lhs: Expr, rhs: Expr): Expr {
    match token
    case AS => Cast(lhs, rhs)
    case IS => Test(lhs, rhs)
    case OF => Prop(lhs, rhs)
    case STAR => Bin(MUL, lhs, rhs)
    case FSLASH => Bin(DIV, lhs, rhs)
    case PLUS => Bin(ADD, lhs, rhs)
    case MINUS => Bin(SUB, lhs, rhs)
    case LSHIFT => Bin(SHL, lhs, rhs)
    case RSHIFT => Bin(SHR, lhs, rhs)
    case LT => Bin(LT_, lhs, rhs)
    case LTE => Bin(LE, lhs, rhs)
    case MIN => Bin(MIN_, lhs, rhs)
    case GT => Bin(GT_, lhs, rhs)
    case GTE => Bin(GE, lhs, rhs)
    case MAX => Bin(MAX_, lhs, rhs)
    case EQEQ => Bin(EQ, lhs, rhs)
    case NEQ => Bin(NE, lhs, rhs)
    case BAND => Bin(AND, lhs, rhs)
    case BOR => Bin(OR, lhs, rhs)
    case LAND => LBin(LOGAND, lhs, rhs)
    case LOR => LBin(LOGOR, lhs, rhs)
  }

  /** Reaching a token that is not an operator ends the loop, so the parser's
      "unexpected token" case is never taken. */
  lemma OnlyOperatorsContinue(t: Token, prec: int)
    requires prec >= 0
    ensures BinaryPrec(t) >= prec ==> t.Op?
    ensures t.Op? ==> BinaryPrec(t) >= 1
  {
  }

  function ParseOperand(infix: Infix, ts: seq<Token>): (r: Parse)
    ensures r.Done? ==> |r.rest| < |ts|
    decreases |ts|, 4
  {
    if infix == AS || infix == IS then ParseType(ts) else ParseUnary(ts)
  }

  /** Operators of at least precedence `prec` applied to `lhs`. */
  function ParseBinRhs(prec: nat, lhs: Expr, ts: seq<Token>): (r: Parse)
    ensures r.Done? ==> |r.rest| <= |ts|
    decreases |ts|, 0
  {
    var peekPrec := BinaryPrec(Head(ts));
    if peekPrec < prec then Done(lhs, ts) else
    match ParseOperand(ts[0].infix, ts[1..])
    case Fail => Fail
    case Done(operand, rest) =>
      var r := if peekPrec < BinaryPrec(Head(rest)) then ParseBinRhs(peekPrec + 1, operand, rest)
               else Done(operand, rest);
      if r.Fail? then Fail else ParseBinRhs(prec, Combine(ts[0].infix, lhs, r.e), r.rest)
  }

  function ParseExpr(ts: seq<Token>): (r: Parse)
    ensures r.Done? ==> |r.rest| < |ts|
    decreases |ts|, 5
  {
    ParseFrom(0, ts)
  }

  function ParseFrom(prec: nat, ts: seq<Token>): (r: Parse)
    ensures r.Done? ==> |r.rest| < |ts|
    decreases |ts|, 4
  {
    match ParseUnary(ts)
    case Fail => Fail
    case Done(e, rest) => ParseBinRhs(prec, e, rest)
  }
}
