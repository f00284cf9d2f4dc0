// The fully parenthesising printer, and how far parsing inverts it.
module Printer {
  import opened Syntax
  import opened Grammar
  import opened Completeness
  import opened Soundness

  /** A 64-bit value cut down to 32 bits, read as signed. */
  function AsSint32(value: nat): int {
    var low := value % 0x1_0000_0000;
    if low < 0x8000_0000 then low else low - 0x1_0000_0000
  }

  /** A literal of kind `S64` is printed through a 32-bit integer. */
  function DumpInt(kind: IntKind, value: nat): seq<Token> {
    var printed: int := if kind.S64? then AsSint32(value) else value;
    if printed < 0 then [Op(MINUS), LitInt(kind, -printed)] else [LitInt(kind, printed)]
  }

  /** The printed tokens of the nodes that this model prints. */
  function Dump(e: Expr): seq<Token> {
    match e
    case Var(name) => [Ident(name)]
    case Int(kind, value) => DumpInt(kind, value)
    case Bool(b) => [LitBool(b)]
    case Selector(name) => [Dot, Ident(name)]
    case Type(id) => [TypeName(id)]
    case Tuple(es) => DumpTuple(es)
    case Unary(op, x) => [LParen] + ([UnarySymbol(op)] + Dump(x)) + [RParen]
    case Explode(x) => [Ellipsis] + Dump(x)
    case Eff(x) => Dump(x) + [Not]
    case Index(x, i) => Dump(x) + [LBracket] + Dump(i) + [RBracket]
    case Call(f, args, _) => Dump(f) + DumpTuple(args)
    case Access(l, r) => Dump(l) + [Dot] + Dump(r)
    case Bin(_, l, r) => [LParen] + (Dump(l) + [Op(SymbolOf(e))] + Dump(r)) + [RParen]
    case LBin(_, l, r) => [LParen] + (Dump(l) + [Op(SymbolOf(e))] + Dump(r)) + [RParen]
    case Cast(l, r) => Dump(l) + [Op(AS)] + Dump(r)
    case Test(l, r) => Dump(l) + [Op(IS)] + Dump(r)
    case Prop(l, r) => Dump(l) + [Op(OF)] + Dump(r)
  }

  function DumpTuple(es: seq<Expr>): seq<Token>
    decreases es, 1
  {
    [LParen] + DumpList(es) + [RParen]
  }

  function DumpList(es: seq<Expr>): seq<Token>
    decreases es, 0
  {
    if es == [] then []
    else if |es| == 1 then Dump(es[0])
    else Dump(es[0]) + [Comma] + DumpList(es[1..])
  }

  /** The printer class: every node appends to a shared builder. */
  class TokenBuilder {
    var tokens: seq<Token>

    constructor ()
      ensures tokens == []
    {
      tokens := [];
    }

    method Append(t: Token)
      modifies this
      ensures tokens == old(tokens) + [t]
    {
      tokens := tokens + [t];
    }

    method Print(e: Expr)
      modifies this
      ensures tokens == old(tokens) + Dump(e)
      decreases e, 1
    {
      hide DumpInt, DumpTuple, SymbolOf;
      match e {
        case Var(name) => Append(Ident(name));
        case Int(kind, value) => PrintInt(kind, value);
        case Bool(b) => Append(LitBool(b));
        case Selector(name) => PrintPair(Dot, Ident(name));
        case Type(id) => Append(TypeName(id));
        case Tuple(es) => PrintTuple(es);
        case Unary(_, _) => PrintUnary(e);
        case Explode(_) => PrintExplode(e);
        case Eff(x) =>
          Print(x);
          Append(Not);
        case Index(_, _) => PrintIndex(e);
        case Call(f, args, _) =>
          Print(f);
          PrintTuple(args);
        case Access(l, r) => PrintInfix(l, Dot, r, e);
        case Bin(_, _, _) => PrintOperator(e);
        case LBin(_, _, _) => PrintOperator(e);
        case Cast(l, r) => PrintInfix(l, Op(AS), r, e);
        case Test(l, r) => PrintInfix(l, Op(IS), r, e);
        case Prop(l, r) => PrintInfix(l, Op(OF), r, e);
      }
    }

    method PrintPair(t: Token, u: Token)
      modifies this
      ensures tokens == old(tokens) + [t, u]
    {
      Append(t);
      Append(u);
    }

    method PrintUnary(e: Expr)
      requires e.Unary?
      modifies this
      ensures tokens == old(tokens) + Dump(e)
      decreases e, 0
    {
      Append(LParen);
      Append(UnarySymbol(e.uop));
      Print(e.operand);
      Append(RParen);
    }

    method PrintExplode(e: Expr)
      requires e.Explode?
      modifies this
      ensures tokens == old(tokens) + Dump(e)
      decreases e, 0
    {
      Append(Ellipsis);
      Print(e.operand);
    }

    method PrintIndex(e: Expr)
      requires e.Index?
      modifies this
      ensures tokens == old(tokens) + Dump(e)
      decreases e, 0
    {
      Print(e.operand);
      Append(LBracket);
      Print(e.index);
      Append(RBracket);
    }

    method PrintOperator(e: Expr)
      requires e.Bin? || e.LBin?
      modifies this
      ensures tokens == old(tokens) + Dump(e)
      decreases e, 0
    {
      Append(LParen);
      Print(e.lhs);
      Append(Op(SymbolOf(e)));
      Print(e.rhs);
      Append(RParen);
    }

    method PrintInt(kind: IntKind, value: nat)
      modifies this
      ensures tokens == old(tokens) + DumpInt(kind, value)
    {
      var printed: int := if kind.S64? then AsSint32(value) else value;
      if printed < 0 {
        Append(Op(MINUS));
        Append(LitInt(kind, -printed));
      } else {
        Append(LitInt(kind, printed));
      }
    }

    method PrintInfix(l: Expr, symbol: Token, r: Expr, ghost node: Expr)
      requires l < node && r < node
      modifies this
      ensures tokens == old(tokens) + (Dump(l) + [symbol] + Dump(r))
      decreases node, 0
    {
      Print(l);
      Append(symbol);
      Print(r);
    }

    method PrintTuple(es: seq<Expr>)
      modifies this
      ensures tokens == old(tokens) + DumpTuple(es)
      decreases es, 0
    {
      ghost var before := tokens + [LParen];
      Append(LParen);
      for i := 0 to |es|
        invariant tokens == before + DumpList(es[..i])
      {
        DumpListNext(es, i);
        if i > 0 {
          Append(Comma);
        }
        Print(es[i]);
      }
      assert es[..|es|] == es;
      Append(RParen);
    }
  }

  lemma {:induction false} DumpListNext(es: seq<Expr>, i: nat)
    requires i < |es|
    ensures DumpList(es[..i + 1]) == DumpList(es[..i]) + (if i > 0 then [Comma] else []) + Dump(es[i])
  {
    if i == 0 {
      assert es[..1] == [es[0]] && es[..0] == [];
    } else {
      DumpListNext(es[1..], i - 1);
      assert es[..i + 1][1..] == es[1..][..i] && es[..i][1..] == es[1..][..i - 1];
    }
  }

  // ----- what comes back -----

  /** The tree that the printed parentheses stand for: operators sit in
      single-element tuples. */
  function Wrap(e: Expr): Expr {
    match e
    case Tuple(es) => Tuple(WrapList(es))
    case Unary(op, x) => Tuple([Unary(op, Wrap(x))])
    case Eff(x) => Eff(Wrap(x))
    case Index(x, i) => Index(Wrap(x), Wrap(i))
    case Call(f, args, isC) => Call(Wrap(f), WrapList(args), isC)
    case Access(l, r) => Access(Wrap(l), Wrap(r))
    case Bin(op, l, r) => Tuple([Bin(op, Wrap(l), Wrap(r))])
    case LBin(op, l, r) => Tuple([LBin(op, Wrap(l), Wrap(r))])
    case _ => e
  }

  function WrapList(es: seq<Expr>): seq<Expr> {
    if es == [] then [] else [Wrap(es[0])] + WrapList(es[1..])
  }

  /** The tree without its single-element tuples. */
  function Strip(e: Expr): Expr {
    match e
    case Tuple(es) => if |es| == 1 then Strip(es[0]) else Tuple(StripList(es))
    case Unary(op, x) => Unary(op, Strip(x))
    case Explode(x) => Explode(Strip(x))
    case Eff(x) => Eff(Strip(x))
    case Index(x, i) => Index(Strip(x), Strip(i))
    case Call(f, args, isC) => Call(Strip(f), StripList(args), isC)
    case Access(l, r) => Access(Strip(l), Strip(r))
    case Bin(op, l, r) => Bin(op, Strip(l), Strip(r))
    case LBin(op, l, r) => LBin(op, Strip(l), Strip(r))
    case Cast(l, r) => Cast(Strip(l), Strip(r))
    case Test(l, r) => Test(Strip(l), Strip(r))
    case Prop(l, r) => Prop(Strip(l), Strip(r))
    case _ => e
  }

  function StripList(es: seq<Expr>): seq<Expr> {
    if es == [] then [] else [Strip(es[0])] + StripList(es[1..])
  }

  /** Trees over variables, literals, tuples, unary, binary and logical
      operators, effects, index, call and access, in positions where the parser
      can put them: the member of an access and the name of an effect are not
      themselves chains. */
  predicate Printable(e: Expr) {
    match e
    case Var(_) => true
    case Int(kind, value) => value <= MaxOf(kind)
    case Bool(_) => true
    case Tuple(es) => AllPrintable(es)
    case Unary(_, x) => Printable(x)
    case Eff(x) => Printable(x) && !IsChain(x)
    case Index(x, i) => Printable(x) && Printable(i)
    case Call(f, args, isC) => Printable(f) && AllPrintable(args) && isC == (f == Var("printf"))
    case Access(l, r) => Printable(l) && Printable(r) && !IsChain(r)
    case Bin(_, l, r) => Printable(l) && Printable(r)
    case LBin(_, l, r) => Printable(l) && Printable(r)
    case _ => false
  }

  predicate AllPrintable(es: seq<Expr>) {
    es == [] || (Printable(es[0]) && AllPrintable(es[1..]))
  }

  predicate IsChain(e: Expr) {
    e.Eff? || e.Index? || e.Call? || e.Access?
  }

  /** Every 64-bit signed literal is printed as it is. */
  predicate Fits(e: Expr) {
    match e
    case Int(kind, value) => kind.S64? ==> value < 0x8000_0000
    case Tuple(es) => AllFit(es)
    case Unary(_, x) => Fits(x)
    case Explode(x) => Fits(x)
    case Eff(x) => Fits(x)
    case Index(x, i) => Fits(x) && Fits(i)
    case Call(f, args, _) => Fits(f) && AllFit(args)
    case Access(l, r) => Fits(l) && Fits(r)
    case Bin(_, l, r) => Fits(l) && Fits(r)
    case LBin(_, l, r) => Fits(l) && Fits(r)
    case Cast(l, r) => Fits(l) && Fits(r)
    case Test(l, r) => Fits(l) && Fits(r)
    case Prop(l, r) => Fits(l) && Fits(r)
    case _ => true
  }

  predicate AllFit(es: seq<Expr>) {
    es == [] || (Fits(es[0]) && AllFit(es[1..]))
  }

  /** The wrapped tree is canonical, a postfix chain, and has the printed tokens. */
  ghost predicate Wrapped(e: Expr) {
    && Dump(e) == Yield(Wrap(e))
    && Canonical(Wrap(e)) && IsPostfix(Wrap(e)) && (!IsChain(e) ==> IsPrimary(Wrap(e)))
    && (Wrap(e) == Var("printf") <==> e == Var("printf"))
  }

  lemma {:induction false} WrapYields(e: Expr)
    requires Printable(e) && Fits(e)
    ensures Wrapped(e)
    decreases e, 1
  {
    if e.Unary? {
      WrapYields(e.operand);
      WrapUnary(e);
    } else if e.Bin? || e.LBin? {
      WrapYields(e.lhs);
      WrapYields(e.rhs);
      WrapOperator(e);
    } else if e.Tuple? {
      WrapListYields(e.es);
    } else if e.Eff? {
      WrapYields(e.operand);
    } else if e.Index? {
      WrapYields(e.operand);
      WrapYields(e.index);
    } else if e.Call? {
      WrapYields(e.callee);
      WrapListYields(e.args);
    } else if e.Access? {
      WrapYields(e.lhs);
      WrapYields(e.rhs);
    }
  }

  lemma WrapUnary(e: Expr)
    requires e.Unary? && Wrapped(e.operand)
    ensures Wrapped(e)
  {
    YieldOne(Unary(e.uop, Wrap(e.operand)));
  }

  lemma WrapOperator(e: Expr)
    requires (e.Bin? || e.LBin?) && Wrapped(e.lhs) && Wrapped(e.rhs)
    ensures Wrapped(e)
  {
    var w := if e.Bin? then Bin(e.bop, Wrap(e.lhs), Wrap(e.rhs)) else LBin(e.lop, Wrap(e.lhs), Wrap(e.rhs));
    DumpOperator(e, w);
    SameSymbol(e, w);
    hide SymbolOf, Yield, Canonical, Dump, Wrap, PrecOf, IsPostfix, IsPrimary, IsChain, Follows;
    TupleIsPostfix([w]);
    ChainIsNotInfix(w.lhs);
    ChainIsNotInfix(w.rhs);
    YieldOne(w);
    InfixShape(w, []);
    OperatorsAreLoose(w, w.lhs);
    OperatorsAreLoose(w, w.rhs);
  }

  lemma TupleIsPostfix(es: seq<Expr>)
    ensures IsPostfix(Tuple(es)) && IsPrimary(Tuple(es))
  {
  }

  lemma ChainIsNotInfix(x: Expr)
    requires IsPostfix(x)
    ensures !IsInfix(x)
  {
  }

  lemma DumpOperator(e: Expr, w: Expr)
    requires e.Bin? || e.LBin?
    requires w == if e.Bin? then Bin(e.bop, Wrap(e.lhs), Wrap(e.rhs)) else LBin(e.lop, Wrap(e.lhs), Wrap(e.rhs))
    ensures Dump(e) == [LParen] + (Dump(e.lhs) + [Op(SymbolOf(e))] + Dump(e.rhs)) + [RParen]
    ensures Wrap(e) == Tuple([w])
  {
    hide SymbolOf;
  }

  lemma OperatorsAreLoose(w: Expr, x: Expr)
    requires IsInfix(w) && !IsInfix(x)
    ensures PrecOf(x) > PrecOf(w)
  {
  }

  lemma SameSymbol(e: Expr, w: Expr)
    requires (e.Bin? && w.Bin? && e.bop == w.bop) || (e.LBin? && w.LBin? && e.lop == w.lop)
    ensures SymbolOf(w) == SymbolOf(e)
  {
  }

  lemma YieldOne(e: Expr)
    ensures Yield(Tuple([e])) == [LParen] + Yield(e) + [RParen] && (Canonical(Tuple([e])) <==> Canonical(e))
  {
    assert [e][1..] == [];
    assert AllCanonical([e]) <==> Canonical(e) && AllCanonical([]);
  }

  lemma {:induction false} WrapListYields(es: seq<Expr>)
    requires AllPrintable(es) && AllFit(es)
    ensures DumpList(es) == YieldList(WrapList(es)) && AllCanonical(WrapList(es)) && |WrapList(es)| == |es|
    decreases es, 0
  {
    if es != [] {
      WrapYields(es[0]);
      WrapListYields(es[1..]);
      assert WrapList(es)[1..] == WrapList(es[1..]);
    }
  }

  lemma {:induction false} StripWrap(e: Expr)
    ensures Strip(Wrap(e)) == Strip(e)
    decreases e, 1
  {
    match e
    case Tuple(es) => StripWrapList(es);
    case Unary(_, x) => StripWrap(x);
    case Eff(x) => StripWrap(x);
    case Index(x, i) =>
      StripWrap(x);
      StripWrap(i);
    case Call(f, args, _) =>
      StripWrap(f);
      StripWrapList(args);
    case Access(l, r) =>
      StripWrap(l);
      StripWrap(r);
    case Bin(_, l, r) =>
      StripWrap(l);
      StripWrap(r);
    case LBin(_, l, r) =>
      StripWrap(l);
      StripWrap(r);
    case _ =>
  }

  lemma {:induction false} StripWrapList(es: seq<Expr>)
    ensures StripList(WrapList(es)) == StripList(es) && |WrapList(es)| == |es|
    ensures |es| == 1 ==> Strip(WrapList(es)[0]) == Strip(es[0])
    decreases es, 0
  {
    if es != [] {
      StripWrap(es[0]);
      StripWrapList(es[1..]);
      assert WrapList(es)[1..] == WrapList(es[1..]);
    }
  }

  /** Parsing the printed tokens, with anything after them that does not
      continue an expression, gives back the wrapped tree and exactly the rest. */
  lemma PrintedIsParsed(e: Expr, rest: seq<Token>)
    requires Printable(e) && Fits(e) && Follows(Wrap(e), rest) && !Head(rest).Op?
    ensures ParseExpr(Dump(e) + rest) == Done(Wrap(e), rest) && Strip(Wrap(e)) == Strip(e)
  {
    WrapYields(e);
    ExprBack(Wrap(e), rest);
    StripWrap(e);
  }

  predicate RoundTrips(e: Expr) {
    var r := ParseExpr(Dump(e));
    r.Done? && r.rest == [] && Strip(r.e) == Strip(e)
  }

  // ----- where printing loses something -----

  predicate IsParen(t: Token) {
    t.LParen? || t.RParen?
  }

  /** The tokens other than parentheses. */
  function Core(ts: seq<Token>): seq<Token> {
    if ts == [] then [] else (if IsParen(ts[0]) then [] else [ts[0]]) + Core(ts[1..])
  }

  function Kept(t: Token): seq<Token> {
    if IsParen(t) then [] else [t]
  }

  lemma CoreStep(ts: seq<Token>)
    requires ts != []
    ensures Core(ts) == Kept(ts[0]) + Core(ts[1..])
  {
  }

  lemma CoreEmpty()
    ensures Core([]) == []
  {
  }

  lemma {:induction false} CoreConcat(a: seq<Token>, b: seq<Token>)
    ensures Core(a + b) == Core(a) + Core(b)
  {
    hide Core, Kept;
    if a == [] {
      CoreEmpty();
      assert a + b == b;
    } else {
      CoreConcat(a[1..], b);
      CoreStep(a);
      CoreStep(a + b);
      assert (a + b)[1..] == a[1..] + b;
    }
  }

  lemma CoreOne(t: Token)
    ensures Core([t]) == if IsParen(t) then [] else [t]
  {
  }

  /** `a` is at least as long as `b`, and equal to it only if `fits`. */
  ghost predicate Covers(a: seq<Token>, b: seq<Token>, fits: bool) {
    |Core(a)| >= |Core(b)| && (Core(a) == Core(b) ==> fits)
  }

  lemma CoversConcat(a: seq<Token>, b: seq<Token>, f: bool, c: seq<Token>, d: seq<Token>, g: bool)
    requires Covers(a, b, f) && Covers(c, d, g)
    ensures Covers(a + c, b + d, f && g)
  {
    CoreConcat(a, c);
    CoreConcat(b, d);
    if Core(a + c) == Core(b + d) {
      assert Core(a + c)[..|Core(a)|] == Core(a);
      assert Core(b + d)[..|Core(b)|] == Core(b);
      assert Core(a + c)[|Core(a)|..] == Core(c);
      assert Core(b + d)[|Core(b)|..] == Core(d);
    }
  }

  lemma CoversSame(a: seq<Token>)
    ensures Covers(a, a, true)
  {
  }

  /** Parentheses around the left sequence do not matter. */
  lemma CoversParens(a: seq<Token>, b: seq<Token>, f: bool)
    requires Covers(a, b, f)
    ensures Covers([LParen] + a + [RParen], b, f)
  {
    CoreConcat([LParen] + a, [RParen]);
    CoreConcat([LParen], a);
    CoreOne(LParen);
    CoreOne(RParen);
  }

  /** Two parts with one token between them. */
  lemma CoversJoin(a: seq<Token>, b: seq<Token>, f: bool, t: Token, c: seq<Token>, d: seq<Token>, g: bool)
    requires Covers(a, b, f) && Covers(c, d, g)
    ensures Covers(a + [t] + c, b + [t] + d, f && g)
  {
    CoversSame([t]);
    CoversConcat(a, b, f, [t], [t], true);
    CoversConcat(a + [t], b + [t], f, c, d, g);
  }

  /** Printing never shortens the core, and leaves it alone only if every literal fits. */
  lemma {:induction false} DumpCovers(e: Expr)
    requires Printable(e)
    ensures Covers(Dump(e), Yield(e), Fits(e))
    decreases e, 1
  {
    hide Covers;
    if e.Int? {
      IntCovers(e.kind, e.value);
    } else if e.Tuple? {
      ListCovers(e.es);
      TupleCovers(e.es);
    } else if e.Unary? {
      DumpCovers(e.operand);
      CoversSame([UnarySymbol(e.uop)]);
      CoversConcat([UnarySymbol(e.uop)], [UnarySymbol(e.uop)], true,
                   Dump(e.operand), Yield(e.operand), Fits(e.operand));
      CoversParens([UnarySymbol(e.uop)] + Dump(e.operand), Yield(e), Fits(e));
    } else if e.Eff? {
      DumpCovers(e.operand);
      CoversSame([Not]);
      CoversConcat(Dump(e.operand), Yield(e.operand), Fits(e.operand), [Not], [Not], true);
    } else if e.Index? {
      DumpCovers(e.operand);
      DumpCovers(e.index);
      CoversJoin(Dump(e.operand), Yield(e.operand), Fits(e.operand), LBracket,
                 Dump(e.index), Yield(e.index), Fits(e.index));
      CoversSame([RBracket]);
      CoversConcat(Dump(e.operand) + [LBracket] + Dump(e.index), Yield(e.operand) + [LBracket] + Yield(e.index),
                   Fits(e), [RBracket], [RBracket], true);
    } else if e.Call? {
      DumpCovers(e.callee);
      ListCovers(e.args);
      TupleCovers(e.args);
      CoversConcat(Dump(e.callee), Yield(e.callee), Fits(e.callee),
                   DumpTuple(e.args), [LParen] + YieldList(e.args) + [RParen], AllFit(e.args));
    } else if e.Access? {
      DumpCovers(e.lhs);
      DumpCovers(e.rhs);
      CoversJoin(Dump(e.lhs), Yield(e.lhs), Fits(e.lhs), Dot, Dump(e.rhs), Yield(e.rhs), Fits(e.rhs));
    } else if e.Bin? || e.LBin? {
      DumpCovers(e.lhs);
      DumpCovers(e.rhs);
      var t := Op(SymbolOf(e));
      CoversJoin(Dump(e.lhs), Yield(e.lhs), Fits(e.lhs), t, Dump(e.rhs), Yield(e.rhs), Fits(e.rhs));
      CoversParens(Dump(e.lhs) + [t] + Dump(e.rhs), Yield(e), Fits(e));
    } else {
      CoversSame(Yield(e));
    }
  }

  lemma IntCovers(kind: IntKind, value: nat)
    requires value <= MaxOf(kind)
    ensures Covers(DumpInt(kind, value), [LitInt(kind, value)], kind.S64? ==> value < 0x8000_0000)
  {
    CoreOne(LitInt(kind, value));
    var printed: int := if kind.S64? then AsSint32(value) else value;
    if printed < 0 {
      CoreConcat([Op(MINUS)], [LitInt(kind, -printed)]);
      CoreOne(Op(MINUS));
      CoreOne(LitInt(kind, -printed));
      assert DumpInt(kind, value) == [Op(MINUS)] + [LitInt(kind, -printed)];
    } else {
      CoreOne(LitInt(kind, printed));
    }
  }

  lemma TupleCovers(es: seq<Expr>)
    requires Covers(DumpList(es), YieldList(es), AllFit(es))
    ensures Covers(DumpTuple(es), [LParen] + YieldList(es) + [RParen], AllFit(es))
  {
    CoversSame([LParen]);
    CoversSame([RParen]);
    CoversConcat([LParen], [LParen], true, DumpList(es), YieldList(es), AllFit(es));
    CoversConcat([LParen] + DumpList(es), [LParen] + YieldList(es), AllFit(es), [RParen], [RParen], true);
  }

  lemma {:induction false} ListCovers(es: seq<Expr>)
    requires AllPrintable(es)
    ensures Covers(DumpList(es), YieldList(es), AllFit(es))
    decreases es, 0
  {
    if es != [] {
      DumpCovers(es[0]);
      ListCovers(es[1..]);
      CoversJoin(Dump(es[0]), Yield(es[0]), Fits(es[0]), Comma, DumpList(es[1..]), YieldList(es[1..]), AllFit(es[1..]));
    }
  }

  lemma CoreJoin(a: seq<Token>, t: Token, b: seq<Token>)
    ensures Core(a + [t] + b) == Core(a) + Core([t]) + Core(b)
  {
    CoreConcat(a + [t], b);
    CoreConcat(a, [t]);
  }

  lemma CoreParens(a: seq<Token>)
    ensures Core([LParen] + a + [RParen]) == Core(a)
  {
    CoreConcat([LParen] + a, [RParen]);
    CoreConcat([LParen], a);
    CoreOne(LParen);
    CoreOne(RParen);
  }

  /** Single-element tuples add only parentheses. */
  lemma {:induction false} CoreOfStrip(e: Expr)
    ensures Core(Yield(Strip(e))) == Core(Yield(e))
    decreases e, 1
  {
    hide Core;
    if e.Tuple? {
      CoreParens(YieldList(e.es));
      if |e.es| == 1 {
        CoreOfStrip(e.es[0]);
      } else {
        CoreParens(YieldList(StripList(e.es)));
        CoreOfStripList(e.es);
      }
    } else if e.Unary? {
      CoreOfStrip(e.operand);
      CoreConcat([UnarySymbol(e.uop)], Yield(e.operand));
      CoreConcat([UnarySymbol(e.uop)], Yield(Strip(e.operand)));
    } else if e.Explode? {
      CoreOfStrip(e.operand);
      CoreConcat([Ellipsis], Yield(e.operand));
      CoreConcat([Ellipsis], Yield(Strip(e.operand)));
    } else if e.Eff? {
      CoreOfStrip(e.operand);
      CoreConcat(Yield(e.operand), [Not]);
      CoreConcat(Yield(Strip(e.operand)), [Not]);
    } else if e.Index? {
      CoreOfIndex(e);
    } else if e.Call? {
      CoreOfStrip(e.callee);
      CoreOfStripList(e.args);
      CoreParens(YieldList(e.args));
      CoreParens(YieldList(StripList(e.args)));
      CoreConcat(Yield(e.callee), [LParen] + YieldList(e.args) + [RParen]);
      CoreConcat(Yield(Strip(e.callee)), [LParen] + YieldList(StripList(e.args)) + [RParen]);
    } else if e.Access? {
      CoreOfStrip(e.lhs);
      CoreOfStrip(e.rhs);
      CoreJoin(Yield(e.lhs), Dot, Yield(e.rhs));
      CoreJoin(Yield(Strip(e.lhs)), Dot, Yield(Strip(e.rhs)));
    } else if IsInfix(e) {
      CoreOfOperator(e);
    }
  }

  lemma {:induction false} CoreOfIndex(e: Expr)
    requires e.Index?
    ensures Core(Yield(Strip(e))) == Core(Yield(e))
    decreases e, 0
  {
    hide Core;
    CoreOfStrip(e.operand);
    CoreOfStrip(e.index);
    CoreJoin(Yield(e.operand), LBracket, Yield(e.index));
    CoreJoin(Yield(Strip(e.operand)), LBracket, Yield(Strip(e.index)));
    CoreConcat(Yield(e.operand) + [LBracket] + Yield(e.index), [RBracket]);
    CoreConcat(Yield(Strip(e.operand)) + [LBracket] + Yield(Strip(e.index)), [RBracket]);
  }

  lemma StripShape(e: Expr)
    requires IsInfix(e)
    ensures var s := Strip(e);
      IsInfix(s) && SymbolOf(s) == SymbolOf(e) && s.lhs == Strip(e.lhs) && s.rhs == Strip(e.rhs)
  {
    if e.Bin? || e.LBin? {
      hide SymbolOf;
      SameSymbol(e, Strip(e));
    }
  }

  lemma {:induction false} CoreOfOperator(e: Expr)
    requires IsInfix(e)
    ensures Core(Yield(Strip(e))) == Core(Yield(e))
    decreases e, 0
  {
    hide Core, Yield, Strip, SymbolOf;
    CoreOfStrip(e.lhs);
    CoreOfStrip(e.rhs);
    var t := Op(SymbolOf(e));
    StripShape(e);
    InfixShape(e, []);
    InfixShape(Strip(e), []);
    CoreJoin(Yield(e.lhs), t, Yield(e.rhs));
    CoreJoin(Yield(Strip(e.lhs)), t, Yield(Strip(e.rhs)));
  }

  lemma {:induction false} CoreOfStripList(es: seq<Expr>)
    ensures Core(YieldList(StripList(es))) == Core(YieldList(es)) && |StripList(es)| == |es|
    decreases es, 0
  {
    hide Core;
    if es != [] {
      CoreOfStrip(es[0]);
      CoreOfStripList(es[1..]);
      assert StripList(es)[1..] == StripList(es[1..]);
      CoreJoin(Yield(es[0]), Comma, YieldList(es[1..]));
      CoreJoin(Yield(Strip(es[0])), Comma, YieldList(StripList(es[1..])));
    }
  }

  /** Tokens that pass through `Erase` unchanged and leave an operand behind. */
  ghost predicate Steady(a: seq<Token>) {
    forall rest, prefix :: Erase(a + rest, prefix) == a + Erase(rest, false)
  }

  /** The printer never writes a unary plus. */
  lemma {:induction false} NoPlusPrinted(e: Expr)
    requires Printable(e)
    ensures Steady(Dump(e))
    decreases e, 1
  {
    hide Erase, Steady;
    if e.Var? || e.Bool? {
      SteadyLeaf(Dump(e)[0]);
    } else if e.Int? {
      SteadyInt(e.kind, e.value);
    } else if e.Tuple? {
      NoPlusTuple(e.es);
    } else if e.Unary? {
      NoPlusPrinted(e.operand);
      SteadyPrefix(UnarySymbol(e.uop), Dump(e.operand));
      SteadyParens([UnarySymbol(e.uop)] + Dump(e.operand));
    } else if e.Eff? {
      NoPlusPrinted(e.operand);
      SteadySuffix(Dump(e.operand), Not);
    } else if e.Index? {
      NoPlusPrinted(e.operand);
      NoPlusPrinted(e.index);
      SteadyJoin(Dump(e.operand), LBracket, Dump(e.index));
      SteadySuffix(Dump(e.operand) + [LBracket] + Dump(e.index), RBracket);
    } else if e.Call? {
      NoPlusPrinted(e.callee);
      NoPlusTuple(e.args);
      SteadyConcat(Dump(e.callee), DumpTuple(e.args));
    } else if e.Access? {
      NoPlusPrinted(e.lhs);
      NoPlusPrinted(e.rhs);
      SteadyJoin(Dump(e.lhs), Dot, Dump(e.rhs));
    } else {
      NoPlusPrinted(e.lhs);
      NoPlusPrinted(e.rhs);
      SteadyJoin(Dump(e.lhs), Op(SymbolOf(e)), Dump(e.rhs));
      SteadyParens(Dump(e.lhs) + [Op(SymbolOf(e))] + Dump(e.rhs));
    }
  }

  lemma {:induction false} NoPlusTuple(es: seq<Expr>)
    requires AllPrintable(es)
    ensures Steady(DumpTuple(es))
    decreases es, 1
  {
    hide Erase, Steady;
    if es == [] {
      SteadyUnit();
    } else {
      NoPlusList(es);
      SteadyParens(DumpList(es));
    }
  }

  lemma {:induction false} NoPlusList(es: seq<Expr>)
    requires AllPrintable(es) && es != []
    ensures Steady(DumpList(es))
    decreases es, 0
  {
    hide Erase, Steady;
    NoPlusPrinted(es[0]);
    if |es| > 1 {
      NoPlusList(es[1..]);
      SteadyJoin(Dump(es[0]), Comma, DumpList(es[1..]));
    }
  }

  lemma SteadyLeaf(t: Token)
    requires t.Ident? || t.LitBool? || t.LitInt?
    ensures Steady([t])
  {
    forall rest, prefix ensures Erase([t] + rest, prefix) == [t] + Erase(rest, false) {
      assert ([t] + rest)[1..] == rest;
    }
  }

  lemma SteadyInt(kind: IntKind, value: nat)
    ensures Steady(DumpInt(kind, value))
  {
    var printed: int := if kind.S64? then AsSint32(value) else value;
    if printed < 0 {
      SteadyLeaf(LitInt(kind, -printed));
      SteadySigned(LitInt(kind, -printed));
    } else {
      SteadyLeaf(LitInt(kind, printed));
    }
  }

  lemma SteadySigned(t: Token)
    requires t.LitInt?
    ensures Steady([Op(MINUS), t])
  {
    forall rest, prefix ensures Erase([Op(MINUS), t] + rest, prefix) == [Op(MINUS), t] + Erase(rest, false) {
      assert ([Op(MINUS), t] + rest)[1..] == [t] + rest && ([t] + rest)[1..] == rest;
    }
  }

  lemma SteadyUnit()
    ensures Steady(DumpTuple([]))
  {
    assert DumpTuple([]) == [LParen, RParen];
    forall rest, prefix ensures Erase([LParen, RParen] + rest, prefix) == [LParen, RParen] + Erase(rest, false) {
      assert ([LParen, RParen] + rest)[1..] == [RParen] + rest && ([RParen] + rest)[1..] == rest;
    }
  }

  lemma SteadyPrefix(t: Token, a: seq<Token>)
    requires Steady(a) && t != Op(PLUS)
    ensures Steady([t] + a)
  {
    forall rest, prefix ensures Erase([t] + a + rest, prefix) == [t] + a + Erase(rest, false) {
      var all := [t] + a + rest;
      assert all[1..] == a + rest;
      assert Erase(all, prefix) == [t] + Erase(a + rest, After(t, prefix));
    }
  }

  lemma SteadySuffix(a: seq<Token>, t: Token)
    requires Steady(a) && (t.Not? || t.RBracket?)
    ensures Steady(a + [t])
  {
    forall rest, prefix ensures Erase(a + [t] + rest, prefix) == a + [t] + Erase(rest, false) {
      assert a + [t] + rest == a + ([t] + rest) && ([t] + rest)[1..] == rest;
    }
  }

  lemma SteadyConcat(a: seq<Token>, b: seq<Token>)
    requires Steady(a) && Steady(b)
    ensures Steady(a + b)
  {
    forall rest, prefix ensures Erase(a + b + rest, prefix) == a + b + Erase(rest, false) {
      assert a + b + rest == a + (b + rest);
    }
  }

  lemma SteadyJoin(a: seq<Token>, t: Token, b: seq<Token>)
    requires Steady(a) && Steady(b)
    ensures Steady(a + [t] + b)
  {
    forall rest, prefix ensures Erase(a + [t] + b + rest, prefix) == a + [t] + b + Erase(rest, false) {
      var more := [t] + (b + rest);
      assert a + [t] + b + rest == a + more && more[1..] == b + rest;
      assert Erase(more, false) == [t] + Erase(b + rest, After(t, false));
    }
  }

  lemma SteadyParens(a: seq<Token>)
    requires Steady(a)
    ensures Steady([LParen] + a + [RParen])
  {
    forall rest, prefix
      ensures Erase([LParen] + a + [RParen] + rest, prefix) == [LParen] + a + [RParen] + Erase(rest, false)
    {
      var all := [LParen] + a + [RParen] + rest;
      var tail := [RParen] + rest;
      assert all[1..] == a + tail && tail[1..] == rest;
      assert Erase(tail, false) == [RParen] + Erase(rest, false);
    }
  }

  /** Printing and parsing are inverse, up to single-element tuples, exactly
      for the trees whose 64-bit signed literals are below 2^31. */
  lemma RoundTrip(e: Expr)
    requires Printable(e)
    ensures RoundTrips(e) <==> Fits(e)
  {
    if Fits(e) {
      PrintedIsParsed(e, []);
      assert Dump(e) + [] == Dump(e);
    }
    if RoundTrips(e) {
      var r := ParseExpr(Dump(e));
      ExprSound(Dump(e));
      NoPlusPrinted(e);
      assert Erase(Dump(e) + [], true) == Dump(e) + Erase([], false);
      assert Dump(e) + [] == Dump(e);
      CoreOfStrip(r.e);
      CoreOfStrip(e);
      DumpCovers(e);
    }
  }

  /** A literal that the printer cannot reproduce. */
  lemma WideLiteralLost()
    ensures !RoundTrips(Int(S64, 0x1_0000_0005)) && Dump(Int(S64, 0x1_0000_0005)) == [LitInt(S64, 5)]
  {
    RoundTrip(Int(S64, 0x1_0000_0005));
  }

  /** Only nodes of the kinds that the printer parenthesises or that need no parentheses. */
  predicate Plain(e: Expr) {
    match e
    case Var(_) => true
    case Int(_, _) => true
    case Bool(_) => true
    case Tuple(es) => AllPlain(es)
    case Unary(_, x) => Plain(x)
    case Eff(x) => Plain(x)
    case Index(x, i) => Plain(x) && Plain(i)
    case Call(f, args, _) => Plain(f) && AllPlain(args)
    case Access(l, r) => Plain(l) && Plain(r)
    case Bin(_, l, r) => Plain(l) && Plain(r)
    case LBin(_, l, r) => Plain(l) && Plain(r)
    case _ => false
  }

  predicate AllPlain(es: seq<Expr>) {
    es == [] || (Plain(es[0]) && AllPlain(es[1..]))
  }

  lemma {:induction false} CanonicalIsPrintable(e: Expr)
    requires Canonical(e) && Plain(e)
    ensures Printable(e)
    decreases e, 1
  {
    match e
    case Tuple(es) => AllCanonicalPrintable(es);
    case Unary(_, x) => CanonicalIsPrintable(x);
    case Eff(x) => CanonicalIsPrintable(x);
    case Index(x, i) =>
      CanonicalIsPrintable(x);
      CanonicalIsPrintable(i);
    case Call(f, args, _) =>
      CanonicalIsPrintable(f);
      AllCanonicalPrintable(args);
    case Access(l, r) =>
      CanonicalIsPrintable(l);
      CanonicalIsPrintable(r);
    case Bin(_, l, r) =>
      CanonicalIsPrintable(l);
      CanonicalIsPrintable(r);
    case LBin(_, l, r) =>
      CanonicalIsPrintable(l);
      CanonicalIsPrintable(r);
    case Var(_) =>
    case Int(_, _) =>
    case Bool(_) =>
  }

  lemma {:induction false} AllCanonicalPrintable(es: seq<Expr>)
    requires AllCanonical(es) && AllPlain(es)
    ensures AllPrintable(es)
    decreases es, 0
  {
    if es != [] {
      CanonicalIsPrintable(es[0]);
      AllCanonicalPrintable(es[1..]);
    }
  }

  /** Whatever the parser returned over these nodes prints and parses back to
      itself exactly when its 64-bit signed literals are below 2^31. */
  lemma ParsedRoundTrip(ts: seq<Token>)
    requires ParseExpr(ts).Done? && Plain(ParseExpr(ts).e)
    ensures RoundTrips(ParseExpr(ts).e) <==> Fits(ParseExpr(ts).e)
  {
    ExprSound(ts);
    CanonicalIsPrintable(ParseExpr(ts).e);
    RoundTrip(ParseExpr(ts).e);
  }
}
