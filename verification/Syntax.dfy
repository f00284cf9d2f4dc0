// Tokens and expression trees of Biron, with the precedence table and the
// token sequence a tree stands for.
module Syntax {

  datatype IntKind = U8 | U16 | U32 | U64 | S8 | S16 | S32 | S64 | Untyped

  /** Tokens that may stand between two operands. */
  datatype Infix =
    | STAR | FSLASH | PLUS | MINUS | LSHIFT | RSHIFT
    | LT | LTE | MIN | GT | GTE | MAX | EQEQ | NEQ
    | BAND | BOR | LAND | LOR | AS | IS | OF

  /** `TypeName` stands for a whole type operand; `Other` for every token that
      cannot occur in the expressions modelled here. */
  datatype Token =
    | Ident(name: string) | LitInt(kind: IntKind, value: nat) | LitBool(b: bool) | TypeName(id: nat)
    | LParen | RParen | LBracket | RBracket | Comma | Dot | Not | Ellipsis
    | Op(infix: Infix)
    | Other(k: nat)
    | End

  function BinaryPrec_(t: Token): int {
    if !t.Op? then 17 else
    match t.infix
    case OF => 4
    case IS => 4
    case AS => 4
    case STAR => 5
    case FSLASH => 5
    case PLUS => 6
    case MINUS => 6
    case LSHIFT => 7
    case RSHIFT => 7
    case LT => 9
    case LTE => 9
    case GT => 9
    case GTE => 9
    case MIN => 9
    case MAX => 9
    case EQEQ => 10
    case NEQ => 10
    case BAND => 11
    case BOR => 13
    case LAND => 14
    case LOR => 15
  }

  /** Higher binds tighter; a token that is not an operator is below everything. */
  function BinaryPrec(t: Token): int {
    16 - BinaryPrec_(t)
  }

  datatype BinOp = ADD | SUB | MUL | DIV | EQ | NE | GT_ | GE | MAX_ | LT_ | LE | MIN_ | OR | AND | SHL | SHR

  datatype LogOp = LOGOR | LOGAND

  datatype UnaryOp = NEG | NOT | DEREF | ADDROF

  datatype Expr =
    | Var(name: string)
    | Int(kind: IntKind, value: nat)
    | Bool(b: bool)
    | Selector(name: string)
    | Type(id: nat)
    | Tuple(es: seq<Expr>)
    | Unary(uop: UnaryOp, operand: Expr)
    | Explode(operand: Expr)
    | Eff(operand: Expr)
    | Index(operand: Expr, index: Expr)
    | Call(callee: Expr, args: seq<Expr>, isC: bool)
    | Access(lhs: Expr, rhs: Expr)
    | Bin(bop: BinOp, lhs: Expr, rhs: Expr)
    | LBin(lop: LogOp, lhs: Expr, rhs: Expr)
    | Cast(lhs: Expr, rhs: Expr)
    | Test(lhs: Expr, rhs: Expr)
    | Prop(lhs: Expr, rhs: Expr)

  /** Largest value a literal of each kind may have. */
  function MaxOf(kind: IntKind): nat {
    match kind
    case U8 => 0xff
    case U16 => 0xffff
    case U32 => 0xffff_ffff
    case U64 => 0xffff_ffff_ffff_ffff
    case S8 => 0x7f
    case S16 => 0x7fff
    case S32 => 0x7fff_ffff
    case S64 => 0x7fff_ffff_ffff_ffff
    case Untyped => 0xffff_ffff_ffff_ffff
  }

  predicate IsInfix(e: Expr) {
    e.Bin? || e.LBin? || e.Cast? || e.Test? || e.Prop?
  }

  predicate IsPrimary(e: Expr) {
    e.Var? || e.Int? || e.Bool? || e.Selector? || e.Tuple?
  }

  predicate IsPostfix(e: Expr) {
    IsPrimary(e) || e.Eff? || e.Index? || e.Call? || e.Access?
  }

  /** The operator symbols as printed. */
  function SymbolOf(e: Expr): Infix
    requires IsInfix(e)
  {
    match e
    case LBin(lop, _, _) => if lop.LOGOR? then LOR else LAND
    case Cast(_, _) => AS
    case Test(_, _) => IS
    case Prop(_, _) => OF
    case Bin(bop, _, _) =>
      match bop
      case ADD => PLUS
      case SUB => MINUS
      case MUL => STAR
      case DIV => FSLASH
      case EQ => EQEQ
      case NE => NEQ
      case GT_ => GT
      case GE => GTE
      case MAX_ => MAX
      case LT_ => LT
      case LE => LTE
      case MIN_ => MIN
      case OR => BOR
      case AND => BAND
      case SHL => LSHIFT
      case SHR => RSHIFT
  }

  function UnarySymbol(op: UnaryOp): Token {
    match op
    case NEG => Op(MINUS)
    case NOT => Not
    case DEREF => Op(STAR)
    case ADDROF => Op(BAND)
  }

  /** How tightly a tree holds together: its operator, or more than any operator. */
  function PrecOf(e: Expr): int {
    if IsInfix(e) then BinaryPrec(Op(SymbolOf(e))) else 100
  }

  /** The tokens of a tree in order, with no parentheses but those of its tuples. */
  function Yield(e: Expr): seq<Token> {
    match e
    case Var(name) => [Ident(name)]
    case Int(kind, value) => [LitInt(kind, value)]
    case Bool(b) => [LitBool(b)]
    case Selector(name) => [Dot, Ident(name)]
    case Type(id) => [TypeName(id)]
    case Tuple(es) => [LParen] + YieldList(es) + [RParen]
    case Unary(op, x) => [UnarySymbol(op)] + Yield(x)
    case Explode(x) => [Ellipsis] + Yield(x)
    case Eff(x) => Yield(x) + [Not]
    case Index(x, i) => Yield(x) + [LBracket] + Yield(i) + [RBracket]
    case Call(f, args, _) => Yield(f) + ([LParen] + YieldList(args) + [RParen])
    case Access(l, r) => Yield(l) + [Dot] + Yield(r)
    case Bin(_, l, r) => Yield(l) + [Op(SymbolOf(e))] + Yield(r)
    case LBin(_, l, r) => Yield(l) + [Op(SymbolOf(e))] + Yield(r)
    case Cast(l, r) => Yield(l) + [Op(AS)] + Yield(r)
    case Test(l, r) => Yield(l) + [Op(IS)] + Yield(r)
    case Prop(l, r) => Yield(l) + [Op(OF)] + Yield(r)
  }

  function YieldList(es: seq<Expr>): seq<Token> {
    if es == [] then []
    else if |es| == 1 then Yield(es[0])
    else Yield(es[0]) + [Comma] + YieldList(es[1..])
  }

  /** The trees of the grammar: a left operand binds at least as tightly as its
      operator and a right operand strictly tighter, a prefix operator takes a
      prefix or postfix expression, and a postfix chain starts at a primary. */
  predicate Canonical(e: Expr) {
    match e
    case Var(_) => true
    case Int(kind, value) => value <= MaxOf(kind)
    case Bool(_) => true
    case Selector(_) => true
    case Type(_) => false
    case Tuple(es) => AllCanonical(es)
    case Unary(_, x) => Canonical(x) && !IsInfix(x)
    case Explode(x) => Canonical(x) && !IsInfix(x)
    case Eff(x) => Canonical(x) && IsPrimary(x)
    case Index(x, i) => Canonical(x) && IsPostfix(x) && Canonical(i)
    case Call(f, args, isC) => Canonical(f) && IsPostfix(f) && AllCanonical(args) && isC == (f == Var("printf"))
    case Access(l, r) => Canonical(l) && IsPostfix(l) && Canonical(r) && IsPrimary(r)
    case Bin(_, l, r) => Canonical(l) && Canonical(r) && PrecOf(l) >= PrecOf(e) && PrecOf(r) > PrecOf(e)
    case LBin(_, l, r) => Canonical(l) && Canonical(r) && PrecOf(l) >= PrecOf(e) && PrecOf(r) > PrecOf(e)
    case Cast(l, r) => Canonical(l) && PrecOf(l) >= PrecOf(e) && r.Type?
    case Test(l, r) => Canonical(l) && PrecOf(l) >= PrecOf(e) && r.Type?
    case Prop(l, r) => Canonical(l) && Canonical(r) && PrecOf(l) >= PrecOf(e) && PrecOf(r) > PrecOf(e)
  }

  predicate AllCanonical(es: seq<Expr>) {
    es == [] || (Canonical(es[0]) && AllCanonical(es[1..]))
  }

  /** The tree ends in a primary that a following `!` would turn into an effect. */
  predicate EndsPlain(e: Expr) {
    match e
    case Unary(_, x) => EndsPlain(x)
    case Explode(x) => EndsPlain(x)
    case Bin(_, _, r) => EndsPlain(r)
    case LBin(_, _, r) => EndsPlain(r)
    case Prop(_, r) => EndsPlain(r)
    case _ => IsPrimary(e)
  }

  /** The tree ends in the type operand of a cast or test. */
  predicate EndsInType(e: Expr) {
    match e
    case Bin(_, _, r) => EndsInType(r)
    case LBin(_, _, r) => EndsInType(r)
    case Prop(_, r) => EndsInType(r)
    case _ => e.Cast? || e.Test?
  }
}
