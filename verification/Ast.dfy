// Abstract syntax of Biron statements and of the boolean expressions that
// contribute control flow. Statements that do not branch are opaque actions.
module Ast {

  import opened Wrappers

  /** `Operand(q)` is any effectful boolean operand without control flow of its own. */
  datatype Expr =
    | Literal(b: bool)
    | Operand(q: nat)
    | LAnd(lhs: Expr, rhs: Expr)
    | LOr(lhs: Expr, rhs: Expr)

  datatype Stmt =
    | Act(a: nat)                     // a statement without branching, e.g. an assignment
    | ExprStmt(e: Expr)
    | Let(x: nat, e: Expr)            // evaluate, then store into variable x
    | Block(stmts: seq<Stmt>)
    | Return(ret: Option<Expr>)
    | Defer(d: Stmt)
    | Break
    | Continue
    | If(init: Option<Stmt>, cond: Expr, thn: seq<Stmt>, elif: Option<Stmt>)
    | For(init: Option<Stmt>, test: Option<Expr>, post: Option<Stmt>, body: seq<Stmt>, els: Option<Stmt>)

  predicate Straight(s: Stmt) {
    s.Act? || s.ExprStmt? || s.Let?
  }

  predicate NoReturn(s: Stmt) {
    match s
    case Act(_) => true
    case ExprStmt(_) => true
    case Let(_, _) => true
    case Block(ss) => NoReturns(ss)
    case Return(_) => false
    case Defer(d) => NoReturn(d)
    case Break => true
    case Continue => true
    case If(init, _, thn, elif) =>
      && (init.Some? ==> NoReturn(init.value))
      && NoReturns(thn)
      && (elif.Some? ==> NoReturn(elif.value))
    case For(init, _, post, body, els) =>
      && (init.Some? ==> NoReturn(init.value))
      && (post.Some? ==> NoReturn(post.value))
      && NoReturns(body)
      && (els.Some? ==> NoReturn(els.value))
  }

  predicate NoReturns(ss: seq<Stmt>) {
    ss == [] || (NoReturn(ss[0]) && NoReturns(ss[1..]))
  }

  /** Every `break` and `continue` has a loop to go to. The `else` block of a
      loop still sees that loop. */
  predicate JumpsOk(s: Stmt, inLoop: bool) {
    match s
    case Act(_) => true
    case ExprStmt(_) => true
    case Let(_, _) => true
    case Block(ss) => AllJumpsOk(ss, inLoop)
    case Return(_) => true
    case Defer(_) => true
    case Break => inLoop
    case Continue => inLoop
    case If(init, _, thn, elif) =>
      && AllJumpsOk(thn, inLoop)
      && (elif.Some? ==> JumpsOk(elif.value, inLoop))
    case For(init, _, post, body, els) =>
      && AllJumpsOk(body, true)
      && (els.Some? ==> JumpsOk(els.value, true))
  }

  predicate AllJumpsOk(ss: seq<Stmt>, inLoop: bool) {
    ss == [] || (JumpsOk(ss[0], inLoop) && AllJumpsOk(ss[1..], inLoop))
  }

  /** The shapes the parser builds: initialisers are `let`, a loop's post
      statement is an expression or an assignment, `else` continues with a block
      or another `if`, and a deferred statement does not escape. */
  predicate Shaped(s: Stmt) {
    match s
    case Act(_) => true
    case ExprStmt(_) => true
    case Let(_, _) => true
    case Block(ss) => AllShaped(ss)
    case Return(_) => true
    case Defer(d) => !d.Defer? && Shaped(d) && NoReturn(d) && JumpsOk(d, false)
    case Break => true
    case Continue => true
    case If(init, _, thn, elif) =>
      && (init.Some? ==> init.value.Let?)
      && AllShaped(thn)
      && (elif.Some? ==> (elif.value.Block? || elif.value.If?) && Shaped(elif.value))
    case For(init, _, post, body, els) =>
      && (init.Some? ==> init.value.Let?)
      && (post.Some? ==> Straight(post.value))
      && AllShaped(body)
      && (els.Some? ==> els.value.Block? && Shaped(els.value))
  }

  predicate AllShaped(ss: seq<Stmt>) {
    ss == [] || (Shaped(ss[0]) && AllShaped(ss[1..]))
  }

  /** A statement that may be deferred: no `return`, no jump out of it, and not
      itself a `defer`. */
  predicate Contained(d: Stmt) {
    !d.Defer? && Shaped(d) && NoReturn(d) && JumpsOk(d, false)
  }

  predicate AllContained(ds: seq<Stmt>) {
    forall i :: 0 <= i < |ds| ==> Contained(ds[i])
  }
}
