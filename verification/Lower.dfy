// Lowering of statements to basic blocks, as a function of the lexical context.
// The mutable builder and scope stack of the compiler are shown to compute
// exactly this function in Codegen.dfy.
module Lower {
  import opened Wrappers
  import opened Ast
  import opened Machine

  /** `order` lists the blocks appended to the function, `at` is the insertion
      point and `next` the next unused register. A block is created before it is
      appended and may be branched to in between. */
  datatype Code = Code(blocks: Graph, order: seq<nat>, at: nat, next: nat)

  type State = s: Code | s.at < |s.blocks| witness Code([[]], [0], 0, 0)

  datatype Loop = Loop(post: nat, exit: nat)

  /** What a statement sees of its surroundings: the statements deferred by the
      enclosing scopes, outermost first, and the innermost loop. */
  datatype Ctx = Ctx(defers: seq<Stmt>, loop: Option<Loop>)

  const TOP := Ctx([], None)

  function Emit(st: State, i: Instr): (r: State)
    ensures |r.blocks| == |st.blocks|
  {
    st.(blocks := st.blocks[st.at := st.blocks[st.at] + [i]])
  }

  function Create(st: State, n: nat): (r: State)
    ensures |r.blocks| == |st.blocks| + n
  {
    st.(blocks := st.blocks + seq(n, _ => []))
  }

  /** Append block `b` to the function and continue inserting there. */
  function Place(st: State, b: nat): (r: State)
    requires b < |st.blocks|
    ensures |r.blocks| == |st.blocks|
  {
    st.(order := st.order + [b], at := b)
  }

  function Fresh(st: State): State {
    st.(next := st.next + 1)
  }

  predicate Terminated(block: seq<Instr>) {
    block != [] && IsTerm(block[|block| - 1])
  }

  /** Branch to `target` unless the current block already ends in a terminator. */
  function Seal(st: State, target: nat): (r: State)
    ensures |r.blocks| == |st.blocks|
  {
    if Terminated(st.blocks[st.at]) then st else Emit(st, Br(target))
  }

  function Link(st: State, b: nat, target: nat): (r: State)
    requires b < |st.blocks|
    ensures |r.blocks| == |st.blocks|
  {
    Emit(Place(st, b), Br(target))
  }

  // ----- expressions -----

  function GenExpr(e: Expr, st: State): (r: (State, Value))
    ensures |r.0.blocks| >= |st.blocks|
  {
    match e
    case Literal(b) => (st, Const(b))
    case Operand(q) => (Fresh(Emit(st, Ask(q, st.next))), Reg(st.next))
    case LAnd(lhs, rhs) =>
      var n := |st.blocks|;
      var (s1, v1) := GenExpr(lhs, Create(st, 5));
      var (s2, v2) := GenExpr(rhs, Place(Emit(s1, CondBr(v1, n, n + 1)), n));
      var s3 := Link(Emit(s2, CondBr(v2, n + 2, n + 3)), n + 1, n + 4);
      GenPhi(s3, n, [(n + 1, false), (n + 2, true), (n + 3, false)])
    case LOr(lhs, rhs) =>
      var n := |st.blocks|;
      var (s1, v1) := GenExpr(lhs, Create(st, 5));
      var (s2, v2) := GenExpr(rhs, Place(Link(Emit(s1, CondBr(v1, n, n + 1)), n, n + 4), n + 1));
      var s3 := Emit(s2, CondBr(v2, n + 2, n + 3));
      GenPhi(s3, n, [(n, true), (n + 2, true), (n + 3, false)])
  }

  /** The blocks `on_rhs_true`, `on_rhs_false` and `on_exit` shared by both operators. */
  function GenPhi(st: State, n: nat, incoming: seq<(nat, bool)>): (r: (State, Value))
    requires n + 4 < |st.blocks|
    ensures |r.0.blocks| >= |st.blocks|
  {
    var s := Place(Link(Link(st, n + 2, n + 4), n + 3, n + 4), n + 4);
    (Fresh(Emit(s, Phi(s.next, incoming))), Reg(s.next))
  }

  // ----- statements -----

  predicate Lowerable(s: Stmt, ctx: Ctx) {
    Shaped(s) && JumpsOk(s, ctx.loop.Some?) && AllContained(ctx.defers)
  }

  predicate AllLowerable(ss: seq<Stmt>, ctx: Ctx) {
    AllShaped(ss) && AllJumpsOk(ss, ctx.loop.Some?) && AllContained(ctx.defers)
  }

  function GenStmt(s: Stmt, ctx: Ctx, st: State): (r: State)
    requires Lowerable(s, ctx)
    ensures |r.blocks| >= |st.blocks|
    decreases if NoReturn(s) then 0 else 1, s, 1
  {
    match s
    case Act(a) => Emit(st, Do(a))
    case ExprStmt(e) => GenExpr(e, st).0
    case Let(x, e) =>
      var (s1, v) := GenExpr(e, st);
      Emit(s1, Store(x, v))
    case Block(ss) => GenBlock(ss, ctx, st)
    case Return(ret) =>
      (match ret
       case None => Emit(GenDefers(ctx.defers, st), Ret(None))
       case Some(e) =>
         var (s1, v) := GenExpr(e, st);
         Emit(GenDefers(ctx.defers, s1), Ret(Some(v))))
    case Defer(_) => st
    case Break => Emit(st, Br(ctx.loop.value.exit))
    case Continue => Emit(st, Br(ctx.loop.value.post))
    case If(init, _, _, _) =>
      GenIf(s, ctx, if init.Some? then GenStmt(init.value, ctx, st) else st)
    case For(init, _, _, _, _) =>
      GenFor(s, ctx, if init.Some? then GenStmt(init.value, ctx, st) else st)
  }

  function GenIf(s: Stmt, ctx: Ctx, st: State): (r: State)
    requires s.If? && Lowerable(s, ctx)
    ensures |r.blocks| >= |st.blocks|
    decreases if NoReturn(s) then 0 else 1, s, 0
  {
    var (s1, v) := GenExpr(s.cond, st);
    var n := |s1.blocks|;
    var s2 := Seal(GenBlock(s.thn, ctx, IfThen(s1, v, s.elif.Some?)), n + 1);
    if s.elif.Some? then
      Place(Seal(GenStmt(s.elif.value, ctx, Place(s2, n + 2)), n + 1), n + 1)
    else
      Place(s2, n + 1)
  }

  function GenFor(s: Stmt, ctx: Ctx, st: State): (r: State)
    requires s.For? && Lowerable(s, ctx)
    ensures |r.blocks| >= |st.blocks|
    decreases if NoReturn(s) then 0 else 1, s, 0
  {
    var n := |st.blocks|;
    var inner := Inner(ctx, n);
    var s1 := GenTest(s.test, n, LoopHead(st));
    var s2 := Place(Emit(GenBlock(s.body, inner, Place(s1, n + 1)), Br(n + 2)), n + 2);
    var s3 := Place(Emit(if s.post.Some? then GenStmt(s.post.value, inner, s2) else s2, Br(n)), n + 3);
    var s4 := if s.els.Some? then GenStmt(s.els.value, inner, s3) else s3;
    Place(Emit(s4, Br(n + 4)), n + 4)
  }

  /** The context of a loop whose five blocks start at `n`. */
  function Inner(ctx: Ctx, n: nat): Ctx {
    ctx.(loop := Some(Loop(n + 2, n + 4)))
  }

  /** Blocks `then` and `join`, and `else` when there is one. */
  function IfThen(st: State, v: Value, hasElse: bool): (r: State)
    ensures |r.blocks| == |st.blocks| + (if hasElse then 3 else 2)
  {
    var n := |st.blocks|;
    if hasElse then Place(Emit(Create(st, 3), CondBr(v, n, n + 2)), n)
    else Place(Emit(Create(st, 2), CondBr(v, n, n + 1)), n)
  }

  /** Blocks `loop`, `join`, `post`, `else` and `exit`. */
  function LoopHead(st: State): (r: State)
    ensures |r.blocks| == |st.blocks| + 5
  {
    var n := |st.blocks|;
    Place(Emit(Create(st, 5), Br(n)), n)
  }

  function GenTest(test: Option<Expr>, n: nat, st: State): (r: State)
    ensures |r.blocks| >= |st.blocks|
  {
    match test
    case None => Emit(st, Br(n + 1))
    case Some(e) =>
      var (s1, v) := GenExpr(e, st);
      Emit(s1, CondBr(v, n + 1, n + 3))
  }

  /** The statements of a block, then its deferred statements: `defer d; rest`
      is `rest` followed by `d`. */
  function GenBlock(ss: seq<Stmt>, ctx: Ctx, st: State): (r: State)
    requires AllLowerable(ss, ctx)
    ensures |r.blocks| >= |st.blocks|
    decreases if NoReturns(ss) then 0 else 1, ss, 0
  {
    if ss == [] then st else
    assert Shaped(ss[0]) && JumpsOk(ss[0], ctx.loop.Some?);
    match ss[0]
    case Defer(d) => GenStmt(d, TOP, GenBlock(ss[1..], ctx.(defers := ctx.defers + [d]), st))
    case s => GenBlock(ss[1..], ctx, GenStmt(s, ctx, st))
  }

  /** Deferred statements, last one first. */
  function GenDefers(ds: seq<Stmt>, st: State): (r: State)
    requires AllContained(ds)
    ensures |r.blocks| >= |st.blocks|
    decreases 0, ds, 0
  {
    if ds == [] then st
    else GenDefers(ds[..|ds| - 1], GenStmt(ds[|ds| - 1], TOP, st))
  }
}
