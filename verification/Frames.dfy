// Lowering only appends: to the current block, and to blocks it creates itself.
module Frames {
  import opened Wrappers
  import opened Ast
  import opened Machine
  import opened Lower

  ghost predicate Extends(g: Graph, h: Graph) {
    |g| <= |h| && forall i :: 0 <= i < |g| ==> g[i] <= h[i]
  }

  ghost predicate Frame(a: State, b: State) {
    && |a.blocks| <= |b.blocks|
    && a.next <= b.next
    && a.blocks[a.at] <= b.blocks[a.at]
    && (forall i :: 0 <= i < |a.blocks| && i != a.at ==> b.blocks[i] == a.blocks[i])
    && (b.at == a.at || b.at >= |a.blocks|)
  }

  lemma FrameTrans(a: State, b: State, c: State)
    requires Frame(a, b) && Frame(b, c)
    ensures Frame(a, c)
  {
  }

  lemma FrameExtends(a: State, b: State)
    requires Frame(a, b)
    ensures Extends(a.blocks, b.blocks)
  {
  }

  lemma ExtendsTrans(a: Graph, b: Graph, c: Graph)
    requires Extends(a, b) && Extends(b, c)
    ensures Extends(a, c)
  {
  }

  lemma FrameCreate(st: State, s: State, n: nat)
    requires Frame(st, s)
    ensures Frame(st, Create(s, n))
  {
  }

  lemma FrameEmit(st: State, s: State, i: Instr)
    requires Frame(st, s)
    ensures Frame(st, Emit(s, i))
  {
  }

  lemma FramePlace(st: State, s: State, b: nat)
    requires Frame(st, s) && |st.blocks| <= b < |s.blocks|
    ensures Frame(st, Place(s, b))
  {
  }

  lemma FrameLink(st: State, s: State, b: nat, target: nat)
    requires Frame(st, s) && |st.blocks| <= b < |s.blocks|
    ensures Frame(st, Link(s, b, target))
  {
  }

  lemma {:induction false} FrameExpr(e: Expr, st: State)
    ensures Frame(st, GenExpr(e, st).0)
    decreases e, 2
  {
    match e
    case Literal(_) =>
    case Operand(_) =>
    case LAnd(_, _) => FrameAnd(e, st);
    case LOr(_, _) => FrameOr(e, st);
  }

  lemma {:induction false} FrameAnd(e: Expr, st: State)
    requires e.LAnd?
    ensures Frame(st, GenExpr(e, st).0)
    decreases e, 1
  {
    hide Frame, Emit, Place, Link, Create, GenPhi;
    var n := |st.blocks|;
    var s1, v1 := FrameLhs(e.lhs, st);
    FrameEmit(st, s1, CondBr(v1, n, n + 1));
    FramePlace(st, Emit(s1, CondBr(v1, n, n + 1)), n);
    var s2, v2 := FrameRhs(e.rhs, st, Place(Emit(s1, CondBr(v1, n, n + 1)), n));
    FrameEmit(st, s2, CondBr(v2, n + 2, n + 3));
    FrameLink(st, Emit(s2, CondBr(v2, n + 2, n + 3)), n + 1, n + 4);
    var s3 := Link(Emit(s2, CondBr(v2, n + 2, n + 3)), n + 1, n + 4);
    FramePhi(st, s3, n, [(n + 1, false), (n + 2, true), (n + 3, false)]);
  }

  lemma {:induction false} FrameOr(e: Expr, st: State)
    requires e.LOr?
    ensures Frame(st, GenExpr(e, st).0)
    decreases e, 1
  {
    hide Frame, Emit, Place, Link, Create, GenPhi;
    var n := |st.blocks|;
    var s1, v1 := FrameLhs(e.lhs, st);
    FrameEmit(st, s1, CondBr(v1, n, n + 1));
    FrameLink(st, Emit(s1, CondBr(v1, n, n + 1)), n, n + 4);
    FramePlace(st, Link(Emit(s1, CondBr(v1, n, n + 1)), n, n + 4), n + 1);
    var s2, v2 := FrameRhs(e.rhs, st, Place(Link(Emit(s1, CondBr(v1, n, n + 1)), n, n + 4), n + 1));
    FrameEmit(st, s2, CondBr(v2, n + 2, n + 3));
    FramePhi(st, Emit(s2, CondBr(v2, n + 2, n + 3)), n, [(n, true), (n + 2, true), (n + 3, false)]);
  }

  lemma {:induction false} FrameRhs(rhs: Expr, st: State, s: State) returns (s2: State, v2: Value)
    requires Frame(st, s)
    ensures (s2, v2) == GenExpr(rhs, s)
    ensures Frame(st, s2)
    decreases rhs, 3
  {
    var r := GenExpr(rhs, s);
    s2, v2 := r.0, r.1;
    FrameExpr(rhs, s);
    FrameTrans(st, s, s2);
  }

  lemma {:induction false} FrameLhs(lhs: Expr, st: State) returns (s1: State, v1: Value)
    ensures (s1, v1) == GenExpr(lhs, Create(st, 5))
    ensures Frame(st, s1) && |s1.blocks| >= |st.blocks| + 5
    decreases lhs, 3
  {
    var r := GenExpr(lhs, Create(st, 5));
    s1, v1 := r.0, r.1;
    FrameExpr(lhs, Create(st, 5));
    FrameTrans(st, Create(st, 5), s1);
  }

  lemma FramePhi(st: State, s: State, n: nat, inc: seq<(nat, bool)>)
    requires Frame(st, s) && |st.blocks| <= n && n + 4 < |s.blocks|
    ensures Frame(st, GenPhi(s, n, inc).0)
  {
  }

  lemma {:induction false} FrameStmt(s: Stmt, ctx: Ctx, st: State)
    requires Lowerable(s, ctx)
    ensures Frame(st, GenStmt(s, ctx, st))
    decreases if NoReturn(s) then 0 else 1, s, 1
  {
    match s
    case ExprStmt(e) => FrameExpr(e, st);
    case Let(_, e) => FrameExpr(e, st);
    case Block(ss) => FrameBlock(ss, ctx, st);
    case Return(ret) =>
      var s1 := if ret.Some? then GenExpr(ret.value, st).0 else st;
      if ret.Some? {
        FrameExpr(ret.value, st);
      }
      FrameDefers(ctx.defers, s1);
      FrameTrans(st, s1, GenDefers(ctx.defers, s1));
    case If(init, _, _, _) =>
      if init.Some? {
        FrameStmt(init.value, ctx, st);
        FrameIf(s, ctx, GenStmt(init.value, ctx, st));
        FrameTrans(st, GenStmt(init.value, ctx, st), GenStmt(s, ctx, st));
      } else {
        FrameIf(s, ctx, st);
      }
    case For(init, _, _, _, _) =>
      if init.Some? {
        FrameStmt(init.value, ctx, st);
        FrameFor(s, ctx, GenStmt(init.value, ctx, st));
        FrameTrans(st, GenStmt(init.value, ctx, st), GenStmt(s, ctx, st));
      } else {
        FrameFor(s, ctx, st);
      }
    case _ =>
  }

  lemma {:induction false} FrameIf(s: Stmt, ctx: Ctx, st: State)
    requires s.If? && Lowerable(s, ctx)
    ensures Frame(st, GenIf(s, ctx, st))
    decreases if NoReturn(s) then 0 else 1, s, 0
  {
    hide Frame, Emit, Place, Seal, IfThen, GenExpr;
    FrameExpr(s.cond, st);
    var (s1, v) := GenExpr(s.cond, st);
    var n := |s1.blocks|;
    var s2 := IfThen(s1, v, s.elif.Some?);
    FrameThen(st, s1, v, s.elif.Some?);
    FrameBlock(s.thn, ctx, s2);
    FrameTrans(st, s2, GenBlock(s.thn, ctx, s2));
    var s3 := Seal(GenBlock(s.thn, ctx, s2), n + 1);
    FrameSeal(st, GenBlock(s.thn, ctx, s2), n + 1);
    if s.elif.Some? {
      FramePlace(st, s3, n + 2);
      FramePart(s.elif, ctx, st, Place(s3, n + 2));
      var s4 := GenStmt(s.elif.value, ctx, Place(s3, n + 2));
      FrameSeal(st, s4, n + 1);
      FramePlace(st, Seal(s4, n + 1), n + 1);
    } else {
      FramePlace(st, s3, n + 1);
    }
  }

  lemma FrameThen(st: State, s: State, v: Value, hasElse: bool)
    requires Frame(st, s)
    ensures Frame(st, IfThen(s, v, hasElse))
  {
  }

  lemma FrameSeal(st: State, s: State, target: nat)
    requires Frame(st, s)
    ensures Frame(st, Seal(s, target))
  {
  }

  lemma FrameTest(test: Option<Expr>, n: nat, st: State)
    ensures Frame(st, GenTest(test, n, st))
  {
    if test.Some? {
      FrameExpr(test.value, st);
    }
  }

  lemma {:induction false} FrameFor(s: Stmt, ctx: Ctx, st: State)
    requires s.For? && Lowerable(s, ctx)
    ensures Frame(st, GenFor(s, ctx, st))
    decreases if NoReturn(s) then 0 else 1, s, 0
  {
    var n := |st.blocks|;
    var inner := Inner(ctx, n);
    var s0 := LoopHead(st);
    assert Frame(st, s0);
    hide Frame, Emit, Place, LoopHead, GenTest;
    FrameTest(s.test, n, s0);
    var s1 := GenTest(s.test, n, s0);
    FrameTrans(st, s0, s1);
    var s1' := Place(s1, n + 1);
    FramePlace(st, s1, n + 1);
    var s2' := GenBlock(s.body, inner, s1');
    FrameBlock(s.body, inner, s1');
    FrameTrans(st, s1', s2');
    var s2 := Place(Emit(s2', Br(n + 2)), n + 2);
    FrameEmit(st, s2', Br(n + 2));
    FramePlace(st, Emit(s2', Br(n + 2)), n + 2);
    FramePart(s.post, inner, st, s2);
    var s3' := if s.post.Some? then GenStmt(s.post.value, inner, s2) else s2;
    FrameEmit(st, s3', Br(n));
    var s3 := Place(Emit(s3', Br(n)), n + 3);
    FramePlace(st, Emit(s3', Br(n)), n + 3);
    FramePart(s.els, inner, st, s3);
    var s4 := if s.els.Some? then GenStmt(s.els.value, inner, s3) else s3;
    FrameEmit(st, s4, Br(n + 4));
    FramePlace(st, Emit(s4, Br(n + 4)), n + 4);
  }

  lemma {:induction false} FramePart(part: Option<Stmt>, ctx: Ctx, st: State, mid: State)
    requires part.Some? ==> Lowerable(part.value, ctx)
    requires Frame(st, mid)
    ensures Frame(st, if part.Some? then GenStmt(part.value, ctx, mid) else mid)
    decreases if part.None? || NoReturn(part.value) then 0 else 1, part, 2
  {
    if part.Some? {
      FrameStmt(part.value, ctx, mid);
      FrameTrans(st, mid, GenStmt(part.value, ctx, mid));
    }
  }

  lemma {:induction false} FrameBlock(ss: seq<Stmt>, ctx: Ctx, st: State)
    requires AllLowerable(ss, ctx)
    ensures Frame(st, GenBlock(ss, ctx, st))
    decreases if NoReturns(ss) then 0 else 1, ss, 0
  {
    if ss != [] {
      assert Shaped(ss[0]) && JumpsOk(ss[0], ctx.loop.Some?);
      match ss[0]
      case Defer(d) =>
        var more := ctx.(defers := ctx.defers + [d]);
        FrameBlock(ss[1..], more, st);
        FrameStmt(d, TOP, GenBlock(ss[1..], more, st));
        FrameTrans(st, GenBlock(ss[1..], more, st), GenBlock(ss, ctx, st));
      case s =>
        FrameStmt(s, ctx, st);
        FrameBlock(ss[1..], ctx, GenStmt(s, ctx, st));
        FrameTrans(st, GenStmt(s, ctx, st), GenBlock(ss, ctx, st));
    }
  }

  lemma {:induction false} FrameDefers(ds: seq<Stmt>, st: State)
    requires AllContained(ds)
    ensures Frame(st, GenDefers(ds, st))
    decreases 0, ds, 0
  {
    if ds != [] {
      var d := ds[|ds| - 1];
      FrameStmt(d, TOP, st);
      FrameDefers(ds[..|ds| - 1], GenStmt(d, TOP, st));
      FrameTrans(st, GenStmt(d, TOP, st), GenDefers(ds, st));
    }
  }
}
