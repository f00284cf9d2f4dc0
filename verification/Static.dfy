// Static well-formedness of the lowered graph: blocks are appended once and
// end in a terminator, branches stay inside, and every phi lists exactly the
// blocks that branch to it.
module Static {
  import opened Wrappers
  import opened Ast
  import opened Machine
  import opened Lower
  import opened Frames
  import opened Functions

  predicate Targets(i: Instr, x: nat) {
    match i
    case Br(t) => t == x
    case CondBr(_, t, f) => t == x || f == x
    case _ => false
  }

  predicate Jumps(block: seq<Instr>, x: nat) {
    exists k :: 0 <= k < |block| && Targets(block[k], x)
  }

  function Preds(g: Graph, x: nat): set<nat> {
    set y: nat | y < |g| && Jumps(g[y], x)
  }

  function Sources(inc: seq<(nat, bool)>): set<nat> {
    set p | p in inc :: p.0
  }

  ghost predicate Distinct(inc: seq<(nat, bool)>) {
    forall i, j :: 0 <= i < j < |inc| ==> inc[i].0 != inc[j].0
  }

  ghost predicate NoPhi(block: seq<Instr>) {
    forall k :: 0 <= k < |block| ==> !block[k].Phi?
  }

  /** A phi opens its block, and lists each predecessor once and nothing else. */
  ghost predicate PhisExact(g: Graph) {
    forall x, k :: 0 <= x < |g| && 0 <= k < |g[x]| && g[x][k].Phi? ==>
      k == 0 && Distinct(g[x][k].incoming) && Preds(g, x) == Sources(g[x][k].incoming)
  }

  ghost predicate TargetsInside(g: Graph) {
    forall y, k, x: nat :: 0 <= y < |g| && 0 <= k < |g[y]| && Targets(g[y][k], x) ==> x < |g|
  }

  ghost predicate NoDuplicates(order: seq<nat>) {
    forall i, j :: 0 <= i < j < |order| ==> order[i] != order[j]
  }

  /** Since `a`, exactly the blocks created outside of `pending` were appended, once each. */
  ghost predicate Appended(a: State, b: State, pending: set<nat>) {
    && a.order <= b.order
    && NoDuplicates(b.order[|a.order|..])
    && (forall x: nat :: x in b.order[|a.order|..] <==> |a.blocks| <= x < |b.blocks| && x !in pending)
  }

  /** Everything worked on since `a` is finished, except the current block and the pending ones. */
  ghost predicate Finished(a: State, b: State, pending: set<nat>) {
    && b.at !in pending
    && (forall x :: x in pending ==> |a.blocks| <= x < |b.blocks| && b.blocks[x] == [])
    && (forall x :: 0 <= x < |b.blocks| && (x == a.at || |a.blocks| <= x) && x != b.at && x !in pending ==>
          Terminated(b.blocks[x]))
  }

  /** No block that existed in `a` gained a predecessor, except those in `open`, or a phi. */
  ghost predicate Untouched(a: State, b: State, open: set<nat>) {
    && |a.blocks| <= |b.blocks|
    && (forall x: nat :: x < |a.blocks| && x !in open ==> Preds(b.blocks, x) == Preds(a.blocks, x))
    && (forall x :: 0 <= x < |a.blocks| && NoPhi(a.blocks[x]) ==> NoPhi(b.blocks[x]))
  }

  ghost predicate Sound(g: Graph) {
    PhisExact(g) && TargetsInside(g)
  }

  ghost predicate Tidy(a: State, b: State, pending: set<nat>, open: set<nat>) {
    && Frame(a, b) && Sound(b.blocks)
    && Appended(a, b, pending) && Finished(a, b, pending) && Untouched(a, b, open)
  }

  // ----- predecessors -----

  lemma JumpsAppend(block: seq<Instr>, i: Instr, x: nat)
    ensures Jumps(block + [i], x) <==> Jumps(block, x) || Targets(i, x)
  {
    var more := block + [i];
    if Targets(i, x) {
      assert Targets(more[|block|], x);
    }
    if k :| 0 <= k < |block| && Targets(block[k], x) {
      assert Targets(more[k], x);
    }
  }

  lemma PredsEmit(st: State, i: Instr, x: nat)
    ensures Preds(Emit(st, i).blocks, x) == Preds(st.blocks, x) + (if Targets(i, x) then {st.at} else {})
  {
    JumpsAppend(st.blocks[st.at], i, x);
  }

  lemma PredsCreate(st: State, n: nat, x: nat)
    ensures Preds(Create(st, n).blocks, x) == Preds(st.blocks, x)
  {
    assert forall y :: |st.blocks| <= y < |Create(st, n).blocks| ==> Create(st, n).blocks[y] == [];
  }

  lemma PredsOutside(g: Graph, x: nat)
    requires TargetsInside(g) && x >= |g|
    ensures Preds(g, x) == {}
  {
  }

  // ----- one builder operation at a time -----

  lemma TidyRefl(a: State, open: set<nat>)
    requires Sound(a.blocks)
    ensures Tidy(a, a, {}, open)
  {
    assert a.order[|a.order|..] == [];
  }

  lemma SoundCreate(b: State, n: nat)
    requires Sound(b.blocks)
    ensures Sound(Create(b, n).blocks)
  {
    var g: Graph := Create(b, n).blocks;
    forall x, k | 0 <= x < |g| && 0 <= k < |g[x]| && g[x][k].Phi?
      ensures k == 0 && Distinct(g[x][k].incoming) && Preds(g, x) == Sources(g[x][k].incoming)
    {
      PredsCreate(b, n, x);
      assert g[x] == b.blocks[x];
    }
  }

  lemma TidyCreate(a: State, b: State, pending: set<nat>, open: set<nat>, n: nat, made: set<nat>)
    requires Tidy(a, b, pending, open)
    requires forall x: nat :: x in made <==> |b.blocks| <= x < |b.blocks| + n
    ensures Tidy(a, Create(b, n), pending + made, open)
  {
    var c := Create(b, n);
    SoundCreate(b, n);
    FrameCreate(a, b, n);
    forall x: nat | x < |a.blocks| && x !in open ensures Preds(c.blocks, x) == Preds(a.blocks, x) {
      PredsCreate(b, n, x);
    }
  }

  /** A branch may go to a block without a phi. */
  lemma SoundEmit(b: State, i: Instr)
    requires Sound(b.blocks) && !i.Phi?
    requires forall x: nat :: Targets(i, x) ==> x < |b.blocks| && NoPhi(b.blocks[x])
    ensures Sound(Emit(b, i).blocks)
  {
    var g: Graph := Emit(b, i).blocks;
    forall x, k | 0 <= x < |g| && 0 <= k < |g[x]| && g[x][k].Phi?
      ensures k == 0 && Distinct(g[x][k].incoming) && Preds(g, x) == Sources(g[x][k].incoming)
    {
      PredsEmit(b, i, x);
      assert g[x][k] == b.blocks[x][k];
    }
  }

  lemma TidyEmit(a: State, b: State, pending: set<nat>, open: set<nat>, i: Instr)
    requires Tidy(a, b, pending, open) && !i.Phi?
    requires forall x: nat :: Targets(i, x) ==> x < |b.blocks| && NoPhi(b.blocks[x]) && (x in open || |a.blocks| <= x)
    ensures Tidy(a, Emit(b, i), pending, open)
  {
    hide Preds;
    var c := Emit(b, i);
    SoundEmit(b, i);
    FrameEmit(a, b, i);
    forall x: nat | x < |a.blocks| && x !in open ensures Preds(c.blocks, x) == Preds(a.blocks, x) {
      PredsEmit(b, i, x);
    }
  }

  lemma TidyFresh(a: State, b: State, pending: set<nat>, open: set<nat>)
    requires Tidy(a, b, pending, open)
    ensures Tidy(a, Fresh(b), pending, open)
  {
  }

  lemma TidyPlace(a: State, b: State, pending: set<nat>, open: set<nat>, x: nat)
    requires Tidy(a, b, pending, open) && x in pending && Terminated(b.blocks[b.at])
    ensures x < |b.blocks| && Tidy(a, Place(b, x), pending - {x}, open)
  {
    hide Preds, Sound, NoPhi;
    assert Place(b, x).order[|a.order|..] == b.order[|a.order|..] + [x];
  }

  /** A phi in an empty block whose predecessors it lists. */
  lemma TidyPhi(a: State, b: State, pending: set<nat>, open: set<nat>, dst: nat, inc: seq<(nat, bool)>)
    requires Tidy(a, b, pending, open) && b.blocks[b.at] == [] && |a.blocks| <= b.at
    requires Distinct(inc) && Preds(b.blocks, b.at) == Sources(inc)
    ensures Tidy(a, Emit(b, Phi(dst, inc)), pending, open)
  {
    hide Preds;
    var c := Emit(b, Phi(dst, inc));
    forall x: nat ensures Preds(c.blocks, x) == Preds(b.blocks, x) {
      PredsEmit(b, Phi(dst, inc), x);
    }
    assert c.blocks[b.at] == [Phi(dst, inc)];
    FrameEmit(a, b, Phi(dst, inc));
  }

  /** Code lowered in between, with targets of its own. */
  lemma TidySub(a: State, b: State, c: State, pending: set<nat>, open: set<nat>, open': set<nat>)
    requires Tidy(a, b, pending, open) && Tidy(b, c, {}, open')
    requires forall x :: x in open' ==> x in open || |a.blocks| <= x
    ensures Tidy(a, c, pending, open)
  {
    hide Preds, Sound, NoPhi, Terminated;
    FrameTrans(a, b, c);
    AppendedSub(a, b, c, pending);
    FinishedSub(a, b, c, pending);
  }

  lemma AppendedSub(a: State, b: State, c: State, pending: set<nat>)
    requires Frame(a, b) && Frame(b, c) && Finished(a, b, pending)
    requires Appended(a, b, pending) && Appended(b, c, {})
    ensures Appended(a, c, pending)
  {
    hide Terminated;
    var p, q := b.order[|a.order|..], c.order[|b.order|..];
    assert c.order[|a.order|..] == p + q;
    forall x: nat ensures x in p + q <==> |a.blocks| <= x < |c.blocks| && x !in pending {
      assert x in p + q <==> x in p || x in q;
    }
    forall i | 0 <= i < |p| ensures p[i] < |b.blocks| {
      assert p[i] in p;
    }
    forall j | 0 <= j < |q| ensures |b.blocks| <= q[j] {
      assert q[j] in q;
    }
  }

  lemma FinishedSub(a: State, b: State, c: State, pending: set<nat>)
    requires Frame(a, b) && Frame(b, c)
    requires Finished(a, b, pending) && Finished(b, c, {})
    ensures Finished(a, c, pending)
  {
    hide Terminated;
  }

  lemma TidyOpen(a: State, b: State, pending: set<nat>, open: set<nat>, open': set<nat>)
    requires Tidy(a, b, pending, open) && open <= open'
    ensures Tidy(a, b, pending, open')
  {
    hide Preds, Sound, Frame, Appended, Finished;
  }

  /** A pending block has no phi, so it may be branched to. */
  lemma TidyBranch(a: State, b: State, pending: set<nat>, open: set<nat>, i: Instr)
    requires Tidy(a, b, pending, open) && (i.Br? || i.CondBr?)
    requires forall x: nat :: Targets(i, x) ==> x in pending
    ensures Tidy(a, Emit(b, i), pending, open) && Terminated(Emit(b, i).blocks[b.at])
  {
    hide Preds, Sound, Frame, Appended, Untouched;
    TidyEmit(a, b, pending, open, i);
  }

  // ----- expressions -----

  lemma {:induction false} TidyExpr(e: Expr, st: State)
    requires Sound(st.blocks)
    ensures Tidy(st, GenExpr(e, st).0, {}, {})
    decreases e, 1
  {
    TidyRefl(st, {});
    match e
    case Literal(_) =>
    case Operand(q) =>
      TidyEmit(st, st, {}, {}, Ask(q, st.next));
      TidyFresh(st, Emit(st, Ask(q, st.next)), {}, {});
    case LAnd(_, _) => TidyAnd(e, st);
    case LOr(_, _) => TidyOr(e, st);
  }

  /** The left operand, with the operator's five blocks still pending. */
  lemma {:induction false} TidyLhs(lhs: Expr, st: State) returns (s1: State, v1: Value)
    requires Sound(st.blocks)
    ensures (s1, v1) == GenExpr(lhs, Create(st, 5))
    ensures var n := |st.blocks|;
            Tidy(st, s1, {n, n + 1, n + 2, n + 3, n + 4}, {}) && Preds(s1.blocks, n + 4) == {}
    decreases lhs, 2
  {
    hide Sound, PhisExact, Frame, Appended, Finished, Preds;
    var n := |st.blocks|;
    var made := {n, n + 1, n + 2, n + 3, n + 4};
    TidyRefl(st, {});
    TidyCreate(st, st, {}, {}, 5, made);
    assert {} + made == made;
    var s0 := Create(st, 5);
    TidyExpr(lhs, s0);
    var r := GenExpr(lhs, s0);
    s1, v1 := r.0, r.1;
    TidySub(st, s0, s1, made, {}, {});
    PredsCreate(st, 5, n + 4);
    PredsBeyond(st.blocks, n + 4);
  }

  lemma PredsBeyond(g: Graph, x: nat)
    requires Sound(g) && x >= |g|
    ensures Preds(g, x) == {}
  {
    PredsOutside(g, x);
  }

  lemma {:induction false} TidyRhs(rhs: Expr, a: State, s: State, pending: set<nat>, x: nat)
    returns (s2: State, v2: Value)
    requires Tidy(a, s, pending, {}) && x < |s.blocks|
    ensures (s2, v2) == GenExpr(rhs, s)
    ensures Tidy(a, s2, pending, {}) && Preds(s2.blocks, x) == Preds(s.blocks, x)
    decreases rhs, 2
  {
    hide Sound, Frame, Appended, Finished, Preds;
    TidyExpr(rhs, s);
    var r := GenExpr(rhs, s);
    s2, v2 := r.0, r.1;
    TidySub(a, s, s2, pending, {}, {});
  }

  /** Fill a pending block with a branch to another pending block. */
  lemma TidyLink(a: State, b: State, pending: set<nat>, x: nat, target: nat)
    requires Tidy(a, b, pending, {}) && x in pending && target in pending && x != target
    requires Terminated(b.blocks[b.at])
    ensures x < |b.blocks| && Tidy(a, Link(b, x, target), pending - {x}, {})
    ensures Terminated(Link(b, x, target).blocks[x]) && Link(b, x, target).at == x
    ensures Preds(Link(b, x, target).blocks, target) == Preds(b.blocks, target) + {x}
  {
    hide Sound, Frame, Appended, Untouched, Preds;
    TidyPlace(a, b, pending, {}, x);
    TidyBranch(a, Place(b, x), pending - {x}, {}, Br(target));
    PredsEmit(Place(b, x), Br(target), target);
  }

  /** The blocks after the right operand. Their exit block is reached from `x`,
      `n + 2` and `n + 3` only. */
  lemma TidyExit(a: State, s: State, n: nat, x: nat, inc: seq<(nat, bool)>)
    requires Tidy(a, s, {n + 2, n + 3, n + 4}, {}) && Terminated(s.blocks[s.at])
    requires Preds(s.blocks, n + 4) == {x} && (x == n || x == n + 1)
    requires |inc| == 3 && inc[0].0 == x && inc[1].0 == n + 2 && inc[2].0 == n + 3
    ensures n + 4 < |s.blocks| && Tidy(a, GenPhi(s, n, inc).0, {}, {})
  {
    hide Sound, Frame, Appended, Untouched, Preds, Terminated;
    TidyLink(a, s, {n + 2, n + 3, n + 4}, n + 2, n + 4);
    var s1 := Link(s, n + 2, n + 4);
    assert {n + 2, n + 3, n + 4} - {n + 2} == {n + 3, n + 4};
    TidyLink(a, s1, {n + 3, n + 4}, n + 3, n + 4);
    var s2 := Link(s1, n + 3, n + 4);
    assert {n + 3, n + 4} - {n + 3} == {n + 4};
    TidyPlace(a, s2, {n + 4}, {}, n + 4);
    assert {n + 4} - {n + 4} == {};
    var s3 := Place(s2, n + 4);
    SourcesThree(inc);
    assert Preds(s3.blocks, n + 4) == Sources(inc);
    TidyPhi(a, s3, {}, {}, s3.next, inc);
    TidyFresh(a, Emit(s3, Phi(s3.next, inc)), {}, {});
  }

  lemma SourcesThree(inc: seq<(nat, bool)>)
    requires |inc| == 3
    ensures Sources(inc) == {inc[0].0, inc[1].0, inc[2].0}
  {
    assert inc[0] in inc && inc[1] in inc && inc[2] in inc;
  }

  lemma {:induction false} TidyAnd(e: Expr, st: State)
    requires Sound(st.blocks) && e.LAnd?
    ensures Tidy(st, GenExpr(e, st).0, {}, {})
    decreases e, 0
  {
    hide Sound, Frame, Appended, Untouched, Preds, Terminated, Finished, GenPhi, Emit;
    var n := |st.blocks|;
    var all := {n, n + 1, n + 2, n + 3, n + 4};
    var s1, v1 := TidyLhs(e.lhs, st);
    TidyBranch(st, s1, all, {}, CondBr(v1, n, n + 1));
    var s1e := Emit(s1, CondBr(v1, n, n + 1));
    PredsEmit(s1, CondBr(v1, n, n + 1), n + 4);
    AtKept(s1, CondBr(v1, n, n + 1));
    TidyPlace(st, s1e, all, {}, n);
    assert all - {n} == {n + 1, n + 2, n + 3, n + 4};
    var s2, v2 := TidyRhs(e.rhs, st, Place(s1e, n), all - {n}, n + 4);
    TidyBranch(st, s2, all - {n}, {}, CondBr(v2, n + 2, n + 3));
    var s2e := Emit(s2, CondBr(v2, n + 2, n + 3));
    PredsEmit(s2, CondBr(v2, n + 2, n + 3), n + 4);
    AtKept(s2, CondBr(v2, n + 2, n + 3));
    TidyLink(st, s2e, all - {n}, n + 1, n + 4);
    assert all - {n} - {n + 1} == {n + 2, n + 3, n + 4};
    TidyExit(st, Link(s2e, n + 1, n + 4), n, n + 1, [(n + 1, false), (n + 2, true), (n + 3, false)]);
  }

  lemma AtKept(s: State, i: Instr)
    ensures Emit(s, i).at == s.at
  {
  }

  lemma {:induction false} TidyOr(e: Expr, st: State)
    requires Sound(st.blocks) && e.LOr?
    ensures Tidy(st, GenExpr(e, st).0, {}, {})
    decreases e, 0
  {
    hide Sound, Frame, Appended, Untouched, Preds, Terminated, Finished, GenPhi, Emit;
    var n := |st.blocks|;
    var all := {n, n + 1, n + 2, n + 3, n + 4};
    var s1, v1 := TidyLhs(e.lhs, st);
    TidyBranch(st, s1, all, {}, CondBr(v1, n, n + 1));
    var s1e := Emit(s1, CondBr(v1, n, n + 1));
    PredsEmit(s1, CondBr(v1, n, n + 1), n + 4);
    AtKept(s1, CondBr(v1, n, n + 1));
    TidyLink(st, s1e, all, n, n + 4);
    var s1l := Link(s1e, n, n + 4);
    TidyPlace(st, s1l, all - {n}, {}, n + 1);
    assert all - {n} - {n + 1} == {n + 2, n + 3, n + 4};
    var s2, v2 := TidyRhs(e.rhs, st, Place(s1l, n + 1), {n + 2, n + 3, n + 4}, n + 4);
    TidyBranch(st, s2, {n + 2, n + 3, n + 4}, {}, CondBr(v2, n + 2, n + 3));
    var s2e := Emit(s2, CondBr(v2, n + 2, n + 3));
    PredsEmit(s2, CondBr(v2, n + 2, n + 3), n + 4);
    AtKept(s2, CondBr(v2, n + 2, n + 3));
    TidyExit(st, s2e, n, n, [(n, true), (n + 2, true), (n + 3, false)]);
  }

  // ----- statements -----

  function Opens(ctx: Ctx): set<nat> {
    if ctx.loop.None? then {} else {ctx.loop.value.post, ctx.loop.value.exit}
  }

  /** The loop's post and exit blocks exist and hold no phi. */
  ghost predicate OpensOk(ctx: Ctx, st: State) {
    forall x :: x in Opens(ctx) ==> x < |st.blocks| && NoPhi(st.blocks[x])
  }

  lemma OpensKept(ctx: Ctx, a: State, b: State, pending: set<nat>, open: set<nat>)
    requires OpensOk(ctx, a) && Tidy(a, b, pending, open)
    ensures OpensOk(ctx, b)
  {
    hide Preds, Sound, Frame, Appended, Finished;
  }

  lemma {:induction false} TidyStmt(s: Stmt, ctx: Ctx, st: State)
    requires Lowerable(s, ctx) && Sound(st.blocks) && OpensOk(ctx, st)
    ensures Tidy(st, GenStmt(s, ctx, st), {}, Opens(ctx))
    decreases if NoReturn(s) then 0 else 1, s, 2
  {
    hide Sound, Frame, Appended, Finished, Untouched, Preds, GenIf, GenFor, GenDefers;
    TidyRefl(st, Opens(ctx));
    match s
    case Act(a) => TidyEmit(st, st, {}, Opens(ctx), Do(a));
    case ExprStmt(e) =>
      var _, _ := TidyValue(e, st, Opens(ctx));
    case Let(x, e) =>
      var s1, v := TidyValue(e, st, Opens(ctx));
      TidyEmit(st, s1, {}, Opens(ctx), Store(x, v));
    case Block(ss) => TidyBlock(ss, ctx, st);
    case Return(ret) => TidyReturn(ret, ctx, st);
    case Defer(_) =>
    case Break => TidyEmit(st, st, {}, Opens(ctx), Br(ctx.loop.value.exit));
    case Continue => TidyEmit(st, st, {}, Opens(ctx), Br(ctx.loop.value.post));
    case If(_, _, _, _) =>
      TidyPart(s.init, ctx, st, st, {}, Opens(ctx));
      var s0 := if s.init.Some? then GenStmt(s.init.value, ctx, st) else st;
      OpensKept(ctx, st, s0, {}, Opens(ctx));
      TidyIf(s, ctx, s0);
      TidySub(st, s0, GenStmt(s, ctx, st), {}, Opens(ctx), Opens(ctx));
    case For(_, _, _, _, _) =>
      TidyPart(s.init, ctx, st, st, {}, Opens(ctx));
      var s0 := if s.init.Some? then GenStmt(s.init.value, ctx, st) else st;
      OpensKept(ctx, st, s0, {}, Opens(ctx));
      TidyFor(s, ctx, s0);
      TidySub(st, s0, GenStmt(s, ctx, st), {}, Opens(ctx), Opens(ctx));
  }

  lemma TidyValue(e: Expr, st: State, open: set<nat>) returns (s1: State, v: Value)
    requires Sound(st.blocks)
    ensures (s1, v) == GenExpr(e, st) && Tidy(st, s1, {}, open)
  {
    var r := GenExpr(e, st);
    s1, v := r.0, r.1;
    TidyExpr(e, st);
    TidyOpen(st, s1, {}, {}, open);
  }

  /** An optional part lowered at `s`, inside code that started at `a`. */
  lemma {:induction false} TidyPart(part: Option<Stmt>, ctx: Ctx, a: State, s: State, pending: set<nat>, open: set<nat>)
    requires part.Some? ==> Lowerable(part.value, ctx) && OpensOk(ctx, s)
    requires Tidy(a, s, pending, open)
    requires forall x :: x in Opens(ctx) ==> x in open || |a.blocks| <= x
    ensures Tidy(a, if part.Some? then GenStmt(part.value, ctx, s) else s, pending, open)
    decreases if part.None? || NoReturn(part.value) then 0 else 1, part, 3
  {
    hide Frame, Appended, Finished, Untouched, Preds, Sound;
    if part.Some? {
      SoundOf(a, s, pending, open);
      TidyStmt(part.value, ctx, s);
      TidySub(a, s, GenStmt(part.value, ctx, s), pending, open, Opens(ctx));
    }
  }

  lemma SoundOf(a: State, b: State, pending: set<nat>, open: set<nat>)
    requires Tidy(a, b, pending, open)
    ensures Sound(b.blocks)
  {
  }

  lemma {:induction false} TidyBlock(ss: seq<Stmt>, ctx: Ctx, st: State)
    requires AllLowerable(ss, ctx) && Sound(st.blocks) && OpensOk(ctx, st)
    ensures Tidy(st, GenBlock(ss, ctx, st), {}, Opens(ctx))
    decreases if NoReturns(ss) then 0 else 1, ss, 0
  {
    hide Frame, Appended, Finished, Untouched, Preds, Sound, GenStmt, OpensOk;
    if ss == [] {
      TidyRefl(st, Opens(ctx));
    } else {
      assert Shaped(ss[0]) && JumpsOk(ss[0], ctx.loop.Some?);
      match ss[0]
      case Defer(d) =>
        var more := ctx.(defers := ctx.defers + [d]);
        SameOpens(ctx, more, st);
        TidyBlock(ss[1..], more, st);
        var s1 := GenBlock(ss[1..], more, st);
        SoundOf(st, s1, {}, Opens(ctx));
        NoOpens(s1);
        TidyStmt(d, TOP, s1);
        TidySub(st, s1, GenBlock(ss, ctx, st), {}, Opens(ctx), {});
      case s =>
        TidyStmt(s, ctx, st);
        var s1 := GenStmt(s, ctx, st);
        OpensKept(ctx, st, s1, {}, Opens(ctx));
        SoundOf(st, s1, {}, Opens(ctx));
        TidyBlock(ss[1..], ctx, s1);
        TidySub(st, s1, GenBlock(ss, ctx, st), {}, Opens(ctx), Opens(ctx));
    }
  }

  lemma SameOpens(ctx: Ctx, ctx': Ctx, st: State)
    requires ctx.loop == ctx'.loop && OpensOk(ctx, st)
    ensures OpensOk(ctx', st) && Opens(ctx') == Opens(ctx)
  {
  }

  lemma NoOpens(st: State)
    ensures OpensOk(TOP, st) && Opens(TOP) == {}
  {
  }

  lemma {:induction false} TidyDefers(ds: seq<Stmt>, a: State, st: State, open: set<nat>)
    requires AllContained(ds) && Tidy(a, st, {}, open)
    ensures Tidy(a, GenDefers(ds, st), {}, open)
    decreases 0, ds, 0
  {
    hide Frame, Appended, Finished, Untouched, Preds, Sound, GenStmt;
    if ds != [] {
      var d := ds[|ds| - 1];
      SoundOf(a, st, {}, open);
      TidyStmt(d, TOP, st);
      TidySub(a, st, GenStmt(d, TOP, st), {}, open, {});
      TidyDefers(ds[..|ds| - 1], a, GenStmt(d, TOP, st), open);
    }
  }

  lemma {:induction false} TidyReturn(ret: Option<Expr>, ctx: Ctx, st: State)
    requires AllContained(ctx.defers) && Sound(st.blocks) && Lowerable(Return(ret), ctx)
    ensures Tidy(st, GenStmt(Return(ret), ctx, st), {}, Opens(ctx))
    decreases 1, Return(ret), 1
  {
    hide Frame, Appended, Finished, Untouched, Preds, Sound, GenDefers;
    var s1 := st;
    var v: Option<Value> := None;
    if ret.None? {
      TidyRefl(st, Opens(ctx));
    } else {
      var s, x := TidyValue(ret.value, st, Opens(ctx));
      s1, v := s, Some(x);
    }
    TidyDefers(ctx.defers, st, s1, Opens(ctx));
    TidyEmit(st, GenDefers(ctx.defers, s1), {}, Opens(ctx), Ret(v));
  }

  /** Sealing a block with a branch to a pending block finishes it. */
  lemma TidySeal(a: State, b: State, pending: set<nat>, open: set<nat>, target: nat)
    requires Tidy(a, b, pending, open) && target in pending
    ensures Tidy(a, Seal(b, target), pending, open)
    ensures Terminated(Seal(b, target).blocks[b.at]) && Seal(b, target).at == b.at
  {
    hide Frame, Appended, Untouched, Preds, Sound;
    if !Terminated(b.blocks[b.at]) {
      TidyBranch(a, b, pending, open, Br(target));
    }
  }

  /** Finish the current block with a branch and continue in a pending one. */
  lemma TidyGoto(a: State, b: State, pending: set<nat>, open: set<nat>, i: Instr, x: nat)
    requires Tidy(a, b, pending, open) && (i.Br? || i.CondBr?) && x in pending
    requires forall y: nat :: Targets(i, y) ==> y < |b.blocks| && NoPhi(b.blocks[y]) && |a.blocks| <= y
    ensures x < |b.blocks| && Tidy(a, Place(Emit(b, i), x), pending - {x}, open)
  {
    hide Frame, Appended, Untouched, Preds, Sound, Finished;
    TidyEmit(a, b, pending, open, i);
    TidyPlace(a, Emit(b, i), pending, open, x);
  }

  lemma {:induction false} TidyIf(s: Stmt, ctx: Ctx, st: State)
    requires s.If? && Lowerable(s, ctx) && Sound(st.blocks) && OpensOk(ctx, st)
    ensures Tidy(st, GenIf(s, ctx, st), {}, Opens(ctx))
    decreases if NoReturn(s) then 0 else 1, s, 1
  {
    hide Frame, Appended, Finished, Untouched, Preds, Sound, GenExpr, GenBlock, GenStmt;
    hide Seal, Place, Emit, IfThen, OpensOk;
    var open := Opens(ctx);
    var s1, v := TidyValue(s.cond, st, open);
    var n := |s1.blocks|;
    var s2, pending := TidyThen(st, s1, v, s.elif.Some?, open);
    assert |st.blocks| <= n;
    SoundOf(st, s2, pending, open);
    OpensKept(ctx, st, s2, pending, open);
    TidyBlock(s.thn, ctx, s2);
    var s3 := GenBlock(s.thn, ctx, s2);
    TidySub(st, s2, s3, pending, open, open);
    TidySeal(st, s3, pending, open, n + 1);
    var s4 := Seal(s3, n + 1);
    if s.elif.Some? {
      TidyPlace(st, s4, pending, open, n + 2);
      assert pending - {n + 2} == {n + 1};
      var s5 := Place(s4, n + 2);
      OpensKept(ctx, st, s5, {n + 1}, open);
      TidyPart(s.elif, ctx, st, s5, {n + 1}, open);
      var s6 := GenStmt(s.elif.value, ctx, s5);
      TidySeal(st, s6, {n + 1}, open, n + 1);
      TidyPlace(st, Seal(s6, n + 1), {n + 1}, open, n + 1);
    } else {
      TidyPlace(st, s4, pending, open, n + 1);
    }
    assert {n + 1} - {n + 1} == {};
  }

  lemma TidyThen(a: State, s1: State, v: Value, hasElse: bool, open: set<nat>) returns (s2: State, pending: set<nat>)
    requires Tidy(a, s1, {}, open)
    ensures s2 == IfThen(s1, v, hasElse) && |a.blocks| <= |s1.blocks|
    ensures pending == (var n := |s1.blocks|; if hasElse then {n + 1, n + 2} else {n + 1})
    ensures Tidy(a, s2, pending, open)
  {
    hide Appended, Finished, Untouched, Preds, Sound;
    var n := |s1.blocks|;
    s2 := IfThen(s1, v, hasElse);
    if hasElse {
      TidyCreate(a, s1, {}, open, 3, {n, n + 1, n + 2});
      assert {} + {n, n + 1, n + 2} == {n, n + 1, n + 2};
      TidyGoto(a, Create(s1, 3), {n, n + 1, n + 2}, open, CondBr(v, n, n + 2), n);
      pending := {n + 1, n + 2};
      assert {n, n + 1, n + 2} - {n} == pending;
    } else {
      TidyCreate(a, s1, {}, open, 2, {n, n + 1});
      assert {} + {n, n + 1} == {n, n + 1};
      TidyGoto(a, Create(s1, 2), {n, n + 1}, open, CondBr(v, n, n + 1), n);
      pending := {n + 1};
      assert {n, n + 1} - {n} == pending;
    }
  }

  /** The blocks of a loop that are branched to from several places hold no phi. */
  ghost predicate Clear(g: Graph, n: nat) {
    n + 4 < |g| && NoPhi(g[n]) && NoPhi(g[n + 2]) && NoPhi(g[n + 4])
  }

  lemma ClearKept(a: State, b: State, pending: set<nat>, open: set<nat>, n: nat)
    requires Tidy(a, b, pending, open) && Clear(a.blocks, n)
    ensures Clear(b.blocks, n)
  {
    hide Frame, Appended, Finished, Preds, Sound, NoPhi;
  }

  lemma ClearGoto(b: State, i: Instr, x: nat, n: nat)
    requires Clear(b.blocks, n) && !i.Phi? && x < |b.blocks|
    ensures Clear(Place(Emit(b, i), x).blocks, n)
  {
  }

  lemma InnerOpens(ctx: Ctx, n: nat, b: State)
    requires Clear(b.blocks, n)
    ensures OpensOk(Inner(ctx, n), b) && Opens(Inner(ctx, n)) == {n + 2, n + 4}
  {
  }

  lemma TidyHead(st: State, open: set<nat>)
    requires Sound(st.blocks)
    ensures var n := |st.blocks|;
            Tidy(st, LoopHead(st), {n + 1, n + 2, n + 3, n + 4}, open) && Clear(LoopHead(st).blocks, n)
  {
    hide Frame, Appended, Finished, Untouched, Preds, Sound;
    var n := |st.blocks|;
    TidyRefl(st, open);
    var made := {n, n + 1, n + 2, n + 3, n + 4};
    TidyCreate(st, st, {}, open, 5, made);
    assert {} + made == made;
    TidyGoto(st, Create(st, 5), made, open, Br(n), n);
    assert made - {n} == {n + 1, n + 2, n + 3, n + 4};
  }

  lemma PendingNoPhi(a: State, b: State, pending: set<nat>, open: set<nat>)
    requires Tidy(a, b, pending, open)
    ensures forall x :: x in pending ==> |a.blocks| <= x < |b.blocks| && NoPhi(b.blocks[x])
  {
    hide Frame, Appended, Untouched, Preds, Sound;
  }

  lemma TidyTest(test: Option<Expr>, n: nat, a: State, s: State, open: set<nat>)
    requires Tidy(a, s, {n + 1, n + 2, n + 3, n + 4}, open) && Clear(s.blocks, n) && n == |a.blocks|
    ensures var r := Place(GenTest(test, n, s), n + 1);
            Tidy(a, r, {n + 2, n + 3, n + 4}, open) && Clear(r.blocks, n)
  {
    hide Frame, Appended, Untouched, Preds, Sound, Clear, Finished, NoPhi, GenExpr, Tidy;
    var pending := {n + 1, n + 2, n + 3, n + 4};
    assert pending - {n + 1} == {n + 2, n + 3, n + 4};
    match test
    case None =>
      PendingNoPhi(a, s, pending, open);
      TidyGoto(a, s, pending, open, Br(n + 1), n + 1);
      ClearGoto(s, Br(n + 1), n + 1, n);
    case Some(e) =>
      SoundOf(a, s, pending, open);
      var s1, v := TidyValue(e, s, {});
      ClearKept(s, s1, {}, {}, n);
      TidySub(a, s, s1, pending, open, {});
      PendingNoPhi(a, s1, pending, open);
      TidyGoto(a, s1, pending, open, CondBr(v, n + 1, n + 3), n + 1);
      ClearGoto(s1, CondBr(v, n + 1, n + 3), n + 1, n);
  }

  /** An optional part of the loop `n`, followed by a branch and the next pending block. */
  lemma {:induction false} TidyNext(part: Option<Stmt>, ctx: Ctx, a: State, s: State, pending: set<nat>, open: set<nat>,
                                    n: nat, target: nat, x: nat) returns (r: State)
    requires part.Some? ==> Lowerable(part.value, Inner(ctx, n))
    requires Tidy(a, s, pending, open) && Clear(s.blocks, n) && |a.blocks| == n && x in pending
    requires target == n || target == n + 2 || target == n + 4
    ensures r == Place(Emit(if part.Some? then GenStmt(part.value, Inner(ctx, n), s) else s, Br(target)), x)
    ensures Tidy(a, r, pending - {x}, open) && Clear(r.blocks, n)
    decreases if part.None? || NoReturn(part.value) then 0 else 1, part, 3
  {
    hide Frame, Appended, Finished, Untouched, Preds, Sound, GenStmt;
    var s1 := s;
    if part.Some? {
      InnerOpens(ctx, n, s);
      SoundOf(a, s, pending, open);
      TidyStmt(part.value, Inner(ctx, n), s);
      s1 := GenStmt(part.value, Inner(ctx, n), s);
      ClearKept(s, s1, {}, Opens(Inner(ctx, n)), n);
      TidySub(a, s, s1, pending, open, Opens(Inner(ctx, n)));
    }
    TidyGoto(a, s1, pending, open, Br(target), x);
    ClearGoto(s1, Br(target), x, n);
    r := Place(Emit(s1, Br(target)), x);
  }

  lemma TidyPost(a: State, b: State, pending: set<nat>, open: set<nat>, n: nat) returns (r: State)
    requires Tidy(a, b, pending, open) && Clear(b.blocks, n) && |a.blocks| == n && n + 2 in pending
    ensures r == Place(Emit(b, Br(n + 2)), n + 2)
    ensures Tidy(a, r, pending - {n + 2}, open) && Clear(r.blocks, n)
  {
    hide Frame, Appended, Finished, Untouched, Preds, Sound;
    TidyGoto(a, b, pending, open, Br(n + 2), n + 2);
    ClearGoto(b, Br(n + 2), n + 2, n);
    r := Place(Emit(b, Br(n + 2)), n + 2);
  }

  lemma {:induction false} TidyFor(s: Stmt, ctx: Ctx, st: State)
    requires s.For? && Lowerable(s, ctx) && Sound(st.blocks) && OpensOk(ctx, st)
    ensures Tidy(st, GenFor(s, ctx, st), {}, Opens(ctx))
    decreases if NoReturn(s) then 0 else 1, s, 1
  {
    hide Frame, Appended, Finished, Untouched, Preds, Sound, GenBlock, GenStmt, GenTest, LoopHead, Place, Emit, Clear;
    var n, open, inner := |st.blocks|, Opens(ctx), Inner(ctx, |st.blocks|);
    TidyHead(st, open);
    TidyTest(s.test, n, st, LoopHead(st), open);
    var b0 := Place(GenTest(s.test, n, LoopHead(st)), n + 1);
    var pending := {n + 2, n + 3, n + 4};
    InnerOpens(ctx, n, b0);
    SoundOf(st, b0, pending, open);
    TidyBlock(s.body, inner, b0);
    var b1 := GenBlock(s.body, inner, b0);
    ClearKept(b0, b1, {}, Opens(inner), n);
    TidySub(st, b0, b1, pending, open, Opens(inner));
    var s2 := TidyPost(st, b1, pending, open, n);
    assert pending - {n + 2} == {n + 3, n + 4};
    var s3 := TidyNext(s.post, ctx, st, s2, {n + 3, n + 4}, open, n, n, n + 3);
    assert {n + 3, n + 4} - {n + 3} == {n + 4};
    var s4 := TidyNext(s.els, ctx, st, s3, {n + 4}, open, n, n + 4, n + 4);
    assert {n + 4} - {n + 4} == {};
  }

  // ----- whole functions -----

  /** Every block is appended exactly once and ends in a terminator, every
      branch goes to an appended block, and every phi opens its block and lists
      exactly the blocks that branch to it. */
  lemma WellFormed(body: seq<Stmt>, void: bool)
    requires AllLowerable(body, TOP)
    ensures var s := GenFn(body, void); var g := s.blocks;
      && NoDuplicates(s.order) && (forall x: nat :: x in s.order <==> x < |g|)
      && (forall x :: 0 <= x < |g| ==> Terminated(g[x]))
      && TargetsInside(g) && PhisExact(g)
  {
    hide Preds;
    var p := PROLOGUE;
    PrologueSound();
    NoOpens(p);
    TidyBlock(body, TOP, p);
    var s := GenBlock(body, TOP, p);
    var order := s.order[2..];
    assert s.order == [0, 1] + order;
    forall x: nat ensures x in s.order <==> x < |s.blocks| {
      assert x in s.order <==> x in [0, 1] || x in order;
    }
    forall i | 0 <= i < |order| ensures order[i] >= 2 {
      assert order[i] in order;
    }
    EpilogueTidy(s, void);
  }

  lemma PrologueSound()
    ensures Sound(PROLOGUE.blocks)
  {
  }

  lemma EpilogueTidy(s: State, void: bool)
    requires Tidy(PROLOGUE, s, {}, {})
    ensures var r := Epilogue(s, void);
      && r.order == s.order && |r.blocks| == |s.blocks| && Sound(r.blocks)
      && forall x :: 0 <= x < |r.blocks| ==> Terminated(r.blocks[x])
  {
    hide Preds, Sound, Appended;
    var t := s.(at := 0);
    assert s.blocks[0] == [];
    SoundOf(PROLOGUE, s, {}, {});
    assert Emit(t, Br(1)).blocks == s.blocks[0 := s.blocks[0] + [Br(1)]];
    assert NoPhi(s.blocks[1]);
    SoundEmit(t, Br(1));
    var u := Emit(t, Br(1)).(at := s.at);
    if !Terminated(u.blocks[u.at]) {
      SoundEmit(u, Ret(if void then None else Some(Const(false))));
    }
  }
}
