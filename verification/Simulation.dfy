// Running the lowered blocks has the same effect as executing the source.
module Simulation {
  import opened Wrappers
  import opened Ast
  import opened Machine
  import opened Source
  import opened Lower
  import opened Frames

  /** About to execute whatever is inserted next in `st`. */
  ghost predicate AtEnd(c: Config, st: State) {
    c.Run? && c.b == st.at && c.k == |st.blocks[st.at]|
  }

  /** Registers below `n` still hold what they held. */
  ghost predicate Keeps(before: Env, after: Env, n: nat) {
    forall r :: r in before && r < n ==> r in after && after[r] == before[r]
  }

  ghost predicate Arrives(c: Config, b: nat, t: seq<Event>) {
    c.Run? && c.b == b && c.k == 0 && c.t == t
  }

  ghost predicate StartsWith(g: Graph, b: nat, i: Instr) {
    b < |g| && |g[b]| > 0 && g[b][0] == i
  }

  /** Where a run got to: after `n` steps, in `c`. A run that is about to return
      `v` is about to execute the defers of the enclosing scopes, inserted at
      the end of `s`. */
  datatype Ran = Ran(n: nat, c: Config, s: State, v: Option<Value>)

  ghost predicate Returning(w: Ran, b: Option<bool>, ctx: Ctx, g: Graph, t: seq<Event>) {
    && AllContained(ctx.defers) && Extends(Emit(GenDefers(ctx.defers, w.s), Ret(w.v)).blocks, g)
    && AtEnd(w.c, w.s) && w.c.t == t && w.v.Some? == b.Some?
    && (w.v.Some? ==> ValueOf(w.v.value, w.c.env) == b && (w.v.value.Reg? ==> w.v.value.r < w.s.next))
  }

  /** How a machine run from `c`, standing at the end of `st`, must answer the
      source result `r` of the code lowered from `st` to `st'`. */
  ghost predicate Simulates(r: Option<Result>, ctx: Ctx, st: State, st': State,
                            o: Oracle, g: Graph, c: Config, fuel: nat, w: Ran)
    requires c.Run?
  {
    match r
    case None => Steps(o, g, c, fuel).Run?
    case Some(Result(Normal, t)) =>
      Steps(o, g, c, w.n) == w.c && AtEnd(w.c, st') && w.c.t == t && Keeps(c.env, w.c.env, st.next)
    case Some(Result(Broke, t)) =>
      && ctx.loop.Some? && Steps(o, g, c, w.n) == w.c && Arrives(w.c, ctx.loop.value.exit, t)
      && Keeps(c.env, w.c.env, st.next)
    case Some(Result(Continued, t)) =>
      && ctx.loop.Some? && Steps(o, g, c, w.n) == w.c && Arrives(w.c, ctx.loop.value.post, t)
      && Keeps(c.env, w.c.env, st.next)
    case Some(Result(Returned(b), t)) =>
      Steps(o, g, c, w.n) == w.c && Returning(w, b, ctx, g, t)
  }

  /** A run to `c1` followed by a simulating run is a simulating run. */
  lemma Chain(r: Option<Result>, ctx: Ctx, st: State, st1: State, st': State,
              o: Oracle, g: Graph, c: Config, n1: nat, c1: Config, fuel: nat, w: Ran) returns (w': Ran)
    requires c.Run? && c1.Run? && Steps(o, g, c, n1) == c1
    requires Keeps(c.env, c1.env, st.next) && st.next <= st1.next
    requires Simulates(r, ctx, st1, st', o, g, c1, fuel, w)
    ensures Simulates(r, ctx, st, st', o, g, c, fuel, w')
    ensures w' == w.(n := n1 + w.n)
  {
    w' := w.(n := n1 + w.n);
    StepsAdd(o, g, c, n1, w.n);
    StepsAdd(o, g, c, n1, fuel);
    if Steps(o, g, c1, fuel).Run? {
      RunningEarlier(o, g, c, fuel, n1 + fuel);
    }
  }

  lemma Then(o: Oracle, g: Graph, c: Config, n1: nat, c1: Config, n2: nat, c2: Config)
    requires Steps(o, g, c, n1) == c1 && Steps(o, g, c1, n2) == c2
    ensures Steps(o, g, c, n1 + n2) == c2
  {
    StepsAdd(o, g, c, n1, n2);
  }

  lemma Zero(o: Oracle, g: Graph, c: Config)
    ensures Steps(o, g, c, 0) == c
  {
  }

  lemma One(o: Oracle, g: Graph, c: Config)
    ensures Steps(o, g, c, 1) == Step(o, g, c)
  {
    assert Steps(o, g, c, 1) == Steps(o, g, Step(o, g, c), 0);
  }

  /** Code that ended normally stands at the end of what was lowered. */
  lemma Arrived(r: Option<Result>, ctx: Ctx, st: State, st': State,
                o: Oracle, g: Graph, c: Config, fuel: nat, w: Ran)
    requires c.Run? && FellIn(g, c) && r.Some? && r.value.out.Normal?
    requires Simulates(r, ctx, st, st', o, g, c, fuel, w)
    ensures Steps(o, g, c, w.n) == w.c && AtEnd(w.c, st') && w.c.t == r.value.t
    ensures Keeps(c.env, w.c.env, st.next) && FellIn(g, w.c)
  {
    FellInKept(o, g, c, w.n);
  }

  /** Where the code ends matters only to runs that end normally. */
  lemma Redirect(r: Option<Result>, ctx: Ctx, st: State, st': State, other: State,
                 o: Oracle, g: Graph, c: Config, fuel: nat, w: Ran)
    requires c.Run? && !(r.Some? && r.value.out.Normal?)
    requires Simulates(r, ctx, st, st', o, g, c, fuel, w)
    ensures Simulates(r, ctx, st, other, o, g, c, fuel, w)
  {
  }

  /** A normal or unfinished run does not depend on the context, and a return only on its defers. */
  lemma Recontext(r: Option<Result>, ctx: Ctx, ctx': Ctx, st: State, st': State,
                  o: Oracle, g: Graph, c: Config, fuel: nat, w: Ran)
    requires c.Run? && (r.Some? ==> r.value.out.Normal? || (r.value.out.Returned? && ctx.defers == ctx'.defers))
    requires Simulates(r, ctx, st, st', o, g, c, fuel, w)
    ensures Simulates(r, ctx', st, st', o, g, c, fuel, w)
  {
  }

  /** The instruction emitted at the insertion point is the one executed there. */
  lemma Fetch(st: State, i: Instr, o: Oracle, g: Graph, c: Config)
    requires Extends(Emit(st, i).blocks, g)
    ensures Extends(st.blocks, g)
    ensures AtEnd(c, st) ==> Step(o, g, c) == Execute(o, i, c) && Steps(o, g, c, 1) == Step(o, g, c)
  {
    assert st.blocks[st.at] + [i] <= g[st.at];
    assert Extends(st.blocks, Emit(st, i).blocks);
    ExtendsTrans(st.blocks, Emit(st, i).blocks, g);
    assert Steps(o, g, c, 1) == Steps(o, g, Step(o, g, c), 0);
  }

  lemma Branch(st: State, v: Value, onTrue: nat, onFalse: nat, o: Oracle, g: Graph, c: Config)
    requires Extends(Emit(st, CondBr(v, onTrue, onFalse)).blocks, g)
    requires AtEnd(c, st) && ValueOf(v, c.env).Some?
    ensures Steps(o, g, c, 1) == Run(if ValueOf(v, c.env).value then onTrue else onFalse, 0, c.b, c.env, c.t)
  {
    Fetch(st, CondBr(v, onTrue, onFalse), o, g, c);
  }

  lemma Jump(st: State, target: nat, o: Oracle, g: Graph, c: Config)
    requires Extends(Emit(st, Br(target)).blocks, g) && AtEnd(c, st)
    ensures Steps(o, g, c, 1) == Run(target, 0, c.b, c.env, c.t)
  {
    Fetch(st, Br(target), o, g, c);
  }

  /** A seal at a place that is really reached is a branch to its target. */
  lemma SealStep(st: State, target: nat, o: Oracle, g: Graph, c: Config)
    requires Extends(Seal(st, target).blocks, g)
    ensures Extends(st.blocks, g)
    ensures AtEnd(c, st) && FellIn(g, c) ==> Steps(o, g, c, 1) == Enter(target, c)
  {
    if !Terminated(st.blocks[st.at]) {
      Fetch(st, Br(target), o, g, c);
    } else {
      assert st.blocks[st.at] <= g[st.at];
    }
  }

  // ----- expressions -----

  lemma {:induction false} ValueDefined(e: Expr, st: State)
    ensures var (s, v) := GenExpr(e, st); st.next <= s.next && (v.Reg? ==> v.r < s.next)
  {
    FrameExpr(e, st);
  }

  lemma BackPhi(s: State, n: nat, inc: seq<(nat, bool)>, g: Graph)
    requires n + 4 < |s.blocks| && s.blocks[n + 2] == s.blocks[n + 3] == s.blocks[n + 4] == []
    requires Extends(GenPhi(s, n, inc).0.blocks, g)
    ensures Extends(s.blocks, g) && n + 4 < |g|
    ensures StartsWith(g, n + 2, Br(n + 4)) && StartsWith(g, n + 3, Br(n + 4)) && StartsWith(g, n + 4, Phi(s.next, inc))
    ensures var (r, v) := GenPhi(s, n, inc);
            && r.at == n + 4 && |r.blocks[n + 4]| == 1 && v == Reg(s.next)
  {
    var r := GenPhi(s, n, inc).0;
    assert r.blocks[n + 2] == r.blocks[n + 3] == [Br(n + 4)];
    assert Extends(s.blocks, r.blocks);
    ExtendsTrans(s.blocks, r.blocks, g);
  }

  lemma BackEmit(s: State, i: Instr, g: Graph)
    requires Extends(Emit(s, i).blocks, g)
    ensures Extends(s.blocks, g)
  {
    assert Extends(s.blocks, Emit(s, i).blocks);
    ExtendsTrans(s.blocks, Emit(s, i).blocks, g);
  }

  lemma BackLink(s: State, b: nat, target: nat, g: Graph)
    requires b < |s.blocks| && s.blocks[b] == [] && Extends(Link(s, b, target).blocks, g)
    ensures Extends(s.blocks, g) && b < |g| && StartsWith(g, b, Br(target))
  {
    assert Extends(s.blocks, Link(s, b, target).blocks);
    ExtendsTrans(s.blocks, Link(s, b, target).blocks, g);
    assert Link(s, b, target).blocks[b] == [Br(target)];
  }

  /** From a block that only branches to the exit block, through its phi. */
  lemma ThroughPhi(o: Oracle, g: Graph, c: Config, n: nat, dst: nat, inc: seq<(nat, bool)>)
    requires c.Run? && c.k == 0 && Incoming(inc, c.b).Some?
    requires StartsWith(g, c.b, Br(n + 4)) && StartsWith(g, n + 4, Phi(dst, inc))
    ensures Steps(o, g, c, 2) == Run(n + 4, 1, c.b, c.env[dst := Incoming(inc, c.b).value], c.t)
  {
    hide Steps, Incoming;
    var c1 := Step(o, g, c);
    One(o, g, c);
    One(o, g, c1);
    Then(o, g, c, 1, c1, 1, Step(o, g, c1));
  }

  lemma Inputs(p: (nat, bool), q: (nat, bool), r: (nat, bool))
    requires p.0 != q.0 && p.0 != r.0 && q.0 != r.0
    ensures Incoming([p, q, r], p.0) == Some(p.1)
    ensures Incoming([p, q, r], q.0) == Some(q.1)
    ensures Incoming([p, q, r], r.0) == Some(r.1)
  {
    assert [p, q, r][1..] == [q, r] && [q, r][1..] == [r];
    assert Incoming([r], r.0) == Some(r.1);
    assert Incoming([q, r], r.0) == Some(r.1);
  }

  lemma {:induction false} SimExpr(e: Expr, st: State, o: Oracle, g: Graph, c: Config) returns (n: nat, c': Config)
    requires AtEnd(c, st) && Extends(GenExpr(e, st).0.blocks, g)
    ensures c' == Steps(o, g, c, n)
    ensures AtEnd(c', GenExpr(e, st).0) && c'.t == Eval(e, o, c.t).1
    ensures ValueOf(GenExpr(e, st).1, c'.env) == Some(Eval(e, o, c.t).0)
    ensures Keeps(c.env, c'.env, st.next)
    decreases e, 1
  {
    match e
    case Literal(_) => n, c' := 0, c;
    case Operand(q) =>
      n, c' := 1, Step(o, g, c);
      Fetch(st, Ask(q, st.next), o, g, c);
    case LAnd(_, _) => n, c' := SimAnd(e, st, o, g, c);
    case LOr(_, _) => n, c' := SimOr(e, st, o, g, c);
  }

  /** The states on the way through an operator, and what they leave untouched. */
  lemma LhsShape(lhs: Expr, st: State) returns (s1: State, v1: Value)
    ensures (s1, v1) == GenExpr(lhs, Create(st, 5))
    ensures var n := |st.blocks|;
            && |s1.blocks| >= n + 5 && !(n <= s1.at < n + 5) && st.next <= s1.next
            && forall i :: n <= i < n + 5 ==> s1.blocks[i] == []
  {
    var r := GenExpr(lhs, Create(st, 5));
    s1, v1 := r.0, r.1;
    FrameExpr(lhs, Create(st, 5));
  }

  lemma RhsShape(rhs: Expr, s: State, n: nat) returns (s2: State, v2: Value)
    requires n <= s.at && s.at < n + 2 && n + 5 <= |s.blocks|
    ensures (s2, v2) == GenExpr(rhs, s)
    ensures Extends(s.blocks, s2.blocks) && s.next <= s2.next && |s2.blocks| >= n + 5
    ensures s2.at == s.at || s2.at >= n + 5
    ensures forall i :: n <= i < n + 5 && i != s.at ==> s2.blocks[i] == s.blocks[i]
  {
    var r := GenExpr(rhs, s);
    s2, v2 := r.0, r.1;
    FrameExpr(rhs, s);
    FrameExtends(s, s2);
  }

  lemma AndIs(e: Expr, st: State, s1: State, v1: Value, s2: State, v2: Value)
    requires e.LAnd? && (s1, v1) == GenExpr(e.lhs, Create(st, 5))
    requires |s1.blocks| >= |st.blocks| + 5 && |s2.blocks| >= |st.blocks| + 5
    requires var n := |st.blocks|; (s2, v2) == GenExpr(e.rhs, Place(Emit(s1, CondBr(v1, n, n + 1)), n))
    ensures var n := |st.blocks|;
            GenExpr(e, st) == GenPhi(Link(Emit(s2, CondBr(v2, n + 2, n + 3)), n + 1, n + 4), n,
                                     [(n + 1, false), (n + 2, true), (n + 3, false)])
  {
    hide GenPhi, Emit, Place, Link, Create;
  }

  /** Everything after the left operand of `&&`. */
  lemma AndShape(e: Expr, st: State, o: Oracle, g: Graph, s1: State, v1: Value) returns (s2: State, v2: Value, dst: nat)
    requires e.LAnd? && Extends(GenExpr(e, st).0.blocks, g) && (s1, v1) == GenExpr(e.lhs, Create(st, 5))
    ensures var n := |st.blocks|; var inc := [(n + 1, false), (n + 2, true), (n + 3, false)];
      && |s1.blocks| >= n + 5
      && Extends(Emit(s1, CondBr(v1, n, n + 1)).blocks, g)
      && var s1' := Place(Emit(s1, CondBr(v1, n, n + 1)), n);
      && (s2, v2) == GenExpr(e.rhs, s1') && s1'.blocks[n] == [] && st.next <= s1'.next
      && Extends(Emit(s2, CondBr(v2, n + 2, n + 3)).blocks, g)
      && n + 4 < |g| && StartsWith(g, n + 1, Br(n + 4))
      && StartsWith(g, n + 2, Br(n + 4)) && StartsWith(g, n + 3, Br(n + 4))
      && StartsWith(g, n + 4, Phi(dst, inc)) && s1'.next <= dst
      && var (s, v) := GenExpr(e, st);
      && s.at == n + 4 && |s.blocks[n + 4]| == 1 && v == Reg(dst)
  {
    hide Frame, Extends, GenPhi, GenExpr, StartsWith;
    var n := |st.blocks|;
    var inc := [(n + 1, false), (n + 2, true), (n + 3, false)];
    var _, _ := LhsShape(e.lhs, st);
    var s1' := Place(Emit(s1, CondBr(v1, n, n + 1)), n);
    s2, v2 := RhsShape(e.rhs, s1', n);
    var s2' := Emit(s2, CondBr(v2, n + 2, n + 3));
    var s3 := Link(s2', n + 1, n + 4);
    AndIs(e, st, s1, v1, s2, v2);
    dst := s3.next;
    BackPhi(s3, n, inc, g);
    BackLink(s2', n + 1, n + 4, g);
    BackEmit(s2, CondBr(v2, n + 2, n + 3), g);
    ExtendsTrans(s1'.blocks, s2.blocks, g);
  }

  lemma {:induction false} SimAnd(e: Expr, st: State, o: Oracle, g: Graph, c: Config) returns (n: nat, c': Config)
    requires e.LAnd? && AtEnd(c, st) && Extends(GenExpr(e, st).0.blocks, g)
    ensures c' == Steps(o, g, c, n)
    ensures AtEnd(c', GenExpr(e, st).0) && c'.t == Eval(e, o, c.t).1
    ensures ValueOf(GenExpr(e, st).1, c'.env) == Some(Eval(e, o, c.t).0)
    ensures Keeps(c.env, c'.env, st.next)
    decreases e, 0
  {
    hide Steps, Extends, Step, GenExpr, Incoming;
    var b := |st.blocks|;
    Inputs((b + 1, false), (b + 2, true), (b + 3, false));
    var (s1, v1) := GenExpr(e.lhs, Create(st, 5));
    var s2, v2, dst := AndShape(e, st, o, g, s1, v1);
    var s1' := Place(Emit(s1, CondBr(v1, b, b + 1)), b);
    BackEmit(s1, CondBr(v1, b, b + 1), g);
    var n1, c1 := SimExpr(e.lhs, Create(st, 5), o, g, c);
    Branch(s1, v1, b, b + 1, o, g, c1);
    var d1 := Steps(o, g, c1, 1);
    Then(o, g, c, n1, c1, 1, d1);
    if Eval(e.lhs, o, c.t).0 {
      n, c' := SimRhs(e.rhs, s1', s2, v2, b, dst, [(b + 1, false), (b + 2, true), (b + 3, false)], o, g, d1);
      Then(o, g, c, n1 + 1, d1, n, c');
      n := n1 + 1 + n;
    } else {
      ThroughPhi(o, g, d1, b, dst, [(b + 1, false), (b + 2, true), (b + 3, false)]);
      n, c' := n1 + 1 + 2, Steps(o, g, d1, 2);
      Then(o, g, c, n1 + 1, d1, 2, c');
    }
  }

  /** From the block of the right operand, through `on_rhs_true` or `on_rhs_false`, past the phi. */
  lemma {:induction false} SimRhs(rhs: Expr, s1: State, s2: State, v2: Value, b: nat, dst: nat,
                                  inc: seq<(nat, bool)>, o: Oracle, g: Graph, c: Config) returns (n: nat, c': Config)
    requires AtEnd(c, s1) && (s2, v2) == GenExpr(rhs, s1) && b + 4 < |g|
    requires Extends(Emit(s2, CondBr(v2, b + 2, b + 3)).blocks, g)
    requires StartsWith(g, b + 2, Br(b + 4)) && StartsWith(g, b + 3, Br(b + 4)) && StartsWith(g, b + 4, Phi(dst, inc))
    requires Incoming(inc, b + 2) == Some(true) && Incoming(inc, b + 3) == Some(false)
    ensures c' == Steps(o, g, c, n) && c'.Run? && c'.b == b + 4 && c'.k == 1
    ensures c'.t == Eval(rhs, o, c.t).1 && dst in c'.env && c'.env[dst] == Eval(rhs, o, c.t).0
    ensures s1.next <= dst ==> Keeps(c.env, c'.env, s1.next)
    decreases rhs, 2
  {
    hide Steps, Extends, Step, GenExpr, Incoming, Eval;
    BackEmit(s2, CondBr(v2, b + 2, b + 3), g);
    var n2, c2 := SimExpr(rhs, s1, o, g, c);
    Branch(s2, v2, b + 2, b + 3, o, g, c2);
    var d2 := Steps(o, g, c2, 1);
    Then(o, g, c, n2, c2, 1, d2);
    ThroughPhi(o, g, d2, b, dst, inc);
    n, c' := n2 + 1 + 2, Steps(o, g, d2, 2);
    Then(o, g, c, n2 + 1, d2, 2, c');
  }

  lemma OrIs(e: Expr, st: State, s1: State, v1: Value, s2: State, v2: Value)
    requires e.LOr? && (s1, v1) == GenExpr(e.lhs, Create(st, 5))
    requires |s1.blocks| >= |st.blocks| + 5 && |s2.blocks| >= |st.blocks| + 5
    requires var n := |st.blocks|;
             (s2, v2) == GenExpr(e.rhs, Place(Link(Emit(s1, CondBr(v1, n, n + 1)), n, n + 4), n + 1))
    ensures var n := |st.blocks|;
            GenExpr(e, st) == GenPhi(Emit(s2, CondBr(v2, n + 2, n + 3)), n,
                                     [(n, true), (n + 2, true), (n + 3, false)])
  {
    hide GenPhi, Emit, Place, Link, Create;
  }

  /** Everything after the left operand of `||`. */
  lemma OrShape(e: Expr, st: State, o: Oracle, g: Graph, s1: State, v1: Value) returns (s2: State, v2: Value, dst: nat)
    requires e.LOr? && Extends(GenExpr(e, st).0.blocks, g) && (s1, v1) == GenExpr(e.lhs, Create(st, 5))
    ensures var n := |st.blocks|; var inc := [(n, true), (n + 2, true), (n + 3, false)];
      && |s1.blocks| >= n + 5
      && Extends(Emit(s1, CondBr(v1, n, n + 1)).blocks, g)
      && var s1' := Place(Link(Emit(s1, CondBr(v1, n, n + 1)), n, n + 4), n + 1);
      && (s2, v2) == GenExpr(e.rhs, s1') && s1'.blocks[n + 1] == [] && st.next <= s1'.next
      && Extends(Emit(s2, CondBr(v2, n + 2, n + 3)).blocks, g)
      && n + 4 < |g| && StartsWith(g, n, Br(n + 4))
      && StartsWith(g, n + 2, Br(n + 4)) && StartsWith(g, n + 3, Br(n + 4))
      && StartsWith(g, n + 4, Phi(dst, inc)) && s1'.next <= dst
      && var (s, v) := GenExpr(e, st);
      && s.at == n + 4 && |s.blocks[n + 4]| == 1 && v == Reg(dst)
  {
    hide Frame, Extends, GenPhi, GenExpr, StartsWith;
    var n := |st.blocks|;
    var inc := [(n, true), (n + 2, true), (n + 3, false)];
    var _, _ := LhsShape(e.lhs, st);
    var s1e := Emit(s1, CondBr(v1, n, n + 1));
    var s1' := Place(Link(s1e, n, n + 4), n + 1);
    s2, v2 := RhsShape(e.rhs, s1', n);
    var s3 := Emit(s2, CondBr(v2, n + 2, n + 3));
    OrIs(e, st, s1, v1, s2, v2);
    dst := s3.next;
    BackPhi(s3, n, inc, g);
    BackEmit(s2, CondBr(v2, n + 2, n + 3), g);
    ExtendsTrans(s1'.blocks, s2.blocks, g);
    BackLink(s1e, n, n + 4, g);
  }

  lemma {:induction false} SimOr(e: Expr, st: State, o: Oracle, g: Graph, c: Config) returns (n: nat, c': Config)
    requires e.LOr? && AtEnd(c, st) && Extends(GenExpr(e, st).0.blocks, g)
    ensures c' == Steps(o, g, c, n)
    ensures AtEnd(c', GenExpr(e, st).0) && c'.t == Eval(e, o, c.t).1
    ensures ValueOf(GenExpr(e, st).1, c'.env) == Some(Eval(e, o, c.t).0)
    ensures Keeps(c.env, c'.env, st.next)
    decreases e, 0
  {
    hide Steps, Extends, Step, GenExpr, Incoming;
    var b := |st.blocks|;
    Inputs((b, true), (b + 2, true), (b + 3, false));
    var (s1, v1) := GenExpr(e.lhs, Create(st, 5));
    var s2, v2, dst := OrShape(e, st, o, g, s1, v1);
    var s1' := Place(Link(Emit(s1, CondBr(v1, b, b + 1)), b, b + 4), b + 1);
    BackEmit(s1, CondBr(v1, b, b + 1), g);
    var n1, c1 := SimExpr(e.lhs, Create(st, 5), o, g, c);
    Branch(s1, v1, b, b + 1, o, g, c1);
    var d1 := Steps(o, g, c1, 1);
    Then(o, g, c, n1, c1, 1, d1);
    if Eval(e.lhs, o, c.t).0 {
      ThroughPhi(o, g, d1, b, dst, [(b, true), (b + 2, true), (b + 3, false)]);
      n, c' := n1 + 1 + 2, Steps(o, g, d1, 2);
      Then(o, g, c, n1 + 1, d1, 2, c');
    } else {
      n, c' := SimRhs(e.rhs, s1', s2, v2, b, dst, [(b, true), (b + 2, true), (b + 3, false)], o, g, d1);
      Then(o, g, c, n1 + 1, d1, n, c');
      n := n1 + 1 + n;
    }
  }

  // ----- statements -----

  lemma BackStmt(s: Stmt, ctx: Ctx, st: State, g: Graph)
    requires Lowerable(s, ctx) && Extends(GenStmt(s, ctx, st).blocks, g)
    ensures Extends(st.blocks, g)
  {
    FrameStmt(s, ctx, st);
    FrameExtends(st, GenStmt(s, ctx, st));
    ExtendsTrans(st.blocks, GenStmt(s, ctx, st).blocks, g);
  }

  lemma NextGrows(s: Stmt, ctx: Ctx, st: State)
    requires Lowerable(s, ctx)
    ensures st.next <= GenStmt(s, ctx, st).next
  {
    FrameStmt(s, ctx, st);
  }

  lemma BackBlock(ss: seq<Stmt>, ctx: Ctx, st: State, g: Graph)
    requires AllLowerable(ss, ctx) && Extends(GenBlock(ss, ctx, st).blocks, g)
    ensures Extends(st.blocks, g)
  {
    FrameBlock(ss, ctx, st);
    FrameExtends(st, GenBlock(ss, ctx, st));
    ExtendsTrans(st.blocks, GenBlock(ss, ctx, st).blocks, g);
  }

  lemma BlockNextGrows(ss: seq<Stmt>, ctx: Ctx, st: State)
    requires AllLowerable(ss, ctx)
    ensures st.next <= GenBlock(ss, ctx, st).next
  {
    FrameBlock(ss, ctx, st);
  }

  lemma BackDefers(ds: seq<Stmt>, st: State, g: Graph)
    requires AllContained(ds) && Extends(GenDefers(ds, st).blocks, g)
    ensures Extends(st.blocks, g)
  {
    FrameDefers(ds, st);
    FrameExtends(st, GenDefers(ds, st));
    ExtendsTrans(st.blocks, GenDefers(ds, st).blocks, g);
  }

  lemma {:induction false} SimStmt(s: Stmt, ctx: Ctx, st: State, o: Oracle, g: Graph, c: Config, fuel: nat)
    returns (w: Ran)
    requires Lowerable(s, ctx) && AtEnd(c, st) && FellIn(g, c) && Extends(GenStmt(s, ctx, st).blocks, g)
    ensures Simulates(Exec(s, o, c.t, fuel), ctx, st, GenStmt(s, ctx, st), o, g, c, fuel, w)
    decreases fuel, s, 5
  {
    match s
    case Act(a) =>
      w := Ran(1, Step(o, g, c), st, None);
      Fetch(st, Do(a), o, g, c);
    case ExprStmt(e) =>
      var n, c' := SimExpr(e, st, o, g, c);
      w := Ran(n, c', st, None);
    case Let(x, e) =>
      var n, c' := SimLet(x, e, st, o, g, c);
      w := Ran(n, c', st, None);
    case Block(ss) => w := SimBlock(ss, ctx, st, o, g, c, fuel);
    case Return(ret) => w := SimReturn(ret, ctx, st, o, g, c, fuel);
    case Defer(_) => w := Ran(0, c, st, None);
    case Break =>
      w := Ran(1, Step(o, g, c), st, None);
      Jump(st, ctx.loop.value.exit, o, g, c);
    case Continue =>
      w := Ran(1, Step(o, g, c), st, None);
      Jump(st, ctx.loop.value.post, o, g, c);
    case If(_, _, _, _) => w := SimFromInit(s, s.init, ctx, st, o, g, c, fuel);
    case For(_, _, _, _, _) => w := SimFromInit(s, s.init, ctx, st, o, g, c, fuel);
  }

  /** An `if` or `for` statement is its initialiser followed by the rest. */
  lemma {:induction false} SimFromInit(s: Stmt, init: Option<Stmt>, ctx: Ctx, st: State, o: Oracle, g: Graph,
                                       c: Config, fuel: nat)
    returns (w: Ran)
    requires (s.If? || s.For?) && init == s.init
    requires Lowerable(s, ctx) && AtEnd(c, st) && FellIn(g, c) && Extends(GenStmt(s, ctx, st).blocks, g)
    ensures Simulates(Exec(s, o, c.t, fuel), ctx, st, GenStmt(s, ctx, st), o, g, c, fuel, w)
    decreases fuel, s, 4
  {
    hide Extends, Steps, Step, GenIf, GenFor, ExecIf, ExecLoop, Frame, Keeps, Simulates;
    var s0 := if init.Some? then GenStmt(init.value, ctx, st) else st;
    if s.If? {
      BackIf(s, ctx, s0, g);
    } else {
      BackFor(s, ctx, s0, g);
    }
    var n1, c1 := SimInit(init, ctx, st, o, g, c, fuel);
    if s.If? {
      w := SimIf(s, ctx, s0, o, g, c1, fuel);
    } else {
      w := SimFor(s, ctx, s0, o, g, c1, fuel);
    }
    w := Chain(Exec(s, o, c.t, fuel), ctx, st, s0, GenStmt(s, ctx, st), o, g, c, n1, c1, fuel, w);
  }

  lemma SimLet(x: nat, e: Expr, st: State, o: Oracle, g: Graph, c: Config) returns (n: nat, c': Config)
    requires AtEnd(c, st) && Extends(Emit(GenExpr(e, st).0, Store(x, GenExpr(e, st).1)).blocks, g)
    ensures Steps(o, g, c, n) == c' && AtEnd(c', Emit(GenExpr(e, st).0, Store(x, GenExpr(e, st).1)))
    ensures c'.t == Eval(e, o, c.t).1 + [Wrote(x, Eval(e, o, c.t).0)] && Keeps(c.env, c'.env, st.next)
  {
    hide Steps, Extends, GenExpr, Eval;
    var (s1, v) := GenExpr(e, st);
    BackEmit(s1, Store(x, v), g);
    var n1, c1 := SimExpr(e, st, o, g, c);
    Fetch(s1, Store(x, v), o, g, c1);
    n, c' := n1 + 1, Step(o, g, c1);
    One(o, g, c1);
    Then(o, g, c, n1, c1, 1, c');
  }

  lemma SimInit(init: Option<Stmt>, ctx: Ctx, st: State, o: Oracle, g: Graph, c: Config, fuel: nat)
    returns (n: nat, c': Config)
    requires init.Some? ==> init.value.Let? && Lowerable(init.value, ctx)
    requires AtEnd(c, st) && FellIn(g, c)
    requires Extends((if init.Some? then GenStmt(init.value, ctx, st) else st).blocks, g)
    ensures Steps(o, g, c, n) == c' && AtEnd(c', if init.Some? then GenStmt(init.value, ctx, st) else st)
    ensures FellIn(g, c') && Keeps(c.env, c'.env, st.next)
    ensures c'.t == if init.Some? then Exec(init.value, o, c.t, fuel).value.t else c.t
    ensures st.next <= (if init.Some? then GenStmt(init.value, ctx, st) else st).next
  {
    if init.Some? {
      n, c' := SimLet(init.value.x, init.value.e, st, o, g, c);
      FrameStmt(init.value, ctx, st);
    } else {
      n, c' := 0, c;
    }
    FellInKept(o, g, c, n);
  }

  /** The value is computed before any deferred statement runs. */
  lemma SimReturn(ret: Option<Expr>, ctx: Ctx, st: State, o: Oracle, g: Graph, c: Config, fuel: nat) returns (w: Ran)
    requires Lowerable(Return(ret), ctx) && AtEnd(c, st) && FellIn(g, c)
    requires Extends(GenStmt(Return(ret), ctx, st).blocks, g)
    ensures Simulates(Exec(Return(ret), o, c.t, fuel), ctx, st, GenStmt(Return(ret), ctx, st), o, g, c, fuel, w)
  {
    hide Extends, Steps, Step, Frame;
    if ret.None? {
      Zero(o, g, c);
      w := Ran(0, c, st, None);
    } else {
      var (s1, v) := GenExpr(ret.value, st);
      BackEmit(GenDefers(ctx.defers, s1), Ret(Some(v)), g);
      BackDefers(ctx.defers, s1, g);
      var n, c' := SimExpr(ret.value, st, o, g, c);
      ValueDefined(ret.value, st);
      w := Ran(n, c', s1, Some(v));
    }
  }

  lemma {:induction false} SimBlock(ss: seq<Stmt>, ctx: Ctx, st: State, o: Oracle, g: Graph, c: Config, fuel: nat)
    returns (w: Ran)
    requires AllLowerable(ss, ctx) && AtEnd(c, st) && FellIn(g, c) && Extends(GenBlock(ss, ctx, st).blocks, g)
    ensures Simulates(ExecBlock(ss, o, c.t, fuel), ctx, st, GenBlock(ss, ctx, st), o, g, c, fuel, w)
    decreases fuel, ss, 2
  {
    if ss == [] {
      w := Ran(0, c, st, None);
    } else if ss[0].Defer? {
      w := SimDeferred(ss, ctx, st, o, g, c, fuel);
    } else {
      hide Extends, Steps, Step, Frame, GenStmt, Exec, Simulates;
      assert Shaped(ss[0]) && JumpsOk(ss[0], ctx.loop.Some?);
      var s1 := GenStmt(ss[0], ctx, st);
      assert GenBlock(ss, ctx, st) == GenBlock(ss[1..], ctx, s1);
      BackBlock(ss[1..], ctx, s1, g);
      w := SimStmt(ss[0], ctx, st, o, g, c, fuel);
      var r := Exec(ss[0], o, c.t, fuel);
      if r.Some? && r.value.out.Normal? {
        Arrived(r, ctx, st, s1, o, g, c, fuel, w);
        NextGrows(ss[0], ctx, st);
        var w2 := SimBlock(ss[1..], ctx, s1, o, g, w.c, fuel);
        w := Chain(ExecBlock(ss, o, c.t, fuel), ctx, st, s1, GenBlock(ss, ctx, st), o, g, c, w.n, w.c, fuel, w2);
      } else {
        Redirect(r, ctx, st, s1, GenBlock(ss, ctx, st), o, g, c, fuel, w);
      }
    }
  }

  /** A block that starts with `defer d`. */
  lemma {:induction false} SimDeferred(ss: seq<Stmt>, ctx: Ctx, st: State, o: Oracle, g: Graph, c: Config, fuel: nat)
    returns (w: Ran)
    requires ss != [] && ss[0].Defer?
    requires AllLowerable(ss, ctx) && AtEnd(c, st) && FellIn(g, c) && Extends(GenBlock(ss, ctx, st).blocks, g)
    ensures Simulates(ExecBlock(ss, o, c.t, fuel), ctx, st, GenBlock(ss, ctx, st), o, g, c, fuel, w)
    decreases fuel, ss, 1
  {
    hide Extends, Steps, Step, Frame, GenStmt, Exec, Simulates, Returning;
    match ss[0]
    case Defer(d) =>
      var more := ctx.(defers := ctx.defers + [d]);
      assert Shaped(ss[0]);
      assert AllLowerable(ss[1..], more) && Contained(d) && d < ss[0];
      var s1 := GenBlock(ss[1..], more, st);
      var done := GenBlock(ss, ctx, st);
      assert done == GenStmt(d, TOP, s1);
      BackStmt(d, TOP, s1, g);
      w := SimBlock(ss[1..], more, st, o, g, c, fuel);
      var r := ExecBlock(ss[1..], o, c.t, fuel);
      if r.Some? && r.value.out.Normal? {
        Arrived(r, more, st, s1, o, g, c, fuel, w);
        BlockNextGrows(ss[1..], more, st);
        ContainedIsNormal(d, o, w.c.t, fuel);
        var w2 := SimStmt(d, TOP, s1, o, g, w.c, fuel);
        Recontext(Exec(d, o, w.c.t, fuel), TOP, ctx, s1, done, o, g, w.c, fuel, w2);
        w := Chain(ExecBlock(ss, o, c.t, fuel), ctx, st, s1, done, o, g, c, w.n, w.c, fuel, w2);
      } else if r.Some? && r.value.out.Returned? {
        OuterDefers(r, d, ctx, st, s1, o, g, c, fuel, w);
        ContainedIsNormal(d, o, w.c.t, fuel);
        var w2 := SimStmt(d, TOP, w.s, o, g, w.c, fuel);
        w := Unwind(r, ExecBlock(ss, o, c.t, fuel), d, ctx, st, done, o, g, c, fuel, w, w2);
      } else {
        SkipDefer(r, more, ctx, st, s1, done, o, g, c, fuel, w);
      }
  }

  /** `break` and `continue` pass by a deferred statement. */
  lemma SkipDefer(r: Option<Result>, ctx: Ctx, ctx': Ctx, st: State, st': State, done: State,
                  o: Oracle, g: Graph, c: Config, fuel: nat, w: Ran)
    requires c.Run? && ctx.loop == ctx'.loop && (r.Some? ==> r.value.out.Broke? || r.value.out.Continued?)
    requires Simulates(r, ctx, st, st', o, g, c, fuel, w)
    ensures Simulates(r, ctx', st, done, o, g, c, fuel, w)
  {
  }

  /** A run returning through `defer d` is about to execute `d`. */
  lemma OuterDefers(r: Option<Result>, d: Stmt, ctx: Ctx, st: State, st': State,
                    o: Oracle, g: Graph, c: Config, fuel: nat, w: Ran)
    requires c.Run? && FellIn(g, c) && Contained(d) && AllContained(ctx.defers)
    requires r.Some? && r.value.out.Returned?
    requires Simulates(r, ctx.(defers := ctx.defers + [d]), st, st', o, g, c, fuel, w)
    ensures AtEnd(w.c, w.s) && FellIn(g, w.c) && w.c.t == r.value.t && Steps(o, g, c, w.n) == w.c
    ensures Extends(GenStmt(d, TOP, w.s).blocks, g)
    ensures Extends(Emit(GenDefers(ctx.defers, GenStmt(d, TOP, w.s)), Ret(w.v)).blocks, g)
    ensures var b := r.value.out.v;
            w.v.Some? == b.Some? &&
            (w.v.Some? ==> ValueOf(w.v.value, w.c.env) == b && (w.v.value.Reg? ==> w.v.value.r < w.s.next))
  {
    hide Extends, Steps, GenStmt;
    FellInKept(o, g, c, w.n);
    var more := ctx.defers + [d];
    assert more[..|more| - 1] == ctx.defers;
    var s1 := GenStmt(d, TOP, w.s);
    assert GenDefers(more, w.s) == GenDefers(ctx.defers, s1);
    BackEmit(GenDefers(ctx.defers, s1), Ret(w.v), g);
    BackDefers(ctx.defers, s1, g);
  }

  /** After `d` the run is returning through the defers outside of it. */
  lemma Unwind(r: Option<Result>, r': Option<Result>, d: Stmt, ctx: Ctx, st: State, st': State,
               o: Oracle, g: Graph, c: Config, fuel: nat, w: Ran, w2: Ran) returns (w': Ran)
    requires c.Run? && w.c.Run? && Contained(d) && AllContained(ctx.defers) && r.Some? && r.value.out.Returned?
    requires Steps(o, g, c, w.n) == w.c && w.c.t == r.value.t
    requires Extends(Emit(GenDefers(ctx.defers, GenStmt(d, TOP, w.s)), Ret(w.v)).blocks, g)
    requires var b := r.value.out.v;
             w.v.Some? == b.Some? &&
             (w.v.Some? ==> ValueOf(w.v.value, w.c.env) == b && (w.v.value.Reg? ==> w.v.value.r < w.s.next))
    requires var e := Exec(d, o, w.c.t, fuel);
             && (e.Some? ==> e.value.out.Normal?)
             && r' == (if e.None? then None else Some(Result(r.value.out, e.value.t)))
             && Simulates(e, TOP, w.s, GenStmt(d, TOP, w.s), o, g, w.c, fuel, w2)
    ensures Simulates(r', ctx, st, st', o, g, c, fuel, w')
  {
    hide Extends, Steps, GenDefers, GenStmt, Exec;
    var e := Exec(d, o, w.c.t, fuel);
    NextGrows(d, TOP, w.s);
    w' := Ran(w.n + w2.n, w2.c, GenStmt(d, TOP, w.s), w.v);
    if e.None? {
      StepsAdd(o, g, c, w.n, fuel);
      RunningEarlier(o, g, c, fuel, w.n + fuel);
    } else {
      Then(o, g, c, w.n, w.c, w2.n, w2.c);
    }
  }

  // ----- if -----

  /** Reaching the end of an arm of a conditional leads on to the join block. */
  lemma SealArm(r: Option<Result>, ctx: Ctx, st: State, arm: State, done: State, o: Oracle, g: Graph,
                c: Config, fuel: nat, w: Ran) returns (w': Ran)
    requires c.Run? && FellIn(g, c) && Simulates(r, ctx, st, arm, o, g, c, fuel, w)
    requires Extends(Seal(arm, done.at).blocks, g) && done.blocks[done.at] == []
    ensures Simulates(r, ctx, st, done, o, g, c, fuel, w')
  {
    w' := w;
    if r.Some? && r.value.out.Normal? {
      FellInKept(o, g, c, w.n);
      SealStep(arm, done.at, o, g, w.c);
      w' := Ran(w.n + 1, Enter(done.at, w.c), w.s, w.v);
      Then(o, g, c, w.n, w.c, 1, w'.c);
    }
  }

  /** The states on the way through a conditional. */
  datatype IfParts = IfParts(s1: State, v: Value, thn: State, thnEnd: State, els: State, elsEnd: State, done: State)

  ghost function PartsOfIf(s: Stmt, ctx: Ctx, st: State): (p: IfParts)
    requires s.If? && Lowerable(s, ctx)
    ensures p.done == GenIf(s, ctx, st)
  {
    var (s1, v) := GenExpr(s.cond, st);
    var n := |s1.blocks|;
    var thn := IfThen(s1, v, s.elif.Some?);
    var thnEnd := GenBlock(s.thn, ctx, thn);
    var s3 := Seal(thnEnd, n + 1);
    if s.elif.Some? then
      var els := Place(s3, n + 2);
      var elsEnd := GenStmt(s.elif.value, ctx, els);
      IfParts(s1, v, thn, thnEnd, els, elsEnd, Place(Seal(elsEnd, n + 1), n + 1))
    else
      IfParts(s1, v, thn, thnEnd, s3, s3, Place(s3, n + 1))
  }

  lemma IfExtends(s: Stmt, ctx: Ctx, st: State, g: Graph)
    requires s.If? && Lowerable(s, ctx) && Extends(GenIf(s, ctx, st).blocks, g)
    ensures var p := PartsOfIf(s, ctx, st); var n := |p.s1.blocks|;
      && Extends(p.s1.blocks, g) && Extends(p.thn.blocks, g) && Extends(p.thnEnd.blocks, g)
      && Extends(Seal(p.thnEnd, n + 1).blocks, g)
      && (if s.elif.Some? then
            && Extends(p.els.blocks, g) && Extends(p.elsEnd.blocks, g) && Extends(Seal(p.elsEnd, n + 1).blocks, g)
            && Extends(Emit(Create(p.s1, 3), CondBr(p.v, n, n + 2)).blocks, g)
          else Extends(Emit(Create(p.s1, 2), CondBr(p.v, n, n + 1)).blocks, g))
  {
    hide Extends, Seal, Emit, Create, GenExpr, GenBlock, GenStmt;
    var p := PartsOfIf(s, ctx, st);
    var n := |p.s1.blocks|;
    if s.elif.Some? {
      BackSeal(p.elsEnd, n + 1, g);
      BackStmt(s.elif.value, ctx, p.els, g);
    }
    BackSeal(p.thnEnd, n + 1, g);
    BackBlock(s.thn, ctx, p.thn, g);
    if s.elif.Some? {
      BackEmit(Create(p.s1, 3), CondBr(p.v, n, n + 2), g);
      BackCreate(p.s1, 3, g);
    } else {
      BackEmit(Create(p.s1, 2), CondBr(p.v, n, n + 1), g);
      BackCreate(p.s1, 2, g);
    }
  }

  lemma BackCreate(s: State, n: nat, g: Graph)
    requires Extends(Create(s, n).blocks, g)
    ensures Extends(s.blocks, g)
  {
    assert Extends(s.blocks, Create(s, n).blocks);
    ExtendsTrans(s.blocks, Create(s, n).blocks, g);
  }

  /** Blocks are still empty when code starts to go into them. */
  lemma IfBlank(s: Stmt, ctx: Ctx, st: State)
    requires s.If? && Lowerable(s, ctx)
    ensures var p := PartsOfIf(s, ctx, st); var n := |p.s1.blocks|;
      && st.next <= p.s1.next && p.s1.next <= p.thn.next && p.thn.at == n && p.thn.blocks[n] == []
      && p.done.at == n + 1 && p.done.blocks[n + 1] == []
      && (s.elif.Some? ==> p.els.at == n + 2 && p.els.blocks[n + 2] == [] && p.s1.next <= p.els.next)
  {
    hide GenExpr, GenBlock, GenStmt;
    var p := PartsOfIf(s, ctx, st);
    var n := |p.s1.blocks|;
    FrameExpr(s.cond, st);
    FrameBlock(s.thn, ctx, p.thn);
    Blanks(p.thn, p.thnEnd, n, n + 1);
    if s.elif.Some? {
      Blanks(p.thn, p.thnEnd, n, n + 2);
      FrameStmt(s.elif.value, ctx, p.els);
      Blanks(p.els, p.elsEnd, n + 2, n + 1);
    }
  }

  /** A block other than the current one stays empty. */
  lemma Blanks(a: State, b: State, at: nat, i: nat)
    requires Frame(a, b) && a.at == at && i != at && i < |a.blocks| && a.blocks[i] == []
    ensures i < |b.blocks| && b.blocks[i] == [] && b.at != i && a.next <= b.next
    ensures forall t :: Seal(b, t).blocks[i] == [] && Seal(b, t).next == b.next
    ensures forall ins :: Emit(b, ins).blocks[i] == []
  {
  }

  lemma BackSeal(s: State, target: nat, g: Graph)
    requires Extends(Seal(s, target).blocks, g)
    ensures Extends(s.blocks, g)
  {
    if !Terminated(s.blocks[s.at]) {
      BackEmit(s, Br(target), g);
    }
  }

  lemma BackIf(s: Stmt, ctx: Ctx, st: State, g: Graph)
    requires s.If? && Lowerable(s, ctx) && Extends(GenIf(s, ctx, st).blocks, g)
    ensures Extends(st.blocks, g)
  {
    FrameIf(s, ctx, st);
    FrameExtends(st, GenIf(s, ctx, st));
    ExtendsTrans(st.blocks, GenIf(s, ctx, st).blocks, g);
  }

  lemma BackFor(s: Stmt, ctx: Ctx, st: State, g: Graph)
    requires s.For? && Lowerable(s, ctx) && Extends(GenFor(s, ctx, st).blocks, g)
    ensures Extends(st.blocks, g)
  {
    FrameFor(s, ctx, st);
    FrameExtends(st, GenFor(s, ctx, st));
    ExtendsTrans(st.blocks, GenFor(s, ctx, st).blocks, g);
  }

  lemma {:induction false} SimIf(s: Stmt, ctx: Ctx, st: State, o: Oracle, g: Graph, c: Config, fuel: nat)
    returns (w: Ran)
    requires s.If? && Lowerable(s, ctx) && AtEnd(c, st) && FellIn(g, c) && Extends(GenIf(s, ctx, st).blocks, g)
    ensures Simulates(ExecIf(s, o, c.t, fuel), ctx, st, GenIf(s, ctx, st), o, g, c, fuel, w)
    decreases fuel, s, 3
  {
    hide Extends, Steps, Step, Frame, GenIf, GenExpr, GenBlock, GenStmt, Seal, PartsOfIf, Simulates;
    var p := PartsOfIf(s, ctx, st);
    var d, n1 := SimCond(s, ctx, st, p, o, g, c);
    FellInKept(o, g, c, n1);
    var r := ExecIf(s, o, c.t, fuel);
    if Eval(s.cond, o, c.t).0 {
      w := SimBlock(s.thn, ctx, p.thn, o, g, d, fuel);
      w := SealArm(r, ctx, p.thn, p.thnEnd, p.done, o, g, d, fuel, w);
      w := Chain(r, ctx, st, p.thn, p.done, o, g, c, n1, d, fuel, w);
    } else if s.elif.Some? {
      w := SimStmt(s.elif.value, ctx, p.els, o, g, d, fuel);
      w := SealArm(r, ctx, p.els, p.elsEnd, p.done, o, g, d, fuel, w);
      w := Chain(r, ctx, st, p.els, p.done, o, g, c, n1, d, fuel, w);
    } else {
      w := Ran(n1, d, st, None);
      SimulatesNormal(r, ctx, st, p.done, o, g, c, fuel, w);
    }
  }

  lemma SimulatesNormal(r: Option<Result>, ctx: Ctx, st: State, st': State,
                        o: Oracle, g: Graph, c: Config, fuel: nat, w: Ran)
    requires c.Run? && r.Some? && r.value.out.Normal?
    requires Steps(o, g, c, w.n) == w.c && AtEnd(w.c, st') && w.c.t == r.value.t && Keeps(c.env, w.c.env, st.next)
    ensures Simulates(r, ctx, st, st', o, g, c, fuel, w)
  {
  }

  /** The condition and the conditional branch, up to the chosen arm. */
  lemma SimCond(s: Stmt, ctx: Ctx, st: State, p: IfParts, o: Oracle, g: Graph, c: Config) returns (d: Config, n1: nat)
    requires s.If? && Lowerable(s, ctx) && AtEnd(c, st) && Extends(GenIf(s, ctx, st).blocks, g)
    requires p == PartsOfIf(s, ctx, st)
    ensures Steps(o, g, c, n1) == d && d.Run? && d.t == Eval(s.cond, o, c.t).1 && Keeps(c.env, d.env, st.next)
    ensures AtEnd(d, if Eval(s.cond, o, c.t).0 then p.thn else if s.elif.Some? then p.els else p.done)
    ensures st.next <= p.thn.next && (s.elif.Some? ==> st.next <= p.els.next)
    ensures Extends(p.thnEnd.blocks, g) && Extends(Seal(p.thnEnd, p.done.at).blocks, g)
    ensures s.elif.Some? ==> Extends(p.elsEnd.blocks, g) && Extends(Seal(p.elsEnd, p.done.at).blocks, g)
    ensures p.done.blocks[p.done.at] == [] && p.done == GenIf(s, ctx, st) && p.thnEnd == GenBlock(s.thn, ctx, p.thn)
    ensures s.elif.Some? ==> p.elsEnd == GenStmt(s.elif.value, ctx, p.els)
  {
    hide Extends, Steps, Step, Frame, GenIf, GenBlock, GenStmt, Seal, GenExpr, Eval;
    IfExtends(s, ctx, st, g);
    IfBlank(s, ctx, st);
    var b := |p.s1.blocks|;
    var n0, c0 := SimExpr(s.cond, st, o, g, c);
    if s.elif.Some? {
      Branch(Create(p.s1, 3), p.v, b, b + 2, o, g, c0);
    } else {
      Branch(Create(p.s1, 2), p.v, b, b + 1, o, g, c0);
    }
    n1, d := n0 + 1, Steps(o, g, c0, 1);
    Then(o, g, c, n0, c0, 1, d);
  }

  // ----- for -----

  /** The states on the way through a loop whose blocks start at `n`. */
  datatype LoopParts = LoopParts(n: nat, head: State, test: State, body: State, bodyEnd: State,
                                 post: State, postEnd: State, els: State, elsEnd: State, done: State)

  ghost function PartsOfLoop(s: Stmt, ctx: Ctx, st: State): (p: LoopParts)
    requires s.For? && Lowerable(s, ctx)
    ensures p.n == |st.blocks|
  {
    var n := |st.blocks|;
    var inner := Inner(ctx, n);
    var head := LoopHead(st);
    var test := GenTest(s.test, n, head);
    var body := Place(test, n + 1);
    var bodyEnd := GenBlock(s.body, inner, body);
    var post := Place(Emit(bodyEnd, Br(n + 2)), n + 2);
    var postEnd := if s.post.Some? then GenStmt(s.post.value, inner, post) else post;
    var els := Place(Emit(postEnd, Br(n)), n + 3);
    var elsEnd := if s.els.Some? then GenStmt(s.els.value, inner, els) else els;
    LoopParts(n, head, test, body, bodyEnd, post, postEnd, els, elsEnd, Place(Emit(elsEnd, Br(n + 4)), n + 4))
  }

  lemma PartsAreOfLoop(s: Stmt, ctx: Ctx, st: State)
    requires s.For? && Lowerable(s, ctx)
    ensures PartsOfLoop(s, ctx, st).done == GenFor(s, ctx, st)
  {
    hide GenBlock, GenStmt, GenTest, LoopHead, Emit, Place;
  }

  lemma LoopExtends(s: Stmt, ctx: Ctx, st: State, p: LoopParts, g: Graph)
    requires s.For? && Lowerable(s, ctx) && p == PartsOfLoop(s, ctx, st) && Extends(p.done.blocks, g)
    ensures Extends(Emit(p.elsEnd, Br(p.n + 4)).blocks, g) && Extends(p.elsEnd.blocks, g)
    ensures Extends(Emit(p.postEnd, Br(p.n)).blocks, g) && Extends(p.postEnd.blocks, g)
    ensures Extends(Emit(p.bodyEnd, Br(p.n + 2)).blocks, g) && Extends(p.bodyEnd.blocks, g)
    ensures Extends(p.test.blocks, g)
    ensures Extends(Emit(Create(st, 5), Br(p.n)).blocks, g)
  {
    hide Extends, Emit, GenBlock, GenStmt, GenTest, Create;
    var inner := Inner(ctx, p.n);
    BackEmit(p.elsEnd, Br(p.n + 4), g);
    if s.els.Some? {
      BackStmt(s.els.value, inner, p.els, g);
    }
    BackEmit(p.postEnd, Br(p.n), g);
    if s.post.Some? {
      BackStmt(s.post.value, inner, p.post, g);
    }
    BackEmit(p.bodyEnd, Br(p.n + 2), g);
    BackBlock(s.body, inner, p.body, g);
    BackTest(s.test, p.n, p.head, g);
  }

  lemma BackTest(test: Option<Expr>, n: nat, st: State, g: Graph)
    requires Extends(GenTest(test, n, st).blocks, g)
    ensures Extends(st.blocks, g)
  {
    FrameTest(test, n, st);
    FrameExtends(st, GenTest(test, n, st));
    ExtendsTrans(st.blocks, GenTest(test, n, st).blocks, g);
  }

  /** Each of the five blocks is still empty when code starts to go into it. */
  lemma LoopBlank(s: Stmt, ctx: Ctx, st: State, p: LoopParts)
    requires s.For? && Lowerable(s, ctx) && p == PartsOfLoop(s, ctx, st)
    ensures p.head.at == p.n && p.head.blocks[p.n] == [] && p.head.next == st.next
    ensures p.body.at == p.n + 1 && p.body.blocks[p.n + 1] == [] && st.next <= p.body.next
    ensures p.post.at == p.n + 2 && p.post.blocks[p.n + 2] == [] && st.next <= p.post.next
    ensures p.els.at == p.n + 3 && p.els.blocks[p.n + 3] == [] && st.next <= p.els.next
    ensures p.done.at == p.n + 4 && p.done.blocks[p.n + 4] == []
  {
    hide GenBlock, GenStmt, GenTest;
    var n, inner := p.n, Inner(ctx, p.n);
    FrameTest(s.test, n, p.head);
    FrameBlock(s.body, inner, p.body);
    if s.post.Some? {
      FrameStmt(s.post.value, inner, p.post);
    }
    if s.els.Some? {
      FrameStmt(s.els.value, inner, p.els);
    }
    hide Frame;
    forall i | n + 1 <= i <= n + 4 ensures p.test.blocks[i] == [] {
      Blanks(p.head, p.test, n, i);
    }
    forall i | n + 2 <= i <= n + 4 ensures p.post.blocks[i] == [] {
      Blanks(p.body, p.bodyEnd, n + 1, i);
    }
    forall i | n + 3 <= i <= n + 4 ensures p.els.blocks[i] == [] {
      Blanks(p.post, p.postEnd, n + 2, i);
    }
    Blanks(p.els, p.elsEnd, n + 3, n + 4);
  }

  lemma {:induction false} SimFor(s: Stmt, ctx: Ctx, st: State, o: Oracle, g: Graph, c: Config, fuel: nat)
    returns (w: Ran)
    requires s.For? && Lowerable(s, ctx) && AtEnd(c, st) && FellIn(g, c) && Extends(GenFor(s, ctx, st).blocks, g)
    ensures Simulates(ExecLoop(s, o, c.t, fuel), ctx, st, GenFor(s, ctx, st), o, g, c, fuel, w)
    decreases fuel, s, 3
  {
    hide Extends, Steps, Step, Frame, GenFor, GenBlock, GenStmt, GenTest, ExecLoop, Simulates;
    var p := PartsOfLoop(s, ctx, st);
    PartsAreOfLoop(s, ctx, st);
    LoopExtends(s, ctx, st, p, g);
    LoopBlank(s, ctx, st, p);
    Jump(Create(st, 5), p.n, o, g, c);
    var c1 := Steps(o, g, c, 1);
    FellInKept(o, g, c, 1);
    w := SimLoop(s, ctx, st, p, o, g, c1, fuel);
    w := Chain(ExecLoop(s, o, c.t, fuel), ctx, st, p.head, p.done, o, g, c, 1, c1, fuel, w);
  }

  /** From the loop block: iterate until the loop is left. */
  lemma {:induction false} SimLoop(s: Stmt, ctx: Ctx, st: State, p: LoopParts, o: Oracle, g: Graph, c: Config,
                                   fuel: nat)
    returns (w: Ran)
    requires s.For? && Lowerable(s, ctx) && p == PartsOfLoop(s, ctx, st) && Extends(p.done.blocks, g)
    requires AtEnd(c, p.head) && FellIn(g, c)
    ensures Simulates(ExecLoop(s, o, c.t, fuel), ctx, p.head, p.done, o, g, c, fuel, w)
    decreases fuel, s, 2
  {
    hide Extends, Steps, Step, Frame, GenFor, GenBlock, GenStmt, GenTest, PartsOfLoop, ExecTurn, EvalTest, Simulates;
    if fuel == 0 {
      w := Ran(0, c, st, None);
      Unfinished(ctx, p.head, p.done, o, g, c, w);
    } else {
      var (held, t1) := EvalTest(s.test, o, c.t);
      var n1, d := SimTest(s, ctx, st, p, o, g, c);
      FellInKept(o, g, c, n1);
      var r := ExecTurn(s, held, o, t1, fuel);
      w := SimTurn(s, held, ctx, st, p, o, g, d, fuel);
      if r.None? || r.value.out.Returned? {
        w := Chain(r, ctx, p.head, p.head, p.done, o, g, c, n1, d, fuel, w);
      } else {
        Then(o, g, c, n1, d, w.n, w.c);
        if Leaves(r.value.out, held) {
          w := w.(n := n1 + w.n);
          SimulatesNormal(ExecLoop(s, o, c.t, fuel), ctx, p.head, p.done, o, g, c, fuel, w);
        } else {
          w := SimNext(s, ctx, st, p, o, g, c, n1 + w.n, w.c, fuel);
        }
      }
    }
  }

  lemma Unfinished(ctx: Ctx, st: State, st': State, o: Oracle, g: Graph, c: Config, w: Ran)
    requires c.Run?
    ensures Simulates(None, ctx, st, st', o, g, c, 0, w)
  {
  }

  /** The condition, up to the body or the `else` block. */
  lemma SimTest(s: Stmt, ctx: Ctx, st: State, p: LoopParts, o: Oracle, g: Graph, c: Config) returns (n: nat, d: Config)
    requires s.For? && Lowerable(s, ctx) && p == PartsOfLoop(s, ctx, st) && Extends(p.done.blocks, g)
    requires AtEnd(c, p.head)
    ensures Steps(o, g, c, n) == d && d.Run? && d.t == EvalTest(s.test, o, c.t).1 && Keeps(c.env, d.env, p.head.next)
    ensures AtEnd(d, if EvalTest(s.test, o, c.t).0 then p.body else p.els)
  {
    hide Extends, Steps, Step, Frame, GenBlock, GenStmt;
    LoopExtends(s, ctx, st, p, g);
    LoopBlank(s, ctx, st, p);
    match s.test
    case None =>
      Jump(p.head, p.n + 1, o, g, c);
      n, d := 1, Steps(o, g, c, 1);
    case Some(e) =>
      var (s1, v) := GenExpr(e, p.head);
      BackEmit(s1, CondBr(v, p.n + 1, p.n + 3), g);
      var n1, c1 := SimExpr(e, p.head, o, g, c);
      Branch(s1, v, p.n + 1, p.n + 3, o, g, c1);
      n, d := n1 + 1, Steps(o, g, c1, 1);
      Then(o, g, c, n1, c1, 1, d);
  }

  /** One turn of the loop, up to its exit block or its post block. */
  lemma {:induction false} SimTurn(s: Stmt, held: bool, ctx: Ctx, st: State, p: LoopParts, o: Oracle, g: Graph,
                                   c: Config, fuel: nat)
    returns (w: Ran)
    requires s.For? && Lowerable(s, ctx) && p == PartsOfLoop(s, ctx, st) && Extends(p.done.blocks, g)
    requires AtEnd(c, if held then p.body else p.els) && FellIn(g, c)
    ensures var r := ExecTurn(s, held, o, c.t, fuel);
      if r.None? || r.value.out.Returned? then Simulates(r, ctx, p.head, p.done, o, g, c, fuel, w)
      else
        && Steps(o, g, c, w.n) == w.c && AtEnd(w.c, if Leaves(r.value.out, held) then p.done else p.post)
        && w.c.t == r.value.t && Keeps(c.env, w.c.env, p.head.next) && FellIn(g, w.c)
    decreases fuel, s, 1
  {
    hide Extends, Steps, Step, Frame, GenFor, GenBlock, GenStmt, GenTest, Exec, ExecBlock;
    LoopExtends(s, ctx, st, p, g);
    LoopBlank(s, ctx, st, p);
    var inner := Inner(ctx, p.n);
    var r := ExecTurn(s, held, o, c.t, fuel);
    var start, end := if held then p.body else p.els, if held then p.bodyEnd else p.elsEnd;
    if held {
      w := SimBlock(s.body, inner, p.body, o, g, c, fuel);
    } else if s.els.Some? {
      w := SimStmt(s.els.value, inner, p.els, o, g, c, fuel);
    } else {
      w := Ran(0, c, st, None);
      Zero(o, g, c);
    }
    assert Simulates(r, inner, start, end, o, g, c, fuel, w);
    if r.Some? && r.value.out.Normal? {
      Jump(end, if held then p.n + 2 else p.n + 4, o, g, w.c);
      var c2 := Steps(o, g, w.c, 1);
      Then(o, g, c, w.n, w.c, 1, c2);
      w := w.(n := w.n + 1, c := c2);
    }
    FellInKept(o, g, c, w.n);
  }

  /** The post statement, and the loop again with one iteration less to spare. */
  lemma {:induction false} SimNext(s: Stmt, ctx: Ctx, st: State, p: LoopParts, o: Oracle, g: Graph,
                                   c: Config, m: nat, e: Config, fuel: nat) returns (w: Ran)
    requires s.For? && Lowerable(s, ctx) && p == PartsOfLoop(s, ctx, st) && Extends(p.done.blocks, g)
    requires c.Run? && fuel > 0 && Steps(o, g, c, m) == e && AtEnd(e, p.post) && FellIn(g, e)
    requires Keeps(c.env, e.env, p.head.next)
    ensures var q := if s.post.Some? then Exec(s.post.value, o, e.t, fuel) else Some(Result(Normal, e.t));
            q.Some? && Simulates(ExecLoop(s, o, q.value.t, fuel - 1), ctx, p.head, p.done, o, g, c, fuel, w)
    decreases fuel, s, 1
  {
    hide Extends, Steps, Step, Frame, GenFor, GenBlock, GenStmt, GenTest, ExecLoop;
    LoopExtends(s, ctx, st, p, g);
    LoopBlank(s, ctx, st, p);
    var inner := Inner(ctx, p.n);
    var q := if s.post.Some? then Exec(s.post.value, o, e.t, fuel) else Some(Result(Normal, e.t));
    if s.post.Some? {
      w := SimStmt(s.post.value, inner, p.post, o, g, e, fuel);
      assert q.Some? && q.value.out.Normal?;
    } else {
      w := Ran(0, e, st, None);
      Zero(o, g, e);
    }
    FellInKept(o, g, e, w.n);
    Then(o, g, c, m, e, w.n, w.c);
    Jump(p.postEnd, p.n, o, g, w.c);
    var d := Steps(o, g, w.c, 1);
    FellInKept(o, g, w.c, 1);
    Then(o, g, c, m + w.n, w.c, 1, d);
    var k := m + w.n + 1;
    w := SimLoop(s, ctx, st, p, o, g, d, fuel - 1);
    w := Later(ExecLoop(s, o, q.value.t, fuel - 1), ctx, p.head, p.done, o, g, c, k, d, fuel, w);
  }

  /** An iteration takes at least one step. */
  lemma Later(r: Option<Result>, ctx: Ctx, st: State, st': State, o: Oracle, g: Graph,
              c: Config, k: nat, d: Config, fuel: nat, w: Ran) returns (w': Ran)
    requires c.Run? && d.Run? && fuel > 0 && k > 0 && Steps(o, g, c, k) == d && Keeps(c.env, d.env, st.next)
    requires Simulates(r, ctx, st, st', o, g, d, fuel - 1, w)
    ensures Simulates(r, ctx, st, st', o, g, c, fuel, w')
  {
    hide Steps, Extends;
    w' := w.(n := k + w.n);
    if r.None? {
      StepsAdd(o, g, c, k, fuel - 1);
      RunningEarlier(o, g, c, fuel, k + fuel - 1);
    } else {
      StepsAdd(o, g, c, k, w.n);
    }
  }
}
