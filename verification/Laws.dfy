// Laws of the source semantics: which statements mean the same.
module Laws {
  import opened Wrappers
  import opened Ast
  import opened Machine
  import opened Source

  /** Some number of iterations lets `s` end in `r`. */
  ghost predicate Yields(s: Stmt, o: Oracle, t: seq<Event>, r: Result) {
    exists fuel :: Exec(s, o, t, fuel) == Some(r)
  }

  /** Both end, from everywhere, in the same results. */
  ghost predicate Same(a: Stmt, b: Stmt) {
    forall o, t, r :: Yields(a, o, t, r) <==> Yields(b, o, t, r)
  }

  // ----- conditions -----

  function IfElse(cond: Expr, thn: seq<Stmt>, els: Option<Stmt>): Stmt {
    If(None, cond, thn, els)
  }

  lemma SingleBlock(s: Stmt, o: Oracle, t: seq<Event>, fuel: nat)
    requires !s.Defer?
    ensures ExecBlock([s], o, t, fuel) == Exec(s, o, t, fuel)
  {
    var r := Exec(s, o, t, fuel);
    assert [s][1..] == [];
    if r.Some? && r.value.out.Normal? {
      assert ExecBlock([], o, r.value.t, fuel) == Some(Result(Normal, r.value.t));
    }
  }

  lemma IfRuns(cond: Expr, thn: seq<Stmt>, els: Option<Stmt>, o: Oracle, t: seq<Event>, fuel: nat)
    ensures var (b, t1) := Eval(cond, o, t);
            Exec(IfElse(cond, thn, els), o, t, fuel) ==
            if b then ExecBlock(thn, o, t1, fuel)
            else if els.Some? then Exec(els.value, o, t1, fuel)
            else Some(Result(Normal, t1))
  {
  }

  /** What `if` does: a constant condition chooses; `&&` and `||` are nested `if`s. */
  lemma IfLaws(l: Expr, r: Expr, thn: seq<Stmt>, els: Option<Stmt>, o: Oracle, t: seq<Event>, fuel: nat)
    ensures Exec(IfElse(Literal(true), thn, els), o, t, fuel) == Exec(Block(thn), o, t, fuel)
    ensures Exec(IfElse(Literal(false), thn, els), o, t, fuel)
         == if els.Some? then Exec(els.value, o, t, fuel) else Exec(Block([]), o, t, fuel)
    ensures Exec(IfElse(LAnd(l, r), thn, els), o, t, fuel)
         == Exec(IfElse(l, [IfElse(r, thn, els)], els), o, t, fuel)
    ensures Exec(IfElse(LOr(l, r), thn, els), o, t, fuel)
         == Exec(IfElse(l, thn, Some(IfElse(r, thn, els))), o, t, fuel)
  {
    SingleBlock(IfElse(r, thn, els), o, Eval(l, o, t).1, fuel);
  }

  /** An operand is asked once, and its answer chooses. */
  lemma AskLaw(q: nat, thn: seq<Stmt>, els: Option<Stmt>, o: Oracle, t: seq<Event>, fuel: nat)
    ensures Exec(IfElse(Operand(q), thn, els), o, t, fuel)
         == Exec(IfElse(Literal(o(t, q)), thn, els), o, t + [Asked(q, o(t, q))], fuel)
  {
    IfLaws(Operand(q), Operand(q), thn, els, o, t + [Asked(q, o(t, q))], fuel);
  }

  /** Statements use the value of an expression as `if` does. */
  lemma ValueLaws(x: nat, e: Expr, o: Oracle, t: seq<Event>, fuel: nat)
    ensures Exec(ExprStmt(e), o, t, fuel) == Exec(IfElse(e, [], None), o, t, fuel)
    ensures Exec(Let(x, e), o, t, fuel)
         == Exec(IfElse(e, [Let(x, Literal(true))], Some(Let(x, Literal(false)))), o, t, fuel)
    ensures Exec(Return(Some(e)), o, t, fuel)
         == Exec(IfElse(e, [Return(Some(Literal(true)))], Some(Return(Some(Literal(false))))), o, t, fuel)
  {
    var t1 := Eval(e, o, t).1;
    assert Eval(Literal(true), o, t1) == (true, t1) && Eval(Literal(false), o, t1) == (false, t1);
    assert ExecBlock([], o, t1, fuel) == Some(Result(Normal, t1));
    IfRuns(e, [], None, o, t, fuel);
    IfRuns(e, [Let(x, Literal(true))], Some(Let(x, Literal(false))), o, t, fuel);
    IfRuns(e, [Return(Some(Literal(true)))], Some(Return(Some(Literal(false)))), o, t, fuel);
    SingleBlock(Let(x, Literal(true)), o, t1, fuel);
    SingleBlock(Return(Some(Literal(true))), o, t1, fuel);
  }

  // ----- more iterations -----

  lemma {:induction false} MoreFuel(s: Stmt, o: Oracle, t: seq<Event>, m: nat, n: nat)
    requires m <= n && Exec(s, o, t, m).Some?
    ensures Exec(s, o, t, n) == Exec(s, o, t, m)
    decreases m, s, 3
  {
    match s
    case Block(ss) => MoreBlock(ss, o, t, m, n);
    case If(init, cond, thn, elif) =>
      if init.Some? {
        MoreFuel(init.value, o, t, m, n);
      }
      var start := if init.Some? then Exec(init.value, o, t, m).value.t else t;
      var (b, t1) := Eval(cond, o, start);
      if b {
        MoreBlock(thn, o, t1, m, n);
      } else if elif.Some? {
        MoreFuel(elif.value, o, t1, m, n);
      }
    case For(init, _, _, _, _) =>
      if init.Some? {
        MoreFuel(init.value, o, t, m, n);
      }
      MoreLoop(s, o, if init.Some? then Exec(init.value, o, t, m).value.t else t, m, n);
    case _ =>
  }

  lemma {:induction false} MoreBlock(ss: seq<Stmt>, o: Oracle, t: seq<Event>, m: nat, n: nat)
    requires m <= n && ExecBlock(ss, o, t, m).Some?
    ensures ExecBlock(ss, o, t, n) == ExecBlock(ss, o, t, m)
    decreases m, ss, 0
  {
    if ss != [] {
      match ss[0]
      case Defer(d) =>
        MoreBlock(ss[1..], o, t, m, n);
        var r := ExecBlock(ss[1..], o, t, m).value;
        if !r.out.Broke? && !r.out.Continued? {
          MoreFuel(d, o, r.t, m, n);
        }
      case s =>
        MoreFuel(s, o, t, m, n);
        var r := Exec(s, o, t, m).value;
        if r.out.Normal? {
          MoreBlock(ss[1..], o, r.t, m, n);
        }
    }
  }

  lemma {:induction false} MoreLoop(s: Stmt, o: Oracle, t: seq<Event>, m: nat, n: nat)
    requires s.For? && m <= n && ExecLoop(s, o, t, m).Some?
    ensures ExecLoop(s, o, t, n) == ExecLoop(s, o, t, m)
    decreases m, s, 1
  {
    var (held, t1) := EvalTest(s.test, o, t);
    if held {
      MoreBlock(s.body, o, t1, m, n);
    } else if s.els.Some? {
      MoreFuel(s.els.value, o, t1, m, n);
    }
    var r := ExecTurn(s, held, o, t1, m).value;
    if !r.out.Returned? && !Leaves(r.out, held) {
      if s.post.Some? {
        MoreFuel(s.post.value, o, r.t, m, n);
      }
      var p := if s.post.Some? then Exec(s.post.value, o, r.t, m).value.t else r.t;
      MoreLoop(s, o, p, m - 1, n - 1);
    }
  }

  /** A statement ends in one way at most. */
  lemma OneResult(s: Stmt, o: Oracle, t: seq<Event>, a: Result, b: Result)
    requires Yields(s, o, t, a) && Yields(s, o, t, b)
    ensures a == b
  {
    var m :| Exec(s, o, t, m) == Some(a);
    var n :| Exec(s, o, t, n) == Some(b);
    if m <= n {
      MoreFuel(s, o, t, m, n);
    } else {
      MoreFuel(s, o, t, n, m);
    }
  }

  // ----- loops -----

  /** Without a jump of its own, a statement ends normally or returns. */
  lemma {:induction false} JumpFree(s: Stmt, o: Oracle, t: seq<Event>, fuel: nat)
    requires Shaped(s) && JumpsOk(s, false) && Exec(s, o, t, fuel).Some?
    ensures var out := Exec(s, o, t, fuel).value.out; out.Normal? || out.Returned?
    decreases s, 1
  {
    match s
    case Block(ss) => JumpFreeBlock(ss, o, t, fuel);
    case If(init, cond, thn, elif) =>
      var start := if init.Some? then Exec(init.value, o, t, fuel) else Some(Result(Normal, t));
      var (b, t1) := Eval(cond, o, start.value.t);
      if b {
        JumpFreeBlock(thn, o, t1, fuel);
      } else if elif.Some? {
        JumpFree(elif.value, o, t1, fuel);
      }
    case For(init, _, _, _, _) =>
      LoopEnds(s, o, if init.Some? then Exec(init.value, o, t, fuel).value.t else t, fuel);
    case _ =>
  }

  lemma {:induction false} JumpFreeBlock(ss: seq<Stmt>, o: Oracle, t: seq<Event>, fuel: nat)
    requires AllShaped(ss) && AllJumpsOk(ss, false) && ExecBlock(ss, o, t, fuel).Some?
    ensures var out := ExecBlock(ss, o, t, fuel).value.out; out.Normal? || out.Returned?
    decreases ss, 0
  {
    if ss != [] {
      if ss[0].Defer? {
        JumpFreeBlock(ss[1..], o, t, fuel);
      } else {
        JumpFree(ss[0], o, t, fuel);
        var r := Exec(ss[0], o, t, fuel).value;
        if r.out.Normal? {
          JumpFreeBlock(ss[1..], o, r.t, fuel);
        }
      }
    }
  }

  lemma {:induction false} LoopEnds(s: Stmt, o: Oracle, t: seq<Event>, fuel: nat)
    requires s.For? && ExecLoop(s, o, t, fuel).Some?
    ensures var out := ExecLoop(s, o, t, fuel).value.out; out.Normal? || out.Returned?
    decreases fuel
  {
    var (held, t1) := EvalTest(s.test, o, t);
    var r := ExecTurn(s, held, o, t1, fuel).value;
    if !r.out.Returned? && !Leaves(r.out, held) {
      LoopEnds(s, o, if s.post.Some? then Exec(s.post.value, o, r.t, fuel).value.t else r.t, fuel - 1);
    }
  }

  function Optional(s: Option<Stmt>): seq<Stmt> {
    if s.Some? then [s.value] else []
  }

  /** The loop has nothing before it, and no jump in its `else`. */
  predicate Plain(s: Stmt) {
    s.For? && Shaped(s) && s.init.None? && s.test.Some? && (s.els.Some? ==> JumpsOk(s.els.value, false))
  }

  /** A loop is one turn, and the loop again. */
  function Unrolled(s: Stmt): Stmt
    requires s.For? && s.test.Some?
  {
    IfElse(s.test.value, [Block(s.body)] + Optional(s.post) + [s], s.els)
  }

  lemma TailBlock(post: Option<Stmt>, s: Stmt, o: Oracle, t: seq<Event>, fuel: nat)
    requires (post.Some? ==> Straight(post.value)) && s.For? && s.init.None?
    ensures var p := if post.Some? then Exec(post.value, o, t, fuel) else Some(Result(Normal, t));
            p.Some? && ExecBlock(Optional(post) + [s], o, t, fuel) == ExecLoop(s, o, p.value.t, fuel)
  {
    if post.Some? {
      assert (Optional(post) + [s])[1..] == [s];
      SingleBlock(s, o, Exec(post.value, o, t, fuel).value.t, fuel);
    } else {
      assert Optional(post) + [s] == [s];
      SingleBlock(s, o, t, fuel);
    }
  }

  /** One turn, after a condition that held the post statement, and then the loop with `rest`. */
  function TurnThen(s: Stmt, o: Oracle, t: seq<Event>, fuel: nat, rest: nat): Option<Result>
    requires Plain(s)
  {
    var (held, t1) := Eval(s.test.value, o, t);
    var r := ExecTurn(s, held, o, t1, fuel);
    if r.None? || !held || !r.value.out.Normal? then r
    else
      var p := if s.post.Some? then Exec(s.post.value, o, r.value.t, fuel) else Some(Result(Normal, r.value.t));
      if p.None? then None else ExecLoop(s, o, p.value.t, rest)
  }

  lemma UnrolledRuns(s: Stmt, o: Oracle, t: seq<Event>, fuel: nat)
    requires Plain(s)
    ensures Exec(Unrolled(s), o, t, fuel) == TurnThen(s, o, t, fuel, fuel)
  {
    var (held, t1) := Eval(s.test.value, o, t);
    var tail := Optional(s.post) + [s];
    var list := [Block(s.body)] + tail;
    assert [Block(s.body)] + Optional(s.post) + [s] == list;
    assert list[0] == Block(s.body) && list[1..] == tail;
    var r := ExecTurn(s, held, o, t1, fuel);
    IfRuns(s.test.value, list, s.els, o, t, fuel);
    if held && r.Some? {
      TailBlock(s.post, s, o, r.value.t, fuel);
      assert Exec(Block(s.body), o, t1, fuel) == r;
    }
  }

  lemma LoopRuns(s: Stmt, o: Oracle, t: seq<Event>, fuel: nat)
    requires Plain(s) && AllJumpsOk(s.body, false) && fuel > 0
    ensures Exec(s, o, t, fuel) == TurnThen(s, o, t, fuel, fuel - 1)
  {
    var (held, t1) := Eval(s.test.value, o, t);
    var r := ExecTurn(s, held, o, t1, fuel);
    if r.Some? {
      if held {
        JumpFreeBlock(s.body, o, t1, fuel);
      } else if s.els.Some? {
        JumpFree(s.els.value, o, t1, fuel);
      }
    }
  }

  /** Loop and unrolled loop mean the same: while its condition holds, the body runs, then the post statement;
    * once it fails, the `else` block. */
  lemma LoopUnrolls(s: Stmt)
    requires Plain(s) && AllJumpsOk(s.body, false)
    ensures Same(s, Unrolled(s))
  {
    forall o, t, r ensures Yields(s, o, t, r) <==> Yields(Unrolled(s), o, t, r) {
      if Yields(s, o, t, r) {
        var f :| Exec(s, o, t, f) == Some(r);
        Unroll(s, o, t, r, f);
      }
      if Yields(Unrolled(s), o, t, r) {
        var f :| Exec(Unrolled(s), o, t, f) == Some(r);
        Reroll(s, o, t, r, f);
      }
    }
  }

  lemma Unroll(s: Stmt, o: Oracle, t: seq<Event>, r: Result, f: nat)
    requires Plain(s) && AllJumpsOk(s.body, false) && Exec(s, o, t, f) == Some(r)
    ensures Exec(Unrolled(s), o, t, f) == Some(r)
  {
    LoopRuns(s, o, t, f);
    UnrolledRuns(s, o, t, f);
    hide Exec, ExecTurn, ExecLoop, Eval, Shaped, Unrolled;
    var (held, t1) := Eval(s.test.value, o, t);
    var turn := ExecTurn(s, held, o, t1, f);
    if turn.Some? && held && turn.value.out.Normal? {
      var p := if s.post.Some? then Exec(s.post.value, o, turn.value.t, f) else Some(Result(Normal, turn.value.t));
      MoreLoop(s, o, p.value.t, f - 1, f);
    }
  }

  lemma Reroll(s: Stmt, o: Oracle, t: seq<Event>, r: Result, f: nat)
    requires Plain(s) && AllJumpsOk(s.body, false) && Exec(Unrolled(s), o, t, f) == Some(r)
    ensures Exec(s, o, t, f + 1) == Some(r)
  {
    UnrolledRuns(s, o, t, f);
    LoopRuns(s, o, t, f + 1);
    var (held, t1) := Eval(s.test.value, o, t);
    MoreTurn(s, held, o, t1, f);
    hide Exec, ExecTurn, ExecLoop, Eval, Shaped, Unrolled;
    var turn := ExecTurn(s, held, o, t1, f);
    if held && turn.value.out.Normal? && s.post.Some? {
      MoreFuel(s.post.value, o, turn.value.t, f, f + 1);
    }
  }

  lemma MoreTurn(s: Stmt, held: bool, o: Oracle, t: seq<Event>, f: nat)
    requires s.For? && ExecTurn(s, held, o, t, f).Some?
    ensures ExecTurn(s, held, o, t, f + 1) == ExecTurn(s, held, o, t, f)
  {
    if held {
      MoreBlock(s.body, o, t, f, f + 1);
    } else if s.els.Some? {
      MoreFuel(s.els.value, o, t, f, f + 1);
    }
  }

  /** No statement of the list itself is deferred. */
  predicate Undeferred(ss: seq<Stmt>) {
    forall i | 0 <= i < |ss| :: !ss[i].Defer?
  }

  /** A block up to a jump. */
  lemma {:induction false} JumpEnds(pre: seq<Stmt>, jump: Stmt, rest: seq<Stmt>, o: Oracle, t: seq<Event>, fuel: nat)
    requires Undeferred(pre) && (jump.Break? || jump.Continue?)
    ensures var r := ExecBlock(pre, o, t, fuel);
            ExecBlock(pre + [jump] + rest, o, t, fuel) ==
            if r.Some? && r.value.out.Normal? then Some(Result(if jump.Break? then Broke else Continued, r.value.t))
            else r
    decreases |pre|
  {
    var all := pre + [jump] + rest;
    if pre == [] {
      assert all[0] == jump;
    } else {
      assert all[0] == pre[0] && all[1..] == pre[1..] + [jump] + rest;
      var r := Exec(pre[0], o, t, fuel);
      if r.Some? && r.value.out.Normal? {
        JumpEnds(pre[1..], jump, rest, o, r.value.t, fuel);
      }
    }
  }

  /** `continue` skips the rest of the body, and nothing else. */
  lemma ContinueSkips(s: Stmt, pre: seq<Stmt>, rest: seq<Stmt>, o: Oracle, t: seq<Event>, fuel: nat)
    requires s.For? && s.body == pre + [Continue] + rest && Undeferred(pre)
    ensures Exec(s, o, t, fuel) == Exec(s.(body := pre), o, t, fuel)
  {
    var start := if s.init.Some? then Exec(s.init.value, o, t, fuel) else Some(Result(Normal, t));
    if start.Some? {
      LoopSkips(s, pre, rest, o, start.value.t, fuel);
    }
  }

  lemma {:induction false} LoopSkips(s: Stmt, pre: seq<Stmt>, rest: seq<Stmt>, o: Oracle, t: seq<Event>, fuel: nat)
    requires s.For? && s.body == pre + [Continue] + rest && Undeferred(pre)
    ensures ExecLoop(s, o, t, fuel) == ExecLoop(s.(body := pre), o, t, fuel)
    decreases fuel
  {
    if fuel > 0 {
      var (held, t1) := EvalTest(s.test, o, t);
      if held {
        JumpEnds(pre, Continue, rest, o, t1, fuel);
      }
      var r := ExecTurn(s, held, o, t1, fuel);
      if r.Some? && !r.value.out.Returned? && !Leaves(r.value.out, held) {
        var p := if s.post.Some? then Exec(s.post.value, o, r.value.t, fuel) else Some(Result(Normal, r.value.t));
        if p.Some? {
          LoopSkips(s, pre, rest, o, p.value.t, fuel - 1);
        }
      }
    }
  }

  lemma LoopRunsOnce(s: Stmt, o: Oracle, t: seq<Event>, fuel: nat)
    requires Plain(s) && fuel > 0
    ensures var (held, t1) := Eval(s.test.value, o, t);
            var r := ExecTurn(s, held, o, t1, fuel);
            && (r.None? || r.value.out.Returned? ==> Exec(s, o, t, fuel) == r)
            && (r.Some? && Leaves(r.value.out, held) ==> Exec(s, o, t, fuel) == Some(Result(Normal, r.value.t)))
  {
  }

  /** `break` ends the loop: what is left of it is one `if`, without post statement or `else` after the body. */
  lemma BreakLeaves(s: Stmt, pre: seq<Stmt>, rest: seq<Stmt>, o: Oracle, t: seq<Event>, fuel: nat)
    requires Plain(s) && s.body == pre + [Break] + rest && Undeferred(pre) && fuel > 0
    requires AllShaped(pre) && AllJumpsOk(pre, false)
    ensures Exec(s, o, t, fuel) == Exec(IfElse(s.test.value, pre, s.els), o, t, fuel)
  {
    var (held, t1) := Eval(s.test.value, o, t);
    IfRuns(s.test.value, pre, s.els, o, t, fuel);
    LoopRunsOnce(s, o, t, fuel);
    if held {
      JumpEnds(pre, Break, rest, o, t1, fuel);
      if ExecBlock(pre, o, t1, fuel).Some? {
        JumpFreeBlock(pre, o, t1, fuel);
      }
    } else if s.els.Some? && Exec(s.els.value, o, t1, fuel).Some? {
      JumpFree(s.els.value, o, t1, fuel);
    }
  }

  /** A loop without a condition is one whose condition always holds. */
  lemma EndlessLoop(s: Stmt, o: Oracle, t: seq<Event>, fuel: nat)
    requires s.For? && s.init.None? && s.test.None?
    ensures Exec(s, o, t, fuel) == Exec(s.(test := Some(Literal(true))), o, t, fuel)
  {
    LoopEndless(s, o, t, fuel);
  }

  lemma {:induction false} LoopEndless(s: Stmt, o: Oracle, t: seq<Event>, fuel: nat)
    requires s.For? && s.test.None?
    ensures ExecLoop(s, o, t, fuel) == ExecLoop(s.(test := Some(Literal(true))), o, t, fuel)
    decreases fuel
  {
    if fuel > 0 {
      var r := ExecTurn(s, true, o, t, fuel);
      if r.Some? && !r.value.out.Returned? && !r.value.out.Broke? {
        var p := if s.post.Some? then Exec(s.post.value, o, r.value.t, fuel) else Some(Result(Normal, r.value.t));
        if p.Some? {
          LoopEndless(s, o, p.value.t, fuel - 1);
        }
      }
    }
  }

  /** An `if` or a loop without the statement in front of it. */
  function Bare(s: Stmt): Stmt {
    match s
    case If(_, cond, thn, elif) => If(None, cond, thn, elif)
    case For(_, test, post, body, els) => For(None, test, post, body, els)
    case _ => s
  }

  /** The statement in front of an `if` or a loop runs once, before it. */
  lemma InitFirst(s: Stmt, first: Stmt, o: Oracle, t: seq<Event>, fuel: nat)
    requires (s.If? || s.For?) && s.init == Some(first) && first.Let?
    ensures Exec(s, o, t, fuel) == Exec(Block([first, Bare(s)]), o, t, fuel)
  {
    var list := [first, Bare(s)];
    assert list[1..] == [Bare(s)];
    var start := Exec(first, o, t, fuel);
    SingleBlock(Bare(s), o, start.value.t, fuel);
    assert Exec(Block(list), o, t, fuel) == ExecBlock(list, o, t, fuel) == Exec(Bare(s), o, start.value.t, fuel);
    if s.For? {
      SameLoop(s, Bare(s), o, start.value.t, fuel);
    }
  }

  lemma {:induction false} SameLoop(a: Stmt, b: Stmt, o: Oracle, t: seq<Event>, fuel: nat)
    requires a.For? && b == Bare(a)
    ensures ExecLoop(a, o, t, fuel) == ExecLoop(b, o, t, fuel)
    decreases fuel
  {
    if fuel > 0 {
      var (held, t1) := EvalTest(a.test, o, t);
      var r := ExecTurn(a, held, o, t1, fuel);
      assert r == ExecTurn(b, held, o, t1, fuel);
      if r.Some? && !r.value.out.Returned? && !Leaves(r.value.out, held) {
        var p := if a.post.Some? then Exec(a.post.value, o, r.value.t, fuel) else Some(Result(Normal, r.value.t));
        if p.Some? {
          SameLoop(a, b, o, p.value.t, fuel - 1);
        }
      }
    }
  }

  // ----- functions -----

  /** Falling off the end of a function returns nothing, or zero. */
  lemma FallsOff(body: seq<Stmt>, void: bool, o: Oracle, fuel: nat)
    ensures ExecFn(body, void, o, fuel)
         == ExecFn(body + [Return(if void then None else Some(Literal(false)))], void, o, fuel)
  {
    EndReturns(body, if void then None else Some(Literal(false)), o, [], fuel);
  }

  /** A `return` of nothing or a constant at the end of a block. */
  lemma {:induction false} EndReturns(ss: seq<Stmt>, ret: Option<Expr>, o: Oracle, t: seq<Event>, fuel: nat)
    requires ret.Some? ==> ret.value.Literal?
    ensures var r := ExecBlock(ss, o, t, fuel);
            ExecBlock(ss + [Return(ret)], o, t, fuel) ==
            if r.Some? && r.value.out.Normal? then
              Some(Result(Returned(if ret.Some? then Some(ret.value.b) else None), r.value.t))
            else r
    decreases ss
  {
    var all := ss + [Return(ret)];
    if ss == [] {
      assert all == [Return(ret)];
      SingleBlock(Return(ret), o, t, fuel);
    } else {
      assert all[0] == ss[0] && all[1..] == ss[1..] + [Return(ret)];
      if ss[0].Defer? {
        EndReturns(ss[1..], ret, o, t, fuel);
      } else {
        var r := Exec(ss[0], o, t, fuel);
        if r.Some? && r.value.out.Normal? {
          EndReturns(ss[1..], ret, o, r.value.t, fuel);
        }
      }
    }
  }
}
