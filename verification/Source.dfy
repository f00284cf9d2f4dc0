// Structured big-step semantics of Biron statements.
module Source {
  import opened Wrappers
  import opened Ast
  import opened Machine

  datatype Outcome = Normal | Broke | Continued | Returned(v: Option<bool>)

  datatype Result = Result(out: Outcome, t: seq<Event>)

  /** Value and trace of an expression: the right operand runs exactly when the
      left one does not decide. */
  function Eval(e: Expr, o: Oracle, t: seq<Event>): (bool, seq<Event>) {
    match e
    case Literal(b) => (b, t)
    case Operand(q) => (o(t, q), t + [Asked(q, o(t, q))])
    case LAnd(l, r) =>
      var (b, t1) := Eval(l, o, t);
      if b then Eval(r, o, t1) else (false, t1)
    case LOr(l, r) =>
      var (b, t1) := Eval(l, o, t);
      if b then (true, t1) else Eval(r, o, t1)
  }

  /** `None` means that some loop needs more than `fuel` iterations. */
  function Exec(s: Stmt, o: Oracle, t: seq<Event>, fuel: nat): Option<Result>
    decreases fuel, s, 3
  {
    match s
    case Act(a) => Some(Result(Normal, t + [Did(a)]))
    case ExprStmt(e) => Some(Result(Normal, Eval(e, o, t).1))
    case Let(x, e) =>
      var (b, t1) := Eval(e, o, t);
      Some(Result(Normal, t1 + [Wrote(x, b)]))
    case Block(ss) => ExecBlock(ss, o, t, fuel)
    case Return(None) => Some(Result(Returned(None), t))
    case Return(Some(e)) =>
      var (b, t1) := Eval(e, o, t);
      Some(Result(Returned(Some(b)), t1))
    case Defer(_) => Some(Result(Normal, t))
    case Break => Some(Result(Broke, t))
    case Continue => Some(Result(Continued, t))
    case If(init, _, _, _) =>
      var start := if init.Some? then Exec(init.value, o, t, fuel) else Some(Result(Normal, t));
      if start.None? then None else ExecIf(s, o, start.value.t, fuel)
    case For(init, _, _, _, _) =>
      var start := if init.Some? then Exec(init.value, o, t, fuel) else Some(Result(Normal, t));
      if start.None? then None else ExecLoop(s, o, start.value.t, fuel)
  }

  function ExecIf(s: Stmt, o: Oracle, t: seq<Event>, fuel: nat): Option<Result>
    requires s.If?
    decreases fuel, s, 1
  {
    var (b, t1) := Eval(s.cond, o, t);
    if b then ExecBlock(s.thn, o, t1, fuel)
    else if s.elif.Some? then Exec(s.elif.value, o, t1, fuel)
    else Some(Result(Normal, t1))
  }

  /** `defer d; rest` runs `rest` and then `d`, unless `rest` jumped out of the
      block with `break` or `continue`. */
  function ExecBlock(ss: seq<Stmt>, o: Oracle, t: seq<Event>, fuel: nat): Option<Result>
    decreases fuel, ss, 0
  {
    if ss == [] then Some(Result(Normal, t)) else
    match ss[0]
    case Defer(d) =>
      var r := ExecBlock(ss[1..], o, t, fuel);
      if r.None? || r.value.out.Broke? || r.value.out.Continued? then r else
      var last := Exec(d, o, r.value.t, fuel);
      if last.None? then None else Some(Result(r.value.out, last.value.t))
    case s =>
      var r := Exec(s, o, t, fuel);
      if r.None? || !r.value.out.Normal? then r else ExecBlock(ss[1..], o, r.value.t, fuel)
  }

  /** The body after a condition that held, or the `else` block after one that failed. */
  function ExecTurn(s: Stmt, held: bool, o: Oracle, t: seq<Event>, fuel: nat): Option<Result>
    requires s.For?
    decreases fuel, s, 0
  {
    if held then ExecBlock(s.body, o, t, fuel)
    else if s.els.Some? then Exec(s.els.value, o, t, fuel)
    else Some(Result(Normal, t))
  }

  /** One or more iterations. The `else` block runs only when the condition
      fails, and `break` or `continue` inside it still belong to this loop. */
  function ExecLoop(s: Stmt, o: Oracle, t: seq<Event>, fuel: nat): Option<Result>
    requires s.For?
    decreases fuel, s, 1
  {
    if fuel == 0 then None else
    var (held, t1) := EvalTest(s.test, o, t);
    var r := ExecTurn(s, held, o, t1, fuel);
    if r.None? || r.value.out.Returned? then r
    else if Leaves(r.value.out, held) then Some(Result(Normal, r.value.t))
    else
      var p := if s.post.Some? then Exec(s.post.value, o, r.value.t, fuel) else Some(Result(Normal, r.value.t));
      if p.None? then None else ExecLoop(s, o, p.value.t, fuel - 1)
  }

  /** A loop without a condition goes on. */
  function EvalTest(test: Option<Expr>, o: Oracle, t: seq<Event>): (bool, seq<Event>) {
    if test.Some? then Eval(test.value, o, t) else (true, t)
  }

  predicate Leaves(out: Outcome, held: bool) {
    out.Broke? || (out.Normal? && !held)
  }

  /** A function body: falling off its end returns nothing, or a zero value. */
  function ExecFn(body: seq<Stmt>, void: bool, o: Oracle, fuel: nat): Option<(Option<bool>, seq<Event>)> {
    match ExecBlock(body, o, [], fuel)
    case None => None
    case Some(Result(Returned(v), t)) => Some((v, t))
    case Some(Result(_, t)) => Some((if void then None else Some(false), t))
  }

  // ----- properties of the semantics -----

  lemma {:induction false} ContainedIsNormal(s: Stmt, o: Oracle, t: seq<Event>, fuel: nat)
    requires Shaped(s) && NoReturn(s)
    ensures Exec(s, o, t, fuel).Some? ==> !Exec(s, o, t, fuel).value.out.Returned?
    ensures Exec(s, o, t, fuel).Some? && JumpsOk(s, false) ==> Exec(s, o, t, fuel).value.out.Normal?
    decreases fuel, s, 1
  {
    match s
    case Block(ss) => ContainedBlock(ss, o, t, fuel);
    case If(init, cond, thn, elif) =>
      var start := if init.Some? then Exec(init.value, o, t, fuel) else Some(Result(Normal, t));
      var (b, t1) := Eval(cond, o, start.value.t);
      if b {
        ContainedBlock(thn, o, t1, fuel);
      } else if elif.Some? {
        ContainedIsNormal(elif.value, o, t1, fuel);
      }
    case For(init, _, _, _, _) =>
      var start := if init.Some? then Exec(init.value, o, t, fuel) else Some(Result(Normal, t));
      ContainedLoop(s, o, start.value.t, fuel);
    case _ =>
  }

  lemma {:induction false} ContainedBlock(ss: seq<Stmt>, o: Oracle, t: seq<Event>, fuel: nat)
    requires AllShaped(ss) && NoReturns(ss)
    ensures ExecBlock(ss, o, t, fuel).Some? ==> !ExecBlock(ss, o, t, fuel).value.out.Returned?
    ensures ExecBlock(ss, o, t, fuel).Some? && AllJumpsOk(ss, false) ==> ExecBlock(ss, o, t, fuel).value.out.Normal?
    decreases fuel, ss, 0
  {
    if ss != [] {
      if ss[0].Defer? {
        ContainedBlock(ss[1..], o, t, fuel);
      } else {
        ContainedIsNormal(ss[0], o, t, fuel);
        var r := Exec(ss[0], o, t, fuel);
        if r.Some? && r.value.out.Normal? {
          ContainedBlock(ss[1..], o, r.value.t, fuel);
        }
      }
    }
  }

  lemma {:induction false} ContainedLoop(s: Stmt, o: Oracle, t: seq<Event>, fuel: nat)
    requires s.For? && Shaped(s) && NoReturn(s)
    ensures ExecLoop(s, o, t, fuel).Some? ==> ExecLoop(s, o, t, fuel).value.out.Normal?
    decreases fuel, s, 0
  {
    if fuel > 0 {
      var (held, t1) := EvalTest(s.test, o, t);
      if held {
        ContainedBlock(s.body, o, t1, fuel);
      } else if s.els.Some? {
        ContainedIsNormal(s.els.value, o, t1, fuel);
      }
      var r := ExecTurn(s, held, o, t1, fuel);
      if r.Some? && !Leaves(r.value.out, held) {
        var p := if s.post.Some? then Exec(s.post.value, o, r.value.t, fuel) else Some(Result(Normal, r.value.t));
        if p.Some? {
          ContainedLoop(s, o, p.value.t, fuel - 1);
        }
      }
    }
  }

  // ----- deferred statements as a run-time stack -----

  /** The statements of a block without its deferred ones, and the statements
      it registered on the way, in registration order. */
  function RunList(ss: seq<Stmt>, o: Oracle, t: seq<Event>, fuel: nat): Option<(Result, seq<Stmt>)>
    decreases ss
  {
    if ss == [] then Some((Result(Normal, t), []))
    else if ss[0].Defer? then
      match RunList(ss[1..], o, t, fuel)
      case None => None
      case Some((r, ds)) => Some((r, [ss[0].d] + ds))
    else
      match Exec(ss[0], o, t, fuel)
      case None => None
      case Some(r) => if r.out.Normal? then RunList(ss[1..], o, r.t, fuel) else Some((r, []))
  }

  /** Registered statements, last one first. */
  function RunDefers(ds: seq<Stmt>, o: Oracle, t: seq<Event>, fuel: nat): Option<seq<Event>>
    decreases |ds|
  {
    if ds == [] then Some(t) else
    match Exec(ds[|ds| - 1], o, t, fuel)
    case None => None
    case Some(r) => RunDefers(ds[..|ds| - 1], o, r.t, fuel)
  }

  lemma {:induction false} RunDefersCons(d: Stmt, ds: seq<Stmt>, o: Oracle, t: seq<Event>, fuel: nat)
    ensures RunDefers([d] + ds, o, t, fuel) ==
            match RunDefers(ds, o, t, fuel)
            case None => None
            case Some(t1) => (match Exec(d, o, t1, fuel) case None => None case Some(r) => Some(r.t))
    decreases |ds|
  {
    var all := [d] + ds;
    if ds == [] {
      assert all == [d] && all[..0] == [];
    } else {
      assert all[|all| - 1] == ds[|ds| - 1] && all[..|all| - 1] == [d] + ds[..|ds| - 1];
      var r := Exec(ds[|ds| - 1], o, t, fuel);
      if r.Some? {
        RunDefersCons(d, ds[..|ds| - 1], o, r.value.t, fuel);
      }
    }
  }

  /** A block that falls off its end or returns runs every statement it
      registered exactly once, in reverse order of registration; one that jumps
      out with `break` or `continue` runs none of them. */
  lemma {:induction false} DeferStack(ss: seq<Stmt>, o: Oracle, t: seq<Event>, fuel: nat)
    ensures ExecBlock(ss, o, t, fuel) ==
            match RunList(ss, o, t, fuel)
            case None => None
            case Some((r, ds)) =>
              if r.out.Broke? || r.out.Continued? then Some(r) else
              match RunDefers(ds, o, r.t, fuel)
              case None => None
              case Some(t') => Some(Result(r.out, t'))
    decreases ss
  {
    if ss != [] {
      match ss[0]
      case Defer(d) =>
        DeferStack(ss[1..], o, t, fuel);
        var l := RunList(ss[1..], o, t, fuel);
        if l.Some? {
          RunDefersCons(d, l.value.1, o, l.value.0.t, fuel);
        }
      case s =>
        var r := Exec(s, o, t, fuel);
        if r.Some? && r.value.out.Normal? {
          DeferStack(ss[1..], o, r.value.t, fuel);
        }
    }
  }
}
