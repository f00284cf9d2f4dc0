// The code generator itself: a builder that moves between blocks and a stack
// of scopes holding deferred statements and loops. It computes the lowering
// of Lower.dfy, restores the scope stack, and fails exactly on a stray jump.
module Codegen {
  import opened Wrappers
  import opened Ast
  import opened Machine
  import opened Lower
  import opened Functions

  datatype Scope = Scope(defers: seq<Stmt>, loop: Option<Loop>)

  function AllDefers(scopes: seq<Scope>): seq<Stmt> {
    if scopes == [] then [] else AllDefers(scopes[..|scopes| - 1]) + scopes[|scopes| - 1].defers
  }

  function InnermostLoop(scopes: seq<Scope>): Option<Loop> {
    if scopes == [] then None
    else if scopes[|scopes| - 1].loop.Some? then scopes[|scopes| - 1].loop
    else InnermostLoop(scopes[..|scopes| - 1])
  }

  /** The lexical context that a scope stack stands for. */
  function Context(scopes: seq<Scope>): Ctx {
    Ctx(AllDefers(scopes), InnermostLoop(scopes))
  }

  ghost predicate ScopesOk(scopes: seq<Scope>) {
    forall i :: 0 <= i < |scopes| ==> AllContained(scopes[i].defers)
  }

  lemma {:induction false} AllDefersContained(scopes: seq<Scope>)
    requires ScopesOk(scopes)
    ensures AllContained(AllDefers(scopes))
  {
    if scopes != [] {
      AllDefersContained(scopes[..|scopes| - 1]);
    }
  }

  lemma Push(scopes: seq<Scope>, s: Scope)
    ensures AllDefers(scopes + [s]) == AllDefers(scopes) + s.defers
    ensures InnermostLoop(scopes + [s]) == if s.loop.Some? then s.loop else InnermostLoop(scopes)
  {
    assert (scopes + [s])[..|scopes|] == scopes;
  }

  // ----- blocks as the compiler produces them: statements first, defers afterwards -----

  function DefersOf(ss: seq<Stmt>): (ds: seq<Stmt>) {
    if ss == [] then []
    else if ss[0].Defer? then [ss[0].d] + DefersOf(ss[1..])
    else DefersOf(ss[1..])
  }

  function GenList(ss: seq<Stmt>, ctx: Ctx, st: State): State
    requires AllLowerable(ss, ctx)
  {
    if ss == [] then st else
    assert Shaped(ss[0]) && JumpsOk(ss[0], ctx.loop.Some?);
    match ss[0]
    case Defer(d) => GenList(ss[1..], ctx.(defers := ctx.defers + [d]), st)
    case s => GenList(ss[1..], ctx, GenStmt(s, ctx, st))
  }

  lemma {:induction false} DefersOfContained(ss: seq<Stmt>)
    requires AllShaped(ss)
    ensures AllContained(DefersOf(ss))
  {
    if ss != [] {
      assert Shaped(ss[0]);
      DefersOfContained(ss[1..]);
    }
  }

  lemma {:induction false} DefersConcat(ds: seq<Stmt>, es: seq<Stmt>, st: State)
    requires AllContained(ds) && AllContained(es)
    ensures AllContained(ds + es) && GenDefers(ds + es, st) == GenDefers(ds, GenDefers(es, st))
    decreases |es|
  {
    hide GenStmt;
    if es == [] {
      assert ds + es == ds;
    } else {
      var all, d := ds + es, es[|es| - 1];
      assert all[..|all| - 1] == ds + es[..|es| - 1] && all[|all| - 1] == d;
      DefersConcat(ds, es[..|es| - 1], GenStmt(d, TOP, st));
    }
  }

  /** Nesting each `defer` around the rest of its block is the same as running
      the block and then its defers in reverse. */
  lemma {:induction false} BlockIsListThenDefers(ss: seq<Stmt>, ctx: Ctx, st: State)
    requires AllLowerable(ss, ctx)
    ensures AllContained(DefersOf(ss))
    ensures GenBlock(ss, ctx, st) == GenDefers(DefersOf(ss), GenList(ss, ctx, st))
    decreases ss
  {
    hide GenStmt;
    DefersOfContained(ss);
    if ss != [] {
      assert Shaped(ss[0]) && JumpsOk(ss[0], ctx.loop.Some?);
      match ss[0]
      case Defer(d) =>
        var more := ctx.(defers := ctx.defers + [d]);
        BlockIsListThenDefers(ss[1..], more, st);
        var s := GenList(ss[1..], more, st);
        DefersConcat([d], DefersOf(ss[1..]), s);
        var t := GenDefers(DefersOf(ss[1..]), s);
        assert [d][..0] == [];
        assert GenDefers([d], t) == GenDefers([], GenStmt(d, TOP, t));
      case s =>
        BlockIsListThenDefers(ss[1..], ctx, GenStmt(s, ctx, st));
    }
  }

  // ----- a deferred statement compiles the same wherever it is emitted -----

  lemma {:induction false} ContextFree(s: Stmt, ctx: Ctx, ctx': Ctx, st: State)
    requires Lowerable(s, ctx) && Lowerable(s, ctx') && NoReturn(s)
    requires ctx.loop == ctx'.loop || JumpsOk(s, false)
    ensures GenStmt(s, ctx, st) == GenStmt(s, ctx', st)
    decreases s, 1
  {
    match s
    case Block(ss) => ContextFreeBlock(ss, ctx, ctx', st);
    case If(init, _, _, _) =>
      var s0 := if init.Some? then GenStmt(init.value, ctx, st) else st;
      ContextFreeIf(s, ctx, ctx', s0);
    case For(init, _, _, _, _) =>
      var s0 := if init.Some? then GenStmt(init.value, ctx, st) else st;
      ContextFreeFor(s, ctx, ctx', s0);
    case _ =>
  }

  lemma {:induction false} ContextFreeBlock(ss: seq<Stmt>, ctx: Ctx, ctx': Ctx, st: State)
    requires AllLowerable(ss, ctx) && AllLowerable(ss, ctx') && NoReturns(ss)
    requires ctx.loop == ctx'.loop || AllJumpsOk(ss, false)
    ensures GenBlock(ss, ctx, st) == GenBlock(ss, ctx', st)
    decreases ss, 0
  {
    if ss != [] {
      assert Shaped(ss[0]) && JumpsOk(ss[0], ctx.loop.Some?) && JumpsOk(ss[0], ctx'.loop.Some?);
      match ss[0]
      case Defer(d) =>
        ContextFreeBlock(ss[1..], ctx.(defers := ctx.defers + [d]), ctx'.(defers := ctx'.defers + [d]), st);
      case s =>
        ContextFree(s, ctx, ctx', st);
        ContextFreeBlock(ss[1..], ctx, ctx', GenStmt(s, ctx, st));
    }
  }

  lemma {:induction false} ContextFreeIf(s: Stmt, ctx: Ctx, ctx': Ctx, st: State)
    requires s.If? && Lowerable(s, ctx) && Lowerable(s, ctx') && NoReturn(s)
    requires ctx.loop == ctx'.loop || JumpsOk(s, false)
    ensures GenIf(s, ctx, st) == GenIf(s, ctx', st)
    decreases s, 0
  {
    hide GenExpr, GenBlock, GenStmt, Place, Seal, IfThen;
    var (s1, v) := GenExpr(s.cond, st);
    var n := |s1.blocks|;
    ContextFreeBlock(s.thn, ctx, ctx', IfThen(s1, v, s.elif.Some?));
    if s.elif.Some? {
      var s2 := Seal(GenBlock(s.thn, ctx, IfThen(s1, v, true)), n + 1);
      ContextFree(s.elif.value, ctx, ctx', Place(s2, n + 2));
    }
  }

  lemma {:induction false} ContextFreeFor(s: Stmt, ctx: Ctx, ctx': Ctx, st: State)
    requires s.For? && Lowerable(s, ctx) && Lowerable(s, ctx') && NoReturn(s)
    ensures GenFor(s, ctx, st) == GenFor(s, ctx', st)
    decreases s, 0
  {
    hide GenBlock, GenStmt, Place, Emit, GenTest, LoopHead;
    var n := |st.blocks|;
    var in1, in2 := Inner(ctx, n), Inner(ctx', n);
    var b0 := Place(GenTest(s.test, n, LoopHead(st)), n + 1);
    ContextFreeBlock(s.body, in1, in2, b0);
    var s2 := Place(Emit(GenBlock(s.body, in1, b0), Br(n + 2)), n + 2);
    if s.post.Some? {
      ContextFree(s.post.value, in1, in2, s2);
    }
    if s.els.Some? {
      var s3 := Place(Emit(if s.post.Some? then GenStmt(s.post.value, in1, s2) else s2, Br(n)), n + 3);
      ContextFree(s.els.value, in1, in2, s3);
    }
  }

  // ----- the mutable code generator -----

  class Cg {
    var blocks: Graph
    var order: seq<nat>
    var at: nat
    var next: nat
    var scopes: seq<Scope>

    ghost predicate Valid()
      reads this
    {
      at < |blocks| && ScopesOk(scopes)
    }

    ghost function Now(): State
      reads this
      requires at < |blocks|
    {
      Code(blocks, order, at, next)
    }

    /** Nothing appended yet, and no scope open. */
    constructor ()
      ensures Valid() && scopes == [] && Now() == Code([[]], [], 0, 0)
    {
      blocks, order, at, next, scopes := [[]], [], 0, 0, [];
    }

    method CreateBlock() returns (b: nat)
      requires Valid()
      modifies this`blocks
      ensures Valid() && b == old(|blocks|) && Now() == Create(old(Now()), 1)
    {
      b := |blocks|;
      blocks := blocks + [[]];
    }

    method CreateFive() returns (b: nat)
      requires Valid()
      modifies this`blocks
      ensures Valid() && b == old(|blocks|) && Now() == Create(old(Now()), 5)
    {
      b := CreateBlock();
      var _ := CreateBlock();
      var _ := CreateBlock();
      var _ := CreateBlock();
      var _ := CreateBlock();
    }

    method AppendAndPosition(b: nat)
      requires Valid() && b < |blocks|
      modifies this`order, this`at
      ensures Valid() && Now() == Place(old(Now()), b)
    {
      order := order + [b];
      at := b;
    }

    method Build(i: Instr)
      requires Valid()
      modifies this`blocks
      ensures Valid() && Now() == Emit(old(Now()), i)
    {
      blocks := blocks[at := blocks[at] + [i]];
    }

    /** Append block `b` holding nothing but a branch. */
    method BuildLink(b: nat, target: nat)
      requires Valid() && b < |blocks|
      modifies this`blocks, this`order, this`at
      ensures Valid() && Now() == Link(old(Now()), b, target)
    {
      AppendAndPosition(b);
      Build(Br(target));
    }

    /** Finish the current block and continue in `b`. */
    method Goto(i: Instr, b: nat)
      requires Valid() && b < |blocks|
      modifies this`blocks, this`order, this`at
      ensures Valid() && Now() == Place(Emit(old(Now()), i), b)
    {
      Build(i);
      AppendAndPosition(b);
    }

    method NewRegister() returns (r: nat)
      requires Valid()
      modifies this`next
      ensures Valid() && r == old(next) && Now() == Fresh(old(Now()))
    {
      r := next;
      next := next + 1;
    }

    /** Add a branch unless the current block already has a terminator. */
    method SealWith(target: nat)
      requires Valid()
      modifies this`blocks
      ensures Valid() && Now() == Seal(old(Now()), target)
    {
      if !Terminated(blocks[at]) {
        Build(Br(target));
      }
    }

    method GenValue(e: Expr) returns (v: Value)
      requires Valid()
      modifies this`blocks, this`order, this`at, this`next
      ensures Valid() && (Now(), v) == GenExpr(e, old(Now()))
      decreases e, 1
    {
      match e {
        case Literal(b) => v := Const(b);
        case Operand(q) =>
          Build(Ask(q, next));
          var r := NewRegister();
          v := Reg(r);
        case LAnd(_, _) => v := GenAnd(e);
        case LOr(_, _) => v := GenOr(e);
      }
    }

    method GenAnd(e: Expr) returns (v: Value)
      requires Valid() && e.LAnd?
      modifies this`blocks, this`order, this`at, this`next
      ensures Valid() && (Now(), v) == GenExpr(e, old(Now()))
      decreases e, 0
    {
      hide Emit, Place, Create, Link, GenPhi, ScopesOk;
      var n := CreateFive();
      var l := GenValue(e.lhs);
      Goto(CondBr(l, n, n + 1), n);
      var r := GenValue(e.rhs);
      Build(CondBr(r, n + 2, n + 3));
      BuildLink(n + 1, n + 4);
      v := BuildPhi(n, [(n + 1, false), (n + 2, true), (n + 3, false)]);
    }

    method GenOr(e: Expr) returns (v: Value)
      requires Valid() && e.LOr?
      modifies this`blocks, this`order, this`at, this`next
      ensures Valid() && (Now(), v) == GenExpr(e, old(Now()))
      decreases e, 0
    {
      hide Emit, Place, Create, Link, GenPhi, ScopesOk;
      var n := CreateFive();
      var l := GenValue(e.lhs);
      Build(CondBr(l, n, n + 1));
      BuildLink(n, n + 4);
      AppendAndPosition(n + 1);
      var r := GenValue(e.rhs);
      Build(CondBr(r, n + 2, n + 3));
      v := BuildPhi(n, [(n, true), (n + 2, true), (n + 3, false)]);
    }

    method BuildPhi(n: nat, incoming: seq<(nat, bool)>) returns (v: Value)
      requires Valid() && n + 4 < |blocks|
      modifies this`blocks, this`order, this`at, this`next
      ensures Valid() && (Now(), v) == GenPhi(old(Now()), n, incoming)
    {
      BuildLink(n + 2, n + 4);
      BuildLink(n + 3, n + 4);
      AppendAndPosition(n + 4);
      Build(Phi(next, incoming));
      var r := NewRegister();
      v := Reg(r);
    }

    /** The lexically closest loop. */
    method FindLoop() returns (loop: Option<Loop>)
      ensures loop == InnermostLoop(scopes)
    {
      var i := |scopes|;
      assert scopes[..i] == scopes;
      while i > 0
        invariant 0 <= i <= |scopes|
        invariant InnermostLoop(scopes) == InnermostLoop(scopes[..i])
      {
        i := i - 1;
        assert scopes[..i + 1][..i] == scopes[..i];
        if scopes[i].loop.Some? {
          return scopes[i].loop;
        }
      }
      loop := None;
    }

    /** Generate one statement. It fails exactly when a `break` or `continue`
        has no loop; otherwise the code is that of the lexical context, and the
        scope stack is what it was, but for a `defer` noted in its last scope. */
    method CodegenStmt(s: Stmt) returns (ok: bool)
      requires Valid() && scopes != [] && Shaped(s)
      modifies this
      ensures ok == JumpsOk(s, InnermostLoop(old(scopes)).Some?)
      ensures ok ==> Valid() && scopes == Noted(s, old(scopes))
      ensures ok ==> Lowerable(s, Context(old(scopes))) && Now() == GenStmt(s, Context(old(scopes)), old(Now()))
      decreases if NoReturn(s) then 0 else 2, s, 3
    {
      AllDefersContained(scopes);
      ok := true;
      match s {
        case Act(a) => Build(Do(a));
        case ExprStmt(e) => var _ := GenValue(e);
        case Let(x, e) =>
          var v := GenValue(e);
          Build(Store(x, v));
        case Block(ss) => ok := CodegenBlock(ss);
        case Return(ret) => CodegenReturn(ret);
        case Defer(d) =>
          var last := |scopes| - 1;
          scopes := scopes[last := scopes[last].(defers := scopes[last].defers + [d])];
        case Break =>
          var loop := FindLoop();
          if loop.None? {
            return false;
          }
          Build(Br(loop.value.exit));
        case Continue =>
          var loop := FindLoop();
          if loop.None? {
            return false;
          }
          Build(Br(loop.value.post));
        case If(_, _, _, _) => ok := CodegenIf(s);
        case For(_, _, _, _, _) => ok := CodegenFor(s);
      }
    }

    /** The statements in order, then the scope's own defers in reverse. */
    method CodegenBlock(ss: seq<Stmt>) returns (ok: bool)
      requires Valid() && AllShaped(ss)
      modifies this
      ensures ok == AllJumpsOk(ss, InnermostLoop(old(scopes)).Some?)
      ensures ok ==> Valid() && scopes == old(scopes)
      ensures ok ==> AllLowerable(ss, Context(old(scopes))) && Now() == GenBlock(ss, Context(old(scopes)), old(Now()))
      decreases if NoReturns(ss) then 0 else 2, ss, 2
    {
      hide GenStmt, GenList, GenBlock, GenDefers, DefersOf, AllDefers, InnermostLoop, Remaining, NoReturns;
      ghost var outer, ctx, st := scopes, Context(scopes), Now();
      AllDefersContained(scopes);
      Push(scopes, Scope([], None));
      scopes := scopes + [Scope([], None)];
      ListStart(ss, ctx, st);
      assert AllDefers(outer) + [] == AllDefers(outer);
      assert Context(scopes) == ctx;
      var i := 0;
      while i < |ss|
        invariant 0 <= i <= |ss| && Valid()
        invariant scopes == outer + [Scope(DefersOf(ss[..i]), None)] && Context(scopes).loop == ctx.loop
        invariant Remaining(ss, i, ctx, st, Context(scopes), Now())
      {
        ListStep(ss, i, ctx, st, Context(scopes), Now());
        NoReturnsAt(ss, i);
        ghost var before := DefersOf(ss[..i]);
        Push(outer, Scope(before, None));
        ok := CodegenStmt(ss[i]);
        if !ok {
          return;
        }
        DefersOfNext(ss, i);
        Push(outer, Scope(DefersOf(ss[..i + 1]), None));
        ExtendContext(outer, before, ss[i], scopes, DefersOf(ss[..i + 1]));
        i := i + 1;
      }
      assert ss[..i] == ss;
      DefersAmong(ss);
      ListDone(ss, ctx, st, Context(scopes), Now());
      EmitDefers(|scopes| - 1, ss);
      assert scopes[..|scopes| - 1] == outer;
      scopes := scopes[..|scopes| - 1];
      ok := true;
    }

    /** A scope's deferred statements, last one first. All of them come from `within`. */
    method EmitDefers(i: nat, ghost within: seq<Stmt>)
      requires Valid() && i < |scopes|
      requires forall j :: 0 <= j < |scopes[i].defers| ==> Defer(scopes[i].defers[j]) in within
      modifies this
      ensures Valid() && scopes == old(scopes)
      ensures Now() == GenDefers(scopes[i].defers, old(Now()))
      decreases 0, within, 1
    {
      hide GenStmt;
      ghost var all := scopes;
      ghost var st := Now();
      AllDefersContained(scopes);
      var ds := scopes[i].defers;
      var j := |ds|;
      assert ds[..j] == ds;
      while j > 0
        invariant 0 <= j <= |ds| && Valid() && scopes == all
        invariant GenDefers(ds, st) == GenDefers(ds[..j], Now())
      {
        j := j - 1;
        assert ds[..j + 1][..j] == ds[..j] && Defer(ds[j]) in within;
        assert Contained(ds[j]);
        JumpsMore(ds[j]);
        ghost var m :| 0 <= m < |within| && within[m] == Defer(ds[j]);
        assert ds[j] < within[m];
        ghost var before := Now();
        var ok := CodegenStmt(ds[j]);
        ContextFree(ds[j], Context(all), TOP, before);
      }
    }

    method CodegenReturn(ret: Option<Expr>)
      requires Valid() && scopes != []
      modifies this
      ensures Valid() && scopes == old(scopes)
      ensures Lowerable(Return(ret), Context(scopes)) && Now() == GenStmt(Return(ret), Context(scopes), old(Now()))
      decreases 2, Return(ret), 2
    {
      hide GenExpr, GenDefers, AllDefers, InnermostLoop;
      AllDefersContained(scopes);
      var v: Option<Value> := None;
      if ret.Some? {
        var value := GenValue(ret.value);
        v := Some(value);
      }
      EmitAllDefers();
      Build(Ret(v));
    }

    /** The deferred statements of every open scope, innermost scope first. */
    method EmitAllDefers()
      requires Valid()
      modifies this
      ensures Valid() && scopes == old(scopes) && AllContained(AllDefers(scopes))
      ensures Now() == GenDefers(AllDefers(scopes), old(Now()))
      decreases 1
    {
      hide GenDefers;
      ghost var all, st := scopes, Now();
      AllDefersContained(scopes);
      var i := |scopes|;
      assert scopes[..i] == scopes;
      while i > 0
        invariant 0 <= i <= |scopes| && Valid() && scopes == all
        invariant AllContained(AllDefers(scopes[..i]))
        invariant GenDefers(AllDefers(scopes), st) == GenDefers(AllDefers(scopes[..i]), Now())
      {
        i := i - 1;
        assert scopes[..i + 1][..i] == scopes[..i];
        AllDefersContained(scopes[..i]);
        DefersConcat(AllDefers(scopes[..i]), scopes[i].defers, Now());
        EmitDefers(i, Deferred(scopes[i].defers));
      }
      NoDefers(Now());
    }

    method CodegenIf(s: Stmt) returns (ok: bool)
      requires Valid() && scopes != [] && s.If? && Shaped(s)
      modifies this
      ensures ok == JumpsOk(s, InnermostLoop(old(scopes)).Some?)
      ensures ok ==> Valid() && scopes == old(scopes)
      ensures ok ==> Lowerable(s, Context(old(scopes))) && Now() == GenStmt(s, Context(old(scopes)), old(Now()))
      decreases if NoReturn(s) then 0 else 2, s, 2
    {
      hide GenIf, AllDefers, InnermostLoop;
      AllDefersContained(scopes);
      if s.init.Some? {
        Push(scopes, Scope([], None));
        ghost var outer := scopes;
        scopes := scopes + [Scope([], None)];
        assert Context(scopes) == Context(outer);
        var _ := CodegenStmt(s.init.value);
        ok := CodegenRestOfIf(s);
        if ok {
          assert scopes[..|scopes| - 1] == outer;
          scopes := scopes[..|scopes| - 1];
        }
      } else {
        ok := CodegenRestOfIf(s);
      }
    }

    /** Everything but the initialiser. */
    method CodegenRestOfIf(s: Stmt) returns (ok: bool)
      requires Valid() && scopes != [] && s.If? && Shaped(s)
      modifies this
      ensures ok == JumpsOk(s, InnermostLoop(old(scopes)).Some?)
      ensures ok ==> Valid() && scopes == old(scopes)
      ensures ok ==> Lowerable(s, Context(old(scopes))) && Now() == GenIf(s, Context(old(scopes)), old(Now()))
      decreases if NoReturn(s) then 0 else 2, s, 1
    {
      hide GenExpr, GenBlock, GenStmt, Seal, Place, Emit, AllDefers, InnermostLoop;
      AllDefersContained(scopes);
      var v := GenValue(s.cond);
      var join := CodegenCondition(v, s.elif.Some?);
      ok := CodegenBlock(s.thn);
      if !ok {
        return;
      }
      SealWith(join);
      if s.elif.Some? {
        AppendAndPosition(join + 1);
        ok := CodegenStmt(s.elif.value);
        if !ok {
          return;
        }
        SealWith(join);
      }
      AppendAndPosition(join);
    }

    /** Create the blocks of an `if`, branch on its condition and enter `then`. */
    method CodegenCondition(v: Value, hasElse: bool) returns (join: nat)
      requires Valid()
      modifies this`blocks, this`order, this`at
      ensures Valid() && Now() == IfThen(old(Now()), v, hasElse) && join == old(|blocks|) + 1
    {
      var thn := CreateBlock();
      join := CreateBlock();
      if hasElse {
        var els := CreateBlock();
        Build(CondBr(v, thn, els));
      } else {
        Build(CondBr(v, thn, join));
      }
      AppendAndPosition(thn);
    }

    method CodegenFor(s: Stmt) returns (ok: bool)
      requires Valid() && scopes != [] && s.For? && Shaped(s)
      modifies this
      ensures ok == JumpsOk(s, InnermostLoop(old(scopes)).Some?)
      ensures ok ==> Valid() && scopes == old(scopes)
      ensures ok ==> Lowerable(s, Context(old(scopes))) && Now() == GenStmt(s, Context(old(scopes)), old(Now()))
      decreases if NoReturn(s) then 0 else 2, s, 2
    {
      hide GenFor, AllDefers, InnermostLoop;
      AllDefersContained(scopes);
      Push(scopes, Scope([], None));
      ghost var outer := scopes;
      scopes := scopes + [Scope([], None)];
      assert Context(scopes) == Context(outer);
      if s.init.Some? {
        var _ := CodegenStmt(s.init.value);
      }
      ok := CodegenLoop(s, outer);
    }

    /** The loop itself, in the scope opened for it, which is closed at the end. */
    method CodegenLoop(s: Stmt, ghost outer: seq<Scope>) returns (ok: bool)
      requires Valid() && s.For? && Shaped(s) && ScopesOk(outer) && scopes == outer + [Scope([], None)]
      modifies this
      ensures ok == JumpsOk(s, InnermostLoop(outer).Some?)
      ensures ok ==> Valid() && scopes == outer
      ensures ok ==> Lowerable(s, Context(outer)) && Now() == GenFor(s, Context(outer), old(Now()))
      decreases if NoReturn(s) then 0 else 2, s, 1
    {
      hide GenBlock, GenStmt, GenTest, LoopHead, Place, Emit, AllDefers, InnermostLoop, ScopesOk;
      AllDefersContained(outer);
      var n := OpenLoop(outer);
      ghost var inner := scopes;
      BuildTest(s.test, n);
      AppendAndPosition(n + 1);
      ok := CodegenBlock(s.body);
      if !ok {
        return;
      }
      Goto(Br(n + 2), n + 2);
      if s.post.Some? {
        var _ := CodegenStmt(s.post.value);
      }
      Goto(Br(n), n + 3);
      if s.els.Some? {
        ok := CodegenStmt(s.els.value);
        if !ok {
          return;
        }
      }
      CloseLoop(n, outer);
    }

    /** Create the five blocks, note the loop in its scope and enter it. */
    method OpenLoop(ghost outer: seq<Scope>) returns (n: nat)
      requires Valid() && ScopesOk(outer) && scopes == outer + [Scope([], None)]
      modifies this
      ensures Valid() && n == old(|blocks|) && Now() == LoopHead(old(Now()))
      ensures scopes == outer + [Scope([], Some(Loop(n + 2, n + 4)))]
      ensures Context(scopes) == Inner(Context(outer), n)
    {
      hide AllDefers, InnermostLoop;
      n := CreateFive();
      var loop := Loop(n + 2, n + 4);
      Push(outer, Scope([], Some(loop)));
      scopes := scopes[|scopes| - 1 := scopes[|scopes| - 1].(loop := Some(loop))];
      assert scopes == outer + [Scope([], Some(loop))];
      assert AllDefers(outer) + [] == AllDefers(outer);
      Build(Br(n));
      AppendAndPosition(n);
    }

    method CloseLoop(n: nat, ghost outer: seq<Scope>)
      requires Valid() && n + 4 < |blocks| && |scopes| == |outer| + 1 && scopes[..|outer|] == outer
      modifies this
      ensures Valid() && Now() == Place(Emit(old(Now()), Br(n + 4)), n + 4) && scopes == outer
    {
      Build(Br(n + 4));
      AppendAndPosition(n + 4);
      scopes := scopes[..|scopes| - 1];
    }

    method BuildTest(test: Option<Expr>, n: nat)
      requires Valid()
      modifies this`blocks, this`order, this`at, this`next
      ensures Valid() && Now() == GenTest(test, n, old(Now()))
    {
      if test.Some? {
        var v := GenValue(test.value);
        Build(CondBr(v, n + 1, n + 3));
      } else {
        Build(Br(n + 1));
      }
    }

    /** A whole function: an entry block, the body in a block of its own, the
        entry's branch and, where the body may fall off its end, a return. */
    method CodegenFn(body: seq<Stmt>, void: bool) returns (ok: bool)
      requires Valid() && scopes == [] && Now() == Code([[]], [], 0, 0) && AllShaped(body)
      modifies this
      ensures ok == AllJumpsOk(body, false)
      ensures ok ==> Valid() && scopes == [] && AllLowerable(body, TOP) && Now() == GenFn(body, void)
    {
      hide GenBlock;
      scopes := [Scope([], None)];
      assert Context(scopes) == TOP by {
        Push([], Scope([], None));
        assert [] + scopes == scopes;
      }
      var entry := at;
      AppendAndPosition(entry);
      var join := CreateBlock();
      AppendAndPosition(join);
      assert Now() == PROLOGUE;
      ok := CodegenBlock(body);
      if !ok {
        return;
      }
      var resume := at;
      at := entry;
      Build(Br(join));
      at := resume;
      if !Terminated(blocks[resume]) {
        Build(Ret(if void then None else Some(Const(false))));
      }
      scopes := scopes[..|scopes| - 1];
    }
  }

  /** The scope stack after a statement. */
  function Noted(s: Stmt, scopes: seq<Scope>): seq<Scope>
    requires scopes != []
  {
    var last := |scopes| - 1;
    if s.Defer? then scopes[last := scopes[last].(defers := scopes[last].defers + [s.d])] else scopes
  }

  ghost function Deferred(ds: seq<Stmt>): (r: seq<Stmt>)
    ensures forall j :: 0 <= j < |ds| ==> Defer(ds[j]) in r
  {
    var r := seq(|ds|, j requires 0 <= j < |ds| => Defer(ds[j]));
    assert forall j :: 0 <= j < |ds| ==> r[j] == Defer(ds[j]);
    r
  }

  /** After `i` statements in context `ctx'` at `st'`, the rest still yields the whole block's code. */
  ghost predicate Remaining(ss: seq<Stmt>, i: nat, ctx: Ctx, st: State, ctx': Ctx, st': State)
    requires i <= |ss|
  {
    && AllShaped(ss[i..]) && AllContained(ctx.defers) && AllContained(ctx'.defers) && ctx.loop == ctx'.loop
    && AllShaped(ss) && AllJumpsOk(ss, ctx.loop.Some?) == AllJumpsOk(ss[i..], ctx.loop.Some?)
    && (AllJumpsOk(ss, ctx.loop.Some?) ==> GenList(ss, ctx, st) == GenList(ss[i..], ctx', st'))
  }

  lemma ListStart(ss: seq<Stmt>, ctx: Ctx, st: State)
    requires AllShaped(ss) && AllContained(ctx.defers)
    ensures Remaining(ss, 0, ctx, st, ctx, st) && DefersOf(ss[..0]) == []
  {
    assert ss[0..] == ss;
  }

  /** A noted `defer` extends the context. */
  lemma ExtendContext(outer: seq<Scope>, before: seq<Stmt>, s: Stmt, scopes: seq<Scope>, after: seq<Stmt>)
    requires scopes == Noted(s, outer + [Scope(before, None)])
    requires after == before + if s.Defer? then [s.d] else []
    ensures scopes == outer + [Scope(after, None)]
    ensures var ctx := Context(outer + [Scope(before, None)]);
            Context(scopes) == if s.Defer? then ctx.(defers := ctx.defers + [s.d]) else ctx
  {
    hide AllDefers, InnermostLoop;
    Push(outer, Scope(before, None));
    Push(outer, Scope(after, None));
    assert before + [] == before;
    if s.Defer? {
      assert AllDefers(outer) + after == AllDefers(outer) + before + [s.d];
    }
  }

  lemma {:induction false} NoReturnsAt(ss: seq<Stmt>, i: nat)
    requires i < |ss|
    ensures NoReturns(ss) ==> NoReturn(ss[i])
  {
    if i > 0 {
      NoReturnsAt(ss[1..], i - 1);
    }
  }

  lemma NoDefers(st: State)
    ensures AllDefers([]) == [] && GenDefers([], st) == st
  {
  }

  lemma ListStep(ss: seq<Stmt>, i: nat, ctx: Ctx, st: State, ctx': Ctx, st': State)
    requires i < |ss| && Remaining(ss, i, ctx, st, ctx', st')
    ensures Shaped(ss[i])
    ensures !JumpsOk(ss[i], ctx.loop.Some?) ==> !AllJumpsOk(ss, ctx.loop.Some?)
    ensures JumpsOk(ss[i], ctx.loop.Some?) && !ss[i].Defer? ==>
              Lowerable(ss[i], ctx') && Remaining(ss, i + 1, ctx, st, ctx', GenStmt(ss[i], ctx', st'))
    ensures ss[i].Defer? ==>
              && Contained(ss[i].d) && Lowerable(ss[i], ctx')
              && Remaining(ss, i + 1, ctx, st, ctx'.(defers := ctx'.defers + [ss[i].d]), GenStmt(ss[i], ctx', st'))
  {
    assert ss[i..][1..] == ss[i + 1..] && ss[i..][0] == ss[i];
    assert Shaped(ss[i..][0]);
  }

  lemma ListDone(ss: seq<Stmt>, ctx: Ctx, st: State, ctx': Ctx, st': State)
    requires Remaining(ss, |ss|, ctx, st, ctx', st')
    ensures AllLowerable(ss, ctx) && AllContained(DefersOf(ss)) && GenBlock(ss, ctx, st) == GenDefers(DefersOf(ss), st')
  {
    assert ss[|ss|..] == [];
    BlockIsListThenDefers(ss, ctx, st);
  }

  lemma {:induction false} DefersOfNext(ss: seq<Stmt>, i: nat)
    requires i < |ss|
    ensures DefersOf(ss[..i + 1]) == DefersOf(ss[..i]) + if ss[i].Defer? then [ss[i].d] else []
  {
    if i == 0 {
      assert ss[..1][1..] == [] && ss[..0] == [];
    } else {
      DefersOfNext(ss[1..], i - 1);
      assert ss[..i + 1][1..] == ss[1..][..i] && ss[..i][1..] == ss[1..][..i - 1];
    }
  }

  lemma {:induction false} DefersAmong(ss: seq<Stmt>)
    ensures forall j :: 0 <= j < |DefersOf(ss)| ==> Defer(DefersOf(ss)[j]) in ss
  {
    if ss != [] {
      DefersAmong(ss[1..]);
      assert forall s :: s in ss[1..] ==> s in ss;
    }
  }

  lemma {:induction false} JumpsMore(s: Stmt)
    ensures JumpsOk(s, false) ==> JumpsOk(s, true)
    decreases s, 1
  {
    match s
    case Block(ss) => AllJumpsMore(ss);
    case If(_, _, thn, elif) =>
      AllJumpsMore(thn);
      if elif.Some? {
        JumpsMore(elif.value);
      }
    case _ =>
  }

  lemma {:induction false} AllJumpsMore(ss: seq<Stmt>)
    ensures AllJumpsOk(ss, false) ==> AllJumpsOk(ss, true)
    decreases ss, 0
  {
    if ss != [] {
      JumpsMore(ss[0]);
      AllJumpsMore(ss[1..]);
    }
  }
}
