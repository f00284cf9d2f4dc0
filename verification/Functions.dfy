// Whole functions: the entry and join blocks, the body, and the implicit
// return. The main theorem relates runs of the blocks to the source semantics.
module Functions {
  import opened Wrappers
  import opened Ast
  import opened Machine
  import opened Source
  import opened Lower
  import opened Frames
  import opened Simulation

  /** `entry` is block 0 and holds only allocations, `join` is block 1. */
  const PROLOGUE: State := Code([[], []], [0, 1], 1, 0)

  const START := Run(0, 0, 0, map[], [])

  function GenFn(body: seq<Stmt>, void: bool): State
    requires AllLowerable(body, TOP)
  {
    Epilogue(GenBlock(body, TOP, PROLOGUE), void)
  }

  /** The entry block receives its branch last, and a body that may fall off
      its end an implicit return. */
  function Epilogue(s: State, void: bool): State {
    var s1 := s.(blocks := s.blocks[0 := s.blocks[0] + [Br(1)]]);
    if Terminated(s1.blocks[s1.at]) then s1
    else Emit(s1, Ret(if void then None else Some(Const(false))))
  }

  lemma EpilogueShape(body: seq<Stmt>, void: bool)
    requires AllLowerable(body, TOP)
    ensures var s := GenBlock(body, TOP, PROLOGUE); var g := GenFn(body, void).blocks;
      && Extends(s.blocks, g) && g[0] == [Br(1)] && s.at != 0
      && (!Terminated(s.blocks[s.at]) ==>
            s.blocks[s.at] + [Ret(if void then None else Some(Const(false)))] <= g[s.at])
  {
    FrameBlock(body, TOP, PROLOGUE);
  }

  /** A function run answers the source execution with the same fuel. */
  lemma {:induction false} FnRun(body: seq<Stmt>, void: bool, o: Oracle, fuel: nat) returns (n: nat)
    requires AllLowerable(body, TOP)
    ensures match ExecFn(body, void, o, fuel)
            case None => Steps(o, GenFn(body, void).blocks, START, fuel).Run?
            case Some((v, t)) => Steps(o, GenFn(body, void).blocks, START, n) == Halt(v, t)
  {
    hide Extends, GenFn, GenBlock, ExecBlock, Steps;
    var s := GenBlock(body, TOP, PROLOGUE);
    var g := GenFn(body, void).blocks;
    EpilogueShape(body, void);
    var c := Run(1, 0, 0, map[], []);
    One(o, g, START);
    assert g[0][0] == Br(1);
    assert Steps(o, g, START, 1) == c;
    var w := SimBlock(body, TOP, PROLOGUE, o, g, c, fuel);
    var r := ExecBlock(body, o, [], fuel);
    n := 0;
    if r.None? {
      StepsAdd(o, g, START, 1, fuel);
      RunningEarlier(o, g, START, fuel, 1 + fuel);
    } else {
      FellInKept(o, g, c, w.n);
      Then(o, g, START, 1, c, w.n, w.c);
      One(o, g, w.c);
      LastStep(r.value, s, void, o, g, w);
      Then(o, g, START, 1 + w.n, w.c, 1, Step(o, g, w.c));
      n := 1 + w.n + 1;
      assert Steps(o, g, START, n) == Step(o, g, w.c);
    }
  }

  lemma LastStep(r: Result, s: State, void: bool, o: Oracle, g: Graph, w: Ran)
    requires r.out.Normal? || r.out.Returned?
    requires r.out.Normal? ==> AtEnd(w.c, s) && w.c.t == r.t
    requires r.out.Returned? ==> Returning(w, r.out.v, TOP, g, r.t)
    requires FellIn(g, w.c) && Extends(s.blocks, g)
    requires !Terminated(s.blocks[s.at]) ==>
               s.blocks[s.at] + [Ret(if void then None else Some(Const(false)))] <= g[s.at]
    ensures Step(o, g, w.c) ==
            Halt(if r.out.Returned? then r.out.v else if void then None else Some(false), r.t)
  {
    if r.out.Returned? {
      Fetch(w.s, Ret(w.v), o, g, w.c);
    } else if Terminated(s.blocks[s.at]) {
      assert false;
    }
  }

  /** The compiled function stops with a result and a trace exactly when the
      source does, whatever the operands answer. */
  lemma Correct(body: seq<Stmt>, void: bool, o: Oracle, v: Option<bool>, t: seq<Event>)
    requires AllLowerable(body, TOP)
    ensures (exists fuel :: ExecFn(body, void, o, fuel) == Some((v, t))) <==>
            (exists n :: Steps(o, GenFn(body, void).blocks, START, n) == Halt(v, t))
  {
    var g := GenFn(body, void).blocks;
    if fuel :| ExecFn(body, void, o, fuel) == Some((v, t)) {
      var n := FnRun(body, void, o, fuel);
      assert Steps(o, g, START, n) == Halt(v, t);
    }
    if n :| Steps(o, g, START, n) == Halt(v, t) {
      var m := FnRun(body, void, o, n);
      Deterministic(o, g, START, m, n);
      assert ExecFn(body, void, o, n) == Some((v, t));
    }
  }

  /** No run reads an undefined register, enters a phi from an unlisted block,
      branches outside the graph or walks off the end of a block. */
  lemma NeverStuck(body: seq<Stmt>, void: bool, o: Oracle, n: nat)
    requires AllLowerable(body, TOP)
    ensures !Steps(o, GenFn(body, void).blocks, START, n).Stuck?
  {
    var g := GenFn(body, void).blocks;
    var m := FnRun(body, void, o, n);
    if Steps(o, g, START, n).Stuck? {
      Deterministic(o, g, START, m, n);
    }
  }
}
