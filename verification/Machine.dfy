// The target: basic blocks of instructions, executed up to the first
// terminator of each block, and never past it.
module Machine {
  import opened Wrappers
  import opened Ast

  /** What a run can be observed to do. */
  datatype Event = Did(a: nat) | Asked(q: nat, answer: bool) | Wrote(x: nat, value: bool)

  /** The answer of an effectful operand may depend on everything that happened before. */
  type Oracle = (seq<Event>, nat) -> bool

  datatype Value = Const(b: bool) | Reg(r: nat)

  datatype Instr =
    | Do(a: nat)
    | Ask(q: nat, dst: nat)
    | Store(x: nat, v: Value)
    | Phi(dst: nat, incoming: seq<(nat, bool)>)
    | Br(target: nat)
    | CondBr(v: Value, onTrue: nat, onFalse: nat)
    | Ret(result: Option<Value>)

  predicate IsTerm(i: Instr) {
    i.Br? || i.CondBr? || i.Ret?
  }

  type Graph = seq<seq<Instr>>

  type Env = map<nat, bool>

  datatype Config =
    | Run(b: nat, k: nat, prev: nat, env: Env, t: seq<Event>)
    | Halt(result: Option<bool>, t: seq<Event>)
    | Stuck

  function ValueOf(v: Value, env: Env): Option<bool> {
    match v
    case Const(b) => Some(b)
    case Reg(r) => if r in env then Some(env[r]) else None
  }

  function Incoming(inc: seq<(nat, bool)>, prev: nat): Option<bool> {
    if inc == [] then None
    else if inc[0].0 == prev then Some(inc[0].1)
    else Incoming(inc[1..], prev)
  }

  function Step(o: Oracle, g: Graph, c: Config): Config {
    if !c.Run? then c
    else if c.b >= |g| || c.k >= |g[c.b]| then Stuck
    else Execute(o, g[c.b][c.k], c)
  }

  /** Reading an undefined register, or entering a phi from a block it does not list, is `Stuck`. */
  function Execute(o: Oracle, i: Instr, c: Config): Config
    requires c.Run?
  {
    match i
    case Do(a) => c.(k := c.k + 1, t := c.t + [Did(a)])
    case Ask(q, dst) =>
      var answer := o(c.t, q);
      c.(k := c.k + 1, env := c.env[dst := answer], t := c.t + [Asked(q, answer)])
    case Store(x, v) =>
      (match ValueOf(v, c.env)
       case None => Stuck
       case Some(b) => c.(k := c.k + 1, t := c.t + [Wrote(x, b)]))
    case Phi(dst, inc) =>
      (match Incoming(inc, c.prev)
       case None => Stuck
       case Some(b) => c.(k := c.k + 1, env := c.env[dst := b]))
    case Br(target) => Enter(target, c)
    case CondBr(v, onTrue, onFalse) =>
      (match ValueOf(v, c.env)
       case None => Stuck
       case Some(b) => Enter(if b then onTrue else onFalse, c))
    case Ret(None) => Halt(None, c.t)
    case Ret(Some(v)) =>
      (match ValueOf(v, c.env)
       case None => Stuck
       case Some(b) => Halt(Some(b), c.t))
  }

  function Enter(target: nat, c: Config): Config
    requires c.Run?
  {
    Run(target, 0, c.b, c.env, c.t)
  }

  function Steps(o: Oracle, g: Graph, c: Config, n: nat): Config
    decreases n
  {
    if n == 0 then c else Steps(o, g, Step(o, g, c), n - 1)
  }

  lemma {:induction false} StepsAdd(o: Oracle, g: Graph, c: Config, m: nat, n: nat)
    ensures Steps(o, g, c, m + n) == Steps(o, g, Steps(o, g, c, m), n)
    decreases m
  {
    if m > 0 {
      StepsAdd(o, g, Step(o, g, c), m - 1, n);
    }
  }

  /** A configuration that is not running never changes again. */
  lemma {:induction false} Absorbing(o: Oracle, g: Graph, c: Config, n: nat)
    requires !c.Run?
    ensures Steps(o, g, c, n) == c
    decreases n
  {
    if n > 0 {
      Absorbing(o, g, c, n - 1);
    }
  }

  /** Running after m steps implies running after every smaller number of steps. */
  lemma RunningEarlier(o: Oracle, g: Graph, c: Config, n: nat, m: nat)
    requires n <= m && Steps(o, g, c, m).Run?
    ensures Steps(o, g, c, n).Run?
  {
    StepsAdd(o, g, c, n, m - n);
    if !Steps(o, g, c, n).Run? {
      Absorbing(o, g, Steps(o, g, c, n), m - n);
    }
  }

  /** Two runs from the same place that both stop have stopped in the same way. */
  lemma Deterministic(o: Oracle, g: Graph, c: Config, m: nat, n: nat)
    requires !Steps(o, g, c, m).Run? && !Steps(o, g, c, n).Run?
    ensures Steps(o, g, c, m) == Steps(o, g, c, n)
  {
    if m <= n {
      StepsAdd(o, g, c, m, n - m);
      Absorbing(o, g, Steps(o, g, c, m), n - m);
    } else {
      StepsAdd(o, g, c, n, m - n);
      Absorbing(o, g, Steps(o, g, c, n), m - n);
    }
  }

  /** The configuration did not arrive by walking past a terminator. */
  predicate FellIn(g: Graph, c: Config) {
    c.Run? ==> c.k == 0 || (c.b < |g| && c.k <= |g[c.b]| && !IsTerm(g[c.b][c.k - 1]))
  }

  lemma {:induction false} FellInKept(o: Oracle, g: Graph, c: Config, n: nat)
    requires FellIn(g, c)
    ensures FellIn(g, Steps(o, g, c, n))
    decreases n
  {
    if n > 0 {
      FellInKept(o, g, Step(o, g, c), n - 1);
    }
  }
}
