// The allocator's byte counters under concurrency: every thread adds to the
// current count, reads it, and raises the peak in a compare-exchange loop.
module Peak {

  import opened Wrappers

  /** Where a thread is: between calls, after the addition, about to raise the peak to `v`, or in the
    * loop expecting the peak to be `t`. */
  datatype Thread = Idle | Added | Raising(v: nat) | Trying(v: nat, t: nat)

  /** `highest` is the largest the current count has been; `proposed` and `completed` are the values
    * that calls have been made with, and that finished calls were made with. */
  datatype State = State(
    current: nat, peak: nat, threads: seq<Thread>,
    highest: nat, proposed: set<nat>, completed: set<nat>)

  datatype Action = Allocate(size: nat) | Deallocate(size: nat) | ReadCurrent | Load | Exchange(spurious: bool)

  /** Thread `thread` takes an atomic step. */
  datatype Step = Step(thread: nat, action: Action)

  function Max(v: nat, t: nat): nat {
    if v > t then v else t
  }

  function Init(n: nat): State {
    State(0, 0, seq(n, _ => Idle), 0, {}, {})
  }

  /** A weak exchange may fail although the expected value is there; failing reads the value there is. */
  function Next(s: State, step: Step): Option<State> {
    var i := step.thread;
    if i >= |s.threads| then None
    else
      var here := s.threads[i];
      match step.action
      case Allocate(size) =>
        if !here.Idle? then None
        else
          var sum := s.current + size;
          Some(s.(current := sum, highest := Max(sum, s.highest), threads := s.threads[i := Added]))
      case Deallocate(size) =>
        if !here.Idle? || size > s.current then None else Some(s.(current := s.current - size))
      case ReadCurrent =>
        if !here.Added? then None
        else Some(s.(threads := s.threads[i := Raising(s.current)], proposed := s.proposed + {s.current}))
      case Load =>
        if !here.Raising? then None else Some(s.(threads := s.threads[i := Trying(here.v, s.peak)]))
      case Exchange(spurious) =>
        if !here.Trying? then None
        else if s.peak == here.t && !spurious then
          Some(s.(peak := Max(here.v, here.t), completed := s.completed + {here.v},
                  threads := s.threads[i := Idle]))
        else Some(s.(threads := s.threads[i := Trying(here.v, s.peak)]))
  }

  function Run(s: State, steps: seq<Step>): Option<State>
    decreases |steps|
  {
    if steps == [] then Some(s)
    else
      var s' := Next(s, steps[0]);
      if s'.None? then None else Run(s'.value, steps[1..])
  }

  /** A value that was there from the start or that a call proposed. */
  predicate Known(s: State, v: nat) {
    v == 0 || v in s.proposed
  }

  ghost predicate ThreadOk(s: State, t: Thread) {
    match t
    case Idle => true
    case Added => true
    case Raising(v) => v in s.proposed
    case Trying(v, t) => v in s.proposed && t <= s.peak && Known(s, t)
  }

  predicate Busy(t: Thread, v: nat) {
    (t.Raising? && t.v == v) || (t.Trying? && t.v == v)
  }

  ghost predicate Inv(s: State) {
    && s.current <= s.highest
    && Known(s, s.peak)
    && (forall v | v in s.proposed :: v <= s.highest)
    && s.completed <= s.proposed
    && (forall v | v in s.completed :: v <= s.peak)
    && (forall v | v in s.proposed :: v in s.completed || exists i | 0 <= i < |s.threads| :: Busy(s.threads[i], v))
    && (forall i | 0 <= i < |s.threads| :: ThreadOk(s, s.threads[i]))
  }

  lemma InitInv(n: nat)
    ensures Inv(Init(n))
  {
  }

  /** Whoever was busy with a value still is, or has completed. */
  lemma BusyKept(s: State, step: Step, s': State, v: nat, i: nat)
    requires Next(s, step) == Some(s') && i < |s.threads| && Busy(s.threads[i], v)
    ensures v in s'.completed || (|s'.threads| == |s.threads| && Busy(s'.threads[i], v))
  {
  }

  lemma NextProposed(s: State, step: Step, s': State)
    requires Inv(s) && Next(s, step) == Some(s')
    ensures forall v | v in s'.proposed ::
              v in s'.completed || exists i | 0 <= i < |s'.threads| :: Busy(s'.threads[i], v)
  {
    forall v | v in s'.proposed
      ensures v in s'.completed || exists i | 0 <= i < |s'.threads| :: Busy(s'.threads[i], v)
    {
      if v in s.completed {
      } else if v in s.proposed {
        var i :| 0 <= i < |s.threads| && Busy(s.threads[i], v);
        BusyKept(s, step, s', v, i);
      } else {
        assert Busy(s'.threads[step.thread], v);
      }
    }
  }

  lemma NextInv(s: State, step: Step, s': State)
    requires Inv(s) && Next(s, step) == Some(s')
    ensures Inv(s') && s.peak <= s'.peak && s.highest <= s'.highest
    ensures s.completed <= s'.completed && s.proposed <= s'.proposed
  {
    NextProposed(s, step, s');
    assert ThreadOk(s, s.threads[step.thread]);
  }

  /** Over any interleaving: the peak never falls, nothing completed is forgotten, and every invariant is kept. */
  lemma {:induction false} RunInv(s: State, steps: seq<Step>, s': State)
    requires Inv(s) && Run(s, steps) == Some(s')
    ensures Inv(s') && s.peak <= s'.peak && s.highest <= s'.highest && s.completed <= s'.completed
    decreases |steps|
  {
    if steps != [] {
      var mid := Next(s, steps[0]).value;
      NextInv(s, steps[0], mid);
      RunInv(mid, steps[1..], s');
    }
  }

  /** At every point of every run, the peak is at least every value a finished call passed in, at most
    * the largest count there has been, and either zero or a proposed value. */
  lemma PeakBounds(n: nat, steps: seq<Step>, s: State)
    requires Run(Init(n), steps) == Some(s)
    ensures forall v | v in s.completed :: v <= s.peak
    ensures s.peak == 0 || s.peak in s.proposed
    ensures s.peak <= s.highest
  {
    InitInv(n);
    RunInv(Init(n), steps, s);
  }

  /** Once no call is under way, the peak is exactly the largest value proposed. */
  lemma SettledPeak(n: nat, steps: seq<Step>, s: State)
    requires Run(Init(n), steps) == Some(s)
    requires forall i | 0 <= i < |s.threads| :: s.threads[i].Idle? || s.threads[i].Added?
    ensures forall v | v in s.proposed :: v <= s.peak
    ensures if s.proposed == {} then s.peak == 0 else s.peak in s.proposed
  {
    InitInv(n);
    RunInv(Init(n), steps, s);
    forall v | v in s.proposed ensures v <= s.peak {
      assert v in s.completed;
    }
    if s.proposed != {} {
      var v :| v in s.proposed;
      assert v <= s.peak;
    }
  }

  // The bytes in use

  /** What a step adds to the bytes in use. */
  function Change(action: Action): int {
    match action
    case Allocate(size) => size
    case Deallocate(size) => 0 - size
    case _ => 0
  }

  /** The bytes in use after `steps`: what they allocate less what they give back. */
  function InUse(steps: seq<Step>): int
    decreases |steps|
  {
    if steps == [] then 0 else Change(steps[0].action) + InUse(steps[1..])
  }

  /** `m` is the largest number of bytes in use at any point of `steps`. */
  ghost predicate MostInUse(steps: seq<Step>, m: int) {
    && (exists k :: 0 <= k <= |steps| && m == InUse(steps[..k]))
    && forall k | 0 <= k <= |steps| :: InUse(steps[..k]) <= m
  }

  /** Some step of `steps` reads `v` bytes in use, to raise the peak to. */
  ghost predicate Reads(steps: seq<Step>, v: int) {
    exists k :: 0 <= k < |steps| && steps[k].action.ReadCurrent? && v == InUse(steps[..k])
  }

  lemma InUseFirst(steps: seq<Step>, k: nat)
    requires 0 < k <= |steps|
    ensures InUse(steps[..k]) == Change(steps[0].action) + InUse(steps[1..][..k - 1])
  {
    assert steps[..k][1..] == steps[1..][..k - 1];
  }

  lemma NextCounts(s: State, step: Step, s': State)
    requires Next(s, step) == Some(s')
    ensures s'.current == s.current + Change(step.action)
    ensures s.current <= s.highest ==> s'.highest == if s'.current > s.highest then s'.current else s.highest
    ensures s'.proposed == s.proposed + if step.action.ReadCurrent? then {s.current} else {}
  {
  }

  lemma {:induction false} RunCounts(s: State, steps: seq<Step>, s': State)
    requires Run(s, steps) == Some(s') && s.current <= s.highest
    ensures s'.current == s.current + InUse(steps)
    ensures s.highest <= s'.highest
    ensures forall k | 0 <= k <= |steps| :: s.current + InUse(steps[..k]) <= s'.highest
    ensures s'.highest == s.highest || exists k :: 0 <= k <= |steps| && s'.highest == s.current + InUse(steps[..k])
    decreases |steps|
  {
    if steps != [] {
      var m := Next(s, steps[0]).value;
      hide Next;
      NextCounts(s, steps[0], m);
      RunCounts(m, steps[1..], s');
      var here := Change(steps[0].action);
      forall k | 0 <= k <= |steps| ensures s.current + InUse(steps[..k]) <= s'.highest {
        if k > 0 {
          InUseFirst(steps, k);
        }
      }
      if s'.highest == m.highest != s.highest {
        InUseFirst(steps, 1);
        assert s'.highest == s.current + InUse(steps[..1]);
      } else if s'.highest != m.highest {
        var k :| 0 <= k <= |steps| - 1 && s'.highest == m.current + InUse(steps[1..][..k]);
        InUseFirst(steps, k + 1);
        assert s'.highest == s.current + InUse(steps[..k + 1]);
      }
    }
  }

  /** A read of `v` in the rest of the steps is one of `v` and what the first adds in all of them. */
  lemma ReadsFirst(steps: seq<Step>, v: int)
    requires steps != []
    ensures Reads(steps, v)
            <==> (steps[0].action.ReadCurrent? && v == 0) || Reads(steps[1..], v - Change(steps[0].action))
  {
    var c, rest := Change(steps[0].action), steps[1..];
    if Reads(steps, v) {
      var k :| 0 <= k < |steps| && steps[k].action.ReadCurrent? && v == InUse(steps[..k]);
      if k > 0 {
        InUseFirst(steps, k);
        assert rest[k - 1].action.ReadCurrent? && v - c == InUse(rest[..k - 1]);
      }
    }
    if steps[0].action.ReadCurrent? && v == 0 {
      assert v == InUse(steps[..0]);
    }
    if Reads(rest, v - c) {
      var k :| 0 <= k < |rest| && rest[k].action.ReadCurrent? && v - c == InUse(rest[..k]);
      InUseFirst(steps, k + 1);
      assert steps[k + 1].action.ReadCurrent? && v == InUse(steps[..k + 1]);
    }
  }

  lemma {:induction false} RunProposes(s: State, steps: seq<Step>, s': State, v: nat)
    requires Run(s, steps) == Some(s') && s.current <= s.highest
    ensures v in s'.proposed <==> v in s.proposed || Reads(steps, v - s.current)
    decreases |steps|
  {
    if steps != [] {
      var m := Next(s, steps[0]).value;
      NextCounts(s, steps[0], m);
      hide Next, Reads;
      RunProposes(m, steps[1..], s', v);
      ReadsFirst(steps, v - s.current);
    }
  }

  /** In every run the count is the number of bytes in use, the highest count the largest such number, and the
    * proposed values those that were read. */
  lemma CountIsInUse(n: nat, steps: seq<Step>, s: State)
    requires Run(Init(n), steps) == Some(s)
    ensures s.current == InUse(steps)
    ensures forall m :: MostInUse(steps, m) <==> m == s.highest
    ensures forall v: nat :: v in s.proposed <==> Reads(steps, v)
  {
    RunCounts(Init(n), steps, s);
    assert steps[..0] == [];
    assert InUse(steps[..0]) == 0;
    assert MostInUse(steps, s.highest);
    forall v: nat ensures v in s.proposed <==> Reads(steps, v) {
      RunProposes(Init(n), steps, s, v);
    }
  }

  // Whole calls

  /** The value thread `t` is raising the peak to, if it is. */
  function Target(t: Thread): Option<nat> {
    if t.Raising? || t.Trying? then Some(t.v) else None
  }

  lemma RunFirst(s: State, steps: seq<Step>, k: nat)
    requires 0 < k <= |steps| && Next(s, steps[0]).Some?
    ensures Run(s, steps[..k]) == Run(Next(s, steps[0]).value, steps[1..][..k - 1])
  {
    assert steps[..k][1..] == steps[1..][..k - 1];
  }

  /** A call raises the peak in one step, from the value it returns to the larger of that and its own,
    * however often its exchanges fail before; its other steps leave the peak alone. */
  lemma {:induction false} CallIsFetchMax(s: State, steps: seq<Step>, s': State, i: nat, v: nat) returns (k: nat)
    requires i < |s.threads| && Target(s.threads[i]) == Some(v)
    requires Run(s, steps) == Some(s') && i < |s'.threads| && s'.threads[i].Idle?
    ensures k < |steps| && steps[k].thread == i
    ensures forall j | 0 <= j <= k :: Run(s, steps[..j]).Some? && i < |Run(s, steps[..j]).value.threads|
    ensures Run(s, steps[..k + 1]).Some?
    ensures var before, after := Run(s, steps[..k]).value, Run(s, steps[..k + 1]).value;
            && before.threads[i] == Trying(v, before.peak) && i < |after.threads| && after.threads[i].Idle?
            && after.peak == Max(v, before.peak)
    ensures forall j | 0 <= j < k && steps[j].thread == i ::
              Run(s, steps[..j + 1]).value.peak == Run(s, steps[..j]).value.peak
    decreases |steps|
  {
    assert steps != [];
    var m := Next(s, steps[0]).value;
    assert steps[..0] == [];
    RunFirst(s, steps, 1);
    assert steps[1..][..0] == [];
    if m.threads[i].Idle? {
      k := 0;
    } else {
      var k' := CallIsFetchMax(m, steps[1..], s', i, v);
      k := k' + 1;
      forall j | 0 < j <= k + 1 ensures Run(s, steps[..j]) == Run(m, steps[1..][..j - 1]) {
        RunFirst(s, steps, j);
      }
      forall j | 0 <= j < k && steps[j].thread == i
        ensures Run(s, steps[..j + 1]).value.peak == Run(s, steps[..j]).value.peak
      {
        if j > 0 {
          assert steps[1..][j - 1] == steps[j];
        }
      }
    }
  }

  // Against the largest count

  /** No call is under way. */
  predicate Settled(s: State) {
    forall i | 0 <= i < |s.threads| :: s.threads[i].Idle?
  }

  /** In a settled state the peak is the largest number of bytes there have been in use exactly when that is
    * zero, or some call read it. */
  lemma PeakIsHighest(n: nat, steps: seq<Step>, s: State, most: int)
    requires Run(Init(n), steps) == Some(s) && Settled(s) && MostInUse(steps, most)
    ensures s.peak == most <==> most == 0 || Reads(steps, most)
  {
    hide Reads, MostInUse;
    CountIsInUse(n, steps, s);
    PeakBounds(n, steps, s);
    SettledPeak(n, steps, s);
  }

  /** What one thread keeps: it has yet to propose the largest count, or has raised the peak to it. */
  ghost predicate Alone(s: State) {
    && |s.threads| <= 1
    && (s.threads == [] ==> s.peak == s.highest)
    && (|s.threads| == 1 ==>
          match s.threads[0]
          case Idle => s.peak == s.highest
          case Added => s.highest == Max(s.current, s.peak)
          case Raising(v) => s.highest == Max(v, s.peak)
          case Trying(v, t) => t == s.peak && s.highest == Max(v, s.peak))
  }

  lemma {:induction false} RunAlone(s: State, steps: seq<Step>, s': State)
    requires Alone(s) && Run(s, steps) == Some(s')
    ensures Alone(s')
    decreases |steps|
  {
    if steps != [] {
      RunAlone(Next(s, steps[0]).value, steps[1..], s');
    }
  }

  /** With at most one thread, whose exchanges may fail as often as they like, the peak of a settled state
    * is the largest number of bytes there have been in use. */
  lemma AlonePeak(n: nat, steps: seq<Step>, s: State)
    requires n <= 1 && Run(Init(n), steps) == Some(s) && Settled(s)
    ensures MostInUse(steps, s.peak)
  {
    hide MostInUse;
    RunAlone(Init(n), steps, s);
    CountIsInUse(n, steps, s);
  }

  /** `n` idle threads but for the first two. */
  function Two(n: nat, a: Thread, b: Thread): seq<Thread>
    requires n >= 2
  {
    [a, b] + seq(n - 2, _ => Idle)
  }

  lemma {:induction false} RunConcat(s: State, a: seq<Step>, b: seq<Step>)
    ensures Run(s, a + b) == if Run(s, a).None? then None else Run(Run(s, a).value, b)
    decreases |a|
  {
    if a == [] {
      assert a + b == b;
    } else {
      assert (a + b)[1..] == a[1..] + b;
      if Next(s, a[0]).Some? {
        RunConcat(Next(s, a[0]).value, a[1..], b);
      }
    }
  }

  /** Thread 1 allocates 20 bytes. */
  lemma FirstCall(n: nat) returns (steps: seq<Step>, s: State)
    requires n >= 2
    ensures Run(Init(n), steps) == Some(s)
    ensures s.threads == Two(n, Idle, Idle) && s.current == s.peak == s.highest == 20
  {
    steps := [Step(1, Allocate(20)), Step(1, ReadCurrent), Step(1, Load), Step(1, Exchange(false))];
    var s0 := Init(n);
    assert s0.threads == Two(n, Idle, Idle);
    var s1 := Next(s0, steps[0]).value;
    assert s1.threads == Two(n, Idle, Added);
    var s2 := Next(s1, steps[1]).value;
    assert s2.threads == Two(n, Idle, Raising(20));
    var s3 := Next(s2, steps[2]).value;
    assert s3.threads == Two(n, Idle, Trying(20, 0));
    s := Next(s3, steps[3]).value;
    assert s.threads == Two(n, Idle, Idle);
    var states := [s0, s1, s2, s3, s];
    hide Next;
    Follow(states, steps);
  }

  /** Thread 0 allocates 10 bytes, and before it reads the count thread 1 gives its 20 back. */
  lemma SecondCall(n: nat, s0: State) returns (steps: seq<Step>, s: State)
    requires n >= 2 && s0.threads == Two(n, Idle, Idle) && s0.current == s0.peak == s0.highest == 20
    ensures Run(s0, steps) == Some(s)
    ensures s.threads == Two(n, Idle, Idle) && s.highest == 30 && s.peak == 20
  {
    steps := [Step(0, Allocate(10)), Step(1, Deallocate(20)),
              Step(0, ReadCurrent), Step(0, Load), Step(0, Exchange(false))];
    var s1 := Next(s0, steps[0]).value;
    assert s1.threads == Two(n, Added, Idle);
    var s2 := Next(s1, steps[1]).value;
    var s3 := Next(s2, steps[2]).value;
    assert s3.threads == Two(n, Raising(10), Idle);
    var s4 := Next(s3, steps[3]).value;
    assert s4.threads == Two(n, Trying(10, 20), Idle);
    s := Next(s4, steps[4]).value;
    assert s.threads == Two(n, Idle, Idle);
    var states := [s0, s1, s2, s3, s4, s];
    hide Next;
    Follow(states, steps);
  }

  /** Two threads can miss it: a deallocation comes between the addition and its reading. */
  lemma PeakMissed(n: nat) returns (steps: seq<Step>, s: State)
    requires n >= 2
    ensures Run(Init(n), steps) == Some(s) && Settled(s)
    ensures MostInUse(steps, 30) && s.peak == 20
  {
    hide Next, Run, MostInUse;
    var first, s4 := FirstCall(n);
    var second, s9 := SecondCall(n, s4);
    RunConcat(Init(n), first, second);
    steps, s := first + second, s9;
    CountIsInUse(n, steps, s);
  }

  /** The peak is the largest number of bytes there have been in use in every settled state exactly when there is
    * at most one thread. */
  lemma PeakExactIffAlone(n: nat)
    ensures (forall steps, s :: Run(Init(n), steps) == Some(s) && Settled(s) ==> MostInUse(steps, s.peak)) <==> n <= 1
  {
    hide Settled, Init, MostInUse;
    if n <= 1 {
      forall steps, s | Run(Init(n), steps) == Some(s) && Settled(s) ensures MostInUse(steps, s.peak) {
        AlonePeak(n, steps, s);
      }
    } else {
      var steps, s := PeakMissed(n);
      CountIsInUse(n, steps, s);
    }
  }

  lemma {:induction false} Follow(states: seq<State>, steps: seq<Step>)
    requires |states| == |steps| + 1
    requires forall k | 0 <= k < |steps| :: Next(states[k], steps[k]) == Some(states[k + 1])
    ensures Run(states[0], steps) == Some(states[|steps|])
    decreases |steps|
  {
    if steps != [] {
      var rest := states[1..];
      forall k | 0 <= k < |steps| - 1 ensures Next(rest[k], steps[1..][k]) == Some(rest[k + 1]) {
        assert rest[k] == states[k + 1] && rest[k + 1] == states[k + 2] && steps[1..][k] == steps[k + 1];
      }
      Follow(rest, steps[1..]);
    }
  }
}
