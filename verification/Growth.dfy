// The growable array: its capacity rule in 64 bits, and the cost of pushing.
module Growth {

  import opened Outcomes
  import opened Bits

  /** The next capacity, in 64 bits. */
  function Next(c: nat): nat {
    (c + 1) * 3 % W / 2
  }

  /** The capacities there are: 0, 1, 3, 6, 10, 16, 25, ... */
  function Term(k: nat): nat {
    if k == 0 then 0 else Next(Term(k - 1))
  }

  /** The growth loop from `c`, watched for so many turns: stuck when it has not ended by then. */
  function Grow(c: nat, length: nat, turns: nat): (r: Outcome<nat>)
    ensures !r.Failed?
    ensures r.Done? ==> r.value >= length
    decreases turns
  {
    if c >= length then Done(c) else if turns == 0 then Stuck else Grow(Next(c), length, turns - 1)
  }

  /** What arrays run on: the turns their loops are watched for, and the largest capacity that the
    * allocator grants. */
  datatype Host = Host(turns: nat, limit: nat)

  /** The capacity of storage made for `n` elements. */
  function Room(host: Host, n: nat): Outcome<nat> {
    var r := Grow(0, n, host.turns);
    if r.Done? && r.value > host.limit then Failed else r
  }

  // When the loop ends

  /** It ends within so many turns exactly when one of the capacities up to there is enough. */
  lemma {:induction false} EndsExactly(j: nat, length: nat, turns: nat)
    ensures Grow(Term(j), length, turns).Done? <==> exists k :: j <= k <= j + turns && Term(k) >= length
    decreases turns
  {
    hide Next;
    if Term(j) < length && turns > 0 {
      EndsExactly(j + 1, length, turns - 1);
    }
  }

  /** The first capacity that is enough is the one the loop ends with. */
  lemma {:induction false} GrowFrom(j: nat, k: nat, length: nat, turns: nat)
    requires j <= k <= j + turns && length <= Term(k)
    requires forall i | j <= i < k :: Term(i) < length
    ensures Grow(Term(j), length, turns) == Done(Term(k))
    decreases turns
  {
    hide Next;
    if j < k {
      GrowFrom(j + 1, k, length, turns - 1);
    }
  }

  /** No capacity reaches 2^63, since halving follows wrapping. */
  lemma TermsBelow(k: nat)
    ensures 2 * Term(k) < W
  {
    hide Pow2;
  }

  /** From lengths of 2^63 on the loop never ends. */
  lemma NeverEnds(length: nat, turns: nat)
    requires 2 * length >= W
    ensures Grow(0, length, turns).Stuck?
  {
    hide *;
    EndsExactly(0, length, turns);
    TermZero();
    forall k ensures !(0 <= k <= turns && Term(k) >= length) {
      if k >= 0 {
        TermsBelow(k);
      }
    }
  }

  lemma TermZero()
    ensures Term(0) == 0
  {
  }

  /** Below a third of 2^64 nothing wraps, and capacities grow by half. */
  lemma NextBound(c: nat)
    requires 3 * (c + 1) < W
    ensures 3 * c + 2 <= 2 * Next(c) <= 3 * c + 3
  {
    hide Pow2;
    Remainder((c + 1) * 3, W, 0, (c + 1) * 3);
  }

  /** From there on multiplication wraps, and the next capacity is a smaller one. */
  lemma FallsBack(c: nat)
    requires 3 * (c + 1) >= W && 2 * c < W
    ensures Next(c) < c
  {
    hide Pow2;
    WordSize();
    Remainder((c + 1) * 3, W, 1, (c + 1) * 3 - W);
  }

  /** Lengths below a third of 2^64 are reached, within as many turns, and by the least capacity of
    * the sequence that is enough. */
  lemma {:induction false} LeastTerm(j: nat, length: nat) returns (k: nat)
    requires 3 * length < W && j <= Term(j) && (forall i | 0 <= i < j :: Term(i) < length) && j <= length
    ensures j <= k <= length && Term(k) >= length && forall i | 0 <= i < k :: Term(i) < length
    decreases if Term(j) < length then length - Term(j) else 0
  {
    if Term(j) >= length {
      k := j;
    } else {
      NextBound(Term(j));
      hide Next, Pow2;
      assert Term(j + 1) == Next(Term(j));
      k := LeastTerm(j + 1, length);
    }
  }

  /** The capacity the loop ends with, for lengths below a third of 2^64. */
  function Capacity(length: nat): (c: nat)
    requires 3 * length < W
    ensures c >= length
  {
    GrowEnds(length);
    Grow(0, length, length).value
  }

  /** The loop ends for such lengths, with the least capacity that is enough. */
  lemma GrowEnds(length: nat)
    requires 3 * length < W
    ensures Grow(0, length, length).Done?
    ensures exists k: nat :: k <= length && Grow(0, length, length) == Done(Term(k))
                             && forall i | 0 <= i < k :: Term(i) < length
  {
    hide Grow, Pow2, Next;
    TermZero();
    var k := LeastTerm(0, length);
    GrowFrom(0, k, length, length);
  }

  /** Where the loop ends at all, it is with the same capacity. */
  lemma RoomIsCapacity(host: Host, n: nat)
    requires 3 * n < W && Room(host, n).Done?
    ensures Room(host, n) == Done(Capacity(n))
  {
    hide *;
    TermZero();
    var k := LeastTerm(0, n);
    GrowFrom(0, k, n, n);
    CapacityMeans(n);
    RoomMeans(host, n);
    EndsExactly(0, n, host.turns);
    var i :| 0 <= i <= host.turns && Term(i) >= n;
    GrowFrom(0, k, n, host.turns);
  }

  lemma CapacityMeans(n: nat)
    requires 3 * n < W
    ensures Grow(0, n, n) == Done(Capacity(n))
  {
    hide Grow, Pow2;
    GrowEnds(n);
  }

  lemma RoomMeans(host: Host, n: nat)
    ensures Room(host, n).Done? ==> Room(host, n) == Grow(0, n, host.turns)
    ensures Room(host, n).Stuck? <==> Grow(0, n, host.turns).Stuck?
    ensures Grow(0, n, host.turns).Done? ==>
              (Room(host, n).Done? <==> Grow(0, n, host.turns).value <= host.limit)
  {
    hide Grow;
  }

  /** Room for more is room for fewer. */
  lemma {:induction false} GrowLess(c: nat, n: nat, m: nat, turns: nat)
    requires n <= m && Grow(c, m, turns).Done?
    ensures Grow(c, n, turns).Done? && Grow(c, n, turns).value <= Grow(c, m, turns).value
    decreases turns
  {
    hide Next;
    if c < n {
      GrowLess(Next(c), n, m, turns - 1);
    } else {
      GrowReaches(c, n, m, turns);
    }
  }

  lemma {:induction false} GrowReaches(c: nat, n: nat, m: nat, turns: nat)
    requires n <= c && n <= m && Grow(c, m, turns).Done?
    ensures Grow(c, n, turns) == Done(c) && c <= Grow(c, m, turns).value
  {
    if c < m {
      assert Grow(c, m, turns).value >= m;
    }
  }

  lemma RoomLess(host: Host, n: nat, m: nat)
    requires n <= m && Room(host, m).Done?
    ensures Room(host, n).Done?
  {
    hide Grow;
    GrowLess(0, n, m, host.turns);
  }

  /** No array has room for 2^64 - 1 elements. */
  lemma RoomBelow(host: Host, n: nat)
    requires Room(host, n).Done?
    ensures 2 * n < W
  {
    hide Pow2, Grow;
    if 2 * n >= W {
      NeverEnds(n, host.turns);
      assert false;
    }
  }

  /** Storage of the capacity found can be found again. */
  lemma RoomAgain(host: Host, n: nat)
    requires Room(host, n).Done?
    ensures Room(host, Room(host, n).value) == Room(host, n)
  {
    hide Grow;
    GrowAgain(0, n, host.turns);
  }

  lemma {:induction false} GrowAgain(c: nat, n: nat, turns: nat)
    requires Grow(c, n, turns).Done?
    ensures Grow(c, Grow(c, n, turns).value, turns) == Grow(c, n, turns)
    decreases turns
  {
    hide Next;
    if c < n {
      GrowAgain(Next(c), n, turns - 1);
    }
  }

  // Pushing, as numbers

  /** Length, capacity and elements moved so far. */
  datatype Cost = Cost(length: nat, capacity: nat, moves: nat)

  /** One push: room for one more than is needed avoids a move, so a full array has been moved twice. */
  function Push(s: Cost): Cost
    requires 3 * (s.length + 1) < W
  {
    if s.length + 1 < s.capacity then s.(length := s.length + 1)
    else Cost(s.length + 1, Capacity(s.length + 1), s.moves + s.length)
  }

  /** After `n` pushes from empty. */
  function Pushes(n: nat): (s: Cost)
    requires 3 * n < W
    ensures s.length == n
  {
    if n == 0 then Cost(0, 0, 0) else Push(Pushes(n - 1))
  }

  /** The capacity is a term and fits; moves are bounded by the capacity before it. */
  ghost predicate Amortised(s: Cost, k: nat) {
    && s.capacity == Term(k) && s.length <= s.capacity
    && (forall i | 0 <= i < k :: Term(i) < s.length)
    && (k == 0 ==> s.moves == 0)
    && (k > 0 ==> s.moves <= 6 * Term(k - 1) + if s.length == s.capacity then s.capacity - 1 else 0)
  }

  /** The first term that is enough is the capacity. */
  lemma CapacityIs(length: nat, k: nat)
    requires 3 * length < W && Term(k) >= length && forall i | 0 <= i < k :: Term(i) < length
    ensures Capacity(length) == Term(k)
  {
    hide *;
    TermZero();
    CapacityMeans(length);
    var k' := LeastTerm(0, length);
    GrowFrom(0, k', length, length);
    assert k == k';
  }

  lemma PushAmortised(s: Cost, k: nat) returns (k': nat)
    requires Amortised(s, k) && 3 * (s.length + 1) < W
    ensures Amortised(Push(s), k')
  {
    hide Grow, Pow2, Capacity, Next;
    k' := k;
    if s.length + 1 == s.capacity {
      CapacityIs(s.length + 1, k);
    } else if s.length == s.capacity {
      k' := k + 1;
      assert Term(k') == Next(Term(k));
      NextBound(Term(k));
      if k > 0 {
        assert Term(k) == Next(Term(k - 1));
        NextBound(Term(k - 1));
      }
      CapacityIs(s.length + 1, k');
    }
  }

  /** Filling the last place moves everything to storage of the same capacity. */
  lemma SameCapacityAgain(s: Cost, k: nat)
    requires Amortised(s, k) && s.length + 1 == s.capacity && 3 * s.capacity < W
    ensures Push(s) == Cost(s.capacity, s.capacity, s.moves + s.length)
  {
    hide Grow, Pow2, Capacity, Next;
    CapacityIs(s.capacity, k);
  }

  lemma {:induction false} PushesAmortised(n: nat) returns (k: nat)
    requires 3 * n < W
    ensures Amortised(Pushes(n), k)
  {
    if n == 0 {
      k := 0;
    } else {
      k := PushesAmortised(n - 1);
      hide Amortised, Grow, Pow2, Capacity;
      k := PushAmortised(Pushes(n - 1), k);
    }
  }

  /** `n` pushes move at most `6 * n` elements in all. */
  lemma PushesAreLinear(n: nat)
    requires 3 * n < W
    ensures Pushes(n).moves <= 6 * n
    ensures Pushes(n).length == n <= Pushes(n).capacity
    ensures exists k :: Pushes(n).capacity == Term(k)
  {
    hide Pushes, Grow, Pow2, Next;
    var k := PushesAmortised(n);
    if k > 0 {
      assert Term(k - 1) < n && Term(k) == Next(Term(k - 1));
      NextBound(Term(k - 1));
    }
  }

  // The array

  /** The growth loop. */
  method FindCapacity(length: nat, turns: nat) returns (r: Outcome<nat>)
    ensures r == Grow(0, length, turns)
  {
    hide Next;
    var capacity: nat, turn: nat := 0, 0;
    while capacity < length
      invariant 0 <= turn <= turns && Grow(capacity, length, turns - turn) == Grow(0, length, turns)
      decreases turns - turn
    {
      if turn == turns {
        return Stuck;
      }
      capacity := NextCapacity(capacity);
      turn := turn + 1;
    }
    return Done(capacity);
  }

  method NextCapacity(c: nat) returns (capacity: nat)
    ensures capacity == Next(c)
  {
    capacity := (c + 1) * 3 % W / 2;
  }

  class Array<T(0)> {
    /** Storage; its length is the capacity. */
    var data: array<T>
    var length: nat
    /** Elements moved between storages so far. */
    ghost var moves: nat

    ghost predicate Valid()
      reads this
    {
      length <= data.Length && exists k :: data.Length == Term(k)
    }

    ghost function Contents(): seq<T>
      reads this, data
      requires Valid()
    {
      data[..length]
    }

    ghost function Spent(): Cost
      reads this
    {
      Cost(length, data.Length, moves)
    }

    constructor ()
      ensures Valid() && Contents() == [] && Spent() == Pushes(0) && fresh(data)
    {
      data := new T[0];
      length := 0;
      moves := 0;
      new;
      assert data.Length == Term(0);
    }

    /** Makes room for `n` elements: storage that holds exactly `n` is replaced by as much again. */
    method Reserve(n: nat, host: Host) returns (r: Outcome<nat>)
      requires Valid()
      modifies this
      ensures Valid() && length == old(length) && Contents() == old(Contents())
      ensures if n < old(data.Length) then r == Done(data.Length) && data == old(data) && moves == old(moves)
              else
                && r == Room(host, n)
                && if r.Done? then fresh(data) && data.Length == r.value && moves == old(moves) + length
                   else data == old(data) && moves == old(moves)
      ensures r.Done? ==> n <= data.Length
    {
      hide Next, Term, Grow;
      if n < data.Length {
        return Done(data.Length);
      }
      r := FindCapacity(n, host.turns);
      if r.Stuck? {
        return;
      }
      GrowsToTerm(n, host.turns);
      var capacity := r.value;
      if capacity > host.limit {
        return Failed;
      }
      var moved := new T[capacity];
      for i := 0 to length
        modifies moved
        invariant moved[..i] == data[..i]
      {
        moved[i] := data[i];
      }
      moves := moves + length;
      data := moved;
    }

    method PushBack(value: T, host: Host) returns (r: Outcome<nat>)
      requires Valid() && 3 * (length + 1) < W
      modifies this, data
      ensures Valid()
      ensures r == if old(length) + 1 < old(data.Length) then Done(old(data.Length)) else Room(host, old(length) + 1)
      ensures Contents() == if r.Done? then old(Contents()) + [value] else old(Contents())
      ensures Spent() == if r.Done? then Push(old(Spent())) else old(Spent())
      ensures data == old(data) || fresh(data)
    {
      hide Next, Term, Grow, Capacity;
      r := Reserve(length + 1, host);
      if r.Done? {
        if length + 1 >= old(data.Length) {
          RoomIsCapacity(host, length + 1);
        }
        data[length] := value;
        length := length + 1;
      }
    }

    /** Grows with `value`s, or drops elements from the end; capacity never shrinks. */
    method Resize(n: nat, value: T, host: Host) returns (r: Outcome<nat>)
      requires Valid()
      modifies this, data
      ensures Valid()
      ensures n <= old(length) ==> r.Done?
      ensures n > old(length) ==> r == if n < old(data.Length) then Done(old(data.Length)) else Room(host, n)
      ensures Contents() ==
        if !r.Done? then old(Contents())
        else if n <= old(length) then old(Contents())[..n]
        else old(Contents()) + seq(n - old(length), _ => value)
      ensures data == old(data) || fresh(data)
    {
      hide Next, Term, Grow;
      r := Done(data.Length);
      if n > length {
        r := Reserve(n, host);
        if !r.Done? {
          return;
        }
        ghost var before := Contents();
        for i := length to n
          modifies data
          invariant data[..i] == before + seq(i - length, _ => value)
        {
          data[i] := value;
        }
      }
      length := n;
    }
  }

  lemma GrowsToTerm(n: nat, turns: nat)
    ensures Grow(0, n, turns).Done? ==> exists k :: Grow(0, n, turns) == Done(Term(k))
  {
    TermZero();
    GrowsToTermFrom(0, n, turns);
  }

  lemma {:induction false} GrowsToTermFrom(j: nat, n: nat, turns: nat)
    ensures Grow(Term(j), n, turns).Done? ==> exists k :: Grow(Term(j), n, turns) == Done(Term(k))
    decreases turns
  {
    hide Next;
    if Term(j) < n && turns > 0 {
      GrowsToTermFrom(j + 1, n, turns - 1);
    }
  }
}
