// Aggregate initialisers: stores emitted at run time against the constant
// that compile-time evaluation builds.
module Aggregates {

  import opened Wrappers
  import opened Types
  import opened Layout
  import opened Memory
  import opened Stores

  /** Number of initialisers that the elements before `i` take. */
  function Taken(t: CgType, i: nat): (j: nat)
    requires Plain(t) && Aggregate(t) && i <= Count(t)
    ensures j <= i
  {
    if i == 0 then 0 else Taken(t, i - 1) + if ElementType(t, i - 1).kind == PADDING then 0 else 1
  }

  /** The value of initialiser `j`: all of them are given together. */
  function Init(types: seq<CgType>, j: nat): CgValue
    requires j < |types|
  {
    CgValue(types[j], Extract(Given, j))
  }

  // At run time

  /** The stores of element `i`: none when its initialiser has another type. */
  function AggElement(t: CgType, types: seq<CgType>, i: nat): Option<seq<Op>>
    requires Plain(t) && Aggregate(t) && i < Count(t)
    requires forall j | 0 <= j < |types| :: WellMade(types[j]) && Plain(types[j])
    requires WellMade(t)
  {
    var dst := At(CgAddr(t, Base), i);
    var j := Taken(t, i);
    if dst.t.kind == PADDING then Some(ZeroOps(dst))
    else if j < |types| then
      if NotEqual(types[j], dst.t) then None
      else
        NotEqualDecides(types[j], dst.t);
        Some(StoreOps(dst, Init(types, j)))
    else Some(ZeroOps(dst))
  }

  function AggParts(t: CgType, types: seq<CgType>, n: nat): Option<seq<Op>>
    requires Plain(t) && Aggregate(t) && n <= Count(t) && WellMade(t)
    requires forall j | 0 <= j < |types| :: WellMade(types[j]) && Plain(types[j])
  {
    if n == 0 then Some([])
    else
      var rest := AggParts(t, types, n - 1);
      if rest.None? then None
      else
        var here := AggElement(t, types, n - 1);
        if here.None? then None else Some(rest.value + here.value)
  }

  function AggOps(t: CgType, types: seq<CgType>): Option<seq<Op>>
    requires Plain(t) && Aggregate(t) && WellMade(t)
    requires forall j | 0 <= j < |types| :: WellMade(types[j]) && Plain(types[j])
  {
    if |types| > Count(t) then None
    else if |types| == 0 then Some(ZeroOps(CgAddr(t, Base)))
    else AggParts(t, types, Count(t))
  }

  /** Generates the stores of an initialiser; fails for too many values or one of another type. */
  method GenAddr(cg: Emitter, t: CgType, types: seq<CgType>) returns (ok: bool)
    requires Plain(t) && Aggregate(t) && WellMade(t)
    requires forall j | 0 <= j < |types| :: WellMade(types[j]) && Plain(types[j])
    modifies cg
    ensures ok <==> AggOps(t, types).Some?
    ensures ok ==> cg.ops == old(cg.ops) + AggOps(t, types).value
  {
    hide *;
    AggOpsCases(t, types);
    var addr := CgAddr(t, Base);
    var count := Count(t);
    if |types| > count {
      return false;
    }
    if |types| == 0 {
      cg.Zero(addr);
      return true;
    }
    var addrs := Addresses(t);
    var j := 0;
    for i := 0 to count
      invariant j == Taken(t, i)
      invariant AggParts(t, types, i).Some?
      invariant cg.ops == old(cg.ops) + AggParts(t, types, i).value
    {
      ok := GenElement(cg, t, types, i, addrs[i], j);
      if !ok {
        AggNone(t, types, i);
        AggFails(t, types, i + 1, count);
        return false;
      }
      AggNext(t, types, i);
      TakenNext(t, i);
      if addrs[i].t.kind != PADDING {
        j := j + 1;
      }
    }
    return true;
  }

  lemma AggOpsCases(t: CgType, types: seq<CgType>)
    requires Plain(t) && Aggregate(t) && WellMade(t)
    requires forall j | 0 <= j < |types| :: WellMade(types[j]) && Plain(types[j])
    ensures AggOps(t, types) == if |types| > Count(t) then None
                                else if |types| == 0 then Some(ZeroOps(CgAddr(t, Base)))
                                else AggParts(t, types, Count(t))
    ensures AggParts(t, types, 0) == Some([])
    ensures Taken(t, 0) == 0
  {
  }

  lemma AggNone(t: CgType, types: seq<CgType>, i: nat)
    requires Plain(t) && Aggregate(t) && i < Count(t) && WellMade(t)
    requires forall j | 0 <= j < |types| :: WellMade(types[j]) && Plain(types[j])
    requires AggElement(t, types, i).None?
    ensures AggParts(t, types, i + 1).None?
  {
    hide AggElement;
  }

  lemma TakenNext(t: CgType, i: nat)
    requires Plain(t) && Aggregate(t) && i < Count(t)
    ensures Indexable(t, i) && At(CgAddr(t, Base), i).t == ElementType(t, i)
    ensures Taken(t, i + 1) == Taken(t, i) + if ElementType(t, i).kind == PADDING then 0 else 1
  {
  }

  /** The address of every element. */
  method Addresses(t: CgType) returns (addrs: seq<CgAddr>)
    requires Plain(t) && Aggregate(t)
    ensures |addrs| == Count(t)
    ensures forall k | 0 <= k < |addrs| :: Indexable(t, k) && addrs[k] == At(CgAddr(t, Base), k)
  {
    addrs := [];
    for i := 0 to Count(t)
      invariant |addrs| == i
      invariant forall k | 0 <= k < i :: Indexable(t, k) && addrs[k] == At(CgAddr(t, Base), k)
    {
      addrs := addrs + [At(CgAddr(t, Base), i)];
    }
  }

  method GenElement(cg: Emitter, t: CgType, types: seq<CgType>, i: nat, dst: CgAddr, j: nat) returns (ok: bool)
    requires Plain(t) && Aggregate(t) && WellMade(t) && i < Count(t)
    requires forall j | 0 <= j < |types| :: WellMade(types[j]) && Plain(types[j])
    requires dst == At(CgAddr(t, Base), i) && j == Taken(t, i)
    modifies cg
    ensures ok <==> AggElement(t, types, i).Some?
    ensures ok ==> cg.ops == old(cg.ops) + AggElement(t, types, i).value
  {
    hide StoreOps, ZeroOps, NotEqual, Strip;
    if dst.t.kind == PADDING {
      cg.Zero(dst);
    } else if j < |types| {
      if NotEqual(types[j], dst.t) {
        return false;
      }
      NotEqualDecides(types[j], dst.t);
      cg.Store(dst, Init(types, j));
    } else {
      cg.Zero(dst);
    }
    return true;
  }

  lemma {:induction false} AggFails(t: CgType, types: seq<CgType>, n: nat, m: nat)
    requires Plain(t) && Aggregate(t) && n <= m <= Count(t) && WellMade(t)
    requires forall j | 0 <= j < |types| :: WellMade(types[j]) && Plain(types[j])
    requires AggParts(t, types, n).None?
    ensures AggParts(t, types, m).None?
  {
    if n < m {
      AggFails(t, types, n, m - 1);
    }
  }

  // What run time leaves in memory

  /** What element `i` becomes: its initialiser, or zero. */
  function FilledElement(t: CgType, values: seq<Val>, i: nat): Val
    requires Plain(t) && Aggregate(t) && i < Count(t)
  {
    var e, j := ElementType(t, i), Taken(t, i);
    if e.kind == PADDING || j >= |values| then Null(e) else values[j]
  }

  function Filled(t: CgType, values: seq<Val>, n: nat): (r: seq<Val>)
    requires Plain(t) && Aggregate(t) && n <= Count(t)
    ensures |r| == n
    ensures forall i | 0 <= i < n :: r[i] == FilledElement(t, values, i)
  {
    if n == 0 then [] else Filled(t, values, n - 1) + [FilledElement(t, values, n - 1)]
  }

  /** Value `v` is at the physical slot of virtual element `v`. */
  lemma FilledPlaces(t: CgType, values: seq<Val>, v: nat)
    requires Plain(t) && t.kind == TUPLE && v < Virtuals(t.types.list)
    ensures var i := Virt(t.types.list, v);
            Filled(t, values, Count(t))[i] == if v < |values| then values[v] else Null(t.types.list[i])
  {
    TakenIsVirtuals(t, Virt(t.types.list, v));
  }

  lemma {:induction false} TakenIsVirtuals(t: CgType, i: nat)
    requires Plain(t) && t.kind == TUPLE && i <= Count(t)
    ensures Taken(t, i) == Virtuals(t.types.list[..i])
  {
    if i > 0 {
      TakenIsVirtuals(t, i - 1);
      VirtualsNext(t.types.list, i - 1);
    }
  }

  // Stores of initialisers

  /** Initialisers of the types of the elements they are for. */
  ghost predicate Initialises(t: CgType, types: seq<CgType>, values: seq<Val>) {
    && Plain(t) && Aggregate(t) && WellMade(t) && WellLaid(t)
    && |values| == |types| <= Count(t)
    && (forall j | 0 <= j < |types| ::
          WellMade(types[j]) && Plain(types[j]) && WellLaid(types[j]) && Typed(values[j], types[j]))
    && (forall i | 0 <= i < Count(t) ::
          ElementType(t, i).kind != PADDING && Taken(t, i) < |types| ==>
            Strip(types[Taken(t, i)]) == Strip(ElementType(t, i)))
  }

  lemma {:induction false} TypedSame(v: Val, d: CgType, s: CgType)
    requires Plain(d) && Plain(s) && Strip(d) == Strip(s)
    requires Typed(v, s)
    ensures Typed(v, d) && ZeroPads(v, d) == ZeroPads(v, s)
    decreases v
  {
    if Aggregate(s) {
      CountsAgree(d, s);
      forall i | 0 <= i < Count(s)
        ensures Typed(v.elems[i], ElementType(d, i))
        ensures ZeroPads(v, d).elems[i] == ZeroPads(v, s).elems[i]
      {
        StorableParts(d, s, i);
        TypedSame(v.elems[i], ElementType(d, i), ElementType(s, i));
      }
    }
  }

  lemma FilledTyped(t: CgType, types: seq<CgType>, values: seq<Val>)
    requires Initialises(t, types, values)
    ensures Typed(Agg(Filled(t, values, Count(t))), t)
  {
    forall i | 0 <= i < Count(t)
      ensures Typed(FilledElement(t, values, i), ElementType(t, i))
    {
      FilledElementTyped(t, types, values, i);
    }
  }

  lemma FilledElementTyped(t: CgType, types: seq<CgType>, values: seq<Val>, i: nat)
    requires Initialises(t, types, values) && i < Count(t)
    ensures Typed(FilledElement(t, values, i), ElementType(t, i))
  {
    var e, j := ElementType(t, i), Taken(t, i);
    if e.kind == PADDING || j >= |values| {
      NullTyped(e);
    } else {
      TypedSame(values[j], e, types[j]);
    }
  }

  /** The stores of one element write its value, with padding zeroed. */
  lemma AggElementWrites(t: CgType, types: seq<CgType>, values: seq<Val>, i: nat, m: seq<byte>, base: nat)
    requires Initialises(t, types, values) && i < Count(t) && base + t.size <= |m|
    ensures AggElement(t, types, i).Some?
    ensures Indexable(t, i)
    ensures Run(AggElement(t, types, i).value, m, base, Agg(values))
         == Write(m, base + Place(t, i), Bytes(Kept(Agg(Filled(t, values, Count(t))), t, i)))
  {
    hide *;
    InitMeans(t, types, values);
    Child(t, i);
    var dst, j := At(CgAddr(t, Base), i), Taken(t, i);
    AggElementCases(t, types, values, i, base);
    FilledKept(t, values, i);
    if dst.t.kind == PADDING || j >= |types| {
      ZeroWrites(dst, m, base, Agg(values));
      NullBytes(dst.t);
      ZeroPadsNull(dst.t);
    } else {
      InitReady(t, types, values, i, |m|, base);
      StoreWrites(dst, Init(types, j), m, base, Agg(values));
      TypedSame(values[j], dst.t, types[j]);
    }
  }

  lemma InitMeans(t: CgType, types: seq<CgType>, values: seq<Val>)
    requires Initialises(t, types, values)
    ensures Plain(t) && Aggregate(t) && WellMade(t) && WellLaid(t) && |values| == |types| <= Count(t)
    ensures forall j | 0 <= j < |types| :: WellMade(types[j]) && Plain(types[j])
  {
  }

  lemma AggElementCases(t: CgType, types: seq<CgType>, values: seq<Val>, i: nat, base: nat)
    requires Initialises(t, types, values) && i < Count(t) && Indexable(t, i)
    ensures var dst, j := At(CgAddr(t, Base), i), Taken(t, i);
            && dst.t == ElementType(t, i)
            && EvalAddr(dst.ref, base) == base + Displacement(t, i)
            && Plain(dst.t) && WellLaid(dst.t)
            && if dst.t.kind == PADDING || j >= |types| then AggElement(t, types, i) == Some(ZeroOps(dst))
               else Storable(dst.t, types[j]) && AggElement(t, types, i) == Some(StoreOps(dst, Init(types, j)))
  {
    var dst, j := At(CgAddr(t, Base), i), Taken(t, i);
    if !(dst.t.kind == PADDING || j >= |types|) {
      NotEqualDecides(types[j], dst.t);
    }
    hide Displacement, StoreOps, ZeroOps, NotEqual;
    Child(t, i);
  }

  lemma InitReady(t: CgType, types: seq<CgType>, values: seq<Val>, i: nat, size: nat, base: nat)
    requires Initialises(t, types, values) && i < Count(t) && Indexable(t, i) && base + t.size <= size
    requires ElementType(t, i).kind != PADDING && Taken(t, i) < |types|
    ensures var dst, j := At(CgAddr(t, Base), i), Taken(t, i);
            && Ready(dst, Init(types, j), size, base, Agg(values))
            && EvalRef(Init(types, j).ref, Agg(values)) == values[j]
            && Plain(dst.t) && Plain(types[j]) && Strip(dst.t) == Strip(types[j]) && Typed(values[j], types[j])
            && Init(types, j).t == types[j]
  {
    hide *;
    InitMeans(t, types, values);
    var dst, j := At(CgAddr(t, Base), i), Taken(t, i);
    Child(t, i);
    AggElementCases(t, types, values, i, base);
    InitialiserMeans(t, types, values, i);
    InitEval(types, values, j);
    ReadyWhen(dst, Init(types, j), size, base, Agg(values));
  }

  lemma InitialiserMeans(t: CgType, types: seq<CgType>, values: seq<Val>, i: nat)
    requires Initialises(t, types, values) && i < Count(t) && Indexable(t, i)
    requires ElementType(t, i).kind != PADDING && Taken(t, i) < |types|
    ensures var j := Taken(t, i);
            && Strip(types[j]) == Strip(ElementType(t, i)) && types[j].size == ElementType(t, i).size
            && Plain(types[j]) && WellLaid(types[j]) && Typed(values[j], types[j])
  {
    hide Plain, WellLaid, WellMade, Typed, Taken;
  }

  lemma InitEval(types: seq<CgType>, values: seq<Val>, j: nat)
    requires j < |types| == |values|
    ensures Init(types, j).t == types[j]
    ensures EvalRef(Init(types, j).ref, Agg(values)) == values[j]
  {
  }

  lemma ReadyWhen(dst: CgAddr, value: CgValue, size: nat, base: nat, given: Val)
    requires Plain(value.t) && Plain(dst.t) && Strip(dst.t) == Strip(value.t)
    requires WellLaid(value.t) && WellLaid(dst.t)
    requires Typed(EvalRef(value.ref, given), value.t)
    requires EvalAddr(dst.ref, base) + value.t.size <= size
    ensures Ready(dst, value, size, base, given)
  {
  }

  lemma FilledKept(t: CgType, values: seq<Val>, i: nat)
    requires Plain(t) && Aggregate(t) && i < Count(t) && Indexable(t, i) && Plain(ElementType(t, i))
    ensures var e, j := ElementType(t, i), Taken(t, i);
            var k := Kept(Agg(Filled(t, values, Count(t))), t, i);
            if t.kind == TUPLE && e.kind == PADDING then Bytes(k) == Zeros(e.size)
            else if e.kind == PADDING || j >= |values| then k == ZeroPads(Null(e), e)
            else k == ZeroPads(values[j], e)
  {
    hide Plain, Null, ZeroPads, Count;
  }

  lemma {:induction false} AggPartsWrite(t: CgType, types: seq<CgType>, values: seq<Val>, n: nat, m: seq<byte>,
                                         base: nat)
    requires Initialises(t, types, values) && n <= Count(t) && base + t.size <= |m|
    ensures AggParts(t, types, n).Some?
    ensures Run(AggParts(t, types, n).value, m, base, Agg(values))
         == Write(m, base, BytesAll(ZeroParts(Agg(Filled(t, values, Count(t))), t, n)))
    decreases n
  {
    hide *;
    InitMeans(t, types, values);
    var v := Agg(Filled(t, values, Count(t)));
    FilledTyped(t, types, values);
    if n == 0 {
      NoPartsWritten(t, types, v, m, base);
    } else {
      var i := n - 1;
      AggPartsWrite(t, types, values, i, m, base);
      var m' := Run(AggParts(t, types, i).value, m, base, Agg(values));
      AggElementWrites(t, types, values, i, m', base);
      AggNext(t, types, i);
      RunConcat(AggParts(t, types, i).value, AggElement(t, types, i).value, m, base, Agg(values));
      PartBytes(v, t, i);
      WriteConcat(m, base, BytesAll(ZeroParts(v, t, i)), Bytes(Kept(v, t, i)));
    }
  }

  lemma NoPartsWritten(t: CgType, types: seq<CgType>, v: Val, m: seq<byte>, base: nat)
    requires Plain(t) && Aggregate(t) && WellMade(t) && Typed(v, t) && base <= |m|
    requires forall j | 0 <= j < |types| :: WellMade(types[j]) && Plain(types[j])
    ensures AggParts(t, types, 0) == Some([])
    ensures forall given :: Run([], m, base, given) == m
    ensures Write(m, base, BytesAll(ZeroParts(v, t, 0))) == m
  {
    assert m[..base] + [] + m[base..] == m;
  }

  lemma AggNext(t: CgType, types: seq<CgType>, i: nat)
    requires Plain(t) && Aggregate(t) && i < Count(t) && WellMade(t)
    requires forall j | 0 <= j < |types| :: WellMade(types[j]) && Plain(types[j])
    requires AggParts(t, types, i).Some? && AggElement(t, types, i).Some?
    ensures AggParts(t, types, i + 1) == Some(AggParts(t, types, i).value + AggElement(t, types, i).value)
  {
    hide AggElement;
  }

  /** Run-time initialisation leaves every initialiser in its element and zero everywhere else, and it
    * loads as that. */
  lemma InitialiserStored(t: CgType, types: seq<CgType>, values: seq<Val>, m: seq<byte>, base: nat)
    requires Initialises(t, types, values) && base + t.size <= |m|
    ensures AggOps(t, types).Some?
    ensures var c := Agg(Filled(t, values, Count(t)));
            var m' := Run(AggOps(t, types).value, m, base, Agg(values));
            && m' == Write(m, base, Bytes(ZeroPads(c, t)))
            && Load(t, m'[base..base + t.size]) == ZeroPads(c, t)
            && ((forall j | 0 <= j < |types| :: ZeroPads(values[j], types[j]) == values[j]) ==> ZeroPads(c, t) == c)
  {
    hide *;
    InitMeans(t, types, values);
    FilledTyped(t, types, values);
    var c := Agg(Filled(t, values, Count(t)));
    if |types| == 0 {
      NoInitialisers(t, types, values);
      ZeroWrites(CgAddr(t, Base), m, base, Agg(values));
      NullBytes(t);
      ZeroPadsNull(t);
    } else {
      AggPartsWrite(t, types, values, Count(t), m, base);
      AggWhole(t, types, c);
    }
    var z := ZeroPads(c, t);
    ZeroPadsTyped(c, t);
    BytesSize(z, t);
    LoadBack(z, t);
    Written(m, base, Bytes(z));
    if forall j | 0 <= j < |types| :: ZeroPads(values[j], types[j]) == values[j] {
      Unpadded(t, types, values);
    }
  }

  lemma NoInitialisers(t: CgType, types: seq<CgType>, values: seq<Val>)
    requires Initialises(t, types, values) && |types| == 0
    ensures AggOps(t, types) == Some(ZeroOps(CgAddr(t, Base)))
    ensures Agg(Filled(t, values, Count(t))) == Null(t)
    ensures forall base :: EvalAddr(CgAddr(t, Base).ref, base) == base
    ensures CgAddr(t, Base).t == t
  {
    hide ZeroOps, WellLaid;
    assert Filled(t, values, Count(t)) == Nulls(t, Count(t));
  }

  lemma AggWhole(t: CgType, types: seq<CgType>, c: Val)
    requires Plain(t) && Aggregate(t) && WellMade(t) && Typed(c, t) && 0 < |types| <= Count(t)
    requires forall j | 0 <= j < |types| :: WellMade(types[j]) && Plain(types[j])
    ensures AggOps(t, types) == AggParts(t, types, Count(t))
    ensures c.Agg? && |c.elems| == Count(t) && Bytes(ZeroPads(c, t)) == BytesAll(ZeroParts(c, t, Count(t)))
  {
    hide AggParts;
  }

  lemma Unpadded(t: CgType, types: seq<CgType>, values: seq<Val>)
    requires Initialises(t, types, values)
    requires forall j | 0 <= j < |types| :: ZeroPads(values[j], types[j]) == values[j]
    ensures var c := Agg(Filled(t, values, Count(t))); ZeroPads(c, t) == c
  {
    hide *;
    InitMeans(t, types, values);
    var c := Agg(Filled(t, values, Count(t)));
    FilledTyped(t, types, values);
    forall i | 0 <= i < Count(t)
      ensures Stays(t, c, i)
    {
      UnpaddedElement(t, types, values, i);
    }
    UnpaddedAll(t, c);
  }

  /** Element `i` of `c` is not changed by zeroing padding. */
  ghost predicate Stays(t: CgType, c: Val, i: nat) {
    && Plain(t) && Aggregate(t) && i < Count(t)
    && Indexable(t, i) && Plain(ElementType(t, i))
    && c.Agg? && |c.elems| == Count(t) && Kept(c, t, i) == c.elems[i]
  }

  lemma UnpaddedAll(t: CgType, c: Val)
    requires Plain(t) && Aggregate(t) && Typed(c, t)
    requires forall i | 0 <= i < Count(t) :: Stays(t, c, i)
    ensures ZeroPads(c, t) == c
  {
    var z := ZeroPads(c, t);
    forall i | 0 <= i < |z.elems| ensures z.elems[i] == c.elems[i] {
      assert Stays(t, c, i);
      assert z.elems[i] == Kept(c, t, i);
    }
  }

  lemma UnpaddedElement(t: CgType, types: seq<CgType>, values: seq<Val>, i: nat)
    requires Initialises(t, types, values) && i < Count(t)
    requires forall j | 0 <= j < |types| :: ZeroPads(values[j], types[j]) == values[j]
    ensures Stays(t, Agg(Filled(t, values, Count(t))), i)
  {
    var e, j := ElementType(t, i), Taken(t, i);
    Child(t, i);
    FilledKept(t, values, i);
    if t.kind == TUPLE && e.kind == PADDING {
    } else if e.kind == PADDING || j >= |values| {
      ZeroPadsNull(e);
    } else {
      TypedSame(values[j], e, types[j]);
    }
  }

  lemma TakenBelow(t: CgType, i: nat)
    requires Plain(t) && t.kind == TUPLE && i < Count(t)
    ensures ElementType(t, i).kind != PADDING ==> Taken(t, i) < Virtuals(t.types.list)
  {
    hide Plain, Taken;
    TakenIsVirtuals(t, i);
    VirtualsNext(t.types.list, i);
    VirtualsMonotone(t.types.list, i + 1, |t.types.list|);
    assert t.types.list[..|t.types.list|] == t.types.list;
  }

  // Which initialisers are accepted

  /** Initialisers are accepted when there are no more than physical elements, and each that an element
    * takes is of its type. */
  lemma Accepted(t: CgType, types: seq<CgType>)
    requires Plain(t) && Aggregate(t) && WellMade(t)
    requires forall j | 0 <= j < |types| :: WellMade(types[j]) && Plain(types[j])
    ensures AggOps(t, types).Some? <==>
            |types| <= Count(t) && forall i | 0 <= i < Count(t) :: Suits(t, types, i)
  {
    hide *;
    AggOpsCases(t, types);
    if |types| == 0 {
      NoneSuits(t, types);
    } else if |types| <= Count(t) {
      PartsAccepted(t, types, Count(t));
    }
  }

  /** The initialiser that element `i` takes, if any, is of its type. */
  predicate Suits(t: CgType, types: seq<CgType>, i: nat)
    requires Plain(t) && Aggregate(t) && i < Count(t)
  {
    ElementType(t, i).kind != PADDING && Taken(t, i) < |types| ==>
      !NotEqual(types[Taken(t, i)], ElementType(t, i))
  }

  lemma NoneSuits(t: CgType, types: seq<CgType>)
    requires Plain(t) && Aggregate(t) && |types| == 0
    ensures forall i | 0 <= i < Count(t) :: Suits(t, types, i)
  {
  }

  lemma ElementSuits(t: CgType, types: seq<CgType>, i: nat)
    requires Plain(t) && Aggregate(t) && WellMade(t) && i < Count(t)
    requires forall j | 0 <= j < |types| :: WellMade(types[j]) && Plain(types[j])
    ensures AggElement(t, types, i).Some? <==> Suits(t, types, i)
  {
    hide NotEqual, StoreOps, ZeroOps, WellMade;
  }

  lemma {:induction false} PartsAccepted(t: CgType, types: seq<CgType>, n: nat)
    requires Plain(t) && Aggregate(t) && WellMade(t) && n <= Count(t)
    requires forall j | 0 <= j < |types| :: WellMade(types[j]) && Plain(types[j])
    ensures AggParts(t, types, n).Some? <==> forall i | 0 <= i < n :: Suits(t, types, i)
  {
    hide Suits, AggElement, Plain, WellMade;
    if n > 0 {
      PartsAccepted(t, types, n - 1);
      ElementSuits(t, types, n - 1);
    }
  }

  /** More initialisers than elements take are accepted as long as padding makes room for them, are not
    * even compared with a type, and change no store. */
  lemma ExtrasIgnored(t: CgType, types: seq<CgType>, extra: seq<CgType>)
    requires Plain(t) && t.kind == TUPLE && WellMade(t) && 0 < |types| == Virtuals(t.types.list)
    requires forall j | 0 <= j < |types| :: WellMade(types[j]) && Plain(types[j])
    requires forall j | 0 <= j < |extra| :: WellMade(extra[j]) && Plain(extra[j])
    ensures forall j | 0 <= j < |types + extra| :: WellMade((types + extra)[j]) && Plain((types + extra)[j])
    ensures AggOps(t, types + extra) == if |types + extra| <= Count(t) then AggOps(t, types) else None
  {
    var all := types + extra;
    forall j | 0 <= j < |all| ensures WellMade(all[j]) && Plain(all[j]) {
      assert all[j] == if j < |types| then types[j] else extra[j - |types|];
    }
    hide *;
    AggOpsCases(t, types);
    AggOpsCases(t, all);
    if |all| <= Count(t) {
      ExtraParts(t, types, extra, Count(t));
    }
  }

  lemma {:induction false} ExtraParts(t: CgType, types: seq<CgType>, extra: seq<CgType>, n: nat)
    requires Plain(t) && t.kind == TUPLE && WellMade(t) && |types| == Virtuals(t.types.list) && n <= Count(t)
    requires forall j | 0 <= j < |types| :: WellMade(types[j]) && Plain(types[j])
    requires forall j | 0 <= j < |types + extra| :: WellMade((types + extra)[j]) && Plain((types + extra)[j])
    ensures AggParts(t, types + extra, n) == AggParts(t, types, n)
  {
    hide AggElement, Plain, WellMade;
    if n > 0 {
      ExtraParts(t, types, extra, n - 1);
      ExtraElement(t, types, extra, n - 1);
    }
  }

  lemma ExtraElement(t: CgType, types: seq<CgType>, extra: seq<CgType>, i: nat)
    requires Plain(t) && t.kind == TUPLE && WellMade(t) && |types| == Virtuals(t.types.list) && i < Count(t)
    requires forall j | 0 <= j < |types| :: WellMade(types[j]) && Plain(types[j])
    requires forall j | 0 <= j < |types + extra| :: WellMade((types + extra)[j]) && Plain((types + extra)[j])
    ensures AggElement(t, types + extra, i) == AggElement(t, types, i)
  {
    TakenBelow(t, i);
    hide StoreOps, ZeroOps, NotEqual, WellMade, Plain, Virtuals;
  }
}
