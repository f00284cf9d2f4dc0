// Aggregate constants: what compile-time evaluation of an initialiser builds,
// and when that is what the run-time initialiser leaves in memory.
module Constants {

  import opened Wrappers
  import opened Outcomes
  import opened Bits
  import opened Growth
  import opened Types
  import opened Layout
  import opened Memory
  import opened Stores
  import opened Aggregates
  import Folding

  /** A typed scalar, an untyped integer, a tuple, or an array, which may come with its own type. */
  datatype Const =
    | Fixed(t: CgType, v: Val)
    | Untyped(n: nat)
    | TupleOf(values: seq<Const>)
    | ArrayOf(declared: Option<CgType>, elems: seq<Const>)

  /** A generated constant with the type it is marked with. */
  datatype CgConst = CgConst(t: CgType, v: Val)

  predicate IsInteger(t: CgType) {
    t.kind in {U8, U16, U32, U64, S8, S16, S32, S64}
  }

  /** The low `size` bytes of a number, lowest first. */
  function IntBytes(n: nat, size: nat): (bs: seq<byte>)
    ensures |bs| == size
  {
    if size == 0 then [] else [n % 256] + IntBytes(n / 256, size - 1)
  }

  /** The number that bytes stand for, lowest first. */
  function Number(bs: seq<byte>): nat {
    if bs == [] then 0 else bs[0] + 256 * Number(bs[1..])
  }

  lemma {:induction false} IntBytesNumber(n: nat, size: nat)
    ensures Number(IntBytes(n, size)) == n % Pow2(8 * size)
    decreases size
  {
    if size > 0 {
      var rest := IntBytes(n / 256, size - 1);
      assert IntBytes(n, size)[1..] == rest;
      IntBytesNumber(n / 256, size - 1);
      Pow2Eight(size);
      hide *;
      LowByte(n, Pow2(8 * (size - 1)));
    }
  }

  lemma Pow2Eight(size: nat)
    requires size > 0
    ensures Pow2(8 * size) == 256 * Pow2(8 * (size - 1))
  {
    Pow2Add(8, 8 * (size - 1));
    assert Pow2(8) == 256;
  }

  lemma LowByte(n: nat, p: nat)
    requires p > 0
    ensures n % 256 + 256 * (n / 256 % p) == n % (256 * p)
  {
    var h := n / 256;
    var q, r := h / p, h % p;
    assert h == q * p + r && n == 256 * h + n % 256;
    assert n == q * (256 * p) + (256 * r + n % 256);
    Remainder(n, 256 * p, q, 256 * r + n % 256);
  }

  /** Equally many bytes that stand for one number are the same bytes. */
  lemma {:induction false} NumberInjective(a: seq<byte>, b: seq<byte>)
    requires |a| == |b| && Number(a) == Number(b)
    ensures a == b
    decreases |a|
  {
    if a != [] {
      assert a[0] == Number(a) % 256 == Number(b) % 256 == b[0];
      NumberInjective(a[1..], b[1..]);
      assert a == [a[0]] + a[1..] && b == [b[0]] + b[1..];
    }
  }

  // Evaluation

  /** The constants of all parts, when they have one. */
  function Parts(exprs: seq<Option<Const>>, n: nat): Option<seq<Const>>
    requires n <= |exprs|
  {
    if n == 0 then Some([])
    else
      var rest := Parts(exprs, n - 1);
      if rest.None? || exprs[n - 1].None? then None else Some(rest.value + [exprs[n - 1].value])
  }

  /** The constant of an aggregate expression. Without parts the first one is asked for its range all
    * the same, which violates an assertion. */
  function Evaluated(exprs: seq<Option<Const>>, tuple: bool, declared: Option<CgType>): Outcome<Const> {
    if exprs == [] then Stuck
    else
      var values := Parts(exprs, |exprs|);
      if values.None? then Failed
      else Done(if tuple then TupleOf(values.value) else ArrayOf(declared, values.value))
  }

  lemma {:induction false} PartsFail(exprs: seq<Option<Const>>, n: nat, m: nat)
    requires n <= m <= |exprs| && Parts(exprs, n).None?
    ensures Parts(exprs, m).None?
  {
    if n < m {
      PartsFail(exprs, n, m - 1);
    }
  }

  method EvalAggregate(exprs: seq<Option<Const>>, tuple: bool, declared: Option<CgType>)
      returns (r: Outcome<Const>)
    ensures r == Evaluated(exprs, tuple, declared)
  {
    if |exprs| == 0 {
      return Stuck;
    }
    var values := [];
    for i := 0 to |exprs|
      invariant Parts(exprs, i) == Some(values)
    {
      if exprs[i].None? {
        PartsFail(exprs, i + 1, |exprs|);
        return Failed;
      }
      values := values + [exprs[i].value];
    }
    return Done(if tuple then TupleOf(values) else ArrayOf(declared, values));
  }

  // Generation

  function NullOf(t: CgType): Val {
    if Plain(t) then Null(t) else Leaf(Zeros(t.size))
  }

  /** What the constant of a tuple has in physical slot `i`. */
  function SlotAt(list: seq<CgType>, values: seq<Val>, i: nat): Val
    requires i < |list|
  {
    var j := Virtuals(list[..i]);
    if list[i].kind == PADDING || j >= |values| then NullOf(list[i]) else values[j]
  }

  function Slots(list: seq<CgType>, values: seq<Val>, n: nat): (r: seq<Val>)
    requires n <= |list|
    ensures |r| == n
    ensures forall i | 0 <= i < n :: r[i] == SlotAt(list, values, i)
  {
    if n == 0 then [] else Slots(list, values, n - 1) + [SlotAt(list, values, n - 1)]
  }

  function Nested(t: CgType): seq<CgType> {
    if t.types.Types? then t.types.list else []
  }

  /** The constant generated for the type `want`. Scalars keep their own type; what is stuck violates an assertion
    * on the nested types of `want`. */
  function Generate(c: Const, want: CgType): Outcome<CgConst>
    decreases c, 1, 0
  {
    match c
    case Fixed(t, v) => Done(CgConst(t, v))
    case Untyped(n) => if IsInteger(want) then Done(CgConst(want, Leaf(IntBytes(n, want.size)))) else Failed
    case TupleOf(_) =>
      var vals := GenerateValues(c, Nested(want), |c.values|);
      if !vals.Done? then vals.Propagate()
      else Done(CgConst(want, Agg(Slots(Nested(want), vals.value, |Nested(want)|))))
    case ArrayOf(declared, _) =>
      var base := Nested(if declared.Some? then declared.value else want);
      if base == [] then Stuck
      else
        var vals := GenerateElems(c, base[0], |c.elems|);
        if !vals.Done? then vals.Propagate() else Done(CgConst(want, Agg(vals.value)))
  }

  /** Value `i` of a tuple is generated for the type at physical index `i`. */
  function GenerateValues(c: Const, list: seq<CgType>, n: nat): (r: Outcome<seq<Val>>)
    requires c.TupleOf? && n <= |c.values|
    ensures r.Done? ==> |r.value| == n <= |list|
    decreases c, 0, n
  {
    if n == 0 then Done([])
    else
      var rest := GenerateValues(c, list, n - 1);
      if !rest.Done? then rest
      else if n - 1 >= |list| then Stuck
      else
        var last := Generate(c.values[n - 1], list[n - 1]);
        if !last.Done? then last.Propagate() else Done(rest.value + [last.value.v])
  }

  function GenerateElems(c: Const, base: CgType, n: nat): (r: Outcome<seq<Val>>)
    requires c.ArrayOf? && n <= |c.elems|
    ensures r.Done? ==> |r.value| == n
    decreases c, 0, n
  {
    if n == 0 then Done([])
    else
      var rest := GenerateElems(c, base, n - 1);
      if !rest.Done? then rest
      else
        var last := Generate(c.elems[n - 1], base);
        if !last.Done? then last.Propagate() else Done(rest.value + [last.value.v])
  }

  lemma {:induction false} ValuesFail(c: Const, list: seq<CgType>, n: nat, m: nat)
    requires c.TupleOf? && n <= m <= |c.values| && !GenerateValues(c, list, n).Done?
    ensures GenerateValues(c, list, m) == GenerateValues(c, list, n)
  {
    hide Generate;
    if n < m {
      ValuesFail(c, list, n, m - 1);
    }
  }

  lemma {:induction false} ElemsFail(c: Const, base: CgType, n: nat, m: nat)
    requires c.ArrayOf? && n <= m <= |c.elems| && !GenerateElems(c, base, n).Done?
    ensures GenerateElems(c, base, m) == GenerateElems(c, base, n)
  {
    hide Generate;
    if n < m {
      ElemsFail(c, base, n, m - 1);
    }
  }

  method GenConst(c: Const, want: CgType) returns (r: Outcome<CgConst>)
    ensures r == Generate(c, want)
    decreases c, 1
  {
    hide GenerateValues, GenerateElems, Slots, IntBytes;
    match c
    case Fixed(t, v) => r := Done(CgConst(t, v));
    case Untyped(n) =>
      r := if IsInteger(want) then Done(CgConst(want, Leaf(IntBytes(n, want.size)))) else Failed;
    case TupleOf(_) =>
      var vals := GenTuple(c, Nested(want));
      if !vals.Done? {
        return if vals.Failed? then Failed else Stuck;
      }
      var consts := PlaceTuple(Nested(want), vals.value);
      r := Done(CgConst(want, Agg(consts)));
    case ArrayOf(declared, _) =>
      var base := Nested(if declared.Some? then declared.value else want);
      if |base| == 0 {
        return Stuck;
      }
      var vals := GenArray(c, base[0]);
      if !vals.Done? {
        return if vals.Failed? then Failed else Stuck;
      }
      r := Done(CgConst(want, Agg(vals.value)));
  }

  /** The values of a tuple, one after the other. */
  method GenTuple(c: Const, list: seq<CgType>) returns (r: Outcome<seq<Val>>)
    requires c.TupleOf?
    ensures r == GenerateValues(c, list, |c.values|)
    decreases c, 0
  {
    hide Generate;
    var values := [];
    for i := 0 to |c.values|
      invariant GenerateValues(c, list, i) == Done(values)
    {
      if i >= |list| {
        ValuesFail(c, list, i + 1, |c.values|);
        return Stuck;
      }
      var value := GenConst(c.values[i], list[i]);
      if !value.Done? {
        ValuesFail(c, list, i + 1, |c.values|);
        return value.Propagate();
      }
      values := values + [value.value.v];
    }
    return Done(values);
  }

  /** The elements of an array, one after the other. */
  method GenArray(c: Const, base: CgType) returns (r: Outcome<seq<Val>>)
    requires c.ArrayOf?
    ensures r == GenerateElems(c, base, |c.elems|)
    decreases c, 0
  {
    hide Generate;
    var values := [];
    for i := 0 to |c.elems|
      invariant GenerateElems(c, base, i) == Done(values)
    {
      var value := GenConst(c.elems[i], base);
      if !value.Done? {
        ElemsFail(c, base, i + 1, |c.elems|);
        return value.Propagate();
      }
      values := values + [value.value.v];
    }
    return Done(values);
  }

  /** Walks the type to put zero in padding and in what is not mentioned. */
  method PlaceTuple(list: seq<CgType>, values: seq<Val>) returns (consts: seq<Val>)
    ensures consts == Slots(list, values, |list|)
  {
    consts := [];
    var j := 0;
    for i := 0 to |list|
      invariant consts == Slots(list, values, i)
      invariant j == Virtuals(list[..i])
    {
      VirtualsNext(list, i);
      var field := list[i];
      if field.kind == PADDING {
        consts := consts + [NullOf(field)];
        continue;
      }
      if j >= |values| {
        consts := consts + [NullOf(field)];
      } else {
        consts := consts + [values[j]];
      }
      j := j + 1;
    }
  }

  // Agreement with run time

  /** For plain tuples the walk puts values where run time stores them. */
  lemma SlotsAreFilled(t: CgType, values: seq<Val>)
    requires Plain(t) && t.kind == TUPLE
    ensures Slots(t.types.list, values, Count(t)) == Filled(t, values, Count(t))
  {
    forall i | 0 <= i < Count(t)
      ensures SlotAt(t.types.list, values, i) == FilledElement(t, values, i)
    {
      TakenIsVirtuals(t, i);
    }
  }

  /** Values are at the slots of their virtual indices, so equal tuples have equal values. */
  lemma FilledInjective(t: CgType, values: seq<Val>, others: seq<Val>)
    requires Plain(t) && t.kind == TUPLE && |values| == |others| <= Virtuals(t.types.list)
    requires Filled(t, values, Count(t)) == Filled(t, others, Count(t))
    ensures values == others
  {
    forall v | 0 <= v < |values| ensures values[v] == others[v] {
      FilledPlaces(t, values, v);
      FilledPlaces(t, others, v);
    }
  }

  /** The constant of value `j` of a tuple is what run time has for it. */
  ghost predicate Matches(c: Const, list: seq<CgType>, values: seq<Val>, j: nat)
    requires c.TupleOf? && j < |c.values| == |values| <= |list|
  {
    var r := Generate(c.values[j], list[j]);
    r.Done? && r.value.v == values[j]
  }

  lemma {:induction false} ValuesMatch(c: Const, list: seq<CgType>, values: seq<Val>, n: nat)
    requires c.TupleOf? && n <= |c.values| == |values| <= |list|
    ensures GenerateValues(c, list, n) == Done(values[..n]) <==> forall j | 0 <= j < n :: Matches(c, list, values, j)
    decreases n
  {
    hide Generate;
    if n > 0 {
      ValuesMatch(c, list, values, n - 1);
      assert values[..n] == values[..n - 1] + [values[n - 1]];
      var rest, here := GenerateValues(c, list, n - 1), Matches(c, list, values, n - 1);
      if GenerateValues(c, list, n) == Done(values[..n]) {
        assert rest.value == values[..n][..n - 1] == values[..n - 1];
        assert values[..n][n - 1] == Generate(c.values[n - 1], list[n - 1]).value.v;
        assert here;
      }
      if forall j | 0 <= j < n :: Matches(c, list, values, j) {
        assert here && rest == Done(values[..n - 1]);
      }
    }
  }

  /** The constant of a tuple is the run-time value exactly when the constant of each part, generated for
    * the type at its own index, is the run-time value of that part. Parts may be nested. */
  lemma TupleConstant(t: CgType, c: Const, values: seq<Val>)
    requires Plain(t) && t.kind == TUPLE && c.TupleOf? && |c.values| == |values| <= Virtuals(t.types.list)
    ensures Generate(c, t) == Done(CgConst(t, Agg(Filled(t, values, Count(t)))))
            <==> forall j | 0 <= j < |values| :: Matches(c, t.types.list, values, j)
  {
    hide *;
    TupleGenerates(t, c);
    var list := t.types.list;
    ValuesMatch(c, list, values, |values|);
    assert values[..|values|] == values;
    var r := GenerateValues(c, list, |values|);
    if r.Done? {
      SlotsAreFilled(t, r.value);
      SlotsAreFilled(t, values);
      if Filled(t, r.value, Count(t)) == Filled(t, values, Count(t)) {
        FilledInjective(t, r.value, values);
      }
    }
  }

  lemma TupleGenerates(t: CgType, c: Const)
    requires Plain(t) && t.kind == TUPLE && c.TupleOf?
    ensures Aggregate(t) && t.types.Types? && Count(t) == |t.types.list|
    ensures var r := GenerateValues(c, t.types.list, |c.values|);
            if r.Done? then Generate(c, t) == Done(CgConst(t, Agg(Slots(t.types.list, r.value, Count(t)))))
            else !Generate(c, t).Done?
  {
    hide GenerateValues, Slots;
  }

  /** `v` is `size` bytes that stand for `n` modulo what fits them. */
  predicate StandsFor(v: Val, n: nat, size: nat) {
    v.Leaf? && |v.bytes| == size && Number(v.bytes) == n % Pow2(8 * size)
  }

  lemma StandsForExactly(v: Val, n: nat, size: nat)
    ensures StandsFor(v, n, size) <==> v == Leaf(IntBytes(n, size))
  {
    IntBytesNumber(n, size);
    if StandsFor(v, n, size) {
      NumberInjective(v.bytes, IntBytes(n, size));
    }
  }

  /** An untyped integer becomes the bytes of its number in the integer type asked for, the number that a
    * typed constant of that width emits; any other type refuses it. */
  lemma UntypedNumber(n: nat, t: CgType)
    ensures if IsInteger(t) then
              && Generate(Untyped(n), t).Done?
              && var r := Generate(Untyped(n), t).value;
              && r.t == t && StandsFor(r.v, n, t.size)
              && (t.size <= 8 ==> Number(r.v.bytes) == Folding.Emit(Folding.Const(8 * t.size, n)))
            else Generate(Untyped(n), t) == Failed
  {
    StandsForExactly(Leaf(IntBytes(n, t.size)), n, t.size);
    hide Pow2, IntBytes, Number, Folding.Emit;
    if t.size <= 8 {
      Folding.LiteralsMean(8 * t.size, n);
    }
  }

  /** `c` is a typed scalar, or an untyped integer for a slot of type `e`, and run time gives it the type
    * `s` and the value `v`. */
  predicate Denotes(c: Const, e: CgType, s: CgType, v: Val) {
    match c
    case Fixed(t, w) => !Aggregate(t) && t == s && w == v
    case Untyped(n) => IsInteger(e) && s == e && StandsFor(v, n, e.size)
    case _ => false
  }

  /** Typed scalars and untyped integers for the elements of `t`. */
  ghost predicate Initialisers(t: CgType, cs: seq<Const>, types: seq<CgType>, values: seq<Val>) {
    && Initialises(t, types, values) && 0 < |cs| == |types|
    && (t.kind == TUPLE ==>
          && |cs| <= Virtuals(t.types.list)
          && forall j | 0 <= j < |cs| :: Denotes(cs[j], t.types.list[Virt(t.types.list, j)], types[j], values[j]))
    && (t.kind == ARRAY ==>
          && t.types.list[0].kind != PADDING
          && forall j | 0 <= j < |cs| :: Denotes(cs[j], t.types.list[0], types[j], values[j]))
  }

  /** The type at index `j` does for the type of virtual element `j`: any does for a typed scalar. */
  ghost predicate RightWidth(t: CgType, cs: seq<Const>, j: nat)
    requires t.types.Types? && j < |cs| <= Virtuals(t.types.list)
  {
    var list := t.types.list;
    cs[j].Untyped? ==> IsInteger(list[j]) && list[j].size == list[Virt(list, j)].size
  }

  lemma IntBytesDiffer(n: nat, a: nat, b: nat)
    ensures IntBytes(n, a) == IntBytes(n, b) <==> a == b
  {
    assert |IntBytes(n, a)| == a && |IntBytes(n, b)| == b;
  }

  lemma MatchesExactly(t: CgType, cs: seq<Const>, types: seq<CgType>, values: seq<Val>, j: nat)
    requires Initialisers(t, cs, types, values) && t.kind == TUPLE && j < |cs|
    ensures |cs| == |values| <= |t.types.list|
    ensures Matches(TupleOf(cs), t.types.list, values, j) <==> RightWidth(t, cs, j)
  {
    var list := t.types.list;
    var e := list[Virt(list, j)];
    assert Denotes(cs[j], e, types[j], values[j]);
    hide Plain, WellMade, WellLaid, IntBytes, Taken;
    if cs[j].Untyped? {
      IntBytesDiffer(cs[j].n, list[j].size, e.size);
      StandsForExactly(values[j], cs[j].n, e.size);
    }
  }

  /** A tuple of scalars is the same constant as run time leaves in memory exactly when every untyped
    * integer among them finds an integer type of the width of its element at its own index. */
  lemma TuplesAgree(t: CgType, cs: seq<Const>, types: seq<CgType>, values: seq<Val>, m: seq<byte>, base: nat)
    requires Initialisers(t, cs, types, values) && t.kind == TUPLE && base + t.size <= |m|
    ensures AggOps(t, types).Some?
    ensures var left := Load(t, Run(AggOps(t, types).value, m, base, Agg(values))[base..base + t.size]);
            Generate(TupleOf(cs), t) == Done(CgConst(t, left)) <==> forall j | 0 <= j < |cs| :: RightWidth(t, cs, j)
  {
    hide *;
    InitialisersMeans(t, cs, types, values);
    InitialiserStored(t, types, values, m, base);
    ScalarsUnpadded(t, cs, types, values);
    TupleConstant(t, TupleOf(cs), values);
    forall j | 0 <= j < |cs| ensures Matches(TupleOf(cs), t.types.list, values, j) <==> RightWidth(t, cs, j) {
      MatchesExactly(t, cs, types, values, j);
    }
  }

  lemma InitialisersMeans(t: CgType, cs: seq<Const>, types: seq<CgType>, values: seq<Val>)
    requires Initialisers(t, cs, types, values)
    ensures Initialises(t, types, values) && 0 < |cs| == |types| == |values|
    ensures Plain(t) && Aggregate(t) && WellMade(t) && t.types.Types?
    ensures t.kind == TUPLE ==> |cs| <= Virtuals(t.types.list)
    ensures t.kind == ARRAY ==>
              |cs| <= t.extent && |t.types.list| == 1 && t.types.list[0].kind != PADDING && Count(t) == t.extent
    ensures forall j | 0 <= j < |types| :: WellMade(types[j]) && Plain(types[j])
  {
    hide Typed, WellLaid, WellMade, Taken, Strip;
  }

  /** Scalars hold no padding. */
  lemma ScalarsUnpadded(t: CgType, cs: seq<Const>, types: seq<CgType>, values: seq<Val>)
    requires Initialisers(t, cs, types, values)
    ensures |values| == |types|
    ensures forall j | 0 <= j < |types| :: Plain(types[j]) && ZeroPads(values[j], types[j]) == values[j]
  {
    hide WellLaid, WellMade, Taken, Strip, Virt, Virtuals, IntBytes;
    forall j | 0 <= j < |types| ensures Plain(types[j]) && ZeroPads(values[j], types[j]) == values[j] {
      var e := if t.kind == TUPLE then t.types.list[Virt(t.types.list, j)] else t.types.list[0];
      assert Denotes(cs[j], e, types[j], values[j]);
    }
  }

  lemma {:induction false} TakenInArray(t: CgType, i: nat)
    requires Plain(t) && t.kind == ARRAY && t.types.list[0].kind != PADDING && i <= Count(t)
    ensures Taken(t, i) == i
  {
    if i > 0 {
      TakenInArray(t, i - 1);
    }
  }

  /** What run time leaves in an array is its initialisers followed by zeros. */
  lemma ArrayFilled(t: CgType, values: seq<Val>)
    requires Plain(t) && t.kind == ARRAY && t.types.list[0].kind != PADDING && |values| <= t.extent
    ensures Count(t) == t.extent == |Filled(t, values, Count(t))|
    ensures forall i | 0 <= i < t.extent ::
              Filled(t, values, Count(t))[i] == if i < |values| then values[i] else Null(t.types.list[0])
    ensures Agg(Filled(t, values, Count(t))) == Agg(values) <==> |values| == t.extent
  {
    var all := Filled(t, values, Count(t));
    forall i | 0 <= i < t.extent
      ensures all[i] == if i < |values| then values[i] else Null(t.types.list[0])
    {
      TakenInArray(t, i);
    }
    if |values| == t.extent {
      assert all == values;
    }
  }

  lemma {:induction false} ElemsDenote(t: CgType, c: Const, types: seq<CgType>, values: seq<Val>, n: nat)
    requires c.ArrayOf? && t.types.Types? && |t.types.list| > 0 && n <= |c.elems| == |types| == |values|
    requires forall j | 0 <= j < |c.elems| :: Denotes(c.elems[j], t.types.list[0], types[j], values[j])
    ensures GenerateElems(c, t.types.list[0], n) == Done(values[..n])
    decreases n
  {
    hide IntBytes;
    if n > 0 {
      ElemsDenote(t, c, types, values, n - 1);
      assert Denotes(c.elems[n - 1], t.types.list[0], types[n - 1], values[n - 1]);
      if c.elems[n - 1].Untyped? {
        StandsForExactly(values[n - 1], c.elems[n - 1].n, t.types.list[0].size);
      }
      assert values[..n] == values[..n - 1] + [values[n - 1]];
    }
  }

  /** An array constant has one element for each value and no zeros after them. */
  lemma ArrayGenerates(t: CgType, declared: Option<CgType>, cs: seq<Const>, types: seq<CgType>, values: seq<Val>)
    requires Initialisers(t, cs, types, values) && t.kind == ARRAY
    requires declared.Some? ==> Nested(declared.value) == t.types.list
    ensures Generate(ArrayOf(declared, cs), t) == Done(CgConst(t, Agg(values)))
  {
    var c := ArrayOf(declared, cs);
    ElemsDenote(t, c, types, values, |cs|);
    hide GenerateElems, Denotes, WellMade, WellLaid, Typed, Taken;
    assert values[..|cs|] == values;
  }

  /** An array of scalars is the same constant as run time leaves in memory exactly when every element
    * is given: run time fills the others with zero, the constant lacks them. */
  lemma ArraysAgree(t: CgType, declared: Option<CgType>, cs: seq<Const>, types: seq<CgType>, values: seq<Val>,
                    m: seq<byte>, base: nat)
    requires Initialisers(t, cs, types, values) && t.kind == ARRAY && base + t.size <= |m|
    requires declared.Some? ==> Nested(declared.value) == t.types.list
    ensures AggOps(t, types).Some?
    ensures var left := Load(t, Run(AggOps(t, types).value, m, base, Agg(values))[base..base + t.size]);
            Generate(ArrayOf(declared, cs), t) == Done(CgConst(t, left)) <==> |cs| == t.extent
  {
    hide *;
    InitialisersMeans(t, cs, types, values);
    InitialiserStored(t, types, values, m, base);
    ScalarsUnpadded(t, cs, types, values);
    ArrayGenerates(t, declared, cs, types, values);
    ArrayFilled(t, values);
  }

  // Where they differ

  /** `[4]Uint32{x, y}`: the constant has two elements, and is no value of its type. */
  lemma ShortArray(x: Val, y: Val)
    ensures var t := CgType(ARRAY, 16, 4, 4, Types([Scalar(U32, 4)]), None, None);
            var c := ArrayOf(Some(t), [Fixed(Scalar(U32, 4), x), Fixed(Scalar(U32, 4), y)]);
            && Generate(c, t) == Done(CgConst(t, Agg([x, y])))
            && !Typed(Agg([x, y]), t)
            && Agg([x, y]) != Agg(Filled(t, [x, y], Count(t)))
  {
    var t := CgType(ARRAY, 16, 4, 4, Types([Scalar(U32, 4)]), None, None);
    var c := ArrayOf(Some(t), [Fixed(Scalar(U32, 4), x), Fixed(Scalar(U32, 4), y)]);
    assert Plain(Scalar(U32, 4));
    assert Nested(t)[0] == Scalar(U32, 4);
    assert GenerateElems(c, Scalar(U32, 4), 0) == Done([]);
    assert Generate(c.elems[0], Scalar(U32, 4)).value.v == x && Generate(c.elems[1], Scalar(U32, 4)).value.v == y;
    assert GenerateElems(c, Scalar(U32, 4), 1).value == [x];
    assert GenerateElems(c, Scalar(U32, 4), 2).value == [x, y];
    assert |Filled(t, [x, y], Count(t))| == 4;
  }

  /** How `{Uint8, T}` is laid out for a `T` aligned to more than a byte. */
  function AfterByte(e: CgType): CgType
    requires e.align > 1
  {
    CgType(TUPLE, e.align + e.size, e.align, 0, Types([Uint8, PaddingType(e.align - 1), e]), Some([]), None)
  }

  lemma CeilSmall(a: nat, b: nat)
    requires a > 1 && b % a == 0
    ensures Ceil(0, 1) == 0 && Ceil(1, a) == a && Ceil(b, a) == b
  {
    Remainder(a, a, 1, 0);
    var q := b / a;
    assert b == q * a;
    Remainder(b + a - 1, a, q, a - 1);
  }

  lemma AfterByteMade(e: CgType, host: Host)
    requires IsPow2(e.align) && e.align > 1 && e.size % e.align == 0 && e.kind != VA && e.align + e.size < W
    requires Provides(host, e.align)
    ensures TupleType(TupleInfo([Uint8, e], None, None), host) == Done(AfterByte(e))
  {
    hide *;
    var info, a, b := TupleInfo([Uint8, e], None, None), e.align, e.align + e.size;
    AfterByteOffsets(a, e.size);
    AfterBytePads(a, host);
    var p0 := Partial([], [], 0, 0);
    var p1 := Partial([Uint8], [], 1, 1);
    var p2 := Partial([Uint8, PaddingType(a - 1), e], [], b, a);
    ByteShape();
    PutFlush(p0, Uint8, host);
    PutPadded(p1, e, a - 1, host);
    assert p0.padded + [Uint8] == p1.padded;
    assert p1.padded + [PaddingType(a - 1)] + [e] == p2.padded;
    LaidTwo(info, p0, p1, p2, host);
    PadNothing(p2, b, true, host);
    FinishMeans(p2, None, host);
    AfterByteIs(e);
  }

  lemma ByteShape()
    ensures Uint8.kind == U8 && Uint8.size == 1 && Uint8.align == 1
  {
  }

  lemma AfterByteIs(e: CgType)
    requires e.align > 1
    ensures AfterByte(e) == CgType(TUPLE, e.align + e.size, e.align, 0,
                                   Types([Uint8, PaddingType(e.align - 1), e]), Some([]), None)
  {
  }

  lemma AfterByteOffsets(a: nat, s: nat)
    requires IsPow2(a) && a > 1 && s % a == 0 && a + s < W
    ensures AlignUp(0, 1) == 0 && AlignUp(1, a) == a && AlignUp(a + s, a) == a + s
    ensures 1 % W == 1 && (a - 1) % W == a - 1 && (a + s) % W == a + s && 0 % W == 0
  {
    assert IsPow2(1) by { assert Pow2(0) == 1; }
    hide *;
    SumsToMultiple(a, s);
    CeilSmall(a, a + s);
    AlignUpIsCeil(0, 1);
    AlignUpIsCeil(1, a);
    AlignUpIsCeil(a + s, a);
    Small(0);
    Small(1);
    Small(a - 1);
    Small(a + s);
  }

  lemma AfterBytePads(a: nat, host: Host)
    requires a > 1 && a < W && Provides(host, a)
    ensures Fate(a - 1, host) == Done(PaddingType(a - 1))
  {
    hide Pow2, Room;
  }

  lemma LaidTwo(info: TupleInfo, p0: Partial, p1: Partial, p2: Partial, host: Host)
    requires |info.types| == 2 && info.fields.None? && p0 == Partial([], [], 0, 0)
    requires Put(p0, info.types[0], None, host) == Done(p1) && Put(p1, info.types[1], None, host) == Done(p2)
    ensures TupleType(info, host) == Finish(p2, info.named, host)
  {
    hide Put, Finish;
    assert Lay(info, 0, host) == Done(p0);
    assert Lay(info, 1, host) == Done(p1);
    assert Lay(info, 2, host) == Done(p2);
    assert Finish(p2, info.named, host).Done? || !Finish(p2, info.named, host).Done?;
  }

  lemma PutFlush(p: Partial, t: CgType, host: Host)
    requires t.kind != VA && AlignUp(p.offset, t.align) == p.offset && (p.offset + t.size) % W == p.offset + t.size
    ensures Put(p, t, None, host)
         == Done(Partial(p.padded + [t], p.fields, p.offset + t.size,
                         if p.alignment > t.align then p.alignment else t.align))
  {
    hide AlignUp, Pow2, PadTo;
    PadNothing(p, p.offset, false, host);
    assert p.fields + [] == p.fields;
  }

  lemma PutPadded(p: Partial, t: CgType, n: nat, host: Host)
    requires t.kind != VA && AlignUp(p.offset, t.align) == p.offset + n && 0 < n && n % W == n
    requires (p.offset + n + t.size) % W == p.offset + n + t.size
    requires Fate(n, host) == Done(PaddingType(n))
    ensures Put(p, t, None, host)
         == Done(Partial(p.padded + [PaddingType(n)] + [t], p.fields, p.offset + n + t.size,
                         if p.alignment > t.align then p.alignment else t.align))
  {
    hide AlignUp, Pow2, Fate, PaddingType;
    assert p.fields + [] == p.fields;
  }

  lemma SumsToMultiple(a: nat, s: nat)
    requires a > 0 && s % a == 0
    ensures (a + s) % a == 0
  {
    var q := s / a;
    assert s == q * a;
    assert a + s == (q + 1) * a;
    Remainder(a + s, a, q + 1, 0);
  }

  const Pair: CgType :=
    CgType(TUPLE, 4, 2, 0, Types([Scalar(U16, 2), Scalar(U16, 2)]), Some([]), None)

  /** `{Uint8, {Uint16, Uint16}}`: the constant of the inner tuple is generated for the padding before it,
    * which has no second element, and violates an assertion. */
  lemma NestedStuck(a: Val, x: Val, y: Val)
    ensures var inner := TupleOf([Fixed(Scalar(U16, 2), x), Fixed(Scalar(U16, 2), y)]);
            && Generate(inner, Pair) == Done(CgConst(Pair, Agg([x, y])))
            && Generate(TupleOf([Fixed(Uint8, a), inner]), AfterByte(Pair)) == Stuck
  {
    var inner := TupleOf([Fixed(Scalar(U16, 2), x), Fixed(Scalar(U16, 2), y)]);
    var outer := TupleOf([Fixed(Uint8, a), inner]);
    var list := Nested(AfterByte(Pair));
    assert list[1] == PaddingType(1) && |Nested(PaddingType(1))| == 1;
    PairGenerates(inner, x, y);
    assert GenerateValues(inner, Nested(PaddingType(1)), 2) == Stuck;
    assert GenerateValues(outer, list, 1).Done?;
    assert GenerateValues(outer, list, 2) == Stuck;
  }

  lemma PairGenerates(inner: Const, x: Val, y: Val)
    requires inner == TupleOf([Fixed(Scalar(U16, 2), x), Fixed(Scalar(U16, 2), y)])
    ensures forall list: seq<CgType> | |list| == 1 :: GenerateValues(inner, list, 1) == Done([x])
    ensures Generate(inner, Pair) == Done(CgConst(Pair, Agg([x, y])))
  {
    forall list: seq<CgType> | |list| >= 1 ensures GenerateValues(inner, list, 1) == Done([x]) {
      assert GenerateValues(inner, list, 0) == Done([]);
      assert inner.values[0] == Fixed(Scalar(U16, 2), x);
      assert Generate(inner.values[0], list[0]).Done?;
      assert GenerateValues(inner, list, 1).value == [x];
    }
    var list := Pair.types.list;
    assert Generate(inner.values[1], list[1]).Done?;
    assert GenerateValues(inner, list, 2).value == [x, y];
    VirtualsNext(list, 0);
    VirtualsNext(list, 1);
    assert list[..0] == [];
    assert Slots(list, [x, y], 2) == [x, y];
  }

  /** `{Uint8, Uint32}` with an untyped integer second: run time takes it, the constant is refused, since
    * it is asked to be padding. */
  lemma UntypedRefused(a: Val, n: nat)
    ensures Generate(TupleOf([Fixed(Uint8, a), Untyped(n)]), AfterByte(Scalar(U32, 4))) == Failed
    ensures Generate(Untyped(n), Scalar(U32, 4)).Done?
  {
    var c := TupleOf([Fixed(Uint8, a), Untyped(n)]);
    var list := Nested(AfterByte(Scalar(U32, 4)));
    assert list[1].kind == PADDING;
    assert GenerateValues(c, list, 1).Done?;
    assert GenerateValues(c, list, 2) == Failed;
  }
}
