// Demand-driven generation of types: an identifier generates the typedef it
// names, so typedefs end up sorted by dependency whatever their order.
module Typegen {

  import opened Wrappers
  import opened Outcomes
  import opened Bits
  import opened Growth
  import opened Types
  import opened Layout
  import opened Memory
  import opened Unions

  datatype Elem = Elem(name: Option<string>, t: AstType)

  /** `Array` carries the value of its extent, if that is an integer constant. */
  datatype AstType =
    | Ident(ident: string)
    | Tuple(elems: seq<Elem>)
    | Group(of: AstType)
    | Union(variants: seq<AstType>)
    | Ptr(base: AstType)
    | Array(base: AstType, extent: Option<nat>)
    | Slice(base: AstType)
    | Atom(base: AstType)

  datatype Typedef = Typedef(name: string, body: AstType)

  const Uint64: CgType := Scalar(U64, 8)

  const String: CgType := CgType(STRING, 16, 8, 0, Types([Pointer(Some(Uint8)), Uint64]), None, None)

  function Builtin(name: string): Option<CgType> {
    if name == "Uint8" then Some(Uint8)
    else if name == "Uint16" then Some(Scalar(U16, 2))
    else if name == "Uint32" then Some(Scalar(U32, 4))
    else if name == "Uint64" then Some(Uint64)
    else if name == "Sint8" then Some(Scalar(S8, 1))
    else if name == "Sint16" then Some(Scalar(S16, 2))
    else if name == "Sint32" then Some(Scalar(S32, 4))
    else if name == "Sint64" then Some(Scalar(S64, 8))
    else if name == "Bool8" then Some(Scalar(B8, 1))
    else if name == "Bool16" then Some(Scalar(B16, 2))
    else if name == "Bool32" then Some(Scalar(B32, 4))
    else if name == "Bool64" then Some(Scalar(B64, 8))
    else if name == "Real32" then Some(Scalar(F32, 4))
    else if name == "Real64" then Some(Scalar(F64, 8))
    else if name == "String" then Some(String)
    else if name == "Address" then Some(Pointer(None))
    else if name == "Length" then Some(Uint64)
    else None
  }

  function PointerTo(base: CgType, named: Option<string>): CgType {
    Pointer(Some(base)).(name := named)
  }

  function SliceOf(base: CgType): CgType {
    CgType(SLICE, 16, 8, 0, Types([base, Uint64]), None, None)
  }

  predicate Atomable(base: CgType) {
    base.kind in {U8, U16, U32, U64, S8, S16, S32, S64, PTR}
  }

  function AtomOf(base: CgType, named: Option<string>): CgType {
    CgType(ATOMIC, base.size, base.align, 0, Types([base]), None, named)
  }

  // The meaning of a type: its full expansion

  /** Index of the typedef called `name`, or the number of typedefs. */
  function Find(unit: seq<Typedef>, name: string): (i: nat)
    ensures i <= |unit|
    ensures i < |unit| ==> unit[i].name == name
    ensures forall j | 0 <= j < i :: unit[j].name != name
  {
    if unit == [] then 0 else if unit[0].name == name then 0 else 1 + Find(unit[1..], name)
  }

  function Fields(elems: seq<Elem>): (r: seq<Field>)
    ensures |r| == |elems|
  {
    seq(|elems|, i requires 0 <= i < |elems| => Field(elems[i].name))
  }

  function MadeTuple(elems: seq<Elem>, types: seq<CgType>, named: Option<string>, host: Host): Outcome<CgType>
    requires |elems| == |types|
  {
    TupleType(TupleInfo(types, Some(Fields(elems)), named), host)
  }

  /** Replaces names by the bodies of their typedefs, at most `fuel` deep: where that is not enough the
    * source is in an endless recursion. */
  function Expand(unit: seq<Typedef>, host: Host, t: AstType, named: Option<string>, fuel: nat): Outcome<CgType>
    decreases fuel, t, 0
  {
    match t
    case Ident(name) =>
      if Builtin(name).Some? then Done(Builtin(name).value)
      else
        var i := Find(unit, name);
        if i == |unit| then Failed
        else if fuel == 0 then Stuck
        else Expand(unit, host, unit[i].body, Some(unit[i].name), fuel - 1)
    case Tuple(elems) =>
      if elems == [] then Done(UnitType)
      else
        var types := ExpandElems(unit, host, elems, fuel);
        if !types.Done? then types.Propagate() else MadeTuple(elems, types.value, named, host)
    case Group(of) => Expand(unit, host, of, named, fuel)
    case Union(variants) =>
      var types := ExpandAll(unit, host, variants, fuel);
      if !types.Done? then types.Propagate() else MadeUnion(types.value, named, host)
    case Ptr(base) =>
      var b := Expand(unit, host, base, None, fuel);
      if !b.Done? then b else Done(PointerTo(b.value, named))
    case Array(base, extent) =>
      var b := Expand(unit, host, base, None, fuel);
      if !b.Done? then b
      else if extent.None? then Failed
      else Done(ArrayType(b.value, extent.value % W, named))
    case Slice(base) =>
      var b := Expand(unit, host, base, None, fuel);
      if !b.Done? then b else Done(SliceOf(b.value))
    case Atom(base) =>
      var b := Expand(unit, host, base, None, fuel);
      if !b.Done? then b else if !Atomable(b.value) then Failed else Done(AtomOf(b.value, named))
  }

  function ExpandElems(unit: seq<Typedef>, host: Host, elems: seq<Elem>, fuel: nat): (r: Outcome<seq<CgType>>)
    ensures r.Done? ==> |r.value| == |elems|
    decreases fuel, elems, 1
  {
    if elems == [] then Done([])
    else
      var n := |elems| - 1;
      var rest := ExpandElems(unit, host, elems[..n], fuel);
      if !rest.Done? then rest
      else
        assert elems[n].t < elems[n];
        var last := Expand(unit, host, elems[n].t, None, fuel);
        if !last.Done? then last.Propagate() else Done(rest.value + [last.value])
  }

  function ExpandAll(unit: seq<Typedef>, host: Host, ts: seq<AstType>, fuel: nat): (r: Outcome<seq<CgType>>)
    ensures r.Done? ==> |r.value| == |ts|
    decreases fuel, ts, 1
  {
    if ts == [] then Done([])
    else
      var n := |ts| - 1;
      var rest := ExpandAll(unit, host, ts[..n], fuel);
      if !rest.Done? then rest
      else
        var last := Expand(unit, host, ts[n], None, fuel);
        if !last.Done? then last.Propagate() else Done(rest.value + [last.value])
  }

  /** Names that are not builtin and occur in `t`. */
  function Mentions(t: AstType): set<string>
    decreases t, 0
  {
    match t
    case Ident(name) => if Builtin(name).Some? then {} else {name}
    case Tuple(elems) => MentionsElems(elems)
    case Group(of) => Mentions(of)
    case Union(variants) => MentionsAll(variants)
    case Ptr(base) => Mentions(base)
    case Array(base, _) => Mentions(base)
    case Slice(base) => Mentions(base)
    case Atom(base) => Mentions(base)
  }

  function MentionsElems(elems: seq<Elem>): set<string>
    decreases elems, 1
  {
    if elems == [] then {}
    else
      var n := |elems| - 1;
      assert elems[n].t < elems[n];
      MentionsElems(elems[..n]) + Mentions(elems[n].t)
  }

  function MentionsAll(ts: seq<AstType>): set<string>
    decreases ts, 1
  {
    if ts == [] then {} else MentionsAll(ts[..|ts| - 1]) + Mentions(ts[|ts| - 1])
  }

  /** Every typedef named in `t` ranks below `bound`. */
  ghost predicate Below(unit: seq<Typedef>, rank: seq<nat>, names: set<string>, bound: nat)
    requires |rank| == |unit|
  {
    forall n | n in names :: Find(unit, n) < |unit| ==> rank[Find(unit, n)] < bound
  }

  /** Typedefs rank above those they name: there are no cycles. */
  ghost predicate Acyclic(unit: seq<Typedef>, rank: seq<nat>) {
    |rank| == |unit| && forall i | 0 <= i < |unit| :: Below(unit, rank, Mentions(unit[i].body), rank[i])
  }

  ghost predicate Distinct(unit: seq<Typedef>) {
    forall i, j | 0 <= i < j < |unit| :: unit[i].name != unit[j].name
  }

  /** Once there is enough fuel, more makes no difference. */
  lemma {:induction false} EnoughFuel(unit: seq<Typedef>, host: Host, rank: seq<nat>, t: AstType,
                                      named: Option<string>, b: nat, f: nat)
    requires Acyclic(unit, rank) && Below(unit, rank, Mentions(t), b) && b <= f
    ensures Expand(unit, host, t, named, b) == Expand(unit, host, t, named, f)
    decreases b, t, 1
  {
    match t
    case Ident(name) => EnoughIdent(unit, host, rank, name, named, b, f);
    case Tuple(elems) => EnoughElems(unit, host, rank, elems, b, f);
    case Group(of) => EnoughFuel(unit, host, rank, of, named, b, f);
    case Union(variants) => EnoughAll(unit, host, rank, variants, b, f);
    case Ptr(base) => EnoughFuel(unit, host, rank, base, None, b, f);
    case Array(base, _) => EnoughFuel(unit, host, rank, base, None, b, f);
    case Slice(base) => EnoughFuel(unit, host, rank, base, None, b, f);
    case Atom(base) => EnoughFuel(unit, host, rank, base, None, b, f);
  }

  lemma {:induction false} EnoughIdent(unit: seq<Typedef>, host: Host, rank: seq<nat>, name: string,
                                       named: Option<string>, b: nat, f: nat)
    requires Acyclic(unit, rank) && Below(unit, rank, Mentions(Ident(name)), b) && b <= f
    ensures Expand(unit, host, Ident(name), named, b) == Expand(unit, host, Ident(name), named, f)
    decreases b, Ident(name), 0
  {
    hide *;
    BuiltinExpands(unit, host, name, named, b);
    BuiltinExpands(unit, host, name, named, f);
    var i := Find(unit, name);
    if Builtin(name).None? && i < |unit| {
      RankBelow(unit, rank, name, i, b);
      IdentExpands(unit, host, name, i, named, b);
      IdentExpands(unit, host, name, i, named, f);
      EnoughFuel(unit, host, rank, unit[i].body, Some(unit[i].name), rank[i], b - 1);
      EnoughFuel(unit, host, rank, unit[i].body, Some(unit[i].name), rank[i], f - 1);
    }
  }

  lemma {:induction false} EnoughElems(unit: seq<Typedef>, host: Host, rank: seq<nat>, elems: seq<Elem>, b: nat, f: nat)
    requires Acyclic(unit, rank) && Below(unit, rank, MentionsElems(elems), b) && b <= f
    ensures ExpandElems(unit, host, elems, b) == ExpandElems(unit, host, elems, f)
    decreases b, elems, 1
  {
    if elems != [] {
      var n := |elems| - 1;
      EnoughElems(unit, host, rank, elems[..n], b, f);
      assert elems[n].t < elems[n];
      EnoughFuel(unit, host, rank, elems[n].t, None, b, f);
    }
  }

  lemma {:induction false} EnoughAll(unit: seq<Typedef>, host: Host, rank: seq<nat>, ts: seq<AstType>, b: nat, f: nat)
    requires Acyclic(unit, rank) && Below(unit, rank, MentionsAll(ts), b) && b <= f
    ensures ExpandAll(unit, host, ts, b) == ExpandAll(unit, host, ts, f)
    decreases b, ts, 1
  {
    if ts != [] {
      var n := |ts| - 1;
      EnoughAll(unit, host, rank, ts[..n], b, f);
      EnoughFuel(unit, host, rank, ts[n], None, b, f);
    }
  }

  // Invariants of expansions

  /** Every type that is generated is well made, so that comparing types is an equivalence. */
  lemma {:induction false} ExpandWellMade(unit: seq<Typedef>, host: Host, t: AstType, named: Option<string>, fuel: nat)
    requires Expand(unit, host, t, named, fuel).Done?
    ensures WellMade(Expand(unit, host, t, named, fuel).value)
    decreases fuel, t, 0
  {
    match t
    case Ident(name) =>
      if Builtin(name).Some? {
        BuiltinMade(name);
      } else {
        var i := Find(unit, name);
        ExpandWellMade(unit, host, unit[i].body, Some(unit[i].name), fuel - 1);
      }
    case Tuple(elems) =>
      if elems != [] {
        ElemsWellMade(unit, host, elems, fuel);
        hide TupleType, WellMade;
        TupleIsMade(TupleInfo(ExpandElems(unit, host, elems, fuel).value, Some(Fields(elems)), named), host);
      }
    case Group(of) => ExpandWellMade(unit, host, of, named, fuel);
    case Union(variants) => AllWellMade(unit, host, variants, fuel);
    case Ptr(base) => ExpandWellMade(unit, host, base, None, fuel);
    case Array(base, _) => ExpandWellMade(unit, host, base, None, fuel);
    case Slice(base) => ExpandWellMade(unit, host, base, None, fuel);
    case Atom(base) => ExpandWellMade(unit, host, base, None, fuel);
  }

  lemma BuiltinMade(name: string)
    requires Builtin(name).Some?
    ensures WellMade(Builtin(name).value)
  {
    assert WellMade(Uint8) && WellMade(Uint64);
    assert WellMade(Pointer(Some(Uint8)));
    assert WellMade(String);
  }

  lemma {:induction false} ElemsWellMade(unit: seq<Typedef>, host: Host, elems: seq<Elem>, fuel: nat)
    requires ExpandElems(unit, host, elems, fuel).Done?
    ensures AllMade(ExpandElems(unit, host, elems, fuel).value)
    decreases fuel, elems, 1
  {
    if elems != [] {
      var n := |elems| - 1;
      ElemsWellMade(unit, host, elems[..n], fuel);
      assert elems[n].t < elems[n];
      ExpandWellMade(unit, host, elems[n].t, None, fuel);
    }
  }

  lemma {:induction false} AllWellMade(unit: seq<Typedef>, host: Host, ts: seq<AstType>, fuel: nat)
    requires ExpandAll(unit, host, ts, fuel).Done?
    ensures AllMade(ExpandAll(unit, host, ts, fuel).value)
    decreases fuel, ts, 1
  {
    if ts != [] {
      var n := |ts| - 1;
      AllWellMade(unit, host, ts[..n], fuel);
      ExpandWellMade(unit, host, ts[n], None, fuel);
    }
  }

  /** `type T = {Uint32, {}}` never gets a type. */
  lemma UnitTypedefStuck(host: Host, fuel: nat)
    ensures var body := Tuple([Elem(None, Ident("Uint32")), Elem(None, Tuple([]))]);
            Expand([Typedef("T", body)], host, body, Some("T"), fuel).Stuck?
  {
    var elems := [Elem(None, Ident("Uint32")), Elem(None, Tuple([]))];
    var unit := [Typedef("T", Tuple(elems))];
    hide TupleType, ExpandElems;
    TupleMeans(unit, host, elems, Some("T"), fuel);
    ElemsNext(unit, host, elems, 0, fuel);
    ElemsNext(unit, host, elems, 1, fuel);
    assert elems[..0] == [] && elems[..2] == elems;
    assert Builtin("Uint32") == Some(Scalar(U32, 4));
    assert ExpandElems(unit, host, elems, fuel).value == [Scalar(U32, 4), UnitType];
    UnitsAfterSized(TupleInfo([Scalar(U32, 4), UnitType], Some(Fields(elems)), Some("T")), host, U32, 4);
  }

  /** Types that are neither unions nor wide booleans, nor hold any but behind a pointer. */
  predicate Solid(unit: seq<Typedef>, t: AstType, fuel: nat)
    decreases fuel, t, 0
  {
    match t
    case Ident(name) =>
      if Builtin(name).Some? then Plain(Builtin(name).value)
      else
        var i := Find(unit, name);
        i < |unit| && fuel > 0 ==> Solid(unit, unit[i].body, fuel - 1)
    case Tuple(elems) => forall k | 0 <= k < |elems| :: Solid(unit, elems[k].t, fuel)
    case Group(of) => Solid(unit, of, fuel)
    case Union(_) => false
    case Ptr(_) => true
    case Array(base, _) => Solid(unit, base, fuel)
    case Slice(_) => true
    case Atom(base) => Solid(unit, base, fuel)
  }

  /** An upper bound for the place that elements take. */
  function Bulk(ts: seq<CgType>): nat {
    if ts == [] then 0
    else Bulk(ts[..|ts| - 1]) + ts[|ts| - 1].size + ts[|ts| - 1].align
  }

  /** No tuple or array in `t` comes near the size at which 64 bits wrap. */
  predicate Modest(unit: seq<Typedef>, host: Host, t: AstType, fuel: nat)
    decreases fuel, t, 0
  {
    match t
    case Ident(name) =>
      var i := Find(unit, name);
      Builtin(name).None? && i < |unit| && fuel > 0 ==> Modest(unit, host, unit[i].body, fuel - 1)
    case Tuple(elems) =>
      && (forall k | 0 <= k < |elems| :: Modest(unit, host, elems[k].t, fuel))
      && var types := ExpandElems(unit, host, elems, fuel);
         types.Done? ==> 4 * Bulk(types.value) < W
    case Group(of) => Modest(unit, host, of, fuel)
    case Union(variants) => forall k | 0 <= k < |variants| :: Modest(unit, host, variants[k], fuel)
    case Ptr(_) => true
    case Array(base, extent) =>
      && Modest(unit, host, base, fuel)
      && var b := Expand(unit, host, base, None, fuel);
         b.Done? && extent.Some? ==> b.value.size * (extent.value % W) < W
    case Slice(_) => true
    case Atom(base) => Modest(unit, host, base, fuel)
  }

  /** What holds of every generated type that is solid and modest. */
  ghost predicate Sturdy(t: CgType) {
    Element(t) && t.kind != VA && Plain(t) && WellLaid(t)
  }

  ghost predicate AllSturdy(ts: seq<CgType>) {
    forall i | 0 <= i < |ts| :: Sturdy(ts[i])
  }

  /** Generated types, without unions and wide booleans and of sizes that do not wrap, have every store
    * covered: they are plain, and laid out with every nested element aligned. */
  lemma {:induction false} ExpandSturdy(unit: seq<Typedef>, host: Host, t: AstType, named: Option<string>, fuel: nat)
    requires Expand(unit, host, t, named, fuel).Done?
    requires Solid(unit, t, fuel) && Modest(unit, host, t, fuel)
    ensures Sturdy(Expand(unit, host, t, named, fuel).value)
    decreases fuel, t, 0
  {
    hide Sturdy, TupleType, ArrayType, WellLaid, Plain;
    match t
    case Ident(name) =>
      if Builtin(name).Some? {
        BuiltinSturdy(name);
      } else {
        var i := Find(unit, name);
        ExpandSturdy(unit, host, unit[i].body, Some(unit[i].name), fuel - 1);
      }
    case Tuple(elems) =>
      if elems == [] {
        UnitSturdy();
      } else {
        ElemsSturdy(unit, host, elems, fuel);
        TupleSturdy(TupleInfo(ExpandElems(unit, host, elems, fuel).value, Some(Fields(elems)), named), host);
      }
    case Group(of) => ExpandSturdy(unit, host, of, named, fuel);
    case Ptr(base) => PointerSturdy(Expand(unit, host, base, None, fuel).value, named);
    case Array(base, extent) =>
      ExpandSturdy(unit, host, base, None, fuel);
      ArraySturdy(Expand(unit, host, base, None, fuel).value, extent.value % W, named);
    case Slice(base) => SliceSturdy(Expand(unit, host, base, None, fuel).value);
    case Atom(base) =>
      ExpandSturdy(unit, host, base, None, fuel);
      AtomSturdy(Expand(unit, host, base, None, fuel).value, named);
  }

  lemma {:induction false} ElemsSturdy(unit: seq<Typedef>, host: Host, elems: seq<Elem>, fuel: nat)
    requires ExpandElems(unit, host, elems, fuel).Done?
    requires forall k | 0 <= k < |elems| :: Solid(unit, elems[k].t, fuel) && Modest(unit, host, elems[k].t, fuel)
    ensures AllSturdy(ExpandElems(unit, host, elems, fuel).value)
    decreases fuel, elems, 1
  {
    hide Sturdy;
    if elems != [] {
      var n := |elems| - 1;
      ElemsSturdy(unit, host, elems[..n], fuel);
      assert elems[n].t < elems[n];
      ExpandSturdy(unit, host, elems[n].t, None, fuel);
    }
  }

  lemma Pow2Sizes()
    ensures IsPow2(1) && IsPow2(2) && IsPow2(4) && IsPow2(8)
  {
    assert Pow2(0) == 1 && Pow2(1) == 2 && Pow2(2) == 4 && Pow2(3) == 8;
    hide Pow2;
  }

  lemma ScalarSturdy(kind: Kind, size: nat)
    requires kind !in {TUPLE, ARRAY, UNION, VA, PADDING, B16, B32, B64} && size in {1, 2, 4, 8}
    ensures Sturdy(Scalar(kind, size))
  {
    Pow2Sizes();
    hide IsPow2;
  }

  lemma BuiltinSturdy(name: string)
    requires Builtin(name).Some? && Plain(Builtin(name).value)
    ensures Sturdy(Builtin(name).value)
  {
    hide *;
    BuiltinShape(name);
    var t := Builtin(name).value;
    if t.kind in {STRING, PTR} {
      WordsSturdy();
    } else {
      ScalarSturdy(t.kind, t.size);
    }
  }

  lemma BuiltinShape(name: string)
    requires Builtin(name).Some? && Plain(Builtin(name).value)
    ensures var t := Builtin(name).value;
            && (t.kind == STRING ==> t == String) && (t.kind == PTR ==> t == Pointer(None))
            && (t.kind !in {STRING, PTR} ==>
                  && t == Scalar(t.kind, t.size) && t.size in {1, 2, 4, 8}
                  && t.kind !in {TUPLE, ARRAY, UNION, VA, PADDING, B16, B32, B64})
  {
  }

  lemma WordsSturdy()
    ensures Sturdy(String) && Sturdy(Pointer(None))
  {
    Pow2Sizes();
    hide IsPow2, Pow2;
  }

  lemma UnitSturdy()
    ensures Sturdy(UnitType)
  {
    hide IsPow2;
  }

  lemma PointerSturdy(base: CgType, named: Option<string>)
    ensures Sturdy(PointerTo(base, named))
  {
    Pow2Sizes();
    hide IsPow2;
  }

  lemma SliceSturdy(base: CgType)
    ensures Sturdy(SliceOf(base))
  {
    Pow2Sizes();
    hide IsPow2;
  }

  lemma AtomSturdy(base: CgType, named: Option<string>)
    requires Sturdy(base)
    ensures Sturdy(AtomOf(base, named))
  {
    hide IsPow2;
  }

  lemma ArraySturdy(base: CgType, extent: nat, named: Option<string>)
    requires Sturdy(base) && base.size * extent < W
    ensures Sturdy(ArrayType(base, extent, named))
  {
    ArrayWellLaid(base, extent, named);
    hide IsPow2, WellLaid, Pow2;
    Small(base.size * extent);
  }

  lemma {:induction false} EndWithinBulk(ts: seq<CgType>, n: nat)
    requires n <= |ts|
    ensures End(ts, n) <= Bulk(ts[..n]) && MaxAlign(ts, n) <= Bulk(ts[..n])
  {
    if n > 0 {
      EndWithinBulk(ts, n - 1);
      assert ts[..n][..n - 1] == ts[..n - 1];
      StartAligned(ts, n - 1);
      EndNext(ts, n - 1);
      hide Start, End, MaxAlign;
    }
  }

  lemma {:induction false} BulkMonotone(ts: seq<CgType>, n: nat)
    requires n <= |ts|
    ensures Bulk(ts[..n]) <= Bulk(ts)
    decreases |ts| - n
  {
    if n < |ts| {
      BulkMonotone(ts, n + 1);
      assert ts[..n + 1][..n] == ts[..n];
    } else {
      assert ts[..n] == ts;
    }
  }

  /** A modest tuple that is made is sturdy when its elements are. */
  lemma TupleSturdy(info: TupleInfo, host: Host)
    requires info.Valid() && AllSturdy(info.types) && 4 * Bulk(info.types) < W
    requires TupleType(info, host).Done?
    ensures Sturdy(TupleType(info, host).value)
  {
    hide *;
    var ts := info.types;
    SturdyMeans(ts);
    MadePlaces(info, host);
    TotalModest(ts);
    TupleLayout(info, host);
    var t := TupleType(info, host).value;
    LaidOutMeans(info, t);
    TupleWellLaid(info, host);
    TuplePlain(info, host);
    MaxAlignKind(ts, |ts|);
    TotalMeans(ts);
    SturdyWhen(t);
  }

  lemma SturdyMeans(ts: seq<CgType>)
    requires AllSturdy(ts)
    ensures forall i | 0 <= i < |ts| :: Element(ts[i]) && ts[i].kind != VA && Plain(ts[i]) && WellLaid(ts[i])
  {
    hide Element, Plain, WellLaid;
  }

  lemma SturdyWhen(t: CgType)
    requires t.kind == TUPLE && Plain(t) && WellLaid(t)
    requires IsPow2(t.align) || (t.align == 0 && t.size == 0)
    ensures Sturdy(t)
  {
    hide IsPow2, Plain, WellLaid;
  }

  lemma TotalModest(ts: seq<CgType>)
    requires 4 * Bulk(ts) < W && PlacesAll(ts, |ts|)
    ensures Total(ts) < W
    ensures MaxAlign(ts, |ts|) == 0 ==> Total(ts) == 0
  {
    EndWithinBulk(ts, |ts|);
    assert ts[..|ts|] == ts;
    if MaxAlign(ts, |ts|) > 0 {
      CeilNear(End(ts, |ts|), MaxAlign(ts, |ts|));
    }
    hide Pow2;
  }

  /** Since it is made, no unit comes after anything of size. */
  lemma MadePlaces(info: TupleInfo, host: Host)
    requires info.Valid() && 4 * Bulk(info.types) < W
    requires forall k | 0 <= k < |info.types| :: Element(info.types[k])
    requires TupleType(info, host).Done?
    ensures PlacesAll(info.types, |info.types|)
  {
    hide *;
    if !PlacesAll(info.types, |info.types|) {
      var n := FirstUnplaced(info.types, |info.types|);
      EndWithinBulk(info.types, n);
      BulkMonotone(info.types, n);
      UnitStuck(info, n, host);
      assert false;
    }
  }

  // Declaration order

  /** Both units bind every name to the same body. */
  ghost predicate SameBindings(u: seq<Typedef>, u': seq<Typedef>) {
    forall name ::
      var i, i' := Find(u, name), Find(u', name);
      (i < |u| <==> i' < |u'|) && (i < |u| && i' < |u'| ==> u[i] == u'[i'])
  }

  lemma Reordered(u: seq<Typedef>, u': seq<Typedef>)
    requires multiset(u) == multiset(u') && Distinct(u) && Distinct(u')
    ensures SameBindings(u, u')
  {
    forall name
      ensures var i, i' := Find(u, name), Find(u', name);
              (i < |u| <==> i' < |u'|) && (i < |u| && i' < |u'| ==> u[i] == u'[i'])
    {
      Carried(u, u', name);
      Carried(u', u, name);
    }
  }

  lemma Carried(u: seq<Typedef>, u': seq<Typedef>, name: string)
    requires multiset(u) == multiset(u') && Distinct(u')
    ensures Find(u, name) < |u| ==> Find(u', name) < |u'| && u'[Find(u', name)] == u[Find(u, name)]
  {
    var i := Find(u, name);
    if i < |u| {
      assert u[i] in multiset(u);
      assert u[i] in multiset(u');
      var j :| 0 <= j < |u'| && u'[j] == u[i];
    }
  }

  /** The expansion of a type depends on the bindings only, not on their order. */
  lemma {:induction false} SameExpansion(u: seq<Typedef>, u': seq<Typedef>, host: Host, t: AstType,
                                         named: Option<string>, fuel: nat)
    requires SameBindings(u, u')
    ensures Expand(u, host, t, named, fuel) == Expand(u', host, t, named, fuel)
    decreases fuel, t, 0
  {
    match t
    case Ident(name) =>
      var i, i' := Find(u, name), Find(u', name);
      if Builtin(name).None? && i < |u| && i' < |u'| && fuel > 0 {
        SameExpansion(u, u', host, u[i].body, Some(u[i].name), fuel - 1);
      }
    case Tuple(elems) => SameElems(u, u', host, elems, fuel);
    case Group(of) => SameExpansion(u, u', host, of, named, fuel);
    case Union(variants) => SameAll(u, u', host, variants, fuel);
    case Ptr(base) => SameExpansion(u, u', host, base, None, fuel);
    case Array(base, _) => SameExpansion(u, u', host, base, None, fuel);
    case Slice(base) => SameExpansion(u, u', host, base, None, fuel);
    case Atom(base) => SameExpansion(u, u', host, base, None, fuel);
  }

  lemma {:induction false} SameElems(u: seq<Typedef>, u': seq<Typedef>, host: Host, elems: seq<Elem>, fuel: nat)
    requires SameBindings(u, u')
    ensures ExpandElems(u, host, elems, fuel) == ExpandElems(u', host, elems, fuel)
    decreases fuel, elems, 1
  {
    if elems != [] {
      var n := |elems| - 1;
      SameElems(u, u', host, elems[..n], fuel);
      assert elems[n].t < elems[n];
      SameExpansion(u, u', host, elems[n].t, None, fuel);
    }
  }

  lemma {:induction false} SameAll(u: seq<Typedef>, u': seq<Typedef>, host: Host, ts: seq<AstType>, fuel: nat)
    requires SameBindings(u, u')
    ensures ExpandAll(u, host, ts, fuel) == ExpandAll(u', host, ts, fuel)
    decreases fuel, ts, 1
  {
    if ts != [] {
      var n := |ts| - 1;
      SameAll(u, u', host, ts[..n], fuel);
      SameExpansion(u, u', host, ts[n], None, fuel);
    }
  }

  /** A type that names something undeclared has no expansion. */
  lemma {:induction false} UndeclaredFails(unit: seq<Typedef>, host: Host, t: AstType, named: Option<string>,
                                           fuel: nat, name: string)
    requires name in Mentions(t) && Find(unit, name) == |unit|
    ensures !Expand(unit, host, t, named, fuel).Done?
    decreases t, 0
  {
    match t
    case Ident(_) =>
    case Tuple(elems) => UndeclaredElem(unit, host, elems, fuel, name);
    case Group(of) => UndeclaredFails(unit, host, of, named, fuel, name);
    case Union(variants) => UndeclaredVariant(unit, host, variants, fuel, name);
    case Ptr(base) => UndeclaredFails(unit, host, base, None, fuel, name);
    case Array(base, _) => UndeclaredFails(unit, host, base, None, fuel, name);
    case Slice(base) => UndeclaredFails(unit, host, base, None, fuel, name);
    case Atom(base) => UndeclaredFails(unit, host, base, None, fuel, name);
  }

  lemma {:induction false} UndeclaredElem(unit: seq<Typedef>, host: Host, elems: seq<Elem>, fuel: nat, name: string)
    requires name in MentionsElems(elems) && Find(unit, name) == |unit|
    ensures !ExpandElems(unit, host, elems, fuel).Done?
    decreases elems, 1
  {
    var n := |elems| - 1;
    if name in MentionsElems(elems[..n]) {
      UndeclaredElem(unit, host, elems[..n], fuel, name);
    } else {
      assert elems[n].t < elems[n];
      UndeclaredFails(unit, host, elems[n].t, None, fuel, name);
    }
  }

  lemma {:induction false} UndeclaredVariant(unit: seq<Typedef>, host: Host, ts: seq<AstType>, fuel: nat, name: string)
    requires name in MentionsAll(ts) && Find(unit, name) == |unit|
    ensures !ExpandAll(unit, host, ts, fuel).Done?
    decreases ts, 1
  {
    var n := |ts| - 1;
    if name in MentionsAll(ts[..n]) {
      UndeclaredVariant(unit, host, ts[..n], fuel, name);
    } else {
      UndeclaredFails(unit, host, ts[n], None, fuel, name);
    }
  }

  // Generation

  datatype Entry = Entry(name: string, t: CgType)

  function Names(entries: seq<Entry>): set<string> {
    set i | 0 <= i < |entries| :: entries[i].name
  }

  /** Entries are distinct, expanded in full, and come after the entries they name. */
  ghost predicate Sorted(unit: seq<Typedef>, host: Host, rank: seq<nat>, entries: seq<Entry>)
    requires |rank| == |unit|
  {
    && (forall p, q | 0 <= p < q < |entries| :: entries[p].name != entries[q].name)
    && (forall p | 0 <= p < |entries| ::
          var i := Find(unit, entries[p].name);
          && i < |unit|
          && Expand(unit, host, unit[i].body, Some(unit[i].name), rank[i]) == Done(entries[p].t)
          && Mentions(unit[i].body) <= Names(entries[..p]))
  }

  lemma SortedAppend(unit: seq<Typedef>, host: Host, rank: seq<nat>, entries: seq<Entry>, i: nat, t: CgType)
    requires |rank| == |unit| && Sorted(unit, host, rank, entries)
    requires Distinct(unit) && i < |unit| && unit[i].name !in Names(entries)
    requires Expand(unit, host, unit[i].body, Some(unit[i].name), rank[i]) == Done(t)
    requires Mentions(unit[i].body) <= Names(entries)
    ensures Sorted(unit, host, rank, entries + [Entry(unit[i].name, t)])
    ensures Names(entries + [Entry(unit[i].name, t)]) == Names(entries) + {unit[i].name}
  {
    var e := Entry(unit[i].name, t);
    var es := entries + [e];
    assert Find(unit, e.name) == i;
    assert es[..|entries|] == entries;
    forall p | 0 <= p < |es|
      ensures var k := Find(unit, es[p].name);
              && k < |unit|
              && Expand(unit, host, unit[k].body, Some(unit[k].name), rank[k]) == Done(es[p].t)
              && Mentions(unit[k].body) <= Names(es[..p])
    {
      if p < |entries| {
        assert es[p] == entries[p] && es[..p] == entries[..p];
      }
    }
    assert es[|entries|] == e;
    assert forall p | 0 <= p < |entries| :: es[p] == entries[p];
  }

  /** `after` extends `before`, by typedefs that rank below `bound`. */
  ghost predicate Grown(unit: seq<Typedef>, rank: seq<nat>, before: seq<Entry>, after: seq<Entry>, bound: nat)
    requires |rank| == |unit|
  {
    && before <= after
    && forall p | |before| <= p < |after| ::
         Find(unit, after[p].name) < |unit| && rank[Find(unit, after[p].name)] < bound
  }

  lemma GrownTwice(unit: seq<Typedef>, rank: seq<nat>, a: seq<Entry>, b: seq<Entry>, c: seq<Entry>, m: nat, n: nat)
    requires |rank| == |unit| && Grown(unit, rank, a, b, m) && Grown(unit, rank, b, c, m) && m <= n
    ensures Grown(unit, rank, a, c, n)
  {
    forall p | |a| <= p < |c|
      ensures Find(unit, c[p].name) < |unit| && rank[Find(unit, c[p].name)] < n
    {
      if p < |b| {
        assert b[p] == c[p];
      }
    }
  }

  lemma GrownNames(a: seq<Entry>, b: seq<Entry>)
    requires a <= b
    ensures Names(a) <= Names(b)
  {
    forall n | n in Names(a) ensures n in Names(b) {
      var i :| 0 <= i < |a| && a[i].name == n;
      assert b[i] == a[i];
    }
  }

  lemma {:induction false} MentionsElem(elems: seq<Elem>, i: nat)
    requires i < |elems|
    ensures Mentions(elems[i].t) <= MentionsElems(elems)
    decreases |elems|
  {
    if i < |elems| - 1 {
      MentionsElem(elems[..|elems| - 1], i);
    }
  }

  lemma {:induction false} MentionsOne(ts: seq<AstType>, i: nat)
    requires i < |ts|
    ensures Mentions(ts[i]) <= MentionsAll(ts)
    decreases |ts|
  {
    if i < |ts| - 1 {
      MentionsOne(ts[..|ts| - 1], i);
    }
  }

  lemma GrownNone(unit: seq<Typedef>, rank: seq<nat>, entries: seq<Entry>, bound: nat)
    requires |rank| == |unit|
    ensures Grown(unit, rank, entries, entries, bound)
  {
  }

  lemma GrownMore(unit: seq<Typedef>, rank: seq<nat>, a: seq<Entry>, b: seq<Entry>, m: nat, n: nat)
    requires |rank| == |unit| && Grown(unit, rank, a, b, m) && m <= n
    ensures Grown(unit, rank, a, b, n)
  {
  }

  lemma GrownStarts(unit: seq<Typedef>, rank: seq<nat>, a: seq<Entry>, b: seq<Entry>, bound: nat)
    requires |rank| == |unit| && Grown(unit, rank, a, b, bound)
    ensures a <= b
  {
  }

  lemma GrownByOne(unit: seq<Typedef>, rank: seq<nat>, a: seq<Entry>, b: seq<Entry>, i: nat, t: CgType)
    requires |rank| == |unit| && Distinct(unit) && i < |unit| && Grown(unit, rank, a, b, rank[i])
    ensures Grown(unit, rank, a, b + [Entry(unit[i].name, t)], rank[i] + 1)
  {
    var c := b + [Entry(unit[i].name, t)];
    assert Find(unit, unit[i].name) == i;
    forall p | |a| <= p < |c|
      ensures Find(unit, c[p].name) < |unit| && rank[Find(unit, c[p].name)] < rank[i] + 1
    {
      if p < |b| {
        assert c[p] == b[p];
      }
    }
  }

  lemma Kept(a: seq<Entry>, b: seq<Entry>, p: nat)
    requires a <= b && p < |a|
    ensures b[p] == a[p] && b[p].name in Names(a)
  {
  }

  /** Generating the body of a typedef does not generate the typedef itself. */
  lemma StillMissing(unit: seq<Typedef>, rank: seq<nat>, a: seq<Entry>, b: seq<Entry>, i: nat)
    requires |rank| == |unit| && Distinct(unit) && i < |unit| && Grown(unit, rank, a, b, rank[i])
    requires unit[i].name !in Names(a)
    ensures unit[i].name !in Names(b)
  {
    assert Find(unit, unit[i].name) == i;
    forall p | 0 <= p < |b| ensures b[p].name != unit[i].name {
      if p < |a| {
        Kept(a, b, p);
      }
    }
  }

  lemma BelowLess(unit: seq<Typedef>, rank: seq<nat>, some: set<string>, all: set<string>, bound: nat)
    requires |rank| == |unit| && some <= all && Below(unit, rank, all, bound)
    ensures Below(unit, rank, some, bound)
  {
  }

  /** An entry is what its name expands to. */
  lemma ExpandKnown(unit: seq<Typedef>, host: Host, rank: seq<nat>, entries: seq<Entry>, p: nat,
                    named: Option<string>, bound: nat)
    requires Acyclic(unit, rank) && Sorted(unit, host, rank, entries) && p < |entries|
    requires Builtin(entries[p].name).None? && Below(unit, rank, Mentions(Ident(entries[p].name)), bound)
    ensures Expand(unit, host, Ident(entries[p].name), named, bound) == Done(entries[p].t)
    ensures entries[p].name in Names(entries)
  {
    IdentMeans(unit, host, rank, entries[p].name, Find(unit, entries[p].name), named, bound);
  }

  lemma IdentMeans(unit: seq<Typedef>, host: Host, rank: seq<nat>, name: string, i: nat,
                   named: Option<string>, bound: nat)
    requires Acyclic(unit, rank) && i < |unit| && unit[i].name == name
    requires forall j | 0 <= j < i :: unit[j].name != name
    requires Builtin(name).None? && Below(unit, rank, Mentions(Ident(name)), bound)
    ensures Find(unit, name) == i && rank[i] < bound
    ensures Expand(unit, host, Ident(name), named, bound)
         == Expand(unit, host, unit[i].body, Some(unit[i].name), rank[i])
  {
    hide *;
    RankBelow(unit, rank, name, i, bound);
    IdentExpands(unit, host, name, i, named, bound);
    EnoughFuel(unit, host, rank, unit[i].body, Some(unit[i].name), rank[i], bound - 1);
  }

  lemma RankBelow(unit: seq<Typedef>, rank: seq<nat>, name: string, i: nat, bound: nat)
    requires Acyclic(unit, rank) && i < |unit| && unit[i].name == name
    requires forall j | 0 <= j < i :: unit[j].name != name
    requires Builtin(name).None? && Below(unit, rank, Mentions(Ident(name)), bound)
    ensures Find(unit, name) == i && |rank| == |unit| && rank[i] < bound
    ensures Below(unit, rank, Mentions(unit[i].body), rank[i])
  {
    assert Find(unit, name) == i;
    assert name in Mentions(Ident(name));
    hide Find, Builtin;
  }

  lemma IdentExpands(unit: seq<Typedef>, host: Host, name: string, i: nat, named: Option<string>, fuel: nat)
    requires i < |unit| && Find(unit, name) == i && Builtin(name).None? && fuel > 0
    ensures Expand(unit, host, Ident(name), named, fuel)
         == Expand(unit, host, unit[i].body, Some(unit[i].name), fuel - 1)
  {
  }

  lemma BuiltinExpands(unit: seq<Typedef>, host: Host, name: string, named: Option<string>, bound: nat)
    ensures Builtin(name).Some? ==> Mentions(Ident(name)) == {}
    ensures Builtin(name).None? ==> Mentions(Ident(name)) == {name}
    ensures Builtin(name).Some? ==> Expand(unit, host, Ident(name), named, bound) == Done(Builtin(name).value)
    ensures Builtin(name).None? && Find(unit, name) == |unit| ==>
              Expand(unit, host, Ident(name), named, bound) == Failed
  {
  }

  lemma KnownExpands(unit: seq<Typedef>, host: Host, rank: seq<nat>, entries: seq<Entry>, i: nat)
    requires |rank| == |unit| && Sorted(unit, host, rank, entries) && Distinct(unit)
    requires i < |unit| && unit[i].name in Names(entries)
    ensures Expand(unit, host, unit[i].body, Some(unit[i].name), rank[i]).Done?
  {
    var p :| 0 <= p < |entries| && entries[p].name == unit[i].name;
    assert Find(unit, unit[i].name) == i;
  }

  lemma TupleMeans(unit: seq<Typedef>, host: Host, elems: seq<Elem>, named: Option<string>, bound: nat)
    ensures Expand(unit, host, Tuple(elems), named, bound) ==
            if elems == [] then Done(UnitType)
            else
              var types := ExpandElems(unit, host, elems, bound);
              if !types.Done? then types.Propagate()
              else TupleType(TupleInfo(types.value, Some(Fields(elems)), named), host)
    ensures ExpandElems(unit, host, [], bound) == Done([])
    ensures MentionsElems([]) == {}
    ensures Mentions(Tuple(elems)) == MentionsElems(elems)
  {
    hide TupleType;
  }

  lemma ElemsNext(unit: seq<Typedef>, host: Host, elems: seq<Elem>, i: nat, bound: nat)
    requires i < |elems|
    ensures ExpandElems(unit, host, elems[..i + 1], bound) ==
            var rest := ExpandElems(unit, host, elems[..i], bound);
            var last := Expand(unit, host, elems[i].t, None, bound);
            if !rest.Done? then rest
            else if !last.Done? then last.Propagate()
            else Done(rest.value + [last.value])
    ensures MentionsElems(elems[..i + 1]) == MentionsElems(elems[..i]) + Mentions(elems[i].t)
  {
    hide Expand, Mentions;
    assert elems[..i + 1][..i] == elems[..i];
  }

  lemma {:induction false} ElemsFail(unit: seq<Typedef>, host: Host, elems: seq<Elem>, n: nat, bound: nat)
    requires n <= |elems| && !ExpandElems(unit, host, elems[..n], bound).Done?
    ensures ExpandElems(unit, host, elems, bound) == ExpandElems(unit, host, elems[..n], bound)
    decreases |elems| - n
  {
    hide Expand, Mentions;
    if n < |elems| {
      ElemsNext(unit, host, elems, n, bound);
      ElemsFail(unit, host, elems, n + 1, bound);
    } else {
      assert elems[..n] == elems;
    }
  }

  lemma UnionMeans(unit: seq<Typedef>, host: Host, variants: seq<AstType>, named: Option<string>, bound: nat)
    ensures Expand(unit, host, Union(variants), named, bound) ==
            var types := ExpandAll(unit, host, variants, bound);
            if !types.Done? then types.Propagate() else MadeUnion(types.value, named, host)
    ensures ExpandAll(unit, host, [], bound) == Done([])
    ensures MentionsAll([]) == {}
    ensures Mentions(Union(variants)) == MentionsAll(variants)
  {
    hide UnionSlots, UnionType;
  }

  lemma AllNext(unit: seq<Typedef>, host: Host, ts: seq<AstType>, i: nat, bound: nat)
    requires i < |ts|
    ensures ExpandAll(unit, host, ts[..i + 1], bound) ==
            var rest := ExpandAll(unit, host, ts[..i], bound);
            var last := Expand(unit, host, ts[i], None, bound);
            if !rest.Done? then rest
            else if !last.Done? then last.Propagate()
            else Done(rest.value + [last.value])
    ensures MentionsAll(ts[..i + 1]) == MentionsAll(ts[..i]) + Mentions(ts[i])
  {
    hide Expand, Mentions;
    assert ts[..i + 1][..i] == ts[..i];
  }

  lemma {:induction false} AllFail(unit: seq<Typedef>, host: Host, ts: seq<AstType>, n: nat, bound: nat)
    requires n <= |ts| && !ExpandAll(unit, host, ts[..n], bound).Done?
    ensures ExpandAll(unit, host, ts, bound) == ExpandAll(unit, host, ts[..n], bound)
    decreases |ts| - n
  {
    hide Expand, Mentions;
    if n < |ts| {
      AllNext(unit, host, ts, n, bound);
      AllFail(unit, host, ts, n + 1, bound);
    } else {
      assert ts[..n] == ts;
    }
  }

  /** Units that declare the same typedefs in any two orders bind a name to the same type. */
  lemma OrderIndependent(u: seq<Typedef>, rank: seq<nat>, es: seq<Entry>, p: nat,
                         u': seq<Typedef>, rank': seq<nat>, es': seq<Entry>, p': nat, host: Host)
    requires Acyclic(u, rank) && Acyclic(u', rank') && Distinct(u) && Distinct(u')
    requires multiset(u) == multiset(u')
    requires Sorted(u, host, rank, es) && Sorted(u', host, rank', es')
    requires p < |es| && p' < |es'| && es[p].name == es'[p'].name
    ensures es[p].t == es'[p'].t
  {
    Reordered(u, u');
    var i, i' := Find(u, es[p].name), Find(u', es'[p'].name);
    assert u[i] == u'[i'];
    var body, named := u[i].body, Some(u[i].name);
    var f := rank[i] + rank'[i'];
    hide Expand, Mentions, Distinct, SameBindings;
    EnoughFuel(u, host, rank, body, named, rank[i], f);
    EnoughFuel(u', host, rank', body, named, rank'[i'], f);
    SameExpansion(u, u', host, body, named, f);
  }

  /** With every name entered, there are as many entries as typedefs. */
  lemma AllEntered(unit: seq<Typedef>, host: Host, rank: seq<nat>, entries: seq<Entry>)
    requires |rank| == |unit| && Distinct(unit) && Sorted(unit, host, rank, entries)
    requires forall i | 0 <= i < |unit| :: unit[i].name in Names(entries)
    ensures |entries| == |unit|
    ensures Names(entries) == set i | 0 <= i < |unit| :: unit[i].name
  {
    hide Expand, Mentions;
    var named := set i | 0 <= i < |unit| :: unit[i].name;
    forall n | n in Names(entries) ensures n in named {
      var p :| 0 <= p < |entries| && entries[p].name == n;
      assert unit[Find(unit, n)].name == n;
    }
    assert Names(entries) == named;
    CountEntries(entries);
    CountTypedefs(unit);
  }

  lemma {:induction false} CountEntries(entries: seq<Entry>)
    requires forall p, q | 0 <= p < q < |entries| :: entries[p].name != entries[q].name
    ensures |Names(entries)| == |entries|
  {
    if entries != [] {
      var n := |entries| - 1;
      var rest := entries[..n];
      CountEntries(rest);
      assert Names(entries) == Names(rest) + {entries[n].name} by {
        forall x | x in Names(entries) ensures x in Names(rest) + {entries[n].name} {
          var p :| 0 <= p < |entries| && entries[p].name == x;
          assert p < n ==> rest[p] == entries[p];
        }
        GrownNames(rest, entries);
      }
    }
  }

  lemma {:induction false} CountTypedefs(unit: seq<Typedef>)
    requires Distinct(unit)
    ensures |set i | 0 <= i < |unit| :: unit[i].name| == |unit|
  {
    if unit != [] {
      var n := |unit| - 1;
      var rest := unit[..n];
      CountTypedefs(rest);
      var a := set i | 0 <= i < |rest| :: rest[i].name;
      var b := set i | 0 <= i < |unit| :: unit[i].name;
      assert forall i | 0 <= i < n :: rest[i] == unit[i];
      assert b == a + {unit[n].name};
    }
  }

  /** The compiler's state while types are generated. */
  class Generator {
    const unit: seq<Typedef>
    ghost const rank: seq<nat>
    const cache: TypeCache
    var generated: seq<bool>
    var typedefs: seq<Entry>

    ghost predicate Valid()
      reads this, cache
    {
      && |rank| == |unit| && Acyclic(unit, rank) && Distinct(unit) && cache.Valid()
      && |generated| == |unit|
      && Sorted(unit, cache.host, rank, typedefs)
      && forall i | 0 <= i < |unit| :: generated[i] <==> unit[i].name in Names(typedefs)
    }

    /** The full expansion of typedef `i`. */
    ghost function Expansion(i: nat): Outcome<CgType>
      requires i < |unit| == |rank|
    {
      Expand(unit, cache.host, unit[i].body, Some(unit[i].name), rank[i])
    }

    lemma ValidMeans()
      requires Valid()
      ensures |rank| == |unit| && Acyclic(unit, rank) && Distinct(unit) && cache.Valid()
      ensures Sorted(unit, cache.host, rank, typedefs)
    {
    }

    constructor (unit: seq<Typedef>, ghost rank: seq<nat>, cache: TypeCache)
      requires Acyclic(unit, rank) && Distinct(unit) && cache.Valid()
      ensures Valid() && this.unit == unit && this.rank == rank && this.cache == cache && typedefs == []
    {
      this.unit := unit;
      this.rank := rank;
      this.cache := cache;
      generated := seq(|unit|, _ => false);
      typedefs := [];
    }

    method CodegenType(t: AstType, named: Option<string>, ghost bound: nat) returns (r: Outcome<CgType>)
      requires Valid() && Below(unit, rank, Mentions(t), bound)
      modifies this, cache
      ensures Valid() && Grown(unit, rank, old(typedefs), typedefs, bound)
      ensures r == Expand(unit, cache.host, t, named, bound)
      ensures r.Done? ==> Mentions(t) <= Names(typedefs)
      decreases 2 * bound, t, 2
    {
      hide Sorted, Acyclic, Below, Grown, Distinct, TupleType, UnionSlots, UnionType, PaddingType;
      match t
      case Ident(name) =>
        r := CodegenIdent(name, named, bound);
      case Tuple(elems) =>
        r := CodegenTuple(elems, named, bound);
      case Group(of) =>
        r := CodegenType(of, named, bound);
      case Union(variants) =>
        r := CodegenUnion(variants, named, bound);
      case Ptr(base) =>
        r := CodegenType(base, None, bound);
        r := if !r.Done? then r else Done(PointerTo(r.value, named));
      case Array(base, extent) =>
        r := CodegenType(base, None, bound);
        if r.Done? {
          r := if extent.None? then Failed else Done(ArrayType(r.value, extent.value % W, named));
        }
      case Slice(base) =>
        r := CodegenType(base, None, bound);
        r := if !r.Done? then r else Done(SliceOf(r.value));
      case Atom(base) =>
        r := CodegenType(base, None, bound);
        if r.Done? {
          r := if Atomable(r.value) then Done(AtomOf(r.value, named)) else Failed;
        }
    }

    /** A builtin, a typedef already generated, or one that is generated now. */
    method CodegenIdent(name: string, named: Option<string>, ghost bound: nat) returns (r: Outcome<CgType>)
      requires Valid() && Below(unit, rank, Mentions(Ident(name)), bound)
      modifies this, cache
      ensures Valid() && Grown(unit, rank, old(typedefs), typedefs, bound)
      ensures r == Expand(unit, cache.host, Ident(name), named, bound)
      ensures r.Done? ==> Mentions(Ident(name)) <= Names(typedefs)
      decreases 2 * bound, Ident(name), if name in Names(typedefs) then 0 else 1
    {
      hide *;
      ValidMeans();
      GrownNone(unit, rank, typedefs, bound);
      BuiltinExpands(unit, cache.host, name, named, bound);
      var builtin := Builtin(name);
      if builtin.Some? {
        return Done(builtin.value);
      }
      var p := FindEntry(name);
      if p < |typedefs| {
        ExpandKnown(unit, cache.host, rank, typedefs, p, named, bound);
        return Done(typedefs[p].t);
      }
      var i := FindTypedef(name);
      if i < |unit| {
        IdentMeans(unit, cache.host, rank, name, i, named, bound);
        var generates := CodegenTypedef(i);
        ghost var mid := typedefs;
        GrownMore(unit, rank, old(typedefs), mid, rank[i] + 1, bound);
        if !generates.Done? {
          return if generates.Failed? then Failed else Stuck;
        }
        r := CodegenIdent(name, named, bound);
        GrownTwice(unit, rank, old(typedefs), mid, typedefs, bound, bound);
        return;
      }
      return Failed;
    }

    /** Index of the entry of that name, or the number of entries. */
    method FindEntry(name: string) returns (p: nat)
      ensures p <= |typedefs| && (p < |typedefs| ==> typedefs[p].name == name)
      ensures p == |typedefs| ==> name !in Names(typedefs)
    {
      p := 0;
      while p < |typedefs|
        invariant p <= |typedefs|
        invariant forall q | 0 <= q < p :: typedefs[q].name != name
      {
        if typedefs[p].name == name {
          return;
        }
        p := p + 1;
      }
    }

    /** Index of the declaration of that name, or the number of declarations. */
    method FindTypedef(name: string) returns (i: nat)
      ensures i == Find(unit, name)
    {
      i := 0;
      while i < |unit|
        invariant i <= |unit|
        invariant forall j | 0 <= j < i :: unit[j].name != name
      {
        if unit[i].name == name {
          return;
        }
        i := i + 1;
      }
    }

    method CodegenTuple(elems: seq<Elem>, named: Option<string>, ghost bound: nat) returns (r: Outcome<CgType>)
      requires Valid() && Below(unit, rank, Mentions(Tuple(elems)), bound)
      modifies this, cache
      ensures Valid() && Grown(unit, rank, old(typedefs), typedefs, bound)
      ensures r == Expand(unit, cache.host, Tuple(elems), named, bound)
      ensures r.Done? ==> Mentions(Tuple(elems)) <= Names(typedefs)
      decreases 2 * bound, Tuple(elems), 1
    {
      hide Sorted, Acyclic, Below, Grown, Distinct, Expand, TupleType;
      TupleMeans(unit, cache.host, elems, named, bound);
      GrownNone(unit, rank, typedefs, bound);
      if elems == [] {
        return Done(UnitType);
      }
      var types: seq<CgType> := [];
      for i := 0 to |elems|
        invariant Valid() && Grown(unit, rank, old(typedefs), typedefs, bound)
        invariant ExpandElems(unit, cache.host, elems[..i], bound) == Done(types)
        invariant MentionsElems(elems[..i]) <= Names(typedefs)
      {
        ghost var mid := typedefs;
        assert elems[i].t < elems[i] < Tuple(elems);
        MentionsElem(elems, i);
        BelowLess(unit, rank, Mentions(elems[i].t), MentionsElems(elems), bound);
        var t := CodegenType(elems[i].t, None, bound);
        GrownTwice(unit, rank, old(typedefs), mid, typedefs, bound, bound);
        ElemsNext(unit, cache.host, elems, i, bound);
        if !t.Done? {
          ElemsFail(unit, cache.host, elems, i + 1, bound);
          return t;
        }
        GrownStarts(unit, rank, mid, typedefs, bound);
        GrownNames(mid, typedefs);
        types := types + [t.value];
      }
      assert elems[..|elems|] == elems;
      r := cache.MakeTuple(TupleInfo(types, Some(Fields(elems)), named));
    }

    method CodegenUnion(variants: seq<AstType>, named: Option<string>, ghost bound: nat) returns (r: Outcome<CgType>)
      requires Valid() && Below(unit, rank, Mentions(Union(variants)), bound)
      modifies this, cache
      ensures Valid() && Grown(unit, rank, old(typedefs), typedefs, bound)
      ensures r == Expand(unit, cache.host, Union(variants), named, bound)
      ensures r.Done? ==> Mentions(Union(variants)) <= Names(typedefs)
      decreases 2 * bound, Union(variants), 1
    {
      hide Sorted, Acyclic, Below, Grown, Distinct, Expand, UnionSlots, UnionType;
      UnionMeans(unit, cache.host, variants, named, bound);
      GrownNone(unit, rank, typedefs, bound);
      var types: seq<CgType> := [];
      for i := 0 to |variants|
        invariant Valid() && Grown(unit, rank, old(typedefs), typedefs, bound)
        invariant ExpandAll(unit, cache.host, variants[..i], bound) == Done(types)
        invariant MentionsAll(variants[..i]) <= Names(typedefs)
      {
        ghost var mid := typedefs;
        assert variants[i] < Union(variants);
        MentionsOne(variants, i);
        BelowLess(unit, rank, Mentions(variants[i]), MentionsAll(variants), bound);
        var t := CodegenType(variants[i], None, bound);
        GrownTwice(unit, rank, old(typedefs), mid, typedefs, bound, bound);
        AllNext(unit, cache.host, variants, i, bound);
        if !t.Done? {
          AllFail(unit, cache.host, variants, i + 1, bound);
          return t;
        }
        GrownStarts(unit, rank, mid, typedefs, bound);
        GrownNames(mid, typedefs);
        types := types + [t.value];
      }
      assert variants[..|variants|] == variants;
      var slots;
      r, slots := MakeUnion(cache, types, named);
    }

    method CodegenTypedef(i: nat) returns (r: Outcome<()>)
      requires Valid() && i < |unit|
      modifies this, cache
      ensures Valid() && Grown(unit, rank, old(typedefs), typedefs, rank[i] + 1)
      ensures var t := Expand(unit, cache.host, unit[i].body, Some(unit[i].name), rank[i]);
              (r.Done? <==> t.Done?) && (r.Stuck? <==> t.Stuck?)
      ensures r.Done? ==> unit[i].name in Names(typedefs)
      decreases 2 * rank[i] + 1
    {
      hide Expand, Mentions;
      if generated[i] {
        KnownExpands(unit, cache.host, rank, typedefs, i);
        return Done(());
      }
      var t := CodegenType(unit[i].body, Some(unit[i].name), rank[i]);
      if !t.Done? {
        GrownMore(unit, rank, old(typedefs), typedefs, rank[i], rank[i] + 1);
        return t.Propagate();
      }
      StillMissing(unit, rank, old(typedefs), typedefs, i);
      SortedAppend(unit, cache.host, rank, typedefs, i, t.value);
      GrownByOne(unit, rank, old(typedefs), typedefs, i, t.value);
      typedefs := typedefs + [Entry(unit[i].name, t.value)];
      generated := generated[i := true];
      return Done(());
    }

    /** Generates every typedef. It ends well exactly when each has an expansion, and then each is
      * entered once, in full, and after the typedefs it names; otherwise what went wrong is what went
      * wrong with one of them. */
    method CodegenUnit() returns (r: Outcome<()>)
      requires Valid() && typedefs == []
      modifies this, cache
      ensures Valid()
      ensures r.Done? <==> forall i | 0 <= i < |unit| :: Expansion(i).Done?
      ensures r.Done? ==> |typedefs| == |unit| && Names(typedefs) == set i | 0 <= i < |unit| :: unit[i].name
      ensures r.Failed? ==> exists i | 0 <= i < |unit| :: Expansion(i).Failed?
      ensures r.Stuck? ==> exists i | 0 <= i < |unit| :: Expansion(i).Stuck?
    {
      hide Expand, Sorted, Acyclic, Distinct;
      for i := 0 to |unit|
        invariant Valid()
        invariant forall j | 0 <= j < i :: Expansion(j).Done? && unit[j].name in Names(typedefs)
      {
        ghost var mid := typedefs;
        r := CodegenTypedef(i);
        if !r.Done? {
          assert !Expansion(i).Done? && (Expansion(i).Stuck? <==> r.Stuck?);
          return;
        }
        GrownNames(mid, typedefs);
      }
      AllEntered(unit, cache.host, rank, typedefs);
      return Done(());
    }
  }
}
