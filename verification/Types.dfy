// The compiler's types, and the structural comparison of them.
module Types {

  import opened Wrappers

  datatype Kind =
    | U8 | U16 | U32 | U64
    | S8 | S16 | S32 | S64
    | B8 | B16 | B32 | B64
    | F32 | F64
    | STRING | PTR | ATOMIC | SLICE | ARRAY | PADDING | TUPLE | UNION | ENUM | FN | VA

  datatype Field = Field(name: Option<string>)

  /** The optional list of nested types. */
  datatype Types = NoTypes | Types(list: seq<CgType>)

  datatype CgType = CgType(
    kind: Kind, size: nat, align: nat, extent: nat,
    types: Types, fields: Option<seq<Field>>, name: Option<string>)
  {
    function Length(): nat {
      if types.Types? then |types.list| else 0
    }
  }

  function Scalar(kind: Kind, size: nat): CgType {
    CgType(kind, size, size, 0, NoTypes, None, None)
  }

  const Uint8: CgType := Scalar(U8, 1)

  function Pointer(base: Option<CgType>): CgType {
    CgType(PTR, 8, 8, 0, Types(if base.Some? then [base.value] else []), None, None)
  }

  /** Kinds whose types carry a list of nested types. */
  predicate Nests(kind: Kind) {
    kind in {STRING, PTR, ATOMIC, SLICE, ARRAY, PADDING, TUPLE, UNION, ENUM, FN}
  }

  /** A type as the type cache makes it: its kind decides whether it nests types. */
  predicate WellMade(t: CgType) {
    && (t.types.Types? <==> Nests(t.kind))
    && (t.types.Types? ==> forall i | 0 <= i < |t.types.list| :: WellMade(t.types.list[i]))
  }

  /** Number of types in the tree of `t`. */
  function Weight(t: CgType): (w: nat)
    ensures w > 0
  {
    1 + (if t.types.Types? then WeightAll(t.types.list) else 0)
  }

  function WeightAll(ts: seq<CgType>): nat {
    if ts == [] then 0 else Weight(ts[0]) + WeightAll(ts[1..])
  }

  /** The source's `t != other`; each level of the comparison swaps its sides. */
  function NotEqual(t: CgType, other: CgType): bool
    decreases Weight(t) + Weight(other), 0
  {
    if other.kind != t.kind then true
    else if other.size != t.size || other.align != t.align then true
    else if other.extent != t.extent then true
    else if other.types.Types? then
      if t.types.NoTypes? then true
      else if |other.types.list| != |t.types.list| then true
      else SomeNotEqual(other.types.list, t.types.list)
    else false
  }

  function SomeNotEqual(lhs: seq<CgType>, rhs: seq<CgType>): bool
    requires |lhs| == |rhs|
    decreases WeightAll(lhs) + WeightAll(rhs), 1
  {
    lhs != [] && (NotEqual(lhs[0], rhs[0]) || SomeNotEqual(lhs[1..], rhs[1..]))
  }

  /** `t` without the names that comparison ignores. */
  function Strip(t: CgType): CgType {
    CgType(t.kind, t.size, t.align, t.extent,
           if t.types.Types? then Types(StripAll(t.types.list)) else NoTypes, None, None)
  }

  function StripAll(ts: seq<CgType>): (r: seq<CgType>)
    ensures |r| == |ts|
    ensures forall i | 0 <= i < |ts| :: r[i] == Strip(ts[i])
  {
    if ts == [] then [] else [Strip(ts[0])] + StripAll(ts[1..])
  }

  /** Comparison decides equality up to names. */
  lemma {:induction false} NotEqualDecides(t: CgType, other: CgType)
    requires WellMade(t) && WellMade(other)
    ensures NotEqual(t, other) <==> Strip(t) != Strip(other)
    decreases Weight(t) + Weight(other), 0
  {
    if t.types.Types? && other.types.Types? && |t.types.list| == |other.types.list| {
      SomeNotEqualDecides(other.types.list, t.types.list);
    }
  }

  lemma {:induction false} SomeNotEqualDecides(lhs: seq<CgType>, rhs: seq<CgType>)
    requires |lhs| == |rhs|
    requires forall i | 0 <= i < |lhs| :: WellMade(lhs[i]) && WellMade(rhs[i])
    ensures SomeNotEqual(lhs, rhs) <==> StripAll(lhs) != StripAll(rhs)
    decreases WeightAll(lhs) + WeightAll(rhs), 1
  {
    if lhs != [] {
      NotEqualDecides(lhs[0], rhs[0]);
      SomeNotEqualDecides(lhs[1..], rhs[1..]);
      var a, b := StripAll(lhs), StripAll(rhs);
      assert a[0] == Strip(lhs[0]) && a[1..] == StripAll(lhs[1..]);
      assert b[0] == Strip(rhs[0]) && b[1..] == StripAll(rhs[1..]);
      if a[0] == b[0] && a[1..] == b[1..] {
        assert a == [a[0]] + a[1..] && b == [b[0]] + b[1..];
      }
    }
  }

  /** Equality of types is an equivalence. */
  lemma Equivalence(a: CgType, b: CgType, c: CgType)
    requires WellMade(a) && WellMade(b) && WellMade(c)
    ensures !NotEqual(a, a)
    ensures NotEqual(a, b) == NotEqual(b, a)
    ensures !NotEqual(a, b) && !NotEqual(b, c) ==> !NotEqual(a, c)
  {
    NotEqualDecides(a, a);
    NotEqualDecides(a, b);
    NotEqualDecides(b, a);
    NotEqualDecides(b, c);
    NotEqualDecides(a, c);
  }

  /** Without that invariant the comparison is not even symmetric. */
  lemma AsymmetricOtherwise()
    ensures var bare := CgType(PTR, 8, 8, 0, NoTypes, None, None);
            NotEqual(bare, Pointer(Some(Uint8))) && !NotEqual(Pointer(Some(Uint8)), bare)
  {
  }

  // Physical and virtual positions

  function SizeOf(ts: seq<CgType>): nat {
    if ts == [] then 0 else SizeOf(ts[..|ts| - 1]) + ts[|ts| - 1].size
  }

  /** Byte offset of physical element `i`. */
  function OffsetOf(ts: seq<CgType>, i: nat): nat
    requires i <= |ts|
  {
    SizeOf(ts[..i])
  }

  /** Number of elements that are not padding. */
  function Virtuals(ts: seq<CgType>): (n: nat)
    ensures n <= |ts|
  {
    if ts == [] then 0
    else Virtuals(ts[..|ts| - 1]) + if ts[|ts| - 1].kind == PADDING then 0 else 1
  }

  /** Physical index of virtual element `v`. */
  function Virt(ts: seq<CgType>, v: nat): (i: nat)
    requires v < Virtuals(ts)
    ensures i < |ts| && ts[i].kind != PADDING && Virtuals(ts[..i]) == v
  {
    if v < Virtuals(ts[..|ts| - 1]) then
      var i := Virt(ts[..|ts| - 1], v);
      assert ts[..|ts| - 1][..i] == ts[..i];
      i
    else |ts| - 1
  }

  lemma VirtualsNext(ts: seq<CgType>, i: nat)
    requires i < |ts|
    ensures Virtuals(ts[..i + 1]) == Virtuals(ts[..i]) + if ts[i].kind == PADDING then 0 else 1
    ensures OffsetOf(ts, i + 1) == OffsetOf(ts, i) + ts[i].size
  {
    assert ts[..i + 1][..i] == ts[..i];
  }

  lemma VirtUnique(ts: seq<CgType>, v: nat, i: nat)
    requires v < Virtuals(ts)
    requires i < |ts| && ts[i].kind != PADDING && Virtuals(ts[..i]) == v
    ensures Virt(ts, v) == i
  {
    var j := Virt(ts, v);
    if i < j {
      VirtualsNext(ts, i);
      VirtualsMonotone(ts, i + 1, j);
      assert false;
    } else if j < i {
      VirtualsNext(ts, j);
      VirtualsMonotone(ts, j + 1, i);
      assert false;
    }
  }

  lemma {:induction false} VirtualsMonotone(ts: seq<CgType>, i: nat, j: nat)
    requires i <= j <= |ts|
    ensures Virtuals(ts[..i]) <= Virtuals(ts[..j])
  {
    if i < j {
      VirtualsMonotone(ts, i, j - 1);
      assert ts[..j][..j - 1] == ts[..j - 1];
    }
  }

  /** Looks virtual element `v` up, skipping padding. */
  method AtVirt(t: CgType, v: nat) returns (r: Option<CgType>)
    ensures t.types.NoTypes? ==> r == None
    ensures t.types.Types? ==>
      r == if v < Virtuals(t.types.list) then Some(t.types.list[Virt(t.types.list, v)]) else None
  {
    var l, i, k := t.Length(), 0, 0;
    while i < l
      invariant 0 <= i <= l
      invariant t.types.Types? ==> k == Virtuals(t.types.list[..i]) <= v
    {
      var ts := t.types.list;
      assert ts[..i + 1][..i] == ts[..i];
      if ts[i].kind == PADDING {
      } else {
        if k == v {
          VirtualsMonotone(ts, i + 1, |ts|);
          assert ts[..|ts|] == ts;
          VirtUnique(ts, v, i);
          return Some(ts[i]);
        }
        k := k + 1;
      }
      i := i + 1;
    }
    if t.types.Types? {
      assert t.types.list[..l] == t.types.list;
    }
    return None;
  }

  /** Finds a nested type equal to `find`: the first one. */
  method Contains(t: CgType, find: CgType) returns (r: Option<CgType>)
    requires t.types.Types?
    requires WellMade(t) && WellMade(find)
    ensures r.Some? <==> exists i | 0 <= i < |t.types.list| :: Strip(t.types.list[i]) == Strip(find)
    ensures r.Some? ==> r.value in t.types.list && Strip(r.value) == Strip(find)
  {
    for i := 0 to |t.types.list|
      invariant forall j | 0 <= j < i :: Strip(t.types.list[j]) != Strip(find)
    {
      NotEqualDecides(t.types.list[i], find);
      if !NotEqual(t.types.list[i], find) {
        return Some(t.types.list[i]);
      }
    }
    return None;
  }

  lemma EqualElements(a: CgType, b: CgType, j: nat)
    requires WellMade(a) && WellMade(b) && Strip(a) == Strip(b) && a.types.Types? && j < |a.types.list|
    ensures b.types.Types? && |b.types.list| == |a.types.list|
    ensures !NotEqual(a.types.list[j], b.types.list[j])
  {
    hide NotEqual;
    assert StripAll(a.types.list)[j] == StripAll(b.types.list)[j];
    NotEqualDecides(a.types.list[j], b.types.list[j]);
  }

  /** Equal types are of one kind, place equal elements at the same offsets, and agree on what is padding. */
  lemma {:induction false} EqualLayout(a: CgType, b: CgType, i: nat)
    requires WellMade(a) && WellMade(b) && !NotEqual(a, b)
    requires a.types.Types? && i <= |a.types.list|
    ensures a.kind == b.kind && a.size == b.size && a.align == b.align && a.extent == b.extent
    ensures b.types.Types? && |b.types.list| == |a.types.list|
    ensures forall j | 0 <= j < |a.types.list| :: !NotEqual(a.types.list[j], b.types.list[j])
    ensures OffsetOf(a.types.list, i) == OffsetOf(b.types.list, i)
    ensures Virtuals(a.types.list[..i]) == Virtuals(b.types.list[..i])
    decreases i
  {
    NotEqualDecides(a, b);
    forall j | 0 <= j < |a.types.list| ensures !NotEqual(a.types.list[j], b.types.list[j]) {
      EqualElements(a, b, j);
    }
    hide NotEqual;
    if i > 0 {
      EqualLayout(a, b, i - 1);
      var s, t := a.types.list, b.types.list;
      assert Strip(s[i - 1]) == StripAll(s)[i - 1] == StripAll(t)[i - 1] == Strip(t[i - 1]);
      assert s[..i][..i - 1] == s[..i - 1] && t[..i][..i - 1] == t[..i - 1];
    }
  }
}
