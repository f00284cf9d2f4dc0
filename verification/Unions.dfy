// Layout of unions, and agreement of the tag that a store writes with the
// tag that `is` looks for.
module Unions {

  import opened Wrappers
  import opened Outcomes
  import opened Bits
  import opened Growth
  import opened Types
  import opened Layout
  import opened Memory
  import opened Stores

  // Layout

  function Last(ts: seq<CgType>): nat {
    if ts == [] then 0 else ts[|ts| - 1].align
  }

  /** Each turn of the source's loop overwrites the alignment, from the size so far. */
  function UnionAlign(ts: seq<CgType>): nat {
    if ts == [] then 0 else if Payload(ts) > Last(ts) then Payload(ts) else Last(ts)
  }

  /** The recorded type; its size leaves the tail padding out. */
  function UnionType(ts: seq<CgType>, named: Option<string>): CgType {
    CgType(UNION, (Payload(ts) + 1) % W, UnionAlign(ts), 0, Types(ts), None, named)
  }

  /** The elements of the structure that represents the union: payload, tag and tail padding. */
  function UnionSlots(ts: seq<CgType>, host: Host): Outcome<seq<CgType>> {
    var base := [ArrayType(Uint8, Payload(ts), None), Uint8];
    var offset := (Payload(ts) + 1) % W;
    var padding := (AlignUp(offset, UnionAlign(ts)) - offset) % W;
    if padding == 0 then Done(base)
    else
      var pad := Fate(padding, host);
      if !pad.Done? then pad.Propagate() else Done(base + [pad.value])
  }

  /** The type of the union, when its structure can be made. */
  function MadeUnion(ts: seq<CgType>, named: Option<string>, host: Host): Outcome<CgType> {
    var slots := UnionSlots(ts, host);
    if !slots.Done? then slots.Propagate() else Done(UnionType(ts, named))
  }

  method MakeUnion(cache: TypeCache, ts: seq<CgType>, named: Option<string>)
      returns (r: Outcome<CgType>, slots: seq<CgType>)
    requires cache.Valid()
    modifies cache
    ensures cache.Valid()
    ensures r == MadeUnion(ts, named, cache.host)
    ensures r.Done? ==> UnionSlots(ts, cache.host) == Done(slots)
  {
    hide AlignUp, Fate, Pow2;
    var size, align := 0, 0;
    for i := 0 to |ts|
      invariant size == Payload(ts[..i]) && align == UnionAlign(ts[..i])
    {
      assert ts[..i + 1][..i] == ts[..i];
      size := if size > ts[i].size then size else ts[i].size;
      align := if size > ts[i].align then size else ts[i].align;
    }
    assert ts[..|ts|] == ts;
    slots := [ArrayType(Uint8, size, None), Uint8];
    var offset := (size + 1) % W;
    var padding := (AlignUp(offset, align) - offset) % W;
    if padding != 0 {
      var pad := cache.EnsurePadding(padding);
      if !pad.Done? {
        return pad, slots;
      }
      slots := slots + [pad.value];
    }
    return Done(CgType(UNION, offset, align, 0, Types(ts), None, named)), slots;
  }

  /** Variants of power-of-two size, as every scalar is. */
  ghost predicate Variants(ts: seq<CgType>) {
    && ts != []
    && forall i | 0 <= i < |ts| :: IsPow2(ts[i].size) && IsPow2(ts[i].align) && ts[i].align <= ts[i].size
  }

  lemma {:induction false} PayloadIsLargest(ts: seq<CgType>)
    requires Variants(ts)
    ensures IsPow2(Payload(ts))
    ensures forall i | 0 <= i < |ts| :: ts[i].size <= Payload(ts)
    ensures exists i | 0 <= i < |ts| :: ts[i].size == Payload(ts)
  {
    var n := |ts| - 1;
    if n > 0 {
      assert Variants(ts[..n]);
      PayloadIsLargest(ts[..n]);
      forall i | 0 <= i < |ts| ensures ts[i].size <= Payload(ts) {
        if i < n {
          assert ts[..n][i] == ts[i];
        }
      }
      var i :| 0 <= i < n && ts[..n][i].size == Payload(ts[..n]);
      assert ts[i].size == Payload(ts[..n]);
    } else {
      assert ts[..n] == [];
      Pow2Positive(ts[n].size);
      assert Payload(ts) == ts[n].size;
    }
  }

  lemma Pow2Positive(a: nat)
    requires IsPow2(a)
    ensures a > 0
  {
  }

  /** The tag follows the payload, and the structure is the payload and tag rounded up; the
    * recorded size agrees with the structure only for variants of a single byte. */
  lemma UnionLayout(ts: seq<CgType>, named: Option<string>, host: Host)
    requires Variants(ts) && 2 * Payload(ts) < W && Provides(host, Payload(ts))
    ensures UnionSlots(ts, host).Done?
    ensures var slots := UnionSlots(ts, host).value;
            var t := UnionType(ts, named);
            && |slots| >= 2 && OffsetOf(slots, 1) == Payload(ts)
            && t.align == Payload(ts) && t.size == Payload(ts) + 1
            && SizeOf(slots) == Ceil(Payload(ts) + 1, Payload(ts)) == 2 * Payload(ts)
            && (SizeOf(slots) == t.size <==> Payload(ts) == 1)
  {
    hide *;
    PayloadIsLargest(ts);
    UnionAligned(ts);
    var p := Payload(ts);
    Pow2Positive(p);
    CeilDoubles(p);
    Small(p + 1);
    Small(p);
    AlignUpIsCeil(p + 1, p);
    var padding := Ceil(p + 1, p) - (p + 1);
    Small(padding);
    PadProvided(padding, p, host);
    SlotSizes(ts, padding, host);
  }

  lemma PadProvided(n: nat, a: nat, host: Host)
    requires 0 <= n < a < W && Provides(host, a)
    ensures n > 0 ==> Fate(n, host) == Done(PaddingType(n))
  {
    hide Pow2, Room;
    if n > 0 {
      RoomLess(host, n + 1, a);
    }
  }

  /** A union of units has no alignment, so the padding after its tag wraps around, and making it
    * violates an assertion. */
  lemma UnionOfUnits(ts: seq<CgType>, named: Option<string>, host: Host)
    requires Payload(ts) == 0 && Last(ts) == 0
    ensures MadeUnion(ts, named, host).Stuck?
  {
    hide Pow2, AlignUp, Payload, Last;
    WordSize();
    Small(1);
    AlignUpZero(1);
    Wrapped(1);
  }

  lemma SlotSizes(ts: seq<CgType>, padding: nat, host: Host)
    requires Payload(ts) % W == Payload(ts) && (Payload(ts) + 1) % W == Payload(ts) + 1
    requires AlignUp(Payload(ts) + 1, UnionAlign(ts)) == Payload(ts) + 1 + padding
    requires padding % W == padding && (padding > 0 ==> Fate(padding, host) == Done(PaddingType(padding)))
    ensures forall named :: UnionType(ts, named).size == Payload(ts) + 1 && UnionType(ts, named).align == UnionAlign(ts)
    ensures UnionSlots(ts, host).Done?
    ensures var slots := UnionSlots(ts, host).value;
            |slots| >= 2 && OffsetOf(slots, 1) == Payload(ts) && SizeOf(slots) == Payload(ts) + 1 + padding
  {
    hide Pow2, AlignUp, W, Payload, Fate;
    var base := [ArrayType(Uint8, Payload(ts), None), Uint8];
    Append([], base[0]);
    Append([base[0]], Uint8);
    assert [] + [base[0]] == [base[0]];
    assert [base[0]] + [Uint8] == base;
    Append(base, PaddingType(padding));
    assert (base + [PaddingType(padding)])[..1] == base[..1] == [base[0]];
  }

  lemma UnionAligned(ts: seq<CgType>)
    requires Variants(ts)
    ensures UnionAlign(ts) == Payload(ts)
  {
    hide IsPow2;
    PayloadAbove(ts, |ts| - 1);
  }

  lemma CeilDoubles(p: nat)
    requires p > 0
    ensures Ceil(p + 1, p) == 2 * p
  {
    assert p + 1 + p - 1 == 2 * p + 0;
    Remainder(2 * p, p, 2, 0);
  }

  // Tags

  /** A union of plain scalars fit to be stored to. */
  ghost predicate Tagged(u: CgType) {
    && WellMade(u) && u.kind == UNION && |u.types.list| >= 2
    && u.types.list[0].kind != UNION && u.types.list[1].kind != UNION
  }

  /** A scalar type with a value. */
  ghost predicate ScalarOf(s: CgType, v: Val) {
    WellMade(s) && Plain(s) && !Aggregate(s) && Typed(v, s)
  }

  /** What `is T` compares the tag with; the search goes the other way round than a store's. */
  method EmitTest(u: CgType, t: CgType) returns (want: Option<nat>)
    requires WellMade(u) && WellMade(t) && u.types.Types?
    ensures var i := Variant(u.types.list, t);
            want == if i < |u.types.list| then Some(i % 256) else None
  {
    var types := u.types.list;
    for i := 0 to |types|
      invariant forall j | 0 <= j < i :: NotEqual(types[j], t)
    {
      Equivalence(types[i], t, t);
      if NotEqual(t, types[i]) {
        continue;
      }
      VariantIs(types, t, i);
      return Some(i % 256);
    }
    return None;
  }

  /** Whether `is T` holds of the union at `a`: its tag is the byte after the payload. */
  predicate Is(u: CgType, t: CgType, m: seq<byte>, a: nat)
    requires u.types.Types? && a + Payload(u.types.list) < |m|
  {
    m[a + Payload(u.types.list)] == Variant(u.types.list, t) % 256
  }

  lemma {:induction false} PayloadAbove(ts: seq<CgType>, i: nat)
    requires i < |ts|
    ensures ts[i].size <= Payload(ts)
    decreases |ts|
  {
    if i < |ts| - 1 {
      PayloadAbove(ts[..|ts| - 1], i);
    }
  }

  /** A scalar stored into a union: payload, tag, and nothing else. */
  lemma UnionStore(u: CgType, s: CgType, v: Val, m: seq<byte>, base: nat)
    requires Tagged(u) && ScalarOf(s, v)
    requires Variant(u.types.list, s) < |u.types.list|
    requires base + Payload(u.types.list) < |m|
    ensures Storable(u, s)
    ensures var i := Variant(u.types.list, s);
            var p := base + Payload(u.types.list);
            var m' := Run(StoreOps(CgAddr(u, Base), CgValue(s, Given)), m, base, v);
            && |m'| == |m| && s.size <= Payload(u.types.list)
            && m'[base..base + s.size] == v.bytes
            && m'[p] == i % 256
            && m'[..base] == m[..base] && m'[base + s.size..p] == m[base + s.size..p] && m'[p + 1..] == m[p + 1..]
  {
    hide *;
    TaggedMeans(u);
    ScalarMeans(s, v);
    var list := u.types.list;
    var i := Variant(list, s);
    SameSize(list[i], s);
    PayloadAbove(list, i);
    UnionOps(CgAddr(u, Base), CgValue(s, Given), m, base, v);
    TwoWrites(m, base, v.bytes, base + Payload(list), i % 256);
  }

  lemma TaggedMeans(u: CgType)
    requires Tagged(u)
    ensures u.types.Types? && |u.types.list| >= 2
    ensures forall i | 0 <= i < |u.types.list| :: WellMade(u.types.list[i])
  {
  }

  lemma ScalarMeans(s: CgType, v: Val)
    requires ScalarOf(s, v)
    ensures WellMade(s) && v.Leaf? && |v.bytes| == s.size
  {
  }

  lemma SameSize(a: CgType, b: CgType)
    requires WellMade(a) && WellMade(b) && !NotEqual(a, b)
    ensures a.size == b.size && a.align == b.align
  {
  }

  /** The two stores, as two writes. */
  lemma UnionOps(dst: CgAddr, value: CgValue, m: seq<byte>, base: nat, given: Val)
    requires Tagged(dst.t) && ScalarOf(value.t, given)
    requires dst.ref == Base && value.ref == Given
    requires Variant(dst.t.types.list, value.t) < |dst.t.types.list|
    ensures Storable(dst.t, value.t)
    ensures given.Leaf?
    ensures Run(StoreOps(dst, value), m, base, given)
         == Write(Write(m, base, given.bytes), base + Payload(dst.t.types.list),
                  [Variant(dst.t.types.list, value.t) % 256])
  {
    hide *;
    ScalarMeans(value.t, given);
    TaggedMeans(dst.t);
    var tag := CgValue(Uint8, ConstInt(Variant(dst.t.types.list, value.t)));
    UnionStoreOps(dst, value, tag, given);
    var d0, d1 := At(dst, 0), At(dst, 1);
    StoreOpsScalar(d0, value);
    StoreOpsScalar(d1, tag);
    RunConcat(StoreOps(d0, value), StoreOps(d1, tag), m, base, given);
    StoreRuns(value.ref, d0.ref, value.t.align, m, base, given);
    StoreRuns(tag.ref, d1.ref, tag.t.align, Write(m, base, given.bytes), base, given);
    UnionAddrs(dst, value, tag, base, given);
  }

  lemma UnionStoreOps(dst: CgAddr, value: CgValue, tag: CgValue, given: Val)
    requires Tagged(dst.t) && ScalarOf(value.t, given)
    requires Variant(dst.t.types.list, value.t) < |dst.t.types.list|
    requires tag == CgValue(Uint8, ConstInt(Variant(dst.t.types.list, value.t)))
    ensures Storable(dst.t, value.t) && Indexable(dst.t, 0) && Indexable(dst.t, 1)
    ensures !Aggregate(value.t) && !Aggregate(tag.t)
    ensures At(dst, 0).t.kind != UNION && At(dst, 1).t.kind != UNION
    ensures Storable(At(dst, 0).t, value.t) && Storable(At(dst, 1).t, tag.t)
    ensures StoreOps(dst, value) == StoreOps(At(dst, 0), value) + StoreOps(At(dst, 1), tag)
  {
    hide Variant, WellMade, Strip;
    TaggedMeans(dst.t);
  }

  lemma UnionAddrs(dst: CgAddr, value: CgValue, tag: CgValue, base: nat, given: Val)
    requires Tagged(dst.t) && dst.ref == Base && value.ref == Given && given.Leaf?
    requires tag == CgValue(Uint8, ConstInt(Variant(dst.t.types.list, value.t)))
    requires Indexable(dst.t, 0) && Indexable(dst.t, 1)
    ensures EvalAddr(At(dst, 0).ref, base) == base
    ensures EvalAddr(At(dst, 1).ref, base) == base + Payload(dst.t.types.list)
    ensures Bytes(EvalRef(value.ref, given)) == given.bytes
    ensures Bytes(EvalRef(tag.ref, given)) == [Variant(dst.t.types.list, value.t) % 256]
  {
  }

  lemma TwoWrites(m: seq<byte>, a: nat, bs: seq<byte>, p: nat, b: byte)
    requires a + |bs| <= p < |m|
    ensures var r := Write(Write(m, a, bs), p, [b]);
            && |r| == |m| && r[a..a + |bs|] == bs && r[p] == b
            && r[..a] == m[..a] && r[a + |bs|..p] == m[a + |bs|..p] && r[p + 1..] == m[p + 1..]
  {
  }

  lemma {:induction false} SameVariant(ts: seq<CgType>, s: CgType, t: CgType)
    requires WellMade(s) && WellMade(t) && forall i | 0 <= i < |ts| :: WellMade(ts[i])
    requires Variant(ts, s) < |ts| && Variant(ts, t) < |ts|
    ensures Variant(ts, s) == Variant(ts, t) <==> !NotEqual(s, t)
  {
    var i, j := Variant(ts, s), Variant(ts, t);
    Equivalence(s, ts[i], t);
    Equivalence(s, t, ts[j]);
    Equivalence(t, s, ts[i]);
    Equivalence(s, ts[j], t);
    Equivalence(ts[i], ts[j], s);
    Equivalence(ts[j], t, s);
    Equivalence(ts[i], s, t);
    if i < j {
      assert NotEqual(ts[i], t);
    } else if j < i {
      assert NotEqual(ts[j], s);
    }
  }

  /** After a store, `is T` holds exactly when the indices of the two variants agree in a byte; up
    * to 256 variants that is when T is the type of the stored value. */
  lemma TestReportsType(u: CgType, s: CgType, v: Val, t: CgType, m: seq<byte>, base: nat)
    requires Tagged(u) && ScalarOf(s, v) && WellMade(t)
    requires Variant(u.types.list, s) < |u.types.list| && Variant(u.types.list, t) < |u.types.list|
    requires base + Payload(u.types.list) < |m|
    ensures Storable(u, s)
    ensures var m' := Run(StoreOps(CgAddr(u, Base), CgValue(s, Given)), m, base, v);
            && (Is(u, t, m', base) <==> Variant(u.types.list, s) % 256 == Variant(u.types.list, t) % 256)
            && (|u.types.list| <= 256 ==> (Is(u, t, m', base) <==> !NotEqual(s, t)))
  {
    hide *;
    TaggedMeans(u);
    ScalarMeans(s, v);
    SameVariant(u.types.list, s, t);
    UnionStore(u, s, v, m, base);
    IsByTag(u, t, Run(StoreOps(CgAddr(u, Base), CgValue(s, Given)), m, base, v), base);
  }

  lemma IsByTag(u: CgType, t: CgType, m: seq<byte>, a: nat)
    requires u.types.Types? && a + Payload(u.types.list) < |m|
    ensures Is(u, t, m, a) <==> m[a + Payload(u.types.list)] == Variant(u.types.list, t) % 256
  {
  }

  /** With more variants than that, as `ManyVariants` shows there can be, two different types answer to
    * one tag. */
  lemma TagsRunOut(u: CgType, v: Val, m: seq<byte>, base: nat)
    requires Tagged(u) && |u.types.list| > 256
    requires forall i, j | 0 <= i < j < |u.types.list| :: NotEqual(u.types.list[i], u.types.list[j])
    requires ScalarOf(u.types.list[256], v)
    requires base + Payload(u.types.list) < |m|
    ensures var s, t := u.types.list[256], u.types.list[0];
            && NotEqual(s, t) && Storable(u, s)
            && Is(u, t, Run(StoreOps(CgAddr(u, Base), CgValue(s, Given)), m, base, v), base)
  {
    var ts := u.types.list;
    forall j | 0 <= j < 256 ensures NotEqual(ts[j], ts[256]) {
    }
    Equivalence(ts[256], ts[0], ts[0]);
    VariantIs(ts, ts[256], 256);
    Equivalence(ts[0], ts[256], ts[256]);
    VariantIs(ts, ts[0], 0);
    TestReportsType(u, ts[256], v, ts[0], m, base);
  }

  /** `Uint8` behind `k` pointers. */
  function Deep(k: nat): CgType {
    if k == 0 then Uint8 else Pointer(Some(Deep(k - 1)))
  }

  lemma {:induction false} DeepShape(k: nat)
    ensures WellMade(Deep(k)) && Strip(Deep(k)) == Deep(k) && Weight(Deep(k)) == k + 1
    ensures Plain(Deep(k)) && !Aggregate(Deep(k)) && Deep(k).kind != UNION
  {
    if k > 0 {
      DeepShape(k - 1);
      assert StripAll([Deep(k - 1)]) == [Deep(k - 1)];
      assert [Deep(k - 1)][1..] == [];
      assert Deep(k).types.list == [Deep(k - 1)];
      assert WeightAll([Deep(k - 1)]) == Weight(Deep(k - 1)) + WeightAll([]);
    }
  }

  lemma DeepDiffer(i: nat, j: nat)
    requires i != j
    ensures NotEqual(Deep(i), Deep(j))
  {
    DeepShape(i);
    DeepShape(j);
    NotEqualDecides(Deep(i), Deep(j));
  }

  /** There are such unions: of pointers nested ever deeper. */
  lemma ManyVariants() returns (u: CgType, v: Val)
    ensures Tagged(u) && |u.types.list| > 256
    ensures forall i, j | 0 <= i < j < |u.types.list| :: NotEqual(u.types.list[i], u.types.list[j])
    ensures ScalarOf(u.types.list[256], v)
  {
    hide *;
    var list := seq(257, (i: nat) => Deep(i));
    u := CgType(UNION, 9, 8, 0, Types(list), None, None);
    v := Leaf(Zeros(8));
    DeepVariants(list);
    DeepTagged(u);
    DeepScalar(v);
  }

  lemma DeepVariants(list: seq<CgType>)
    requires forall i | 0 <= i < |list| :: list[i] == Deep(i)
    ensures forall i | 0 <= i < |list| :: WellMade(list[i]) && list[i].kind != UNION
    ensures forall i, j | 0 <= i < j < |list| :: NotEqual(list[i], list[j])
  {
    hide *;
    forall i | 0 <= i < |list| ensures WellMade(list[i]) && list[i].kind != UNION {
      DeepShape(i);
    }
    forall i, j | 0 <= i < j < |list| ensures NotEqual(list[i], list[j]) {
      DeepDiffer(i, j);
    }
  }

  lemma DeepTagged(u: CgType)
    requires u.kind == UNION && u.types.Types? && |u.types.list| >= 2
    requires forall i | 0 <= i < |u.types.list| :: WellMade(u.types.list[i]) && u.types.list[i].kind != UNION
    ensures Tagged(u)
  {
  }

  lemma DeepScalar(v: Val)
    requires v == Leaf(Zeros(8))
    ensures ScalarOf(Deep(256), v)
  {
    DeepShape(256);
    DeepSize(256);
    hide Deep, WellMade;
  }

  lemma DeepSize(k: nat)
    requires k > 0
    ensures Deep(k).size == 8
  {
  }
}
