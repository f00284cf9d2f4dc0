// Destructured stores refine one whole-object store, and unions remember
// which type was stored in them.
module Stores {

  import opened Types
  import opened Layout
  import opened Memory

  /** Distance of element `i`; element `Count(t)` would start at the end. */
  function Place(t: CgType, i: nat): nat
    requires Plain(t) && Aggregate(t) && i <= Count(t)
  {
    if t.kind == TUPLE then OffsetOf(t.types.list, i) else i * t.types.list[0].size
  }

  lemma PlaceNext(t: CgType, i: nat)
    requires Plain(t) && Aggregate(t) && i < Count(t)
    ensures Place(t, i + 1) == Place(t, i) + ElementType(t, i).size
  {
    if t.kind == TUPLE {
      VirtualsNext(t.types.list, i);
    } else {
      Distributes(i, t.types.list[0].size);
    }
  }

  lemma Distributes(i: nat, s: nat)
    ensures (i + 1) * s == i * s + s
  {
  }

  lemma PlaceEnds(t: CgType)
    requires Plain(t) && Aggregate(t) && WellLaid(t)
    ensures Place(t, 0) == 0 && Place(t, Count(t)) == t.size
  {
    if t.kind == TUPLE {
      assert t.types.list[..|t.types.list|] == t.types.list;
    } else {
      Commutes(t.extent, t.types.list[0].size);
    }
  }

  lemma Commutes(a: nat, b: nat)
    ensures a * b == b * a
  {
  }

  lemma {:induction false} PlaceMonotone(t: CgType, i: nat, j: nat)
    requires Plain(t) && Aggregate(t) && i <= j <= Count(t)
    ensures Place(t, i) <= Place(t, j)
  {
    hide *;
    if i < j {
      PlaceNext(t, j - 1);
      PlaceMonotone(t, i, j - 1);
    }
  }

  lemma Child(t: CgType, i: nat)
    requires Plain(t) && Aggregate(t) && WellLaid(t) && i < Count(t)
    ensures var e := ElementType(t, i);
            && Plain(e) && WellLaid(e) && e < t && Indexable(t, i)
            && Displacement(t, i) == Place(t, i)
            && Place(t, i) + e.size <= t.size
  {
    PlaceNext(t, i);
    PlaceMonotone(t, i + 1, Count(t));
    PlaceEnds(t);
  }

  // Sizes

  lemma BytesAllNext(vs: seq<Val>, n: nat)
    requires n < |vs|
    ensures BytesAll(vs[..n + 1]) == BytesAll(vs[..n]) + Bytes(vs[n])
  {
    assert vs[..n + 1][..n] == vs[..n];
  }

  /** A value takes exactly the bytes its type records. */
  lemma {:induction false} BytesSize(v: Val, t: CgType)
    requires Plain(t) && WellLaid(t) && Typed(v, t)
    ensures |Bytes(v)| == t.size
    decreases v, 1, 0
  {
    if Aggregate(t) {
      PartsSize(v, t, Count(t));
      PlaceEnds(t);
      assert v.elems[..Count(t)] == v.elems;
    }
  }

  lemma {:induction false} PartsSize(v: Val, t: CgType, n: nat)
    requires Plain(t) && WellLaid(t) && Typed(v, t) && Aggregate(t) && n <= Count(t)
    ensures |BytesAll(v.elems[..n])| == Place(t, n)
    decreases v, 0, n
  {
    if n > 0 {
      PartsSize(v, t, n - 1);
      Child(t, n - 1);
      assert Typed(v.elems[n - 1], ElementType(t, n - 1));
      BytesSize(v.elems[n - 1], ElementType(t, n - 1));
      hide Place, Displacement, Bytes, Typed, WellLaid, Plain;
      BytesAllNext(v.elems, n - 1);
      PlaceNext(t, n - 1);
    } else {
      PlaceEnds(t);
    }
  }

  /** The whole value restricted to element `i`. */
  lemma ElementBytes(v: Val, t: CgType, i: nat)
    requires Plain(t) && WellLaid(t) && Typed(v, t) && Aggregate(t) && i < Count(t)
    ensures Place(t, i) + ElementType(t, i).size <= |Bytes(v)|
    ensures Bytes(v)[Place(t, i)..Place(t, i) + ElementType(t, i).size] == Bytes(v.elems[i])
  {
    PartsSize(v, t, i);
    PartsSize(v, t, i + 1);
    PlaceNext(t, i);
    BytesAllNext(v.elems, i);
    BytesPrefix(v.elems, i + 1);
    hide Place, Typed, WellLaid, Plain;
    assert Bytes(v) == BytesAll(v.elems);
    var p := BytesAll(v.elems[..i + 1]);
    assert Bytes(v)[..|p|] == p;
    assert Bytes(v)[Place(t, i)..|p|] == p[Place(t, i)..];
  }

  lemma {:induction false} BytesPrefix(vs: seq<Val>, n: nat)
    requires n <= |vs|
    ensures |BytesAll(vs[..n])| <= |BytesAll(vs)|
    ensures BytesAll(vs)[..|BytesAll(vs[..n])|] == BytesAll(vs[..n])
    decreases |vs| - n
  {
    if n < |vs| {
      BytesPrefix(vs, n + 1);
      BytesAllNext(vs, n);
    } else {
      assert vs[..n] == vs;
    }
  }

  // Zero values

  lemma {:induction false} NullTyped(t: CgType)
    requires Plain(t)
    ensures Typed(Null(t), t)
    decreases t
  {
    if Aggregate(t) {
      forall i | 0 <= i < Count(t) ensures Typed(Null(t).elems[i], ElementType(t, i)) {
        assert ElementType(t, i) < t;
        NullTyped(ElementType(t, i));
      }
    }
  }

  lemma {:induction false} NullBytes(t: CgType)
    requires Plain(t) && WellLaid(t)
    ensures Bytes(Null(t)) == Zeros(t.size)
    decreases t, 1, 0
  {
    if Aggregate(t) {
      NullParts(t, Count(t));
      PlaceEnds(t);
    }
  }

  lemma {:induction false} NullParts(t: CgType, n: nat)
    requires Plain(t) && WellLaid(t) && Aggregate(t) && n <= Count(t)
    ensures BytesAll(Nulls(t, n)) == Zeros(Place(t, n))
    decreases t, 0, n
  {
    hide *;
    if n == 0 {
      NoNulls(t);
    } else {
      NullParts(t, n - 1);
      Child(t, n - 1);
      var e := ElementType(t, n - 1);
      NullBytes(e);
      PlaceNext(t, n - 1);
      NullsNext(t, n);
      ZerosAdd(BytesAll(Nulls(t, n - 1)), Bytes(Null(e)), Place(t, n - 1), e.size);
    }
  }

  lemma NoNulls(t: CgType)
    requires Plain(t) && WellLaid(t) && Aggregate(t)
    ensures BytesAll(Nulls(t, 0)) == Zeros(Place(t, 0))
  {
    PlaceEnds(t);
    assert Nulls(t, 0) == [];
    assert Zeros(0) == [];
  }

  lemma NullsNext(t: CgType, n: nat)
    requires Plain(t) && Aggregate(t) && 0 < n <= Count(t) && Indexable(t, n - 1) && Plain(ElementType(t, n - 1))
    ensures BytesAll(Nulls(t, n)) == BytesAll(Nulls(t, n - 1)) + Bytes(Null(ElementType(t, n - 1)))
  {
    hide Plain, Count, Bytes;
    assert Nulls(t, n)[..n - 1] == Nulls(t, n - 1);
  }

  lemma ZerosAdd(x: seq<byte>, y: seq<byte>, a: nat, b: nat)
    requires x == Zeros(a) && y == Zeros(b)
    ensures x + y == Zeros(a + b)
  {
  }

  lemma {:induction false} ZeroPadsTyped(v: Val, t: CgType)
    requires Plain(t) && Typed(v, t)
    ensures Typed(ZeroPads(v, t), t)
    decreases t
  {
    if Aggregate(t) {
      var z := ZeroPads(v, t);
      forall i | 0 <= i < Count(t) ensures Typed(z.elems[i], ElementType(t, i)) {
        var e := ElementType(t, i);
        assert e < t;
        ZeroPadsTyped(v.elems[i], e);
      }
    }
  }

  lemma {:induction false} ZeroPadsNull(t: CgType)
    requires Plain(t)
    ensures ZeroPads(Null(t), t) == Null(t)
    decreases t
  {
    if Aggregate(t) {
      var z := ZeroPads(Null(t), t);
      forall i | 0 <= i < Count(t) ensures z.elems[i] == Null(t).elems[i] {
        var e := ElementType(t, i);
        assert e < t;
        ZeroPadsNull(e);
      }
    }
  }

  /** Only padding changes: every other element keeps its value. */
  lemma ZeroPadsKeeps(v: Val, t: CgType, i: nat)
    requires Plain(t) && Typed(v, t)
    ensures !Aggregate(t) ==> ZeroPads(v, t) == v
    ensures Aggregate(t) && i < Count(t) && ElementType(t, i).kind != PADDING ==>
              ZeroPads(v, t).elems[i] == ZeroPads(v.elems[i], ElementType(t, i))
    ensures t.kind == TUPLE && i < Count(t) && ElementType(t, i).kind == PADDING ==>
              ZeroPads(v, t).elems[i] == Leaf(Zeros(ElementType(t, i).size))
  {
  }

  // One store per leaf amounts to one store of the whole

  /** `dst` and `value` are of one type, and the object fits into memory of `size` bytes. */
  ghost predicate Ready(dst: CgAddr, value: CgValue, size: nat, base: nat, given: Val) {
    && Plain(value.t) && Plain(dst.t) && Strip(dst.t) == Strip(value.t)
    && WellLaid(value.t) && WellLaid(dst.t)
    && Typed(EvalRef(value.ref, given), value.t)
    && EvalAddr(dst.ref, base) + value.t.size <= size
  }

  /** The parts of a ready store are ready, and `dst` and `value` place them alike. */
  lemma PartReady(dst: CgAddr, value: CgValue, i: nat, size: nat, base: nat, given: Val)
    requires Ready(dst, value, size, base, given) && Aggregate(value.t) && i < Count(value.t)
    ensures Indexable(dst.t, i) && Indexable(value.t, i)
    ensures At(dst, i).t < dst.t && ElementType(value.t, i) < value.t
    ensures EvalAddr(At(dst, i).ref, base) == EvalAddr(dst.ref, base) + Place(value.t, i)
    ensures Ready(At(dst, i), ValueAt(value, i), size, base, given)
    ensures EvalRef(ValueAt(value, i).ref, given) == EvalRef(value.ref, given).elems[i]
    ensures At(dst, i).t.size == ElementType(value.t, i).size
    ensures At(dst, i).t.kind == ElementType(value.t, i).kind
  {
    StorableParts(dst.t, value.t, i);
    Child(dst.t, i);
    Child(value.t, i);
    SamePlace(dst.t, value.t, i);
    hide Plain, WellLaid, Strip, Place, Displacement;
  }

  lemma {:induction false} SamePlace(d: CgType, s: CgType, i: nat)
    requires Plain(s) && Plain(d) && Strip(d) == Strip(s)
    requires Aggregate(s) && i <= Count(s)
    ensures Aggregate(d) && Count(d) == Count(s) && Place(d, i) == Place(s, i)
  {
    CountsAgree(d, s);
    hide *;
    if i == 0 {
      PlaceZero(d);
      PlaceZero(s);
    } else {
      SamePlace(d, s, i - 1);
      StorableParts(d, s, i - 1);
      PlaceNext(d, i - 1);
      PlaceNext(s, i - 1);
    }
  }

  lemma PlaceZero(t: CgType)
    requires Plain(t) && Aggregate(t)
    ensures Place(t, 0) == 0
  {
  }

  /** What element `i` of `v` becomes in memory. */
  function Kept(v: Val, t: CgType, i: nat): Val
    requires Plain(t) && Aggregate(t) && i < Count(t) && Indexable(t, i) && Plain(ElementType(t, i))
    requires v.Agg? && i < |v.elems|
  {
    if t.kind == TUPLE && ElementType(t, i).kind == PADDING then Leaf(Zeros(ElementType(t, i).size))
    else ZeroPads(v.elems[i], ElementType(t, i))
  }

  lemma KeptBytes(v: Val, t: CgType, n: nat)
    requires Plain(t) && Typed(v, t) && Aggregate(t) && 0 < n <= Count(t)
    requires Indexable(t, n - 1) && Plain(ElementType(t, n - 1))
    ensures BytesAll(ZeroParts(v, t, n)) == BytesAll(ZeroParts(v, t, n - 1)) + Bytes(Kept(v, t, n - 1))
  {
    hide Plain, Count, Bytes, ZeroPads;
    assert ZeroParts(v, t, n)[..n - 1] == ZeroParts(v, t, n - 1);
  }

  lemma {:induction false} KeptSize(v: Val, t: CgType, n: nat)
    requires Plain(t) && WellLaid(t) && Typed(v, t) && Aggregate(t) && n <= Count(t)
    ensures |BytesAll(ZeroParts(v, t, n))| == Place(t, n)
  {
    ZeroPadsTyped(v, t);
    PartsSize(ZeroPads(v, t), t, n);
    assert ZeroPads(v, t).elems[..n] == ZeroParts(v, t, n);
  }

  /** Storing leaf by leaf writes the value, with its padding zeroed, in one piece. */
  lemma {:induction false} StoreWrites(dst: CgAddr, value: CgValue, m: seq<byte>, base: nat, given: Val)
    requires Ready(dst, value, |m|, base, given)
    ensures Run(StoreOps(dst, value), m, base, given)
         == Write(m, EvalAddr(dst.ref, base), Bytes(ZeroPads(EvalRef(value.ref, given), value.t)))
    decreases dst.t, 1, 0
  {
    hide *;
    ReadyMeans(dst, value, |m|, base, given);
    if Aggregate(value.t) {
      StoreOpsAggregate(dst, value, given);
      PartsWrite(dst, value, Count(value.t), m, base, given);
    } else {
      StoreOpsScalar(dst, value);
      StoreRuns(value.ref, dst.ref, value.t.align, m, base, given);
      ZeroPadsKeeps(EvalRef(value.ref, given), value.t, 0);
    }
  }

  lemma ReadyMeans(dst: CgAddr, value: CgValue, size: nat, base: nat, given: Val)
    requires Ready(dst, value, size, base, given)
    ensures Plain(value.t) && Plain(dst.t) && Strip(dst.t) == Strip(value.t)
    ensures WellLaid(value.t) && WellLaid(dst.t) && Storable(dst.t, value.t)
    ensures Typed(EvalRef(value.ref, given), value.t)
    ensures EvalAddr(dst.ref, base) + value.t.size <= size
    ensures dst.t.size == value.t.size && dst.t.align == value.t.align
    ensures dst.t.kind != UNION
  {
  }

  lemma StoreOpsAggregate(dst: CgAddr, value: CgValue, given: Val)
    requires Storable(dst.t, value.t) && Aggregate(value.t) && Plain(value.t)
    requires Typed(EvalRef(value.ref, given), value.t)
    ensures Plain(dst.t) && Strip(dst.t) == Strip(value.t)
    ensures StoreOps(dst, value) == StoreParts(dst, value, Count(value.t))
    ensures var v := EvalRef(value.ref, given);
            v.Agg? && |v.elems| == Count(value.t)
            && Bytes(ZeroPads(v, value.t)) == BytesAll(ZeroParts(v, value.t, Count(value.t)))
  {
    hide Strip, StoreParts, Count;
  }

  lemma StoreOpsScalar(dst: CgAddr, value: CgValue)
    requires Storable(dst.t, value.t) && !Aggregate(value.t) && dst.t.kind != UNION
    ensures StoreOps(dst, value) == [Op.Store(value.ref, dst.ref, value.t.align)]
  {
  }

  lemma StoreRuns(value: Ref, addr: Addr, align: nat, m: seq<byte>, base: nat, given: Val)
    ensures Run([Op.Store(value, addr, align)], m, base, given)
         == Write(m, EvalAddr(addr, base), Bytes(EvalRef(value, given)))
  {
  }

  lemma {:induction false} PartsWrite(dst: CgAddr, value: CgValue, n: nat, m: seq<byte>, base: nat, given: Val)
    requires Ready(dst, value, |m|, base, given)
    requires Plain(value.t) && Plain(dst.t) && Strip(dst.t) == Strip(value.t)
    requires Aggregate(value.t) && n <= Count(value.t)
    requires var v := EvalRef(value.ref, given); v.Agg? && |v.elems| == Count(value.t)
    ensures Run(StoreParts(dst, value, n), m, base, given)
         == Write(m, EvalAddr(dst.ref, base), BytesAll(ZeroParts(EvalRef(value.ref, given), value.t, n)))
    decreases dst.t, 0, n
  {
    hide *;
    var v := EvalRef(value.ref, given);
    var a := EvalAddr(dst.ref, base);
    ReadyMeans(dst, value, |m|, base, given);
    if n == 0 {
      NothingWritten(dst, value, m, a, base, given);
    } else {
      var i := n - 1;
      PartsWrite(dst, value, i, m, base, given);
      StorePartsNext(dst, value, i);
      RunConcat(StoreParts(dst, value, i), ElementOps(At(dst, i), Extracted(value, i)), m, base, given);
      PartBytes(v, value.t, i);
      PartWrites(dst, value, i, Run(StoreParts(dst, value, i), m, base, given), base, given);
      WriteConcat(m, a, BytesAll(ZeroParts(v, value.t, i)), Bytes(Kept(v, value.t, i)));
    }
  }

  lemma PartBytes(v: Val, t: CgType, i: nat)
    requires Plain(t) && WellLaid(t) && Typed(v, t) && Aggregate(t) && i < Count(t)
    ensures Indexable(t, i) && Plain(ElementType(t, i)) && v.Agg? && |v.elems| == Count(t)
    ensures BytesAll(ZeroParts(v, t, i + 1)) == BytesAll(ZeroParts(v, t, i)) + Bytes(Kept(v, t, i))
    ensures |BytesAll(ZeroParts(v, t, i))| == Place(t, i)
    ensures Place(t, i) + |Bytes(Kept(v, t, i))| <= t.size
  {
    hide *;
    Child(t, i);
    PlaceNext(t, i);
    TypedAggregate(v, t);
    KeptBytes(v, t, i + 1);
    KeptSize(v, t, i);
    KeptSize(v, t, i + 1);
  }

  lemma TypedAggregate(v: Val, t: CgType)
    requires Plain(t) && Typed(v, t) && Aggregate(t)
    ensures v.Agg? && |v.elems| == Count(t)
  {
  }

  lemma NothingWritten(dst: CgAddr, value: CgValue, m: seq<byte>, a: nat, base: nat, given: Val)
    requires Plain(value.t) && Plain(dst.t) && Strip(dst.t) == Strip(value.t) && Aggregate(value.t)
    requires var v := EvalRef(value.ref, given); v.Agg? && |v.elems| == Count(value.t)
    requires a <= |m|
    ensures Run(StoreParts(dst, value, 0), m, base, given)
         == Write(m, a, BytesAll(ZeroParts(EvalRef(value.ref, given), value.t, 0)))
  {
    assert m[..a] + [] + m[a..] == m;
  }

  lemma {:induction false} PartWrites(dst: CgAddr, value: CgValue, i: nat, m: seq<byte>, base: nat, given: Val)
    requires Ready(dst, value, |m|, base, given)
    requires Plain(value.t) && Plain(dst.t) && Strip(dst.t) == Strip(value.t)
    requires Aggregate(value.t) && i < Count(value.t) && Indexable(dst.t, i)
    requires Indexable(value.t, i) && Plain(ElementType(value.t, i)) && At(dst, i).t < dst.t
    requires Acceptable(At(dst, i).t, Extracted(value, i))
    requires var v := EvalRef(value.ref, given); v.Agg? && |v.elems| == Count(value.t)
    ensures Run(ElementOps(At(dst, i), Extracted(value, i)), m, base, given)
         == Write(m, EvalAddr(dst.ref, base) + Place(value.t, i), Bytes(Kept(EvalRef(value.ref, given), value.t, i)))
    decreases dst.t, 0, 0
  {
    hide *;
    PartReady(dst, value, i, |m|, base, given);
    var d, w := At(dst, i), ValueAt(value, i);
    ReadyMeans(d, w, |m|, base, given);
    ElementCases(dst, value, i, given);
    if Extracted(value, i).Some? {
      StoreWrites(d, w, m, base, given);
    } else {
      ZeroWrites(d, m, base, given);
    }
  }

  lemma ElementCases(dst: CgAddr, value: CgValue, i: nat, given: Val)
    requires Plain(value.t) && Aggregate(value.t) && i < Count(value.t) && Indexable(dst.t, i)
    requires Indexable(value.t, i) && Plain(ElementType(value.t, i))
    requires Acceptable(At(dst, i).t, Extracted(value, i))
    requires At(dst, i).t.size == ElementType(value.t, i).size
    requires var v := EvalRef(value.ref, given); v.Agg? && |v.elems| == Count(value.t)
    ensures var v := EvalRef(value.ref, given); var k := Kept(v, value.t, i);
            var d, e := At(dst, i), Extracted(value, i);
            if e.Some? then
              && e.value == ValueAt(value, i) && Storable(d.t, e.value.t)
              && ElementOps(d, e) == StoreOps(d, e.value)
              && k == ZeroPads(v.elems[i], e.value.t)
            else Plain(d.t) && ElementOps(d, e) == ZeroOps(d) && Bytes(k) == Zeros(d.t.size)
  {
    hide Plain, StoreOps, ZeroOps, ZeroPads, Storable, Count;
  }

  /** Zeroing writes zeros over the whole object, whichever way it is done. */
  lemma {:induction false} ZeroWrites(dst: CgAddr, m: seq<byte>, base: nat, given: Val)
    requires Plain(dst.t) && WellLaid(dst.t)
    requires EvalAddr(dst.ref, base) + dst.t.size <= |m|
    ensures Run(ZeroOps(dst), m, base, given) == Write(m, EvalAddr(dst.ref, base), Zeros(dst.t.size))
    decreases dst.t, 2, 0
  {
    hide *;
    var value := CgValue(dst.t, ConstNull(dst.t));
    ZeroCases(dst, m, base, given);
    if dst.t.size <= 4096 {
      NullTyped(dst.t);
      NullReady(dst, value, |m|, base, given);
      StoreWrites(dst, value, m, base, given);
      ZeroPadsNull(dst.t);
      NullBytes(dst.t);
    }
  }

  lemma ZeroCases(dst: CgAddr, m: seq<byte>, base: nat, given: Val)
    requires Plain(dst.t)
    ensures dst.t.size > 4096 ==>
              Run(ZeroOps(dst), m, base, given) == Write(m, EvalAddr(dst.ref, base), Zeros(dst.t.size))
    ensures dst.t.size <= 4096 ==>
              var value := CgValue(dst.t, ConstNull(dst.t));
              Storable(dst.t, value.t) && ZeroOps(dst) == StoreOps(dst, value)
  {
    hide Plain, StoreOps;
  }

  lemma NullReady(dst: CgAddr, value: CgValue, size: nat, base: nat, given: Val)
    requires value == CgValue(dst.t, ConstNull(dst.t))
    requires Plain(dst.t) && WellLaid(dst.t) && Typed(Null(dst.t), dst.t)
    requires EvalAddr(dst.ref, base) + dst.t.size <= size
    ensures Ready(dst, value, size, base, given)
    ensures EvalRef(value.ref, given) == Null(dst.t)
  {
    hide Plain, WellLaid, Typed, Null;
  }

  // Alignment of every store

  ghost predicate OpAligned(op: Op, base: nat) {
    match op
    case Store(_, addr, align) => align > 1 ==> EvalAddr(addr, base) % align == 0
    case MemSet(addr, _, align) => align > 1 ==> EvalAddr(addr, base) % align == 0
  }

  ghost predicate AllAligned(ops: seq<Op>, base: nat) {
    forall i | 0 <= i < |ops| :: OpAligned(ops[i], base)
  }

  ghost predicate Aligned(a: nat, align: nat) {
    align > 1 ==> a % align == 0
  }

  lemma DivisorOf(a: nat, b: nat, d: nat, e: nat)
    requires d > 0 && e > 0 && a % d == 0 && d % e == 0 && b % e == 0
    ensures (a + b) % e == 0
  {
    var q, r, k := a / d, d / e, b / e;
    assert a == q * d && d == r * e && b == k * e;
    Regroup(q, r, k, e);
    Multiple(e, q * r + k);
  }

  lemma Regroup(q: nat, r: nat, k: nat, e: nat)
    ensures q * (r * e) + k * e == (q * r + k) * e
  {
    assert q * (r * e) == (q * r) * e;
  }

  lemma ChildAligned(t: CgType, i: nat, a: nat)
    requires Plain(t) && WellLaid(t) && Aggregate(t) && i < Count(t) && Indexable(t, i)
    requires Aligned(a, t.align)
    ensures Aligned(a + Place(t, i), ElementType(t, i).align)
  {
    var e := ElementType(t, i);
    if t.kind == TUPLE {
      assert Fits(t, i);
      assert Plain(e);
      if e.align > 1 {
        DivisorOf(a, Place(t, i), t.align, e.align);
      }
    } else if e.align > 1 {
      assert WellLaid(e);
      Multiples(i, e.size, e.align);
      DivisorOf(a, i * e.size, t.align, e.align);
    }
  }

  lemma Multiples(i: nat, s: nat, a: nat)
    requires a > 0 && s % a == 0
    ensures (i * s) % a == 0
  {
    var q := s / a;
    assert s == q * a;
    Regroup(i, q, 0, a);
    Multiple(a, i * q);
  }

  /** Into an aligned object every single store is aligned. */
  lemma {:induction false} StoreAligned(dst: CgAddr, value: CgValue, size: nat, base: nat, given: Val)
    requires Ready(dst, value, size, base, given)
    requires Aligned(EvalAddr(dst.ref, base), dst.t.align)
    ensures Storable(dst.t, value.t) && AllAligned(StoreOps(dst, value), base)
    decreases dst.t, 1, 0
  {
    hide *;
    ReadyMeans(dst, value, size, base, given);
    if Aggregate(value.t) {
      StoreOpsAggregate(dst, value, given);
      PartsAligned(dst, value, Count(value.t), size, base, given);
    } else {
      StoreOpsScalar(dst, value);
      OneAligned(value.ref, dst.ref, value.t.align, base);
    }
  }

  lemma OneAligned(value: Ref, addr: Addr, align: nat, base: nat)
    requires Aligned(EvalAddr(addr, base), align)
    ensures AllAligned([Op.Store(value, addr, align)], base)
  {
  }

  lemma BothAligned(a: seq<Op>, b: seq<Op>, base: nat)
    requires AllAligned(a, base) && AllAligned(b, base)
    ensures AllAligned(a + b, base)
  {
  }

  lemma {:induction false} PartsAligned(dst: CgAddr, value: CgValue, n: nat, size: nat, base: nat, given: Val)
    requires Ready(dst, value, size, base, given)
    requires Plain(value.t) && Plain(dst.t) && Strip(dst.t) == Strip(value.t)
    requires Aggregate(value.t) && n <= Count(value.t)
    requires var v := EvalRef(value.ref, given); v.Agg? && |v.elems| == Count(value.t)
    requires Aligned(EvalAddr(dst.ref, base), dst.t.align)
    ensures AllAligned(StoreParts(dst, value, n), base)
    decreases dst.t, 0, n
  {
    hide *;
    if n == 0 {
      StorePartsNone(dst, value);
      NoneAligned(base);
    } else {
      var i := n - 1;
      PartsAligned(dst, value, i, size, base, given);
      StorePartsNext(dst, value, i);
      PartReady(dst, value, i, size, base, given);
      var d, w := At(dst, i), ValueAt(value, i);
      ReadyMeans(dst, value, size, base, given);
      ReadyMeans(d, w, size, base, given);
      Child(value.t, i);
      ChildAligned(value.t, i, EvalAddr(dst.ref, base));
      AtValue(value, i);
      ElementCases(dst, value, i, given);
      if Extracted(value, i).Some? {
        StoreAligned(d, w, size, base, given);
      } else {
        ZeroAligned(d, size, base, given);
      }
      BothAligned(StoreParts(dst, value, i), ElementOps(d, Extracted(value, i)), base);
    }
  }

  lemma AtValue(value: CgValue, i: nat)
    requires Indexable(value.t, i)
    ensures ValueAt(value, i).t == ElementType(value.t, i)
  {
  }

  lemma NoneAligned(base: nat)
    ensures AllAligned([], base)
  {
  }

  lemma {:induction false} ZeroAligned(dst: CgAddr, size: nat, base: nat, given: Val)
    requires Plain(dst.t) && WellLaid(dst.t)
    requires EvalAddr(dst.ref, base) + dst.t.size <= size
    requires Aligned(EvalAddr(dst.ref, base), dst.t.align)
    ensures AllAligned(ZeroOps(dst), base)
    decreases dst.t, 2, 0
  {
    hide *;
    var value := CgValue(dst.t, ConstNull(dst.t));
    ZeroShape(dst, base);
    if dst.t.size <= 4096 {
      NullTyped(dst.t);
      NullReady(dst, value, size, base, given);
      StoreAligned(dst, value, size, base, given);
    }
  }

  lemma ZeroShape(dst: CgAddr, base: nat)
    requires Plain(dst.t)
    requires Aligned(EvalAddr(dst.ref, base), dst.t.align)
    ensures dst.t.size > 4096 ==> AllAligned(ZeroOps(dst), base)
    ensures dst.t.size <= 4096 ==>
              var value := CgValue(dst.t, ConstNull(dst.t));
              Storable(dst.t, value.t) && ZeroOps(dst) == StoreOps(dst, value)
  {
    hide Plain, StoreOps;
  }

  // Marks

  /** The type at an address inside an object of type `root`. */
  function Pointee(root: CgType, addr: Addr): CgType {
    match addr
    case Base => root
    case Gep(of, _, i) => if Indexable(Pointee(root, of), i) then ElementType(Pointee(root, of), i) else root
  }

  /** Every store is of a scalar, every other write fills more than 4096 bytes, and both are marked with the
    * alignment of the type that they write. */
  ghost predicate Marked(ops: seq<Op>, root: CgType) {
    forall k | 0 <= k < |ops| ::
      var to := Pointee(root, ops[k].addr);
      ops[k].align == to.align && if ops[k].Store? then !Aggregate(to) else ops[k].len == to.size > 4096
  }

  lemma BothMarked(a: seq<Op>, b: seq<Op>, root: CgType)
    requires Marked(a, root) && Marked(b, root)
    ensures Marked(a + b, root)
  {
  }

  lemma NoneMarked(root: CgType)
    ensures Marked([], root)
  {
  }

  /** Every write into an object is marked with the alignment of what it writes. */
  lemma {:induction false} StoreMarked(dst: CgAddr, value: CgValue, root: CgType)
    requires Plain(dst.t) && Plain(value.t) && Strip(dst.t) == Strip(value.t) && Pointee(root, dst.ref) == dst.t
    ensures Storable(dst.t, value.t) && Marked(StoreOps(dst, value), root)
    decreases dst.t, 1, 0
  {
    hide *;
    StoreShape(dst, value, root);
    if Aggregate(value.t) {
      PartsMarked(dst, value, Count(value.t), root);
    }
  }

  lemma StoreShape(dst: CgAddr, value: CgValue, root: CgType)
    requires Plain(dst.t) && Plain(value.t) && Strip(dst.t) == Strip(value.t) && Pointee(root, dst.ref) == dst.t
    ensures Storable(dst.t, value.t)
    ensures if Aggregate(value.t) then StoreOps(dst, value) == StoreParts(dst, value, Count(value.t))
            else Marked(StoreOps(dst, value), root)
  {
    hide StoreParts, Pointee;
  }

  lemma {:induction false} PartsMarked(dst: CgAddr, value: CgValue, n: nat, root: CgType)
    requires Plain(value.t) && Plain(dst.t) && Strip(dst.t) == Strip(value.t) && Pointee(root, dst.ref) == dst.t
    requires Aggregate(value.t) && n <= Count(value.t)
    ensures Marked(StoreParts(dst, value, n), root)
    decreases dst.t, 0, n
  {
    hide *;
    if n == 0 {
      StorePartsNone(dst, value);
      NoneMarked(root);
    } else {
      var i := n - 1;
      PartsMarked(dst, value, i, root);
      StorePartsNext(dst, value, i);
      PartShape(dst, value, i, root);
      var e := Extracted(value, i);
      if e.Some? {
        StoreMarked(At(dst, i), e.value, root);
      } else {
        ZeroMarked(At(dst, i), root);
      }
      BothMarked(StoreParts(dst, value, i), ElementOps(At(dst, i), e), root);
    }
  }

  lemma PlainChild(t: CgType, i: nat)
    requires Plain(t) && Aggregate(t) && i < Count(t)
    ensures Indexable(t, i) && Plain(ElementType(t, i))
  {
  }

  lemma PointeeNext(dst: CgAddr, i: nat, root: CgType)
    requires Indexable(dst.t, i) && Pointee(root, dst.ref) == dst.t
    ensures Pointee(root, At(dst, i).ref) == At(dst, i).t == ElementType(dst.t, i)
  {
  }

  lemma PartShape(dst: CgAddr, value: CgValue, i: nat, root: CgType)
    requires Plain(value.t) && Plain(dst.t) && Strip(dst.t) == Strip(value.t) && Pointee(root, dst.ref) == dst.t
    requires Aggregate(value.t) && i < Count(value.t)
    ensures Indexable(dst.t, i) && Plain(At(dst, i).t) && Pointee(root, At(dst, i).ref) == At(dst, i).t
    ensures Acceptable(At(dst, i).t, Extracted(value, i))
    ensures var e := Extracted(value, i);
            if e.Some? then
              && Plain(e.value.t) && Strip(At(dst, i).t) == Strip(e.value.t) && Storable(At(dst, i).t, e.value.t)
              && ElementOps(At(dst, i), e) == StoreOps(At(dst, i), e.value)
            else ElementOps(At(dst, i), e) == ZeroOps(At(dst, i))
  {
    hide *;
    StorableParts(dst.t, value.t, i);
    PlainChild(dst.t, i);
    PlainChild(value.t, i);
    PointeeNext(dst, i, root);
    StorePartsNext(dst, value, i);
    AtValue(value, i);
    PartCases(At(dst, i), value, i);
  }

  lemma PartCases(d: CgAddr, value: CgValue, i: nat)
    requires Plain(value.t) && Aggregate(value.t) && i < Count(value.t) && Indexable(value.t, i)
    requires Acceptable(d.t, Extracted(value, i))
    ensures var e := Extracted(value, i);
            if e.Some? then
              e.value == ValueAt(value, i) && Storable(d.t, e.value.t) && ElementOps(d, e) == StoreOps(d, e.value)
            else Plain(d.t) && ElementOps(d, e) == ZeroOps(d)
  {
    hide Plain, StoreOps, ZeroOps, Strip, Storable, Count;
  }

  lemma {:induction false} ZeroMarked(dst: CgAddr, root: CgType)
    requires Plain(dst.t) && Pointee(root, dst.ref) == dst.t
    ensures Marked(ZeroOps(dst), root)
    decreases dst.t, 2, 0
  {
    hide *;
    ZeroParts4096(dst, root);
    if dst.t.size <= 4096 {
      StoreMarked(dst, CgValue(dst.t, ConstNull(dst.t)), root);
    }
  }

  lemma ZeroParts4096(dst: CgAddr, root: CgType)
    requires Plain(dst.t) && Pointee(root, dst.ref) == dst.t
    ensures dst.t.size > 4096 ==> Marked(ZeroOps(dst), root)
    ensures dst.t.size <= 4096 ==>
              var value := CgValue(dst.t, ConstNull(dst.t));
              Storable(dst.t, value.t) && ZeroOps(dst) == StoreOps(dst, value)
  {
    hide Plain, StoreOps, Pointee;
  }

  // Loading back

  /** The value of type `t` that `bs` holds. */
  function Load(t: CgType, bs: seq<byte>): Val
    requires Plain(t)
    decreases t, 1, 0
  {
    if Aggregate(t) then Agg(LoadParts(t, bs, Count(t))) else Leaf(bs)
  }

  function LoadParts(t: CgType, bs: seq<byte>, n: nat): (r: seq<Val>)
    requires Plain(t) && Aggregate(t) && n <= Count(t)
    ensures |r| == n
    decreases t, 0, n
  {
    if n == 0 then []
    else
      var i := n - 1;
      var e, a := ElementType(t, i), Place(t, i);
      LoadParts(t, bs, i) + [Load(e, if a + e.size <= |bs| then bs[a..a + e.size] else [])]
  }

  /** Loading what was stored gives it back. */
  lemma {:induction false} LoadBack(v: Val, t: CgType)
    requires Plain(t) && WellLaid(t) && Typed(v, t)
    ensures Load(t, Bytes(v)) == v
    decreases t, 1, 0
  {
    if Aggregate(t) {
      LoadPartsBack(v, t, Count(t));
      assert v.elems[..Count(t)] == v.elems;
    }
  }

  lemma {:induction false} LoadPartsBack(v: Val, t: CgType, n: nat)
    requires Plain(t) && WellLaid(t) && Typed(v, t) && Aggregate(t) && n <= Count(t)
    ensures v.Agg? && |v.elems| == Count(t)
    ensures LoadParts(t, Bytes(v), n) == v.elems[..n]
    decreases t, 0, n
  {
    hide *;
    TypedAggregate(v, t);
    if n == 0 {
      NoParts(t, Bytes(v));
    } else {
      var i := n - 1;
      LoadPartsBack(v, t, i);
      Child(t, i);
      TypedElement(v, t, i);
      ElementBytes(v, t, i);
      LoadBack(v.elems[i], ElementType(t, i));
      LoadNext(t, Bytes(v), i);
      assert v.elems[..n] == v.elems[..i] + [v.elems[i]];
    }
  }

  lemma NoParts(t: CgType, bs: seq<byte>)
    requires Plain(t) && Aggregate(t)
    ensures LoadParts(t, bs, 0) == []
  {
  }

  lemma TypedElement(v: Val, t: CgType, i: nat)
    requires Plain(t) && Typed(v, t) && Aggregate(t) && i < Count(t)
    requires v.Agg? && |v.elems| == Count(t)
    requires Indexable(t, i) && Plain(ElementType(t, i))
    ensures Typed(v.elems[i], ElementType(t, i))
  {
  }

  lemma LoadNext(t: CgType, bs: seq<byte>, i: nat)
    requires Plain(t) && Aggregate(t) && i < Count(t)
    requires Indexable(t, i) && Plain(ElementType(t, i))
    requires Place(t, i) + ElementType(t, i).size <= |bs|
    ensures LoadParts(t, bs, i + 1)
         == LoadParts(t, bs, i) + [Load(ElementType(t, i), bs[Place(t, i)..Place(t, i) + ElementType(t, i).size])]
  {
    hide Plain, Count, Load;
  }

  /** Storing `v` at `base` is one write of its bytes with zeroed padding, changes nothing
    * else, is aligned throughout, and loads back as that value. */
  lemma StoreRefines(t: CgType, v: Val, m: seq<byte>, base: nat)
    requires Plain(t) && WellLaid(t) && Typed(v, t) && base + t.size <= |m|
    ensures Storable(t, t)
    ensures var ops := StoreOps(CgAddr(t, Base), CgValue(t, Given));
            var m' := Run(ops, m, base, v);
            && m' == Write(m, base, Bytes(ZeroPads(v, t)))
            && |m'| == |m| && m'[..base] == m[..base] && m'[base + t.size..] == m[base + t.size..]
            && Load(t, m'[base..base + t.size]) == ZeroPads(v, t)
            && (Aligned(base, t.align) ==> AllAligned(ops, base))
  {
    hide *;
    var dst, value := CgAddr(t, Base), CgValue(t, Given);
    RootReady(t, v, |m|, base);
    ReadyMeans(dst, value, |m|, base, v);
    StoreWrites(dst, value, m, base, v);
    var z := ZeroPads(v, t);
    ZeroPadsTyped(v, t);
    BytesSize(z, t);
    LoadBack(z, t);
    Written(m, base, Bytes(z));
    if Aligned(base, t.align) {
      StoreAligned(dst, value, |m|, base, v);
    }
  }

  lemma RootReady(t: CgType, v: Val, size: nat, base: nat)
    requires Plain(t) && WellLaid(t) && Typed(v, t) && base + t.size <= size
    ensures Ready(CgAddr(t, Base), CgValue(t, Given), size, base, v)
    ensures EvalAddr(Base, base) == base && EvalRef(Given, v) == v
  {
  }

  lemma Written(m: seq<byte>, a: nat, bs: seq<byte>)
    requires a + |bs| <= |m|
    ensures var r := Write(m, a, bs);
            |r| == |m| && r[..a] == m[..a] && r[a + |bs|..] == m[a + |bs|..] && r[a..a + |bs|] == bs
  {
  }
}
