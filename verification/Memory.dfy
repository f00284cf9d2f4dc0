// Loads, stores and zeroing of typed values in byte memory. Aggregates are
// stored leaf by leaf; unions get their value and their tag.
module Memory {

  import opened Wrappers
  import opened Bits
  import opened Growth
  import opened Types
  import opened Layout

  type byte = x: int | 0 <= x < 256

  /** A first-class value: the bytes of a leaf, or the elements of an aggregate. */
  datatype Val = Leaf(bytes: seq<byte>) | Agg(elems: seq<Val>)

  predicate Aggregate(t: CgType) {
    t.kind == TUPLE || t.kind == ARRAY
  }

  /** Physical elements of an aggregate. */
  function Count(t: CgType): nat {
    if t.kind == TUPLE then t.Length() else t.extent
  }

  /** Types whose stored form has exactly their recorded size, at every depth. */
  predicate Plain(t: CgType) {
    && t.kind !in {UNION, VA, B16, B32, B64}
    && (Aggregate(t) ==> t.types.Types? && forall i | 0 <= i < |t.types.list| :: Plain(t.types.list[i]))
    && (t.kind == ARRAY ==> |t.types.list| == 1)
  }

  /** Tuples made of plain types are plain. */
  lemma TuplePlain(info: TupleInfo, host: Host)
    requires info.Valid() && PlacesAll(info.types, |info.types|)
    requires Total(info.types) < W
    requires forall k | 0 <= k < |info.types| :: Plain(info.types[k])
    requires TupleType(info, host).Done?
    ensures Plain(TupleType(info, host).value)
  {
    hide *;
    TupleLayout(info, host);
    var t := TupleType(info, host).value;
    LaidOutMeans(info, t);
    var ts := t.types.list;
    forall i | 0 <= i < |ts| ensures Plain(ts[i]) {
      PaddingPlain(ts[i]);
      if ts[i].kind != PADDING {
        Original(info, ts, t.fields.value, i);
      }
    }
    PlainTuple(t);
  }

  lemma PaddingPlain(t: CgType)
    ensures t.kind == PADDING ==> Plain(t)
  {
  }

  lemma PlainTuple(t: CgType)
    requires t.kind == TUPLE && t.types.Types? && forall i | 0 <= i < |t.types.list| :: Plain(t.types.list[i])
    ensures Plain(t)
  {
  }

  /** The type of element `i`. */
  function ElementType(t: CgType, i: nat): CgType
    requires t.types.Types? && (if t.kind == ARRAY then 0 else i) < |t.types.list|
  {
    t.types.list[if t.kind == ARRAY then 0 else i]
  }

  ghost predicate Typed(v: Val, t: CgType)
    requires Plain(t)
    decreases v
  {
    if Aggregate(t) then
      && v.Agg? && |v.elems| == Count(t)
      && forall i | 0 <= i < |v.elems| :: Typed(v.elems[i], ElementType(t, i))
    else v.Leaf? && |v.bytes| == t.size
  }

  function Zeros(n: nat): seq<byte> {
    seq(n, _ => 0)
  }

  function Null(t: CgType): Val
    requires Plain(t)
    decreases t, 1
  {
    if Aggregate(t) then Agg(Nulls(t, Count(t))) else Leaf(Zeros(t.size))
  }

  function Nulls(t: CgType, n: nat): (r: seq<Val>)
    requires Plain(t) && Aggregate(t) && n <= Count(t)
    ensures |r| == n
    ensures forall i | 0 <= i < n :: r[i] == Null(ElementType(t, i))
    decreases t, 0, n
  {
    if n == 0 then [] else Nulls(t, n - 1) + [Null(ElementType(t, n - 1))]
  }

  // What is emitted

  /** An address relative to the object stored to. */
  datatype Addr = Base | Gep(of: Addr, t: CgType, i: nat)

  /** A value relative to the value given. */
  datatype Ref = Given | Extract(of: Ref, i: nat) | ConstNull(t: CgType) | ConstInt(n: nat)

  datatype Op = Store(value: Ref, addr: Addr, align: nat) | MemSet(addr: Addr, len: nat, align: nat)

  /** An address with the type it points to. */
  datatype CgAddr = CgAddr(t: CgType, ref: Addr)

  datatype CgValue = CgValue(t: CgType, ref: Ref)

  predicate Indexable(t: CgType, i: nat) {
    && (Aggregate(t) || t.kind == UNION)
    && t.types.Types? && (if t.kind == ARRAY then 0 else i) < |t.types.list|
  }

  function At(a: CgAddr, i: nat): CgAddr
    requires Indexable(a.t, i)
  {
    CgAddr(ElementType(a.t, i), Gep(a.ref, a.t, i))
  }

  function ValueAt(v: CgValue, i: nat): CgValue
    requires Indexable(v.t, i)
  {
    CgValue(ElementType(v.t, i), Extract(v.ref, i))
  }

  /** A scalar can be stored anywhere; a union must have variants 0 and 1, and they must not be unions. */
  predicate TakesScalar(d: CgType, s: CgType) {
    && !Aggregate(s) && Plain(s)
    && (d.kind == UNION ==>
          && d.types.Types? && |d.types.list| >= 2
          && d.types.list[0].kind != UNION && d.types.list[1].kind != UNION)
  }

  predicate Storable(d: CgType, s: CgType) {
    (Plain(s) && Plain(d) && Strip(d) == Strip(s)) || TakesScalar(d, s)
  }

  /** Index of the first variant equal to `s`, or the number of variants. */
  function Variant(ts: seq<CgType>, s: CgType): (i: nat)
    ensures i <= |ts|
    ensures i < |ts| ==> !NotEqual(ts[i], s)
    ensures forall j | 0 <= j < i :: NotEqual(ts[j], s)
  {
    if ts == [] then 0
    else if !NotEqual(ts[0], s) then 0
    else 1 + Variant(ts[1..], s)
  }

  lemma StorableParts(d: CgType, s: CgType, i: nat)
    requires Plain(s) && Plain(d) && Strip(d) == Strip(s)
    requires Aggregate(s) && i < Count(s)
    ensures Aggregate(d) && Count(d) == Count(s) && Indexable(d, i) && Indexable(s, i)
    ensures Storable(ElementType(d, i), ElementType(s, i))
    ensures ElementType(d, i).kind == ElementType(s, i).kind
    ensures ElementType(d, i).size == ElementType(s, i).size
    ensures Strip(ElementType(d, i)) == Strip(ElementType(s, i))
  {
    var k := if s.kind == ARRAY then 0 else i;
    assert |StripAll(s.types.list)| == |s.types.list|;
    assert Strip(d.types.list[k]) == StripAll(d.types.list)[k] == StripAll(s.types.list)[k] == Strip(s.types.list[k]);
  }

  /** The value to store in element `i`; none for padding, which is zeroed instead. */
  function Extracted(value: CgValue, i: nat): Option<CgValue>
    requires Plain(value.t) && Aggregate(value.t) && i < Count(value.t)
  {
    if value.t.kind == TUPLE && ElementType(value.t, i).kind == PADDING then None else Some(ValueAt(value, i))
  }

  function StoreOps(dst: CgAddr, value: CgValue): seq<Op>
    requires Storable(dst.t, value.t)
    decreases dst.t, 1, 0
  {
    if Aggregate(value.t) then
      StoreParts(dst, value, Count(value.t))
    else if dst.t.kind == UNION && Variant(dst.t.types.list, value.t) < |dst.t.types.list| then
      var tag := CgValue(Uint8, ConstInt(Variant(dst.t.types.list, value.t)));
      StoreOps(At(dst, 0), value) + StoreOps(At(dst, 1), tag)
    else
      [Store(value.ref, dst.ref, value.t.align)]
  }

  /** The stores of the first `n` elements. */
  function StoreParts(dst: CgAddr, value: CgValue, n: nat): seq<Op>
    requires Plain(value.t) && Plain(dst.t) && Strip(dst.t) == Strip(value.t)
    requires Aggregate(value.t) && n <= Count(value.t)
    decreases dst.t, 0, n
  {
    if n == 0 then []
    else
      StorableParts(dst.t, value.t, n - 1);
      StoreParts(dst, value, n - 1)
      + ElementOps(At(dst, n - 1), Extracted(value, n - 1))
  }

  predicate Acceptable(d: CgType, e: Option<CgValue>) {
    if e.Some? then Storable(d, e.value.t) else Plain(d)
  }

  function ElementOps(dst: CgAddr, e: Option<CgValue>): seq<Op>
    requires Acceptable(dst.t, e)
    decreases dst.t, 3, 0
  {
    if e.Some? then StoreOps(dst, e.value) else ZeroOps(dst)
  }

  function ZeroOps(dst: CgAddr): seq<Op>
    requires Plain(dst.t)
    decreases dst.t, 2, 0
  {
    if dst.t.size > 4096 then [MemSet(dst.ref, dst.t.size, dst.t.align)]
    else StoreOps(dst, CgValue(dst.t, ConstNull(dst.t)))
  }

  /** The builder; `Store` and `Zero` append to it. */
  class Emitter {
    var ops: seq<Op>

    constructor ()
      ensures ops == []
    {
      ops := [];
    }

    method Store(dst: CgAddr, value: CgValue)
      requires Storable(dst.t, value.t)
      modifies this
      ensures ops == old(ops) + StoreOps(dst, value)
      decreases dst.t, 1
    {
      if Aggregate(value.t) {
        StoreElements(dst, value);
      } else {
        if dst.t.kind == UNION {
          var i := FindVariant(dst.t.types.list, value.t);
          if i < |dst.t.types.list| {
            StoreTagged(dst, value, i);
            return;
          }
        }
        ops := ops + [Op.Store(value.ref, dst.ref, value.t.align)];
      }
    }

    /** All addresses first, then all extracted values, then the stores. */
    method StoreElements(dst: CgAddr, value: CgValue)
      requires Storable(dst.t, value.t) && Aggregate(value.t)
      modifies this
      ensures ops == old(ops) + StoreParts(dst, value, Count(value.t))
      decreases dst.t, 0
    {
      hide *;
      CountsAgree(dst.t, value.t);
      var dsts := Geps(dst, value.t);
      var extract := Extracts(value);
      StorePartsNone(dst, value);
      for i := 0 to |dsts|
        invariant ops == old(ops) + StoreParts(dst, value, i)
      {
        StorePartsNext(dst, value, i);
        ghost var done, next := StoreParts(dst, value, i), ElementOps(At(dst, i), Extracted(value, i));
        assert old(ops) + done + next == old(ops) + (done + next);
        StoreElement(dsts[i], extract[i]);
      }
    }

    method StoreElement(dst: CgAddr, e: Option<CgValue>)
      requires Acceptable(dst.t, e)
      modifies this
      ensures ops == old(ops) + ElementOps(dst, e)
      decreases dst.t, 3
    {
      if e.Some? {
        Store(dst, e.value);
      } else {
        Zero(dst);
      }
    }

    /** The value and its tag. */
    method StoreTagged(dst: CgAddr, value: CgValue, i: nat)
      requires TakesScalar(dst.t, value.t) && dst.t.kind == UNION
      requires i == Variant(dst.t.types.list, value.t) < |dst.t.types.list|
      modifies this
      ensures ops == old(ops) + StoreOps(dst, value)
      decreases dst.t, 0
    {
      var tag := CgValue(Uint8, ConstInt(i));
      assert At(dst, 0).t < dst.t && At(dst, 1).t < dst.t;
      Store(At(dst, 0), value);
      Store(At(dst, 1), tag);
    }

    /** Index of the variant with the type `s`. */
    method FindVariant(variants: seq<CgType>, s: CgType) returns (i: nat)
      ensures i == Variant(variants, s)
    {
      i := 0;
      while i < |variants|
        invariant i <= |variants|
        invariant forall j | 0 <= j < i :: NotEqual(variants[j], s)
      {
        if !NotEqual(variants[i], s) {
          VariantIs(variants, s, i);
          return;
        }
        i := i + 1;
      }
      assert !(Variant(variants, s) < |variants|);
    }

    /** The addresses of every element of `dst`. */
    method Geps(dst: CgAddr, s: CgType) returns (dsts: seq<CgAddr>)
      requires Storable(dst.t, s) && Aggregate(s)
      ensures |dsts| == Count(s)
      ensures forall j | 0 <= j < |dsts| :: Indexable(dst.t, j) && dsts[j] == At(dst, j)
    {
      hide *;
      CountsAgree(dst.t, s);
      dsts := [];
      for i := 0 to Count(dst.t)
        invariant |dsts| == i
        invariant forall j | 0 <= j < i :: Indexable(dst.t, j) && dsts[j] == At(dst, j)
      {
        StorableParts(dst.t, s, i);
        dsts := dsts + [At(dst, i)];
      }
    }

    /** The values of every element that is not padding. */
    method Extracts(value: CgValue) returns (extract: seq<Option<CgValue>>)
      requires Plain(value.t) && Aggregate(value.t)
      ensures |extract| == Count(value.t)
      ensures forall j | 0 <= j < |extract| :: extract[j] == Extracted(value, j)
    {
      extract := [];
      for i := 0 to Count(value.t)
        invariant |extract| == i
        invariant forall j | 0 <= j < i :: extract[j] == Extracted(value, j)
      {
        if value.t.kind == TUPLE && value.t.types.list[i].kind == PADDING {
          extract := extract + [None];
        } else {
          extract := extract + [Some(ValueAt(value, i))];
        }
      }
    }

    method Zero(dst: CgAddr)
      requires Plain(dst.t)
      modifies this
      ensures ops == old(ops) + ZeroOps(dst)
      decreases dst.t, 2
    {
      if dst.t.size > 4096 {
        ops := ops + [MemSet(dst.ref, dst.t.size, dst.t.align)];
        return;
      }
      Store(dst, CgValue(dst.t, ConstNull(dst.t)));
    }
  }

  lemma CountsAgree(d: CgType, s: CgType)
    requires Storable(d, s) && Aggregate(s)
    ensures Aggregate(d) && Count(d) == Count(s)
    ensures Plain(s) && Plain(d) && Strip(d) == Strip(s)
  {
    assert |StripAll(s.types.list)| == |s.types.list|;
  }

  lemma StorePartsNone(dst: CgAddr, value: CgValue)
    requires Plain(value.t) && Plain(dst.t) && Strip(dst.t) == Strip(value.t) && Aggregate(value.t)
    ensures StoreParts(dst, value, 0) == []
  {
  }

  lemma StorePartsNext(dst: CgAddr, value: CgValue, i: nat)
    requires Plain(value.t) && Plain(dst.t) && Strip(dst.t) == Strip(value.t)
    requires Aggregate(value.t) && i < Count(value.t)
    ensures Indexable(dst.t, i) && At(dst, i).t < dst.t
    ensures Acceptable(At(dst, i).t, Extracted(value, i))
    ensures StoreParts(dst, value, i + 1)
         == StoreParts(dst, value, i) + ElementOps(At(dst, i), Extracted(value, i))
  {
    StorableParts(dst.t, value.t, i);
    hide Strip, StoreOps, ZeroOps;
  }

  lemma {:induction false} VariantIs(ts: seq<CgType>, s: CgType, i: nat)
    requires i < |ts| && !NotEqual(ts[i], s)
    requires forall j | 0 <= j < i :: NotEqual(ts[j], s)
    ensures Variant(ts, s) == i
  {
    if i > 0 {
      VariantIs(ts[1..], s, i - 1);
    }
  }

  // What it does to memory

  /** The payload of a union: its largest variant. */
  function Payload(ts: seq<CgType>): nat {
    if ts == [] then 0
    else
      var rest := Payload(ts[..|ts| - 1]);
      if ts[|ts| - 1].size > rest then ts[|ts| - 1].size else rest
  }

  /** Distance of element `i` from the start of a packed aggregate, array or union. */
  function Displacement(t: CgType, i: nat): nat {
    if !Indexable(t, i) then 0
    else if t.kind == TUPLE then OffsetOf(t.types.list, i)
    else if t.kind == ARRAY then i * t.types.list[0].size
    else if i == 0 then 0
    else if i == 1 then Payload(t.types.list)
    else Payload(t.types.list) + 1
  }

  function EvalAddr(a: Addr, base: nat): nat {
    match a
    case Base => base
    case Gep(of, t, i) => EvalAddr(of, base) + Displacement(t, i)
  }

  function EvalRef(r: Ref, given: Val): Val {
    match r
    case Given => given
    case Extract(of, i) =>
      var v := EvalRef(of, given);
      if v.Agg? && i < |v.elems| then v.elems[i] else Leaf([])
    case ConstNull(t) => if Plain(t) then Null(t) else Leaf([])
    case ConstInt(n) => Leaf([n % 256])
  }

  /** The bytes a value is stored as. */
  function Bytes(v: Val): seq<byte>
    decreases v, 0
  {
    match v
    case Leaf(bytes) => bytes
    case Agg(elems) => BytesAll(elems)
  }

  function BytesAll(vs: seq<Val>): seq<byte>
    decreases vs, 1
  {
    if vs == [] then [] else BytesAll(vs[..|vs| - 1]) + Bytes(vs[|vs| - 1])
  }

  function Write(m: seq<byte>, a: nat, bs: seq<byte>): (r: seq<byte>)
    ensures |r| == |m|
  {
    if a + |bs| <= |m| then m[..a] + bs + m[a + |bs|..] else m
  }

  function RunOp(op: Op, m: seq<byte>, base: nat, given: Val): (r: seq<byte>)
    ensures |r| == |m|
  {
    match op
    case Store(value, addr, _) => Write(m, EvalAddr(addr, base), Bytes(EvalRef(value, given)))
    case MemSet(addr, len, _) => Write(m, EvalAddr(addr, base), Zeros(len))
  }

  function Run(ops: seq<Op>, m: seq<byte>, base: nat, given: Val): (r: seq<byte>)
    ensures |r| == |m|
  {
    if ops == [] then m
    else Run(ops[1..], RunOp(ops[0], m, base, given), base, given)
  }

  lemma {:induction false} RunConcat(a: seq<Op>, b: seq<Op>, m: seq<byte>, base: nat, given: Val)
    ensures Run(a + b, m, base, given) == Run(b, Run(a, m, base, given), base, given)
  {
    if a == [] {
      assert a + b == b;
    } else {
      assert (a + b)[1..] == a[1..] + b;
      RunConcat(a[1..], b, RunOp(a[0], m, base, given), base, given);
    }
  }

  lemma WriteConcat(m: seq<byte>, a: nat, x: seq<byte>, y: seq<byte>)
    requires a + |x| + |y| <= |m|
    ensures Write(Write(m, a, x), a + |x|, y) == Write(m, a, x + y)
  {
  }

  /** The value with padding zeroed at every depth. */
  function ZeroPads(v: Val, t: CgType): Val
    requires Plain(t)
    decreases t, 1, 0
  {
    if Aggregate(t) && v.Agg? && |v.elems| == Count(t) then Agg(ZeroParts(v, t, |v.elems|)) else v
  }

  function ZeroParts(v: Val, t: CgType, n: nat): (r: seq<Val>)
    requires Plain(t) && Aggregate(t) && v.Agg? && |v.elems| == Count(t) && n <= |v.elems|
    ensures |r| == n
    ensures forall i | 0 <= i < n ::
      r[i] == if t.kind == TUPLE && ElementType(t, i).kind == PADDING then Leaf(Zeros(ElementType(t, i).size))
              else ZeroPads(v.elems[i], ElementType(t, i))
    decreases t, 0, n
  {
    if n == 0 then []
    else
      var e := ElementType(t, n - 1);
      ZeroParts(v, t, n - 1)
      + [if t.kind == TUPLE && e.kind == PADDING then Leaf(Zeros(e.size)) else ZeroPads(v.elems[n - 1], e)]
  }
}
