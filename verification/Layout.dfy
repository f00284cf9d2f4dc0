// Layout of tuples, arrays, unions and padding, in 64-bit mask arithmetic.
module Layout {

  import opened Wrappers
  import opened Outcomes
  import opened Bits
  import opened Types
  import opened Growth

  datatype TupleInfo = TupleInfo(types: seq<CgType>, fields: Option<seq<Field>>, named: Option<string>)
  {
    predicate Valid() { fields.Some? ==> |fields.value| == |types| }
  }

  const Blank: Field := Field(None)

  function ArrayType(base: CgType, extent: nat, named: Option<string>): CgType {
    CgType(ARRAY, (base.size * extent) % W, base.align, extent, Types([base]), None, named)
  }

  /** The name of a padding array leaves out the digits of its size. */
  function PaddingType(n: nat): CgType {
    CgType(PADDING, n, 1, 0, Types([ArrayType(Uint8, n, Some(".Pad"))]), None, None)
  }

  /** `(offset + mask) & ~mask` for the mask `align - 1`, in 64 bits. */
  function AlignUp(offset: nat, align: nat): nat {
    var mask := (align + W - 1) % W;
    And((offset + mask) % W, Complement(mask, 64))
  }

  // Making a tuple, as the source does

  datatype Partial = Partial(padded: seq<CgType>, fields: seq<Field>, offset: nat, alignment: nat)

  /** What comes of asking the cache for padding of `n` bytes: room for `n + 1` slots is reserved, in
    * 64 bits, and slot `n` is written. */
  function Fate(n: nat, host: Host): Outcome<CgType> {
    if n + 1 >= W then Stuck
    else
      var r := Room(host, n + 1);
      if !r.Done? then r.Propagate() else Done(PaddingType(n))
  }

  /** Pads up to `aligned`. */
  function PadTo(p: Partial, aligned: nat, named: bool, host: Host): Outcome<Partial> {
    var padding := (aligned - p.offset) % W;
    if padding == 0 then Done(p)
    else
      var pad := Fate(padding, host);
      if !pad.Done? then pad.Propagate()
      else Done(p.(padded := p.padded + [pad.value],
                   fields := if named then p.fields + [Blank] else p.fields))
  }

  function Put(p: Partial, t: CgType, field: Option<Field>, host: Host): Outcome<Partial> {
    var fields := if field.Some? then [field.value] else [];
    if t.kind == VA then
      Done(p.(padded := p.padded + [t], fields := p.fields + fields))
    else
      var aligned := AlignUp(p.offset, t.align);
      var q := PadTo(p, aligned, field.Some?, host);
      if !q.Done? then q
      else Done(Partial(q.value.padded + [t], q.value.fields + fields, (aligned + t.size) % W,
                        if p.alignment > t.align then p.alignment else t.align))
  }

  function FieldAt(info: TupleInfo, i: nat): Option<Field>
    requires info.Valid() && i < |info.types|
  {
    if info.fields.Some? then Some(info.fields.value[i]) else None
  }

  /** The first `n` elements laid out. */
  function Lay(info: TupleInfo, n: nat, host: Host): Outcome<Partial>
    requires info.Valid() && n <= |info.types|
  {
    if n == 0 then Done(Partial([], [], 0, 0))
    else
      var p := Lay(info, n - 1, host);
      if !p.Done? then p else Put(p.value, info.types[n - 1], FieldAt(info, n - 1), host)
  }

  /** A field is pushed for the tail padding whether or not there are fields. */
  function Finish(p: Partial, named: Option<string>, host: Host): Outcome<CgType> {
    var aligned := AlignUp(p.offset, p.alignment);
    var q := PadTo(p, aligned, true, host);
    if !q.Done? then q.Propagate()
    else
      Done(CgType(TUPLE, if (aligned - p.offset) % W == 0 then p.offset else aligned, p.alignment, 0,
                  Types(q.value.padded), Some(q.value.fields), named))
  }

  function TupleType(info: TupleInfo, host: Host): Outcome<CgType>
    requires info.Valid()
  {
    var p := Lay(info, |info.types|, host);
    if !p.Done? then p.Propagate() else Finish(p.value, info.named, host)
  }

  /** The type cache: slot `i` of `padding` holds the padding type of size `i`, or nothing. */
  class TypeCache {
    const host: Host
    var padding: seq<Option<CgType>>
    var capacity: nat

    ghost predicate Valid()
      reads this
    {
      && |padding| <= capacity
      && (capacity > 0 ==> Room(host, capacity).Done?)
      && forall i | 0 <= i < |padding| :: padding[i].Some? ==> padding[i].value == PaddingType(i)
    }

    constructor (host: Host)
      ensures Valid() && this.host == host && padding == []
    {
      this.host := host;
      padding := [];
      capacity := 0;
    }

    /** The cache is resized, possibly to fewer slots, before a new padding is kept. The number of slots
      * may wrap to zero; then writing the slot violates an assertion. */
    method EnsurePadding(n: nat) returns (r: Outcome<CgType>)
      requires Valid() && n < W
      modifies this
      ensures Valid()
      ensures r == Fate(n, host)
      ensures r.Done? ==> n < |padding| && padding[n] == Some(r.value)
    {
      hide Pow2, Grow, PaddingType;
      if n < |padding| && padding[n].Some? {
        RoomLess(host, n + 1, capacity);
        RoomBelow(host, capacity);
        return Done(padding[n].value);
      }
      var slots := if n + 1 == W then 0 else n + 1;
      if slots <= |padding| {
        padding := padding[..slots];
        if slots > 0 {
          RoomLess(host, slots, capacity);
        }
      } else {
        var reserved := Reserve(slots);
        if !reserved.Done? {
          return reserved.Propagate();
        }
        padding := padding + seq(slots - |padding|, _ => None);
      }
      if n >= |padding| {
        return Stuck;
      }
      padding := padding[n := Some(PaddingType(n))];
      return Done(PaddingType(n));
    }

    /** Room for so many slots, as arrays reserve it. */
    method Reserve(slots: nat) returns (r: Outcome<nat>)
      requires Valid()
      modifies this`capacity
      ensures Valid() && r == (if slots < old(capacity) then Done(capacity) else Room(host, slots))
      ensures r.Done? ==> slots <= capacity
      ensures (r.Done? <==> Room(host, slots).Done?) && (!r.Done? ==> r == Room(host, slots))
    {
      hide Grow;
      if slots < capacity {
        RoomLess(host, slots, capacity);
        return Done(capacity);
      }
      r := FindCapacity(slots, host.turns);
      if r.Stuck? {
        return;
      }
      if r.value > host.limit {
        return Failed;
      }
      RoomAgain(host, slots);
      capacity := r.value;
    }

    method MakeTuple(info: TupleInfo) returns (r: Outcome<CgType>)
      requires Valid() && info.Valid()
      modifies this
      ensures Valid()
      ensures r == TupleType(info, host)
    {
      hide AlignUp, PaddingType, Pow2, Fate;
      var p := Partial([], [], 0, 0);
      for index := 0 to |info.types|
        invariant Valid()
        invariant Lay(info, index, host) == Done(p)
      {
        ghost var before := p;
        var t := info.types[index];
        if t.kind != VA {
          var aligned := AlignUp(p.offset, t.align);
          var padding := (aligned - p.offset) % W;
          if padding != 0 {
            var pad := EnsurePadding(padding);
            if !pad.Done? {
              LayFails(info, index + 1, |info.types|, host);
              return pad;
            }
            p := p.(padded := p.padded + [pad.value]);
            if info.fields.Some? {
              p := p.(fields := p.fields + [Blank]);
            }
          }
          p := p.(offset := (aligned + t.size) % W,
                  alignment := if p.alignment > t.align then p.alignment else t.align);
        }
        p := p.(padded := p.padded + [t]);
        if info.fields.Some? {
          p := p.(fields := p.fields + [info.fields.value[index]]);
        }
        assert before.fields + [] == before.fields;
        assert before.fields + [Blank] + [] == before.fields + [Blank];
        assert Done(p) == Put(before, t, FieldAt(info, index), host);
      }
      var aligned := AlignUp(p.offset, p.alignment);
      var padding := (aligned - p.offset) % W;
      if padding != 0 {
        var pad := EnsurePadding(padding);
        if !pad.Done? {
          return pad;
        }
        p := p.(padded := p.padded + [pad.value], fields := p.fields + [Blank], offset := aligned);
      }
      return Done(CgType(TUPLE, p.offset, p.alignment, 0, Types(p.padded), Some(p.fields), info.named));
    }
  }

  lemma {:induction false} LayFails(info: TupleInfo, n: nat, m: nat, host: Host)
    requires info.Valid() && n <= m <= |info.types|
    requires !Lay(info, n, host).Done?
    ensures Lay(info, m, host) == Lay(info, n, host)
  {
    hide Put;
    if n < m {
      LayFails(info, n, m - 1, host);
    }
  }

  // The layout it should be

  /** The least multiple of `a` that is at least `x`; an alignment of zero only fits at zero. */
  function Ceil(x: nat, a: nat): (r: nat)
    ensures a > 0 ==> r % a == 0 && x <= r < x + a
    ensures a == 0 ==> r == 0
  {
    if a == 0 then 0
    else
      assert (x + a - 1) / a * a == x + a - 1 - (x + a - 1) % a;
      Multiple(a, (x + a - 1) / a);
      (x + a - 1) / a * a
  }

  lemma Multiple(a: nat, q: nat)
    requires a > 0
    ensures (q * a) % a == 0
  {
    Remainder(q * a, a, q, 0);
  }

  ghost predicate IsPow2(a: nat) {
    exists k: nat :: k < 64 && a == Pow2(k)
  }

  /** Where element `n` starts. */
  function Start(ts: seq<CgType>, n: nat): nat
    requires n < |ts|
    decreases n, 1
  {
    if ts[n].kind == VA then End(ts, n) else Ceil(End(ts, n), ts[n].align)
  }

  /** Where the first `n` elements end. */
  function End(ts: seq<CgType>, n: nat): nat
    requires n <= |ts|
    decreases n, 0
  {
    if n == 0 then 0
    else Start(ts, n - 1) + if ts[n - 1].kind == VA then 0 else ts[n - 1].size
  }

  function MaxAlign(ts: seq<CgType>, n: nat): nat
    requires n <= |ts|
  {
    if n == 0 then 0
    else
      var a := MaxAlign(ts, n - 1);
      if ts[n - 1].kind != VA && ts[n - 1].align >= a then ts[n - 1].align else a
  }

  function Total(ts: seq<CgType>): nat {
    Ceil(End(ts, |ts|), MaxAlign(ts, |ts|))
  }

  /** Element `n` has a place: a power-of-two alignment, or nothing before a unit. */
  ghost predicate Places(ts: seq<CgType>, n: nat)
    requires n < |ts|
  {
    ts[n].kind == VA || IsPow2(ts[n].align) || (ts[n].align == 0 && End(ts, n) == 0)
  }

  /** Element types as they are written: aligned to powers of two, or unit, and never padding. */
  ghost predicate Element(t: CgType) {
    && t.kind != PADDING
    && (t.kind == VA ==> t.size == 0)
    && (t.kind != VA ==> IsPow2(t.align) || (t.align == 0 && t.size == 0))
  }

  // The masks compute the ideal layout

  /** Rounding up stays below a bound that is itself a multiple of the alignment. */
  lemma CeilBelow(x: nat, a: nat, q: nat)
    requires a > 0 && Ceil(x, a) < q * a
    ensures x + a - 1 < q * a
  {
    var r := (x + a - 1) / a;
    assert x + a - 1 == r * a + (x + a - 1) % a;
    if x + a - 1 >= q * a {
      if r < q {
        Scaled(a, r, q);
      } else {
        Ordered(a, q, r);
      }
      assert false;
    }
  }

  /** Masking finds the least aligned offset. */
  lemma AlignUpIsCeil(x: nat, align: nat)
    requires IsPow2(align) && Ceil(x, align) < W
    ensures AlignUp(x, align) == Ceil(x, align)
  {
    hide Pow2, AlignUp, And, Complement;
    var k: nat :| k < 64 && align == Pow2(k);
    Pow2Add(64 - k, k);
    Pow2Monotone(k, 64);
    CeilBelow(x, align, Pow2(64 - k));
    AlignUpInRange(x, align);
    hide Ceil;
    ClearLow(x + align - 1, k, 64);
    CeilByRemainder(x, align);
  }

  lemma AlignUpInRange(x: nat, align: nat)
    requires 0 < align <= W && x + align - 1 < W
    ensures AlignUp(x, align) == And(x + align - 1, Complement(align - 1, 64))
  {
    hide Pow2, And, Complement;
    MaskOf(align);
    Small(x + align - 1);
  }

  lemma CeilByRemainder(x: nat, a: nat)
    requires a > 0
    ensures Ceil(x, a) == x + a - 1 - (x + a - 1) % a
  {
  }

  lemma Small(s: nat)
    requires s < W
    ensures s % W == s
  {
    hide Pow2;
    Remainder(s, W, 0, s);
  }

  lemma MaskOf(align: nat)
    requires 0 < align <= W
    ensures (align + W - 1) % W == align - 1
  {
    assert align + W - 1 == 1 * W + (align - 1);
    Remainder(align + W - 1, W, 1, align - 1);
  }

  /** The mask of a zero alignment clears every bit. */
  lemma AlignUpZero(x: nat)
    ensures AlignUp(x, 0) == 0
  {
    hide Pow2;
    Remainder(W - 1, W, 0, W - 1);
    assert Complement(W - 1, 64) == 0;
  }

  lemma {:induction false} EndMonotone(ts: seq<CgType>, i: nat, j: nat)
    requires i <= j <= |ts|
    requires forall k | 0 <= k < j :: Places(ts, k)
    ensures End(ts, i) <= End(ts, j)
    ensures MaxAlign(ts, i) <= MaxAlign(ts, j)
  {
    if i < j {
      assert Places(ts, j - 1);
      EndMonotone(ts, i, j - 1);
    }
  }

  /** Appending an element moves no earlier one. */
  lemma Append(ts: seq<CgType>, t: CgType)
    ensures SizeOf(ts + [t]) == SizeOf(ts) + t.size
    ensures forall i | 0 <= i <= |ts| :: OffsetOf(ts + [t], i) == OffsetOf(ts, i)
    ensures OffsetOf(ts, |ts|) == SizeOf(ts)
    ensures Virtuals(ts + [t]) == Virtuals(ts) + if t.kind == PADDING then 0 else 1
    ensures forall v: nat | v < Virtuals(ts) :: Virt(ts + [t], v) == Virt(ts, v)
    ensures t.kind != PADDING ==> Virt(ts + [t], Virtuals(ts)) == |ts|
  {
    hide *;
    AppendSizes(ts, t);
    AppendVirtuals(ts, t);
    forall v: nat | v < Virtuals(ts) ensures Virt(ts + [t], v) == Virt(ts, v) {
      AppendVirt(ts, t, v);
    }
  }

  lemma AppendSizes(ts: seq<CgType>, t: CgType)
    ensures SizeOf(ts + [t]) == SizeOf(ts) + t.size
    ensures forall i | 0 <= i <= |ts| :: OffsetOf(ts + [t], i) == OffsetOf(ts, i)
    ensures OffsetOf(ts, |ts|) == SizeOf(ts)
  {
    assert (ts + [t])[..|ts|] == ts;
    forall i | 0 <= i <= |ts| ensures OffsetOf(ts + [t], i) == OffsetOf(ts, i) {
      assert (ts + [t])[..i] == ts[..i];
    }
    assert ts[..|ts|] == ts;
  }

  lemma AppendVirtuals(ts: seq<CgType>, t: CgType)
    ensures Virtuals(ts + [t]) == Virtuals(ts) + if t.kind == PADDING then 0 else 1
    ensures t.kind != PADDING ==> Virt(ts + [t], Virtuals(ts)) == |ts|
  {
    assert (ts + [t])[..|ts|] == ts;
  }

  lemma AppendVirt(ts: seq<CgType>, t: CgType, v: nat)
    requires v < Virtuals(ts) <= Virtuals(ts + [t])
    ensures Virt(ts + [t], v) == Virt(ts, v)
  {
    assert (ts + [t])[..|ts|] == ts;
  }

  /** Every element sits where it should, every gap is padding, and names stay with their slots. */
  ghost predicate Laid(info: TupleInfo, n: nat, ts: seq<CgType>, fields: seq<Field>)
    requires info.Valid() && n <= |info.types|
  {
    && Virtuals(ts) == n
    && (forall v | 0 <= v < n ::
          && ts[Virt(ts, v)] == info.types[v]
          && OffsetOf(ts, Virt(ts, v)) == Start(info.types, v))
    && (forall i | 0 <= i < |ts| :: ts[i].kind != VA && ts[i].align > 0 ==> OffsetOf(ts, i) % ts[i].align == 0)
    && (info.fields.Some? ==>
          && |fields| == |ts|
          && (forall i | 0 <= i < |ts| :: ts[i].kind == PADDING ==> fields[i] == Blank)
          && (forall v | 0 <= v < n :: fields[Virt(ts, v)] == info.fields.value[v]))
  }

  ghost predicate Laying(info: TupleInfo, n: nat, p: Partial)
    requires info.Valid() && n <= |info.types|
  {
    && p.offset == End(info.types, n) == SizeOf(p.padded)
    && p.alignment == MaxAlign(info.types, n)
    && Laid(info, n, p.padded, p.fields)
    && (info.fields.None? ==> p.fields == [])
  }

  ghost predicate PlacesAll(ts: seq<CgType>, n: nat)
    requires n <= |ts|
  {
    forall k | 0 <= k < n :: Element(ts[k]) && Places(ts, k)
  }

  lemma LaidPadding(info: TupleInfo, n: nat, ts: seq<CgType>, fields: seq<Field>, fields': seq<Field>, t: CgType)
    requires info.Valid() && n <= |info.types|
    requires Laid(info, n, ts, fields)
    requires t.kind == PADDING && t.align == 1
    requires info.fields.Some? ==> fields' == fields + [Blank]
    ensures Laid(info, n, ts + [t], fields')
  {
    Append(ts, t);
    hide SizeOf, Virtuals, Start, Virt;
  }

  lemma LaidElement(info: TupleInfo, n: nat, ts: seq<CgType>, fields: seq<Field>, fields': seq<Field>)
    requires info.Valid() && n < |info.types|
    requires Laid(info, n, ts, fields)
    requires info.types[n].kind != PADDING
    requires SizeOf(ts) == Start(info.types, n)
    requires info.fields.Some? ==> fields' == fields + [info.fields.value[n]]
    ensures Laid(info, n + 1, ts + [info.types[n]], fields')
  {
    var t := info.types[n];
    Append(ts, t);
    StartAligned(info.types, n);
    hide SizeOf, Virtuals, Start, Virt;
  }

  lemma StartAligned(ts: seq<CgType>, n: nat)
    requires n < |ts|
    ensures ts[n].kind != VA && ts[n].align > 0 ==>
              && Start(ts, n) % ts[n].align == 0
              && End(ts, n) <= Start(ts, n) < End(ts, n) + ts[n].align
  {
  }

  lemma PaddingKept(info: TupleInfo, n: nat, p: Partial, aligned: nat, named: bool, host: Host)
    requires info.Valid() && n <= |info.types|
    requires Laying(info, n, p)
    requires p.offset <= aligned < W && PadTo(p, aligned, named, host).Done?
    requires info.fields.Some? ==> named
    ensures var q := PadTo(p, aligned, named, host).value;
            && Laid(info, n, q.padded, q.fields)
            && SizeOf(q.padded) == aligned && q.alignment == p.alignment
            && (q.offset == p.offset)
            && (info.fields.None? ==> q.fields == if named && aligned > p.offset then [Blank] else [])
  {
    hide Pow2, Laid;
    Small(aligned - p.offset);
    var padding := aligned - p.offset;
    if padding > 0 {
      hide End, MaxAlign;
      var q := PadTo(p, aligned, named, host).value;
      LaidPadding(info, n, p.padded, p.fields, q.fields, PaddingType(padding));
      Append(p.padded, PaddingType(padding));
    }
  }

  /** There is room for padding of fewer than `a` bytes. */
  predicate Provides(host: Host, a: nat) {
    a > 1 ==> Room(host, a).Done?
  }

  lemma PaddingProvided(p: Partial, aligned: nat, named: bool, host: Host, a: nat)
    requires Provides(host, a) && p.offset <= aligned < W && aligned - p.offset < a
    ensures PadTo(p, aligned, named, host).Done?
  {
    hide Pow2, Room;
    var n := aligned - p.offset;
    Small(n);
    if n > 0 {
      RoomLess(host, n + 1, a);
      RoomBelow(host, n + 1);
    }
  }

  lemma PutLays(info: TupleInfo, n: nat, p: Partial, host: Host)
    requires info.Valid() && n < |info.types|
    requires Laying(info, n, p)
    requires Element(info.types[n]) && Places(info.types, n)
    requires End(info.types, n + 1) < W
    requires Put(p, info.types[n], FieldAt(info, n), host).Done?
    ensures Laying(info, n + 1, Put(p, info.types[n], FieldAt(info, n), host).value)
  {
    hide *;
    var t := info.types[n];
    LayingMeans(info, n, p);
    ElementMeans(t);
    if t.kind == VA {
      PutVa(info, n, p, host);
    } else {
      var aligned, named := Start(info.types, n), info.fields.Some?;
      AlignedOk(info.types, n);
      PutPads(info, n, p, host);
      EndNext(info.types, n);
      Small(aligned + t.size);
      if t.align == 0 {
        PadNothing(p, aligned, named, host);
        PutAfter(info, n, p, p, host);
      } else {
        StartAligned(info.types, n);
        PaddingKept(info, n, p, aligned, named, host);
        PutAfter(info, n, p, PadTo(p, aligned, named, host).value, host);
      }
    }
  }

  /** An element is put when there is room for padding up to its alignment. */
  lemma PutDone(info: TupleInfo, n: nat, p: Partial, host: Host)
    requires info.Valid() && n < |info.types|
    requires Laying(info, n, p)
    requires Element(info.types[n]) && Places(info.types, n)
    requires End(info.types, n + 1) < W
    requires info.types[n].kind != VA ==> Provides(host, info.types[n].align)
    ensures Put(p, info.types[n], FieldAt(info, n), host).Done?
  {
    hide *;
    var t := info.types[n];
    LayingMeans(info, n, p);
    PutPads(info, n, p, host);
    if t.kind != VA {
      var aligned, named := Start(info.types, n), info.fields.Some?;
      AlignedOk(info.types, n);
      EndNext(info.types, n);
      if t.align == 0 {
        PadNothing(p, aligned, named, host);
      } else {
        StartAligned(info.types, n);
        PaddingProvided(p, aligned, named, host, t.align);
      }
    }
  }

  lemma PutPads(info: TupleInfo, n: nat, p: Partial, host: Host)
    requires info.Valid() && n < |info.types|
    ensures var t, r := info.types[n], Put(p, info.types[n], FieldAt(info, n), host);
            if t.kind == VA then r.Done?
            else
              var q := PadTo(p, AlignUp(p.offset, t.align), info.fields.Some?, host);
              (r.Done? <==> q.Done?) && (!q.Done? ==> r == q)
  {
    hide PadTo, AlignUp, Pow2;
  }

  lemma LayingMeans(info: TupleInfo, n: nat, p: Partial)
    requires info.Valid() && n <= |info.types| && Laying(info, n, p)
    ensures p.offset == End(info.types, n) == SizeOf(p.padded) && Laid(info, n, p.padded, p.fields)
    ensures p.alignment == MaxAlign(info.types, n)
    ensures info.fields.None? ==> p.fields == []
  {
  }

  lemma ElementMeans(t: CgType)
    requires Element(t)
    ensures t.kind != PADDING && (t.kind == VA ==> t.size == 0)
  {
  }

  lemma PadNothing(p: Partial, aligned: nat, named: bool, host: Host)
    requires aligned == p.offset
    ensures PadTo(p, aligned, named, host) == Done(p)
  {
    hide Pow2;
    Small(0);
  }

  lemma AlignedOk(ts: seq<CgType>, n: nat)
    requires n < |ts| && ts[n].kind != VA && Places(ts, n) && End(ts, n + 1) < W
    ensures AlignUp(End(ts, n), ts[n].align) == Start(ts, n)
    ensures IsPow2(ts[n].align) ==> ts[n].align > 0
    ensures ts[n].align == 0 ==> Start(ts, n) == End(ts, n)
  {
    hide Pow2, AlignUp;
    if IsPow2(ts[n].align) {
      AlignUpIsCeil(End(ts, n), ts[n].align);
    } else {
      AlignUpZero(End(ts, n));
    }
  }

  lemma PutVa(info: TupleInfo, n: nat, p: Partial, host: Host)
    requires info.Valid() && n < |info.types|
    requires Laying(info, n, p)
    requires info.types[n].kind == VA && info.types[n].size == 0
    ensures var q := Put(p, info.types[n], FieldAt(info, n), host);
            q.Done? && Laying(info, n + 1, q.value)
  {
    hide Laid;
    var t := info.types[n];
    EndNext(info.types, n);
    var q := Put(p, t, FieldAt(info, n), host).value;
    LaidElement(info, n, p.padded, p.fields, q.fields);
    Append(p.padded, t);
  }

  lemma EndNext(ts: seq<CgType>, n: nat)
    requires n < |ts|
    ensures ts[n].kind == VA ==> Start(ts, n) == End(ts, n)
    ensures End(ts, n + 1) == Start(ts, n) + if ts[n].kind == VA then 0 else ts[n].size
    ensures ts[n].kind != VA ==>
              MaxAlign(ts, n + 1) == if MaxAlign(ts, n) > ts[n].align then MaxAlign(ts, n) else ts[n].align
    ensures ts[n].kind == VA ==> MaxAlign(ts, n + 1) == MaxAlign(ts, n)
  {
  }

  lemma PutAfter(info: TupleInfo, n: nat, p: Partial, q: Partial, host: Host)
    requires info.Valid() && n < |info.types|
    requires Laying(info, n, p)
    requires info.types[n].kind != VA && info.types[n].kind != PADDING
    requires AlignUp(p.offset, info.types[n].align) == Start(info.types, n) == SizeOf(q.padded)
    requires (Start(info.types, n) + info.types[n].size) % W == Start(info.types, n) + info.types[n].size
    requires PadTo(p, Start(info.types, n), info.fields.Some?, host) == Done(q)
    requires Laid(info, n, q.padded, q.fields)
    requires info.fields.None? ==> q.fields == []
    ensures var r := Put(p, info.types[n], FieldAt(info, n), host);
            r.Done? && Laying(info, n + 1, r.value)
  {
    hide Pow2, AlignUp, PadTo, Laid, Start, End, MaxAlign, SizeOf, Virtuals, Virt, W;
    var t := info.types[n];
    EndNext(info.types, n);
    assert q.fields + [] == q.fields;
    var r := Put(p, t, FieldAt(info, n), host).value;
    LaidElement(info, n, q.padded, q.fields, r.fields);
    Append(q.padded, t);
  }

  lemma {:induction false} LayLays(info: TupleInfo, n: nat, host: Host)
    requires info.Valid() && n <= |info.types|
    requires PlacesAll(info.types, n)
    requires End(info.types, n) < W
    requires Lay(info, n, host).Done?
    ensures Laying(info, n, Lay(info, n, host).value)
  {
    hide *;
    if n == 0 {
      NothingLaid(info, host);
    } else {
      PlacesFewer(info.types, n);
      EndMonotone(info.types, n - 1, n);
      LayNext(info, n, host);
      LayLays(info, n - 1, host);
      PutLays(info, n - 1, Lay(info, n - 1, host).value, host);
    }
  }

  lemma {:induction false} LayDone(info: TupleInfo, n: nat, host: Host)
    requires info.Valid() && n <= |info.types|
    requires PlacesAll(info.types, n)
    requires End(info.types, n) < W
    requires Provides(host, MaxAlign(info.types, n))
    ensures Lay(info, n, host).Done?
  {
    hide *;
    if n == 0 {
      NothingLaid(info, host);
    } else {
      PlacesFewer(info.types, n);
      EndMonotone(info.types, n - 1, n);
      LayNext(info, n, host);
      ProvidesLess(host, MaxAlign(info.types, n - 1), MaxAlign(info.types, n));
      LayDone(info, n - 1, host);
      LayLays(info, n - 1, host);
      MaxAlignAbove(info.types, n - 1, n);
      if info.types[n - 1].kind != VA {
        ProvidesLess(host, info.types[n - 1].align, MaxAlign(info.types, n));
      }
      PutDone(info, n - 1, Lay(info, n - 1, host).value, host);
    }
  }

  lemma ProvidesLess(host: Host, a: nat, b: nat)
    requires a <= b && Provides(host, b)
    ensures Provides(host, a)
  {
    hide Room;
    if a > 1 {
      RoomLess(host, a, b);
    }
  }

  lemma NothingLaid(info: TupleInfo, host: Host)
    requires info.Valid()
    ensures Lay(info, 0, host).Done? && Laying(info, 0, Lay(info, 0, host).value)
  {
  }

  lemma PlacesFewer(ts: seq<CgType>, n: nat)
    requires 0 < n <= |ts| && PlacesAll(ts, n)
    ensures PlacesAll(ts, n - 1) && Element(ts[n - 1]) && Places(ts, n - 1)
    ensures forall k | 0 <= k < n :: Places(ts, k)
  {
    hide Places, Element;
  }

  lemma LayNext(info: TupleInfo, n: nat, host: Host)
    requires info.Valid() && 0 < n <= |info.types|
    ensures var p := Lay(info, n - 1, host);
            Lay(info, n, host)
            == if !p.Done? then p else Put(p.value, info.types[n - 1], FieldAt(info, n - 1), host)
  {
    hide Put;
  }

  // The theorems of tuple layout

  lemma {:induction false} MaxAlignKind(ts: seq<CgType>, n: nat)
    requires n <= |ts| && PlacesAll(ts, n)
    ensures MaxAlign(ts, n) == 0 ==> End(ts, n) == 0
    ensures MaxAlign(ts, n) != 0 ==> IsPow2(MaxAlign(ts, n))
  {
    if n > 0 {
      MaxAlignKind(ts, n - 1);
      assert Element(ts[n - 1]) && Places(ts, n - 1);
      EndNext(ts, n - 1);
      hide IsPow2;
    }
  }

  lemma FinishLays(info: TupleInfo, p: Partial, host: Host)
    requires info.Valid() && PlacesAll(info.types, |info.types|)
    requires Laying(info, |info.types|, p)
    requires Total(info.types) < W
    requires Finish(p, info.named, host).Done?
    ensures LaidOut(info, Finish(p, info.named, host).value)
  {
    hide *;
    var n := |info.types|;
    MaxAlignKind(info.types, n);
    LayingMeans(info, n, p);
    TotalMeans(info.types);
    var aligned := Total(info.types);
    if p.alignment == 0 {
      AlignUpZero(p.offset);
      PadNothing(p, aligned, true, host);
      FinishMeans(p, info.named, host);
    } else {
      AlignUpIsCeil(p.offset, p.alignment);
      FinishMeans(p, info.named, host);
      PaddingKept(info, n, p, aligned, true, host);
    }
    Small(aligned - p.offset);
    LaidOutWhen(info, Finish(p, info.named, host).value);
  }

  lemma FinishMeans(p: Partial, named: Option<string>, host: Host)
    ensures var aligned := AlignUp(p.offset, p.alignment);
            var q, r := PadTo(p, aligned, true, host), Finish(p, named, host);
            && (r.Done? <==> q.Done?) && (r.Stuck? <==> q.Stuck?)
            && (r.Done? ==>
                  r.value == CgType(TUPLE, if (aligned - p.offset) % W == 0 then p.offset else aligned, p.alignment, 0,
                                    Types(q.value.padded), Some(q.value.fields), named))
  {
    hide PadTo, AlignUp, Pow2;
  }

  lemma TotalMeans(ts: seq<CgType>)
    ensures Total(ts) == Ceil(End(ts, |ts|), MaxAlign(ts, |ts|))
  {
  }

  /** A tuple type laid out as it should be. */
  ghost predicate LaidOut(info: TupleInfo, t: CgType)
    requires info.Valid()
  {
    && t.kind == TUPLE && t.extent == 0 && t.name == info.named
    && t.types.Types? && t.fields.Some?
    && t.size == Total(info.types) == SizeOf(t.types.list)
    && t.align == MaxAlign(info.types, |info.types|)
    && (t.align > 0 ==> t.size % t.align == 0)
    && Laid(info, |info.types|, t.types.list, t.fields.value)
    && (info.fields.None? ==>
          t.fields.value == if End(info.types, |info.types|) < t.size then [Blank] else [])
  }

  lemma LaidOutMeans(info: TupleInfo, t: CgType)
    requires info.Valid() && LaidOut(info, t)
    ensures t.kind == TUPLE && t.types.Types? && t.fields.Some? && t.size == SizeOf(t.types.list)
    ensures t.align == MaxAlign(info.types, |info.types|) && (t.align > 0 ==> t.size % t.align == 0)
    ensures t.size == Total(info.types)
    ensures Laid(info, |info.types|, t.types.list, t.fields.value)
  {
    hide Laid;
  }

  lemma LaidOutWhen(info: TupleInfo, t: CgType)
    requires info.Valid()
    requires t.kind == TUPLE && t.extent == 0 && t.name == info.named && t.types.Types? && t.fields.Some?
    requires t.size == Total(info.types) == SizeOf(t.types.list) && t.align == MaxAlign(info.types, |info.types|)
    requires Laid(info, |info.types|, t.types.list, t.fields.value)
    requires info.fields.None? ==> t.fields.value == if End(info.types, |info.types|) < t.size then [Blank] else []
    ensures LaidOut(info, t)
  {
    hide End, MaxAlign, SizeOf, Laid;
  }

  /** Every element is placed at the least aligned offset after its predecessor. */
  lemma TupleLayout(info: TupleInfo, host: Host)
    requires info.Valid() && PlacesAll(info.types, |info.types|)
    requires Total(info.types) < W
    requires TupleType(info, host).Done?
    ensures LaidOut(info, TupleType(info, host).value)
  {
    hide *;
    MaxAlignKind(info.types, |info.types|);
    TotalMeans(info.types);
    TupleTypeMeans(info, host);
    LayLays(info, |info.types|, host);
    FinishLays(info, Lay(info, |info.types|, host).value, host);
  }

  lemma TupleTypeMeans(info: TupleInfo, host: Host)
    requires info.Valid()
    ensures var p, r := Lay(info, |info.types|, host), TupleType(info, host);
            && (p.Done? ==> r == Finish(p.value, info.named, host))
            && (!p.Done? ==> !r.Done? && (r.Stuck? <==> p.Stuck?))
  {
    hide Lay, Finish;
  }

  /** A unit after anything else asks for nearly 2^64 bytes of padding. No tuple is made: reserving
    * slots for it never ends, or their number wraps to zero and writing one violates an assertion. */
  lemma UnitStuck(info: TupleInfo, n: nat, host: Host)
    requires info.Valid() && n < |info.types|
    requires PlacesAll(info.types, n)
    requires 2 * End(info.types, n) <= W
    requires Element(info.types[n]) && !Places(info.types, n)
    ensures !TupleType(info, host).Done?
    ensures Lay(info, n, host).Done? ==> TupleType(info, host).Stuck?
  {
    hide *;
    TupleTypeMeans(info, host);
    if Lay(info, n, host).Done? {
      Unplaced(info.types, n);
      LayLays(info, n, host);
      var p := Lay(info, n, host).value;
      LayingMeans(info, n, p);
      AlignUpZero(p.offset);
      PutPads(info, n, p, host);
      PadStuck(p, info.fields.Some?, host);
      LayNext(info, n + 1, host);
      LayFails(info, n + 1, |info.types|, host);
    } else {
      LayFails(info, n, |info.types|, host);
    }
  }

  lemma Unplaced(ts: seq<CgType>, n: nat)
    requires n < |ts| && Element(ts[n]) && !Places(ts, n) && 2 * End(ts, n) <= W
    ensures ts[n].kind != VA && ts[n].align == 0 && 0 < End(ts, n) < W
  {
    hide Pow2;
  }

  lemma PadStuck(p: Partial, named: bool, host: Host)
    requires 0 < p.offset && 2 * p.offset <= W
    ensures PadTo(p, 0, named, host).Stuck?
  {
    hide Pow2, Grow;
    Wrapped(p.offset);
    if p.offset > 1 {
      NeverEnds(W - p.offset + 1, host.turns);
    }
  }

  lemma Wrapped(x: nat)
    requires 0 < x < W
    ensures (0 - x) % W == W - x
  {
    hide Pow2;
    var r := (0 - x) % W;
    var q := (0 - x) / W;
    assert 0 - x == q * W + r;
    if q >= 0 {
      assert false;
    } else if q < -1 {
      assert false;
    }
  }

  lemma {:induction false} FirstUnplaced(ts: seq<CgType>, m: nat) returns (n: nat)
    requires m <= |ts| && (forall k | 0 <= k < |ts| :: Element(ts[k]))
    requires !PlacesAll(ts, m)
    ensures n < m && PlacesAll(ts, n) && !Places(ts, n)
  {
    if PlacesAll(ts, m - 1) {
      n := m - 1;
    } else {
      n := FirstUnplaced(ts, m - 1);
    }
  }

  lemma {:induction false} MaxAlignGrows(ts: seq<CgType>, n: nat, m: nat)
    requires n <= m <= |ts|
    ensures MaxAlign(ts, n) <= MaxAlign(ts, m)
  {
    if n < m {
      MaxAlignGrows(ts, n, m - 1);
    }
  }

  /** Where there is room for padding, making a tuple ends with a type exactly when every unit in it
    * comes before anything of size; otherwise it gets stuck. */
  lemma TupleMade(info: TupleInfo, host: Host)
    requires info.Valid() && forall k | 0 <= k < |info.types| :: Element(info.types[k])
    requires Total(info.types) < W
    requires forall n | 0 <= n <= |info.types| :: 2 * End(info.types, n) <= W && End(info.types, n) < W
    requires Provides(host, MaxAlign(info.types, |info.types|))
    ensures TupleType(info, host).Done? <==> PlacesAll(info.types, |info.types|)
    ensures TupleType(info, host).Stuck? <==> !PlacesAll(info.types, |info.types|)
  {
    hide *;
    var m := |info.types|;
    TupleTypeMeans(info, host);
    if PlacesAll(info.types, m) {
      LayDone(info, m, host);
      LayLays(info, m, host);
      FinishDone(info, Lay(info, m, host).value, host);
    } else {
      var n := FirstUnplaced(info.types, m);
      MaxAlignGrows(info.types, n, m);
      ProvidesLess(host, MaxAlign(info.types, n), MaxAlign(info.types, m));
      LayDone(info, n, host);
      UnitStuck(info, n, host);
    }
  }

  lemma FinishDone(info: TupleInfo, p: Partial, host: Host)
    requires info.Valid() && PlacesAll(info.types, |info.types|)
    requires Laying(info, |info.types|, p)
    requires Total(info.types) < W
    requires Provides(host, MaxAlign(info.types, |info.types|))
    ensures Finish(p, info.named, host).Done?
  {
    hide *;
    var n := |info.types|;
    MaxAlignKind(info.types, n);
    LayingMeans(info, n, p);
    TotalMeans(info.types);
    var aligned := Total(info.types);
    FinishMeans(p, info.named, host);
    if p.alignment == 0 {
      AlignUpZero(p.offset);
      PadNothing(p, aligned, true, host);
    } else {
      AlignUpIsCeil(p.offset, p.alignment);
      CeilNear(p.offset, p.alignment);
      PaddingProvided(p, aligned, true, host, p.alignment);
    }
  }

  lemma CeilNear(x: nat, a: nat)
    requires a > 0
    ensures x <= Ceil(x, a) < x + a
  {
  }

  const UnitType: CgType := CgType(TUPLE, 0, 0, 0, Types([]), Some([]), Some(".Unit"))

  /** The tuples `{Uint32, {}}` and `{Uint8, {}}`, on any host. */
  lemma UnitsAfterSized(info: TupleInfo, host: Host, kind: Kind, size: nat)
    requires (kind == U8 && size == 1) || (kind == U32 && size == 4)
    requires info.Valid() && info.types == [Scalar(kind, size), UnitType]
    ensures TupleType(info, host).Stuck?
  {
    assert Pow2(0) == 1 && Pow2(2) == 4;
    Pow2Monotone(4, 64);
    hide Pow2, TupleType, Lay, Laid;
    assert IsPow2(size);
    assert Ceil(0, size) == 0;
    assert End(info.types, 1) == size;
    assert !IsPow2(0) by { NotPow2(); }
    assert PlacesAll(info.types, 1) && !Places(info.types, 1);
    FirstLaid(info, host);
    UnitStuck(info, 1, host);
  }

  lemma NotPow2()
    ensures !IsPow2(0)
  {
  }

  lemma FirstLaid(info: TupleInfo, host: Host)
    requires info.Valid() && |info.types| > 0 && PlacesAll(info.types, 1)
    requires End(info.types, 1) < W
    ensures Lay(info, 1, host).Done?
  {
    hide *;
    NothingLaid(info, host);
    LayNext(info, 1, host);
    var p := Lay(info, 0, host).value;
    LayingMeans(info, 0, p);
    PlacesFewer(info.types, 1);
    PutPads(info, 0, p, host);
    if info.types[0].kind != VA {
      AlignedOk(info.types, 0);
      StartZero(info.types);
      PadNothing(p, 0, info.fields.Some?, host);
    }
  }

  lemma StartZero(ts: seq<CgType>)
    requires |ts| > 0
    ensures Start(ts, 0) == 0 && End(ts, 0) == 0
  {
    if ts[0].align > 0 {
      Remainder(ts[0].align - 1, ts[0].align, 0, ts[0].align - 1);
    }
  }

  // Layout at every depth

  /** Sizes are multiples of alignments, and every nested element of an aligned object is aligned. */
  ghost predicate WellLaid(t: CgType) {
    && (t.align > 0 ==> t.size % t.align == 0)
    && (t.kind == TUPLE ==>
          && t.types.Types?
          && t.size == SizeOf(t.types.list)
          && (forall i | 0 <= i < |t.types.list| :: WellLaid(t.types.list[i]))
          && (forall i | 0 <= i < |t.types.list| :: Fits(t, i)))
    && (t.kind == ARRAY ==>
          && t.types.Types? && |t.types.list| == 1
          && WellLaid(t.types.list[0])
          && t.size == t.types.list[0].size * t.extent
          && t.align == t.types.list[0].align)
  }

  ghost predicate Fits(t: CgType, i: nat)
    requires t.types.Types? && i < |t.types.list|
  {
    var e := t.types.list[i];
    e.kind != VA && e.align > 1 ==>
      t.align > 0 && t.align % e.align == 0 && OffsetOf(t.types.list, i) % e.align == 0
  }

  lemma Pow2Divides(a: nat, b: nat)
    requires IsPow2(a) && IsPow2(b) && a <= b
    ensures a > 0 && b % a == 0
  {
    hide Pow2;
    var j: nat :| j < 64 && a == Pow2(j);
    var k: nat :| k < 64 && b == Pow2(k);
    if k < j {
      Pow2Grows(k, j);
      assert false;
    }
    Pow2Add(k - j, j);
    Multiple(a, Pow2(k - j));
  }

  lemma Pow2Grows(k: nat, j: nat)
    requires k < j
    ensures Pow2(k) < Pow2(j)
  {
    Pow2Monotone(k, j - 1);
  }

  lemma {:induction false} MaxAlignAbove(ts: seq<CgType>, i: nat, n: nat)
    requires i < n <= |ts|
    ensures ts[i].kind != VA ==> ts[i].align <= MaxAlign(ts, n)
  {
    if i < n - 1 {
      MaxAlignAbove(ts, i, n - 1);
    }
  }

  /** Every physical element is padding or one of the original elements. */
  lemma Original(info: TupleInfo, ts: seq<CgType>, fields: seq<Field>, i: nat)
    requires info.Valid() && Laid(info, |info.types|, ts, fields)
    requires i < |ts| && ts[i].kind != PADDING
    ensures var v := Virtuals(ts[..i]); v < |info.types| && ts[i] == info.types[v]
  {
    var v := Virtuals(ts[..i]);
    VirtualsNext(ts, i);
    VirtualsMonotone(ts, i + 1, |ts|);
    assert ts[..|ts|] == ts;
    VirtUnique(ts, v, i);
  }

  lemma PhysicalFits(info: TupleInfo, t: CgType, i: nat)
    requires info.Valid() && PlacesAll(info.types, |info.types|)
    requires t.types.Types? && t.align == MaxAlign(info.types, |info.types|)
    requires t.fields.Some? && Laid(info, |info.types|, t.types.list, t.fields.value)
    requires forall k | 0 <= k < |t.types.list| :: t.types.list[k].kind == PADDING ==> t.types.list[k].align == 1
    requires i < |t.types.list|
    ensures Fits(t, i)
  {
    hide IsPow2, MaxAlign, Start, Pow2, W, SizeOf, Virtuals, Virt;
    var n, e := |info.types|, t.types.list[i];
    if e.kind != PADDING && e.kind != VA && e.align > 1 {
      Original(info, t.types.list, t.fields.value, i);
      var v := Virtuals(t.types.list[..i]);
      assert Element(info.types[v]);
      MaxAlignKind(info.types, n);
      MaxAlignAbove(info.types, v, n);
      Pow2Divides(e.align, t.align);
    }
  }

  /** Padding is bytes. */
  ghost predicate PadsOk(p: Partial) {
    forall k | 0 <= k < |p.padded| :: p.padded[k].kind == PADDING ==>
      p.padded[k].align == 1 && WellLaid(p.padded[k])
  }

  lemma PadsOkAfter(p: Partial, aligned: nat, named: bool, host: Host)
    requires PadsOk(p)
    ensures var q := PadTo(p, aligned, named, host); q.Done? ==> PadsOk(q.value)
  {
    hide Pow2;
  }

  lemma {:induction false} LayPadsOk(info: TupleInfo, n: nat, host: Host)
    requires info.Valid() && n <= |info.types|
    requires forall k | 0 <= k < n :: info.types[k].kind != PADDING
    requires Lay(info, n, host).Done?
    ensures PadsOk(Lay(info, n, host).value)
  {
    hide Pow2, AlignUp, PadTo, WellLaid;
    if n > 0 {
      var p := Lay(info, n - 1, host).value;
      LayPadsOk(info, n - 1, host);
      if info.types[n - 1].kind != VA {
        PadsOkAfter(p, AlignUp(p.offset, info.types[n - 1].align), info.fields.Some?, host);
      }
    }
  }

  lemma TuplePadsOk(info: TupleInfo, host: Host)
    requires info.Valid() && forall k | 0 <= k < |info.types| :: info.types[k].kind != PADDING
    requires TupleType(info, host).Done?
    ensures var ts := TupleType(info, host).value.types.list;
            forall k | 0 <= k < |ts| :: ts[k].kind == PADDING ==> ts[k].align == 1 && WellLaid(ts[k])
  {
    hide Pow2, AlignUp, PadTo, WellLaid, Lay;
    LayPadsOk(info, |info.types|, host);
    var p := Lay(info, |info.types|, host).value;
    PadsOkAfter(p, AlignUp(p.offset, p.alignment), true, host);
  }

  /** Tuples of well laid elements are well laid. */
  lemma TupleWellLaid(info: TupleInfo, host: Host)
    requires info.Valid() && PlacesAll(info.types, |info.types|)
    requires Total(info.types) < W
    requires forall k | 0 <= k < |info.types| :: WellLaid(info.types[k])
    requires TupleType(info, host).Done?
    ensures WellLaid(TupleType(info, host).value)
  {
    hide *;
    TupleLayout(info, host);
    LaidOutMeans(info, TupleType(info, host).value);
    Elements(info.types);
    TuplePadsOk(info, host);
    var t := TupleType(info, host).value;
    var ts := t.types.list;
    forall i | 0 <= i < |ts|
      ensures WellLaid(ts[i]) && Fits(t, i)
    {
      if ts[i].kind != PADDING {
        Original(info, ts, t.fields.value, i);
      }
      PhysicalFits(info, t, i);
    }
    WellLaidTuple(t);
  }

  lemma Elements(ts: seq<CgType>)
    requires PlacesAll(ts, |ts|)
    ensures forall k | 0 <= k < |ts| :: ts[k].kind != PADDING
  {
  }

  lemma WellLaidTuple(t: CgType)
    requires t.kind == TUPLE && t.types.Types? && t.size == SizeOf(t.types.list)
    requires t.align > 0 ==> t.size % t.align == 0
    requires forall i | 0 <= i < |t.types.list| :: WellLaid(t.types.list[i]) && Fits(t, i)
    ensures WellLaid(t)
  {
    hide SizeOf, Fits;
  }

  /** So are arrays of them, as long as their size does not wrap. */
  lemma ArrayWellLaid(base: CgType, extent: nat, named: Option<string>)
    requires WellLaid(base) && base.size * extent < W
    ensures WellLaid(ArrayType(base, extent, named))
  {
    hide Pow2;
    Small(base.size * extent);
    if base.align > 0 {
      var q := base.size / base.align;
      assert base.size == q * base.align;
      assert base.size * extent == (q * extent) * base.align;
      Multiple(base.align, q * extent);
    }
  }

  // Types that are made are well made

  ghost predicate AllMade(ts: seq<CgType>) {
    forall i | 0 <= i < |ts| :: WellMade(ts[i])
  }

  lemma PaddingMade(n: nat)
    ensures WellMade(PaddingType(n))
  {
    assert WellMade(Uint8);
    assert WellMade(ArrayType(Uint8, n, Some(".Pad")));
  }

  /** Padding of `n` bytes is marked as such, and holds an array of exactly `n` single bytes. */
  lemma PaddingHolds(n: nat)
    requires n < W
    ensures var t := PaddingType(n);
            && t.kind == PADDING && t.size == n && t.align == 1 && t.types.Types? && |t.types.list| == 1
            && var bytes := t.types.list[0];
            && bytes.kind == ARRAY && bytes.extent == n && bytes.size == n && bytes.align == 1
            && bytes.types.Types? && |bytes.types.list| == 1
            && var one := bytes.types.list[0];
            && one.kind == U8 && one.size == 1 && one.align == 1 && one.types.NoTypes?
  {
    hide Pow2;
    Small(n);
  }

  lemma PadMade(p: Partial, aligned: nat, named: bool, host: Host)
    requires AllMade(p.padded)
    ensures var q := PadTo(p, aligned, named, host); q.Done? ==> AllMade(q.value.padded)
  {
    PaddingMade((aligned - p.offset) % W);
    hide Pow2, PaddingType, WellMade;
  }

  lemma {:induction false} LayMade(info: TupleInfo, n: nat, host: Host)
    requires info.Valid() && n <= |info.types| && AllMade(info.types)
    requires Lay(info, n, host).Done?
    ensures AllMade(Lay(info, n, host).value.padded)
  {
    hide Pow2, AlignUp, PadTo, WellMade;
    if n > 0 {
      var p := Lay(info, n - 1, host).value;
      LayMade(info, n - 1, host);
      if info.types[n - 1].kind != VA {
        PadMade(p, AlignUp(p.offset, info.types[n - 1].align), info.fields.Some?, host);
      }
    }
  }

  /** Tuples of well made types are well made. */
  lemma TupleIsMade(info: TupleInfo, host: Host)
    requires info.Valid() && AllMade(info.types) && TupleType(info, host).Done?
    ensures WellMade(TupleType(info, host).value)
  {
    LayMade(info, |info.types|, host);
    var p := Lay(info, |info.types|, host).value;
    PadMade(p, AlignUp(p.offset, p.alignment), true, host);
    hide Pow2, AlignUp, PadTo, Lay;
  }
}
