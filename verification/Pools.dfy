// Fixed-size object pools over an occupancy bitmap, and the cache of pools.
module Pools {

  import opened Wrappers
  import opened Bits

  // Words of the bitmap

  lemma {:induction false} HasBit(a: nat) returns (i: nat)
    requires a > 0
    ensures Bit(a, i)
  {
    if a % 2 == 1 {
      i := 0;
    } else {
      var j := HasBit(a / 2);
      i := j + 1;
    }
  }

  /** A masked bit tests as nonzero exactly when it is set. */
  lemma TestIsBit(w: nat, k: nat)
    ensures And(w, Pow2(k)) != 0 <==> Bit(w, k)
  {
    BitAnd(w, Pow2(k), k);
    BitPow2(k, k);
    BitOfZero(k);
    if And(w, Pow2(k)) != 0 {
      var i := HasBit(And(w, Pow2(k)));
      BitAnd(w, Pow2(k), i);
      BitPow2(k, i);
    }
  }

  /** Marking sets one bit and no other, within the word. */
  lemma MarkSetsBit(w: nat, k: nat, i: nat)
    requires w < Pow2(32) && k < 32
    ensures Bit(Or(w, Pow2(k)), i) <==> Bit(w, i) || i == k
    ensures Or(w, Pow2(k)) < Pow2(32)
  {
    hide *;
    BitOr(w, Pow2(k), i);
    BitPow2(k, i);
    Pow2Below(k, 32);
    OrBelow(w, Pow2(k), 32);
  }

  lemma Pow2Below(k: nat, n: nat)
    requires k < n
    ensures Pow2(k) < Pow2(n)
  {
    Pow2Monotone(k, n - 1);
  }

  /** Clearing, with a mask complemented in 64 bits, unsets one bit and no other. */
  lemma ClearUnsetsBit(w: nat, k: nat, i: nat)
    requires w < Pow2(32) && k < 32 && i < 32
    ensures Pow2(k) < Pow2(64)
    ensures Bit(And(w, Complement(Pow2(k), 64)), i) <==> Bit(w, i) && i != k
    ensures And(w, Complement(Pow2(k), 64)) < Pow2(32)
  {
    hide *;
    Pow2Below(k, 64);
    BitAnd(w, Complement(Pow2(k), 64), i);
    BitComplement(Pow2(k), 64, i);
    BitPow2(k, i);
    AndBelow(w, Complement(Pow2(k), 64), 32);
  }

  /** Rounding a count up to whole words. */
  function RoundUp32(n: nat): nat
    requires n + 31 < Pow2(64)
  {
    Fits64();
    And(n + 31, Complement(31, 64))
  }

  lemma Fits64()
    ensures 31 < Pow2(64)
  {
    assert Pow2(5) == 32;
    Pow2Monotone(5, 64);
  }

  lemma RoundUp32Is(n: nat)
    requires n + 31 < Pow2(64)
    ensures RoundUp32(n) % 32 == 0 && n <= RoundUp32(n) < n + 32
  {
    hide And, Complement;
    assert Pow2(5) == 32;
    hide Pow2;
    ClearLow(n + 31, 5, 64);
  }

  /** Slot `i` is bit `i % 32` of word `i / 32`. */
  predicate Set(words: seq<nat>, i: nat) {
    i / 32 < |words| && Bit(words[i / 32], i % 32)
  }

  ghost function Slots(words: seq<nat>): set<nat> {
    set i: nat | i < 32 * |words| && Set(words, i)
  }

  ghost predicate Words(words: seq<nat>) {
    forall w | 0 <= w < |words| :: words[w] < Pow2(32)
  }

  lemma MarkSlots(words: seq<nat>, i: nat)
    requires Words(words) && i < 32 * |words|
    ensures var words' := words[i / 32 := Or(words[i / 32], Pow2(i % 32))];
            Words(words') && Slots(words') == Slots(words) + {i}
  {
    hide Pow2, Or, Bit;
    var w, k := i / 32, i % 32;
    var words' := words[w := Or(words[w], Pow2(k))];
    MarkSetsBit(words[w], k, k);
    forall j: nat | j < 32 * |words|
      ensures Set(words', j) <==> Set(words, j) || j == i
    {
      MarkSetsBit(words[w], k, j % 32);
    }
  }

  lemma ClearSlots(words: seq<nat>, i: nat)
    requires Words(words) && i < 32 * |words|
    ensures Pow2(i % 32) < Pow2(64)
    ensures var words' := words[i / 32 := And(words[i / 32], Complement(Pow2(i % 32), 64))];
            Words(words') && Slots(words') == Slots(words) - {i}
  {
    hide Pow2, And, Complement, Bit;
    var w, k := i / 32, i % 32;
    ClearUnsetsBit(words[w], k, k);
    var words' := words[w := And(words[w], Complement(Pow2(k), 64))];
    forall j: nat | j < 32 * |words|
      ensures Set(words', j) <==> Set(words, j) && j != i
    {
      ClearUnsetsBit(words[w], k, j % 32);
    }
  }

  // A pool

  class Pool {
    const size: nat
    const count: nat
    const storage: nat
    const occupied: array<nat>

    ghost predicate Valid()
      reads this, occupied
    {
      size > 0 && count == 32 * occupied.Length && Words(occupied[..])
    }

    /** The slots that are allocated. */
    ghost function Live(): set<nat>
      reads this, occupied
    {
      Slots(occupied[..])
    }

    /** The address of slot `i`. */
    function Address(i: nat): nat {
      storage + size * i
    }

    /** One past the last address. */
    function Limit(): nat {
      storage + count * size
    }

    constructor (storage: nat, size: nat, count: nat)
      requires size > 0 && count + 31 < Pow2(64)
      ensures Valid() && fresh(occupied) && Live() == {}
      ensures this.storage == storage && this.size == size && this.count == RoundUp32(count)
    {
      hide Pow2, RoundUp32, Bit;
      RoundUp32Is(count);
      var rounded := RoundUp32(count);
      this.size := size;
      this.count := rounded;
      this.storage := storage;
      var words := new nat[rounded / 32];
      occupied := words;
      new;
      for i := 0 to words.Length
        invariant forall j | 0 <= j < i :: words[j] == 0
        modifies words
      {
        words[i] := 0;
      }
      forall i: nat ensures !Set(words[..], i) {
        BitOfZero(i % 32);
      }
    }

    method Test(i: nat) returns (b: bool)
      requires Valid() && i < count
      ensures b <==> i in Live()
    {
      TestIsBit(occupied[i / 32], i % 32);
      return And(occupied[i / 32], Pow2(i % 32)) != 0;
    }

    method Mark(i: nat)
      requires Valid() && i < count
      modifies occupied
      ensures Valid() && Live() == old(Live()) + {i}
    {
      MarkSlots(occupied[..], i);
      ghost var words := occupied[..];
      occupied[i / 32] := Or(occupied[i / 32], Pow2(i % 32));
      assert occupied[..] == words[i / 32 := Or(words[i / 32], Pow2(i % 32))];
    }

    method Clear(i: nat)
      requires Valid() && i < count
      modifies occupied
      ensures Valid() && Live() == old(Live()) - {i}
    {
      ClearSlots(occupied[..], i);
      ghost var words := occupied[..];
      occupied[i / 32] := And(occupied[i / 32], Complement(Pow2(i % 32), 64));
      assert occupied[..] == words[i / 32 := And(words[i / 32], Complement(Pow2(i % 32), 64))];
    }

    /** Takes the lowest free slot, if there is one. */
    method Allocate() returns (r: Option<nat>, ghost slot: nat)
      requires Valid()
      modifies occupied
      ensures Valid() && slot <= count
      ensures forall j: nat | j < slot :: j in old(Live())
      ensures if slot == count then r == None && Live() == old(Live())
              else slot !in old(Live()) && r == Some(storage + slot * size) && Live() == old(Live()) + {slot}
    {
      for i := 0 to count
        invariant Valid() && Live() == old(Live())
        invariant forall j: nat | j < i :: j in old(Live())
      {
        var taken := Test(i);
        if taken {
          continue;
        }
        Mark(i);
        return Some(Address(i)), i;
      }
      return None, count;
    }

    /** Frees the slot an address falls in; addresses outside the pool are refused. The address one
      * past the end is not: callers must not pass it. */
    method Deallocate(addr: nat) returns (ok: bool)
      requires Valid() && addr != Limit()
      modifies occupied
      ensures Valid()
      ensures ok <==> storage <= addr < Limit()
      ensures Live() == if ok then old(Live()) - {(addr - storage) / size} else old(Live())
    {
      if addr < storage || addr > Limit() {
        return false;
      }
      SlotBelow(addr - storage, size, count);
      Clear((addr - storage) / size);
      return true;
    }
  }

  lemma SlotBelow(d: nat, size: nat, count: nat)
    requires size > 0 && d < count * size
    ensures 0 <= d / size < count
  {
    var q := d / size;
    assert d == q * size + d % size;
    if q > count {
      Scaled(size, count, q);
    }
  }

  /** The slot of an address is the slot it was given for. */
  lemma SlotOf(storage: nat, size: nat, i: nat)
    requires size > 0
    ensures (storage + size * i - storage) / size == i
  {
    assert size * i == i * size + 0;
    Remainder(size * i, size, i, 0);
  }

  /** Different slots are at least an object apart, and inside the pool. */
  lemma SlotsApart(storage: nat, size: nat, count: nat, i: nat, j: nat)
    requires i < j < count
    ensures storage + size * i + size <= storage + size * j
    ensures storage + size * j + size <= storage + count * size
  {
    var k := j - i - 1;
    assert size * j == size * (i + 1 + k) == size * i + size + size * k;
    var l := count - j - 1;
    assert count * size == (j + 1 + l) * size == size * j + size + l * size;
  }

  // What a cache holds, as values

  datatype Region = Region(storage: nat, size: nat, count: nat, live: set<nat>)
  {
    function Address(i: nat): nat {
      storage + size * i
    }

    function Limit(): nat {
      storage + count * size
    }
  }

  /** Regions do not even touch. */
  predicate Apart(a: Region, b: Region) {
    a.Limit() < b.storage || b.Limit() < a.storage
  }

  /** Regions of objects of one size, apart from each other. */
  ghost predicate Separate(v: seq<Region>, size: nat) {
    && size > 0
    && (forall i | 0 <= i < |v| :: v[i].size == size && forall s | s in v[i].live :: s < v[i].count)
    && (forall i, j | 0 <= i < j < |v| :: Apart(v[i], v[j]))
  }

  /** The addresses of all live objects. */
  ghost function Addresses(v: seq<Region>): set<nat> {
    set i, s | 0 <= i < |v| && s in v[i].live :: v[i].Address(s)
  }

  lemma AddressOfSlot(v: seq<Region>, i: nat, s: nat)
    requires i < |v| && s in v[i].live
    ensures v[i].Address(s) in Addresses(v)
  {
  }

  lemma SlotOfAddress(v: seq<Region>, a: nat) returns (i: nat, s: nat)
    requires a in Addresses(v)
    ensures i < |v| && s in v[i].live && a == v[i].Address(s)
  {
    i, s :| 0 <= i < |v| && s in v[i].live && a == v[i].Address(s);
  }

  lemma InRegion(r: Region, s: nat)
    requires s < r.count
    ensures r.storage <= r.Address(s) && r.Address(s) + r.size <= r.Limit()
  {
    if s + 1 < r.count {
      Scaled(r.size, s, s + 1);
      Scaled(r.size, s + 1, r.count);
    } else {
      Scaled(r.size, s, s + 1);
    }
    assert s * r.size == r.size * s;
  }

  /** Live objects never overlap, across all pools. */
  lemma ObjectsDisjoint(v: seq<Region>, size: nat, a: nat, b: nat)
    requires Separate(v, size) && a in Addresses(v) && b in Addresses(v) && a != b
    ensures a + size <= b || b + size <= a
  {
    var i, s := SlotOfAddress(v, a);
    var j, t := SlotOfAddress(v, b);
    InRegion(v[i], s);
    InRegion(v[j], t);
    if i == j {
      if s < t {
        SlotsApart(v[i].storage, size, v[i].count, s, t);
      } else {
        SlotsApart(v[i].storage, size, v[i].count, t, s);
      }
    }
  }

  /** Taking a free slot adds one address that was not live. */
  lemma TakeSlot(v: seq<Region>, size: nat, k: nat, s: nat)
    requires Separate(v, size) && k < |v| && s < v[k].count && s !in v[k].live
    ensures var v' := v[k := v[k].(live := v[k].live + {s})];
            && Separate(v', size)
            && v[k].Address(s) !in Addresses(v)
            && Addresses(v') == Addresses(v) + {v[k].Address(s)}
  {
    var v' := v[k := v[k].(live := v[k].live + {s})];
    forall a | a in Addresses(v) ensures a in Addresses(v') && a != v[k].Address(s) {
      var i, t := SlotOfAddress(v, a);
      AddressOfSlot(v', i, t);
      InRegion(v[i], t);
      InRegion(v[k], s);
      if i == k {
        if s < t {
          SlotsApart(v[i].storage, size, v[i].count, s, t);
        } else {
          SlotsApart(v[i].storage, size, v[i].count, t, s);
        }
      }
    }
    forall a | a in Addresses(v') ensures a in Addresses(v) || a == v[k].Address(s) {
      var i, t := SlotOfAddress(v', a);
      if !(i == k && t == s) {
        AddressOfSlot(v, i, t);
      }
    }
    AddressOfSlot(v', k, s);
  }

  /** Freeing a slot removes its address and no other. */
  lemma FreeSlot(v: seq<Region>, size: nat, k: nat, s: nat)
    requires Separate(v, size) && k < |v| && s < v[k].count
    ensures var v' := v[k := v[k].(live := v[k].live - {s})];
            Separate(v', size) && Addresses(v') == Addresses(v) - {v[k].Address(s)}
  {
    var v' := v[k := v[k].(live := v[k].live - {s})];
    if s in v[k].live {
      assert v[k].live - {s} + {s} == v[k].live;
      assert v == v'[k := v'[k].(live := v'[k].live + {s})];
      assert Separate(v', size);
      TakeSlot(v', size, k, s);
    } else {
      assert v[k].live - {s} == v[k].live;
      assert v' == v;
      if v[k].Address(s) in Addresses(v) {
        NotLive(v, size, k, s);
      }
    }
  }

  lemma NotLive(v: seq<Region>, size: nat, k: nat, s: nat)
    requires Separate(v, size) && k < |v| && s < v[k].count && s !in v[k].live
    ensures v[k].Address(s) !in Addresses(v)
  {
    TakeSlot(v, size, k, s);
  }

  /** An address in use falls in the slot it was given for, in the only pool that has it. */
  lemma OwnerOf(v: seq<Region>, size: nat, a: nat, k: nat)
    requires Separate(v, size) && a in Addresses(v)
    requires k < |v| && v[k].storage <= a < v[k].Limit()
    ensures v[k].Address((a - v[k].storage) / size) == a
  {
    var i, s := SlotOfAddress(v, a);
    InRegion(v[i], s);
    SlotOf(v[k].storage, size, s);
  }

  predicate FullRegion(r: Region) {
    forall s: nat | s < r.count :: s in r.live
  }

  predicate Full(v: seq<Region>) {
    forall i | 0 <= i < |v| :: FullRegion(v[i])
  }

  /** `v'` is `v` with slot `s` of region `k` taken, for the address `a`; everything before is taken. */
  ghost predicate FreeAt(v: seq<Region>, v': seq<Region>, a: nat, k: nat, s: nat) {
    && k < |v| && s < v[k].count && s !in v[k].live && a == v[k].Address(s)
    && v' == v[k := v[k].(live := v[k].live + {s})]
    && (forall j | 0 <= j < k :: FullRegion(v[j]))
    && (forall t: nat | t < s :: t in v[k].live)
  }

  ghost predicate LowestFree(v: seq<Region>, v': seq<Region>, a: nat) {
    exists k: nat, s: nat :: FreeAt(v, v', a, k, s)
  }

  /** `v'` is `v` with the slot of region `k` freed in which `a` falls. */
  ghost predicate FreedAt(v: seq<Region>, v': seq<Region>, a: nat, k: nat, size: nat) {
    && size > 0 && k < |v| && Within(v[k], a)
    && v' == v[k := v[k].(live := v[k].live - {(a - v[k].storage) / size})]
  }

  lemma LowestFreeLive(v: seq<Region>, v': seq<Region>, a: nat, size: nat)
    requires Separate(v, size) && LowestFree(v, v', a)
    ensures a !in Addresses(v) && Addresses(v') == Addresses(v) + {a}
  {
    var k: nat, s: nat :| FreeAt(v, v', a, k, s);
    TakeSlot(v, size, k, s);
  }

  /** A pool made at `storage` would touch none of the regions. */
  ghost predicate ApartFromAll(v: seq<Region>, storage: nat, size: nat, count: nat)
    requires count + 31 < Pow2(64)
  {
    forall i | 0 <= i < |v| :: Apart(v[i], Region(storage, size, RoundUp32(count), {}))
  }

  lemma AddPool(v: seq<Region>, size: nat, r: Region)
    requires Separate(v, size) && r.size == size && r.live == {}
    requires forall i | 0 <= i < |v| :: Apart(v[i], r)
    ensures Separate(v + [r], size) && Addresses(v + [r]) == Addresses(v)
  {
    var v' := v + [r];
    forall a | a in Addresses(v) ensures a in Addresses(v') {
      var i, s := SlotOfAddress(v, a);
      AddressOfSlot(v', i, s);
    }
    forall a | a in Addresses(v') ensures a in Addresses(v) {
      var i, s := SlotOfAddress(v', a);
      AddressOfSlot(v, i, s);
    }
  }

  predicate Within(r: Region, a: nat) {
    r.storage <= a < r.Limit()
  }

  lemma Lowest(v: seq<Region>, v': seq<Region>, a: nat, k: nat, s: nat)
    requires k < |v| && s < v[k].count && s !in v[k].live && a == v[k].Address(s)
    requires v' == v[k := v[k].(live := v[k].live + {s})]
    requires (forall j | 0 <= j < k :: FullRegion(v[j])) && (forall t: nat | t < s :: t in v[k].live)
    ensures LowestFree(v, v', a) && !Full(v)
  {
    assert FreeAt(v, v', a, k, s);
    assert !FullRegion(v[k]);
  }

  lemma AllFull(v: seq<Region>)
    requires forall i | 0 <= i < |v| :: FullRegion(v[i])
    ensures Full(v)
  {
  }

  lemma NotFull(v: seq<Region>, k: nat)
    requires k < |v| && v[k].live == {} && v[k].count > 0
    ensures !Full(v)
  {
    assert 0 !in v[k].live;
    assert !FullRegion(v[k]);
  }

  lemma InSomeRegion(v: seq<Region>, size: nat, a: nat)
    requires Separate(v, size) && a in Addresses(v)
    ensures exists i | 0 <= i < |v| :: Within(v[i], a)
  {
    var i, s := SlotOfAddress(v, a);
    InRegion(v[i], s);
  }

  // The cache

  ghost function ViewOf(p: Pool): Region
    reads p, p.occupied
  {
    Region(p.storage, p.size, p.count, p.Live())
  }

  ghost function Views(pools: seq<Pool>): (v: seq<Region>)
    reads set p | p in pools, set p | p in pools :: p.occupied
    ensures |v| == |pools|
    ensures forall i | 0 <= i < |v| :: v[i] == ViewOf(pools[i])
  {
    if pools == [] then [] else Views(pools[..|pools| - 1]) + [ViewOf(pools[|pools| - 1])]
  }

  class Cache {
    const objectSize: nat
    const objectCount: nat
    var pools: seq<Pool>

    ghost function View(): (v: seq<Region>)
      reads this, set p | p in pools, set p | p in pools :: p.occupied
      ensures |v| == |pools|
    {
      Views(pools)
    }

    ghost predicate Valid()
      reads this, set p | p in pools, set p | p in pools :: p.occupied
    {
      && objectSize > 0 && 0 < objectCount && objectCount + 31 < Pow2(64)
      && (forall i | 0 <= i < |pools| :: pools[i].Valid())
      && (forall i, j | 0 <= i < j < |pools| :: pools[i].occupied != pools[j].occupied)
      && (forall i | 0 <= i < |pools| :: pools[i].count > 0)
      && Separate(View(), objectSize)
    }

    /** The addresses of all live objects. */
    ghost function Live(): set<nat>
      reads this, set p | p in pools, set p | p in pools :: p.occupied
    {
      Addresses(View())
    }

    constructor (objectSize: nat, objectCount: nat)
      requires objectSize > 0 && 0 < objectCount && objectCount + 31 < Pow2(64)
      ensures Valid() && Live() == {}
      ensures this.objectSize == objectSize && this.objectCount == objectCount
    {
      this.objectSize := objectSize;
      this.objectCount := objectCount;
      pools := [];
    }

    lemma ValidMeans()
      requires Valid()
      ensures Separate(View(), objectSize) && objectSize > 0 && 0 < objectCount && objectCount + 31 < Pow2(64)
      ensures Live() == Addresses(View())
      ensures forall i | 0 <= i < |pools| ::
                pools[i].Valid() && View()[i] == ViewOf(pools[i]) && pools[i].size == objectSize
    {
      hide Pow2, Slots, Words;
    }

    /** After one pool changes and stays valid, the others are as they were. */
    twostate lemma OthersKept(k: nat)
      requires old(Valid()) && pools == old(pools) && k < |pools|
      requires forall i | 0 <= i < |pools| && i != k :: unchanged(pools[i].occupied)
      requires forall i | 0 <= i < |pools| :: unchanged(pools[i])
      requires pools[k].Valid()
      ensures View() == old(View())[k := ViewOf(pools[k])]
      ensures Separate(View(), objectSize) ==> Valid()
    {
      hide Pow2, Separate, Slots, Words;
      forall i | 0 <= i < |pools| && i != k
        ensures ViewOf(pools[i]) == old(ViewOf(pools[i])) && pools[i].Valid()
      {
      }
    }

    method AllocateIn(k: nat) returns (r: Option<nat>, ghost slot: nat)
      requires Valid() && k < |pools|
      modifies pools[k].occupied
      ensures Valid()
      ensures var v := old(View());
              if r.None? then FullRegion(v[k]) && View() == v
              else
                && slot < v[k].count && slot !in v[k].live && r == Some(v[k].Address(slot))
                && (forall t: nat | t < slot :: t in v[k].live)
                && View() == v[k := v[k].(live := v[k].live + {slot})]
    {
      hide Pow2, Separate, Slots, Words;
      ghost var v := View();
      r, slot := pools[k].Allocate();
      OthersKept(k);
      if r.Some? {
        TakeSlot(v, objectSize, k, slot);
      }
    }

    method FreeIn(k: nat, addr: nat) returns (ok: bool)
      requires Valid() && k < |pools| && addr != pools[k].Limit()
      modifies pools[k].occupied
      ensures Valid()
      ensures var v := old(View());
              && (ok <==> v[k].storage <= addr < v[k].Limit())
              && (!ok ==> View() == v)
              && (ok ==>
                    var slot := (addr - v[k].storage) / objectSize;
                    0 <= slot < v[k].count && View() == v[k := v[k].(live := v[k].live - {slot})])
    {
      hide Pow2, Separate, Slots, Words;
      ghost var v := View();
      ValidMeans();
      ok := pools[k].Deallocate(addr);
      OthersKept(k);
      if ok {
        SlotBelow(addr - pools[k].storage, objectSize, pools[k].count);
        FreeSlot(v, objectSize, k, (addr - pools[k].storage) / objectSize);
      }
    }

    /** Takes the lowest free slot of the first pool that has one. */
    method TakeFirst() returns (r: Option<nat>)
      requires Valid()
      modifies set p | p in pools :: p.occupied
      ensures Valid()
      ensures r.None? <==> old(Full(View()))
      ensures r.None? ==> View() == old(View())
      ensures r.Some? ==> LowestFree(old(View()), View(), r.value)
    {
      hide *;
      ghost var v := View();
      for i := 0 to |pools|
        invariant Valid() && View() == v
        invariant forall j | 0 <= j < i :: FullRegion(v[j])
      {
        ghost var slot;
        r, slot := AllocateIn(i);
        if r.Some? {
          Lowest(v, View(), r.value, i, slot);
          return;
        }
      }
      AllFull(v);
      return None;
    }

    /** Takes a slot; when all pools are full, one of a new pool made in `region`, storage that
      * touches no pool, if the allocator has any. */
    method Allocate(region: Option<nat>) returns (r: Option<nat>)
      requires Valid()
      requires region.Some? ==>
        objectCount + 31 < Pow2(64) && ApartFromAll(View(), region.value, objectSize, objectCount)
      modifies this, set p | p in pools :: p.occupied
      ensures Valid() && old(pools) <= pools && |pools| <= |old(pools)| + 1
      ensures |pools| > |old(pools)| <==> region.Some? && old(Full(View()))
      ensures r.None? <==> region.None? && old(Full(View()))
      ensures r.None? ==> Live() == old(Live())
      ensures r.Some? ==> r.value !in old(Live()) && Live() == old(Live()) + {r.value}
      ensures !old(Full(View())) ==> r.Some? && LowestFree(old(View()), View(), r.value)
      decreases if Full(View()) then 1 else 0
    {
      hide *;
      ghost var v := View();
      ValidMeans();
      r := TakeFirst();
      ValidMeans();
      if r.Some? {
        LowestFreeLive(v, View(), r.value, objectSize);
        return;
      }
      if region.None? {
        return;
      }
      AddNew(region.value);
      r := Allocate(None);
    }

    method AddNew(region: nat)
      requires Valid() && ApartFromAll(View(), region, objectSize, objectCount)
      modifies this
      ensures Valid() && Live() == old(Live()) && !Full(View())
      ensures old(pools) <= pools && |pools| == |old(pools)| + 1
      ensures fresh(pools[|old(pools)|].occupied)
    {
      hide Pow2, Separate, Slots, Words, RoundUp32, Addresses, Full;
      ghost var v, before := View(), pools;
      var pool := new Pool(region, objectSize, objectCount);
      RoundUp32Is(objectCount);
      ghost var n := ViewOf(pool);
      assert View() == v;
      AddPool(v, objectSize, n);
      pools := pools + [pool];
      assert pools[..|before|] == before;
      assert View() == v + [n];
      NotFull(View(), |before|);
    }

    /** Frees the object in whose slot `addr` falls; false for addresses outside every pool. */
    method Deallocate(addr: nat) returns (ok: bool)
      requires Valid()
      requires forall i | 0 <= i < |pools| :: addr != pools[i].Limit()
      modifies set p | p in pools :: p.occupied
      ensures Valid()
      ensures ok <==> exists i | 0 <= i < |old(View())| :: Within(old(View())[i], addr)
      ensures if ok then exists i: nat :: FreedAt(old(View()), View(), addr, i, objectSize) else View() == old(View())
      ensures addr in old(Live()) ==> ok && Live() == old(Live()) - {addr}
    {
      hide Pow2, Separate, Slots, Words, Addresses, Views;
      ghost var v := View();
      ValidMeans();
      for i := 0 to |pools|
        invariant Valid() && View() == v
        invariant forall j | 0 <= j < i :: !Within(v[j], addr)
      {
        ok := FreeIn(i, addr);
        if ok {
          assert Within(v[i], addr);
          assert FreedAt(v, View(), addr, i, objectSize);
          FreeSlot(v, objectSize, i, (addr - v[i].storage) / objectSize);
          if addr in Addresses(v) {
            OwnerOf(v, objectSize, addr, i);
          }
          return;
        }
      }
      if addr in Addresses(v) {
        InSomeRegion(v, objectSize, addr);
      }
      return false;
    }
  }
}
