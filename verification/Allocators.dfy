// Bump allocation: inline storage, an arena of chunks, and the scratch
// allocator that falls back from one to the other.
module Allocators {

  import opened Wrappers

  const ALIGN: nat := 16

  const MIN_CHUNK_SIZE: nat := 2 * 1024 * 1024

  const INSITU: nat := 16384

  /** One more than the largest 64-bit number. */
  const WORD: nat := 0x1_0000_0000_0000_0000

  /** The bytes in front of a chunk's storage that describe it. */
  const HEADER: nat := 32

  /** Storage of `capacity` bytes at `base`, of which the first `offset` are used up. */
  datatype Chunk = Chunk(base: nat, capacity: nat, offset: nat)

  /** A block handed out and not yet given back. */
  datatype Block = Block(addr: nat, size: nat)

  function Rounded(size: nat): (bytes: nat)
    ensures bytes % ALIGN == 0 && size <= bytes < size + ALIGN
  {
    (size + ALIGN - 1) / ALIGN * ALIGN
  }

  predicate Accepts(c: Chunk, size: nat) {
    c.offset + Rounded(size) < c.capacity
  }

  function Bump(c: Chunk, size: nat): Chunk {
    c.(offset := c.offset + Rounded(size))
  }

  /** The source's deallocation gives bytes back only to a block that starts where free space does. */
  function Unbump(c: Chunk, addr: nat, size: nat): Chunk {
    if addr == c.base + c.offset then c.(offset := (c.offset - size) % WORD) else c
  }

  // 64 bits

  /** The rounded size, as it is computed. */
  function Rounded64(size: nat): nat {
    (size + ALIGN - 1) % WORD / ALIGN * ALIGN
  }

  function Bump64(c: Chunk, size: nat): Chunk {
    c.(offset := (c.offset + Rounded64(size)) % WORD)
  }

  predicate Accepts64(c: Chunk, size: nat) {
    Bump64(c, size).offset < c.capacity
  }

  /** Neither rounding the size nor adding it to the offset wraps. */
  predicate NoWrap(c: Chunk, size: nat) {
    size + ALIGN - 1 < WORD && c.offset + Rounded(size) < WORD
  }

  /** Then 64 bits make no difference. */
  lemma NoWrapExact(c: Chunk, size: nat)
    requires NoWrap(c, size)
    ensures Rounded64(size) == Rounded(size) && Bump64(c, size) == Bump(c, size)
    ensures Accepts64(c, size) <==> Accepts(c, size)
  {
  }

  lemma RoundedIs(size: nat, bytes: nat)
    requires bytes == (size + ALIGN - 1) % WORD / ALIGN * ALIGN && size + ALIGN - 1 < WORD
    ensures bytes == Rounded64(size) == Rounded(size)
  {
  }

  lemma AcceptsIs(c: Chunk, size: nat, bytes: nat)
    requires bytes == Rounded64(size)
    ensures Accepts64(c, size) <==> (c.offset + bytes) % WORD < c.capacity
  {
  }

  lemma ReachesFresh(size: nat)
    requires Rounded(size) + HEADER < WORD
    ensures size + ALIGN - 1 < WORD
  {
  }

  lemma FreshFits(base: nat, size: nat)
    requires Rounded(size) + HEADER < WORD
    ensures NoWrap(Chunk(base, Capacity(size), 0), size)
  {
  }

  /** Sizes that wrap are accepted without the bytes they ask for: those within 15 bytes of 2^64 take no
    * space, and others move the free end back over what is used. */
  lemma WrapMovesBack(c: Chunk, size: nat)
    requires size < WORD && c.offset < c.capacity < WORD && !NoWrap(c, size) && Accepts64(c, size)
    ensures Bump64(c, size).offset <= c.offset < c.offset + size
    ensures size + ALIGN - 1 >= WORD ==> Bump64(c, size) == c
    ensures size + ALIGN - 1 < WORD ==> Bump64(c, size).offset < c.offset
  {
  }

  // Invariants

  predicate Sound(c: Chunk) {
    && c.base > 0 && c.base % ALIGN == 0 && c.offset % ALIGN == 0 && c.offset < c.capacity
    && c.base + c.capacity < WORD
  }

  predicate Apart(c: Chunk, d: Chunk) {
    c.base + c.capacity <= d.base || d.base + d.capacity <= c.base
  }

  /** `b` lies in the used part of `c`. */
  predicate Inside(b: Block, c: Chunk) {
    c.base <= b.addr && b.addr + Rounded(b.size) <= c.base + c.offset
  }

  predicate Disjoint(a: Block, b: Block) {
    a.addr + a.size <= b.addr || b.addr + b.size <= a.addr
  }

  /** The non-empty live blocks are aligned, inside their chunks, and do not overlap. */
  ghost predicate Holds(chunks: seq<Chunk>, live: set<Block>) {
    && (forall i | 0 <= i < |chunks| :: Sound(chunks[i]))
    && (forall i, j | 0 <= i < j < |chunks| :: Apart(chunks[i], chunks[j]))
    && (forall b | b in live :: b.size > 0 && b.addr % ALIGN == 0)
    && (forall b | b in live :: exists i | 0 <= i < |chunks| :: Inside(b, chunks[i]))
    && (forall a, b | a in live && b in live && a != b :: Disjoint(a, b))
  }

  /** Live blocks after handing out `b`: empty blocks occupy nothing. */
  function Plus(live: set<Block>, b: Block): set<Block> {
    if b.size > 0 then live + {b} else live
  }

  lemma BumpSound(c: Chunk, size: nat)
    requires Sound(c) && Accepts(c, size)
    ensures Sound(Bump(c, size)) && (c.base + c.offset) % ALIGN == 0
    ensures c.base + c.offset + size <= c.base + c.capacity
    ensures Inside(Block(c.base + c.offset, size), Bump(c, size))
  {
    SumAligned(c.offset, Rounded(size));
    SumAligned(c.base, c.offset);
  }

  lemma IsSound(chunks: seq<Chunk>, live: set<Block>, k: nat)
    requires Holds(chunks, live) && k < |chunks|
    ensures Sound(chunks[k])
  {
  }

  lemma SumAligned(a: nat, b: nat)
    requires a % ALIGN == 0 && b % ALIGN == 0
    ensures (a + b) % ALIGN == 0
  {
  }

  /** What lies in a chunk overlaps neither its free space nor that of another chunk. */
  lemma FreeSpaceApart(chunks: seq<Chunk>, live: set<Block>, a: Block, i: nat, k: nat, size: nat)
    requires Holds(chunks, live) && a in live && i < |chunks| && k < |chunks| && Inside(a, chunks[i])
    requires Accepts(chunks[k], size)
    ensures Disjoint(a, Block(chunks[k].base + chunks[k].offset, size))
    ensures Inside(a, chunks[k := Bump(chunks[k], size)][i])
  {
    assert Sound(chunks[i]) && Sound(chunks[k]);
    if i < k {
      assert Apart(chunks[i], chunks[k]);
    } else if k < i {
      assert Apart(chunks[k], chunks[i]);
    }
  }

  /** Handing out the free space of a chunk keeps every block where it was, and overlaps none. */
  lemma BumpHolds(chunks: seq<Chunk>, live: set<Block>, k: nat, size: nat)
    requires Holds(chunks, live) && k < |chunks| && Accepts(chunks[k], size)
    ensures var b := Block(chunks[k].base + chunks[k].offset, size);
            && b.addr % 16 == 0 && b.addr + b.size <= chunks[k].base + chunks[k].capacity
            && (forall a | a in live :: Disjoint(a, b))
            && Holds(chunks[k := Bump(chunks[k], size)], Plus(live, b))
  {
    var c := chunks[k];
    BumpSound(c, size);
    var b := Block(c.base + c.offset, size);
    var chunks' := chunks[k := Bump(c, size)];
    forall a | a in live ensures (exists i | 0 <= i < |chunks'| :: Inside(a, chunks'[i])) && Disjoint(a, b) {
      var i :| 0 <= i < |chunks| && Inside(a, chunks[i]);
      FreeSpaceApart(chunks, live, a, i, k, size);
    }
    hide Rounded, Sound, Inside, Disjoint;
    assert Inside(b, chunks'[k]);
    forall i, j | 0 <= i < j < |chunks'| ensures Apart(chunks'[i], chunks'[j]) {
      assert Apart(chunks[i], chunks[j]);
    }
    DisjointBothWays(live, b);
  }

  lemma DisjointBothWays(live: set<Block>, b: Block)
    requires forall a | a in live :: Disjoint(a, b)
    ensures forall a | a in live :: Disjoint(b, a)
  {
  }

  /** No non-empty live block starts where the free space of a chunk does, so giving one back
    * leaves every chunk as it is: nothing is reused while live, and nothing is reclaimed. */
  lemma UnbumpKeeps(chunks: seq<Chunk>, live: set<Block>, b: Block, k: nat)
    requires Holds(chunks, live) && b in live && k < |chunks|
    ensures b.addr != chunks[k].base + chunks[k].offset
    ensures Unbump(chunks[k], b.addr, b.size) == chunks[k]
  {
    var i :| 0 <= i < |chunks| && Inside(b, chunks[i]);
    assert Sound(chunks[i]) && Sound(chunks[k]);
    if i < k {
      assert Apart(chunks[i], chunks[k]);
    } else if k < i {
      assert Apart(chunks[k], chunks[i]);
    }
  }

  lemma FewerHolds(chunks: seq<Chunk>, live: set<Block>, b: Block)
    requires Holds(chunks, live)
    ensures Holds(chunks, live - {b})
  {
  }

  lemma AddChunk(chunks: seq<Chunk>, live: set<Block>, c: Chunk)
    requires Holds(chunks, live) && Sound(c)
    requires forall i | 0 <= i < |chunks| :: Apart(chunks[i], c)
    ensures Holds(chunks + [c], live)
  {
    var chunks' := chunks + [c];
    forall b | b in live ensures exists i | 0 <= i < |chunks'| :: Inside(b, chunks'[i]) {
      var i :| 0 <= i < |chunks| && Inside(b, chunks[i]);
      assert Inside(b, chunks'[i]);
    }
  }

  /** The capacity of a chunk made for a request. */
  function Capacity(size: nat): nat {
    if Rounded(size) > MIN_CHUNK_SIZE then Rounded(size) else MIN_CHUNK_SIZE
  }

  /** A fresh chunk takes the request it was made for exactly when that rounds to less than 2 MiB, so when
    * it is at least 16 bytes less. */
  lemma FreshChunkAccepts(base: nat, size: nat)
    ensures Accepts(Chunk(base, Capacity(size), 0), size) <==> Rounded(size) < MIN_CHUNK_SIZE
    ensures Rounded(size) < MIN_CHUNK_SIZE <==> size + 16 <= 2 * 1024 * 1024
    ensures Capacity(size) >= 2 * 1024 * 1024 && Capacity(size) >= size
  {
  }

  // Inline storage

  class InlineAllocator {
    var chunk: Chunk
    ghost var live: set<Block>

    ghost predicate Valid()
      reads this
    {
      Holds([chunk], live)
    }

    /** Storage at `base` for `e` bytes, rounded up. */
    constructor (base: nat, e: nat)
      requires base > 0 && base % ALIGN == 0 && e > 0 && base + Rounded(e) < WORD
      ensures Valid() && live == {} && chunk == Chunk(base, Rounded(e), 0)
    {
      chunk := Chunk(base, (e + ALIGN - 1) / ALIGN * ALIGN, 0);
      live := {};
    }

    method Allocate(size: nat) returns (r: Option<nat>)
      requires Valid() && NoWrap(chunk, size)
      modifies this
      ensures Valid()
      ensures r.Some? <==> Accepts(old(chunk), size)
      ensures r.Some? ==>
                && r.value == old(chunk).base + old(chunk).offset
                && chunk == Bump(old(chunk), size) && live == Plus(old(live), Block(r.value, size))
                && Inside(Block(r.value, size), chunk) && r.value % ALIGN == 0
      ensures r.Some? ==> forall a | a in old(live) :: Disjoint(a, Block(r.value, size))
      ensures r.None? ==> chunk == old(chunk) && live == old(live)
    {
      NoWrapExact(chunk, size);
      var bytes := (size + ALIGN - 1) % WORD / ALIGN * ALIGN;
      if (chunk.offset + bytes) % WORD >= chunk.capacity {
        return None;
      }
      BumpHolds([chunk], live, 0, size);
      assert Sound([chunk][0]);
      BumpSound(chunk, size);
      assert [chunk][0 := Bump(chunk, size)] == [Bump(chunk, size)];
      r := Some(chunk.base + chunk.offset);
      chunk := chunk.(offset := (chunk.offset + bytes) % WORD);
      live := Plus(live, Block(r.value, size));
    }

    /** Gives back null, an empty block or a live one; space is not reclaimed. */
    method Deallocate(addr: nat, size: nat)
      requires Valid() && (addr == 0 || size == 0 || Block(addr, size) in live)
      modifies this
      ensures Valid() && chunk == old(chunk)
      ensures live == old(live) - {Block(addr, size)}
    {
      assert Sound([chunk][0]);
      if Block(addr, size) in live {
        UnbumpKeeps([chunk], live, Block(addr, size), 0);
      }
      if addr != 0 && chunk.base + chunk.offset == addr {
        chunk := chunk.(offset := (chunk.offset - size) % WORD);
      }
      FewerHolds([chunk], live, Block(addr, size));
      live := live - {Block(addr, size)};
    }

    predicate Owns(addr: nat, size: nat)
      reads this
    {
      addr != 0 && addr >= chunk.base && addr + size < chunk.base + chunk.capacity
    }

    method Clear()
      requires Valid()
      modifies this
      ensures Valid() && live == {} && chunk == old(chunk).(offset := 0)
    {
      assert Sound([chunk][0]);
      chunk := chunk.(offset := 0);
      live := {};
    }
  }

  // The arena

  predicate SameExtent(c: Chunk, d: Chunk) {
    c.base == d.base && c.capacity == d.capacity
  }

  class ArenaAllocator {
    /** From first to last; the last one is the tail. */
    var chunks: seq<Chunk>
    ghost var live: set<Block>

    ghost predicate Valid()
      reads this
    {
      Holds(chunks, live)
    }

    constructor ()
      ensures Valid() && chunks == [] && live == {}
    {
      chunks := [];
      live := {};
    }

    /** The addresses that the underlying allocator will give, and that they suit chunks for `size`. */
    ghost predicate Supplies(supply: seq<nat>, size: nat)
      reads this
    {
      && (forall i | 0 <= i < |supply| ::
            supply[i] > 0 && supply[i] % ALIGN == 0 && supply[i] + Capacity(size) < WORD)
      && (forall i, j | 0 <= i < |supply| && 0 <= j < |chunks| ::
            Apart(chunks[j], Chunk(supply[i], Capacity(size), 0)))
      && (forall i, j | 0 <= i < j < |supply| ::
            Apart(Chunk(supply[i], Capacity(size), 0), Chunk(supply[j], Capacity(size), 0)))
    }

    /** No arithmetic on the size wraps, neither in the tail nor for a new chunk. */
    predicate Measures(size: nat)
      reads this
    {
      && Rounded(size) + HEADER < WORD
      && (chunks != [] ==> NoWrap(chunks[|chunks| - 1], size))
    }

    /** Hands out the free space of the tail. */
    method TakeTail(size: nat, bytes: nat) returns (r: Option<nat>)
      requires Valid() && chunks != [] && Measures(size) && bytes == Rounded64(size)
      requires Accepts64(chunks[|chunks| - 1], size)
      modifies this
      ensures Valid() && |chunks| == |old(chunks)| && r.Some? && r.value % ALIGN == 0
      ensures forall i | 0 <= i < |chunks| :: SameExtent(chunks[i], old(chunks)[i])
      ensures live == Plus(old(live), Block(r.value, size))
      ensures forall a | a in old(live) :: Disjoint(a, Block(r.value, size))
      ensures Inside(Block(r.value, size), chunks[|chunks| - 1])
    {
      hide Holds, Sound, Inside, Disjoint;
      var t := |chunks| - 1;
      NoWrapExact(chunks[t], size);
      BumpHolds(chunks, live, t, size);
      IsSound(chunks, live, t);
      BumpSound(chunks[t], size);
      r := Some(chunks[t].base + chunks[t].offset);
      chunks := chunks[t := chunks[t].(offset := (chunks[t].offset + bytes) % WORD)];
      live := Plus(live, Block(r.value, size));
    }

    /** A new, empty tail at `base`, big enough for so many bytes and never small. */
    method AddTail(size: nat, bytes: nat, base: nat)
      requires Valid() && bytes == Rounded(size)
      requires base > 0 && base % ALIGN == 0 && base + Capacity(size) < WORD
      requires forall i | 0 <= i < |chunks| :: Apart(chunks[i], Chunk(base, Capacity(size), 0))
      modifies this
      ensures Valid() && chunks == old(chunks) + [Chunk(base, Capacity(size), 0)] && live == old(live)
    {
      hide Holds, Rounded;
      var capacity := if bytes > MIN_CHUNK_SIZE then bytes else MIN_CHUNK_SIZE;
      var chunk := Chunk(base, capacity, 0);
      AddChunk(chunks, live, chunk);
      chunks := chunks + [chunk];
    }

    /** Takes the tail's free space, or that of a new chunk. A request that rounds to 2 MiB or more
      * is never satisfied: it makes chunks until there is no more memory. */
    method Allocate(size: nat, supply: seq<nat>) returns (r: Option<nat>, ghost used: nat)
      requires Valid() && Measures(size) && Supplies(supply, size)
      modifies this
      ensures Valid() && used <= |supply| && |chunks| == |old(chunks)| + used
      ensures forall i | 0 <= i < |old(chunks)| :: SameExtent(chunks[i], old(chunks)[i])
      ensures forall i | 0 <= i < used :: SameExtent(chunks[|old(chunks)| + i], Chunk(supply[i], Capacity(size), 0))
      ensures r.Some? ==> live == Plus(old(live), Block(r.value, size)) && r.value % ALIGN == 0
      ensures r.Some? ==> forall a | a in old(live) :: Disjoint(a, Block(r.value, size))
      ensures r.None? ==> live == old(live)
      ensures var here := old(chunks) != [] && Accepts(old(chunks)[|old(chunks)| - 1], size);
              && (here ==> r.Some? && used == 0)
              && (!here && Rounded(size) < MIN_CHUNK_SIZE ==> (r.Some? <==> supply != []) && used <= 1)
              && (!here && Rounded(size) >= MIN_CHUNK_SIZE ==> r.None? && used == |supply|)
      ensures r.Some? ==> chunks != [] && Inside(Block(r.value, size), chunks[|chunks| - 1])
      decreases |supply|
    {
      hide Holds, Sound, Inside, Disjoint, Rounded, Rounded64, Capacity, Bump64, NoWrap;
      ReachesFresh(size);
      var bytes := (size + ALIGN - 1) % WORD / ALIGN * ALIGN;
      RoundedIs(size, bytes);
      if chunks != [] {
        NoWrapExact(chunks[|chunks| - 1], size);
        AcceptsIs(chunks[|chunks| - 1], size, bytes);
      }
      if chunks != [] && (chunks[|chunks| - 1].offset + bytes) % WORD < chunks[|chunks| - 1].capacity {
        r := TakeTail(size, bytes);
        return r, 0;
      }
      if supply == [] {
        return None, 0;
      }
      AddTail(size, bytes, supply[0]);
      FreshChunkAccepts(supply[0], size);
      FreshFits(supply[0], size);
      r, used := Allocate(size, supply[1..]);
      used := used + 1;
    }

    /** Gives back null, an empty block or a live one; space is not reclaimed. */
    method Deallocate(addr: nat, size: nat)
      requires Valid() && (addr == 0 || Block(addr, size) in live || (size == 0 && chunks != []))
      modifies this
      ensures Valid() && chunks == old(chunks)
      ensures live == old(live) - {Block(addr, size)}
    {
      if Block(addr, size) in live {
        assert Holds(chunks, live);
        UnbumpKeeps(chunks, live, Block(addr, size), |chunks| - 1);
      }
      if addr != 0 && chunks[|chunks| - 1].base + chunks[|chunks| - 1].offset == addr {
        var t := |chunks| - 1;
        chunks := chunks[t := chunks[t].(offset := (chunks[t].offset - size) % WORD)];
      }
      assert chunks == old(chunks);
      FewerHolds(chunks, live, Block(addr, size));
      live := live - {Block(addr, size)};
    }

    method Clear()
      modifies this
      ensures Valid() && chunks == [] && live == {}
    {
      chunks := [];
      live := {};
    }
  }

  // Scratch

  /** The live blocks of both together still do not overlap. */
  lemma Combined(inl: Chunk, a: set<Block>, arena: seq<Chunk>, b: set<Block>)
    requires Holds([inl], a) && Holds(arena, b)
    requires forall i | 0 <= i < |arena| :: Apart(inl, arena[i])
    ensures Holds([inl] + arena, a + b)
  {
    var all := [inl] + arena;
    assert all[0] == inl && all[1..] == arena;
    assert Sound([inl][0]);
    forall x | x in a ensures Inside(x, all[0]) && forall y | y in b :: Disjoint(x, y) && Disjoint(y, x) {
      assert Inside(x, [inl][0]);
      ElsewhereDisjoint(inl, arena, b, x);
    }
    forall y | y in b ensures exists i | 0 <= i < |all| :: Inside(y, all[i]) {
      var i :| 0 <= i < |arena| && Inside(y, arena[i]);
      assert Inside(y, all[i + 1]);
    }
  }

  lemma ElsewhereDisjoint(inl: Chunk, arena: seq<Chunk>, live: set<Block>, b: Block)
    requires Holds(arena, live) && Inside(b, inl) && inl.offset <= inl.capacity
    requires forall i | 0 <= i < |arena| :: Apart(inl, arena[i])
    ensures forall a | a in live :: Disjoint(a, b) && Disjoint(b, a)
  {
    forall a | a in live ensures Disjoint(a, b) && Disjoint(b, a) {
      var i :| 0 <= i < |arena| && Inside(a, arena[i]);
      assert Sound(arena[i]);
    }
  }

  lemma StillApart(inl: Chunk, before: seq<Chunk>, after: seq<Chunk>, supply: seq<nat>, size: nat, used: nat)
    requires |after| == |before| + used && used <= |supply|
    requires forall i | 0 <= i < |before| :: Apart(inl, before[i]) && SameExtent(after[i], before[i])
    requires forall i | 0 <= i < used ::
               && SameExtent(after[|before| + i], Chunk(supply[i], Capacity(size), 0))
               && Apart(inl, Chunk(supply[i], Capacity(size), 0))
    ensures forall i | 0 <= i < |after| :: Apart(inl, after[i])
  {
    hide Capacity;
    forall i | 0 <= i < |after| ensures Apart(inl, after[i]) {
      if i >= |before| {
        var j := i - |before|;
        assert SameExtent(after[|before| + j], Chunk(supply[j], Capacity(size), 0));
      }
    }
  }

  /** A live block is owned by inline storage exactly when it came from there. */
  lemma OwnedOnce(inl: Chunk, a: set<Block>, arena: seq<Chunk>, l: set<Block>, b: Block)
    requires Holds([inl], a) && Holds(arena, l) && b in a + l
    requires forall i | 0 <= i < |arena| :: Apart(inl, arena[i])
    ensures b in a <==> b.addr >= inl.base && b.addr + b.size < inl.base + inl.capacity
    ensures b in a ==> b !in l
    ensures b !in a ==> arena != []
  {
    assert Sound([inl][0]);
    if b in a {
      assert Inside(b, [inl][0]);
      ElsewhereDisjoint(inl, arena, l, b);
    } else {
      var i :| 0 <= i < |arena| && Inside(b, arena[i]);
      assert Sound(arena[i]);
    }
  }

  class ScratchAllocator {
    const inl: InlineAllocator
    const arena: ArenaAllocator

    ghost function Live(): set<Block>
      reads inl, arena
    {
      inl.live + arena.live
    }

    ghost predicate Valid()
      reads inl, arena
    {
      && inl.Valid() && arena.Valid()
      && (forall i | 0 <= i < |arena.chunks| :: Apart(inl.chunk, arena.chunks[i]))
    }

    constructor (base: nat)
      requires base > 0 && base % ALIGN == 0 && base + INSITU < WORD
      ensures Valid() && Live() == {} && fresh(inl) && fresh(arena)
      ensures inl.chunk == Chunk(base, 16384, 0)
    {
      inl := new InlineAllocator(base, INSITU);
      arena := new ArenaAllocator();
    }

    /** Inline storage first, the arena when that is full; live blocks are never touched. */
    method Allocate(size: nat, supply: seq<nat>) returns (r: Option<nat>)
      requires Valid() && NoWrap(inl.chunk, size) && arena.Measures(size) && arena.Supplies(supply, size)
      requires forall i | 0 <= i < |supply| :: Apart(inl.chunk, Chunk(supply[i], Capacity(size), 0))
      modifies inl, arena
      ensures Valid()
      ensures r.Some? ==> Live() == Plus(old(Live()), Block(r.value, size)) && r.value % ALIGN == 0
      ensures r.Some? ==> forall a | a in old(Live()) :: Disjoint(a, Block(r.value, size))
      ensures r.None? ==> Live() == old(Live())
      ensures Accepts(old(inl.chunk), size) ==> r.Some? && arena.chunks == old(arena.chunks)
      ensures Rounded(size) < MIN_CHUNK_SIZE && supply != [] ==> r.Some?
    {
      hide Rounded, Capacity, Disjoint, Inside, NoWrap, Holds;
      r := inl.Allocate(size);
      IsSound([inl.chunk], inl.live, 0);
      if r.Some? {
        ElsewhereDisjoint(inl.chunk, arena.chunks, arena.live, Block(r.value, size));
        return;
      }
      ghost var used;
      r, used := arena.Allocate(size, supply);
      StillApart(inl.chunk, old(arena.chunks), arena.chunks, supply, size, used);
      if r.Some? {
        ghost var tail := arena.chunks[|arena.chunks| - 1];
        IsSound(arena.chunks, arena.live, |arena.chunks| - 1);
        ElsewhereDisjoint(tail, [inl.chunk], inl.live, Block(r.value, size));
      }
    }

    method Deallocate(addr: nat, size: nat)
      requires Valid() && (addr == 0 || Block(addr, size) in Live())
      modifies inl, arena
      ensures Valid() && Live() == old(Live()) - {Block(addr, size)}
      ensures inl.chunk == old(inl.chunk) && arena.chunks == old(arena.chunks)
    {
      ghost var b := Block(addr, size);
      if addr != 0 {
        OwnedOnce(inl.chunk, inl.live, arena.chunks, arena.live, b);
      }
      if inl.Owns(addr, size) {
        inl.Deallocate(addr, size);
      } else {
        arena.Deallocate(addr, size);
      }
    }

    method Clear()
      requires Valid()
      modifies inl, arena
      ensures Valid() && Live() == {}
    {
      inl.Clear();
      arena.Clear();
    }
  }
}
