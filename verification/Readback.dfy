// What generated types say, read back into syntax without the functions that
// generate them.
module Readback {

  import opened Wrappers
  import opened Outcomes
  import opened Bits
  import opened Growth
  import opened Types
  import opened Layout
  import opened Memory
  import opened Unions
  import opened Typegen

  // Reading

  const Unreadable: AstType := Ident("?")

  /** Bytes of the scalars of a kind. */
  function Width(kind: Kind): nat {
    if kind in {U8, S8, B8} then 1
    else if kind in {U16, S16, B16} then 2
    else if kind in {U32, S32, B32, F32} then 4
    else if kind in {U64, S64, B64, F64} then 8
    else 0
  }

  function Family(kind: Kind): string {
    if kind in {U8, U16, U32, U64} then "Uint"
    else if kind in {S8, S16, S32, S64} then "Sint"
    else if kind in {B8, B16, B32, B64} then "Bool"
    else "Real"
  }

  function InBits(bytes: nat): string {
    if bytes == 1 then "8" else if bytes == 2 then "16" else if bytes == 4 then "32" else "64"
  }

  /** The syntax of a type: scalars by family and width, aggregates by their parts, without padding. */
  function Read(t: CgType): AstType
    decreases t, 0
  {
    if Width(t.kind) > 0 then
      if t.size == t.align == Width(t.kind) && t.types == NoTypes then Ident(Family(t.kind) + InBits(t.size))
      else Unreadable
    else if t.types.NoTypes? then Unreadable
    else
      var list := t.types.list;
      match t.kind
      case STRING => if t.size == 16 && t.align == 8 then Ident("String") else Unreadable
      case PTR =>
        if t.size != 8 || t.align != 8 then Unreadable
        else if |list| == 0 then Ident("Address")
        else if |list| == 1 then Ptr(Read(list[0]))
        else Unreadable
      case SLICE =>
        if t.size == 16 && t.align == 8 && |list| == 2 && list[1] == CgType(U64, 8, 8, 0, NoTypes, None, None)
        then Slice(Read(list[0])) else Unreadable
      case ATOMIC =>
        if |list| == 1 && t.size == list[0].size && t.align == list[0].align then Atom(Read(list[0]))
        else Unreadable
      case ARRAY =>
        if |list| == 1 && t.size == list[0].size * t.extent % W && t.align == list[0].align
        then Array(Read(list[0]), Some(t.extent)) else Unreadable
      case UNION => Union(ReadAll(list))
      case TUPLE =>
        if t.fields.Some? && |t.fields.value| == |list| then Tuple(ReadElems(list, t.fields.value)) else Unreadable
      case _ => Unreadable
  }

  function ReadAll(ts: seq<CgType>): seq<AstType>
    decreases ts, 1
  {
    if ts == [] then []
    else
      var n := |ts| - 1;
      ReadAll(ts[..n]) + [Read(ts[n])]
  }

  /** The elements that are not padding, each with the name at its physical slot. */
  function ReadElems(ts: seq<CgType>, fields: seq<Field>): seq<Elem>
    requires |ts| == |fields|
    decreases ts, 1
  {
    if ts == [] then []
    else
      var n := |ts| - 1;
      var rest := ReadElems(ts[..n], fields[..n]);
      if ts[n].kind == PADDING then rest else rest + [Elem(fields[n].name, Read(ts[n]))]
  }

  // Resolving

  /** Syntax with typedef names replaced by their bodies and groups dropped. */
  function Resolve(unit: seq<Typedef>, t: AstType, fuel: nat): AstType
    decreases fuel, t, 0
  {
    match t
    case Ident(name) =>
      var i := Find(unit, name);
      if name == "Length" then Ident("Uint64")
      else if name in BUILTINS then t
      else if i < |unit| && fuel > 0 then Resolve(unit, unit[i].body, fuel - 1)
      else t
    case Tuple(elems) => Tuple(ResolveElems(unit, elems, fuel))
    case Group(of) => Resolve(unit, of, fuel)
    case Union(variants) => Union(ResolveAll(unit, variants, fuel))
    case Ptr(base) => Ptr(Resolve(unit, base, fuel))
    case Array(base, extent) =>
      Array(Resolve(unit, base, fuel), if extent.Some? then Some(extent.value % W) else None)
    case Slice(base) => Slice(Resolve(unit, base, fuel))
    case Atom(base) => Atom(Resolve(unit, base, fuel))
  }

  function ResolveAll(unit: seq<Typedef>, ts: seq<AstType>, fuel: nat): seq<AstType>
    decreases fuel, ts, 1
  {
    if ts == [] then []
    else
      var n := |ts| - 1;
      ResolveAll(unit, ts[..n], fuel) + [Resolve(unit, ts[n], fuel)]
  }

  function ResolveElems(unit: seq<Typedef>, elems: seq<Elem>, fuel: nat): seq<Elem>
    decreases fuel, elems, 1
  {
    if elems == [] then []
    else
      var n := |elems| - 1;
      assert elems[n].t < elems[n];
      ResolveElems(unit, elems[..n], fuel) + [Elem(elems[n].name, Resolve(unit, elems[n].t, fuel))]
  }

  const BUILTINS: set<string> :=
    {"Uint8", "Uint16", "Uint32", "Uint64", "Sint8", "Sint16", "Sint32", "Sint64",
     "Bool8", "Bool16", "Bool32", "Bool64", "Real32", "Real64", "String", "Address", "Length"}

  // Builtins

  lemma BuiltinNames(name: string)
    ensures Builtin(name).Some? <==> name in BUILTINS
  {
  }

  lemma ScalarReads(kind: Kind)
    requires Width(kind) > 0
    ensures Read(Scalar(kind, Width(kind))) == Ident(Family(kind) + InBits(Width(kind)))
    ensures kind != PADDING
  {
    hide Family, InBits;
  }

  lemma IntegersSpelled()
    ensures Family(U8) + InBits(1) == "Uint8" && Family(U16) + InBits(2) == "Uint16"
    ensures Family(U32) + InBits(4) == "Uint32" && Family(U64) + InBits(8) == "Uint64"
    ensures Family(S8) + InBits(1) == "Sint8" && Family(S16) + InBits(2) == "Sint16"
    ensures Family(S32) + InBits(4) == "Sint32" && Family(S64) + InBits(8) == "Sint64"
  {
  }

  lemma OthersSpelled()
    ensures Family(B8) + InBits(1) == "Bool8" && Family(B16) + InBits(2) == "Bool16"
    ensures Family(B32) + InBits(4) == "Bool32" && Family(B64) + InBits(8) == "Bool64"
    ensures Family(F32) + InBits(4) == "Real32" && Family(F64) + InBits(8) == "Real64"
  {
  }

  lemma Widths()
    ensures Width(U8) == 1 && Width(U16) == 2 && Width(U32) == 4 && Width(U64) == 8
    ensures Width(S8) == 1 && Width(S16) == 2 && Width(S32) == 4 && Width(S64) == 8
    ensures Width(B8) == 1 && Width(B16) == 2 && Width(B32) == 4 && Width(B64) == 8
    ensures Width(F32) == 4 && Width(F64) == 8
  {
  }

  lemma WordsRead()
    ensures Read(String) == Ident("String") && Read(Pointer(None)) == Ident("Address")
    ensures String.kind != PADDING && Pointer(None).kind != PADDING
  {
  }

  /** Every other builtin is a scalar, and its name spells its family and width. */
  lemma BuiltinSpelled(name: string)
    requires Builtin(name).Some? && name != "String" && name != "Address"
    ensures var t := Builtin(name).value;
            && Width(t.kind) > 0 && t == Scalar(t.kind, Width(t.kind))
            && Family(t.kind) + InBits(Width(t.kind)) == if name == "Length" then "Uint64" else name
  {
    IntegersSpelled();
    OthersSpelled();
    Widths();
    hide Family, InBits, Width, String, Pointer;
  }

  /** A builtin name reads back from its type. */
  lemma BuiltinReads(name: string)
    requires Builtin(name).Some?
    ensures Read(Builtin(name).value) == Ident(if name == "Length" then "Uint64" else name)
    ensures Builtin(name).value.kind != PADDING
  {
    hide *;
    if name == "String" || name == "Address" {
      WordsRead();
      BuiltinWords();
    } else {
      BuiltinSpelled(name);
      ScalarReads(Builtin(name).value.kind);
    }
  }

  lemma BuiltinWords()
    ensures Builtin("String") == Some(String) && Builtin("Address") == Some(Pointer(None))
  {
  }

  // Tuples

  lemma ReadNext(ts: seq<CgType>, fields: seq<Field>, t: CgType, f: Field)
    requires |ts| == |fields|
    ensures ReadElems(ts + [t], fields + [f])
         == ReadElems(ts, fields) + if t.kind == PADDING then [] else [Elem(f.name, Read(t))]
  {
    hide Read;
    assert (ts + [t])[..|ts|] == ts && (fields + [f])[..|fields|] == fields;
  }

  /** Padding adds nothing to read. */
  lemma PadReads(p: Partial, aligned: nat, host: Host)
    requires |p.padded| == |p.fields| && PadTo(p, aligned, true, host).Done?
    ensures var q := PadTo(p, aligned, true, host).value;
            |q.padded| == |q.fields| && ReadElems(q.padded, q.fields) == ReadElems(p.padded, p.fields)
  {
    hide Pow2, Room, ReadElems;
    var n := (aligned - p.offset) % W;
    if n != 0 {
      ReadNext(p.padded, p.fields, PaddingType(n), Blank);
    }
  }

  lemma PutReads(p: Partial, t: CgType, f: Field, host: Host)
    requires |p.padded| == |p.fields| && Put(p, t, Some(f), host).Done? && t.kind != PADDING
    ensures var q := Put(p, t, Some(f), host).value;
            && |q.padded| == |q.fields|
            && ReadElems(q.padded, q.fields) == ReadElems(p.padded, p.fields) + [Elem(f.name, Read(t))]
  {
    hide Pow2, PadTo, AlignUp, ReadElems, Read;
    if t.kind == VA {
      ReadNext(p.padded, p.fields, t, f);
    } else {
      PadReads(p, AlignUp(p.offset, t.align), host);
      var q := PadTo(p, AlignUp(p.offset, t.align), true, host).value;
      ReadNext(q.padded, q.fields, t, f);
    }
  }

  lemma {:induction false} LayReads(info: TupleInfo, n: nat, host: Host)
    requires info.Valid() && info.fields.Some? && n <= |info.types| && Lay(info, n, host).Done?
    requires forall k | 0 <= k < |info.types| :: info.types[k].kind != PADDING
    ensures var p := Lay(info, n, host).value;
            && |p.padded| == |p.fields|
            && ReadElems(p.padded, p.fields) == ReadElems(info.types[..n], info.fields.value[..n])
  {
    hide ReadElems, Read, Put;
    if n > 0 {
      var ts, fs := info.types, info.fields.value;
      LayReads(info, n - 1, host);
      PutReads(Lay(info, n - 1, host).value, ts[n - 1], fs[n - 1], host);
      assert ts[..n] == ts[..n - 1] + [ts[n - 1]] && fs[..n] == fs[..n - 1] + [fs[n - 1]];
      ReadNext(ts[..n - 1], fs[..n - 1], ts[n - 1], fs[n - 1]);
    }
  }

  /** A tuple that is made reads as its elements in their order, under their names. */
  lemma TupleReads(info: TupleInfo, host: Host)
    requires info.Valid() && info.fields.Some? && TupleType(info, host).Done?
    requires forall k | 0 <= k < |info.types| :: info.types[k].kind != PADDING
    ensures Read(TupleType(info, host).value) == Tuple(ReadElems(info.types, info.fields.value))
    ensures TupleType(info, host).value.kind == TUPLE && TupleType(info, host).value.name == info.named
  {
    hide *;
    TupleTypeMeans(info, host);
    var n := |info.types|;
    FieldForEach(info);
    LayReads(info, n, host);
    assert info.types[..n] == info.types && info.fields.value[..n] == info.fields.value;
    var p := Lay(info, n, host).value;
    FinishMeans(p, info.named, host);
    PadReads(p, AlignUp(p.offset, p.alignment), host);
    TupleRead(TupleType(info, host).value);
  }

  lemma FieldForEach(info: TupleInfo)
    requires info.Valid() && info.fields.Some?
    ensures |info.fields.value| == |info.types|
  {
  }

  lemma TupleRead(t: CgType)
    requires t.kind == TUPLE && t.types.Types? && t.fields.Some? && |t.fields.value| == |t.types.list|
    ensures Read(t) == Tuple(ReadElems(t.types.list, t.fields.value))
  {
    hide ReadElems;
  }

  // Expansions

  /** Whatever is generated reads back as the syntax it was generated from. */
  lemma {:induction false} ExpansionReads(unit: seq<Typedef>, host: Host, t: AstType, named: Option<string>, fuel: nat)
    requires Expand(unit, host, t, named, fuel).Done?
    ensures var r := Expand(unit, host, t, named, fuel).value;
            Read(r) == Resolve(unit, t, fuel) && r.kind != PADDING
    decreases fuel, t, 0
  {
    hide Read, TupleType, UnionSlots, BUILTINS;
    match t
    case Ident(name) =>
      BuiltinNames(name);
      if Builtin(name).Some? {
        BuiltinReads(name);
        LengthBuiltin();
      } else {
        var i := Find(unit, name);
        LengthBuiltin();
        ExpansionReads(unit, host, unit[i].body, Some(unit[i].name), fuel - 1);
      }
    case Tuple(elems) =>
      if elems == [] {
        UnitReads();
      } else {
        ElemsRead(unit, host, elems, fuel);
        TupleReads(TupleInfo(ExpandElems(unit, host, elems, fuel).value, Some(Fields(elems)), named), host);
      }
    case Group(of) => ExpansionReads(unit, host, of, named, fuel);
    case Union(variants) =>
      VariantsRead(unit, host, variants, fuel);
      UnionReads(ExpandAll(unit, host, variants, fuel).value, named);
    case Ptr(base) =>
      ExpansionReads(unit, host, base, None, fuel);
      PointerReads(Expand(unit, host, base, None, fuel).value, named);
    case Array(base, extent) =>
      ExpansionReads(unit, host, base, None, fuel);
      ArrayReads(Expand(unit, host, base, None, fuel).value, extent.value % W, named);
    case Slice(base) =>
      ExpansionReads(unit, host, base, None, fuel);
      SliceReads(Expand(unit, host, base, None, fuel).value);
    case Atom(base) =>
      ExpansionReads(unit, host, base, None, fuel);
      AtomReads(Expand(unit, host, base, None, fuel).value, named);
  }

  /** Whatever is generated is readable. */
  lemma {:induction false} Resolved(unit: seq<Typedef>, host: Host, t: AstType, named: Option<string>, fuel: nat)
    requires Expand(unit, host, t, named, fuel).Done?
    ensures Resolve(unit, t, fuel) != Unreadable
    decreases fuel, t
  {
    hide ExpandElems, ExpandAll, ResolveElems, ResolveAll;
    match t
    case Ident(name) =>
      BuiltinNames(name);
      if name !in BUILTINS {
        var i := Find(unit, name);
        LengthBuiltin();
        Resolved(unit, host, unit[i].body, Some(unit[i].name), fuel - 1);
      }
    case Group(of) => Resolved(unit, host, of, named, fuel);
    case _ =>
  }

  /** Integers and addresses, as they are spelled. */
  const ATOMS: set<AstType> :=
    {Ident("Uint8"), Ident("Uint16"), Ident("Uint32"), Ident("Uint64"),
     Ident("Sint8"), Ident("Sint16"), Ident("Sint32"), Ident("Sint64"), Ident("Address")}

  lemma ScalarAtoms(t: CgType)
    requires Width(t.kind) > 0 && Read(t) != Unreadable
    ensures Atomable(t) <==> Read(t) in ATOMS
  {
    IntegersSpelled();
    OthersSpelled();
    Widths();
    ScalarReads(t.kind);
    hide Family, InBits;
  }

  lemma OtherAtoms(t: CgType)
    requires Width(t.kind) == 0 && Read(t) != Unreadable
    ensures Atomable(t) <==> Read(t).Ptr? || Read(t) in ATOMS
  {
    hide ReadAll, ReadElems;
  }

  /** Given its base, an array type is generated exactly when it has an extent, and an atomic type exactly when
    * the base is an integer, an address or a pointer behind its typedefs. */
  lemma ArraysAndAtoms(unit: seq<Typedef>, host: Host, base: AstType, extent: Option<nat>, named: Option<string>,
                       fuel: nat)
    requires Expand(unit, host, base, None, fuel).Done?
    ensures Expand(unit, host, Array(base, extent), named, fuel).Done? <==> extent.Some?
    ensures Expand(unit, host, Array(base, extent), named, fuel).Failed? <==> extent.None?
    ensures var of := Resolve(unit, base, fuel);
            && (Expand(unit, host, Atom(base), named, fuel).Done? <==> of.Ptr? || of in ATOMS)
            && (Expand(unit, host, Atom(base), named, fuel).Failed? <==> !of.Ptr? && of !in ATOMS)
  {
    ExpansionReads(unit, host, base, None, fuel);
    Resolved(unit, host, base, None, fuel);
    hide Resolve, Read, ATOMS, Atomable;
    var b := Expand(unit, host, base, None, fuel).value;
    if Width(b.kind) > 0 {
      ScalarAtoms(b);
      ScalarNotPointer(b);
    } else {
      OtherAtoms(b);
    }
  }

  lemma ScalarNotPointer(t: CgType)
    requires Width(t.kind) > 0
    ensures !Read(t).Ptr?
  {
    hide ReadAll, ReadElems;
  }

  lemma LengthBuiltin()
    ensures Builtin("Length").Some? && "Length" in BUILTINS
  {
  }

  lemma UnitReads()
    ensures Read(UnitType) == Tuple([]) && UnitType.kind != PADDING
  {
  }

  lemma PointerReads(base: CgType, named: Option<string>)
    ensures Read(PointerTo(base, named)) == Ptr(Read(base)) && PointerTo(base, named).kind == PTR
  {
  }

  lemma SliceReads(base: CgType)
    ensures Read(SliceOf(base)) == Slice(Read(base)) && SliceOf(base).kind == SLICE
  {
  }

  lemma AtomReads(base: CgType, named: Option<string>)
    ensures Read(AtomOf(base, named)) == Atom(Read(base)) && AtomOf(base, named).kind == ATOMIC
  {
  }

  lemma ArrayReads(base: CgType, extent: nat, named: Option<string>)
    ensures Read(ArrayType(base, extent, named)) == Array(Read(base), Some(extent))
    ensures ArrayType(base, extent, named).kind == ARRAY
  {
    hide Pow2;
  }

  lemma UnionReads(ts: seq<CgType>, named: Option<string>)
    ensures Read(UnionType(ts, named)) == Union(ReadAll(ts)) && UnionType(ts, named).kind == UNION
  {
    hide Pow2, ReadAll;
  }

  lemma {:induction false} VariantsRead(unit: seq<Typedef>, host: Host, ts: seq<AstType>, fuel: nat)
    requires ExpandAll(unit, host, ts, fuel).Done?
    ensures ReadAll(ExpandAll(unit, host, ts, fuel).value) == ResolveAll(unit, ts, fuel)
    decreases fuel, ts, 1
  {
    hide Read, Resolve;
    if ts != [] {
      var n := |ts| - 1;
      VariantsRead(unit, host, ts[..n], fuel);
      ExpansionReads(unit, host, ts[n], None, fuel);
      var all := ExpandAll(unit, host, ts, fuel).value;
      assert all[..n] == ExpandAll(unit, host, ts[..n], fuel).value;
    }
  }

  lemma {:induction false} ElemsRead(unit: seq<Typedef>, host: Host, elems: seq<Elem>, fuel: nat)
    requires ExpandElems(unit, host, elems, fuel).Done?
    ensures var types := ExpandElems(unit, host, elems, fuel).value;
            && ReadElems(types, Fields(elems)) == ResolveElems(unit, elems, fuel)
            && forall k | 0 <= k < |types| :: types[k].kind != PADDING
    decreases fuel, elems, 1
  {
    hide Read, Resolve;
    if elems != [] {
      var n := |elems| - 1;
      ElemsRead(unit, host, elems[..n], fuel);
      assert elems[n].t < elems[n];
      ExpansionReads(unit, host, elems[n].t, None, fuel);
      var all := ExpandElems(unit, host, elems, fuel).value;
      assert all[..n] == ExpandElems(unit, host, elems[..n], fuel).value;
      assert Fields(elems)[..n] == Fields(elems[..n]);
    }
  }

  // Names

  /** The name a type goes by: that of the last typedef on the way to it, where its syntax takes one. */
  function NameOf(unit: seq<Typedef>, t: AstType, named: Option<string>, fuel: nat): Option<string>
    decreases fuel, t
  {
    match t
    case Ident(name) =>
      var i := Find(unit, name);
      if name in BUILTINS || i == |unit| || fuel == 0 then None
      else NameOf(unit, unit[i].body, Some(name), fuel - 1)
    case Group(of) => NameOf(unit, of, named, fuel)
    case Slice(_) => None
    case Tuple(elems) => if elems == [] then Some(".Unit") else named
    case _ => named
  }

  lemma {:induction false} ExpansionNamed(unit: seq<Typedef>, host: Host, t: AstType, named: Option<string>, fuel: nat)
    requires Expand(unit, host, t, named, fuel).Done?
    ensures Expand(unit, host, t, named, fuel).value.name == NameOf(unit, t, named, fuel)
    decreases fuel, t
  {
    hide TupleType, UnionSlots, BUILTINS, Read;
    match t
    case Ident(name) =>
      BuiltinNames(name);
      if Builtin(name).None? {
        var i := Find(unit, name);
        ExpansionNamed(unit, host, unit[i].body, Some(unit[i].name), fuel - 1);
      }
    case Tuple(elems) =>
      if elems != [] {
        ElemsRead(unit, host, elems, fuel);
        TupleReads(TupleInfo(ExpandElems(unit, host, elems, fuel).value, Some(Fields(elems)), named), host);
      }
    case Group(of) => ExpansionNamed(unit, host, of, named, fuel);
    case _ =>
  }
}
