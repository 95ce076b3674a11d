/** A package's generated header: read by a C++ compiler, every assertion in it holds. */
module CppHeader {
  import opened Common
  import opened Ir
  import opened SdkOrder
  import opened CppTypes
  import opened CppLayout
  import opened CppSdk

  // ---------------------------------------------------------------- what the compiler makes of it

  /** The bytes of each struct defined so far, as a base would contribute them. */
  type Bytes = map<string, int>

  /** sizeof of each: no class is empty. */
  function Sizes(defined: Bytes): map<string, int> { map p | p in defined :: Max(defined[p], 1) }

  function SizeIn(index: TypeIndex, defined: Bytes): CppType -> int {
    ty => SizeOf(index, ty, Sizes(defined))
  }

  function BaseBytes(base: Option<string>, defined: Bytes): int {
    if base.Some? && base.value in defined then defined[base.value] else 0
  }

  /** What is defined after the first n structs of the header. */
  function Compiled(texts: seq<StructText>, n: nat, index: TypeIndex, outer: Bytes): Bytes
    requires n <= |texts|
  {
    if n == 0 then outer else
    var defined, text := Compiled(texts, n - 1, index, outer), texts[n - 1];
    defined[text.path := DataSize(text.decls, BaseBytes(text.base, defined), SizeIn(index, defined))]
  }

  /** The structs that must be complete where a value of the type is declared. */
  function Held(ty: CppType): set<string> {
    match ty
    case StructName(path) => {path}
    case Template(kind, args) => if kind.Optional? && |args| > 0 then Held(args[0]) else {}
    case _ => {}
  }

  function HeldBy(d: Decl): set<string> { if d.Member? then Held(d.ty) else {} }

  /** The compiler accepts it: names are distinct, base and structs held by value complete, and the assertions hold. */
  ghost predicate Accepted(text: StructText, index: TypeIndex, defined: Bytes) {
    var base := BaseBytes(text.base, defined);
    && OwnNames(text.decls) && (text.base.Some? ==> text.base.value in defined)
    && (forall d :: d in text.decls ==> HeldBy(d) <= defined.Keys)
    && OffsetsHold(text, base, SizeIn(index, defined)) && SizeHolds(text, base, SizeIn(index, defined))
  }

  /** The n-th struct compiles with what is defined before it. */
  ghost predicate Compiles(texts: seq<StructText>, n: nat, index: TypeIndex, outer: Bytes)
    requires n < |texts|
  {
    Accepted(texts[n], index, Compiled(texts, n, index, outer))
  }

  // ---------------------------------------------------------------- what a dump must be like

  predicate SameBit(p: Property, q: Property) {
    p.isBitfield && q.isBitfield && p.offset == q.offset && p.bitIndex == q.bitIndex
  }

  /** The bits of one byte are distinct and 0..7. */
  ghost predicate BitsDistinct(properties: multiset<Property>) {
    && (forall p :: p in properties && p.isBitfield ==> 0 <= p.bitIndex < 8)
    && (forall p, q :: p in properties && q in properties && SameBit(p, q) ==> p == q && properties[p] == 1)
  }

  /** The sizes every struct should have. */
  ghost function Engine(index: TypeIndex): map<string, int> {
    map p | p in index.structs :: Max(index.structs[p].size, 1)
  }

  /** A member kept typed: its elements divide its size, and the common header declares its type at theirs. */
  ghost predicate Trusted(index: TypeIndex, p: Property) { Kept(index, p).Some? ==> Right(index, p, Engine(index)) }

  /** The base is the record's, known, and no member starts inside it. */
  ghost predicate Derives(index: TypeIndex, record: Record) {
    && record.super != "" && (record.super in index.structs || record.super in index.enums)
    && (record.properties == [] ==> record.size >= record.inheritedSize)
    && (forall p :: p in record.properties ==> p.offset >= record.inheritedSize)
  }

  predicate BaseFits(index: TypeIndex, record: Record) {
    record.super in index.structs && index.structs[record.super].size == record.inheritedSize <= record.size
  }

  ghost predicate Clean(index: TypeIndex, record: Record) {
    && record.size >= 0 && BitsDistinct(multiset(record.properties))
    && (forall p :: p in record.properties ==>
        p.offset + Extent(p) <= record.size && (!p.isBitfield ==> Trusted(index, p)))
    && (Derives(index, record) ==> BaseFits(index, record))
  }

  /** The headers included define their structs at the engine's sizes. */
  ghost predicate Agrees(index: TypeIndex, defined: Bytes) {
    forall p :: p in defined ==> p in index.structs && defined[p] == index.structs[p].size
  }

  /** What the layout of a record needs defined: its base, and the structs its members hold by value. */
  ghost function LayoutNeeds(index: TypeIndex, record: Record): set<string> {
    (if Derives(index, record) then {record.super} else {})
    + (set p, d | p in record.properties && !p.isBitfield && Kept(index, p).Some? && d in Held(Kept(index, p).value) ::
       d)
  }

  // ---------------------------------------------------------------- sizes in the middle of the header

  /** Each is defined at its size. */
  ghost predicate Complete(index: TypeIndex, needs: set<string>, defined: Bytes) {
    forall d :: d in needs ==> d in index.structs && d in defined && defined[d] == index.structs[d].size
  }

  lemma {:induction false} SizeSettled(index: TypeIndex, ty: CppType, defined: Bytes)
    requires Complete(index, Held(ty), defined)
    ensures SizeOf(index, ty, Sizes(defined)) == SizeOf(index, ty, Engine(index))
  {
    if ty.StructName? {
      assert ty.path in Held(ty);
    } else if ty.Template? && ty.kind.Optional? && |ty.args| > 0 {
      SizeSettled(index, ty.args[0], defined);
    }
  }

  /** With every struct it holds defined, a trusted member takes the engine's bytes. */
  lemma TrustedTakes(index: TypeIndex, p: Property, defined: Bytes)
    requires Trusted(index, p) && Kept(index, p).Some? && Complete(index, Held(Kept(index, p).value), defined)
    ensures SizeIn(index, defined)(Kept(index, p).value) * Count(p) == Total(p)
  {
    SizeSettled(index, Kept(index, p).value, defined);
    GuardIsExact(index, p, Engine(index));
  }

  /** The structs a spelling holds by value are among those its type depends on. */
  lemma {:induction false} HeldIsNeeded(index: TypeIndex, ty: TypeRef, fallback: int)
    requires "" !in index.structs && RenderType(index, ty, fallback).Some?
    ensures Held(RenderType(index, ty, fallback).value) <= ValueDependencies(ty) * index.structs.Keys
    decreases ty
  {
    if ty.kind.Optional? {
      var inner := ty.params[0];
      assert ValueDependencies(inner) <= ValueDependencies(ty);
      if RenderType(index, inner, inner.size).Some? {
        HeldIsNeeded(index, inner, inner.size);
      }
    }
  }

  lemma LayoutIsNeeded(index: TypeIndex, record: Record)
    requires "" !in index.structs
    ensures LayoutNeeds(index, record) <= Needs(record)
  {
    forall p, d | p in record.properties && Kept(index, p).Some? && d in Held(Kept(index, p).value)
      ensures d in Needs(record)
    {
      HeldIsNeeded(index, p.ty, Element(p));
    }
  }

  lemma SortedBits(properties: seq<Property>, props: seq<Property>)
    requires Sorted(props) && multiset(props) == multiset(properties) && BitsDistinct(multiset(properties))
    ensures BitsOk(props)
  {
    forall k {:trigger props[k]} | 0 <= k < |props| && props[k].isBitfield
      ensures 0 <= props[k].bitIndex < 8 && (Follows(props, k) ==> props[k - 1].bitIndex < props[k].bitIndex)
    {
      assert props[k] in multiset(props);
      if Follows(props, k) {
        var p, q := props[k - 1], props[k];
        assert KeyLe(p, q) && p in multiset(props);
        if SameBit(p, q) {
          TwiceInMultiset(props, k);
        }
      }
    }
  }

  lemma TwiceInMultiset(props: seq<Property>, k: nat)
    requires 0 < k < |props| && props[k - 1] == props[k]
    ensures multiset(props)[props[k]] >= 2
  {
    assert props == props[..k - 1] + [props[k - 1], props[k]] + props[k + 1..];
  }

  lemma InheritsIffDerives(index: TypeIndex, record: Record, props: seq<Property>)
    requires Sorted(props) && multiset(props) == multiset(record.properties)
    ensures Inherits(index, record, props) <==> Derives(index, record)
  {
    forall p ensures p in props <==> p in record.properties {
      assert p in multiset(props) <==> p in multiset(record.properties);
    }
    if props == [] {
      assert |multiset(record.properties)| == 0;
    } else {
      assert props[0] in record.properties;
      if Inherits(index, record, props) {
        forall p | p in record.properties ensures p.offset >= record.inheritedSize {
          var k :| 0 <= k < |props| && props[k] == p;
          assert k > 0 ==> KeyLe(props[0], props[k]);
        }
      }
    }
  }

  /** With every struct it needs defined, a clean record lays out. */
  lemma CleanGood(index: TypeIndex, record: Record, props: seq<Property>, defined: Bytes)
    requires Sorted(props) && multiset(props) == multiset(record.properties)
    requires Clean(index, record) && Complete(index, LayoutNeeds(index, record), defined)
    ensures Good(index, props, Start(index, record, props), BaseBytes(Base(index, record, props), defined),
                 SizeIn(index, defined))
    ensures Fits(props, Start(index, record, props), record.size)
    ensures Base(index, record, props).Some? ==> record.super in defined
  {
    InheritsIffDerives(index, record, props);
    SortedBits(record.properties, props);
    assert Derives(index, record) ==> record.super in LayoutNeeds(index, record);
    forall k {:trigger props[k]} | 0 <= k < |props|
      ensures props[k] in record.properties
      ensures !props[k].isBitfield && Kept(index, props[k]).Some? ==>
                SizeIn(index, defined)(Kept(index, props[k]).value) * Count(props[k]) == Total(props[k])
    {
      var p := props[k];
      assert p in multiset(props);
      if !p.isBitfield && Kept(index, p).Some? {
        assert Held(Kept(index, p).value) <= LayoutNeeds(index, record);
        TrustedTakes(index, p, defined);
      }
    }
  }

  /** What the declarations of a record hold by value is what its layout needs. */
  lemma DeclsHold(env: Env, record: Record, props: seq<Property>, start: int, text: StructText, who: Owners)
    requires multiset(props) == multiset(record.properties) && Lists(env, props, |props|, start, text.decls, who)
    ensures forall d :: d in text.decls ==> HeldBy(d) <= LayoutNeeds(env.index, record)
  {
    forall i | 0 <= i < |text.decls| ensures HeldBy(text.decls[i]) <= LayoutNeeds(env.index, record) {
      if text.decls[i].Member? {
        assert who[i].Some?;
        var p := props[who[i].value];
        assert p in multiset(props);
        assert Shows(env, p, text.decls[i]);
      }
    }
  }

  // ---------------------------------------------------------------- the package

  /** The package defines it before the record, or a header included does. */
  ghost predicate Available(d: string, r: Record, paths: set<string>, outer: Bytes, good: set<string>,
                            reported: seq<(string, string)>) {
    if d in paths then d in good && (r.path, d) !in reported else d in outer
  }

  /**
   * Some structs of the package support each other: the dump describes each of them as it should be,
   * and what its layout needs is one of them, with no cycle reported between the two, or included.
   */
  ghost predicate Supported(index: TypeIndex, records: seq<Record>, outer: Bytes, reported: seq<(string, string)>,
                            good: set<string>) {
    && "" !in index.structs && Agrees(index, outer)
    && forall r :: r in records && r.path in good ==>
         && r.path in index.structs && index.structs[r.path] == r && Clean(index, r)
         && forall d :: d in LayoutNeeds(index, r) ==> Available(d, r, PathSet(records), outer, good, reported)
  }

  lemma {:induction false} CompiledPrefix(texts: seq<StructText>, t: StructText, n: nat, index: TypeIndex, outer: Bytes)
    requires n <= |texts|
    ensures Compiled(texts + [t], n, index, outer) == Compiled(texts, n, index, outer)
  {
    if n > 0 {
      CompiledPrefix(texts, t, n - 1, index, outer);
    }
  }

  lemma CompiledMore(texts: seq<StructText>, t: StructText, index: TypeIndex, outer: Bytes)
    ensures var defined := Compiled(texts, |texts|, index, outer);
            Compiled(texts + [t], |texts| + 1, index, outer)
            == defined[t.path := DataSize(t.decls, BaseBytes(t.base, defined), SizeIn(index, defined))]
  {
    CompiledPrefix(texts, t, |texts|, index, outer);
    assert (texts + [t])[|texts|] == t;
  }

  /** Defined at their sizes: the good ones among the first n structs, and what is included from elsewhere. */
  ghost predicate DefinedTo(index: TypeIndex, ordered: seq<Record>, n: nat, outer: Bytes, good: set<string>,
                            defined: Bytes) {
    && n <= |ordered|
    && (forall k {:trigger ordered[k]} :: 0 <= k < n && ordered[k].path in good ==>
          ordered[k].path in index.structs && ordered[k].path in defined
              && defined[ordered[k].path] == index.structs[ordered[k].path].size)
    && (forall d :: d in outer && d !in PathSet(ordered) ==> d in defined && defined[d] == outer[d])
  }

  /** The good ones among the structs so far compile. */
  ghost predicate GoodCompile(ordered: seq<Record>, texts: seq<StructText>, index: TypeIndex, outer: Bytes,
                              good: set<string>) {
    |texts| <= |ordered| && forall k :: 0 <= k < |texts| && ordered[k].path in good ==> Compiles(texts, k, index, outer)
  }

  /** What the loop keeps. */
  ghost predicate Builds(index: TypeIndex, ordered: seq<Record>, texts: seq<StructText>, outer: Bytes,
                         good: set<string>) {
    && GoodCompile(ordered, texts, index, outer, good)
    && DefinedTo(index, ordered, |texts|, outer, good, Compiled(texts, |texts|, index, outer))
  }

  /** The order the package is defined in. */
  ghost predicate Arranged(ordered: seq<Record>, records: seq<Record>, reported: seq<(string, string)>) {
    && Distinct(Paths(ordered)) && PathSet(ordered) == PathSet(records) && (forall r :: r in ordered ==> r in records)
    && NeedsFirst(ordered, PathSet(records), reported)
  }

  lemma NeedsDefined(index: TypeIndex, records: seq<Record>, ordered: seq<Record>, n: nat, outer: Bytes,
                     reported: seq<(string, string)>, good: set<string>, defined: Bytes)
    requires Supported(index, records, outer, reported, good) && Arranged(ordered, records, reported)
    requires n < |ordered| && ordered[n].path in good && DefinedTo(index, ordered, n, outer, good, defined)
    ensures Complete(index, LayoutNeeds(index, ordered[n]), defined)
  {
    var r := ordered[n];
    LayoutIsNeeded(index, r);
    forall d | d in LayoutNeeds(index, r)
      ensures d in index.structs && d in defined && defined[d] == index.structs[d].size
    {
      assert Available(d, r, PathSet(records), outer, good, reported);
      if d in PathSet(records) {
        assert d in PathSet(ordered[..n]);
        var k :| 0 <= k < n && ordered[..n][k].path == d;
        assert ordered[k].path == d;
      }
    }
  }

  lemma GoodCompileMore(ordered: seq<Record>, texts: seq<StructText>, t: StructText, index: TypeIndex, outer: Bytes,
                        good: set<string>)
    requires |texts| < |ordered| && GoodCompile(ordered, texts, index, outer, good)
    requires ordered[|texts|].path in good ==> Accepted(t, index, Compiled(texts, |texts|, index, outer))
    ensures GoodCompile(ordered, texts + [t], index, outer, good)
  {
    forall k | 0 <= k < |texts + [t]| && ordered[k].path in good ensures Compiles(texts + [t], k, index, outer) {
      CompiledPrefix(texts, t, k, index, outer);
      assert k < |texts| ==> Compiles(texts, k, index, outer);
    }
  }

  lemma DefinedMore(index: TypeIndex, ordered: seq<Record>, n: nat, outer: Bytes, good: set<string>, defined: Bytes,
                    size: int)
    requires n < |ordered| && Distinct(Paths(ordered)) && DefinedTo(index, ordered, n, outer, good, defined)
    requires ordered[n].path in good ==> ordered[n].path in index.structs && size == index.structs[ordered[n].path].size
    ensures DefinedTo(index, ordered, n + 1, outer, good, defined[ordered[n].path := size])
  {
    forall k {:trigger ordered[k]} | 0 <= k < n ensures ordered[k].path != ordered[n].path {
      assert Paths(ordered)[k] != Paths(ordered)[n];
    }
    assert ordered[n].path in PathSet(ordered);
  }

  lemma BuildsMore(index: TypeIndex, ordered: seq<Record>, texts: seq<StructText>, outer: Bytes, good: set<string>,
                   t: StructText)
    requires Builds(index, ordered, texts, outer, good) && |texts| < |ordered| && Distinct(Paths(ordered))
    requires t.path == ordered[|texts|].path
    requires var defined := Compiled(texts, |texts|, index, outer);
             t.path in good ==>
               && t.path in index.structs && Accepted(t, index, defined)
               && DataSize(t.decls, BaseBytes(t.base, defined), SizeIn(index, defined)) == index.structs[t.path].size
    ensures Builds(index, ordered, texts + [t], outer, good)
  {
    var defined := Compiled(texts, |texts|, index, outer);
    var size := DataSize(t.decls, BaseBytes(t.base, defined), SizeIn(index, defined));
    GoodCompileMore(ordered, texts, t, index, outer, good);
    CompiledMore(texts, t, index, outer);
    DefinedMore(index, ordered, |texts|, outer, good, defined, size);
  }

  /** A good struct, with what it needs defined. */
  lemma GoodAccepted(env: Env, record: Record, props: seq<Property>, who: Owners, text: StructText, defined: Bytes)
    requires Sorted(props) && multiset(props) == multiset(record.properties)
    requires Clean(env.index, record) && Complete(env.index, LayoutNeeds(env.index, record), defined)
    requires text.base == Base(env.index, record, props) && OwnNames(text.decls)
    requires var start, base := Start(env.index, record, props), BaseBytes(Base(env.index, record, props), defined);
             && Lists(env, props, |props|, start, text.decls, who)
             && text.sizeAssert == (if record.size > 0 then Some(record.size) else None)
             && (Good(env.index, props, start, base, SizeIn(env.index, defined)) ==>
                   && OffsetsHold(text, base, SizeIn(env.index, defined))
                   && DataSize(text.decls, base, SizeIn(env.index, defined))
                      == Max(record.size, Reach(props, |props|, start))
                   && (record.size > 0 ==>
                       (SizeHolds(text, base, SizeIn(env.index, defined)) <==> Fits(props, start, record.size))))
    ensures Accepted(text, env.index, defined)
    ensures DataSize(text.decls, BaseBytes(text.base, defined), SizeIn(env.index, defined)) == record.size
  {
    CleanGood(env.index, record, props, defined);
    DeclsHold(env, record, props, Start(env.index, record, props), text, who);
    FitsIffReach(props, Start(env.index, record, props), record.size);
  }

  /**
   * The text describes the record: there is one declaration for each property that does not overlap, and
   * its offset is asserted unless it is a bit-field.
   */
  ghost predicate Describes(env: Env, record: Record, text: StructText) {
    exists props, who :: DescribesBy(env, record, text, props, who)
  }

  ghost predicate DescribesBy(env: Env, record: Record, text: StructText, props: seq<Property>, who: Owners) {
    var start := Start(env.index, record, props);
    && Sorted(props) && multiset(props) == multiset(record.properties)
    && text.path == record.path && text.base == Base(env.index, record, props)
    && text.sizeAssert == (if record.size > 0 then Some(record.size) else None)
    && Lists(env, props, |props|, start, text.decls, who)
    && EveryMember(props, start, text.decls, who, text.offsetAsserts)
    && OnlyMembers(props, start, text.decls, who, text.offsetAsserts)
    && Skips(props, |props|, start, text.skipped)
  }

  /** In a struct the compiler accepts, every member that is no bit-field stands where the engine has it. */
  lemma AcceptedPlaces(env: Env, record: Record, text: StructText, props: seq<Property>, who: Owners, defined: Bytes,
                       d: nat)
    requires DescribesBy(env, record, text, props, who) && Accepted(text, env.index, defined)
    requires d < |who| && who[d].Some? && !props[who[d].value].isBitfield
    ensures Position(text.decls, d, BaseBytes(text.base, defined), SizeIn(env.index, defined))
            == Spot(props[who[d].value].offset, 0)
  {
    AssertionsPlace(env, props, Start(env.index, record, props), text, who, BaseBytes(text.base, defined),
                    SizeIn(env.index, defined), d);
  }

  /** One struct of the package. */
  method EmitNextStruct(env: Env, record: Record, ghost records: seq<Record>, ghost ordered: seq<Record>,
                        ghost texts: seq<StructText>,
                        ghost outer: Bytes, ghost reported: seq<(string, string)>, ghost good: set<string>)
    returns (text: StructText)
    requires |texts| < |ordered| && record == ordered[|texts|] && Arranged(ordered, records, reported)
    ensures Describes(env, record, text)
    ensures Supported(env.index, records, outer, reported, good) && Builds(env.index, ordered, texts, outer, good) ==>
              Builds(env.index, ordered, texts + [text], outer, good)
  {
    ghost var index, defined := env.index, Compiled(texts, |texts|, env.index, outer);
    ghost var base := if Derives(index, record) then BaseBytes(Some(record.super), defined) else 0;
    ghost var props, who;
    text, props, who := EmitStruct(env, record, base, SizeIn(index, defined));
    assert DescribesBy(env, record, text, props, who);
    if Supported(index, records, outer, reported, good) && Builds(index, ordered, texts, outer, good) {
      if record.path in good {
        NeedsDefined(index, records, ordered, |texts|, outer, reported, good, defined);
        InheritsIffDerives(index, record, props);
        GoodAccepted(env, record, props, who, text, defined);
      }
      BuildsMore(index, ordered, texts, outer, good, text);
    }
  }

  /** One text each for the first n records, in their order. */
  ghost predicate InTurn(env: Env, texts: seq<StructText>, ordered: seq<Record>, n: nat) {
    |texts| == n <= |ordered| && forall k :: 0 <= k < n ==> InPlace(env, texts, ordered, k)
  }

  ghost predicate InPlace(env: Env, texts: seq<StructText>, ordered: seq<Record>, k: nat) {
    k < |texts| && k < |ordered| && Describes(env, ordered[k], texts[k])
  }

  lemma InTurnMore(env: Env, texts: seq<StructText>, ordered: seq<Record>, text: StructText)
    requires InTurn(env, texts, ordered, |texts|) && |texts| < |ordered| && Describes(env, ordered[|texts|], text)
    ensures InTurn(env, texts + [text], ordered, |texts| + 1)
  {
    forall k | 0 <= k < |texts| + 1 ensures InPlace(env, texts + [text], ordered, k) {
      assert k < |texts| ==> InPlace(env, texts, ordered, k);
    }
  }

  /** The structs of the package, in order. */
  method EmitStructs(env: Env, ordered: seq<Record>, ghost records: seq<Record>, ghost outer: Bytes,
                     ghost reported: seq<(string, string)>, ghost good: set<string>)
    returns (texts: seq<StructText>)
    requires Arranged(ordered, records, reported)
    ensures InTurn(env, texts, ordered, |ordered|)
    ensures Supported(env.index, records, outer, reported, good) ==> Builds(env.index, ordered, texts, outer, good)
  {
    texts := [];
    for n := 0 to |ordered|
      invariant InTurn(env, texts, ordered, n)
      invariant Supported(env.index, records, outer, reported, good) ==> Builds(env.index, ordered, texts, outer, good)
    {
      var text := EmitNextStruct(env, ordered[n], records, ordered, texts, outer, reported, good);
      InTurnMore(env, texts, ordered, text);
      texts := texts + [text];
    }
  }

  /**
   * A package. Every path is defined once, by a text that describes its record, and the C++ compiler
   * accepts every struct of any set that supports itself, whatever becomes of the others: names are
   * distinct, the base and what is held by value are complete, every size and offset assertion holds with
   * the sizes of the structs defined before, and the struct has the engine's size.
   */
  method EmitPackage(env: Env, records: seq<Record>, ghost outer: Bytes, ghost good: set<string>)
    returns (ordered: seq<Record>, warnings: seq<(string, string)>, texts: seq<StructText>)
    ensures Arranged(ordered, records, warnings)
    ensures InTurn(env, texts, ordered, |ordered|)
    ensures Supported(env.index, records, outer, warnings, good) ==> Builds(env.index, ordered, texts, outer, good)
  {
    ghost var graph;
    ordered, warnings, graph := TopoSort(records);
    texts := EmitStructs(env, ordered, records, outer, warnings, good);
  }

  /**
   * The whole package supports itself when the dump describes every struct of it, what it needs from
   * other packages is included, and no cycle that was reported passes through a base or a struct held
   * by value: a struct may hold an array of itself.
   */
  lemma PackageSupported(index: TypeIndex, records: seq<Record>, outer: Bytes, reported: seq<(string, string)>)
    requires "" !in index.structs && Agrees(index, outer)
    requires forall r :: r in records ==> r.path in index.structs && index.structs[r.path] == r && Clean(index, r)
    requires forall r, d :: r in records && d in LayoutNeeds(index, r) ==> d in PathSet(records) || d in outer
    requires forall r, d :: r in records && d in LayoutNeeds(index, r) ==> (r.path, d) !in reported
    ensures Supported(index, records, outer, reported, PathSet(records))
  {
  }
}
