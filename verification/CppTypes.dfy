/** How the C++ SDK spells a type, the size it expects of it, and the size C++ gives it. */
module CppTypes {
  import opened Common
  import opened Ir

  /** The dump by path, and the size that most uses of each kind reported. */
  datatype TypeIndex = TypeIndex(structs: map<string, Record>, enums: map<string, EnumRecord>,
                                 sizes: map<TypeKind, int>)

  function Measured(index: TypeIndex, kind: TypeKind): int {
    if kind in index.sizes then index.sizes[kind] else 0
  }

  function UnderlyingSize(underlying: string): int {
    if underlying == "int8" || underlying == "uint8" then 1
    else if underlying == "int16" || underlying == "uint16" then 2
    else if underlying == "int32" || underlying == "uint32" then 4
    else if underlying == "int64" || underlying == "uint64" then 8
    else 0
  }

  function Lowest(values: seq<EnumValue>): int {
    if values == [] then 0 else Min(Lowest(values[..|values| - 1]), values[|values| - 1].value)
  }

  function Highest(values: seq<EnumValue>): int {
    if values == [] then 0 else Max(Highest(values[..|values| - 1]), values[|values| - 1].value)
  }

  /** The bytes the enumerators need. */
  function NeededSize(lowest: int, highest: int): int {
    if lowest < 0 then
      if lowest >= -128 && highest <= 127 then 1
      else if lowest >= -32768 && highest <= 32767 then 2
      else if lowest >= -2147483648 && highest <= 2147483647 then 4
      else 8
    else
      if highest <= 0xFF then 1
      else if highest <= 0xFFFF then 2
      else if highest <= 0xFFFF_FFFF then 4
      else 8
  }

  function SizedName(bytes: int, signed: bool): string {
    match bytes
    case 1 => if signed then "int8" else "uint8"
    case 2 => if signed then "int16" else "uint16"
    case 4 => if signed then "int32" else "uint32"
    case _ => if signed then "int64" else "uint64"
  }

  /** The enum's declared type, widened when the enumerators do not fit. */
  function EnumUnderlying(record: EnumRecord): string {
    var declared := if record.underlying == "" then "uint8" else record.underlying;
    var lowest, highest := Lowest(record.values), Highest(record.values);
    var needed := NeededSize(lowest, highest);
    if UnderlyingSize(declared) >= needed && (lowest >= 0 || declared[0] == 'i') then declared
    else SizedName(needed, lowest < 0)
  }

  /** The loop over the enumerators. */
  method FindUnderlying(record: EnumRecord) returns (underlying: string)
    ensures underlying == EnumUnderlying(record)
  {
    var lowest, highest := 0, 0;
    for n := 0 to |record.values|
      invariant lowest == Lowest(record.values[..n]) && highest == Highest(record.values[..n])
    {
      assert record.values[..n + 1][..n] == record.values[..n];
      lowest, highest := Min(lowest, record.values[n].value), Max(highest, record.values[n].value);
    }
    assert record.values[..|record.values|] == record.values;
    var declared := if record.underlying == "" then "uint8" else record.underlying;
    var needed := NeededSize(lowest, highest);
    underlying := if UnderlyingSize(declared) >= needed && (lowest >= 0 || declared[0] == 'i') then declared
                  else SizedName(needed, lowest < 0);
  }

  /** The bounds are the least and the greatest of the enumerators and zero. */
  lemma {:induction false} BoundsAre(values: seq<EnumValue>)
    ensures Lowest(values) <= 0 <= Highest(values)
    ensures forall v :: v in values ==> Lowest(values) <= v.value <= Highest(values)
    ensures Lowest(values) == 0 || exists v :: v in values && v.value == Lowest(values)
    ensures Highest(values) == 0 || exists v :: v in values && v.value == Highest(values)
  {
    if values != [] {
      var front, last := values[..|values| - 1], values[|values| - 1];
      BoundsAre(front);
      assert values == front + [last] && last in values;
      assert forall v :: v in front ==> v in values;
    }
  }

  predicate IsSigned(underlying: string) { underlying != "" && underlying[0] == 'i' && UnderlyingSize(underlying) > 0 }

  function LeastOf(underlying: string): int { if IsSigned(underlying) then -GreatestOf(underlying) - 1 else 0 }

  function GreatestOf(underlying: string): int {
    match UnderlyingSize(underlying)
    case 1 => if IsSigned(underlying) then 0x7F else 0xFF
    case 2 => if IsSigned(underlying) then 0x7FFF else 0xFFFF
    case 4 => if IsSigned(underlying) then 0x7FFF_FFFF else 0xFFFF_FFFF
    case 8 => if IsSigned(underlying) then 0x7FFF_FFFF_FFFF_FFFF else 0xFFFF_FFFF_FFFF_FFFF
    case _ => -1
  }

  /** The type can hold the value. */
  predicate Holds(underlying: string, value: int) { LeastOf(underlying) <= value <= GreatestOf(underlying) }

  /** Nothing is negative, and the signed type declared is as wide as needed but one bit short. */
  predicate OneBitShort(underlying: string, lowest: int, highest: int) {
    && lowest >= 0 && IsSigned(underlying)
    && GreatestOf(underlying) < highest <= 2 * GreatestOf(underlying) + 1
  }

  lemma BoundsFit(record: EnumRecord)
    requires var v := record.values; -0x8000_0000_0000_0000 <= Lowest(v) && Highest(v) <= 0x7FFF_FFFF_FFFF_FFFF
    ensures var u, v := EnumUnderlying(record), record.values;
            Holds(u, Lowest(v)) && Holds(u, Highest(v)) <==> !OneBitShort(record.underlying, Lowest(v), Highest(v))
  {
    var v := record.values;
    BoundsAre(v);
    DeclaredFits(if record.underlying == "" then "uint8" else record.underlying, Lowest(v), Highest(v));
    SizedFits(Lowest(v), Highest(v));
  }

  lemma DeclaredFits(declared: string, lowest: int, highest: int)
    requires -0x8000_0000_0000_0000 <= lowest <= 0 <= highest <= 0x7FFF_FFFF_FFFF_FFFF
    ensures UnderlyingSize(declared) >= NeededSize(lowest, highest) && (lowest >= 0 || declared[0] == 'i')
            ==> (Holds(declared, lowest) && Holds(declared, highest) <==> !OneBitShort(declared, lowest, highest))
    ensures OneBitShort(declared, lowest, highest) ==> UnderlyingSize(declared) >= NeededSize(lowest, highest)
  {
  }

  lemma SizedFits(lowest: int, highest: int)
    requires -0x8000_0000_0000_0000 <= lowest <= 0 <= highest <= 0x7FFF_FFFF_FFFF_FFFF
    ensures var sized := SizedName(NeededSize(lowest, highest), lowest < 0);
            Holds(sized, lowest) && Holds(sized, highest)
  {
  }

  /**
   * Every 64-bit enumerator fits the type chosen, except when the type declared is signed, nothing is
   * negative, and the greatest enumerator needs the sign bit.
   */
  lemma EnumeratorsFit(record: EnumRecord)
    requires forall v :: v in record.values ==> -0x8000_0000_0000_0000 <= v.value <= 0x7FFF_FFFF_FFFF_FFFF
    ensures (forall v :: v in record.values ==> Holds(EnumUnderlying(record), v.value))
            <==> !OneBitShort(record.underlying, Lowest(record.values), Highest(record.values))
  {
    var u, values := EnumUnderlying(record), record.values;
    BoundsAre(values);
    BoundsFit(record);
    EnumHasWidth(record);
    WidthHoldsZero(u);
  }

  lemma WidthHoldsZero(underlying: string)
    requires UnderlyingSize(underlying) in {1, 2, 4, 8}
    ensures Holds(underlying, 0)
  {
  }

  /** An int8 with an enumerator 200 stays an int8. */
  lemma SignBitLost()
    ensures var record := EnumRecord("/Script/Game.EState", "int8", [EnumValue("Late", 200)]);
            EnumUnderlying(record) == "int8" && !Holds(EnumUnderlying(record), 200)
  {
    var values := [EnumValue("Late", 200)];
    assert values[..0] == [];
    assert Highest(values) == Max(Highest(values[..0]), 200);
    assert Lowest(values) == Min(Lowest(values[..0]), 200);
  }

  /** Whatever the dump declared, the enum emitted has one of C++'s four widths, and no less than it needs. */
  lemma EnumHasWidth(record: EnumRecord)
    ensures UnderlyingSize(EnumUnderlying(record)) in {1, 2, 4, 8}
    ensures UnderlyingSize(EnumUnderlying(record)) >= NeededSize(Lowest(record.values), Highest(record.values))
  {
  }

  function DeclaredType(record: EnumRecord): string { if record.underlying == "" then "uint8" else record.underlying }

  /** The type declared stays when it holds every enumerator. */
  lemma DeclaredStays(record: EnumRecord)
    requires UnderlyingSize(DeclaredType(record)) > 0
    requires forall v :: v in record.values ==> Holds(DeclaredType(record), v.value)
    ensures EnumUnderlying(record) == DeclaredType(record)
  {
    BoundsAre(record.values);
    var lowest, highest := Lowest(record.values), Highest(record.values);
    assert Holds(DeclaredType(record), lowest) && Holds(DeclaredType(record), highest);
  }

  /** When it does not stay, the one taken instead is signed if something is negative, and no wider than it must be. */
  lemma WidenedIsLeast(record: EnumRecord, narrower: string)
    requires EnumUnderlying(record) != DeclaredType(record)
    requires narrower in ["int8", "uint8", "int16", "uint16", "int32", "uint32"]
    requires IsSigned(narrower) == IsSigned(EnumUnderlying(record))
    requires UnderlyingSize(narrower) < UnderlyingSize(EnumUnderlying(record))
    ensures IsSigned(EnumUnderlying(record)) <==> exists v :: v in record.values && v.value < 0
    ensures exists v :: v in record.values && !Holds(narrower, v.value)
  {
    BoundsAre(record.values);
    var lowest, highest := Lowest(record.values), Highest(record.values);
    assert !(Holds(narrower, lowest) && Holds(narrower, highest));
  }

  // ---------------------------------------------------------------- spelling

  /** A spelling: what of it decides the size. */
  datatype CppType =
    | Builtin(kind: TypeKind)
    | SizedInteger(bytes: int)
    | EnumName(path: string)
    | StructName(path: string)
    | Template(kind: TypeKind, args: seq<CppType>)
    | Unresolved

  predicate IsPointerTemplate(kind: TypeKind) {
    kind.ClassPtr? || kind.WeakPtr? || kind.LazyPtr? || kind.SoftPtr? || kind.SoftClassPtr? || kind.Interface?
  }

  /** The spelling of a type whose use reports `fallback` bytes, or none when there is no faithful one. */
  function RenderType(index: TypeIndex, ty: TypeRef, fallback: int): Option<CppType>
    decreases ty, 0
  {
    match ty.kind
    case Unknown => None
    case Enumeration =>
      if ty.name !in index.enums then None else
      var declared := UnderlyingSize(EnumUnderlying(index.enums[ty.name]));
      if fallback > 0 && declared > 0 && declared != fallback then
        if fallback in {1, 2, 4, 8} then Some(SizedInteger(fallback)) else None
      else Some(EnumName(ty.name))
    case Struct => if ty.name in index.structs then Some(StructName(ty.name)) else None
    case Array => if |ty.params| == 1 then Some(Template(ty.kind, [RenderInner(index, ty.params[0])])) else None
    case Set => if |ty.params| == 1 then Some(Template(ty.kind, [RenderInner(index, ty.params[0])])) else None
    case Optional => if |ty.params| == 1 then Some(Template(ty.kind, [RenderInner(index, ty.params[0])])) else None
    case Map =>
      if |ty.params| == 2
      then Some(Template(ty.kind, [RenderInner(index, ty.params[0]), RenderInner(index, ty.params[1])])) else None
    case _ => Some(if IsPointerTemplate(ty.kind) then Template(ty.kind, []) else Builtin(ty.kind))
  }

  function RenderInner(index: TypeIndex, ty: TypeRef): CppType
    decreases ty, 1
  {
    match RenderType(index, ty, ty.size)
    case Some(rendered) => rendered
    case None => Unresolved
  }

  /** What the emitter takes the C++ size to be; 0 when it does not know. */
  function ExpectedSize(index: TypeIndex, ty: TypeRef): int {
    match ty.kind
    case Bool | Int8 | UInt8 => 1
    case Int16 | UInt16 => 2
    case Int32 | UInt32 | Float => 4
    case Int64 | UInt64 | Double | ObjectPtr => 8
    case Enumeration => if ty.name in index.enums then UnderlyingSize(EnumUnderlying(index.enums[ty.name])) else 0
    case Struct => if ty.name in index.structs then index.structs[ty.name].size else 0
    case _ => Measured(index, ty.kind)
  }

  // ---------------------------------------------------------------- what C++ makes of it

  /** The size the common header gives an opaque type: measured, or a default. */
  function Declared(index: TypeIndex, kind: TypeKind, default_: int): int {
    if Measured(index, kind) > 0 then Measured(index, kind) else default_
  }

  function RoundUp(size: int, align: int): int
    requires align > 0
  {
    (size + align - 1) / align * align
  }

  /** Generated structs and the opaque types are packed; the rest has its natural alignment. */
  function AlignOf(index: TypeIndex, ty: CppType): (align: int)
    ensures align > 0
  {
    match ty
    case Builtin(kind) =>
      (match kind
       case Int16 | UInt16 => 2
       case Int32 | UInt32 | Float | Name => 4
       case Int64 | UInt64 | Double | ObjectPtr | String => 8
       case _ => 1)
    case SizedInteger(bytes) => if bytes > 0 then bytes else 1
    case EnumName(path) =>
      if path in index.enums
      then (EnumHasWidth(index.enums[path]); UnderlyingSize(EnumUnderlying(index.enums[path])))
      else 1
    case StructName(_) => 1
    case Template(kind, args) =>
      if kind.Array? || kind.ClassPtr? then 8
      else if kind.Optional? && |args| > 0 then AlignOf(index, args[0])
      else 1
    case Unresolved => 1
  }

  /** sizeof, given the sizeof of every struct defined so far. */
  function SizeOf(index: TypeIndex, ty: CppType, defined: map<string, int>): int {
    match ty
    case Builtin(kind) =>
      (match kind
       case Bool | Int8 | UInt8 => 1
       case Int16 | UInt16 => 2
       case Int32 | UInt32 | Float => 4
       case Int64 | UInt64 | Double | ObjectPtr | Name => 8
       case String => 16
       case Text => Declared(index, kind, 0x18)
       case Delegate => Declared(index, kind, 0x10)
       case MulticastDelegate => Declared(index, kind, 0x10)
       case FieldPath => Declared(index, kind, 0x20)
       case _ => 0)
    case SizedInteger(bytes) => bytes
    case EnumName(path) => if path in index.enums then UnderlyingSize(EnumUnderlying(index.enums[path])) else 0
    case StructName(path) => if path in defined then defined[path] else 0
    case Template(kind, args) =>
      (match kind
       case Array => 16
       case ClassPtr => 8
       case Set => Declared(index, kind, 0x50)
       case Map => Declared(index, kind, 0x50)
       case WeakPtr => Declared(index, kind, 0x08)
       case LazyPtr => Declared(index, kind, 0x1C)
       case SoftPtr => Declared(index, kind, 0x28)
       case SoftClassPtr => Declared(index, kind, 0x28)
       case Interface => Declared(index, kind, 0x10)
       case Optional => if |args| > 0 then RoundUp(SizeOf(index, args[0], defined) + 1, AlignOf(index, args[0])) else 0
       case _ => 0)
    case Unresolved => 1
  }

  // ---------------------------------------------------------------- the size guard

  /** The bytes of a property, of one of its elements, and the elements it has. */
  function Total(p: Property): (total: int)
    ensures total >= 1
  {
    Max(p.size, 1)
  }

  function Dim(p: Property): (dim: int)
    ensures dim >= 1
  {
    Max(p.arrayDim, 1)
  }

  function Element(p: Property): int { Total(p) / Dim(p) }

  /** The spelling a property keeps: none when the size C++ is expected to give it disagrees with the engine's. */
  function Kept(index: TypeIndex, p: Property): Option<CppType> {
    var rendered := RenderType(index, p.ty, Element(p));
    var expected := ExpectedSize(index, p.ty);
    if rendered.Some? && expected > 0 && Element(p) > 0 && expected != Element(p) then None else rendered
  }

  /** The bytes the emitted member takes in C++. */
  function MemberBytes(index: TypeIndex, p: Property, defined: map<string, int>): int {
    match Kept(index, p)
    case None => Total(p)
    case Some(ty) => SizeOf(index, ty, defined) * Dim(p)
  }

  /** The size the common header gives a kind whose size no use reported; 0 for kinds it does not define so. */
  function DefaultBytes(kind: TypeKind): int {
    match kind
    case Text => 0x18
    case Delegate | MulticastDelegate | Interface => 0x10
    case FieldPath => 0x20
    case Set | Map => 0x50
    case WeakPtr => 0x08
    case LazyPtr => 0x1C
    case SoftPtr | SoftClassPtr => 0x28
    case _ => 0
  }

  /** What the size of a spelling rests on, kind by kind, when the use reports `element` bytes. */
  ghost predicate Faithful(index: TypeIndex, ty: TypeRef, element: int, defined: map<string, int>) {
    match ty.kind
    case Name | ClassPtr => element == 8
    case String | Array => element == 16
    case Optional =>
      |ty.params| == 1 ==>
        var inner := RenderInner(index, ty.params[0]);
        element == RoundUp(SizeOf(index, inner, defined) + 1, AlignOf(index, inner))
    case Struct => ty.name in defined && defined[ty.name] == element
    case _ => DefaultBytes(ty.kind) > 0 && Measured(index, ty.kind) <= 0 ==> element == DefaultBytes(ty.kind)
  }

  predicate IsContainer(kind: TypeKind) { kind.Array? || kind.Set? || kind.Map? || kind.Optional? }

  lemma TemplateIsCppSize(index: TypeIndex, ty: TypeRef, element: int, defined: map<string, int>)
    requires IsContainer(ty.kind) || IsPointerTemplate(ty.kind)
    requires RenderType(index, ty, element).Some? && element > 0
    requires ExpectedSize(index, ty) > 0 ==> ExpectedSize(index, ty) == element
    ensures SizeOf(index, RenderType(index, ty, element).value, defined) == element
            <==> Faithful(index, ty, element, defined)
  {
    if IsContainer(ty.kind) {
      ContainerIsCppSize(index, ty, element, defined);
    } else {
      PointerIsCppSize(index, ty, element, defined);
    }
  }

  lemma ContainerIsCppSize(index: TypeIndex, ty: TypeRef, element: int, defined: map<string, int>)
    requires IsContainer(ty.kind)
    requires RenderType(index, ty, element).Some? && element > 0
    requires ExpectedSize(index, ty) > 0 ==> ExpectedSize(index, ty) == element
    ensures SizeOf(index, RenderType(index, ty, element).value, defined) == element
            <==> Faithful(index, ty, element, defined)
  {
  }

  lemma PointerIsCppSize(index: TypeIndex, ty: TypeRef, element: int, defined: map<string, int>)
    requires IsPointerTemplate(ty.kind)
    requires RenderType(index, ty, element).Some? && element > 0
    requires ExpectedSize(index, ty) > 0 ==> ExpectedSize(index, ty) == element
    ensures SizeOf(index, RenderType(index, ty, element).value, defined) == element
            <==> Faithful(index, ty, element, defined)
  {
  }

  lemma BuiltinIsCppSize(index: TypeIndex, ty: TypeRef, element: int, defined: map<string, int>)
    requires !IsContainer(ty.kind) && !IsPointerTemplate(ty.kind)
    requires RenderType(index, ty, element).Some? && element > 0
    requires ExpectedSize(index, ty) > 0 ==> ExpectedSize(index, ty) == element
    ensures SizeOf(index, RenderType(index, ty, element).value, defined) == element
            <==> Faithful(index, ty, element, defined)
  {
    if ty.kind.Enumeration? {
      EnumHasWidth(index.enums[ty.name]);
    }
  }

  /** A spelling that got past the guard takes the bytes its use reports exactly when what that rests on holds. */
  lemma ExpectedIsCppSize(index: TypeIndex, ty: TypeRef, element: int, defined: map<string, int>)
    requires RenderType(index, ty, element).Some? && element > 0
    requires ExpectedSize(index, ty) > 0 ==> ExpectedSize(index, ty) == element
    ensures SizeOf(index, RenderType(index, ty, element).value, defined) == element
            <==> Faithful(index, ty, element, defined)
  {
    if IsContainer(ty.kind) || IsPointerTemplate(ty.kind) {
      TemplateIsCppSize(index, ty, element, defined);
    } else {
      BuiltinIsCppSize(index, ty, element, defined);
    }
  }

  lemma TimesEqual(a: int, b: int, n: int)
    requires n > 0
    ensures a * n == b * n <==> a == b
  {
  }

  /** No multiple lies strictly between nothing and one. */
  lemma NoneBetween(dim: int, k: int)
    requires dim > 0
    ensures k * dim <= 0 || k * dim >= dim
  {
  }

  /** Elements that do not divide the size never make it up. */
  lemma NoMultiple(size: int, total: int, dim: int)
    requires dim > 0 && total % dim != 0
    ensures size * dim != total
  {
    var quotient := total / dim;
    assert total == quotient * dim + total % dim;
    NoneBetween(dim, size - quotient);
    assert (size - quotient) * dim == size * dim - quotient * dim;
  }

  /** A member kept typed takes the engine's bytes: its elements divide them, and each has the size of its spelling. */
  ghost predicate Right(index: TypeIndex, p: Property, defined: map<string, int>) {
    Total(p) % Dim(p) == 0 && Faithful(index, p.ty, Element(p), defined)
  }

  /**
   * The guard is right exactly when what it rests on holds: any member takes the engine's bytes in
   * C++ if and only if it was made opaque, or its elements divide them and what its spelling rests
   * on holds.
   */
  lemma GuardIsExact(index: TypeIndex, p: Property, defined: map<string, int>)
    ensures MemberBytes(index, p, defined) == Total(p) <==> Kept(index, p).None? || Right(index, p, defined)
  {
    if Kept(index, p).Some? {
      var size := SizeOf(index, Kept(index, p).value, defined);
      if Total(p) % Dim(p) != 0 {
        NoMultiple(size, Total(p), Dim(p));
      } else {
        Divides(Total(p), Dim(p));
        ExpectedIsCppSize(index, p.ty, Element(p), defined);
        TimesEqual(size, Element(p), Dim(p));
      }
    }
  }

  lemma Divides(total: int, dim: int)
    requires total >= 1 && dim >= 1 && total % dim == 0
    ensures total / dim > 0 && total / dim * dim == total
  {
  }

  /** A member of the given type, size and elements. */
  function Plain(ty: TypeRef, size: int, arrayDim: int): Property {
    Property("Field", ty, 0, size, arrayDim, 0, false, 0, -1, "")
  }

  /** A text of 16 bytes in a dump that measured none is declared with 24. */
  lemma UnmeasuredTextSlips()
    ensures var index, p := TypeIndex(map[], map[], map[]), Plain(TypeRef(TypeKind.Text, "", "", [], 16), 16, 1);
            Kept(index, p).Some? && MemberBytes(index, p, map[]) == 24 && Total(p) == 16
  {
  }

  /** Two 16-bit elements in five bytes take four. */
  lemma OddElementsSlip()
    ensures var index, p := TypeIndex(map[], map[], map[]), Plain(TypeRef(TypeKind.UInt16, "", "", [], 2), 5, 2);
            Kept(index, p).Some? && MemberBytes(index, p, map[]) == 4 && Total(p) == 5
  {
  }

  /** A struct recorded with no bytes has one in C++, whatever its use reports. */
  lemma EmptyStructSlips(record: Record)
    requires record.size == 0
    ensures var index := TypeIndex(map[record.path := record], map[], map[]);
            var p := Plain(TypeRef(TypeKind.Struct, record.path, "", [], 4), 4, 1);
            Kept(index, p).Some? && MemberBytes(index, p, map[record.path := 1]) == 1 && Total(p) == 4
  {
  }

  /** An enum used at another width than its own never keeps a type, sized integer or otherwise. */
  lemma EnumMismatchIsOpaque(index: TypeIndex, p: Property)
    requires p.ty.kind.Enumeration? && p.ty.name in index.enums && Element(p) > 0
    ensures Kept(index, p).Some? <==> UnderlyingSize(EnumUnderlying(index.enums[p.ty.name])) == Element(p)
  {
    EnumHasWidth(index.enums[p.ty.name]);
  }

  /** A name measured at 12 bytes passes the guard and is declared 8: the layout is off by 4. */
  lemma WideNamesSlipThrough()
    ensures var index := TypeIndex(map[], map[], map[TypeKind.Name := 12]);
            var p := Plain(TypeRef(TypeKind.Name, "", "NameProperty", [], 12), 12, 1);
            ExpectedSize(index, p.ty) == Element(p) && MemberBytes(index, p, map[]) == 8 && Total(p) == 12
  {
  }
}
