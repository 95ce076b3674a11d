/** The intermediate representation: what the engine layer produces and every emitter reads. */
module Ir {

  datatype TypeKind =
    | Unknown
    | Bool
    | Int8 | Int16 | Int32 | Int64
    | UInt8 | UInt16 | UInt32 | UInt64
    | Float | Double
    | Name | String | Text
    | Enumeration | Struct
    | ObjectPtr | WeakPtr | LazyPtr | SoftPtr | SoftClassPtr | ClassPtr
    | Interface
    | Array | Set | Map
    | Delegate | MulticastDelegate
    | FieldPath
    | Optional

  /** `name` is the path of the type referred to, `raw` the engine's own name, `size` one element's. */
  datatype TypeRef = TypeRef(kind: TypeKind, name: string, raw: string, params: seq<TypeRef>, size: int)

  datatype Property = Property(
    name: string, ty: TypeRef, offset: int, size: int, arrayDim: int, flags: nat,
    isBitfield: bool, fieldMask: nat, bitIndex: int, defaultValue: string)

  datatype Param = Param(name: string, ty: TypeRef, isReturn: bool, isOut: bool)

  datatype Method = Method(name: string, flags: nat, params: seq<Param>, nativeRva: nat)

  datatype EnumValue = EnumValue(name: string, value: int)

  datatype EnumRecord = EnumRecord(path: string, underlying: string, values: seq<EnumValue>)

  /** One class or script struct; `inheritedSize` is where its own members start. */
  datatype Record = Record(
    path: string, super: string, isClass: bool, size: int, alignment: int, inheritedSize: int,
    properties: seq<Property>, methods: seq<Method>)

  datatype Package = Package(name: string, classes: seq<Record>, structs: seq<Record>, enums: seq<EnumRecord>)

  datatype DerivedOffset = DerivedOffset(name: string, value: int)

  datatype Dump = Dump(engineVersion: string, offsets: seq<DerivedOffset>, packages: seq<Package>)
}
