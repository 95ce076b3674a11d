/** What a list of C++ member declarations means under pack(1): where each of them lands. */
module CppLayout {
  import opened CppTypes

  /** A declaration of the generated struct's body. */
  datatype Decl =
    | Pad(size: int)                                  // uint8 Pad_N[size];
    | BitPad(bits: int)                               // uint8 BitPad_N : bits;
    | Bit(name: string)                               // uint8 name : 1;
    | Bytes(name: string, size: int)                  // uint8 name[size];
    | Member(name: string, ty: CppType, count: int)   // ty name[count];

  predicate IsNamed(d: Decl) { d.Bit? || d.Bytes? || d.Member? }

  /** A byte, and how many of its bits are taken by the bit-fields so far. */
  datatype Spot = Spot(byte: int, bit: int)

  /** Where the next byte starts. */
  function Closed(at: Spot): Spot { if at.bit == 0 then at else Spot(at.byte + 1, 0) }

  /** A bit-field goes into the open byte when it fits, else into the next. */
  function BitSpot(at: Spot, width: int): Spot { if at.bit + width <= 8 then at else Closed(at) }

  /** Where a declaration lands when the ones before it end at `at`. */
  function Lands(d: Decl, at: Spot): Spot {
    match d
    case BitPad(bits) => BitSpot(at, bits)
    case Bit(_) => BitSpot(at, 1)
    case _ => Closed(at)
  }

  /** Where it ends. */
  function After(d: Decl, at: Spot, sizeOf: CppType -> int): Spot {
    var spot := Lands(d, at);
    match d
    case Pad(size) => Spot(spot.byte + size, 0)
    case BitPad(bits) => Spot(spot.byte, spot.bit + bits)
    case Bit(_) => Spot(spot.byte, spot.bit + 1)
    case Bytes(_, size) => Spot(spot.byte + size, 0)
    case Member(_, ty, count) => Spot(spot.byte + sizeOf(ty) * count, 0)
  }

  /** Where a struct's declarations end, its base taking the first `base` bytes. */
  function End(decls: seq<Decl>, base: int, sizeOf: CppType -> int): Spot {
    if decls == [] then Spot(base, 0)
    else After(decls[|decls| - 1], End(decls[..|decls| - 1], base, sizeOf), sizeOf)
  }

  /** Where the i-th declaration lands: offsetof for a named one. */
  function Position(decls: seq<Decl>, i: nat, base: int, sizeOf: CppType -> int): Spot
    requires i < |decls|
  {
    Lands(decls[i], End(decls[..i], base, sizeOf))
  }

  /** The bytes of the struct, as a base contributes them. */
  function DataSize(decls: seq<Decl>, base: int, sizeOf: CppType -> int): int {
    Closed(End(decls, base, sizeOf)).byte
  }

  lemma EndOfMore(decls: seq<Decl>, d: Decl, base: int, sizeOf: CppType -> int)
    ensures End(decls + [d], base, sizeOf) == After(d, End(decls, base, sizeOf), sizeOf)
  {
    assert (decls + [d])[..|decls|] == decls;
  }

  lemma PositionOfEarlier(decls: seq<Decl>, d: Decl, i: nat, base: int, sizeOf: CppType -> int)
    requires i < |decls|
    ensures Position(decls + [d], i, base, sizeOf) == Position(decls, i, base, sizeOf)
  {
    assert (decls + [d])[..i] == decls[..i];
  }

  lemma PositionOfLast(decls: seq<Decl>, d: Decl, base: int, sizeOf: CppType -> int)
    ensures Position(decls + [d], |decls|, base, sizeOf) == Lands(d, End(decls, base, sizeOf))
  {
    assert (decls + [d])[..|decls|] == decls;
  }
}
