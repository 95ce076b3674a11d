/** The C++ SDK's struct emitter: the declarations it writes lay out as the engine said. */
module CppSdk {
  import opened Common
  import opened Ir
  import opened Names
  import StableSort
  import opened CppTypes
  import opened CppLayout

  /** The order the emitter sorts by; properties that tie stand in any order. */
  predicate KeyLe(a: Property, b: Property) {
    a.offset < b.offset || (a.offset == b.offset && a.bitIndex <= b.bitIndex)
  }

  ghost predicate Sorted(props: seq<Property>) {
    forall i, j :: 0 <= i < j < |props| ==> KeyLe(props[i], props[j])
  }

  /** The bytes a property is given. */
  function Extent(p: Property): (bytes: int)
    ensures bytes >= 1
  {
    if p.isBitfield then 1 else Total(p)
  }

  /** The property shares its byte with the bit-field before it. */
  predicate Follows(props: seq<Property>, k: nat)
    requires k < |props|
  {
    props[k].isBitfield && k > 0 && props[k - 1].isBitfield && props[k - 1].offset == props[k].offset
  }

  // ---------------------------------------------------------------- which members are emitted

  /** After the first k properties: where what was emitted ends, and whether the last one was emitted. */
  ghost function Progress(props: seq<Property>, k: nat, start: int): (int, bool)
    requires k <= |props|
  {
    if k == 0 then (start, false) else
    var (reach, last) := Progress(props, k - 1, start);
    var p := props[k - 1];
    if (if Follows(props, k - 1) then last else reach <= p.offset) then (p.offset + Extent(p), true) else (reach, false)
  }

  /** Where the members emitted among the first k end. */
  ghost function Reach(props: seq<Property>, k: nat, start: int): int
    requires k <= |props|
  {
    Progress(props, k, start).0
  }

  /** The property is emitted. */
  ghost predicate Emits(props: seq<Property>, k: nat, start: int)
    requires k < |props|
  {
    Progress(props, k + 1, start).1
  }

  /** It is when it starts no earlier than what was emitted so far ends, or joins a byte that was. */
  lemma EmitsWhen(props: seq<Property>, k: nat, start: int)
    requires k < |props|
    ensures Emits(props, k, start) <==>
            if Follows(props, k) then Emits(props, k - 1, start) else Reach(props, k, start) <= props[k].offset
    ensures Reach(props, 0, start) == start
    ensures Reach(props, k + 1, start) ==
            if Emits(props, k, start) then props[k].offset + Extent(props[k]) else Reach(props, k, start)
  {
  }

  lemma {:induction false} ReachGrows(props: seq<Property>, j: nat, k: nat, start: int)
    requires j <= k <= |props|
    ensures Reach(props, j, start) <= Reach(props, k, start)
    decreases k
  {
    if j < k {
      ReachGrows(props, j, k - 1, start);
      EmitsWhen(props, k - 1, start);
      if Emits(props, k - 1, start) && Follows(props, k - 1) {
        EmitsWhen(props, k - 2, start);
      }
    }
  }

  /** No property starts inside an earlier one, or inside the base; bits of one byte do not clash. */
  ghost predicate NoOverlap(props: seq<Property>, start: int) {
    forall k :: 0 <= k < |props| ==> Clear(props, k, start)
  }

  ghost predicate Clear(props: seq<Property>, k: nat, start: int)
    requires k < |props|
  {
    Follows(props, k) || (start <= props[k].offset
      && forall j {:trigger props[j]} :: 0 <= j < k ==> props[j].offset + Extent(props[j]) <= props[k].offset)
  }

  ghost predicate AllEmitted(props: seq<Property>, start: int) {
    forall k :: 0 <= k < |props| ==> Emits(props, k, start)
  }

  /** Nothing is skipped if and only if nothing overlaps. */
  lemma AllEmittedIffNoOverlap(props: seq<Property>, start: int)
    ensures AllEmitted(props, start) <==> NoOverlap(props, start)
  {
    if NoOverlap(props, start) {
      ClearAllEmitted(props, start);
    }
    if AllEmitted(props, start) {
      forall k | 0 <= k < |props| ensures Clear(props, k, start) {
        EmittedClear(props, k, start);
      }
    }
  }

  lemma ClearAllEmitted(props: seq<Property>, start: int)
    requires NoOverlap(props, start)
    ensures AllEmitted(props, start)
  {
    forall k | 0 <= k < |props| ensures Emits(props, k, start) {
      ClearEmits(props, k, start);
    }
  }

  lemma {:induction false} ClearEmits(props: seq<Property>, k: nat, start: int)
    requires NoOverlap(props, start) && k < |props|
    ensures Emits(props, k, start)
    decreases k
  {
    assert Clear(props, k, start);
    EmitsWhen(props, k, start);
    if Follows(props, k) {
      ClearEmits(props, k - 1, start);
    } else {
      ReachBounded(props, k, start, props[k].offset);
    }
  }

  lemma {:induction false} ReachBounded(props: seq<Property>, k: nat, start: int, bound: int)
    requires k <= |props| && start <= bound
    requires forall j {:trigger props[j]} :: 0 <= j < k && Emits(props, j, start) ==>
             props[j].offset + Extent(props[j]) <= bound
    ensures Reach(props, k, start) <= bound
    decreases k
  {
    if k > 0 {
      EmitsWhen(props, k - 1, start);
      if !Emits(props, k - 1, start) {
        ReachBounded(props, k - 1, start, bound);
      }
    }
  }

  lemma EmittedClear(props: seq<Property>, k: nat, start: int)
    requires AllEmitted(props, start) && k < |props|
    ensures Clear(props, k, start)
  {
    EmitsWhen(props, k, start);
    if !Follows(props, k) {
      ReachGrows(props, 0, k, start);
      forall j {:trigger props[j]} | 0 <= j < k ensures props[j].offset + Extent(props[j]) <= props[k].offset {
        EmitsWhen(props, j, start);
        ReachGrows(props, j + 1, k, start);
      }
    }
  }

  /** Every member emitted, and the base, ends inside the record. */
  ghost predicate Fits(props: seq<Property>, start: int, size: int) {
    start <= size
    && forall k {:trigger props[k]} :: 0 <= k < |props| && Emits(props, k, start) ==>
       props[k].offset + Extent(props[k]) <= size
  }

  lemma FitsIffReach(props: seq<Property>, start: int, size: int)
    ensures Fits(props, start, size) <==> Reach(props, |props|, start) <= size
  {
    if Fits(props, start, size) {
      ReachBounded(props, |props|, start, size);
    } else if start > size {
      ReachGrows(props, 0, |props|, start);
    } else {
      var k :| 0 <= k < |props| && Emits(props, k, start) && props[k].offset + Extent(props[k]) > size;
      EmitsWhen(props, k, start);
      ReachGrows(props, k + 1, |props|, start);
    }
  }

  // ---------------------------------------------------------------- what the loop keeps

  /** What the emitter is given: the dump by path, and the spelling of a name as a legal one. */
  datatype Env = Env(index: TypeIndex, safe: string -> string)

  /** Which property each declaration is for; pads are for none. */
  type Owners = seq<Option<nat>>

  /** The declarations so far are for exactly the properties emitted, each once and in order. */
  ghost predicate Lists(env: Env, props: seq<Property>, n: nat, start: int, decls: seq<Decl>, who: Owners) {
    && n <= |props| && |who| == |decls|
    && (forall d {:trigger who[d]} :: 0 <= d < |who| ==>
          (who[d].Some? <==> IsNamed(decls[d]))
          && (who[d].Some? ==>
              who[d].value < n && Emits(props, who[d].value, start) && Shows(env, props[who[d].value], decls[d])))
    && (forall d, e {:trigger who[d], who[e]} :: 0 <= d < e < |who| && who[d].Some? && who[e].Some? ==>
        who[d].value < who[e].value)
    && (forall k: nat {:trigger Owned(who, k)} :: k < n && Emits(props, k, start) ==> Owned(who, k))
  }

  ghost predicate Owned(who: Owners, k: nat) { exists d :: 0 <= d < |who| && who[d] == Some(k) }

  /** The declaration is the property's, under a name made from its own. */
  ghost predicate Shows(env: Env, p: Property, d: Decl) {
    && IsNamed(d)
    && (d.name == env.safe(p.name) || IsSuffixed(env.safe(p.name), 1, d.name))
    && d == if p.isBitfield then Bit(d.name) else MemberDecl(env.index, p, d.name)
  }

  /** Exactly the properties that overlap are skipped. */
  ghost predicate Skips(props: seq<Property>, n: nat, start: int, skipped: seq<nat>) {
    n <= |props| && forall k: nat :: k in skipped <==> k < n && !Emits(props, k, start)
  }

  /** No two declarations have one name. */
  ghost predicate OwnNames(decls: seq<Decl>) {
    forall d, e {:trigger decls[d], decls[e]} :: 0 <= d < e < |decls| && IsNamed(decls[d]) && IsNamed(decls[e]) ==>
      decls[d].name != decls[e].name
  }

  /** Named declarations have names of their own, all of them taken. */
  ghost predicate NamesOk(decls: seq<Decl>, taken: set<string>) {
    && (forall d {:trigger decls[d]} :: 0 <= d < |decls| && IsNamed(decls[d]) ==> decls[d].name in taken)
    && OwnNames(decls)
  }

  /** One assertion for each member that is not a bit-field. */
  ghost function AssertsOf(props: seq<Property>, decls: seq<Decl>, who: Owners): seq<(string, int)>
    requires |who| == |decls|
  {
    if who == [] then [] else
    var last := |who| - 1;
    AssertsOf(props, decls[..last], who[..last]) + AssertFor(props, decls[last], who[last])
  }

  ghost function AssertFor(props: seq<Property>, d: Decl, owner: Option<nat>): seq<(string, int)> {
    match owner
    case Some(k) => if k < |props| && IsNamed(d) && !props[k].isBitfield then [(d.name, props[k].offset)] else []
    case None => []
  }

  /** The place the engine gave a property. */
  function Place(p: Property): Spot { Spot(p.offset, if p.isBitfield then p.bitIndex else 0) }

  /** Every declaration stands where the engine put its property. */
  ghost predicate Placed(props: seq<Property>, decls: seq<Decl>, who: Owners, base: int, sizeOf: CppType -> int) {
    |who| == |decls|
    && forall d {:trigger who[d]} :: 0 <= d < |who| && who[d].Some? && who[d].value < |props| ==>
         Position(decls, d, base, sizeOf) == Place(props[who[d].value])
  }

  /** The declarations end at a byte: `cursor`. */
  ghost predicate EndsAt(decls: seq<Decl>, cursor: int, base: int, sizeOf: CppType -> int) {
    var end := End(decls, base, sizeOf);
    (end.bit == 0 || end.bit == 8) && Closed(end).byte == cursor
  }

  /** The declarations end inside the byte at `offset`, after its first `bits` bits. */
  ghost predicate EndsInside(decls: seq<Decl>, offset: int, bits: int, base: int, sizeOf: CppType -> int) {
    if bits == 0 then EndsAt(decls, offset, base, sizeOf) else End(decls, base, sizeOf) == Spot(offset, bits)
  }

  lemma ListsPad(env: Env, props: seq<Property>, n: nat, start: int, decls: seq<Decl>, who: Owners, d: Decl)
    requires Lists(env, props, n, start, decls, who) && !IsNamed(d)
    ensures Lists(env, props, n, start, decls + [d], who + [None])
  {
    OwnedMore(who, None);
  }

  lemma OwnedMore(who: Owners, owner: Option<nat>)
    ensures forall k: nat {:trigger Owned(who, k)} {:trigger Owned(who + [owner], k)} ::
            Owned(who + [owner], k) <==> Owned(who, k) || owner == Some(k)
  {
    forall k: nat ensures Owned(who + [owner], k) <==> Owned(who, k) || owner == Some(k) {
      assert (who + [owner])[|who|] == owner;
      if Owned(who, k) {
        var d :| 0 <= d < |who| && who[d] == Some(k);
        assert (who + [owner])[d] == Some(k);
      }
    }
  }

  lemma ListsMember(env: Env, props: seq<Property>, n: nat, start: int, decls: seq<Decl>, who: Owners, d: Decl)
    requires Lists(env, props, n, start, decls, who) && IsNamed(d)
    requires n < |props| && Emits(props, n, start) && Shows(env, props[n], d)
    ensures Lists(env, props, n + 1, start, decls + [d], who + [Some(n)])
  {
    OwnedMore(who, Some(n));
  }

  lemma ListsSkip(env: Env, props: seq<Property>, n: nat, start: int, decls: seq<Decl>, who: Owners)
    requires Lists(env, props, n, start, decls, who) && n < |props| && !Emits(props, n, start)
    ensures Lists(env, props, n + 1, start, decls, who)
  {
  }

  lemma AssertsMore(props: seq<Property>, decls: seq<Decl>, who: Owners, d: Decl, owner: Option<nat>)
    requires |who| == |decls|
    ensures AssertsOf(props, decls + [d], who + [owner]) == AssertsOf(props, decls, who) + AssertFor(props, d, owner)
  {
    assert (decls + [d])[..|decls|] == decls && (who + [owner])[..|who|] == who;
  }

  lemma PlacedMore(props: seq<Property>, decls: seq<Decl>, who: Owners, d: Decl, owner: Option<nat>, base: int,
                   sizeOf: CppType -> int)
    requires Placed(props, decls, who, base, sizeOf)
    requires owner.Some? && owner.value < |props| ==> Lands(d, End(decls, base, sizeOf)) == Place(props[owner.value])
    ensures Placed(props, decls + [d], who + [owner], base, sizeOf)
  {
    var decls', who' := decls + [d], who + [owner];
    forall i {:trigger who'[i]} | 0 <= i < |who'| && who'[i].Some? && who'[i].value < |props|
      ensures Position(decls', i, base, sizeOf) == Place(props[who'[i].value])
    {
      if i < |decls| {
        PositionOfEarlier(decls, d, i, base, sizeOf);
        assert who'[i] == who[i];
      } else {
        PositionOfLast(decls, d, base, sizeOf);
      }
    }
  }

  // ---------------------------------------------------------------- the emitter

  /** What is written of a struct's body so far. */
  datatype Body = Body(decls: seq<Decl>, taken: set<string>, asserts: seq<(string, int)>)

  /** What holds of the body for any record at all. */
  ghost predicate Sound(env: Env, props: seq<Property>, n: nat, start: int, b: Body, who: Owners) {
    && Lists(env, props, n, start, b.decls, who) && NamesOk(b.decls, b.taken)
    && b.asserts == AssertsOf(props, b.decls, who)
  }

  /** The elements that make a member an array. */
  function Count(p: Property): int { if p.arrayDim > 1 then p.arrayDim else 1 }

  /** The bits of one byte have distinct indices 0..7. */
  ghost predicate BitsOk(props: seq<Property>) {
    forall k {:trigger props[k]} :: 0 <= k < |props| && props[k].isBitfield ==>
      0 <= props[k].bitIndex < 8 && (Follows(props, k) ==> props[k - 1].bitIndex < props[k].bitIndex)
  }

  /** Every member kept typed takes the engine's bytes. */
  ghost predicate SizesOk(index: TypeIndex, props: seq<Property>, sizeOf: CppType -> int) {
    forall k {:trigger props[k]} :: 0 <= k < |props| && !props[k].isBitfield && Kept(index, props[k]).Some? ==>
      sizeOf(Kept(index, props[k]).value) * Count(props[k]) == Total(props[k])
  }

  function Padded(decls: seq<Decl>, from: int, to: int): seq<Decl> {
    if to <= from then decls else decls + [Pad(to - from)]
  }

  function PaddedOwners(who: Owners, from: int, to: int): Owners {
    if to <= from then who else who + [None]
  }

  lemma PadSound(env: Env, props: seq<Property>, n: nat, start: int, b: Body, who: Owners, d: Decl)
    requires Sound(env, props, n, start, b, who) && !IsNamed(d)
    ensures Sound(env, props, n, start, b.(decls := b.decls + [d]), who + [None])
  {
    ListsPad(env, props, n, start, b.decls, who, d);
    AssertsMore(props, b.decls, who, d, None);
  }

  lemma PaddedLands(props: seq<Property>, decls: seq<Decl>, who: Owners, from: int, to: int, base: int,
                    sizeOf: CppType -> int)
    requires Placed(props, decls, who, base, sizeOf) && EndsAt(decls, from, base, sizeOf) && from <= to
    ensures Placed(props, Padded(decls, from, to), PaddedOwners(who, from, to), base, sizeOf)
    ensures EndsAt(Padded(decls, from, to), to, base, sizeOf)
  {
    if from < to {
      PlacedMore(props, decls, who, Pad(to - from), None, base, sizeOf);
      EndOfMore(decls, Pad(to - from), base, sizeOf);
    }
  }

  /** Padding up to `to`. */
  method EmitPadding(env: Env, b: Body, from: int, to: int, ghost who: Owners, ghost props: seq<Property>, ghost n: nat,
                     ghost start: int)
    returns (next: Body, ghost whose: Owners)
    requires Sound(env, props, n, start, b, who)
    ensures next == b.(decls := Padded(b.decls, from, to)) && whose == PaddedOwners(who, from, to)
    ensures Sound(env, props, n, start, next, whose)
  {
    next, whose := b, who;
    if to > from {
      PadSound(env, props, n, start, b, who, Pad(to - from));
      next, whose := b.(decls := b.decls + [Pad(to - from)]), who + [None];
    }
  }

  /** The member's declaration, opaque when its type is not kept. */
  function MemberDecl(index: TypeIndex, p: Property, member: string): Decl {
    match Kept(index, p)
    case None => Bytes(member, Total(p))
    case Some(ty) => Member(member, ty, Count(p))
  }

  lemma MemberSound(env: Env, props: seq<Property>, n: nat, start: int, b: Body, who: Owners, d: Decl)
    requires Sound(env, props, n, start, b, who) && n < |props| && Emits(props, n, start)
    requires IsNamed(d) && d.name !in b.taken && Shows(env, props[n], d)
    ensures Sound(env, props, n + 1, start, Body(b.decls + [d], b.taken + {d.name},
                                                 b.asserts + AssertFor(props, d, Some(n))), who + [Some(n)])
  {
    ListsMember(env, props, n, start, b.decls, who, d);
    AssertsMore(props, b.decls, who, d, Some(n));
  }

  lemma MemberLands(index: TypeIndex, props: seq<Property>, n: nat, decls: seq<Decl>, who: Owners, name: string,
                    base: int, sizeOf: CppType -> int)
    requires n < |props| && !props[n].isBitfield && SizesOk(index, props, sizeOf)
    requires Placed(props, decls, who, base, sizeOf) && EndsAt(decls, props[n].offset, base, sizeOf)
    ensures var d := MemberDecl(index, props[n], name);
            Placed(props, decls + [d], who + [Some(n)], base, sizeOf)
            && EndsAt(decls + [d], props[n].offset + Total(props[n]), base, sizeOf)
  {
    var d := MemberDecl(index, props[n], name);
    PlacedMore(props, decls, who, d, Some(n), base, sizeOf);
    EndOfMore(decls, d, base, sizeOf);
  }

  /** A member that is not a bit-field, at the end of what was written. */
  method EmitMember(env: Env, p: Property, b: Body,
                    ghost who: Owners, ghost props: seq<Property>, ghost n: nat, ghost start: int)
    returns (next: Body, ghost whose: Owners, ghost name: string)
    requires Sound(env, props, n, start, b, who) && n < |props| && props[n] == p && !p.isBitfield
             && Emits(props, n, start)
    ensures Sound(env, props, n + 1, start, next, whose)
    ensures next.decls == b.decls + [MemberDecl(env.index, p, name)] && whose == who + [Some(n)]
  {
    var member, taken := UniqueMember(env.safe(p.name), b.taken);
    var d := MemberDecl(env.index, p, member);
    MemberSound(env, props, n, start, b, who, d);
    next, whose, name := Body(b.decls + [d], taken, b.asserts + [(member, p.offset)]), who + [Some(n)], member;
  }

  lemma BitPadLands(props: seq<Property>, decls: seq<Decl>, who: Owners, offset: int, from: int, to: int, base: int,
                    sizeOf: CppType -> int)
    requires Placed(props, decls, who, base, sizeOf) && EndsInside(decls, offset, from, base, sizeOf)
             && 0 <= from < to <= 8
    ensures Placed(props, decls + [BitPad(to - from)], who + [None], base, sizeOf)
    ensures End(decls + [BitPad(to - from)], base, sizeOf) == Spot(offset, to)
  {
    PlacedMore(props, decls, who, BitPad(to - from), None, base, sizeOf);
    EndOfMore(decls, BitPad(to - from), base, sizeOf);
  }

  lemma BitLands(props: seq<Property>, n: nat, decls: seq<Decl>, who: Owners, name: string, bit: int, base: int,
                 sizeOf: CppType -> int)
    requires n < |props| && props[n].isBitfield && props[n].bitIndex == bit && 0 <= bit < 8
    requires Placed(props, decls, who, base, sizeOf) && EndsInside(decls, props[n].offset, bit, base, sizeOf)
    ensures Placed(props, decls + [Bit(name)], who + [Some(n)], base, sizeOf)
    ensures End(decls + [Bit(name)], base, sizeOf) == Spot(props[n].offset, bit + 1)
  {
    PlacedMore(props, decls, who, Bit(name), Some(n), base, sizeOf);
    EndOfMore(decls, Bit(name), base, sizeOf);
  }

  function BitPadded(decls: seq<Decl>, from: int, to: int): seq<Decl> {
    if to > from then decls + [BitPad(to - from)] else decls
  }

  /** All declarations stand right and end inside the byte at `offset`. */
  ghost predicate LaidIn(props: seq<Property>, decls: seq<Decl>, who: Owners, offset: int, bits: int, base: int,
                         sizeOf: CppType -> int) {
    Placed(props, decls, who, base, sizeOf) && EndsInside(decls, offset, bits, base, sizeOf)
  }

  lemma BitStepLands(props: seq<Property>, n: nat, decls: seq<Decl>, who: Owners, name: string, from: int, base: int,
                     sizeOf: CppType -> int)
    requires n < |props| && props[n].isBitfield && 0 <= from <= props[n].bitIndex < 8
    requires LaidIn(props, decls, who, props[n].offset, from, base, sizeOf)
    ensures LaidIn(props, BitPadded(decls, from, props[n].bitIndex) + [Bit(name)],
                   PaddedOwners(who, from, props[n].bitIndex) + [Some(n)], props[n].offset, props[n].bitIndex + 1,
                   base, sizeOf)
  {
    var bit := props[n].bitIndex;
    if bit > from {
      BitPadLands(props, decls, who, props[n].offset, from, bit, base, sizeOf);
    }
    BitLands(props, n, BitPadded(decls, from, bit), PaddedOwners(who, from, bit), name, bit, base, sizeOf);
  }

  /** The bits skipped before a packed bool. */
  method EmitBitPad(env: Env, from: int, to: int, b: Body, ghost who: Owners, ghost props: seq<Property>, ghost n: nat,
                    ghost start: int)
    returns (next: Body, ghost whose: Owners)
    requires Sound(env, props, n, start, b, who)
    ensures Sound(env, props, n, start, next, whose)
    ensures next == b.(decls := BitPadded(b.decls, from, to)) && whose == PaddedOwners(who, from, to)
  {
    next, whose := b, who;
    if to > from {
      PadSound(env, props, n, start, b, who, BitPad(to - from));
      next, whose := b.(decls := b.decls + [BitPad(to - from)]), who + [None];
    }
  }

  lemma BitShows(env: Env, p: Property, name: string)
    requires p.isBitfield && (name == env.safe(p.name) || IsSuffixed(env.safe(p.name), 1, name))
    ensures Shows(env, p, Bit(name))
  {
  }

  /** One packed bool: the bits skipped before it, and its own. */
  method EmitBit(env: Env, p: Property, bitCursor: int, b: Body,
                 ghost who: Owners, ghost props: seq<Property>, ghost n: nat, ghost start: int)
    returns (next: Body, ghost whose: Owners, ghost name: string)
    requires Sound(env, props, n, start, b, who) && n < |props| && props[n] == p && p.isBitfield
             && Emits(props, n, start)
    ensures Sound(env, props, n + 1, start, next, whose)
    ensures next.decls == BitPadded(b.decls, bitCursor, p.bitIndex) + [Bit(name)]
    ensures whose == PaddedOwners(who, bitCursor, p.bitIndex) + [Some(n)]
  {
    var padded;
    padded, whose := EmitBitPad(env, bitCursor, p.bitIndex, b, who, props, n, start);
    var member, taken := UniqueMember(env.safe(p.name), padded.taken);
    BitShows(env, p, member);
    MemberSound(env, props, n, start, padded, whose, Bit(member));
    next, whose, name := Body(padded.decls + [Bit(member)], taken, padded.asserts), whose + [Some(n)], member;
  }

  /** A property that is not emitted starts before the end of what is. */
  lemma {:induction false} SkippedOverlaps(props: seq<Property>, k: nat, start: int)
    requires k < |props| && !Emits(props, k, start)
    ensures props[k].offset < Reach(props, k, start) == Reach(props, k + 1, start)
    decreases k
  {
    EmitsWhen(props, k, start);
    if Follows(props, k) {
      SkippedOverlaps(props, k - 1, start);
    }
  }

  /** The next bit-field of a byte that is emitted is emitted too, and its bit is still free. */
  lemma NextBit(props: seq<Property>, j: nat, start: int)
    requires 0 < j < |props| && Follows(props, j) && Emits(props, j - 1, start)
    ensures Emits(props, j, start) && Reach(props, j + 1, start) == props[j].offset + 1
    ensures BitsOk(props) ==> props[j - 1].bitIndex + 1 <= props[j].bitIndex < 8
  {
    EmitsWhen(props, j, start);
  }

  /** The bits left over at the end of a byte. */
  method CloseByte(env: Env, bitCursor: int, b: Body, ghost who: Owners, ghost props: seq<Property>, ghost n: nat,
                   ghost start: int,
                   ghost offset: int, ghost base: int, ghost sizeOf: CppType -> int)
    returns (next: Body, ghost whose: Owners)
    requires Sound(env, props, n, start, b, who)
    ensures Sound(env, props, n, start, next, whose)
    ensures 0 < bitCursor <= 8 && LaidIn(props, b.decls, who, offset, bitCursor, base, sizeOf)
            ==> Placed(props, next.decls, whose, base, sizeOf) && EndsAt(next.decls, offset + 1, base, sizeOf)
  {
    next, whose := b, who;
    if bitCursor < 8 {
      PadSound(env, props, n, start, next, whose, BitPad(8 - bitCursor));
      if 0 < bitCursor && LaidIn(props, b.decls, who, offset, bitCursor, base, sizeOf) {
        BitPadLands(props, next.decls, whose, offset, bitCursor, 8, base, sizeOf);
      }
      next, whose := next.(decls := next.decls + [BitPad(8 - bitCursor)]), whose + [None];
    }
  }

  /** The properties from i up to j are bits of one byte. */
  ghost predicate SameByte(props: seq<Property>, i: nat, j: nat)
    requires i < |props|
  {
    forall k {:trigger props[k]} :: i <= k < j && k < |props| ==>
        props[k].isBitfield && props[k].offset == props[i].offset
  }

  lemma {:induction false} GroupEmits(props: seq<Property>, i: nat, k: nat, j: nat, start: int)
    requires i <= k < j <= |props| && SameByte(props, i, j) && Emits(props, i, start)
    ensures Emits(props, k, start)
    decreases k
  {
    if i < k {
      assert Follows(props, k) by { var p, q := props[k - 1], props[k]; }
      GroupEmits(props, i, k - 1, j, start);
      EmitsWhen(props, k, start);
    }
  }

  lemma GroupEmitsAll(props: seq<Property>, i: nat, j: nat, start: int)
    requires i < j <= |props| && SameByte(props, i, j) && Emits(props, i, start)
    ensures EmitsAll(props, i, j, start)
  {
    forall k: nat | i <= k < j ensures Emits(props, k, start) {
      GroupEmits(props, i, k, j, start);
    }
  }

  ghost predicate EmitsAll(props: seq<Property>, i: nat, j: nat, start: int) {
    forall k: nat :: i <= k < j && k < |props| ==> Emits(props, k, start)
  }

  /** One packed bool, and where it stands. */
  method PlaceBit(env: Env, props: seq<Property>, n: nat, bitCursor: int, b: Body,
                  ghost who: Owners, ghost start: int, ghost base: int, ghost sizeOf: CppType -> int)
    returns (next: Body, ghost whose: Owners)
    requires n < |props| && Sound(env, props, n, start, b, who) && props[n].isBitfield && Emits(props, n, start)
    ensures Sound(env, props, n + 1, start, next, whose)
    ensures 0 <= bitCursor <= props[n].bitIndex < 8
            && LaidIn(props, b.decls, who, props[n].offset, bitCursor, base, sizeOf)
            ==> LaidIn(props, next.decls, whose, props[n].offset, props[n].bitIndex + 1, base, sizeOf)
  {
    ghost var name;
    next, whose, name := EmitBit(env, props[n], bitCursor, b, who, props, n, start);
    if 0 <= bitCursor <= props[n].bitIndex < 8
        && LaidIn(props, b.decls, who, props[n].offset, bitCursor, base, sizeOf) {
      BitStepLands(props, n, b.decls, who, name, bitCursor, base, sizeOf);
    }
  }

  /** The next bit-field of the byte, when there is one. */
  predicate MoreBits(props: seq<Property>, i: nat, j: nat)
    requires i < |props|
  {
    j < |props| && props[j].isBitfield && props[j].offset == props[i].offset
  }

  /** The loop over the bits of one byte stands before property j, after bit `bitCursor`. */
  ghost predicate InByte(props: seq<Property>, i: nat, j: nat, bitCursor: int, start: int)
    requires i < |props|
  {
    i < j <= |props| && SameByte(props, i, j) && Emits(props, j - 1, start) && bitCursor == props[j - 1].bitIndex + 1
  }

  lemma InByteMoves(props: seq<Property>, i: nat, j: nat, bitCursor: int, start: int)
    requires i < |props| && props[i].isBitfield && InByte(props, i, j, bitCursor, start) && MoreBits(props, i, j)
    ensures Emits(props, j, start) && InByte(props, i, j + 1, props[j].bitIndex + 1, start)
    ensures BitsOk(props) ==> bitCursor <= props[j].bitIndex < 8
  {
    NextBit(props, j, start);
  }

  lemma InByteEnds(props: seq<Property>, i: nat, j: nat, bitCursor: int, start: int)
    requires i < |props| && props[i].isBitfield && InByte(props, i, j, bitCursor, start) && !MoreBits(props, i, j)
    ensures Reach(props, j, start) == props[i].offset + 1 && (j < |props| ==> !Follows(props, j))
  {
    EmitsWhen(props, j - 1, start);
    assert props[j - 1].offset == props[i].offset;
  }

  /** All packed bools of one byte, and the bits left over. */
  method EmitBits(env: Env, props: seq<Property>, i: nat, b: Body,
                  ghost who: Owners, ghost start: int, ghost base: int, ghost sizeOf: CppType -> int)
    returns (next: Body, j: nat, ghost whose: Owners)
    requires i < |props| && Sound(env, props, i, start, b, who)
    requires props[i].isBitfield && Emits(props, i, start)
    ensures i < j <= |props| && Sound(env, props, j, start, next, whose) && SameByte(props, i, j)
    ensures Reach(props, j, start) == props[i].offset + 1 && (j < |props| ==> !Follows(props, j))
    ensures BitsOk(props) && LaidIn(props, b.decls, who, props[i].offset, 0, base, sizeOf)
            ==> Placed(props, next.decls, whose, base, sizeOf) && EndsAt(next.decls, props[i].offset + 1, base, sizeOf)
  {
    var offset := props[i].offset;
    ghost var laid := BitsOk(props) && LaidIn(props, b.decls, who, offset, 0, base, sizeOf);
    next, whose := PlaceBit(env, props, i, 0, b, who, start, base, sizeOf);
    j := i + 1;
    var bitCursor := props[i].bitIndex + 1;
    while MoreBits(props, i, j)
      invariant InByte(props, i, j, bitCursor, start) && Sound(env, props, j, start, next, whose)
      invariant laid ==> 0 < bitCursor <= 8 && LaidIn(props, next.decls, whose, offset, bitCursor, base, sizeOf)
      decreases |props| - j
    {
      InByteMoves(props, i, j, bitCursor, start);
      next, whose := PlaceBit(env, props, j, bitCursor, next, whose, start, base, sizeOf);
      bitCursor := props[j].bitIndex + 1;
      j := j + 1;
    }
    InByteEnds(props, i, j, bitCursor, start);
    next, whose := CloseByte(env, bitCursor, next, whose, props, j, start, offset, base, sizeOf);
  }

  // ---------------------------------------------------------------- the whole struct

  /** What makes a layout come out: the base as long as it should be, the bits distinct, the sizes right. */
  ghost predicate Good(index: TypeIndex, props: seq<Property>, start: int, base: int, sizeOf: CppType -> int) {
    base == start && BitsOk(props) && SizesOk(index, props, sizeOf)
  }

  lemma SkipsMore(props: seq<Property>, i: nat, start: int, skipped: seq<nat>)
    requires i < |props| && Skips(props, i, start, skipped) && !Emits(props, i, start)
    ensures Skips(props, i + 1, start, skipped + [i])
  {
  }

  lemma SkipsStand(props: seq<Property>, i: nat, j: nat, start: int, skipped: seq<nat>)
    requires i <= j <= |props| && Skips(props, i, start, skipped) && EmitsAll(props, i, j, start)
    ensures Skips(props, j, start, skipped)
  {
  }

  /** The test the loop makes: outside a group a property starts before the cursor exactly when it is not emitted. */
  lemma CursorTest(props: seq<Property>, i: nat, start: int)
    requires i < |props| && (Follows(props, i) ==> !Emits(props, i - 1, start))
    ensures props[i].offset < Reach(props, i, start) <==> !Emits(props, i, start)
    ensures Follows(props, i) ==> !Emits(props, i, start)
  {
    EmitsWhen(props, i, start);
    if !Emits(props, i, start) {
      SkippedOverlaps(props, i, start);
    }
  }

  /** All declarations stand right and end at the cursor. */
  ghost predicate LaidTo(props: seq<Property>, decls: seq<Decl>, who: Owners, cursor: int, base: int,
                         sizeOf: CppType -> int) {
    Placed(props, decls, who, base, sizeOf) && EndsAt(decls, cursor, base, sizeOf)
  }

  /** Padding up to a byte of packed bools, and the byte. */
  method EmitGroup(env: Env, props: seq<Property>, i: nat, cursor: int, b: Body,
                   ghost who: Owners, ghost start: int, ghost base: int, ghost sizeOf: CppType -> int)
    returns (next: Body, j: nat, ghost whose: Owners)
    requires i < |props| && Sound(env, props, i, start, b, who) && cursor <= props[i].offset
    requires props[i].isBitfield && Emits(props, i, start)
    ensures i < j <= |props| && Sound(env, props, j, start, next, whose) && SameByte(props, i, j)
    ensures Reach(props, j, start) == props[i].offset + 1 && (j < |props| ==> !Follows(props, j))
    ensures BitsOk(props) && LaidTo(props, b.decls, who, cursor, base, sizeOf)
            ==> LaidTo(props, next.decls, whose, props[i].offset + 1, base, sizeOf)
  {
    next, whose := EmitPadding(env, b, cursor, props[i].offset, who, props, i, start);
    if LaidTo(props, b.decls, who, cursor, base, sizeOf) {
      PaddedLands(props, b.decls, who, cursor, props[i].offset, base, sizeOf);
    }
    next, j, whose := EmitBits(env, props, i, next, whose, start, base, sizeOf);
  }

  /** Padding up to a member, and the member. */
  method EmitOne(env: Env, props: seq<Property>, i: nat, cursor: int, b: Body,
                 ghost who: Owners, ghost start: int, ghost base: int, ghost sizeOf: CppType -> int)
    returns (next: Body, ghost whose: Owners)
    requires i < |props| && Sound(env, props, i, start, b, who) && cursor <= props[i].offset
    requires !props[i].isBitfield && Emits(props, i, start)
    ensures Sound(env, props, i + 1, start, next, whose)
    ensures SizesOk(env.index, props, sizeOf) && LaidTo(props, b.decls, who, cursor, base, sizeOf)
            ==> LaidTo(props, next.decls, whose, props[i].offset + Total(props[i]), base, sizeOf)
  {
    next, whose := EmitPadding(env, b, cursor, props[i].offset, who, props, i, start);
    ghost var decls, owners := next.decls, whose;
    ghost var name;
    next, whose, name := EmitMember(env, props[i], next, whose, props, i, start);
    if SizesOk(env.index, props, sizeOf) && LaidTo(props, b.decls, who, cursor, base, sizeOf) {
      PaddedLands(props, b.decls, who, cursor, props[i].offset, base, sizeOf);
      MemberLands(env.index, props, i, decls, owners, name, base, sizeOf);
    }
  }

  /** The loop over the properties stands before property i, everything emitted ending at the cursor. */
  ghost predicate AtMember(props: seq<Property>, i: nat, start: int, cursor: int, skipped: seq<nat>) {
    && Skips(props, i, start, skipped) && cursor == Reach(props, i, start)
    && (i < |props| && Follows(props, i) ==> !Emits(props, i - 1, start))
  }

  lemma AtMemberSkips(props: seq<Property>, i: nat, start: int, cursor: int, skipped: seq<nat>)
    requires AtMember(props, i, start, cursor, skipped) && i < |props| && props[i].offset < cursor
    ensures !Emits(props, i, start) && AtMember(props, i + 1, start, cursor, skipped + [i])
  {
    CursorTest(props, i, start);
    EmitsWhen(props, i, start);
    SkipsMore(props, i, start, skipped);
  }

  lemma AtMemberEmits(props: seq<Property>, i: nat, start: int, cursor: int, skipped: seq<nat>)
    requires AtMember(props, i, start, cursor, skipped) && i < |props| && props[i].offset >= cursor
    ensures Emits(props, i, start) && !Follows(props, i)
    ensures !props[i].isBitfield ==> AtMember(props, i + 1, start, props[i].offset + Total(props[i]), skipped)
  {
    CursorTest(props, i, start);
    EmitsWhen(props, i, start);
    if !props[i].isBitfield {
      SkipsStand(props, i, i + 1, start, skipped);
    }
  }

  lemma AtMemberGroup(props: seq<Property>, i: nat, j: nat, start: int, cursor: int, skipped: seq<nat>)
    requires AtMember(props, i, start, cursor, skipped) && i < j <= |props| && SameByte(props, i, j)
             && Emits(props, i, start)
    requires Reach(props, j, start) == props[i].offset + 1 && (j < |props| ==> !Follows(props, j))
    ensures AtMember(props, j, start, props[i].offset + 1, skipped)
  {
    GroupEmitsAll(props, i, j, start);
    SkipsStand(props, i, j, start, skipped);
  }

  /**
   * A property at or past the cursor, emitted. A bit-field that is reached here always starts its
   * byte: the ones after it are consumed with it.
   */
  method EmitReached(env: Env, props: seq<Property>, i: nat, cursor: int, b: Body, ghost skipped: seq<nat>,
                     ghost who: Owners, ghost start: int, ghost base: int, ghost sizeOf: CppType -> int)
    returns (next: Body, j: nat, end: int, ghost whose: Owners)
    requires i < |props| && Sound(env, props, i, start, b, who) && AtMember(props, i, start, cursor, skipped)
    requires props[i].offset >= cursor
    ensures i < j <= |props| && Sound(env, props, j, start, next, whose) && AtMember(props, j, start, end, skipped)
    ensures Good(env.index, props, start, base, sizeOf) && LaidTo(props, b.decls, who, cursor, base, sizeOf)
            ==> LaidTo(props, next.decls, whose, end, base, sizeOf)
  {
    AtMemberEmits(props, i, start, cursor, skipped);
    if props[i].isBitfield {
      next, j, whose := EmitGroup(env, props, i, cursor, b, who, start, base, sizeOf);
      AtMemberGroup(props, i, j, start, cursor, skipped);
      end := props[i].offset + 1;
    } else {
      next, whose := EmitOne(env, props, i, cursor, b, who, start, base, sizeOf);
      j, end := i + 1, props[i].offset + Total(props[i]);
    }
  }

  /**
   * The next property, emitted whole or skipped.
   */
  method EmitNext(env: Env, props: seq<Property>, i: nat, cursor: int, b: Body, skipped: seq<nat>,
                  ghost who: Owners, ghost start: int, ghost base: int, ghost sizeOf: CppType -> int)
    returns (next: Body, j: nat, end: int, skips: seq<nat>, ghost whose: Owners)
    requires i < |props| && Sound(env, props, i, start, b, who) && AtMember(props, i, start, cursor, skipped)
    ensures i < j <= |props| && Sound(env, props, j, start, next, whose) && AtMember(props, j, start, end, skips)
    ensures Good(env.index, props, start, base, sizeOf) && LaidTo(props, b.decls, who, cursor, base, sizeOf)
            ==> LaidTo(props, next.decls, whose, end, base, sizeOf)
  {
    if props[i].offset < cursor {
      AtMemberSkips(props, i, start, cursor, skipped);
      ListsSkip(env, props, i, start, b.decls, who);
      next, j, end, skips, whose := b, i + 1, cursor, skipped + [i], who;
    } else {
      next, j, end, whose := EmitReached(env, props, i, cursor, b, skipped, who, start, base, sizeOf);
      skips := skipped;
    }
  }

  /** The loop over the sorted properties. */
  method EmitMembers(env: Env, props: seq<Property>, start: int, ghost base: int, ghost sizeOf: CppType -> int)
    returns (b: Body, skipped: seq<nat>, cursor: int, ghost who: Owners)
    ensures Sound(env, props, |props|, start, b, who) && Skips(props, |props|, start, skipped)
    ensures cursor == Reach(props, |props|, start)
    ensures Good(env.index, props, start, base, sizeOf) ==> LaidTo(props, b.decls, who, cursor, base, sizeOf)
  {
    b, skipped, cursor, who := Body([], {}, []), [], start, [];
    var i := 0;
    while i < |props|
      invariant 0 <= i <= |props| && Sound(env, props, i, start, b, who)
      invariant AtMember(props, i, start, cursor, skipped)
      invariant Good(env.index, props, start, base, sizeOf) ==> LaidTo(props, b.decls, who, cursor, base, sizeOf)
    {
      b, i, cursor, skipped, who := EmitNext(env, props, i, cursor, b, skipped, who, start, base, sizeOf);
    }
  }

  /** The properties in the order of their keys; what ties is not told apart. */
  method SortByKey(properties: seq<Property>) returns (props: seq<Property>)
    ensures Sorted(props) && multiset(props) == multiset(properties)
  {
    StableSort.SortSorted(properties, KeyLe);
    props := StableSort.Sort(properties, KeyLe);
  }

  /** The struct is written as derived from its base: the base is known and no member reaches into it. */
  predicate Inherits(index: TypeIndex, record: Record, props: seq<Property>) {
    && record.super != ""
    && (record.super in index.structs || record.super in index.enums)
    && (if props == [] then record.size else props[0].offset) >= record.inheritedSize
  }

  function Base(index: TypeIndex, record: Record, props: seq<Property>): Option<string> {
    if Inherits(index, record, props) then Some(record.super) else None
  }

  /** Where the struct's own bytes start. */
  function Start(index: TypeIndex, record: Record, props: seq<Property>): int {
    if Inherits(index, record, props) then record.inheritedSize else 0
  }

  /** The text of one generated struct: its body, and the assertions after it. */
  datatype StructText = StructText(
    path: string, base: Option<string>, decls: seq<Decl>, sizeAssert: Option<int>, offsetAsserts: seq<(string, int)>,
    skipped: seq<nat>)

  /** sizeof: what the declarations take, and no class is empty. */
  function SizeOfStruct(text: StructText, base: int, sizeOf: CppType -> int): int {
    Max(DataSize(text.decls, base, sizeOf), 1)
  }

  /** The d-th declaration is the only one of the name. */
  ghost predicate OnlyOne(decls: seq<Decl>, d: nat, name: string)
    requires d < |decls|
  {
    && IsNamed(decls[d]) && decls[d].name == name
    && forall e {:trigger decls[e]} :: 0 <= e < |decls| && IsNamed(decls[e]) && decls[e].name == name ==> e == d
  }

  /** offsetof(member) is the number asserted, and there is one such member, which is no bit-field. */
  ghost predicate OffsetHolds(decls: seq<Decl>, a: (string, int), base: int, sizeOf: CppType -> int) {
    exists d {:trigger Position(decls, d, base, sizeOf)} :: 0 <= d < |decls|
      && OnlyOne(decls, d, a.0) && !decls[d].Bit? && Position(decls, d, base, sizeOf) == Spot(a.1, 0)
  }

  ghost predicate OffsetsHold(text: StructText, base: int, sizeOf: CppType -> int) {
    forall a :: a in text.offsetAsserts ==> OffsetHolds(text.decls, a, base, sizeOf)
  }

  ghost predicate SizeHolds(text: StructText, base: int, sizeOf: CppType -> int) {
    text.sizeAssert.Some? ==> SizeOfStruct(text, base, sizeOf) == text.sizeAssert.value
  }

  lemma {:induction false} AssertsComeFrom(props: seq<Property>, decls: seq<Decl>, who: Owners, a: (string, int))
    returns (d: nat)
    requires |who| == |decls| && a in AssertsOf(props, decls, who)
    ensures d < |who| && who[d].Some? && who[d].value < |props| && IsNamed(decls[d])
    ensures !props[who[d].value].isBitfield && a == (decls[d].name, props[who[d].value].offset)
    decreases |who|
  {
    var last := |who| - 1;
    if a in AssertFor(props, decls[last], who[last]) {
      d := last;
    } else {
      d := AssertsComeFrom(props, decls[..last], who[..last], a);
    }
  }

  lemma AllOffsetsHold(env: Env, props: seq<Property>, text: StructText, who: Owners, start: int, b: Body, base: int,
                       sizeOf: CppType -> int)
    requires Sound(env, props, |props|, start, b, who) && text.decls == b.decls && text.offsetAsserts == b.asserts
    requires Placed(props, text.decls, who, base, sizeOf)
    ensures OffsetsHold(text, base, sizeOf)
  {
    forall a | a in text.offsetAsserts ensures OffsetHolds(text.decls, a, base, sizeOf) {
      var d := AssertsComeFrom(props, text.decls, who, a);
      assert OnlyOne(text.decls, d, a.0);
      assert Position(text.decls, d, base, sizeOf) == Place(props[who[d].value]);
      assert Shows(env, props[who[d].value], text.decls[d]);
    }
  }

  /** The pair asserted is the name of the k-th property's declaration, and that property's offset. */
  ghost predicate AssertsFor(props: seq<Property>, decls: seq<Decl>, who: Owners, k: nat, a: (string, int))
    requires |who| == |decls| && k < |props|
  {
    exists d :: 0 <= d < |who| && who[d] == Some(k) && IsNamed(decls[d]) && a == (decls[d].name, props[k].offset)
  }

  /** What is asserted is asserted of an emitted property that is no bit-field. */
  ghost predicate OnlyMembers(props: seq<Property>, start: int, decls: seq<Decl>, who: Owners,
                              asserts: seq<(string, int)>) {
    |who| == |decls| && forall a :: a in asserts ==>
      exists k :: 0 <= k < |props| && Emits(props, k, start) && !props[k].isBitfield
                  && AssertsFor(props, decls, who, k, a)
  }

  /** Each such property has its offset asserted. */
  ghost predicate EveryMember(props: seq<Property>, start: int, decls: seq<Decl>, who: Owners,
                              asserts: seq<(string, int)>) {
    |who| == |decls| && forall k :: 0 <= k < |props| && Emits(props, k, start) && !props[k].isBitfield ==>
      exists a :: a in asserts && AssertsFor(props, decls, who, k, a)
  }

  lemma {:induction false} AssertsReach(props: seq<Property>, decls: seq<Decl>, who: Owners, d: nat)
    requires |who| == |decls| && d < |who| && who[d].Some? && who[d].value < |props|
    requires IsNamed(decls[d]) && !props[who[d].value].isBitfield
    ensures (decls[d].name, props[who[d].value].offset) in AssertsOf(props, decls, who)
    decreases |who|
  {
    var last := |who| - 1;
    if d < last {
      AssertsReach(props, decls[..last], who[..last], d);
    }
  }

  lemma AllMembersAsserted(env: Env, props: seq<Property>, start: int, b: Body, who: Owners)
    requires Sound(env, props, |props|, start, b, who)
    ensures OnlyMembers(props, start, b.decls, who, b.asserts) && EveryMember(props, start, b.decls, who, b.asserts)
  {
    forall a | a in b.asserts
      ensures exists k :: 0 <= k < |props| && Emits(props, k, start) && !props[k].isBitfield
                          && AssertsFor(props, b.decls, who, k, a)
    {
      var d := AssertsComeFrom(props, b.decls, who, a);
      assert AssertsFor(props, b.decls, who, who[d].value, a);
    }
    forall k | 0 <= k < |props| && Emits(props, k, start) && !props[k].isBitfield
      ensures exists a :: a in b.asserts && AssertsFor(props, b.decls, who, k, a)
    {
      assert Owned(who, k);
      var d :| 0 <= d < |who| && who[d] == Some(k);
      AssertsReach(props, b.decls, who, d);
      assert AssertsFor(props, b.decls, who, k, (b.decls[d].name, props[k].offset));
    }
  }

  /** Names are distinct, so each assertion is written once. */
  lemma {:induction false} AssertedOnce(props: seq<Property>, decls: seq<Decl>, who: Owners)
    requires |who| == |decls| && OwnNames(decls)
    ensures Distinct(AssertsOf(props, decls, who))
    decreases |who|
  {
    if who != [] {
      var last := |who| - 1;
      AssertedOnce(props, decls[..last], who[..last]);
      var before := AssertsOf(props, decls[..last], who[..last]);
      forall i | 0 <= i < |before| ensures before[i] !in AssertFor(props, decls[last], who[last]) {
        var d := AssertsComeFrom(props, decls[..last], who[..last], before[i]);
        assert IsNamed(decls[d]);
      }
      DistinctMore(before, AssertFor(props, decls[last], who[last]));
    }
  }

  /**
   * Why the assertions are worth writing: whatever the compiler takes the base and the types of the
   * members to be, when it accepts the assertions every member that is no bit-field stands at the
   * offset the engine gave its property.
   */
  lemma AssertionsPlace(env: Env, props: seq<Property>, start: int, text: StructText, who: Owners, base: int,
                        sizeOf: CppType -> int, d: nat)
    requires Lists(env, props, |props|, start, text.decls, who)
    requires EveryMember(props, start, text.decls, who, text.offsetAsserts) && OffsetsHold(text, base, sizeOf)
    requires d < |who| && who[d].Some? && !props[who[d].value].isBitfield
    ensures Position(text.decls, d, base, sizeOf) == Spot(props[who[d].value].offset, 0)
  {
    var k := who[d].value;
    var a :| a in text.offsetAsserts && AssertsFor(props, text.decls, who, k, a);
    assert OffsetHolds(text.decls, a, base, sizeOf);
    var e :| 0 <= e < |who| && who[e] == Some(k) && IsNamed(text.decls[e])
             && a == (text.decls[e].name, props[k].offset);
    assert e == d;
  }

  /** Each property emitted has one declaration, which stands where the engine put the property. */
  ghost predicate StandsRight(env: Env, props: seq<Property>, start: int, text: StructText, who: Owners, base: int,
                              sizeOf: CppType -> int) {
    Lists(env, props, |props|, start, text.decls, who) && Placed(props, text.decls, who, base, sizeOf)
  }

  lemma NothingSkipped(props: seq<Property>, start: int, skipped: seq<nat>)
    requires Skips(props, |props|, start, skipped)
    ensures skipped == [] <==> NoOverlap(props, start)
  {
    AllEmittedIffNoOverlap(props, start);
    if skipped != [] {
      assert skipped[0] in skipped && !Emits(props, skipped[0], start);
    }
    if skipped == [] {
      forall k: nat | k < |props| ensures Emits(props, k, start) {
        assert k !in skipped;
      }
    }
  }

  lemma FinishLands(props: seq<Property>, b: Body, cursor: int, size: int, who: Owners, base: int,
                    sizeOf: CppType -> int)
    requires LaidTo(props, b.decls, who, cursor, base, sizeOf)
    ensures Placed(props, Padded(b.decls, cursor, size), PaddedOwners(who, cursor, size), base, sizeOf)
    ensures DataSize(Padded(b.decls, cursor, size), base, sizeOf) == Max(size, cursor)
  {
    if cursor <= size {
      PaddedLands(props, b.decls, who, cursor, size, base, sizeOf);
    }
  }

  /** The members, and the padding up to the record's end. */
  method EmitBody(env: Env, props: seq<Property>, start: int, size: int, ghost base: int,
                  ghost sizeOf: CppType -> int)
    returns (b: Body, skipped: seq<nat>, ghost who: Owners)
    ensures Sound(env, props, |props|, start, b, who) && Skips(props, |props|, start, skipped)
    ensures skipped == [] <==> NoOverlap(props, start)
    ensures Good(env.index, props, start, base, sizeOf) ==>
              Placed(props, b.decls, who, base, sizeOf)
              && DataSize(b.decls, base, sizeOf) == Max(size, Reach(props, |props|, start))
  {
    var members, cursor;
    ghost var owners;
    members, skipped, cursor, owners := EmitMembers(env, props, start, base, sizeOf);
    NothingSkipped(props, start, skipped);
    b, who := EmitPadding(env, members, cursor, size, owners, props, |props|, start);
    if Good(env.index, props, start, base, sizeOf) {
      FinishLands(props, members, cursor, size, owners, base, sizeOf);
    }
  }

  /** What is asserted in the text. */
  lemma TextAsserts(env: Env, props: seq<Property>, start: int, text: StructText, b: Body, who: Owners)
    requires Sound(env, props, |props|, start, b, who) && text.decls == b.decls && text.offsetAsserts == b.asserts
    ensures Lists(env, props, |props|, start, text.decls, who) && OwnNames(text.decls)
    ensures EveryMember(props, start, text.decls, who, text.offsetAsserts)
    ensures OnlyMembers(props, start, text.decls, who, text.offsetAsserts)
    ensures Distinct(text.offsetAsserts)
  {
    AllMembersAsserted(env, props, start, b, who);
    AssertedOnce(props, b.decls, who);
  }

  /** And what holds of it once its declarations stand right. */
  lemma TextHolds(env: Env, props: seq<Property>, start: int, size: int, text: StructText, b: Body, who: Owners,
                  base: int, sizeOf: CppType -> int)
    requires Sound(env, props, |props|, start, b, who) && text.decls == b.decls && text.offsetAsserts == b.asserts
    requires text.sizeAssert == (if size > 0 then Some(size) else None) && Placed(props, b.decls, who, base, sizeOf)
    requires DataSize(b.decls, base, sizeOf) == Max(size, Reach(props, |props|, start))
    ensures StandsRight(env, props, start, text, who, base, sizeOf) && OffsetsHold(text, base, sizeOf)
    ensures size > 0 ==> (SizeHolds(text, base, sizeOf) <==> Fits(props, start, size))
  {
    AllOffsetsHold(env, props, text, who, start, b, base, sizeOf);
    FitsIffReach(props, start, size);
  }

  /**
   * One struct, for any record. Members whose bytes overlap are skipped and no others; each of the
   * rest has one declaration, under a name of its own, and its offset is asserted once unless it is a
   * bit-field. When the base, the bits and the sizes are as they should be, that declaration stands at
   * the property's offset and bit, every offset assertion holds, and the size assertion holds if and
   * only if no member overruns the record.
   */
  method EmitStruct(env: Env, record: Record, ghost base: int, ghost sizeOf: CppType -> int)
    returns (text: StructText, ghost props: seq<Property>, ghost who: Owners)
    ensures Sorted(props) && multiset(props) == multiset(record.properties)
    ensures text.path == record.path && text.base == Base(env.index, record, props)
    ensures text.sizeAssert == if record.size > 0 then Some(record.size) else None
    ensures Lists(env, props, |props|, Start(env.index, record, props), text.decls, who) && OwnNames(text.decls)
    ensures EveryMember(props, Start(env.index, record, props), text.decls, who, text.offsetAsserts)
    ensures OnlyMembers(props, Start(env.index, record, props), text.decls, who, text.offsetAsserts)
    ensures Distinct(text.offsetAsserts)
    ensures Skips(props, |props|, Start(env.index, record, props), text.skipped)
    ensures text.skipped == [] <==> NoOverlap(props, Start(env.index, record, props))
    ensures Good(env.index, props, Start(env.index, record, props), base, sizeOf) ==>
              StandsRight(env, props, Start(env.index, record, props), text, who, base, sizeOf)
              && OffsetsHold(text, base, sizeOf)
              && DataSize(text.decls, base, sizeOf)
                 == Max(record.size, Reach(props, |props|, Start(env.index, record, props)))
              && (record.size > 0 ==>
                  (SizeHolds(text, base, sizeOf) <==> Fits(props, Start(env.index, record, props), record.size)))
  {
    var sorted := SortByKey(record.properties);
    props := sorted;
    var b, skipped;
    b, skipped, who := EmitBody(env, sorted, Start(env.index, record, sorted), record.size, base, sizeOf);
    text := StructText(record.path, Base(env.index, record, sorted), b.decls,
                       if record.size > 0 then Some(record.size) else None, b.asserts, skipped);
    TextAsserts(env, props, Start(env.index, record, props), text, b, who);
    if Good(env.index, props, Start(env.index, record, props), base, sizeOf) {
      TextHolds(env, props, Start(env.index, record, props), record.size, text, b, who, base, sizeOf);
    }
  }
}
