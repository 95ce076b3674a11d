/** The gap-free cover of a record that the disassembler scripts define. */
module DisasmLayout {
  import opened Common
  import opened Ir
  import opened Names
  import StableSort
  import DisasmOrder

  /** What a slot is for; properties are named by their place in the order of offsets. */
  datatype Kind =
    | Padding
    | Inherited
    | Embedded(path: string)
    | One(property: nat)
    | Packed(properties: seq<nat>)

  /** Padding, and inherited bytes without a type, carry no member's name. */
  predicate Anonymous(kind: Kind) { kind.Padding? || kind.Inherited? }

  datatype Slot = Slot(offset: int, size: int, name: string, kind: Kind)

  datatype Warning =
    | BaseMismatch
    | Overlaps(property: nat, end: int)
    | NotAllPacked(property: nat)
    | NoSize(property: nat)
    | Overruns(end: int)

  predicate OffsetLe(a: Property, b: Property) { a.offset <= b.offset }

  // ---------------------------------------------------------------- tiling

  function EndOf(slots: seq<Slot>): int {
    if slots == [] then 0 else slots[|slots| - 1].offset + slots[|slots| - 1].size
  }

  /** Every slot is positive-sized and starts where the one before it ends, the first at 0. */
  ghost predicate Tiled(slots: seq<Slot>) {
    forall i {:trigger slots[i]} :: 0 <= i < |slots| ==> slots[i].size > 0 && slots[i].offset == EndOf(slots[..i])
  }

  lemma TiledMore(slots: seq<Slot>, s: Slot)
    requires Tiled(slots) && s.size > 0 && s.offset == EndOf(slots)
    ensures Tiled(slots + [s])
  {
    var slots' := slots + [s];
    forall i {:trigger slots'[i]} | 0 <= i < |slots'|
      ensures slots'[i].size > 0 && slots'[i].offset == EndOf(slots'[..i])
    {
      if i < |slots| {
        assert slots'[..i] == slots[..i] && slots'[i] == slots[i];
      } else {
        assert slots'[..i] == slots;
      }
    }
  }

  predicate Contains(s: Slot, x: int) { s.offset <= x < s.offset + s.size }

  lemma {:induction false} EndsGrow(slots: seq<Slot>, m: nat, n: nat)
    requires Tiled(slots) && m <= n <= |slots|
    ensures 0 <= EndOf(slots[..m]) <= EndOf(slots[..n])
    decreases n
  {
    if n > 0 {
      var s := slots[n - 1];
      assert slots[..n][n - 1] == s && s.offset == EndOf(slots[..n - 1]);
      EndsGrow(slots, if m < n then m else n - 1, n - 1);
    }
  }

  ghost predicate InSome(slots: seq<Slot>, x: int) { exists i :: 0 <= i < |slots| && Contains(slots[i], x) }

  lemma {:induction false} TiledReaches(slots: seq<Slot>, x: int, n: nat)
    requires Tiled(slots) && n <= |slots| && 0 <= x < EndOf(slots[..n])
    ensures InSome(slots, x)
    decreases n
  {
    if n > 0 {
      var s := slots[n - 1];
      assert slots[..n][n - 1] == s && s.offset == EndOf(slots[..n - 1]);
      if x >= s.offset {
        assert Contains(s, x);
      } else {
        TiledReaches(slots, x, n - 1);
      }
    }
  }

  lemma TiledWithin(slots: seq<Slot>, i: nat)
    requires Tiled(slots) && i < |slots|
    ensures slots[i].offset == EndOf(slots[..i]) && EndOf(slots[..i + 1]) == slots[i].offset + slots[i].size
    ensures 0 <= slots[i].offset && slots[i].offset + slots[i].size <= EndOf(slots)
  {
    assert slots[..i + 1][i] == slots[i];
    EndsGrow(slots, i, i);
    EndsGrow(slots, i + 1, |slots|);
    assert slots[..|slots|] == slots;
  }

  /** Every byte of the record is in exactly one slot, and no slot reaches past its end. */
  lemma TiledCovers(slots: seq<Slot>, x: int)
    requires Tiled(slots)
    ensures 0 <= x < EndOf(slots) <==> InSome(slots, x)
    ensures forall i: nat, j: nat :: i < |slots| && j < |slots| && Contains(slots[i], x) && Contains(slots[j], x) ==>
            i == j
  {
    assert slots[..|slots|] == slots;
    if 0 <= x < EndOf(slots) {
      TiledReaches(slots, x, |slots|);
    }
    if InSome(slots, x) {
      var i :| 0 <= i < |slots| && Contains(slots[i], x);
      TiledWithin(slots, i);
    }
    forall i: nat, j: nat | i < |slots| && j < |slots| && Contains(slots[i], x) && Contains(slots[j], x)
      ensures i == j
    {
      TiledWithin(slots, i);
      TiledWithin(slots, j);
      if i < j {
        EndsGrow(slots, i + 1, j);
      } else if j < i {
        EndsGrow(slots, j + 1, i);
      }
    }
  }

  // ---------------------------------------------------------------- groups

  /** The properties of one offset. */
  ghost predicate IsGroup(ordered: seq<Property>, i: nat, end: nat) {
    && i < end <= |ordered|
    && (forall k {:trigger ordered[k]} :: i <= k < end ==> ordered[k].offset == ordered[i].offset)
    && (end < |ordered| ==> ordered[end].offset != ordered[i].offset)
  }

  method GroupEnd(ordered: seq<Property>, i: nat) returns (end: nat)
    requires i < |ordered|
    ensures IsGroup(ordered, i, end)
  {
    end := i + 1;
    while end < |ordered| && ordered[end].offset == ordered[i].offset
      invariant i < end <= |ordered|
      invariant forall k {:trigger ordered[k]} :: i <= k < end ==> ordered[k].offset == ordered[i].offset
    {
      end := end + 1;
    }
  }

  /** The bytes a property occupies: as it says, else by its elements. */
  function UsableSize(p: Property): int {
    if p.size > 0 then p.size else p.ty.size * Max(1, p.arrayDim)
  }

  predicate AllPacked(ordered: seq<Property>, i: nat, end: nat)
    requires i <= end <= |ordered|
  {
    forall k :: i <= k < end ==> ordered[k].isBitfield
  }

  function Range(i: nat, end: nat): seq<nat>
    requires i <= end
  {
    seq(end - i, n requires n >= 0 => i + n)
  }

  // ---------------------------------------------------------------- what the loop keeps

  datatype Layout = Layout(slots: seq<Slot>, used: set<string>, warnings: seq<Warning>)

  predicate Holds(s: Slot, k: nat) {
    match s.kind
    case One(property) => property == k
    case Packed(properties) => k in properties
    case _ => false
  }

  ghost predicate Placed(slots: seq<Slot>, k: nat) { exists s :: 0 <= s < |slots| && Holds(slots[s], k) }

  /**
   * A slot stands at its property's offset, has its size, and a name made from its own; a padding is named
   * by place.
   */
  ghost predicate SlotRight(ordered: seq<Property>, safe: string -> string, s: Slot) {
    match s.kind
    case One(k) =>
      k < |ordered| && s.offset == ordered[k].offset && s.size == UsableSize(ordered[k])
          && MadeName(safe(ordered[k].name), s.name)
    case Packed(ks) =>
      && |ks| > 1 && s.size == 1 && ks[0] < |ordered|
      && (forall n {:trigger ks[n]} :: 0 <= n < |ks| ==> ks[n] == ks[0] + n)
      && (forall k :: k in ks ==> k < |ordered| && ordered[k].isBitfield && ordered[k].offset == s.offset)
      && MadeName(safe(ordered[ks[0]].name), s.name)
    case Padding => s.offset >= 0 && s.name == PadName(s.offset)
    case Inherited => s.offset == 0 && s.name == "pad_base"
    case Embedded(_) => s.offset == 0 && s.name == "baseclass_0"
  }

  function PadName(offset: nat): string { "pad_" + Hex4(offset) }

  ghost predicate MadeName(want: string, name: string) { name == want || IsSuffixed(want, 1, name) }

  ghost predicate SlotsRight(ordered: seq<Property>, safe: string -> string, slots: seq<Slot>) {
    forall s :: s in slots ==> SlotRight(ordered, safe, s)
  }

  /** Members have names of their own. */
  ghost predicate NamesOk(slots: seq<Slot>, used: set<string>) {
    && (forall a {:trigger slots[a]} :: 0 <= a < |slots| && !Anonymous(slots[a].kind) ==> slots[a].name in used)
    && (forall a, b {:trigger slots[a], slots[b]} ::
        0 <= a < b < |slots| && !Anonymous(slots[a].kind) && !Anonymous(slots[b].kind)
        ==> slots[a].name != slots[b].name)
  }

  /** The byte belongs to a member, or to the base. */
  ghost predicate InMember(slots: seq<Slot>, x: int) {
    exists i :: 0 <= i < |slots| && !slots[i].kind.Padding? && Contains(slots[i], x)
  }

  /** The warning is about the record: its base, or its end. The others are about a property. */
  predicate OnRecord(w: Warning) { w.BaseMismatch? || w.Overruns? }

  /** What a warning about a property says is so. */
  ghost predicate WarningTrue(ordered: seq<Property>, slots: seq<Slot>, w: Warning)
    requires !OnRecord(w)
  {
    match w
    case Overlaps(k, end) =>
      k < |ordered| && ordered[k].offset < end && (ordered[k].offset < 0 || InMember(slots, ordered[k].offset))
    case NotAllPacked(k) =>
      && k < |ordered|
      && exists j {:trigger ordered[j]} ::
           0 <= j < |ordered| && j != k && ordered[j].offset == ordered[k].offset
               && !(ordered[j].isBitfield && ordered[k].isBitfield)
    case NoSize(k) => k < |ordered| && UsableSize(ordered[k]) <= 0
  }

  /** Between two warnings about the record there are only ones about its properties. */
  ghost predicate OnlyProperties(before: seq<Warning>, after: seq<Warning>) {
    before <= after && forall w :: w in after[|before|..] ==> !OnRecord(w)
  }

  ghost predicate WarningsTrue(ordered: seq<Property>, slots: seq<Slot>, warnings: seq<Warning>) {
    forall w :: w in warnings && !OnRecord(w) ==> WarningTrue(ordered, slots, w)
  }

  /** The warning accounts for the k-th property: for its group, or for all of it but the first. */
  ghost predicate About(ordered: seq<Property>, w: Warning, k: nat)
    requires k < |ordered|
  {
    match w
    case Overlaps(j, _) => j < |ordered| && ordered[j].offset == ordered[k].offset
    case NotAllPacked(j) => j < k && ordered[j].offset == ordered[k].offset
    case NoSize(j) => j < |ordered| && ordered[j].offset == ordered[k].offset
    case _ => false
  }

  ghost predicate Warned(ordered: seq<Property>, warnings: seq<Warning>, k: nat)
    requires k < |ordered|
  {
    exists w :: w in warnings && About(ordered, w, k)
  }

  /** Each of the first n properties is in a slot, or a warning accounts for it. */
  ghost predicate Covered(ordered: seq<Property>, n: nat, l: Layout) {
    n <= |ordered| && forall k: nat :: k < n ==> Placed(l.slots, k) || Warned(ordered, l.warnings, k)
  }

  /** No property is both placed and refused. */
  ghost predicate RefusedNotPlaced(slots: seq<Slot>, warnings: seq<Warning>) {
    forall w :: w in warnings && (w.Overlaps? || w.NoSize?) ==> !Placed(slots, w.property)
  }

  /** Only the first n properties were placed or refused, and none both. */
  ghost predicate Apart(n: nat, l: Layout) {
    && (forall k: nat :: Placed(l.slots, k) ==> k < n)
    && (forall w :: w in l.warnings && (w.Overlaps? || w.NoSize?) ==> w.property < n)
    && RefusedNotPlaced(l.slots, l.warnings)
  }

  ghost predicate Sound(ordered: seq<Property>, safe: string -> string, n: nat, l: Layout) {
    Right(ordered, safe, n, l) && Apart(n, l)
  }

  ghost predicate Right(ordered: seq<Property>, safe: string -> string, n: nat, l: Layout) {
    && Tiled(l.slots) && SlotsRight(ordered, safe, l.slots) && NamesOk(l.slots, l.used)
    && WarningsTrue(ordered, l.slots, l.warnings) && Covered(ordered, n, l)
  }

  lemma CoveredSlot(ordered: seq<Property>, n: nat, l: Layout, s: Slot, used: set<string>)
    requires Covered(ordered, n, l)
    ensures Covered(ordered, n, Layout(l.slots + [s], used, l.warnings))
  {
    forall k: nat | k < n ensures Placed(l.slots + [s], k) || Warned(ordered, l.warnings, k) {
      PlacedMore(l.slots, s, k);
    }
  }

  lemma PlacedMore(slots: seq<Slot>, s: Slot, k: nat)
    ensures Placed(slots + [s], k) <==> Placed(slots, k) || Holds(s, k)
  {
    var slots' := slots + [s];
    assert slots'[|slots|] == s;
    if Placed(slots, k) {
      var i :| 0 <= i < |slots| && Holds(slots[i], k);
      assert Holds(slots'[i], k);
    }
  }

  lemma WarningsTrueSlot(ordered: seq<Property>, slots: seq<Slot>, s: Slot, warnings: seq<Warning>)
    requires WarningsTrue(ordered, slots, warnings)
    ensures WarningsTrue(ordered, slots + [s], warnings)
  {
    forall w | w in warnings && !OnRecord(w) ensures WarningTrue(ordered, slots + [s], w) {
      assert WarningTrue(ordered, slots, w);
      if w.Overlaps? && InMember(slots, ordered[w.property].offset) {
        var i :| 0 <= i < |slots| && !slots[i].kind.Padding? && Contains(slots[i], ordered[w.property].offset);
        assert (slots + [s])[i] == slots[i];
      }
    }
  }

  /** One more slot that holds no property. */
  lemma SlotSound(ordered: seq<Property>, safe: string -> string, n: nat, l: Layout, s: Slot)
    requires Sound(ordered, safe, n, l) && SlotRight(ordered, safe, s) && forall k: nat :: !Holds(s, k)
    requires s.size > 0 && s.offset == EndOf(l.slots) && (Anonymous(s.kind) || s.name !in l.used)
    ensures Sound(ordered, safe, n, Layout(l.slots + [s], if Anonymous(s.kind) then l.used
                                           else l.used + {s.name}, l.warnings))
  {
    SlotFits(ordered, safe, n, l, s);
    forall k: nat ensures Placed(l.slots + [s], k) <==> Placed(l.slots, k) {
      PlacedMore(l.slots, s, k);
    }
  }

  /** One more slot: padding, or with a name of its own. */
  lemma SlotFits(ordered: seq<Property>, safe: string -> string, n: nat, l: Layout, s: Slot)
    requires Right(ordered, safe, n, l) && SlotRight(ordered, safe, s)
    requires s.size > 0 && s.offset == EndOf(l.slots) && (Anonymous(s.kind) || s.name !in l.used)
    ensures Right(ordered, safe, n, Layout(l.slots + [s], if Anonymous(s.kind) then l.used
                                           else l.used + {s.name}, l.warnings))
  {
    var used := if Anonymous(s.kind) then l.used else l.used + {s.name};
    TiledMore(l.slots, s);
    CoveredSlot(ordered, n, l, s, used);
    WarningsTrueSlot(ordered, l.slots, s, l.warnings);
  }

  /** Paddings and members were added, and nothing that stands for the base. */
  ghost predicate Adds(before: seq<Slot>, after: seq<Slot>) {
    before <= after && forall a {:trigger after[a]} :: |before| <= a < |after| ==>
      !after[a].kind.Embedded? && !after[a].kind.Inherited?
  }

  /** Padding up to `target`, when it is ahead. */
  method PadTo(l: Layout, target: int, ghost ordered: seq<Property>, ghost safe: string -> string, ghost n: nat)
    returns (next: Layout)
    requires Sound(ordered, safe, n, l)
    ensures Sound(ordered, safe, n, next) && EndOf(next.slots) == Max(EndOf(l.slots), target)
    ensures next.used == l.used && next.warnings == l.warnings && Adds(l.slots, next.slots)
  {
    next := l;
    var cursor := EndOf(l.slots);
    if target > cursor {
      EndsGrow(l.slots, |l.slots|, |l.slots|);
      assert l.slots[..|l.slots|] == l.slots;
      var s := Slot(cursor, target - cursor, PadName(cursor), Padding);
      SlotSound(ordered, safe, n, l, s);
      next := l.(slots := l.slots + [s]);
    }
  }

  lemma WarnedMore(ordered: seq<Property>, warnings: seq<Warning>, w: Warning, k: nat)
    requires k < |ordered|
    ensures Warned(ordered, warnings + [w], k) <==> Warned(ordered, warnings, k) || About(ordered, w, k)
  {
    if About(ordered, w, k) {
      assert w in warnings + [w];
    }
    if Warned(ordered, warnings, k) {
      var v :| v in warnings && About(ordered, v, k);
      assert v in warnings + [w];
    }
  }

  /** A warning that is so, and refuses no property. */
  lemma WarningSound(ordered: seq<Property>, safe: string -> string, n: nat, l: Layout, w: Warning)
    requires Sound(ordered, safe, n, l) && (OnRecord(w) || WarningTrue(ordered, l.slots, w))
    requires !w.Overlaps? && !w.NoSize?
    ensures Sound(ordered, safe, n, l.(warnings := l.warnings + [w]))
  {
    WarningFits(ordered, safe, n, l, w);
  }

  /** A warning that is so. */
  lemma WarningFits(ordered: seq<Property>, safe: string -> string, n: nat, l: Layout, w: Warning)
    requires Right(ordered, safe, n, l) && (OnRecord(w) || WarningTrue(ordered, l.slots, w))
    ensures Right(ordered, safe, n, l.(warnings := l.warnings + [w]))
  {
    forall k: nat | k < n ensures Placed(l.slots, k) || Warned(ordered, l.warnings + [w], k) {
      WarnedMore(ordered, l.warnings, w, k);
    }
  }

  /** The group is dealt with: each of its properties is in a slot, or a warning accounts for it. */
  lemma GroupFits(ordered: seq<Property>, safe: string -> string, i: nat, end: nat, l: Layout)
    requires Right(ordered, safe, i, l) && i < end <= |ordered|
    requires forall k: nat :: i <= k < end ==> Placed(l.slots, k) || Warned(ordered, l.warnings, k)
    ensures Right(ordered, safe, end, l)
  {
  }

  /** The loop stands before a group: the last slot is a member's, and starts no later than the group. */
  ghost predicate Ready(ordered: seq<Property>, i: nat, l: Layout) {
    l.slots != [] ==> var last := l.slots[|l.slots| - 1];
      !last.kind.Padding? && (last.offset == 0 || forall k {:trigger ordered[k]} :: i <= k < |ordered| ==>
                              last.offset <= ordered[k].offset)
  }

  /** A group that starts before the cursor starts inside a member. */
  lemma OverlapTrue(ordered: seq<Property>, i: nat, l: Layout)
    requires i < |ordered| && Ready(ordered, i, l) && ordered[i].offset < EndOf(l.slots)
    ensures WarningTrue(ordered, l.slots, Overlaps(i, EndOf(l.slots)))
  {
    if ordered[i].offset >= 0 && l.slots != [] {
      assert Contains(l.slots[|l.slots| - 1], ordered[i].offset);
    }
  }

  /** The warning that a group overlaps, or that its property has no size. */
  method Refuse(ordered: seq<Property>, i: nat, end: nat, w: Warning, l: Layout, ghost safe: string -> string)
    returns (next: Layout)
    requires Sound(ordered, safe, i, l) && IsGroup(ordered, i, end)
    requires (w.NoSize? || w.Overlaps?) && WarningTrue(ordered, l.slots, w) && w.property == i
    ensures Sound(ordered, safe, end, next) && next == l.(warnings := l.warnings + [w])
  {
    WarningFits(ordered, safe, i, l, w);
    next := l.(warnings := l.warnings + [w]);
    forall k: nat | i <= k < end ensures Warned(ordered, next.warnings, k) {
      assert ordered[k].offset == ordered[i].offset;
      WarnedMore(ordered, l.warnings, w, k);
    }
    GroupFits(ordered, safe, i, end, next);
    RefusedApart(i, end, l, w);
  }

  /** The next group is refused. */
  lemma RefusedApart(i: nat, end: nat, l: Layout, w: Warning)
    requires Apart(i, l) && i < end && (w.NoSize? || w.Overlaps?) && w.property == i
    ensures Apart(end, l.(warnings := l.warnings + [w]))
  {
  }

  /** The next group is placed. */
  lemma PlacedApart(i: nat, end: nat, l: Layout, s: Slot, used: set<string>)
    requires Apart(i, l) && i < end && forall k: nat :: Holds(s, k) ==> i <= k < end
    ensures Apart(end, Layout(l.slots + [s], used, l.warnings))
  {
    forall k: nat ensures Placed(l.slots + [s], k) <==> Placed(l.slots, k) || Holds(s, k) {
      PlacedMore(l.slots, s, k);
    }
  }

  /** Every property of the group but the first is accounted for. */
  ghost predicate RestWarned(ordered: seq<Property>, i: nat, end: nat, warnings: seq<Warning>)
    requires end <= |ordered|
  {
    forall k: nat :: i < k < end ==> Warned(ordered, warnings, k)
  }

  /** Nothing more was placed, or a member that starts where the group does. */
  ghost predicate Leaves(ordered: seq<Property>, i: nat, l: Layout, next: Layout)
    requires i < |ordered|
  {
    || next.slots == l.slots
    || (next.slots != [] && var last := next.slots[|next.slots| - 1];
                            !last.kind.Padding? && last.offset == ordered[i].offset)
  }

  /** The slot of a group that is placed. */
  method PlaceSlot(ordered: seq<Property>, i: nat, end: nat, size: int, kind: Kind, l: Layout, safe: string -> string)
    returns (next: Layout)
    requires Sound(ordered, safe, i, l) && IsGroup(ordered, i, end) && EndOf(l.slots) <= ordered[i].offset && size > 0
    requires || (kind == One(i) && size == UsableSize(ordered[i]) && RestWarned(ordered, i, end, l.warnings))
             || (kind == Packed(Range(i, end)) && size == 1 && end - i > 1 && AllPacked(ordered, i, end))
    ensures Sound(ordered, safe, end, next) && Adds(l.slots, next.slots) && next.warnings == l.warnings
    ensures Leaves(ordered, i, l, next)
  {
    var padded := PadTo(l, ordered[i].offset, ordered, safe, i);
    var name, used := UniqueMember(safe(ordered[i].name), padded.used);
    var s := Slot(ordered[i].offset, size, name, kind);
    SlotIsRight(ordered, i, end, safe, s);
    AddsMember(l.slots, padded.slots, s);
    GroupPlaced(ordered, safe, i, end, padded, s);
    next := Layout(padded.slots + [s], used, padded.warnings);
  }

  lemma AddsMember(before: seq<Slot>, padded: seq<Slot>, s: Slot)
    requires Adds(before, padded) && (s.kind.One? || s.kind.Packed?)
    ensures Adds(before, padded + [s])
  {
  }

  /** With its slot the group is dealt with. */
  lemma GroupPlaced(ordered: seq<Property>, safe: string -> string, i: nat, end: nat, l: Layout, s: Slot)
    requires Sound(ordered, safe, i, l) && IsGroup(ordered, i, end) && SlotRight(ordered, safe, s)
    requires s.size > 0 && s.offset == EndOf(l.slots) && s.name !in l.used
    requires || (s.kind == One(i) && RestWarned(ordered, i, end, l.warnings))
             || (s.kind == Packed(Range(i, end)) && end - i > 1)
    ensures Sound(ordered, safe, end, Layout(l.slots + [s], l.used + {s.name}, l.warnings))
  {
    var next := Layout(l.slots + [s], l.used + {s.name}, l.warnings);
    SlotFits(ordered, safe, i, l, s);
    forall k: nat | i <= k < end ensures Placed(next.slots, k) || Warned(ordered, next.warnings, k) {
      PlacedMore(l.slots, s, k);
      assert s.kind.Packed? ==> Range(i, end)[k - i] == k;
    }
    GroupFits(ordered, safe, i, end, next);
    PlacedApart(i, end, l, s, next.used);
  }

  lemma SlotIsRight(ordered: seq<Property>, i: nat, end: nat, safe: string -> string, s: Slot)
    requires IsGroup(ordered, i, end) && s.offset == ordered[i].offset && MadeName(safe(ordered[i].name), s.name)
    requires || (s.kind == One(i) && s.size == UsableSize(ordered[i]))
             || (s.kind == Packed(Range(i, end)) && s.size == 1 && end - i > 1 && AllPacked(ordered, i, end))
    ensures SlotRight(ordered, safe, s)
  {
    if s.kind.Packed? {
      var ks := Range(i, end);
      forall k | k in ks ensures k < |ordered| && ordered[k].isBitfield && ordered[k].offset == s.offset {
        assert i <= k < end;
      }
    }
  }

  /** The properties of one offset that are not all packed: all but the first are given up. */
  method WarnMixed(ordered: seq<Property>, i: nat, end: nat, l: Layout, ghost safe: string -> string)
    returns (next: Layout)
    requires Sound(ordered, safe, i, l) && IsGroup(ordered, i, end) && (end - i > 1 ==> !AllPacked(ordered, i, end))
    ensures Sound(ordered, safe, i, next) && next.slots == l.slots && RestWarned(ordered, i, end, next.warnings)
    ensures OnlyProperties(l.warnings, next.warnings)
  {
    next := l;
    if end - i > 1 {
      MixedGroup(ordered, i, end, l.slots);
      WarningSound(ordered, safe, i, l, NotAllPacked(i));
      next := l.(warnings := l.warnings + [NotAllPacked(i)]);
      forall k: nat | i < k < end ensures Warned(ordered, next.warnings, k) {
        assert ordered[k].offset == ordered[i].offset;
        WarnedMore(ordered, l.warnings, NotAllPacked(i), k);
      }
    }
  }

  /** With nothing more placed, or with a member at the group's offset, the loop stands before the next group. */
  lemma ReadyNext(ordered: seq<Property>, i: nat, end: nat, l: Layout, next: Layout)
    requires Ready(ordered, i, l) && IsGroup(ordered, i, end) && StableSort.Sorted(ordered, OffsetLe)
    requires Leaves(ordered, i, l, next)
    ensures Ready(ordered, end, next)
  {
    forall k {:trigger ordered[k]} | end <= k < |ordered| ensures ordered[i].offset <= ordered[k].offset {
      assert OffsetLe(ordered[i], ordered[k]);
    }
  }

  /** A group of which one property at most is placed, unless it has no usable size. */
  method FillOne(ordered: seq<Property>, i: nat, end: nat, l: Layout, safe: string -> string) returns (next: Layout)
    requires Sound(ordered, safe, i, l) && IsGroup(ordered, i, end) && EndOf(l.slots) <= ordered[i].offset
    requires end - i > 1 ==> !AllPacked(ordered, i, end)
    ensures Sound(ordered, safe, end, next) && Leaves(ordered, i, l, next) && Adds(l.slots, next.slots)
    ensures OnlyProperties(l.warnings, next.warnings)
  {
    next := WarnMixed(ordered, i, end, l, safe);
    var size := UsableSize(ordered[i]);
    if size <= 0 {
      next := Refuse(ordered, i, end, NoSize(i), next, safe);
    } else {
      next := PlaceSlot(ordered, i, end, size, One(i), next, safe);
    }
  }

  /** A group that does not overlap: its slot, unless it has no usable size. */
  method FillGroup(ordered: seq<Property>, i: nat, end: nat, l: Layout, safe: string -> string) returns (next: Layout)
    requires Sound(ordered, safe, i, l) && Ready(ordered, i, l) && IsGroup(ordered, i, end)
             && EndOf(l.slots) <= ordered[i].offset
    requires StableSort.Sorted(ordered, OffsetLe)
    ensures Sound(ordered, safe, end, next) && Ready(ordered, end, next) && Adds(l.slots, next.slots)
    ensures OnlyProperties(l.warnings, next.warnings)
  {
    if end - i > 1 && AllPacked(ordered, i, end) {
      next := PlaceSlot(ordered, i, end, 1, Packed(Range(i, end)), l, safe);
    } else {
      next := FillOne(ordered, i, end, l, safe);
    }
    ReadyNext(ordered, i, end, l, next);
  }

  /** One group of properties at one offset. */
  method PlaceGroup(ordered: seq<Property>, i: nat, end: nat, l: Layout, safe: string -> string) returns (next: Layout)
    requires Sound(ordered, safe, i, l) && Ready(ordered, i, l) && IsGroup(ordered, i, end)
             && StableSort.Sorted(ordered, OffsetLe)
    ensures Sound(ordered, safe, end, next) && Ready(ordered, end, next) && Adds(l.slots, next.slots)
    ensures OnlyProperties(l.warnings, next.warnings)
  {
    var cursor := EndOf(l.slots);
    if ordered[i].offset < cursor {
      OverlapTrue(ordered, i, l);
      next := Refuse(ordered, i, end, Overlaps(i, cursor), l, safe);
      ReadyNext(ordered, i, end, l, next);
    } else {
      next := FillGroup(ordered, i, end, l, safe);
    }
  }

  lemma MixedGroup(ordered: seq<Property>, i: nat, end: nat, slots: seq<Slot>)
    requires IsGroup(ordered, i, end) && end - i > 1 && !AllPacked(ordered, i, end)
    ensures WarningTrue(ordered, slots, NotAllPacked(i))
  {
    var k :| i <= k < end && !ordered[k].isBitfield;
    var j := if k == i then i + 1 else k;
    assert ordered[j].offset == ordered[i].offset;
  }

  /** The base can be embedded: it is known and as long as the record says. */
  predicate Usable(types: seq<Record>, record: Record) {
    record.super != "" && match DisasmOrder.Lookup(types, record.super)
                          case None => false
                          case Some(base) => types[base].size == record.inheritedSize
  }

  /** The base is known, and not as long as the record says. */
  predicate BaseDiffers(types: seq<Record>, record: Record) {
    record.inheritedSize > 0 && record.super != "" && match DisasmOrder.Lookup(types, record.super)
                                                      case None => false
                                                      case Some(base) => types[base].size != record.inheritedSize
  }

  /** The slot of the inherited bytes. */
  function BaseSlot(types: seq<Record>, record: Record): Slot {
    if Usable(types, record) then Slot(0, record.inheritedSize, "baseclass_0", Embedded(record.super))
    else Slot(0, record.inheritedSize, "pad_base", Inherited)
  }

  /** Where the slots start: with the inherited bytes, when there are any. */
  method StartLayout(types: seq<Record>, record: Record, ghost ordered: seq<Property>, ghost safe: string -> string)
    returns (l: Layout)
    ensures Sound(ordered, safe, 0, l) && Ready(ordered, 0, l)
    ensures l.slots == if record.inheritedSize > 0 then [BaseSlot(types, record)] else []
    ensures l.warnings == if BaseDiffers(types, record) then [BaseMismatch] else []
  {
    l := Layout([], {}, []);
    if record.inheritedSize > 0 {
      if BaseDiffers(types, record) {
        WarningSound(ordered, safe, 0, l, BaseMismatch);
        l := l.(warnings := [BaseMismatch]);
      }
      SlotSound(ordered, safe, 0, l, BaseSlot(types, record));
      l := l.(slots := [BaseSlot(types, record)]);
    }
    l := l.(used := {"baseclass_0"});
  }

  method PlaceAll(ordered: seq<Property>, start: Layout, safe: string -> string) returns (l: Layout)
    requires Sound(ordered, safe, 0, start) && Ready(ordered, 0, start) && StableSort.Sorted(ordered, OffsetLe)
    ensures Sound(ordered, safe, |ordered|, l) && Adds(start.slots, l.slots)
            && OnlyProperties(start.warnings, l.warnings)
  {
    l := start;
    var i := 0;
    while i < |ordered|
      invariant 0 <= i <= |ordered| && Sound(ordered, safe, i, l) && Ready(ordered, i, l) && Adds(start.slots, l.slots)
      invariant OnlyProperties(start.warnings, l.warnings)
    {
      var end := GroupEnd(ordered, i);
      l := PlaceGroup(ordered, i, end, l, safe);
      i := end;
    }
  }

  /** The trailing padding, and the warning when members reach past the record. */
  method FinishLayout(ordered: seq<Property>, size: int, placed: Layout, safe: string -> string)
    returns (l: Layout, total: int)
    requires Sound(ordered, safe, |ordered|, placed)
    ensures Sound(ordered, safe, |ordered|, l) && Adds(placed.slots, l.slots)
    ensures EndOf(l.slots) == total == Max(size, EndOf(placed.slots))
    ensures l.warnings == placed.warnings + if total > size > 0 then [Overruns(total)] else []
  {
    l := placed;
    var cursor := EndOf(l.slots);
    if cursor > size > 0 {
      WarningSound(ordered, safe, |ordered|, l, Overruns(cursor));
      l := l.(warnings := l.warnings + [Overruns(cursor)]);
    }
    total := Max(size, cursor);
    l := PadTo(l, total, ordered, safe, |ordered|);
  }

  /** The warnings about the base and the end, among those about properties. */
  lemma RecordWarnings(start: seq<Warning>, placed: seq<Warning>, all: seq<Warning>, differs: bool, over: bool,
                       end: int)
    requires start == (if differs then [BaseMismatch] else []) && OnlyProperties(start, placed)
    requires all == placed + if over then [Overruns(end)] else []
    ensures BaseMismatch in all <==> differs
    ensures forall e :: Overruns(e) in all <==> over && e == end
  {
    assert placed == start + placed[|start|..];
    assert forall w :: w in all <==> w in start || w in placed[|start|..] || (over && w == Overruns(end));
  }

  /**
   * The cover of one record, whatever it holds: slots of positive size, one after the other from 0
   * to the total; each property's slot at its offset; base and property names distinct; and every
   * property in a slot, or accounted for by a warning that is true of it. The warning about the base is
   * there if and only if the base is found and of another size, the one about the end if and only if
   * members reach past it.
   */
  method ComputeLayout(types: seq<Record>, record: Record, safe: string -> string)
    returns (slots: seq<Slot>, total: int, warnings: seq<Warning>, ghost ordered: seq<Property>,
             ghost used: set<string>)
    ensures ordered == StableSort.Sort(record.properties, OffsetLe)
    ensures Tiled(slots) && EndOf(slots) == total && total >= record.size
    ensures Adds(if record.inheritedSize > 0 then [BaseSlot(types, record)] else [], slots)
    ensures SlotsRight(ordered, safe, slots) && NamesOk(slots, used)
    ensures WarningsTrue(ordered, slots, warnings) && Covered(ordered, |ordered|, Layout(slots, used, warnings))
    ensures RefusedNotPlaced(slots, warnings)
    ensures BaseMismatch in warnings <==> BaseDiffers(types, record)
    ensures forall end :: Overruns(end) in warnings <==> end == total > record.size > 0
  {
    var sorted := StableSort.Sort(record.properties, OffsetLe);
    StableSort.SortSorted(record.properties, OffsetLe);
    var start := StartLayout(types, record, sorted, safe);
    var l := PlaceAll(sorted, start, safe);
    ghost var placed := l.warnings;
    l, total := FinishLayout(sorted, record.size, l, safe);
    RecordWarnings(start.warnings, placed, l.warnings, BaseDiffers(types, record), total > record.size > 0, total);
    slots, warnings, ordered, used := l.slots, l.warnings, sorted, l.used;
  }

  /** The base the layout starts with is one the record embeds whole. */
  lemma UsableIs(types: seq<Record>, record: Record)
    requires record.inheritedSize > 0
    ensures BaseSlot(types, record).kind.Embedded? <==> exists d: nat :: DisasmOrder.EmbedsAsBase(types, record, d)
    ensures BaseDiffers(types, record) <==>
            exists d: nat :: record.super != "" && DisasmOrder.IsFirst(types, record.super, d)
                             && types[d].size != record.inheritedSize
  {
    forall d: nat
      ensures DisasmOrder.Lookup(types, record.super) == Some(d) <==> DisasmOrder.IsFirst(types, record.super, d)
    {
      DisasmOrder.LookupIs(types, record.super, d);
    }
    var at := DisasmOrder.Lookup(types, record.super);
    if at.Some? && record.super != "" && types[at.value].size == record.inheritedSize {
      assert DisasmOrder.EmbedsAsBase(types, record, at.value);
    }
  }

  /**
   * A layout holds another type whole if and only if it is the record's base, of the size inherited; so that
   * type is one the order of definition puts first.
   */
  lemma EmbeddedIsDependency(types: seq<Record>, n: nat, slots: seq<Slot>, path: string)
    requires n < |types|
    requires Adds(if types[n].inheritedSize > 0 then [BaseSlot(types, types[n])] else [], slots)
    ensures (exists s :: s in slots && s.kind == Embedded(path)) <==>
            exists d: nat :: DisasmOrder.EmbedsAsBase(types, types[n], d) && path == types[d].path
    ensures forall d: nat :: DisasmOrder.EmbedsAsBase(types, types[n], d) ==> DisasmOrder.Embeds(types, n, d)
  {
    if types[n].inheritedSize > 0 {
      UsableIs(types, types[n]);
      forall s | s in slots && s.kind.Embedded? ensures s == slots[0] {
        var a :| 0 <= a < |slots| && slots[a] == s;
      }
    }
  }

  /** A property has a size to use when it reports one, or its type does: then that of its elements together. */
  lemma UsableIff(p: Property)
    ensures UsableSize(p) > 0 <==> p.size > 0 || p.ty.size > 0
    ensures p.size > 0 ==> UsableSize(p) == p.size
    ensures p.size <= 0 ==> UsableSize(p) == Sum(seq(Max(1, p.arrayDim), _ => p.ty.size))
  {
    SumOfSame(p.ty.size, Max(1, p.arrayDim));
  }

  lemma {:induction false} SumOfSame(size: int, n: nat)
    ensures Sum(seq(n, _ => size)) == size * n
  {
    if n > 0 {
      SumOfSame(size, n - 1);
      assert seq(n, _ => size)[1..] == seq(n - 1, _ => size);
    }
  }

  // ---------------------------------------------------------------- the names of all slots

  lemma OffsetsRise(slots: seq<Slot>, a: nat, b: nat)
    requires Tiled(slots) && a < b < |slots|
    ensures 0 <= slots[a].offset < slots[b].offset
  {
    TiledWithin(slots, a);
    TiledWithin(slots, b);
    EndsGrow(slots, a + 1, b);
  }

  /** Two paddings never share a name, and padding in place of the base has one of its own. */
  lemma PadsApart(ordered: seq<Property>, safe: string -> string, slots: seq<Slot>, a: nat, b: nat)
    requires Tiled(slots) && SlotsRight(ordered, safe, slots) && a < b < |slots|
    requires Anonymous(slots[a].kind) && Anonymous(slots[b].kind)
    ensures slots[a].name != slots[b].name
  {
    OffsetsRise(slots, a, b);
    assert SlotRight(ordered, safe, slots[a]) && SlotRight(ordered, safe, slots[b]);
    PadNamesApart(slots[a].offset, slots[b].offset);
  }

  lemma PadNamesApart(m: nat, n: nat)
    ensures PadName(n) != "pad_base" && (m != n ==> PadName(m) != PadName(n))
  {
    Hex4Back(m);
    Hex4Back(n);
    assert PadName(m)[4..] == Hex4(m) && PadName(n)[4..] == Hex4(n);
    assert PadName(n)[4] <= 'F';
  }

  ghost predicate NamesDistinct(slots: seq<Slot>) {
    forall a, b :: 0 <= a < b < |slots| ==> slots[a].name != slots[b].name
  }

  /** A member has the name of a padding. */
  ghost predicate PadClash(slots: seq<Slot>) {
    exists a, b :: 0 <= a < |slots| && 0 <= b < |slots| && Anonymous(slots[a].kind) && !Anonymous(slots[b].kind)
                   && slots[a].name == slots[b].name
  }

  /** Names of paddings are not claimed: all names differ if and only if no member has the name of a padding. */
  lemma NamesDistinctIff(ordered: seq<Property>, safe: string -> string, slots: seq<Slot>, used: set<string>)
    requires Tiled(slots) && SlotsRight(ordered, safe, slots) && NamesOk(slots, used)
    ensures NamesDistinct(slots) <==> !PadClash(slots)
  {
    if PadClash(slots) {
      var a, b :| 0 <= a < |slots| && 0 <= b < |slots| && Anonymous(slots[a].kind) && !Anonymous(slots[b].kind)
                  && slots[a].name == slots[b].name;
      assert a != b;
    } else {
      forall a, b | 0 <= a < b < |slots| ensures slots[a].name != slots[b].name {
        if Anonymous(slots[a].kind) && Anonymous(slots[b].kind) {
          PadsApart(ordered, safe, slots, a, b);
        }
      }
    }
  }

  /** A number behind a name that does not begin with "pad" leaves it one that does not. */
  lemma MadeBegins(want: string, name: string)
    requires MadeName(want, name) && "pad" <= name
    ensures "pad" <= want
  {
    if name != want {
      var k: nat :| k >= 1 && name == Suffixed(want, k);
      assert name[|want|] == '_' && name[0] == 'p' && name[1] == 'a' && name[2] == 'd';
      assert want == name[..|want|];
    }
  }

  /** So all names differ when no property's begins with "pad". */
  lemma NoPadNoClash(ordered: seq<Property>, safe: string -> string, slots: seq<Slot>, used: set<string>)
    requires Tiled(slots) && SlotsRight(ordered, safe, slots) && NamesOk(slots, used)
    requires forall p :: p in ordered ==> !("pad" <= safe(p.name))
    ensures NamesDistinct(slots)
  {
    NamesDistinctIff(ordered, safe, slots, used);
    forall a, b | 0 <= a < |slots| && 0 <= b < |slots| && Anonymous(slots[a].kind) && !Anonymous(slots[b].kind)
      ensures slots[a].name != slots[b].name
    {
      PaddingBegins(ordered, safe, slots[a]);
      MemberBegins(ordered, safe, slots[b]);
    }
  }

  lemma PaddingBegins(ordered: seq<Property>, safe: string -> string, s: Slot)
    requires SlotRight(ordered, safe, s) && Anonymous(s.kind)
    ensures "pad" <= s.name
  {
    if s.kind.Padding? {
      PadBegins(s.offset);
    } else {
      PadBegins(0);
    }
  }

  lemma MemberBegins(ordered: seq<Property>, safe: string -> string, s: Slot)
    requires SlotRight(ordered, safe, s) && !Anonymous(s.kind)
    requires forall p :: p in ordered ==> !("pad" <= safe(p.name))
    ensures !("pad" <= s.name)
  {
    PadBegins(0);
    if "pad" <= s.name {
      match s.kind
      case One(k) => MadeBegins(safe(ordered[k].name), s.name);
      case Packed(ks) => MadeBegins(safe(ordered[ks[0]].name), s.name);
      case _ =>
    }
  }

  lemma PadBegins(offset: nat)
    ensures "pad" <= PadName(offset) && "pad" <= "pad_base" && !("pad" <= "baseclass_0")
  {
    assert PadName(offset)[..3] == "pad";
    assert "pad_base"[..3] == "pad";
    assert "baseclass_0"[0] == 'b';
  }

  /** No property is in two slots. */
  lemma PlacedOnce(ordered: seq<Property>, safe: string -> string, slots: seq<Slot>, k: nat, a: nat, b: nat)
    requires Tiled(slots) && SlotsRight(ordered, safe, slots) && a < |slots| && b < |slots|
    requires Holds(slots[a], k) && Holds(slots[b], k)
    ensures a == b
  {
    assert SlotRight(ordered, safe, slots[a]) && SlotRight(ordered, safe, slots[b]);
    TiledCovers(slots, ordered[k].offset);
    assert Contains(slots[a], ordered[k].offset) && Contains(slots[b], ordered[k].offset);
  }
}
