/**
 * What one pass of the diff says, field by field: a change is raised exactly when the field it is about
 * differs, and shows the two values.
 */
module DiffFields {
  import opened Common
  import opened Ir
  import opened DiffPairing
  import opened DiffMembers

  // ---------------------------------------------------------------- one pair of properties

  /** What a change of the kind says of a property that was p and is `now`. */
  predicate FieldDiffers(sig: TypeRef -> string, p: Property, now: Property, kind: ChangeKind, before: Shown,
                         after: Shown) {
    match kind
    case PropertyMoved => p.offset != now.offset && before == Number(p.offset) && after == Number(now.offset)
    case PropertyResized => p.size != now.size && before == Number(p.size) && after == Number(now.size)
    case PropertyTypeChanged =>
      sig(p.ty) != sig(now.ty) && before == Words(sig(p.ty)) && after == Words(sig(now.ty))
    case PropertyBitMoved =>
      && p.isBitfield && now.isBitfield && (p.bitIndex, p.fieldMask) != (now.bitIndex, now.fieldMask)
      && before == Bits(p.bitIndex, p.fieldMask) && after == Bits(now.bitIndex, now.fieldMask)
    case PropertyFlagsChanged => p.flags != now.flags && before == Number(p.flags) && after == Number(now.flags)
    case PropertyDefaultChanged =>
      && p.defaultValue != "" && now.defaultValue != "" && p.defaultValue != now.defaultValue
      && before == Words(p.defaultValue) && after == Words(now.defaultValue)
    case _ => false
  }

  /** The change is about the member at the path, as loud as its kind. */
  predicate About(c: Change, path: string, member: string) {
    c.path == path && c.member == member && c.severity == DefaultSeverity(c.kind)
  }

  lemma WhenIs(b: bool, kind: ChangeKind, path: string, member: string, before: Shown, after: Shown, c: Change)
    ensures c in When(b, Raise(kind, path, member, before, after)) <==>
            b && c.kind == kind && About(c, path, member) && c.before == before && c.after == after
  {
  }

  lemma ThreeIn(x: seq<Change>, y: seq<Change>, z: seq<Change>, c: Change)
    ensures c in x + y + z <==> c in x || c in y || c in z
  {
  }

  /** Of a pair a change is raised if and only if its field differs, and it shows the two values. */
  lemma DifferencesAre(sig: TypeRef -> string, path: string, p: Property, now: Property, c: Change)
    ensures c in Differences(sig, path, p, now) <==>
            About(c, path, p.name) && FieldDiffers(sig, p, now, c.kind, c.before, c.after)
  {
    LayoutAre(sig, path, p, now, c);
    DetailAre(sig, path, p, now, c);
  }

  lemma LayoutAre(sig: TypeRef -> string, path: string, p: Property, now: Property, c: Change)
    ensures c in LayoutDifferences(sig, path, p, now) <==>
            && (c.kind.PropertyMoved? || c.kind.PropertyResized? || c.kind.PropertyTypeChanged?)
            && About(c, path, p.name) && FieldDiffers(sig, p, now, c.kind, c.before, c.after)
  {
    var moved := When(p.offset != now.offset, Raise(PropertyMoved, path, p.name, Number(p.offset), Number(now.offset)));
    var resized := When(p.size != now.size, Raise(PropertyResized, path, p.name, Number(p.size), Number(now.size)));
    var typed := When(sig(p.ty) != sig(now.ty),
                      Raise(PropertyTypeChanged, path, p.name, Words(sig(p.ty)), Words(sig(now.ty))));
    WhenIs(p.offset != now.offset, PropertyMoved, path, p.name, Number(p.offset), Number(now.offset), c);
    WhenIs(p.size != now.size, PropertyResized, path, p.name, Number(p.size), Number(now.size), c);
    WhenIs(sig(p.ty) != sig(now.ty), PropertyTypeChanged, path, p.name, Words(sig(p.ty)), Words(sig(now.ty)), c);
    ThreeIn(moved, resized, typed, c);
  }

  lemma DetailAre(sig: TypeRef -> string, path: string, p: Property, now: Property, c: Change)
    ensures c in DetailDifferences(path, p, now) <==>
            && (c.kind.PropertyBitMoved? || c.kind.PropertyFlagsChanged? || c.kind.PropertyDefaultChanged?)
            && About(c, path, p.name) && FieldDiffers(sig, p, now, c.kind, c.before, c.after)
  {
    var was, shows := Bits(p.bitIndex, p.fieldMask), Bits(now.bitIndex, now.fieldMask);
    var bits := When(BitMoved(p, now), Raise(PropertyBitMoved, path, p.name, was, shows));
    var flags := When(p.flags != now.flags,
                      Raise(PropertyFlagsChanged, path, p.name, Number(p.flags), Number(now.flags)));
    var fallback := When(DefaultChanged(p, now),
                         Raise(PropertyDefaultChanged, path, p.name, Words(p.defaultValue), Words(now.defaultValue)));
    WhenIs(BitMoved(p, now), PropertyBitMoved, path, p.name, was, shows, c);
    WhenIs(p.flags != now.flags, PropertyFlagsChanged, path, p.name, Number(p.flags), Number(now.flags), c);
    WhenIs(DefaultChanged(p, now), PropertyDefaultChanged, path, p.name, Words(p.defaultValue),
           Words(now.defaultValue), c);
    ThreeIn(bits, flags, fallback, c);
  }

  /** At most one of each kind. */
  ghost predicate KindsOnce(s: seq<Change>) { forall i, j :: 0 <= i < j < |s| ==> s[i].kind != s[j].kind }

  lemma KindsApart(s: seq<Change>, t: seq<Change>)
    requires KindsOnce(s) && KindsOnce(t) && forall a, b :: a in s && b in t ==> a.kind != b.kind
    ensures KindsOnce(s + t)
  {
    forall i, j | 0 <= i < j < |s + t| ensures (s + t)[i].kind != (s + t)[j].kind {
      if i < |s| <= j {
        assert s[i] in s && t[j - |s|] in t;
      }
    }
  }

  lemma LayoutOnce(sig: TypeRef -> string, path: string, p: Property, now: Property)
    ensures KindsOnce(LayoutDifferences(sig, path, p, now))
  {
    var moved := When(p.offset != now.offset, Raise(PropertyMoved, path, p.name, Number(p.offset), Number(now.offset)));
    var resized := When(p.size != now.size, Raise(PropertyResized, path, p.name, Number(p.size), Number(now.size)));
    KindsApart(moved, resized);
    KindsApart(moved + resized,
               When(sig(p.ty) != sig(now.ty),
                    Raise(PropertyTypeChanged, path, p.name, Words(sig(p.ty)), Words(sig(now.ty)))));
  }

  lemma DetailOnce(path: string, p: Property, now: Property)
    ensures KindsOnce(DetailDifferences(path, p, now))
  {
    var bits := When(BitMoved(p, now), Raise(PropertyBitMoved, path, p.name, Bits(p.bitIndex, p.fieldMask),
                                             Bits(now.bitIndex, now.fieldMask)));
    var flags := When(p.flags != now.flags,
                      Raise(PropertyFlagsChanged, path, p.name, Number(p.flags), Number(now.flags)));
    KindsApart(bits, flags);
    KindsApart(bits + flags,
               When(DefaultChanged(p, now), Raise(PropertyDefaultChanged, path, p.name, Words(p.defaultValue),
                                                  Words(now.defaultValue))));
  }

  lemma DifferencesOnce(sig: TypeRef -> string, path: string, p: Property, now: Property)
    ensures KindsOnce(Differences(sig, path, p, now))
  {
    var layout, detail := LayoutDifferences(sig, path, p, now), DetailDifferences(path, p, now);
    LayoutOnce(sig, path, p, now);
    DetailOnce(path, p, now);
    forall a, b | a in layout && b in detail ensures a.kind != b.kind {
      LayoutAre(sig, path, p, now, a);
      DetailAre(sig, path, p, now, b);
    }
    KindsApart(layout, detail);
  }

  // ---------------------------------------------------------------- a type's properties

  lemma {:induction false} GatheredIn(raises: nat -> seq<Change>, n: nat, c: Change)
    ensures c in Gathered(raises, n) <==> exists k :: 0 <= k < n && c in raises(k)
  {
    if n > 0 {
      GatheredIn(raises, n - 1, c);
    }
  }

  /** Two properties of one name, as many of it before each of them. */
  ghost predicate Pair(before: Record, after: Record, i: nat, j: nat) {
    Mates(PropertyNames(before.properties), PropertyNames(after.properties), i, j)
  }

  /** No new property pairs with it. */
  ghost predicate IsGone(before: Record, after: Record, i: nat) {
    i < |before.properties| && forall j: nat :: !Pair(before, after, i, j)
  }

  /** No old property pairs with it. */
  ghost predicate IsNew(before: Record, after: Record, j: nat) {
    j < |after.properties| && forall i: nat :: !Pair(before, after, i, j)
  }

  /** A field of a pair differs. */
  ghost predicate PairDiffers(sig: TypeRef -> string, before: Record, after: Record, c: Change) {
    exists i: nat :: i < |before.properties| && DiffersAt(sig, before, after, i, c)
  }

  ghost predicate DiffersAt(sig: TypeRef -> string, before: Record, after: Record, i: nat, c: Change)
    requires i < |before.properties|
  {
    exists j: nat :: Pair(before, after, i, j) && About(c, after.path, before.properties[i].name)
                     && FieldDiffers(sig, before.properties[i], after.properties[j], c.kind, c.before, c.after)
  }

  lemma PairAre(sig: TypeRef -> string, before: Record, after: Record, i: nat, c: Change)
    requires i < |before.properties|
    ensures c in PairEvents(sig, before, after, i) <==> DiffersAt(sig, before, after, i, c)
  {
    var names, others := PropertyNames(before.properties), PropertyNames(after.properties);
    var partner := Partner(names, others, i);
    forall j: nat ensures Pair(before, after, i, j) <==> partner == Some(j) {
      PartnerIff(names, others, i, j);
    }
    if partner.Some? {
      assert Pair(before, after, i, partner.value);
      DifferencesAre(sig, after.path, before.properties[i], after.properties[partner.value], c);
    }
  }

  lemma PairedAre(sig: TypeRef -> string, before: Record, after: Record, c: Change)
    ensures c in PairedEvents(sig, before, after, |before.properties|) <==> PairDiffers(sig, before, after, c)
  {
    var raises := PairsOf(sig, before, after);
    GatheredIn(raises, |before.properties|, c);
    forall i: nat | i < |before.properties| ensures c in raises(i) <==> DiffersAt(sig, before, after, i, c) {
      PairAre(sig, before, after, i, c);
    }
  }

  // ---------------------------------------------------------------- what came and went

  /** What a rename keeps. */
  predicate SameKey(sig: TypeRef -> string, p: Property, now: Property) {
    p.offset == now.offset && sig(p.ty) == sig(now.ty)
  }

  /** The rename keeps offset and signature, and each side is without a pair. */
  ghost predicate CanBe(sig: TypeRef -> string, before: Record, after: Record, i: nat, j: nat) {
    IsGone(before, after, i) && IsNew(before, after, j) && SameKey(sig, before.properties[i], after.properties[j])
  }

  /**
   * The renames: each gone property, in order, becomes the first new one it can be that no earlier one
   * became; and none when renames are not looked for.
   */
  ghost predicate IsRenaming(sig: TypeRef -> string, looked: bool, before: Record, after: Record, m: map<nat, nat>) {
    && (forall i :: i in m ==> CanBe(sig, before, after, i, m[i]))
    && (forall i, k :: i in m && k in m && m[i] == m[k] ==> i == k)
    && (!looked ==> m == map[])
    && (looked ==> forall i: nat, j: nat :: CanBe(sig, before, after, i, j) && (i in m ==> j < m[i]) ==>
                                              BecameBefore(m, i, j))
  }

  /** An earlier one became the j-th. */
  ghost predicate BecameBefore(m: map<nat, nat>, i: nat, j: nat) { exists k :: k in m && k < i && m[k] == j }

  ghost predicate SaysRemoved(before: Record, after: Record, m: map<nat, nat>, c: Change) {
    exists i: nat :: RemovedAt(before, after, m, i, c)
  }

  ghost predicate RemovedAt(before: Record, after: Record, m: map<nat, nat>, i: nat, c: Change) {
    && IsGone(before, after, i) && i !in m && c.kind == PropertyRemoved
    && About(c, before.path, before.properties[i].name)
    && c.before == Number(before.properties[i].offset) && c.after == Nothing
  }

  ghost predicate SaysRenamed(before: Record, after: Record, m: map<nat, nat>, c: Change) {
    exists i: nat :: RenamedAt(before, after, m, i, c)
  }

  ghost predicate RenamedAt(before: Record, after: Record, m: map<nat, nat>, i: nat, c: Change) {
    && i in m && IsGone(before, after, i) && IsNew(before, after, m[i]) && c.kind == PropertyRenamed
    && About(c, after.path, before.properties[i].name)
    && c.before == Words(before.properties[i].name) && c.after == Words(after.properties[m[i]].name)
  }

  ghost predicate SaysAdded(before: Record, after: Record, m: map<nat, nat>, c: Change) {
    exists j: nat :: IsNew(before, after, j) && j !in m.Values && c.kind == PropertyAdded
                     && About(c, after.path, after.properties[j].name)
                     && c.before == Nothing && c.after == Number(after.properties[j].offset)
  }

  lemma VanishedAre(before: Record, after: Record)
    ensures forall i: nat :: i in Vanished(before, after) <==> IsGone(before, after, i)
    ensures forall k, l :: 0 <= k < l < |Vanished(before, after)| ==>
            Vanished(before, after)[k] < Vanished(before, after)[l]
  {
    var names, others := PropertyNames(before.properties), PropertyNames(after.properties);
    NonesAscend(Partners(names, others));
    forall i: nat ensures i in Vanished(before, after) <==> IsGone(before, after, i) {
      UnpairedIff(names, others, i);
      if HasMate(names, others, i) {
        var j: nat :| Mates(names, others, i, j);
        assert Pair(before, after, i, j);
      }
      if j: nat :| Pair(before, after, i, j) {
        assert Mates(names, others, i, j);
      }
    }
  }

  lemma AppearedAre(before: Record, after: Record)
    ensures forall j: nat :: j in Appeared(before, after) <==> IsNew(before, after, j)
    ensures forall k, l :: 0 <= k < l < |Appeared(before, after)| ==>
            Appeared(before, after)[k] < Appeared(before, after)[l]
  {
    var names, others := PropertyNames(before.properties), PropertyNames(after.properties);
    NonesAscend(Partners(others, names));
    forall j: nat ensures j in Appeared(before, after) <==> IsNew(before, after, j) {
      UnpairedIff(others, names, j);
      if HasMate(others, names, j) {
        var i: nat :| Mates(others, names, j, i);
        assert Pair(before, after, i, j);
      }
      if i: nat :| Pair(before, after, i, j) {
        assert Mates(others, names, j, i);
      }
    }
  }

  ghost predicate SameAt(m: map<nat, nat>, n: map<nat, nat>, i: nat) {
    (i in m <==> i in n) && (i in m ==> m[i] == n[i])
  }

  ghost predicate SameBefore(m: map<nat, nat>, n: map<nat, nat>, i: nat) {
    forall k: nat {:trigger SameAt(m, n, k)} :: k < i ==> SameAt(m, n, k)
  }

  lemma SameNext(sig: TypeRef -> string, before: Record, after: Record, m: map<nat, nat>, n: map<nat, nat>, i: nat)
    requires IsRenaming(sig, true, before, after, m) && IsRenaming(sig, true, before, after, n)
    requires SameBefore(m, n, i)
    requires i in m
    ensures i in n && n[i] <= m[i]
  {
    var j := m[i];
    assert CanBe(sig, before, after, i, j);
    forall k | k in n && k < i ensures n[k] != j {
      assert SameAt(m, n, k);
    }
    assert !BecameBefore(n, i, j);
  }

  lemma {:induction false} SameBelow(m: map<nat, nat>, n: map<nat, nat>, bound: nat)
    requires forall i: nat {:trigger SameBefore(m, n, i)} :: SameBefore(m, n, i) ==> SameAt(m, n, i)
    ensures SameBefore(m, n, bound)
  {
    if bound > 0 {
      SameBelow(m, n, bound - 1);
    }
  }

  lemma SameHere(sig: TypeRef -> string, before: Record, after: Record, m: map<nat, nat>, n: map<nat, nat>, i: nat)
    requires IsRenaming(sig, true, before, after, m) && IsRenaming(sig, true, before, after, n)
    requires SameBefore(m, n, i)
    ensures SameAt(m, n, i)
  {
    forall k: nat {:trigger SameAt(n, m, k)} | k < i ensures SameAt(n, m, k) {
      assert SameAt(m, n, k);
    }
    if i in m {
      SameNext(sig, before, after, m, n, i);
    }
    if i in n {
      SameNext(sig, before, after, n, m, i);
    }
  }

  /** There is only one. */
  lemma RenamingOnce(sig: TypeRef -> string, looked: bool, before: Record, after: Record, m: map<nat, nat>,
                     n: map<nat, nat>)
    requires IsRenaming(sig, looked, before, after, m) && IsRenaming(sig, looked, before, after, n)
    ensures m == n
  {
    if looked {
      forall i: nat | SameBefore(m, n, i) ensures SameAt(m, n, i) {
        SameHere(sig, before, after, m, n, i);
      }
      forall i: nat ensures SameAt(m, n, i) {
        SameBelow(m, n, i);
      }
      SameMaps(m, n);
    }
  }

  lemma SameMaps(m: map<nat, nat>, n: map<nat, nat>)
    requires forall i: nat {:trigger SameAt(m, n, i)} :: SameAt(m, n, i)
    ensures m == n
  {
    forall i: nat ensures i in m <==> i in n {
      assert SameAt(m, n, i);
    }
    forall i | i in m ensures m[i] == n[i] {
      assert SameAt(m, n, i);
    }
  }

  ghost predicate Rising(s: seq<nat>) { forall k, l :: 0 <= k < l < |s| ==> s[k] < s[l] }

  /** The matching of places in the two lists, as one of what stands there. */
  ghost predicate Places(gone: seq<nat>, come: seq<nat>, matches: seq<Option<nat>>, m: map<nat, nat>) {
    && |matches| == |gone|
    && (forall k {:trigger matches[k]} :: 0 <= k < |gone| ==>
          (gone[k] in m <==> matches[k].Some?)
          && (matches[k].Some? ==> matches[k].value < |come| && m[gone[k]] == come[matches[k].value]))
    && (forall i :: i in m ==> i in gone)
  }

  lemma PlacesOf(gone: seq<nat>, come: seq<nat>, matches: seq<Option<nat>>) returns (m: map<nat, nat>)
    requires Rising(gone) && |matches| == |gone|
    requires forall k {:trigger matches[k]} :: 0 <= k < |matches| && matches[k].Some? ==> matches[k].value < |come|
    ensures Places(gone, come, matches, m)
  {
    m := map k | 0 <= k < |gone| && matches[k].Some? :: gone[k] := come[matches[k].value];
  }

  /** The k-th old key and the l-th new one are what a rename keeps. */
  lemma KeysSame(sig: TypeRef -> string, before: Record, after: Record, k: nat, l: nat)
    requires k < |Vanished(before, after)| && l < |Appeared(before, after)|
    ensures RenameKeys(sig, before.properties, Vanished(before, after))[k]
              == RenameKeys(sig, after.properties, Appeared(before, after))[l]
            <==> SameKey(sig, before.properties[Vanished(before, after)[k]],
                         after.properties[Appeared(before, after)[l]])
  {
  }

  /** Equal keys, seen on the properties. */
  ghost predicate KeysAre(sig: TypeRef -> string, before: Record, after: Record, gone: seq<nat>, come: seq<nat>,
                          removed: seq<(int, string)>, added: seq<(int, string)>) {
    && |removed| == |gone| && |added| == |come|
    && (forall i: nat :: i in gone <==> IsGone(before, after, i))
    && (forall j: nat :: j in come <==> IsNew(before, after, j))
    && (forall k, l {:trigger removed[k], added[l]} :: 0 <= k < |gone| && 0 <= l < |come| ==>
        (removed[k] == added[l] <==> CanBe(sig, before, after, gone[k], come[l])))
  }

  lemma KeysAreThose(sig: TypeRef -> string, before: Record, after: Record)
    ensures KeysAre(sig, before, after, Vanished(before, after), Appeared(before, after),
                    RenameKeys(sig, before.properties, Vanished(before, after)),
                    RenameKeys(sig, after.properties, Appeared(before, after)))
  {
    var gone, come := Vanished(before, after), Appeared(before, after);
    var removed, added := RenameKeys(sig, before.properties, gone), RenameKeys(sig, after.properties, come);
    VanishedAre(before, after);
    AppearedAre(before, after);
    forall k, l | 0 <= k < |gone| && 0 <= l < |come|
      ensures removed[k] == added[l] <==> CanBe(sig, before, after, gone[k], come[l])
    {
      KeysSame(sig, before, after, k, l);
      assert gone[k] in gone && come[l] in come;
    }
  }

  lemma MatchedIsRenaming(sig: TypeRef -> string, before: Record, after: Record, gone: seq<nat>, come: seq<nat>,
                          removed: seq<(int, string)>, added: seq<(int, string)>, matches: seq<Option<nat>>,
                          m: map<nat, nat>)
    requires KeysAre(sig, before, after, gone, come, removed, added) && Rising(gone) && Rising(come)
    requires OneToOne(removed, added, matches) && TakesFirst(removed, added, matches) && Places(gone, come, matches, m)
    ensures IsRenaming(sig, true, before, after, m)
  {
    forall i | i in m ensures CanBe(sig, before, after, i, m[i]) {
      var k :| 0 <= k < |gone| && gone[k] == i;
      var l := matches[k].value;
      assert added[l] == removed[k];
    }
    forall i, k | i in m && k in m && m[i] == m[k] ensures i == k {
      var x :| 0 <= x < |gone| && gone[x] == i;
      var y :| 0 <= y < |gone| && gone[y] == k;
      var p, q := matches[x], matches[y];
    }
    forall i: nat, j: nat | CanBe(sig, before, after, i, j) && (i in m ==> j < m[i]) ensures BecameBefore(m, i, j) {
      EarlierBecame(sig, before, after, gone, come, removed, added, matches, m, i, j);
    }
  }

  lemma EarlierBecame(sig: TypeRef -> string, before: Record, after: Record, gone: seq<nat>, come: seq<nat>,
                      removed: seq<(int, string)>, added: seq<(int, string)>, matches: seq<Option<nat>>,
                      m: map<nat, nat>, i: nat, j: nat)
    requires KeysAre(sig, before, after, gone, come, removed, added) && Rising(gone) && Rising(come)
    requires TakesFirst(removed, added, matches) && Places(gone, come, matches, m)
    requires CanBe(sig, before, after, i, j) && (i in m ==> j < m[i])
    ensures BecameBefore(m, i, j)
  {
    assert i in gone && j in come;
    var k :| 0 <= k < |gone| && gone[k] == i;
    var l :| 0 <= l < |come| && come[l] == j;
    assert removed[k] == added[l];
    var p := matches[k];
    assert Passes(removed, added, matches, k, l);
    var x :| 0 <= x < k && matches[x] == Some(l);
    assert gone[x] in m && gone[x] < i && m[gone[x]] == j;
  }

  /** The renames of a type's properties. */
  lemma RenamesAre(sig: TypeRef -> string, options: Options, before: Record, after: Record) returns (m: map<nat, nat>)
    ensures IsRenaming(sig, options.detectRenames, before, after, m)
    ensures Places(Vanished(before, after), Appeared(before, after),
                   Renames(sig, options, before, after, |Vanished(before, after)|), m)
  {
    var gone, come := Vanished(before, after), Appeared(before, after);
    var removed, added := RenameKeys(sig, before.properties, gone), RenameKeys(sig, after.properties, come);
    var matches := Renames(sig, options, before, after, |gone|);
    VanishedAre(before, after);
    AppearedAre(before, after);
    KeysAreThose(sig, before, after);
    if options.detectRenames {
      GreedyOneToOne(removed, added, |removed|);
      GreedyTakesFirst(removed, added, |removed|);
      m := PlacesOf(gone, come, matches);
      MatchedIsRenaming(sig, before, after, gone, come, removed, added, matches, m);
    } else {
      m := map[];
    }
  }

  ghost predicate GoneAt(before: Record, after: Record, matches: seq<Option<nat>>, k: nat, c: Change) {
    k < |matches| && k < |Vanished(before, after)| && c in GoneEvent(before, after, k, matches[k])
  }

  lemma {:induction false} GoneIn(before: Record, after: Record, matches: seq<Option<nat>>, n: nat, c: Change)
    requires n <= |matches| <= |Vanished(before, after)|
    ensures c in GoneEvents(before, after, matches, n)
            <==> exists k :: 0 <= k < n && GoneAt(before, after, matches, k, c)
  {
    if n > 0 {
      GoneIn(before, after, matches, n - 1, c);
      var front, last := GoneEvents(before, after, matches, n - 1), GoneEvent(before, after, n - 1, matches[n - 1]);
      assert GoneEvents(before, after, matches, n) == front + last;
      assert c in last <==> GoneAt(before, after, matches, n - 1, c);
    }
  }

  /** What one of them is raised as. */
  lemma GoneIs(before: Record, after: Record, matches: seq<Option<nat>>, m: map<nat, nat>, k: nat, c: Change)
    requires Places(Vanished(before, after), Appeared(before, after), matches, m) && k < |matches|
    ensures GoneAt(before, after, matches, k, c) <==>
            RemovedAt(before, after, m, Vanished(before, after)[k], c)
                || RenamedAt(before, after, m, Vanished(before, after)[k], c)
  {
    var gone, come := Vanished(before, after), Appeared(before, after);
    VanishedAre(before, after);
    AppearedAre(before, after);
    assert gone[k] in gone;
    var hit := matches[k];
    if hit.Some? {
      assert come[hit.value] in come;
    }
  }

  lemma GoneSays(before: Record, after: Record, matches: seq<Option<nat>>, m: map<nat, nat>, c: Change)
    requires Places(Vanished(before, after), Appeared(before, after), matches, m)
    ensures c in GoneEvents(before, after, matches, |matches|) <==>
            SaysRemoved(before, after, m, c) || SaysRenamed(before, after, m, c)
  {
    var gone := Vanished(before, after);
    VanishedAre(before, after);
    GoneIn(before, after, matches, |matches|, c);
    forall k: nat | k < |matches|
      ensures GoneAt(before, after, matches, k, c) <==>
              RemovedAt(before, after, m, gone[k], c) || RenamedAt(before, after, m, gone[k], c)
    {
      GoneIs(before, after, matches, m, k, c);
    }
    if i: nat :| RemovedAt(before, after, m, i, c) || RenamedAt(before, after, m, i, c) {
      assert i in gone;
      var k :| 0 <= k < |gone| && gone[k] == i;
      assert GoneAt(before, after, matches, k, c);
    }
  }

  lemma {:induction false} NewIn(before: Record, after: Record, taken: set<nat>, n: nat, c: Change)
    requires n <= |Appeared(before, after)|
    ensures c in NewEvents(before, after, taken, n) <==>
            exists k {:trigger Appeared(before, after)[k]} :: 0 <= k < n && k !in taken && c.kind == PropertyAdded
              && About(c, after.path, after.properties[Appeared(before, after)[k]].name) && c.before == Nothing
              && c.after == Number(after.properties[Appeared(before, after)[k]].offset)
  {
    if n > 0 {
      NewIn(before, after, taken, n - 1, c);
      var now := after.properties[Appeared(before, after)[n - 1]];
      WhenIs(n - 1 !in taken, PropertyAdded, after.path, now.name, Nothing, Number(now.offset), c);
    }
  }

  lemma TakenPlaces(gone: seq<nat>, come: seq<nat>, matches: seq<Option<nat>>, m: map<nat, nat>, l: nat)
    requires Places(gone, come, matches, m) && Rising(come) && l < |come|
    ensures l in Taken(matches) <==> come[l] in m.Values
  {
    if l in Taken(matches) {
      var k :| 0 <= k < |matches| && matches[k] == Some(l);
      assert m[gone[k]] == come[l];
    }
    if come[l] in m.Values {
      var i :| i in m && m[i] == come[l];
      var k :| 0 <= k < |gone| && gone[k] == i;
      assert matches[k].Some? && come[matches[k].value] == come[l];
      assert matches[k] in matches;
    }
  }

  lemma NewSays(before: Record, after: Record, matches: seq<Option<nat>>, m: map<nat, nat>, c: Change)
    requires Places(Vanished(before, after), Appeared(before, after), matches, m)
    ensures c in NewEvents(before, after, Taken(matches), |Appeared(before, after)|) <==> SaysAdded(before, after, m, c)
  {
    var gone, come := Vanished(before, after), Appeared(before, after);
    AppearedAre(before, after);
    NewIn(before, after, Taken(matches), |come|, c);
    forall l: nat | l < |come| ensures (l in Taken(matches) <==> come[l] in m.Values) && IsNew(before, after, come[l]) {
      TakenPlaces(gone, come, matches, m, l);
      assert come[l] in come;
    }
    if SaysAdded(before, after, m, c) {
      var j: nat :| IsNew(before, after, j) && j !in m.Values && c.kind == PropertyAdded
                    && About(c, after.path, after.properties[j].name)
                    && c.before == Nothing && c.after == Number(after.properties[j].offset);
      assert j in come;
      var l :| 0 <= l < |come| && come[l] == j;
    }
  }

  /** What the pass over a type's properties raises: the fields that differ, and what came and went. */
  ghost predicate PropertySays(sig: TypeRef -> string, before: Record, after: Record, m: map<nat, nat>, c: Change) {
    || PairDiffers(sig, before, after, c) || SaysRemoved(before, after, m, c) || SaysRenamed(before, after, m, c)
    || SaysAdded(before, after, m, c)
  }

  /**
   * The property pass is exact: there is a renaming, which is the only one there can be, such that a change is
   * raised if and only if a field of a pair differs, or it is that renaming's account of what came and went.
   */
  lemma PropertyPassIs(sig: TypeRef -> string, options: Options, before: Record, after: Record)
    returns (m: map<nat, nat>)
    ensures IsRenaming(sig, options.detectRenames, before, after, m)
    ensures forall c :: c in PropertyEvents(sig, options, before, after) <==> PropertySays(sig, before, after, m, c)
  {
    m := RenamesAre(sig, options, before, after);
    var matches := Renames(sig, options, before, after, |Vanished(before, after)|);
    forall c ensures c in PropertyEvents(sig, options, before, after) <==> PropertySays(sig, before, after, m, c) {
      PairedAre(sig, before, after, c);
      GoneSays(before, after, matches, m, c);
      NewSays(before, after, matches, m, c);
      ThreeIn(PairedEvents(sig, before, after, |before.properties|),
              GoneEvents(before, after, matches, |matches|),
              NewEvents(before, after, Taken(matches), |Appeared(before, after)|), c);
    }
  }
}
