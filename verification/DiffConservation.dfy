/** What the diff's property pass accounts for: every property of both sides, once. */
module DiffConservation {
  import opened Common
  import opened Ir
  import opened DiffPairing
  import opened DiffMembers

  ghost function Total(changes: seq<Change>, kind: ChangeKind): nat { OfKind(changes, |changes|, kind) }

  lemma {:induction false} OfKindConcat(a: seq<Change>, b: seq<Change>, n: nat, kind: ChangeKind)
    requires n <= |b|
    ensures OfKind(a + b, |a| + n, kind) == OfKind(a, |a|, kind) + OfKind(b, n, kind)
  {
    if n == 0 {
      CountsStand(a, b, |a|, kind, Severity.Info);
    } else {
      OfKindConcat(a, b, n - 1, kind);
    }
  }

  lemma TotalConcat(a: seq<Change>, b: seq<Change>, kind: ChangeKind)
    ensures Total(a + b, kind) == Total(a, kind) + Total(b, kind)
  {
    OfKindConcat(a, b, |b|, kind);
  }

  /** The kinds that say a property came or went. */
  predicate ComesOrGoes(kind: ChangeKind) { kind.PropertyRemoved? || kind.PropertyRenamed? || kind.PropertyAdded? }

  lemma {:induction false} NoneOfKind(changes: seq<Change>, n: nat, kind: ChangeKind)
    requires n <= |changes| && forall i :: 0 <= i < |changes| ==> changes[i].kind != kind
    ensures OfKind(changes, n, kind) == 0
  {
    if n > 0 {
      NoneOfKind(changes, n - 1, kind);
    }
  }

  lemma WhenTotal(b: bool, c: Change, kind: ChangeKind)
    requires c.kind != kind
    ensures Total(When(b, c), kind) == 0
  {
    NoneOfKind(When(b, c), |When(b, c)|, kind);
  }

  lemma ThreeWhens(a: seq<Change>, b: seq<Change>, c: seq<Change>, kind: ChangeKind)
    requires Total(a, kind) == 0 && Total(b, kind) == 0 && Total(c, kind) == 0
    ensures Total(a + b + c, kind) == 0
  {
    TotalConcat(a, b, kind);
    TotalConcat(a + b, c, kind);
  }

  lemma LayoutStays(sig: TypeRef -> string, path: string, p: Property, now: Property, kind: ChangeKind)
    requires ComesOrGoes(kind)
    ensures Total(LayoutDifferences(sig, path, p, now), kind) == 0
  {
    var moved, resized, typed := Raise(PropertyMoved, path, p.name, Number(p.offset), Number(now.offset)),
      Raise(PropertyResized, path, p.name, Number(p.size), Number(now.size)),
      Raise(PropertyTypeChanged, path, p.name, Words(sig(p.ty)), Words(sig(now.ty)));
    WhenTotal(p.offset != now.offset, moved, kind);
    WhenTotal(p.size != now.size, resized, kind);
    WhenTotal(sig(p.ty) != sig(now.ty), typed, kind);
    ThreeWhens(When(p.offset != now.offset, moved), When(p.size != now.size, resized),
               When(sig(p.ty) != sig(now.ty), typed), kind);
  }

  lemma DetailStays(path: string, p: Property, now: Property, kind: ChangeKind)
    requires ComesOrGoes(kind)
    ensures Total(DetailDifferences(path, p, now), kind) == 0
  {
    var bits, flags, default_ := Raise(PropertyBitMoved, path, p.name, Bits(p.bitIndex, p.fieldMask),
                                       Bits(now.bitIndex, now.fieldMask)),
      Raise(PropertyFlagsChanged, path, p.name, Number(p.flags), Number(now.flags)),
      Raise(PropertyDefaultChanged, path, p.name, Words(p.defaultValue), Words(now.defaultValue));
    WhenTotal(BitMoved(p, now), bits, kind);
    WhenTotal(p.flags != now.flags, flags, kind);
    WhenTotal(DefaultChanged(p, now), default_, kind);
    ThreeWhens(When(BitMoved(p, now), bits), When(p.flags != now.flags, flags), When(DefaultChanged(p, now), default_),
               kind);
  }

  lemma PairTotal(sig: TypeRef -> string, before: Record, after: Record, n: nat, kind: ChangeKind)
    requires n < |before.properties| && ComesOrGoes(kind)
    ensures Total(PairEvents(sig, before, after, n), kind) == 0
  {
    var partner := Partner(PropertyNames(before.properties), PropertyNames(after.properties), n);
    if partner.Some? && partner.value < |after.properties| {
      var p, now := before.properties[n], after.properties[partner.value];
      LayoutStays(sig, after.path, p, now, kind);
      DetailStays(after.path, p, now, kind);
      TotalConcat(LayoutDifferences(sig, after.path, p, now), DetailDifferences(after.path, p, now), kind);
    }
  }

  lemma {:induction false} GatheredNone(raises: nat -> seq<Change>, n: nat, kind: ChangeKind)
    requires forall k :: 0 <= k < n ==> Total(raises(k), kind) == 0
    ensures Total(Gathered(raises, n), kind) == 0
  {
    if n > 0 {
      GatheredNone(raises, n - 1, kind);
      TotalConcat(Gathered(raises, n - 1), raises(n - 1), kind);
    }
  }

  lemma PairedComesOrGoes(sig: TypeRef -> string, before: Record, after: Record, kind: ChangeKind)
    requires ComesOrGoes(kind)
    ensures Total(PairedEvents(sig, before, after, |before.properties|), kind) == 0
  {
    var raises := PairsOf(sig, before, after);
    forall k | 0 <= k < |before.properties| ensures Total(raises(k), kind) == 0 {
      PairTotal(sig, before, after, k, kind);
    }
    GatheredNone(raises, |before.properties|, kind);
  }

  lemma {:induction false} GoneCounts(before: Record, after: Record, matches: seq<Option<nat>>, n: nat)
    requires n <= |matches| <= |Vanished(before, after)|
    requires forall k :: 0 <= k < |matches| && matches[k].Some? ==> matches[k].value < |Appeared(before, after)|
    ensures GoneTotals(GoneEvents(before, after, matches, n), n, Hits(matches[..n]))
  {
    if n > 0 {
      GoneCounts(before, after, matches, n - 1);
      GoneEventKind(before, after, n - 1, matches[n - 1]);
      GoneStep(GoneEvents(before, after, matches, n - 1), GoneEvent(before, after, n - 1, matches[n - 1]), n - 1,
               Hits(matches[..n - 1]), matches[n - 1]);
      HitsPrefix(matches, n);
    }
  }

  lemma HitsPrefix(matches: seq<Option<nat>>, n: nat)
    requires 0 < n <= |matches|
    ensures Hits(matches[..n]) == Hits(matches[..n - 1]) + (if matches[n - 1].Some? then 1 else 0)
  {
    assert matches[..n] == matches[..n - 1] + [matches[n - 1]];
    HitsMore(matches[..n - 1], matches[n - 1]);
  }

  lemma GoneEventKind(before: Record, after: Record, at: nat, hit: Option<nat>)
    requires at < |Vanished(before, after)| && (hit.Some? ==> hit.value < |Appeared(before, after)|)
    ensures |GoneEvent(before, after, at, hit)| == 1
    ensures GoneEvent(before, after, at, hit)[0].kind == if hit.Some? then PropertyRenamed else PropertyRemoved
  {
  }

  /** n properties gone, `renamed` of them renamed. */
  ghost predicate GoneTotals(events: seq<Change>, n: nat, renamed: nat) {
    Total(events, PropertyRenamed) == renamed && Total(events, PropertyRemoved) == n - renamed
        && Total(events, PropertyAdded) == 0
  }

  lemma GoneStep(front: seq<Change>, last: seq<Change>, n: nat, renamed: nat, hit: Option<nat>)
    requires GoneTotals(front, n, renamed) && |last| == 1
    requires last[0].kind == if hit.Some? then PropertyRenamed else PropertyRemoved
    ensures GoneTotals(front + last, n + 1, renamed + (if hit.Some? then 1 else 0))
  {
    TotalConcat(front, last, PropertyRenamed);
    TotalConcat(front, last, PropertyRemoved);
    TotalConcat(front, last, PropertyAdded);
    OneTotal(last, PropertyRenamed);
    OneTotal(last, PropertyRemoved);
    OneTotal(last, PropertyAdded);
  }

  lemma OneTotal(changes: seq<Change>, kind: ChangeKind)
    requires |changes| == 1
    ensures Total(changes, kind) == if changes[0].kind == kind then 1 else 0
  {
    assert OfKind(changes, 0, kind) == 0;
  }

  ghost function Below(taken: set<nat>, n: nat): set<nat> { set i | i in taken && i < n }

  lemma BelowMore(taken: set<nat>, n: nat)
    ensures |Below(taken, n + 1)| == |Below(taken, n)| + (if n in taken then 1 else 0)
  {
    if n in taken {
      assert Below(taken, n + 1) == Below(taken, n) + {n};
    } else {
      assert Below(taken, n + 1) == Below(taken, n);
    }
  }

  lemma {:induction false} NewCounts(before: Record, after: Record, taken: set<nat>, n: nat)
    requires n <= |Appeared(before, after)|
    ensures var events := NewEvents(before, after, taken, n);
            && Total(events, PropertyAdded) + |Below(taken, n)| == n
            && Total(events, PropertyRenamed) == 0 && Total(events, PropertyRemoved) == 0
  {
    if n == 0 {
      assert Below(taken, 0) == {};
    } else {
      NewCounts(before, after, taken, n - 1);
      BelowMore(taken, n - 1);
      var last := NewLast(before, after, taken, n);
      NewTotals(NewEvents(before, after, taken, n - 1), last, n - 1 - |Below(taken, n - 1)|);
    }
  }

  /** What the n-th new property adds to the events. */
  lemma NewLast(before: Record, after: Record, taken: set<nat>, n: nat) returns (last: seq<Change>)
    requires 0 < n <= |Appeared(before, after)|
    ensures NewEvents(before, after, taken, n) == NewEvents(before, after, taken, n - 1) + last
    ensures |last| == (if n - 1 in taken then 0 else 1) && forall i :: 0 <= i < |last| ==> last[i].kind == PropertyAdded
  {
    var now := after.properties[Appeared(before, after)[n - 1]];
    last := When(n - 1 !in taken, Raise(PropertyAdded, after.path, now.name, Nothing, Number(now.offset)));
  }

  lemma NewTotals(front: seq<Change>, last: seq<Change>, added: int)
    requires |last| <= 1 && forall i :: 0 <= i < |last| ==> last[i].kind == PropertyAdded
    requires Total(front, PropertyAdded) == added && Total(front, PropertyRenamed) == Total(front, PropertyRemoved) == 0
    ensures Total(front + last, PropertyAdded) == added + |last|
    ensures Total(front + last, PropertyRenamed) == 0 && Total(front + last, PropertyRemoved) == 0
  {
    TotalConcat(front, last, PropertyRenamed);
    TotalConcat(front, last, PropertyRemoved);
    TotalConcat(front, last, PropertyAdded);
    if |last| == 1 {
      OneTotal(last, PropertyRenamed);
      OneTotal(last, PropertyRemoved);
      OneTotal(last, PropertyAdded);
    }
  }

  lemma {:induction false} TakenCount<K>(removed: seq<K>, added: seq<K>, matches: seq<Option<nat>>)
    requires OneToOne(removed, added, matches)
    ensures |Taken(matches)| == Hits(matches) && forall i :: i in Taken(matches) ==> i < |added|
    decreases |matches|
  {
    if matches == [] {
      assert Taken(matches) == {};
    } else {
      var front, last := matches[..|matches| - 1], matches[|matches| - 1];
      assert matches == front + [last];
      forall k {:trigger front[k]} | 0 <= k < |front| ensures front[k] == matches[k] {
      }
      TakenCount(removed, added, front);
      TakenMore(front, last);
      LastIsNew(removed, added, matches);
    }
  }

  lemma LastIsNew<K>(removed: seq<K>, added: seq<K>, matches: seq<Option<nat>>)
    requires OneToOne(removed, added, matches) && matches != []
    ensures var last := matches[|matches| - 1];
            last.Some? ==> last.value !in Taken(matches[..|matches| - 1]) && last.value < |added|
  {
    var front, last := matches[..|matches| - 1], matches[|matches| - 1];
    if last.Some? {
      forall m | m in front && m.Some? ensures m != last {
        var k :| 0 <= k < |front| && front[k] == m;
        assert matches[k] == m;
      }
    }
  }

  /** The matching of vanished with appeared properties that the pass makes. */
  lemma RenamesOneToOne(sig: TypeRef -> string, options: Options, before: Record, after: Record)
    ensures OneToOne(RenameKeys(sig, before.properties, Vanished(before, after)),
                     RenameKeys(sig, after.properties, Appeared(before, after)),
                     Renames(sig, options, before, after, |Vanished(before, after)|))
  {
    var gone, come := RenameKeys(sig, before.properties, Vanished(before, after)),
        RenameKeys(sig, after.properties, Appeared(before, after));
    GreedyOneToOne(gone, come, |gone|);
  }

  lemma PassTotals(sig: TypeRef -> string, options: Options, before: Record, after: Record, kind: ChangeKind)
    requires ComesOrGoes(kind)
    ensures var matches := Renames(sig, options, before, after, |Vanished(before, after)|);
            Total(PropertyEvents(sig, options, before, after), kind)
            == Total(GoneEvents(before, after, matches, |matches|), kind)
                + Total(NewEvents(before, after, Taken(matches), |Appeared(before, after)|), kind)
  {
    var matches := Renames(sig, options, before, after, |Vanished(before, after)|);
    var paired, gone, new_ := PairedEvents(sig, before, after, |before.properties|),
        GoneEvents(before, after, matches, |matches|),
                              NewEvents(before, after, Taken(matches), |Appeared(before, after)|);
    PairedComesOrGoes(sig, before, after, kind);
    TotalConcat(paired, gone, kind);
    TotalConcat(paired + gone, new_, kind);
  }

  /** What the pass raises of each kind, in terms of the renames it finds. */
  lemma PassCounts(sig: TypeRef -> string, options: Options, before: Record, after: Record)
    ensures var events, hits := PropertyEvents(sig, options, before, after),
            Hits(Renames(sig, options, before, after, |Vanished(before, after)|));
            && Total(events, PropertyRenamed) == hits
            && Total(events, PropertyRemoved) == |Vanished(before, after)| - hits
            && Total(events, PropertyAdded) == |Appeared(before, after)| - hits
  {
    PassTotals(sig, options, before, after, PropertyRenamed);
    PassTotals(sig, options, before, after, PropertyRemoved);
    PassTotals(sig, options, before, after, PropertyAdded);
    GonePassCounts(sig, options, before, after);
    NewPassCounts(sig, options, before, after);
  }

  lemma GonePassCounts(sig: TypeRef -> string, options: Options, before: Record, after: Record)
    ensures var matches := Renames(sig, options, before, after, |Vanished(before, after)|);
            GoneTotals(GoneEvents(before, after, matches, |matches|), |matches|, Hits(matches))
  {
    var matches := Renames(sig, options, before, after, |Vanished(before, after)|);
    RenamesOneToOne(sig, options, before, after);
    GoneCounts(before, after, matches, |matches|);
    assert matches[..|matches|] == matches;
  }

  lemma NewPassCounts(sig: TypeRef -> string, options: Options, before: Record, after: Record)
    ensures var matches, come := Renames(sig, options, before, after, |Vanished(before, after)|),
            Appeared(before, after);
            var events := NewEvents(before, after, Taken(matches), |come|);
            && Total(events, PropertyAdded) == |come| - Hits(matches)
            && Total(events, PropertyRenamed) == 0 && Total(events, PropertyRemoved) == 0
  {
    var matches, come := Renames(sig, options, before, after, |Vanished(before, after)|), Appeared(before, after);
    RenamesOneToOne(sig, options, before, after);
    TakenCount(RenameKeys(sig, before.properties, Vanished(before, after)), RenameKeys(sig, after.properties, come),
               matches);
    NewCounts(before, after, Taken(matches), |come|);
    assert Below(Taken(matches), |come|) == Taken(matches);
  }

  /**
   * Conservation: the pairs compared, the renames and the removals are the old properties; the pairs,
   * the renames and the additions are the new ones.
   */
  lemma PropertiesConserved(sig: TypeRef -> string, options: Options, before: Record, after: Record)
    ensures var events := PropertyEvents(sig, options, before, after);
            var pairs := |before.properties| - |Vanished(before, after)|;
            && pairs == |after.properties| - |Appeared(before, after)|
            && pairs + Total(events, PropertyRenamed) + Total(events, PropertyRemoved) == |before.properties|
            && pairs + Total(events, PropertyRenamed) + Total(events, PropertyAdded) == |after.properties|
  {
    PairsConserved(PropertyNames(before.properties), PropertyNames(after.properties));
    PassCounts(sig, options, before, after);
  }

  /**
   * As many renames as there can be: with rename detection on, no one-to-one matching of vanished
   * with appeared properties on equal offset and signature is larger than the one the pass finds.
   */
  lemma RenamesAreMaximum(sig: TypeRef -> string, options: Options, before: Record, after: Record, left: seq<nat>,
                          right: seq<nat>)
    requires options.detectRenames
    requires IsMatching(RenameKeys(sig, before.properties, Vanished(before, after)),
                        RenameKeys(sig, after.properties, Appeared(before, after)), left, right)
    ensures |left| <= Total(PropertyEvents(sig, options, before, after), PropertyRenamed)
  {
    var gone, come := RenameKeys(sig, before.properties, Vanished(before, after)),
        RenameKeys(sig, after.properties, Appeared(before, after));
    GreedyIsMaximum(gone, come, left, right);
    PassCounts(sig, options, before, after);
  }
}
