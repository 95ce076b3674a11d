/** The report as a whole: a change is in it if and only if it has its cause in the two dumps. */
module DiffCauses {
  import opened Common
  import opened Ir
  import opened DiffMembers
  import opened DiffFunctionsAndEnums
  import opened DiffFields
  import opened DiffExact
  import opened DiffIndex
  import opened DiffReport
  import opened DiffTheorems
  import opened StringOrder
  import StableSort

  // ---------------------------------------------------------------- types

  /** A change to the properties of a type, by the only renaming there is. */
  ghost predicate OfProperties(sig: TypeRef -> string, looked: bool, r: Record, now: Record, c: Change) {
    exists m: map<nat, nat> :: IsRenaming(sig, looked, r, now, m) && PropertySays(sig, r, now, m, c)
  }

  lemma PropertyChanges(sig: TypeRef -> string, options: Options, r: Record, now: Record, c: Change)
    ensures c in PropertyEvents(sig, options, r, now) <==> OfProperties(sig, options.detectRenames, r, now, c)
  {
    var m := PropertyPassIs(sig, options, r, now);
    if n: map<nat, nat> :| IsRenaming(sig, options.detectRenames, r, now, n) && PropertySays(sig, r, now, n, c) {
      RenamingOnce(sig, options.detectRenames, r, now, m, n);
    }
  }

  /** What is said of one path of the old types. */
  ghost predicate OfType(sig: TypeRef -> string, looked: bool, was: Index, now: Index, path: string, c: Change)
    requires path in was.types
  {
    var r := was.types[path];
    if path !in now.types then
      c.kind == TypeRemoved && About(c, path, "") && c.before == Number(r.size) && c.after == Nothing
    else
      || (About(c, path, "") && ShapeDiffers(r, now.types[path], c.kind, c.before, c.after))
      || OfProperties(sig, looked, r, now.types[path], c) || FunctionSays(sig, r, now.types[path], c)
  }

  /** What is said of one path of the new types. */
  ghost predicate OfNewType(was: Index, now: Index, path: string, c: Change)
    requires path in now.types
  {
    && path !in was.types && c.kind == TypeAdded && About(c, path, "") && c.before == Nothing
    && c.after == Number(now.types[path].size)
  }

  /** What is said of one path of the old enums. */
  ghost predicate OfEnum(was: Index, now: Index, path: string, c: Change)
    requires path in was.enums
  {
    if path in now.enums then EnumSays(was.enums[path], now.enums[path], c)
    else c.kind == EnumRemoved && About(c, path, "") && c.before == c.after == Nothing
  }

  lemma TypeIs(sig: TypeRef -> string, options: Options, was: Index, now: Index, path: string, c: Change)
    requires path in was.types
    ensures c in TypeEvents(sig, options, was, now, path) <==> OfType(sig, options.detectRenames, was, now, path, c)
  {
    if path in now.types {
      var r, current := was.types[path], now.types[path];
      ShapeIs(path, r, current, c);
      PropertyChanges(sig, options, r, current, c);
      FunctionPassIs(sig, r, current, c);
      ThreeIn(ShapeEvents(path, r, current), PropertyEvents(sig, options, r, current), FunctionEvents(sig, r, current),
              c);
    }
  }

  /** Some old type, new type, enum. */
  ghost predicate SomeType(sig: TypeRef -> string, looked: bool, was: Index, now: Index, c: Change) {
    exists path :: path in was.types && OfType(sig, looked, was, now, path, c)
  }

  ghost predicate SomeNewType(was: Index, now: Index, c: Change) {
    exists path :: path in now.types && OfNewType(was, now, path, c)
  }

  ghost predicate SomeEnum(was: Index, now: Index, c: Change) {
    exists path :: path in was.enums && OfEnum(was, now, path, c)
  }

  lemma TypesAre(sig: TypeRef -> string, options: Options, was: Index, now: Index, paths: seq<string>, c: Change)
    requires Enumerates(paths, was.types.Keys)
    ensures c in Gathered(TypesRaise(sig, options, was, now, paths), |paths|)
            <==> SomeType(sig, options.detectRenames, was, now, c)
  {
    var raises := TypesRaise(sig, options, was, now, paths);
    GatheredIn(raises, |paths|, c);
    forall n: nat | n < |paths|
      ensures paths[n] in was.types
      ensures c in raises(n) <==> OfType(sig, options.detectRenames, was, now, paths[n], c)
    {
      assert paths[n] in paths;
      TypeIs(sig, options, was, now, paths[n], c);
    }
    if path :| path in was.types && OfType(sig, options.detectRenames, was, now, path, c) {
      assert path in paths;
      var n :| 0 <= n < |paths| && paths[n] == path;
    }
  }

  lemma NewTypesAre(was: Index, now: Index, paths: seq<string>, c: Change)
    requires Enumerates(paths, now.types.Keys)
    ensures c in Gathered(NewTypesRaise(was, now, paths), |paths|) <==> SomeNewType(was, now, c)
  {
    var raises := NewTypesRaise(was, now, paths);
    GatheredIn(raises, |paths|, c);
    forall n: nat | n < |paths|
      ensures paths[n] in now.types && (c in raises(n) <==> OfNewType(was, now, paths[n], c))
    {
      assert paths[n] in paths;
      WhenIs(paths[n] !in was.types, TypeAdded, paths[n], "", Nothing, Number(now.types[paths[n]].size), c);
    }
    if path :| path in now.types && OfNewType(was, now, path, c) {
      assert path in paths;
      var n :| 0 <= n < |paths| && paths[n] == path;
    }
  }

  lemma EnumIs(was: Index, now: Index, path: string, c: Change)
    requires path in was.enums
    ensures c in EnumPathEvents(was, now, path) <==> OfEnum(was, now, path, c)
  {
    if path in now.enums {
      EnumPassIs(was.enums[path], now.enums[path], c);
    }
  }

  lemma EnumsAre(was: Index, now: Index, paths: seq<string>, c: Change)
    requires Enumerates(paths, was.enums.Keys)
    ensures c in Gathered(EnumsRaise(was, now, paths), |paths|) <==> SomeEnum(was, now, c)
  {
    var raises := EnumsRaise(was, now, paths);
    GatheredIn(raises, |paths|, c);
    forall n: nat | n < |paths|
      ensures paths[n] in was.enums && (c in raises(n) <==> OfEnum(was, now, paths[n], c))
    {
      assert paths[n] in paths;
      EnumIs(was, now, paths[n], c);
    }
    if path :| path in was.enums && OfEnum(was, now, path, c) {
      assert path in paths;
      var n :| 0 <= n < |paths| && paths[n] == path;
    }
  }

  /** A key of one side that the other does not have. */
  ghost predicate IsOf(c: Change, kind: ChangeKind, keys: set<string>, others: set<string>) {
    && c.kind == kind && About(c, c.path, "") && c.path in keys && c.path !in others
    && c.before == c.after == Nothing
  }

  lemma KeysMissing(kind: ChangeKind, order: seq<string>, keys: set<string>, others: set<string>, c: Change)
    requires Enumerates(order, keys)
    ensures c in Gathered(Missing(kind, order, others), |order|) <==> IsOf(c, kind, keys, others)
  {
    MissingAre(kind, order, others, |order|, c);
    assert order[..|order|] == order;
  }

  // ---------------------------------------------------------------- the header

  /** The value of the last core offset of the name. */
  ghost predicate IsOffset(offsets: seq<DerivedOffset>, name: string, value: int) {
    exists i: nat :: i < |offsets| && offsets[i].name == name && offsets[i].value == value
                     && forall k :: i < k < |offsets| ==> offsets[k].name != name
  }

  ghost predicate LastOf(offsets: seq<DerivedOffset>, n: nat, name: string, i: nat)
    requires n <= |offsets|
  {
    i < n && offsets[i].name == name && forall k :: i < k < n ==> offsets[k].name != name
  }

  lemma {:induction false} OffsetIs(offsets: seq<DerivedOffset>, n: nat, name: string)
    requires n <= |offsets|
    ensures OffsetValue(offsets, n, name).None? ==> forall i :: 0 <= i < n ==> offsets[i].name != name
    ensures OffsetValue(offsets, n, name).Some? ==>
              exists i: nat :: LastOf(offsets, n, name, i) && offsets[i].value == OffsetValue(offsets, n, name).value
  {
    if n > 0 {
      OffsetIs(offsets, n - 1, name);
      if offsets[n - 1].name == name {
        assert LastOf(offsets, n, name, n - 1);
      } else if OffsetValue(offsets, n - 1, name).Some? {
        var i: nat :| LastOf(offsets, n - 1, name, i)
                      && offsets[i].value == OffsetValue(offsets, n - 1, name).value;
        assert LastOf(offsets, n, name, i);
      }
    }
  }

  lemma OffsetValueIs(offsets: seq<DerivedOffset>, name: string, value: int)
    ensures OffsetValue(offsets, |offsets|, name) == Some(value) <==> IsOffset(offsets, name, value)
  {
    OffsetIs(offsets, |offsets|, name);
  }

  /** A core offset of the new dump that the old one gives another value. */
  ghost predicate OffsetSays(before: Dump, after: Dump, n: nat, c: Change)
    requires n < |after.offsets|
  {
    var entry := after.offsets[n];
    && c.kind == LayoutOffsetChanged && About(c, "<layout>", entry.name) && c.before.Number?
    && IsOffset(before.offsets, entry.name, c.before.n) && c.before.n != entry.value && c.after == Number(entry.value)
  }

  ghost predicate SomeOffset(before: Dump, after: Dump, c: Change) {
    exists n: nat :: n < |after.offsets| && OffsetSays(before, after, n, c)
  }

  ghost predicate OfEngine(before: Dump, after: Dump, c: Change) {
    && before.engineVersion != after.engineVersion && c.kind == EngineVersionChanged && About(c, "<engine>", "")
    && c.before == Words(before.engineVersion) && c.after == Words(after.engineVersion)
  }

  lemma OffsetChangeIs(before: Dump, after: Dump, n: nat, c: Change)
    requires n < |after.offsets|
    ensures c in OffsetEvents(before, after, n) <==> OffsetSays(before, after, n, c)
  {
    var entry := after.offsets[n];
    var was := OffsetValue(before.offsets, |before.offsets|, entry.name);
    forall value: int ensures was == Some(value) <==> IsOffset(before.offsets, entry.name, value) {
      OffsetValueIs(before.offsets, entry.name, value);
    }
    if was.Some? {
      WhenIs(was.value != entry.value, LayoutOffsetChanged, "<layout>", entry.name, Number(was.value),
             Number(entry.value), c);
    }
  }

  lemma HeaderIs(before: Dump, after: Dump, c: Change)
    ensures c in HeaderEvents(before, after) <==> OfEngine(before, after, c) || SomeOffset(before, after, c)
  {
    var raises := OffsetsRaise(before, after);
    GatheredIn(raises, |after.offsets|, c);
    forall n: nat | n < |after.offsets| ensures c in raises(n) <==> OffsetSays(before, after, n, c) {
      OffsetChangeIs(before, after, n, c);
    }
    WhenIs(before.engineVersion != after.engineVersion, EngineVersionChanged, "<engine>", "",
           Words(before.engineVersion), Words(after.engineVersion), c);
  }

  // ---------------------------------------------------------------- everything

  /** The change has its cause in the two dumps. */
  ghost predicate HasCause(sig: TypeRef -> string, looked: bool, before: Dump, after: Dump, was: Index, now: Index,
                           c: Change) {
    || OfEngine(before, after, c) || SomeOffset(before, after, c)
    || IsOf(c, PackageRemoved, was.packages, now.packages) || IsOf(c, PackageAdded, now.packages, was.packages)
    || SomeType(sig, looked, was, now, c) || SomeNewType(was, now, c)
    || SomeEnum(was, now, c) || IsOf(c, EnumAdded, now.enums.Keys, was.enums.Keys)
  }

  lemma BodyIs(sig: TypeRef -> string, options: Options, was: Index, now: Index, o: Orders, c: Change)
    requires ValidOrders(o, was, now)
    ensures c in BodyEvents(sig, options, was, now, SortedKeys(o.oldTypes), SortedKeys(o.newTypes),
                            SortedKeys(o.oldEnums), SortedKeys(o.newEnums)) <==>
            || SomeType(sig, options.detectRenames, was, now, c) || SomeNewType(was, now, c)
            || SomeEnum(was, now, c) || IsOf(c, EnumAdded, now.enums.Keys, was.enums.Keys)
  {
    SortedKeysAre(o.oldTypes, was.types.Keys);
    SortedKeysAre(o.newTypes, now.types.Keys);
    SortedKeysAre(o.oldEnums, was.enums.Keys);
    SortedKeysAre(o.newEnums, now.enums.Keys);
    TypesAre(sig, options, was, now, SortedKeys(o.oldTypes), c);
    NewTypesAre(was, now, SortedKeys(o.newTypes), c);
    EnumsAre(was, now, SortedKeys(o.oldEnums), c);
    KeysMissing(EnumAdded, SortedKeys(o.newEnums), now.enums.Keys, was.enums.Keys, c);
    var x, y := Gathered(TypesRaise(sig, options, was, now, SortedKeys(o.oldTypes)), |SortedKeys(o.oldTypes)|),
        Gathered(NewTypesRaise(was, now, SortedKeys(o.newTypes)), |SortedKeys(o.newTypes)|);
    ThreeIn(x, y, Gathered(EnumsRaise(was, now, SortedKeys(o.oldEnums)), |SortedKeys(o.oldEnums)|), c);
  }

  lemma PackageChangesAre(was: Index, now: Index, o: Orders, c: Change)
    requires ValidOrders(o, was, now)
    ensures c in PackageEvents(was, now, o.oldPackages, o.newPackages) <==>
            IsOf(c, PackageRemoved, was.packages, now.packages) || IsOf(c, PackageAdded, now.packages, was.packages)
  {
    KeysMissing(PackageRemoved, o.oldPackages, was.packages, now.packages, c);
    KeysMissing(PackageAdded, o.newPackages, now.packages, was.packages, c);
  }

  lemma RaisedAre(sig: TypeRef -> string, options: Options, before: Dump, after: Dump, was: Index, now: Index,
                  o: Orders, c: Change)
    requires ValidOrders(o, was, now)
    ensures c in RaisedEvents(sig, options, before, after, was, now, o) <==>
            HasCause(sig, options.detectRenames, before, after, was, now, c)
  {
    HeaderIs(before, after, c);
    PackageChangesAre(was, now, o, c);
    BodyIs(sig, options, was, now, o, c);
    ThreeIn(HeaderEvents(before, after), PackageEvents(was, now, o.oldPackages, o.newPackages),
            BodyEvents(sig, options, was, now, SortedKeys(o.oldTypes), SortedKeys(o.newTypes),
                       SortedKeys(o.oldEnums), SortedKeys(o.newEnums)), c);
  }

  /** The options let the change through: it is loud enough, and an addition only when those are wanted. */
  predicate Passes(options: Options, c: Change) {
    Rank(c.severity) >= Rank(options.minimum) && (options.includeAdditions || c.severity != Severity.Info)
  }

  /** Only additions are quieter than any change to what was there. */
  lemma AdditionsAreInfo(kind: ChangeKind)
    ensures DefaultSeverity(kind) == Severity.Info <==> IsAddition(kind)
  {
  }

  lemma SortedIn(s: seq<Change>, c: Change)
    ensures c in StableSort.Sort(s, ChangeLe) <==> c in s
    ensures StableSort.Sorted(StableSort.Sort(s, ChangeLe), ChangeLe)
  {
    ChangeOrder();
    StableSort.SortSorted(s, ChangeLe);
    assert c in multiset(StableSort.Sort(s, ChangeLe)) <==> c in multiset(s);
  }

  /**
   * The report is exact: a change is in it if and only if the options let it through and it has its cause
   * in the two dumps; and the loudest come first.
   */
  lemma ReportIsExact(sig: TypeRef -> string, options: Options, before: Dump, after: Dump, o: Orders, c: Change)
    requires ValidOrders(o, DumpIndex(before, options.packageFilter), DumpIndex(after, options.packageFilter))
    ensures var was, now := DumpIndex(before, options.packageFilter), DumpIndex(after, options.packageFilter);
            c in ResultOf(sig, options, before, after, o).changes <==>
            Passes(options, c) && HasCause(sig, options.detectRenames, before, after, was, now, c)
    ensures StableSort.Sorted(ResultOf(sig, options, before, after, o).changes, ChangeLe)
  {
    var was, now := DumpIndex(before, options.packageFilter), DumpIndex(after, options.packageFilter);
    var raised := RaisedEvents(sig, options, before, after, was, now, o);
    ReportCounts(options, raised, |raised|);
    SortedIn(ReportOf(options, raised, |raised|).changes, c);
    LeftIn(options, raised, c);
    RaisedAre(sig, options, before, after, was, now, o, c);
    AdditionsAreInfo(c.kind);
    if HasCause(sig, options.detectRenames, before, after, was, now, c) {
      CausesAreLoud(sig, options.detectRenames, before, after, was, now, c);
    }
  }

  /** The loudest come first; of equally loud ones the path decides, and of one path the member. */
  lemma ReportOrder(sig: TypeRef -> string, options: Options, before: Dump, after: Dump, o: Orders, i: nat, j: nat)
    requires ValidOrders(o, DumpIndex(before, options.packageFilter), DumpIndex(after, options.packageFilter))
    requires i < j < |ResultOf(sig, options, before, after, o).changes|
    ensures InOrder(ResultOf(sig, options, before, after, o).changes[i],
                    ResultOf(sig, options, before, after, o).changes[j])
  {
    var changes := ResultOf(sig, options, before, after, o).changes;
    ReportIsExact(sig, options, before, after, o, changes[i]);
    OrderMeans(changes, i, j);
  }

  predicate InOrder(a: Change, b: Change) {
    && !Louder(b.severity, a.severity)
    && (a.severity == b.severity ==> StrLe(a.path, b.path))
    && (a.severity == b.severity && a.path == b.path ==> StrLe(a.member, b.member))
  }

  lemma OrderMeans(changes: seq<Change>, i: nat, j: nat)
    requires i < j < |changes| && StableSort.Sorted(changes, ChangeLe)
    ensures InOrder(changes[i], changes[j])
  {
    assert ChangeLe(changes[i], changes[j]);
    StrTotal(changes[i].path, changes[i].path);
  }

  /** Critical, high, medium, low, info. */
  predicate Louder(a: Severity, b: Severity) {
    match a
    case Critical => !b.Critical?
    case High => b.Medium? || b.Low? || b.Info?
    case Medium => b.Low? || b.Info?
    case Low => b.Info?
    case Info => false
  }

  /** A change with a cause is as loud as its kind. */
  lemma CausesAreLoud(sig: TypeRef -> string, looked: bool, before: Dump, after: Dump, was: Index, now: Index,
                      c: Change)
    requires HasCause(sig, looked, before, after, was, now, c)
    ensures c.severity == DefaultSeverity(c.kind)
  {
  }
}
