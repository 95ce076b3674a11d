/** The whole diff: what it raises for two dumps, and the report it makes of that. */
module DiffReport {
  import opened Common
  import opened Ir
  import opened DiffIndex
  import opened DiffMembers
  import opened DiffFunctionsAndEnums
  import opened StringOrder
  import StableSort

  // ---------------------------------------------------------------- what is raised

  /** The two dumps' indices, and the orders in which their hash containers yield their keys. */
  datatype Orders = Orders(oldPackages: seq<string>, newPackages: seq<string>,
                           oldTypes: seq<string>, newTypes: seq<string>, oldEnums: seq<string>, newEnums: seq<string>)

  ghost predicate ValidOrders(o: Orders, was: Index, now: Index) {
    && Enumerates(o.oldPackages, was.packages) && Enumerates(o.newPackages, now.packages)
    && Enumerates(o.oldTypes, was.types.Keys) && Enumerates(o.newTypes, now.types.Keys)
    && Enumerates(o.oldEnums, was.enums.Keys) && Enumerates(o.newEnums, now.enums.Keys)
  }

  function OffsetValue(offsets: seq<DerivedOffset>, n: nat, name: string): Option<int>
    requires n <= |offsets|
  {
    if n == 0 then None
    else if offsets[n - 1].name == name then Some(offsets[n - 1].value)
    else OffsetValue(offsets, n - 1, name)
  }

  function VersionEvents(before: Dump, after: Dump): seq<Change> {
    When(before.engineVersion != after.engineVersion,
         Raise(EngineVersionChanged, "<engine>", "", Words(before.engineVersion), Words(after.engineVersion)))
  }

  /** What the n-th core offset of the new dump raises. */
  function OffsetEvents(before: Dump, after: Dump, n: nat): seq<Change> {
    if n >= |after.offsets| then [] else
    var entry := after.offsets[n];
    match OffsetValue(before.offsets, |before.offsets|, entry.name)
    case None => []
    case Some(was) => When(was != entry.value,
                           Raise(LayoutOffsetChanged, "<layout>", entry.name, Number(was), Number(entry.value)))
  }

  function OffsetsRaise(before: Dump, after: Dump): nat -> seq<Change> { (n: nat) => OffsetEvents(before, after, n) }

  /** One change for each name in `order` that is not in `others`. */
  function Missing(kind: ChangeKind, order: seq<string>, others: set<string>): nat -> seq<Change> {
    (n: nat) => if n < |order| then When(order[n] !in others, Raise(kind, order[n], "", Nothing, Nothing)) else []
  }

  function SuperText(super: string): string { if super == "" then "<none>" else super }

  /** What the shape of one type raises, apart from its members. */
  function ShapeEvents(path: string, r: Record, now: Record): seq<Change> {
    When(r.size != now.size, Raise(TypeResized, path, "", Number(r.size), Number(now.size)))
    + When(r.alignment != now.alignment, Raise(TypeRealigned, path, "", Number(r.alignment), Number(now.alignment)))
    + When(r.super != now.super, Raise(TypeSuperChanged, path, "", Words(SuperText(r.super)),
                                       Words(SuperText(now.super))))
  }

  function ComparedEvents(sig: TypeRef -> string, options: Options, path: string, r: Record, now: Record): seq<Change> {
    ShapeEvents(path, r, now) + PropertyEvents(sig, options, r, now) + FunctionEvents(sig, r, now)
  }

  /** What one path of the old types raises. */
  function TypeEvents(sig: TypeRef -> string, options: Options, was: Index, now: Index, path: string): seq<Change> {
    if path !in was.types then []
    else if path !in now.types then [Raise(TypeRemoved, path, "", Number(was.types[path].size), Nothing)]
    else ComparedEvents(sig, options, path, was.types[path], now.types[path])
  }

  function TypesRaise(sig: TypeRef -> string, options: Options, was: Index, now: Index,
                      paths: seq<string>): nat -> seq<Change> {
    (n: nat) => if n < |paths| then TypeEvents(sig, options, was, now, paths[n]) else []
  }

  function NewTypesRaise(was: Index, now: Index, paths: seq<string>): nat -> seq<Change> {
    (n: nat) => if n < |paths| && paths[n] in now.types
                then When(paths[n] !in was.types,
                          Raise(TypeAdded, paths[n], "", Nothing, Number(now.types[paths[n]].size)))
                else []
  }

  function EnumPathEvents(was: Index, now: Index, path: string): seq<Change> {
    if path !in was.enums then []
    else if path !in now.enums then [Raise(EnumRemoved, path, "", Nothing, Nothing)]
    else EnumEvents(was.enums[path], now.enums[path])
  }

  function EnumsRaise(was: Index, now: Index, paths: seq<string>): nat -> seq<Change> {
    (n: nat) => if n < |paths| then EnumPathEvents(was, now, paths[n]) else []
  }

  function SortedKeys(order: seq<string>): seq<string> { StableSort.Sort(order, StrLe) }

  /** What the header raises, before any package. */
  function HeaderEvents(before: Dump, after: Dump): seq<Change> {
    VersionEvents(before, after) + Gathered(OffsetsRaise(before, after), |after.offsets|)
  }

  /** The one block that comes in hash order. */
  function PackageEvents(was: Index, now: Index, oldOrder: seq<string>, newOrder: seq<string>): seq<Change> {
    Gathered(Missing(PackageRemoved, oldOrder, now.packages), |oldOrder|)
        + Gathered(Missing(PackageAdded, newOrder, was.packages), |newOrder|)
  }

  /** What the types and the enums raise, by sorted paths. */
  function BodyEvents(sig: TypeRef -> string, options: Options, was: Index, now: Index,
                      oldTypes: seq<string>, newTypes: seq<string>, oldEnums: seq<string>,
                      newEnums: seq<string>): seq<Change> {
    Gathered(TypesRaise(sig, options, was, now, oldTypes), |oldTypes|)
    + Gathered(NewTypesRaise(was, now, newTypes), |newTypes|)
    + Gathered(EnumsRaise(was, now, oldEnums), |oldEnums|)
    + Gathered(Missing(EnumAdded, newEnums, was.enums.Keys), |newEnums|)
  }

  function RaisedEvents(sig: TypeRef -> string, options: Options, before: Dump, after: Dump, was: Index, now: Index,
                        o: Orders): seq<Change> {
    HeaderEvents(before, after) + PackageEvents(was, now, o.oldPackages, o.newPackages)
    + BodyEvents(sig, options, was, now, SortedKeys(o.oldTypes), SortedKeys(o.newTypes), SortedKeys(o.oldEnums),
                 SortedKeys(o.newEnums))
  }

  // ---------------------------------------------------------------- the report

  /** Most severe first, then by path, then by member. */
  predicate ChangeLe(a: Change, b: Change) {
    || Rank(a.severity) > Rank(b.severity)
    || (a.severity == b.severity
        && (if a.path == b.path then StrLe(a.member, b.member) else StrLe(a.path, b.path)))
  }

  datatype Stats = Stats(typesBefore: nat, typesAfter: nat, propertiesBefore: nat, propertiesAfter: nat,
                         functionsBefore: nat, functionsAfter: nat, typesCompared: nat, typesUnchanged: nat)

  function PropertyWeight(types: map<string, Record>): string -> nat {
    (p: string) => if p in types then |types[p].properties| else 0
  }

  function FunctionWeight(types: map<string, Record>): string -> nat {
    (p: string) => if p in types then |types[p].methods| else 0
  }

  function ComparedWeight(was: Index, now: Index): string -> nat {
    (p: string) => if p in was.types && p in now.types then 1 else 0
  }

  function UnchangedWeight(sig: TypeRef -> string, options: Options, was: Index, now: Index): string -> nat {
    (p: string) => if p in was.types && p in now.types && TypeEvents(sig, options, was, now, p) == [] then 1 else 0
  }

  function StatsOf(sig: TypeRef -> string, options: Options, was: Index, now: Index, o: Orders): Stats {
    Stats(|was.types|, |now.types|,
          SumBy(PropertyWeight(was.types), o.oldTypes), SumBy(PropertyWeight(now.types), o.newTypes),
          SumBy(FunctionWeight(was.types), o.oldTypes), SumBy(FunctionWeight(now.types), o.newTypes),
          SumBy(ComparedWeight(was, now), SortedKeys(o.oldTypes)),
          SumBy(UnchangedWeight(sig, options, was, now), SortedKeys(o.oldTypes)))
  }

  datatype DiffResult = DiffResult(changes: seq<Change>, stats: Stats, bySeverity: map<Severity, nat>,
                                   byKind: map<ChangeKind, nat>)

  /** The result of a diff whose hash containers yield their keys in the given orders. */
  function ResultOf(sig: TypeRef -> string, options: Options, before: Dump, after: Dump, o: Orders): DiffResult {
    var was, now := DumpIndex(before, options.packageFilter), DumpIndex(after, options.packageFilter);
    var raised := RaisedEvents(sig, options, before, after, was, now, o);
    var report := ReportOf(options, raised, |raised|);
    DiffResult(StableSort.Sort(report.changes, ChangeLe), StatsOf(sig, options, was, now, o), report.bySeverity,
               report.byKind)
  }

  // ---------------------------------------------------------------- the passes

  method EmitOffsets(emit: Differ, before: Dump, after: Dump)
    requires emit.Valid()
    modifies emit
    ensures emit.Valid() && emit.raised == old(emit.raised) + Gathered(OffsetsRaise(before, after), |after.offsets|)
  {
    var old_: map<string, int> := map[];
    for n := 0 to |before.offsets|
      invariant forall name {:trigger Known(old_, name)} :: Known(old_, name) == OffsetValue(before.offsets, n, name)
    {
      ghost var was := old_;
      old_ := old_[before.offsets[n].name := before.offsets[n].value];
      forall name {:trigger Known(old_, name)} ensures Known(old_, name) == OffsetValue(before.offsets, n + 1, name) {
        assert Known(was, name) == OffsetValue(before.offsets, n, name);
      }
    }
    EmitMovedOffsets(emit, before, after, old_);
  }

  method EmitMovedOffsets(emit: Differ, before: Dump, after: Dump, old_: map<string, int>)
    requires emit.Valid()
    requires forall name {:trigger Known(old_, name)} ::
             Known(old_, name) == OffsetValue(before.offsets, |before.offsets|, name)
    modifies emit
    ensures emit.Valid() && emit.raised == old(emit.raised) + Gathered(OffsetsRaise(before, after), |after.offsets|)
  {
    for n := 0 to |after.offsets|
      invariant emit.Valid() && emit.raised == old(emit.raised) + Gathered(OffsetsRaise(before, after), n)
    {
      GatheredMore(old(emit.raised), OffsetsRaise(before, after), n);
      var entry := after.offsets[n];
      match Known(old_, entry.name)
      case None =>
      case Some(was) =>
        var same := EmitWhen(emit, was != entry.value, LayoutOffsetChanged, "<layout>", entry.name, Number(was),
                             Number(entry.value));
    }
  }

  /** The n-th key of one container, when the other does not hold it. */
  method EmitNthMissing(emit: Differ, kind: ChangeKind, order: seq<string>, others: set<string>, n: nat)
    requires emit.Valid() && n < |order|
    modifies emit
    ensures emit.Valid() && emit.raised == old(emit.raised) + Missing(kind, order, others)(n)
  {
    var same := EmitWhen(emit, order[n] !in others, kind, order[n], "", Nothing, Nothing);
  }

  /** One change for each key of one container that the other does not hold. */
  method EmitMissing(emit: Differ, kind: ChangeKind, order: seq<string>, others: set<string>)
    requires emit.Valid()
    modifies emit
    ensures emit.Valid() && emit.raised == old(emit.raised) + Gathered(Missing(kind, order, others), |order|)
  {
    for n := 0 to |order|
      invariant emit.Valid() && emit.raised == old(emit.raised) + Gathered(Missing(kind, order, others), n)
    {
      GatheredMore(old(emit.raised), Missing(kind, order, others), n);
      EmitNthMissing(emit, kind, order, others, n);
    }
  }

  method EmitShape(emit: Differ, path: string, r: Record, now: Record) returns (same: bool)
    requires emit.Valid()
    modifies emit
    ensures emit.Valid() && emit.raised == old(emit.raised) + ShapeEvents(path, r, now)
    ensures same <==> ShapeEvents(path, r, now) == []
  {
    var size := EmitWhen(emit, r.size != now.size, TypeResized, path, "", Number(r.size), Number(now.size));
    var alignment := EmitWhen(emit, r.alignment != now.alignment, TypeRealigned, path, "", Number(r.alignment),
                              Number(now.alignment));
    var super := EmitWhen(emit, r.super != now.super, TypeSuperChanged, path, "", Words(SuperText(r.super)),
                          Words(SuperText(now.super)));
    same := size && alignment && super;
  }

  /** One path of the old types: gone, or compared. */
  method EmitType(emit: Differ, sig: TypeRef -> string, was: Index, now: Index, path: string)
    returns (compared: bool, same: bool)
    requires emit.Valid() && path in was.types
    modifies emit
    ensures emit.Valid() && emit.raised == old(emit.raised) + TypeEvents(sig, emit.options, was, now, path)
    ensures compared == (path in now.types)
            && (same <==> compared && TypeEvents(sig, emit.options, was, now, path) == [])
  {
    var r := was.types[path];
    if path !in now.types {
      emit.Emit(TypeRemoved, path, "", Number(r.size), Nothing);
      return false, false;
    }
    var current := now.types[path];
    ghost var shape, properties := ShapeEvents(path, r, current), PropertyEvents(sig, emit.options, r, current);
    Regroup(emit.raised, shape, properties);
    Regroup(emit.raised, shape + properties, FunctionEvents(sig, r, current));
    var a := EmitShape(emit, path, r, current);
    var b := DiffProperties(emit, sig, r, current);
    var c := DiffFunctions(emit, sig, r, current);
    compared, same := true, a && b && c;
  }

  /** The n-th path, and the counts it moves. */
  method EmitNthType(emit: Differ, sig: TypeRef -> string, was: Index, now: Index, paths: seq<string>, n: nat,
                     compared: nat, untouched: nat)
    returns (moreCompared: nat, moreUntouched: nat)
    requires emit.Valid() && n < |paths| && paths[n] in was.types
    requires compared == SumBy(ComparedWeight(was, now), paths[..n])
    requires untouched == SumBy(UnchangedWeight(sig, emit.options, was, now), paths[..n])
    modifies emit
    ensures emit.Valid() && emit.raised == old(emit.raised) + TypesRaise(sig, emit.options, was, now, paths)(n)
    ensures moreCompared == SumBy(ComparedWeight(was, now), paths[..n + 1])
    ensures moreUntouched == SumBy(UnchangedWeight(sig, emit.options, was, now), paths[..n + 1])
  {
    SumMore(ComparedWeight(was, now), paths, n);
    SumMore(UnchangedWeight(sig, emit.options, was, now), paths, n);
    var inBoth, same := EmitType(emit, sig, was, now, paths[n]);
    moreCompared := if inBoth then compared + 1 else compared;
    moreUntouched := if same then untouched + 1 else untouched;
  }

  method EmitTypes(emit: Differ, sig: TypeRef -> string, was: Index, now: Index, paths: seq<string>)
    returns (compared: nat, untouched: nat)
    requires emit.Valid() && forall n :: 0 <= n < |paths| ==> paths[n] in was.types
    modifies emit
    ensures emit.Valid() && emit.raised == old(emit.raised)
            + Gathered(TypesRaise(sig, emit.options, was, now, paths), |paths|)
    ensures compared == SumBy(ComparedWeight(was, now), paths)
    ensures untouched == SumBy(UnchangedWeight(sig, emit.options, was, now), paths)
  {
    compared, untouched := 0, 0;
    for n := 0 to |paths|
      invariant emit.Valid() && emit.raised == old(emit.raised)
                + Gathered(TypesRaise(sig, emit.options, was, now, paths), n)
      invariant compared == SumBy(ComparedWeight(was, now), paths[..n])
      invariant untouched == SumBy(UnchangedWeight(sig, emit.options, was, now), paths[..n])
    {
      GatheredMore(old(emit.raised), TypesRaise(sig, emit.options, was, now, paths), n);
      compared, untouched := EmitNthType(emit, sig, was, now, paths, n, compared, untouched);
    }
    assert paths[..|paths|] == paths;
  }

  lemma SumMore(weight: string -> nat, s: seq<string>, n: nat)
    requires n < |s|
    ensures SumBy(weight, s[..n + 1]) == SumBy(weight, s[..n]) + weight(s[n])
  {
    assert s[..n + 1][..n] == s[..n];
  }

  method EmitNthNewType(emit: Differ, was: Index, now: Index, paths: seq<string>, n: nat)
    requires emit.Valid() && n < |paths| && paths[n] in now.types
    modifies emit
    ensures emit.Valid() && emit.raised == old(emit.raised) + NewTypesRaise(was, now, paths)(n)
  {
    var same := EmitWhen(emit, paths[n] !in was.types, TypeAdded, paths[n], "", Nothing,
                         Number(now.types[paths[n]].size));
  }

  method EmitNewTypes(emit: Differ, was: Index, now: Index, paths: seq<string>)
    requires emit.Valid() && forall n :: 0 <= n < |paths| ==> paths[n] in now.types
    modifies emit
    ensures emit.Valid() && emit.raised == old(emit.raised) + Gathered(NewTypesRaise(was, now, paths), |paths|)
  {
    for n := 0 to |paths|
      invariant emit.Valid() && emit.raised == old(emit.raised) + Gathered(NewTypesRaise(was, now, paths), n)
    {
      GatheredMore(old(emit.raised), NewTypesRaise(was, now, paths), n);
      EmitNthNewType(emit, was, now, paths, n);
    }
  }

  /** raises gives what the n-th of the old enums' paths raises. */
  ghost predicate EnumsGive(raises: nat -> seq<Change>, was: Index, now: Index, paths: seq<string>) {
    raises == EnumsRaise(was, now, paths)
  }

  /** The n-th path of the old enums: gone, or compared. */
  method EmitNthEnum(emit: Differ, ghost raises: nat -> seq<Change>, was: Index, now: Index, paths: seq<string>, n: nat)
    requires emit.Valid() && EnumsGive(raises, was, now, paths) && n < |paths| && paths[n] in was.enums
    modifies emit
    ensures emit.Valid() && emit.raised == old(emit.raised) + raises(n)
  {
    var path := paths[n];
    if path !in now.enums {
      emit.Emit(EnumRemoved, path, "", Nothing, Nothing);
    } else {
      DiffEnum(emit, was.enums[path], now.enums[path]);
    }
  }

  method EmitEnums(emit: Differ, ghost raises: nat -> seq<Change>, was: Index, now: Index, paths: seq<string>)
    requires emit.Valid() && EnumsGive(raises, was, now, paths)
    requires forall n :: 0 <= n < |paths| ==> paths[n] in was.enums
    modifies emit
    ensures emit.Valid() && emit.raised == old(emit.raised) + Gathered(raises, |paths|)
  {
    for n := 0 to |paths|
      invariant emit.Valid() && emit.raised == old(emit.raised) + Gathered(raises, n)
    {
      ghost var raised := emit.raised;
      EmitNthEnum(emit, raises, was, now, paths, n);
      GatheredOn(old(emit.raised), raises, n, raised, emit.raised);
    }
  }

  method Sum(weight: string -> nat, order: seq<string>) returns (sum: nat)
    ensures sum == SumBy(weight, order)
  {
    sum := 0;
    for n := 0 to |order|
      invariant sum == SumBy(weight, order[..n])
    {
      SumMore(weight, order, n);
      sum := sum + weight(order[n]);
    }
    assert order[..|order|] == order;
  }

  method EmitHeader(emit: Differ, before: Dump, after: Dump)
    requires emit.Valid()
    modifies emit
    ensures emit.Valid() && emit.raised == old(emit.raised) + HeaderEvents(before, after)
  {
    Regroup(emit.raised, VersionEvents(before, after), Gathered(OffsetsRaise(before, after), |after.offsets|));
    var same := EmitWhen(emit, before.engineVersion != after.engineVersion, EngineVersionChanged, "<engine>", "",
                         Words(before.engineVersion), Words(after.engineVersion));
    EmitOffsets(emit, before, after);
  }

  method EmitPackages(emit: Differ, was: Index, now: Index, oldOrder: seq<string>, newOrder: seq<string>)
    requires emit.Valid()
    modifies emit
    ensures emit.Valid() && emit.raised == old(emit.raised) + PackageEvents(was, now, oldOrder, newOrder)
  {
    Regroup(emit.raised, Gathered(Missing(PackageRemoved, oldOrder, now.packages), |oldOrder|),
            Gathered(Missing(PackageAdded, newOrder, was.packages), |newOrder|));
    EmitMissing(emit, PackageRemoved, oldOrder, now.packages);
    EmitMissing(emit, PackageAdded, newOrder, was.packages);
  }

  lemma BodyGroup(start: seq<Change>, a: seq<Change>, b: seq<Change>, c: seq<Change>, d: seq<Change>)
    ensures start + a + b + c + d == start + (a + b + c + d)
  {
    Regroup(start, a, b);
    Regroup(start, a + b, c);
    Regroup(start, a + b + c, d);
  }

  method EmitBody(emit: Differ, sig: TypeRef -> string, was: Index, now: Index,
                  oldTypes: seq<string>, newTypes: seq<string>, oldEnums: seq<string>, newEnums: seq<string>)
    returns (compared: nat, untouched: nat)
    requires emit.Valid() && (forall n :: 0 <= n < |oldTypes| ==> oldTypes[n] in was.types)
    requires forall n :: 0 <= n < |newTypes| ==> newTypes[n] in now.types
    requires forall n :: 0 <= n < |oldEnums| ==> oldEnums[n] in was.enums
    modifies emit
    ensures emit.Valid() && emit.raised == old(emit.raised)
            + BodyEvents(sig, emit.options, was, now, oldTypes, newTypes, oldEnums, newEnums)
    ensures compared == SumBy(ComparedWeight(was, now), oldTypes)
            && untouched == SumBy(UnchangedWeight(sig, emit.options, was, now), oldTypes)
  {
    BodyGroup(emit.raised, Gathered(TypesRaise(sig, emit.options, was, now, oldTypes), |oldTypes|),
              Gathered(NewTypesRaise(was, now, newTypes), |newTypes|),
              Gathered(EnumsRaise(was, now, oldEnums), |oldEnums|),
              Gathered(Missing(EnumAdded, newEnums, was.enums.Keys), |newEnums|));
    compared, untouched := EmitTypes(emit, sig, was, now, oldTypes);
    EmitNewTypes(emit, was, now, newTypes);
    EmitEnums(emit, EnumsRaise(was, now, oldEnums), was, now, oldEnums);
    EmitMissing(emit, EnumAdded, newEnums, was.enums.Keys);
  }

  lemma KeysListed(order: seq<string>, keys: set<string>)
    requires Enumerates(order, keys)
    ensures forall n :: 0 <= n < |SortedKeys(order)| ==> SortedKeys(order)[n] in keys
  {
    SortedKeysAre(order, keys);
  }

  /** Everything the diff raises, block by block. */
  method EmitAll(emit: Differ, sig: TypeRef -> string, before: Dump, after: Dump, was: Index, now: Index, o: Orders)
    returns (compared: nat, untouched: nat)
    requires emit.Valid() && ValidOrders(o, was, now)
    modifies emit
    ensures emit.Valid() && emit.raised == old(emit.raised)
            + RaisedEvents(sig, emit.options, before, after, was, now, o)
    ensures compared == SumBy(ComparedWeight(was, now), SortedKeys(o.oldTypes))
    ensures untouched == SumBy(UnchangedWeight(sig, emit.options, was, now), SortedKeys(o.oldTypes))
  {
    KeysListed(o.oldTypes, was.types.Keys);
    KeysListed(o.newTypes, now.types.Keys);
    KeysListed(o.oldEnums, was.enums.Keys);
    var oldTypes, newTypes, oldEnums, newEnums := SortedKeys(o.oldTypes), SortedKeys(o.newTypes),
        SortedKeys(o.oldEnums), SortedKeys(o.newEnums);
    Regroup(emit.raised, HeaderEvents(before, after), PackageEvents(was, now, o.oldPackages, o.newPackages));
    Regroup(emit.raised, HeaderEvents(before, after) + PackageEvents(was, now, o.oldPackages, o.newPackages),
            BodyEvents(sig, emit.options, was, now, oldTypes, newTypes, oldEnums, newEnums));
    EmitHeader(emit, before, after);
    EmitPackages(emit, was, now, o.oldPackages, o.newPackages);
    compared, untouched := EmitBody(emit, sig, was, now, oldTypes, newTypes, oldEnums, newEnums);
  }

  /** The members on both sides, counted in the order the containers yield their types. */
  method CountMembers(was: Index, now: Index, o: Orders, compared: nat, untouched: nat) returns (stats: Stats)
    ensures stats == Stats(|was.types|, |now.types|,
                           SumBy(PropertyWeight(was.types), o.oldTypes), SumBy(PropertyWeight(now.types), o.newTypes),
                           SumBy(FunctionWeight(was.types), o.oldTypes), SumBy(FunctionWeight(now.types), o.newTypes),
                           compared, untouched)
  {
    var propertiesBefore := Sum(PropertyWeight(was.types), o.oldTypes);
    var propertiesAfter := Sum(PropertyWeight(now.types), o.newTypes);
    var functionsBefore := Sum(FunctionWeight(was.types), o.oldTypes);
    var functionsAfter := Sum(FunctionWeight(now.types), o.newTypes);
    stats := Stats(|was.types|, |now.types|, propertiesBefore, propertiesAfter, functionsBefore, functionsAfter,
                   compared, untouched);
  }

  /** The diff of two dumps, whatever order the hash containers yield their keys in. */
  method Diff(before: Dump, after: Dump, options: Options, sig: TypeRef -> string, o: Orders)
    returns (result: DiffResult)
    requires ValidOrders(o, DumpIndex(before, options.packageFilter), DumpIndex(after, options.packageFilter))
    ensures result == ResultOf(sig, options, before, after, o)
  {
    var was := BuildIndex(before, options.packageFilter);
    var now := BuildIndex(after, options.packageFilter);
    var emit := new Differ(options);
    var compared, untouched := EmitAll(emit, sig, before, after, was, now, o);
    assert emit.raised == RaisedEvents(sig, options, before, after, was, now, o);
    var stats := CountMembers(was, now, o, compared, untouched);
    result := DiffResult(StableSort.Sort(emit.changes, ChangeLe), stats, emit.bySeverity, emit.byKind);
  }
}
