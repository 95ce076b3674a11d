/** Why the report can be believed: it does not depend on hash order, and two equal dumps differ in nothing. */
module DiffTheorems {
  import opened Common
  import opened Ir
  import opened StableSort
  import opened StringOrder
  import opened DiffMembers
  import opened DiffFunctionsAndEnums
  import opened DiffIndex
  import opened DiffReport
  import DiffWhole
  import DiffSignature

  // ---------------------------------------------------------------- the order of the report

  lemma ChangeOrder()
    ensures TotalPreorder(ChangeLe)
  {
    StrOrder();
    forall x, y ensures ChangeLe(x, y) || ChangeLe(y, x) {
      RankInjective(x.severity, y.severity);
      StrTotal(x.path, y.path);
      StrTotal(x.member, y.member);
    }
    forall x, y, z | ChangeLe(x, y) && ChangeLe(y, z) ensures ChangeLe(x, z) {
      ChangeTransitive(x, y, z);
    }
  }

  lemma RankInjective(a: Severity, b: Severity)
    ensures Rank(a) == Rank(b) <==> a == b
  {
  }

  lemma ChangeTransitive(x: Change, y: Change, z: Change)
    requires ChangeLe(x, y) && ChangeLe(y, z)
    ensures ChangeLe(x, z)
  {
    RankInjective(x.severity, y.severity);
    RankInjective(y.severity, z.severity);
    if x.severity == y.severity == z.severity {
      if x.path == y.path == z.path {
        StrTransitive(x.member, y.member, z.member);
      } else if x.path != y.path && y.path != z.path {
        StrTransitive(x.path, y.path, z.path);
        if x.path == z.path {
          StrAntisymmetric(x.path, y.path);
        }
      }
    }
  }

  /** Changes that tie have one severity, one path and one member. */
  lemma ChangeTies(a: Change, b: Change)
    requires ChangeLe(a, b) && ChangeLe(b, a)
    ensures a.severity == b.severity && a.path == b.path && a.member == b.member
  {
    RankInjective(a.severity, b.severity);
    if a.path != b.path {
      StrAntisymmetric(a.path, b.path);
    } else {
      StrAntisymmetric(a.member, b.member);
    }
  }

  // ---------------------------------------------------------------- what the filters leave

  function Left(options: Options, raised: seq<Change>): seq<Change> { KeptOf(options, raised, |raised|) }

  lemma {:induction false} KeptOfConcat(options: Options, a: seq<Change>, b: seq<Change>, n: nat)
    requires n <= |b|
    ensures KeptOf(options, a + b, |a| + n) == KeptOf(options, a, |a|) + KeptOf(options, b, n)
  {
    if n == 0 {
      KeptOfPrefix(options, a, b, |a|);
    } else {
      KeptOfConcat(options, a, b, n - 1);
    }
  }

  lemma {:induction false} KeptOfPrefix(options: Options, a: seq<Change>, b: seq<Change>, n: nat)
    requires n <= |a|
    ensures KeptOf(options, a + b, n) == KeptOf(options, a, n)
  {
    if n > 0 {
      KeptOfPrefix(options, a, b, n - 1);
    }
  }

  lemma LeftConcat(options: Options, a: seq<Change>, b: seq<Change>)
    ensures Left(options, a + b) == Left(options, a) + Left(options, b)
  {
    KeptOfConcat(options, a, b, |b|);
  }

  lemma {:induction false} KeptIn(options: Options, raised: seq<Change>, n: nat, c: Change)
    requires n <= |raised|
    ensures c in KeptOf(options, raised, n) <==> Reported(options, c.kind) && exists i :: 0 <= i < n && raised[i] == c
  {
    if n > 0 {
      KeptIn(options, raised, n - 1, c);
    }
  }

  lemma LeftIn(options: Options, raised: seq<Change>, c: Change)
    ensures c in Left(options, raised) <==> Reported(options, c.kind) && c in raised
  {
    KeptIn(options, raised, |raised|, c);
  }

  /** The filters keep changes that do not tie from tying. */
  lemma {:induction false} KeptApart(options: Options, raised: seq<Change>, n: nat, le: (Change, Change) -> bool)
    requires n <= |raised| && Apart(raised, le)
    ensures Apart(KeptOf(options, raised, n), le)
  {
    if n > 0 {
      KeptApart(options, raised, n - 1, le);
      var front, last := KeptOf(options, raised, n - 1), raised[n - 1];
      if Reported(options, last.kind) {
        forall c | c in front ensures !TieBy(le, c, last) {
          KeptBefore(options, raised, n - 1, c, le);
        }
        ApartMore(front, last, le);
      }
    }
  }

  lemma KeptBefore(options: Options, raised: seq<Change>, n: nat, c: Change, le: (Change, Change) -> bool)
    requires n < |raised| && Apart(raised, le) && c in KeptOf(options, raised, n)
    ensures !TieBy(le, c, raised[n])
  {
    KeptIn(options, raised, n, c);
    var k :| 0 <= k < n && raised[k] == c;
    assert !(le(raised[k], raised[n]) && le(raised[n], raised[k]));
  }

  // ---------------------------------------------------------------- the package block

  /** One package change: of either kind, named by its path alone. */
  ghost predicate IsMissing(c: Change, kind: ChangeKind, order: seq<string>, others: set<string>) {
    c == Raise(kind, c.path, "", Nothing, Nothing) && c.path in order && c.path !in others
  }

  lemma {:induction false} MissingAre(kind: ChangeKind, order: seq<string>, others: set<string>, n: nat, c: Change)
    requires n <= |order|
    ensures c in Gathered(Missing(kind, order, others), n) <==> IsMissing(c, kind, order[..n], others)
  {
    if n > 0 {
      MissingAre(kind, order, others, n - 1, c);
      assert order[..n] == order[..n - 1] + [order[n - 1]];
    }
  }

  lemma {:induction false} MissingApart(kind: ChangeKind, order: seq<string>, others: set<string>, n: nat,
                                        le: (Change, Change) -> bool)
    requires n <= |order| && Distinct(order) && forall a, b :: TieBy(le, a, b) ==> a.path == b.path
    ensures Apart(Gathered(Missing(kind, order, others), n), le)
  {
    if n > 0 {
      MissingApart(kind, order, others, n - 1, le);
      var front := Gathered(Missing(kind, order, others), n - 1);
      if order[n - 1] !in others {
        var last := Raise(kind, order[n - 1], "", Nothing, Nothing);
        forall c | c in front ensures !TieBy(le, c, last) {
          MissingAre(kind, order, others, n - 1, c);
          var k :| 0 <= k < n - 1 && order[..n - 1][k] == c.path;
          assert order[k] != order[n - 1];
        }
        ApartMore(front, last, le);
      }
    }
  }

  lemma PackagesApart(was: Index, now: Index, oldOrder: seq<string>, newOrder: seq<string>)
    requires Distinct(oldOrder) && Distinct(newOrder)
    ensures Apart(PackageEvents(was, now, oldOrder, newOrder), ChangeLe)
  {
    var gone, come := Gathered(Missing(PackageRemoved, oldOrder, now.packages), |oldOrder|),
                      Gathered(Missing(PackageAdded, newOrder, was.packages), |newOrder|);
    forall a, b | TieBy(ChangeLe, a, b) ensures a.path == b.path {
      ChangeTies(a, b);
    }
    MissingApart(PackageRemoved, oldOrder, now.packages, |oldOrder|, ChangeLe);
    MissingApart(PackageAdded, newOrder, was.packages, |newOrder|, ChangeLe);
    forall i, j | 0 <= i < |gone| && 0 <= j < |come|
      ensures !(ChangeLe(gone[i], come[j]) && ChangeLe(come[j], gone[i]))
    {
      MissingAre(PackageRemoved, oldOrder, now.packages, |oldOrder|, gone[i]);
      MissingAre(PackageAdded, newOrder, was.packages, |newOrder|, come[j]);
    }
    ApartConcat(gone, come);
  }

  lemma ApartConcat(s: seq<Change>, t: seq<Change>)
    requires Apart(s, ChangeLe) && Apart(t, ChangeLe)
    requires forall i, j :: 0 <= i < |s| && 0 <= j < |t| ==> !(ChangeLe(s[i], t[j]) && ChangeLe(t[j], s[i]))
    ensures Apart(s + t, ChangeLe)
  {
  }

  lemma PackagesSame(was: Index, now: Index, o: Orders, p: Orders)
    requires ValidOrders(o, was, now) && ValidOrders(p, was, now)
    ensures SameElements(PackageEvents(was, now, o.oldPackages, o.newPackages),
                         PackageEvents(was, now, p.oldPackages, p.newPackages))
  {
    forall c
      ensures c in PackageEvents(was, now, o.oldPackages, o.newPackages)
              <==> c in PackageEvents(was, now, p.oldPackages, p.newPackages)
    {
      PackagesIn(was, now, o, c);
      PackagesIn(was, now, p, c);
    }
  }

  lemma PackagesIn(was: Index, now: Index, o: Orders, c: Change)
    requires ValidOrders(o, was, now)
    ensures c in PackageEvents(was, now, o.oldPackages, o.newPackages) <==>
            || (c == Raise(PackageRemoved, c.path, "", Nothing, Nothing) && c.path in was.packages
                && c.path !in now.packages)
            || (c == Raise(PackageAdded, c.path, "", Nothing, Nothing) && c.path in now.packages
                && c.path !in was.packages)
  {
    MissingAre(PackageRemoved, o.oldPackages, now.packages, |o.oldPackages|, c);
    MissingAre(PackageAdded, o.newPackages, was.packages, |o.newPackages|, c);
    assert o.oldPackages[..|o.oldPackages|] == o.oldPackages && o.newPackages[..|o.newPackages|] == o.newPackages;
  }

  // ---------------------------------------------------------------- determinism

  /** The middle of a list can be given in any order, when nothing in it ties. */
  lemma MiddleAnyOrder(a: seq<Change>, s: seq<Change>, t: seq<Change>, b: seq<Change>)
    requires Apart(s, ChangeLe) && Apart(t, ChangeLe) && SameElements(s, t)
    ensures Sort(a + s + b, ChangeLe) == Sort(a + t + b, ChangeLe)
  {
    ChangeOrder();
    forall key {:trigger Ties(ChangeLe, key)}
      ensures Filter(a + s + b, Ties(ChangeLe, key)) == Filter(a + t + b, Ties(ChangeLe, key))
    {
      var tie := Ties(ChangeLe, key);
      FilterConcat(a + s, b, tie);
      FilterConcat(a, s, tie);
      FilterConcat(a + t, b, tie);
      FilterConcat(a, t, tie);
      ApartRuns(s, t, ChangeLe, key);
    }
    SortDependsOnRuns(a + s + b, a + t + b, ChangeLe);
  }

  /** The sorted list of changes is one, in whatever order the containers yield their keys. */
  lemma ChangesOne(sig: TypeRef -> string, options: Options, before: Dump, after: Dump, o: Orders, p: Orders)
    requires ValidOrders(o, DumpIndex(before, options.packageFilter), DumpIndex(after, options.packageFilter))
    requires ValidOrders(p, DumpIndex(before, options.packageFilter), DumpIndex(after, options.packageFilter))
    ensures ResultOf(sig, options, before, after, o).changes == ResultOf(sig, options, before, after, p).changes
  {
    var was, now := DumpIndex(before, options.packageFilter), DumpIndex(after, options.packageFilter);
    SortedKeysOne(o.oldTypes, p.oldTypes, was.types.Keys);
    SortedKeysOne(o.newTypes, p.newTypes, now.types.Keys);
    SortedKeysOne(o.oldEnums, p.oldEnums, was.enums.Keys);
    SortedKeysOne(o.newEnums, p.newEnums, now.enums.Keys);
    var a := HeaderEvents(before, after);
    var s, t := PackageEvents(was, now, o.oldPackages, o.newPackages),
        PackageEvents(was, now, p.oldPackages, p.newPackages);
    var b := BodyEvents(sig, options, was, now, SortedKeys(o.oldTypes), SortedKeys(o.newTypes), SortedKeys(o.oldEnums),
                        SortedKeys(o.newEnums));
    KeptMiddle(options, a, s, b);
    KeptMiddle(options, a, t, b);
    PackagesApart(was, now, o.oldPackages, o.newPackages);
    PackagesApart(was, now, p.oldPackages, p.newPackages);
    PackagesSame(was, now, o, p);
    LeftSame(options, s, t);
    MiddleAnyOrder(Left(options, a), Left(options, s), Left(options, t), Left(options, b));
  }

  lemma KeptMiddle(options: Options, a: seq<Change>, s: seq<Change>, b: seq<Change>)
    ensures ReportOf(options, a + s + b, |a + s + b|).changes == Left(options, a) + Left(options, s) + Left(options, b)
  {
    ReportCounts(options, a + s + b, |a + s + b|);
    LeftConcat(options, a + s, b);
    LeftConcat(options, a, s);
  }

  lemma LeftSame(options: Options, s: seq<Change>, t: seq<Change>)
    requires Apart(s, ChangeLe) && Apart(t, ChangeLe) && SameElements(s, t)
    ensures Apart(Left(options, s), ChangeLe) && Apart(Left(options, t), ChangeLe)
            && SameElements(Left(options, s), Left(options, t))
  {
    KeptApart(options, s, |s|, ChangeLe);
    KeptApart(options, t, |t|, ChangeLe);
    forall c ensures c in Left(options, s) <==> c in Left(options, t) {
      LeftIn(options, s, c);
      LeftIn(options, t, c);
    }
  }

  // ---------------------------------------------------------------- the counts

  ghost function KindCount(s: seq<Change>, kind: ChangeKind): nat { OfKind(s, |s|, kind) }

  ghost function SeverityCount(s: seq<Change>, severity: Severity): nat { OfSeverity(s, |s|, severity) }

  lemma CountsMore(s: seq<Change>, x: Change, kind: ChangeKind, severity: Severity)
    ensures KindCount(s + [x], kind) == KindCount(s, kind) + (if x.kind == kind then 1 else 0)
    ensures SeverityCount(s + [x], severity) == SeverityCount(s, severity) + (if x.severity == severity then 1 else 0)
  {
    CountsStand(s, [x], |s|, kind, severity);
  }

  lemma {:induction false} InsertCounts(x: Change, s: seq<Change>, kind: ChangeKind, severity: Severity,
                                        le: (Change, Change) -> bool)
    ensures KindCount(Insert(x, s, le), kind) == KindCount(s, kind) + (if x.kind == kind then 1 else 0)
    ensures SeverityCount(Insert(x, s, le), severity)
            == SeverityCount(s, severity) + (if x.severity == severity then 1 else 0)
  {
    if s == [] || le(s[|s| - 1], x) {
      CountsMore(s, x, kind, severity);
    } else {
      var init, last := s[..|s| - 1], s[|s| - 1];
      InsertCounts(x, init, kind, severity, le);
      CountsMore(Insert(x, init, le), last, kind, severity);
      CountsMore(init, last, kind, severity);
      assert init + [last] == s;
    }
  }

  lemma {:induction false} SortCounts(s: seq<Change>, kind: ChangeKind, severity: Severity,
                                      le: (Change, Change) -> bool)
    ensures KindCount(Sort(s, le), kind) == KindCount(s, kind)
            && SeverityCount(Sort(s, le), severity) == SeverityCount(s, severity)
  {
    if s != [] {
      var init, last := s[..|s| - 1], s[|s| - 1];
      SortCounts(init, kind, severity, le);
      InsertCounts(last, Sort(init, le), kind, severity, le);
      CountsMore(init, last, kind, severity);
      assert init + [last] == s;
    }
  }

  /** The report's counts count its changes, kind by kind and severity by severity. */
  lemma CountsHold(sig: TypeRef -> string, options: Options, before: Dump, after: Dump, o: Orders, kind: ChangeKind,
                   severity: Severity)
    ensures var r := ResultOf(sig, options, before, after, o);
            && Count(r.byKind, kind) == KindCount(r.changes, kind)
            && Count(r.bySeverity, severity) == SeverityCount(r.changes, severity)
  {
    var raised := RaisedEvents(sig, options, before, after, DumpIndex(before, options.packageFilter),
                               DumpIndex(after, options.packageFilter), o);
    ReportCounts(options, raised, |raised|);
    SortCounts(ReportOf(options, raised, |raised|).changes, kind, severity, ChangeLe);
  }

  // ---------------------------------------------------------------- the whole result

  /** The changes and the statistics do not depend on hash order. */
  lemma ChangesAndStats(sig: TypeRef -> string, options: Options, before: Dump, after: Dump, o: Orders, p: Orders)
    requires ValidOrders(o, DumpIndex(before, options.packageFilter), DumpIndex(after, options.packageFilter))
    requires ValidOrders(p, DumpIndex(before, options.packageFilter), DumpIndex(after, options.packageFilter))
    ensures ResultOf(sig, options, before, after, o).changes == ResultOf(sig, options, before, after, p).changes
    ensures ResultOf(sig, options, before, after, o).stats == ResultOf(sig, options, before, after, p).stats
  {
    var was, now := DumpIndex(before, options.packageFilter), DumpIndex(after, options.packageFilter);
    ChangesOne(sig, options, before, after, o, p);
    SortedKeysOne(o.oldTypes, p.oldTypes, was.types.Keys);
    SumOneWay(PropertyWeight(was.types), o.oldTypes, p.oldTypes, was.types.Keys);
    SumOneWay(PropertyWeight(now.types), o.newTypes, p.newTypes, now.types.Keys);
    SumOneWay(FunctionWeight(was.types), o.oldTypes, p.oldTypes, was.types.Keys);
    SumOneWay(FunctionWeight(now.types), o.newTypes, p.newTypes, now.types.Keys);
  }

  /** No tally holds a zero. */
  ghost predicate Positive<K>(tally: map<K, nat>) { forall k :: k in tally ==> tally[k] > 0 }

  lemma {:induction false} ReportPositive(options: Options, raised: seq<Change>, n: nat)
    requires n <= |raised|
    ensures var r := ReportOf(options, raised, n); Positive(r.bySeverity) && Positive(r.byKind)
  {
    if n > 0 {
      ReportPositive(options, raised, n - 1);
    }
  }

  /** Tallies without zeros are known by what they count. */
  lemma SameTally<K>(s: map<K, nat>, t: map<K, nat>)
    requires Positive(s) && Positive(t) && forall k :: Count(s, k) == Count(t, k)
    ensures s == t
  {
    forall k ensures k in s <==> k in t {
      assert Count(s, k) == Count(t, k);
    }
    forall k | k in s ensures s[k] == t[k] {
      assert Count(s, k) == Count(t, k);
    }
  }

  /** The counts of a result count its changes, and hold no zero. */
  ghost predicate CountsItsChanges(r: DiffResult) {
    && (forall kind {:trigger Count(r.byKind, kind)} :: Count(r.byKind, kind) == KindCount(r.changes, kind))
    && (forall severity {:trigger Count(r.bySeverity, severity)} ::
        Count(r.bySeverity, severity) == SeverityCount(r.changes, severity))
    && Positive(r.byKind) && Positive(r.bySeverity)
  }

  lemma SortedCounts(report: Report, r: DiffResult)
    requires Tallied(report.changes, report.bySeverity, report.byKind)
    requires Positive(report.bySeverity) && Positive(report.byKind)
    requires r.changes == Sort(report.changes, ChangeLe)
    requires r.bySeverity == report.bySeverity && r.byKind == report.byKind
    ensures CountsItsChanges(r)
  {
    forall kind {:trigger Count(r.byKind, kind)} ensures Count(r.byKind, kind) == KindCount(r.changes, kind) {
      SortCounts(report.changes, kind, Severity.Info, ChangeLe);
    }
    forall severity {:trigger Count(r.bySeverity, severity)}
      ensures Count(r.bySeverity, severity) == SeverityCount(r.changes, severity)
    {
      SortCounts(report.changes, ChangeKind.TypeAdded, severity, ChangeLe);
    }
  }

  lemma ResultCounts(sig: TypeRef -> string, options: Options, before: Dump, after: Dump, o: Orders)
    ensures CountsItsChanges(ResultOf(sig, options, before, after, o))
  {
    var raised := RaisedEvents(sig, options, before, after, DumpIndex(before, options.packageFilter),
                               DumpIndex(after, options.packageFilter), o);
    var report := ReportOf(options, raised, |raised|);
    ReportCounts(options, raised, |raised|);
    ReportPositive(options, raised, |raised|);
    SortedCounts(report, ResultOf(sig, options, before, after, o));
  }

  /** So the changes determine the counts. */
  lemma SameChangesSameCounts(r: DiffResult, s: DiffResult)
    requires CountsItsChanges(r) && CountsItsChanges(s) && r.changes == s.changes
    ensures r.byKind == s.byKind && r.bySeverity == s.bySeverity
  {
    SameTally(r.byKind, s.byKind);
    SameTally(r.bySeverity, s.bySeverity);
  }

  /** The diff is deterministic: nothing of its result depends on hash order. */
  lemma DiffDeterministic(sig: TypeRef -> string, options: Options, before: Dump, after: Dump, o: Orders, p: Orders)
    requires ValidOrders(o, DumpIndex(before, options.packageFilter), DumpIndex(after, options.packageFilter))
    requires ValidOrders(p, DumpIndex(before, options.packageFilter), DumpIndex(after, options.packageFilter))
    ensures ResultOf(sig, options, before, after, o) == ResultOf(sig, options, before, after, p)
  {
    ChangesAndStats(sig, options, before, after, o, p);
    ResultCounts(sig, options, before, after, o);
    ResultCounts(sig, options, before, after, p);
    SameChangesSameCounts(ResultOf(sig, options, before, after, o), ResultOf(sig, options, before, after, p));
  }

  // ---------------------------------------------------------------- a dump against itself

  /** A core offset's name that repeats repeats its value. */
  ghost predicate OffsetsRepeat(offsets: seq<DerivedOffset>) {
    forall i, j :: 0 <= i < j < |offsets| && offsets[i].name == offsets[j].name ==> offsets[i].value == offsets[j].value
  }

  lemma {:induction false} LastOffset(offsets: seq<DerivedOffset>, n: nat, i: nat)
    requires i < n <= |offsets|
    ensures exists j :: i <= j < n && offsets[j].name == offsets[i].name
                        && OffsetValue(offsets, n, offsets[i].name) == Some(offsets[j].value)
    decreases n
  {
    if offsets[n - 1].name != offsets[i].name {
      LastOffset(offsets, n - 1, i);
    }
  }

  lemma SelfHeader(d: Dump)
    ensures HeaderEvents(d, d) == [] <==> OffsetsRepeat(d.offsets)
  {
    var raises := OffsetsRaise(d, d);
    GatheredNothing(raises, |d.offsets|);
    forall i: nat | i < |d.offsets|
      ensures raises(i) == [] <==> OffsetValue(d.offsets, |d.offsets|, d.offsets[i].name) == Some(d.offsets[i].value)
    {
      LastOffset(d.offsets, |d.offsets|, i);
    }
    if OffsetsRepeat(d.offsets) {
      forall i: nat | i < |d.offsets| ensures raises(i) == [] {
        LastOffset(d.offsets, |d.offsets|, i);
      }
    }
    if forall i :: 0 <= i < |d.offsets| ==> raises(i) == [] {
      forall i, j | 0 <= i < j < |d.offsets| && d.offsets[i].name == d.offsets[j].name
        ensures d.offsets[i].value == d.offsets[j].value
      {
        assert raises(i) == [] && raises(j) == [];
      }
    }
  }

  lemma SelfPackages(index: Index, o: Orders)
    requires ValidOrders(o, index, index)
    ensures PackageEvents(index, index, o.oldPackages, o.newPackages) == []
  {
    SelfMissing(PackageRemoved, o.oldPackages, index.packages);
    SelfMissing(PackageAdded, o.newPackages, index.packages);
  }

  lemma SelfMissing(kind: ChangeKind, order: seq<string>, keys: set<string>)
    requires forall n :: 0 <= n < |order| ==> order[n] in keys
    ensures Gathered(Missing(kind, order, keys), |order|) == []
  {
    GatheredNothing(Missing(kind, order, keys), |order|);
  }

  lemma SelfType(sig: TypeRef -> string, options: Options, index: Index, path: string)
    ensures TypeEvents(sig, options, index, index, path) == []
  {
    if path in index.types {
      SelfRecord(sig, options, index.types[path]);
    }
  }

  /** Every enum indexed repeats its values with its names. */
  ghost predicate EnumsRepeat(index: Index) { forall p :: p in index.enums ==> Repeats(index.enums[p].values) }

  lemma SelfEnums(index: Index, paths: seq<string>)
    requires Enumerates(paths, index.enums.Keys)
    ensures Gathered(EnumsRaise(index, index, paths), |paths|) == [] <==> EnumsRepeat(index)
  {
    var raises := EnumsRaise(index, index, paths);
    GatheredNothing(raises, |paths|);
    forall n: nat | n < |paths| ensures raises(n) == [] <==> Repeats(index.enums[paths[n]].values) {
      SelfEnum(index.enums[paths[n]]);
    }
    if forall n :: 0 <= n < |paths| ==> raises(n) == [] {
      forall p | p in index.enums ensures Repeats(index.enums[p].values) {
        var n :| 0 <= n < |paths| && paths[n] == p;
        assert raises(n) == [];
      }
    }
  }

  lemma SelfBody(sig: TypeRef -> string, options: Options, index: Index, o: Orders)
    requires ValidOrders(o, index, index)
    ensures BodyEvents(sig, options, index, index, SortedKeys(o.oldTypes), SortedKeys(o.newTypes),
                       SortedKeys(o.oldEnums), SortedKeys(o.newEnums)) == []
            <==> EnumsRepeat(index)
  {
    SortedKeysAre(o.oldEnums, index.enums.Keys);
    SortedKeysAre(o.newEnums, index.enums.Keys);
    SelfTypes(sig, options, index, SortedKeys(o.oldTypes));
    SelfNewTypes(index, SortedKeys(o.newTypes));
    SelfEnums(index, SortedKeys(o.oldEnums));
    SelfMissing(EnumAdded, SortedKeys(o.newEnums), index.enums.Keys);
  }

  lemma SelfTypes(sig: TypeRef -> string, options: Options, index: Index, paths: seq<string>)
    ensures Gathered(TypesRaise(sig, options, index, index, paths), |paths|) == []
  {
    forall n: nat | n < |paths| ensures TypesRaise(sig, options, index, index, paths)(n) == [] {
      SelfType(sig, options, index, paths[n]);
    }
    GatheredNothing(TypesRaise(sig, options, index, index, paths), |paths|);
  }

  lemma SelfNewTypes(index: Index, paths: seq<string>)
    ensures Gathered(NewTypesRaise(index, index, paths), |paths|) == []
  {
    GatheredNothing(NewTypesRaise(index, index, paths), |paths|);
  }

  /**
   * Self-diff: against itself a dump raises nothing, duplicate property and function names and all, if
   * and only if what repeats in its enums and in its core offsets repeats its value.
   */
  lemma SelfDiffRaises(sig: TypeRef -> string, options: Options, d: Dump, o: Orders)
    requires ValidOrders(o, DumpIndex(d, options.packageFilter), DumpIndex(d, options.packageFilter))
    ensures var index := DumpIndex(d, options.packageFilter);
            RaisedEvents(sig, options, d, d, index, index, o) == [] <==> OffsetsRepeat(d.offsets) && EnumsRepeat(index)
  {
    var index := DumpIndex(d, options.packageFilter);
    SelfHeader(d);
    SelfPackages(index, o);
    SelfBody(sig, options, index, o);
  }

  lemma {:induction false} AllOnes(weight: string -> nat, s: seq<string>)
    requires forall k :: k in s ==> weight(k) == 1
    ensures SumBy(weight, s) == |s|
  {
    if s != [] {
      AllOnes(weight, s[..|s| - 1]);
    }
  }

  lemma {:induction false} EnumeratesCount(order: seq<string>, keys: set<string>)
    requires Enumerates(order, keys)
    ensures |order| == |keys|
    decreases |order|
  {
    if order == [] {
      assert keys == {};
    } else {
      var n := |order| - 1;
      EnumeratesWithout(order, n, keys);
      assert order[..n] + order[n + 1..] == order[..n];
      EnumeratesCount(order[..n], keys - {order[n]});
      assert order[n] in keys;
    }
  }

  /** And the report of a self-diff: no change, every type compared, every type unchanged. */
  lemma SelfDiffReport(sig: TypeRef -> string, options: Options, d: Dump, o: Orders)
    requires ValidOrders(o, DumpIndex(d, options.packageFilter), DumpIndex(d, options.packageFilter))
    ensures var r := ResultOf(sig, options, d, d, o);
            && r.stats.typesCompared == r.stats.typesBefore && r.stats.typesUnchanged == r.stats.typesBefore
            && (OffsetsRepeat(d.offsets) && EnumsRepeat(DumpIndex(d, options.packageFilter)) ==> r.changes == [])
  {
    var index := DumpIndex(d, options.packageFilter);
    var paths := SortedKeys(o.oldTypes);
    SelfDiffRaises(sig, options, d, o);
    SortedKeysAre(o.oldTypes, index.types.Keys);
    EnumeratesCount(paths, index.types.Keys);
    forall p | p in paths
      ensures ComparedWeight(index, index)(p) == 1 && UnchangedWeight(sig, options, index, index)(p) == 1
    {
      SelfType(sig, options, index, p);
    }
    AllOnes(ComparedWeight(index, index), paths);
    AllOnes(UnchangedWeight(sig, options, index, index), paths);
  }

  // ---------------------------------------------------------------- what a type change means

  /** Some change of the kind is among the events. */
  ghost predicate Reports(events: seq<Change>, kind: ChangeKind) {
    exists i :: 0 <= i < |events| && events[i].kind == kind
  }

  lemma ReportsEither(a: seq<Change>, b: seq<Change>, kind: ChangeKind)
    ensures Reports(a + b, kind) <==> Reports(a, kind) || Reports(b, kind)
  {
    assert forall i :: 0 <= i < |a| ==> (a + b)[i] == a[i];
    assert forall i :: 0 <= i < |b| ==> (a + b)[|a| + i] == b[i];
  }

  lemma ReportsThree(a: seq<Change>, b: seq<Change>, c: seq<Change>, kind: ChangeKind)
    ensures Reports(a + b + c, kind) <==> Reports(a, kind) || Reports(b, kind) || Reports(c, kind)
  {
    ReportsEither(a, b, kind);
    ReportsEither(a + b, c, kind);
  }

  lemma ReportsWhen(b: bool, c: Change, kind: ChangeKind)
    ensures Reports(When(b, c), kind) <==> b && c.kind == kind
  {
    if b {
      assert When(b, c)[0] == c;
    }
  }

  lemma TypeChangeRaised(sig: TypeRef -> string, path: string, p: Property, now: Property)
    ensures Reports(LayoutDifferences(sig, path, p, now), PropertyTypeChanged) <==> sig(p.ty) != sig(now.ty)
  {
    var moved := Raise(PropertyMoved, path, p.name, Number(p.offset), Number(now.offset));
    var resized := Raise(PropertyResized, path, p.name, Number(p.size), Number(now.size));
    var changed := Raise(PropertyTypeChanged, path, p.name, Words(sig(p.ty)), Words(sig(now.ty)));
    ReportsWhen(p.offset != now.offset, moved, PropertyTypeChanged);
    ReportsWhen(p.size != now.size, resized, PropertyTypeChanged);
    ReportsWhen(sig(p.ty) != sig(now.ty), changed, PropertyTypeChanged);
    ReportsThree(When(p.offset != now.offset, moved), When(p.size != now.size, resized),
                 When(sig(p.ty) != sig(now.ty), changed),
                 PropertyTypeChanged);
  }

  lemma DetailsKeepTypes(path: string, p: Property, now: Property)
    ensures !Reports(DetailDifferences(path, p, now), PropertyTypeChanged)
  {
    var bits := Raise(PropertyBitMoved, path, p.name, Bits(p.bitIndex, p.fieldMask), Bits(now.bitIndex, now.fieldMask));
    var flags := Raise(PropertyFlagsChanged, path, p.name, Number(p.flags), Number(now.flags));
    var fallback := Raise(PropertyDefaultChanged, path, p.name, Words(p.defaultValue), Words(now.defaultValue));
    ReportsWhen(BitMoved(p, now), bits, PropertyTypeChanged);
    ReportsWhen(p.flags != now.flags, flags, PropertyTypeChanged);
    ReportsWhen(DefaultChanged(p, now), fallback, PropertyTypeChanged);
    ReportsThree(When(BitMoved(p, now), bits), When(p.flags != now.flags, flags),
                 When(DefaultChanged(p, now), fallback), PropertyTypeChanged);
  }

  /** A pair is reported to have changed type if and only if the engine's types differ, at some level. */
  lemma TypeChangesAreReal(path: string, p: Property, now: Property)
    requires DiffWhole.SettledType(p.ty) && DiffWhole.SettledType(now.ty)
    ensures Reports(Differences(DiffSignature.Signature, path, p, now), PropertyTypeChanged)
            <==> DiffSignature.Seen(p.ty) != DiffSignature.Seen(now.ty)
  {
    TypeChangeRaised(DiffSignature.Signature, path, p, now);
    DetailsKeepTypes(path, p, now);
    ReportsEither(LayoutDifferences(DiffSignature.Signature, path, p, now), DetailDifferences(path, p, now),
                  PropertyTypeChanged);
    DiffWhole.SignaturesDecide(p.ty, now.ty);
  }
}
