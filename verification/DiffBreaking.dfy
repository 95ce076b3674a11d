/** How loud the report is and why, and what its statistics count. */
module DiffBreaking {
  import opened Common
  import opened Ir
  import opened DiffMembers
  import opened DiffFunctionsAndEnums
  import opened DiffFields
  import opened DiffExact
  import opened DiffIndex
  import opened DiffReport
  import opened DiffTheorems
  import opened StringOrder

  // ---------------------------------------------------------------- what is loud

  /** Code that reads p where it was, as what it was, reads the same of `now`. */
  predicate ReadsAlike(sig: TypeRef -> string, p: Property, now: Property) {
    && p.offset == now.offset && p.size == now.size && sig(p.ty) == sig(now.ty)
    && (p.isBitfield && now.isBitfield ==> p.bitIndex == now.bitIndex && p.fieldMask == now.fieldMask)
  }

  /** What makes a change to a pair critical. */
  lemma CriticalMeans(sig: TypeRef -> string, path: string, p: Property, now: Property, c: Change)
    requires c in Differences(sig, path, p, now)
    ensures if c.severity == Critical then !ReadsAlike(sig, p, now) else c.severity == Low
  {
    DifferencesAre(sig, path, p, now, c);
  }

  lemma CriticalFound(sig: TypeRef -> string, path: string, p: Property, now: Property) returns (c: Change)
    requires !ReadsAlike(sig, p, now)
    ensures c in Differences(sig, path, p, now) && c.severity == Critical
  {
    c := if p.offset != now.offset then
      Change(PropertyMoved, Critical, path, p.name, Number(p.offset), Number(now.offset))
    else if p.size != now.size then
      Change(PropertyResized, Critical, path, p.name, Number(p.size), Number(now.size))
    else if sig(p.ty) != sig(now.ty) then
      Change(PropertyTypeChanged, Critical, path, p.name, Words(sig(p.ty)), Words(sig(now.ty)))
    else
      Change(PropertyBitMoved, Critical, path, p.name, Bits(p.bitIndex, p.fieldMask),
             Bits(now.bitIndex, now.fieldMask));
    DifferencesAre(sig, path, p, now, c);
  }

  /** A change to a property is critical if and only if it is about where or what is read; the rest is low. */
  lemma PairIsCritical(sig: TypeRef -> string, path: string, p: Property, now: Property)
    ensures (exists c :: c in Differences(sig, path, p, now) && c.severity == Critical) <==> !ReadsAlike(sig, p, now)
    ensures forall c :: c in Differences(sig, path, p, now) ==> c.severity == Critical || c.severity == Low
  {
    forall c | c in Differences(sig, path, p, now)
      ensures if c.severity == Critical then !ReadsAlike(sig, p, now) else c.severity == Low
    {
      CriticalMeans(sig, path, p, now, c);
    }
    if !ReadsAlike(sig, p, now) {
      var c := CriticalFound(sig, path, p, now);
    }
  }

  /** A change to a function is high if and only if a call or a hook of it no longer works; the rest is low. */
  lemma MethodIsHigh(sig: TypeRef -> string, path: string, m: Method, now: Method)
    ensures (exists c :: c in MethodDifferences(sig, path, m, now) && c.severity == High) <==>
            MethodText(sig, m) != MethodText(sig, now)
                || (m.nativeRva != 0 && now.nativeRva != 0 && m.nativeRva != now.nativeRva)
    ensures forall c :: c in MethodDifferences(sig, path, m, now) ==> c.severity == High || c.severity == Low
  {
    var text, nowText := MethodText(sig, m), MethodText(sig, now);
    forall c ensures c in MethodDifferences(sig, path, m, now) <==>
                     About(c, path, m.name) && MethodDiffers(text, nowText, m, now, c.kind, c.before, c.after)
    {
      MethodDifferencesAre(sig, path, m, now, c);
    }
    if text != nowText {
      assert Change(FunctionSignatureChanged, High, path, m.name, ShownText(text), ShownText(nowText))
             in MethodDifferences(sig, path, m, now);
    } else if m.nativeRva != 0 && now.nativeRva != 0 && m.nativeRva != now.nativeRva {
      assert Change(FunctionMoved, High, path, m.name, Number(m.nativeRva), Number(now.nativeRva))
             in MethodDifferences(sig, path, m, now);
    }
  }

  /** DiffResult::HasBreakingChanges */
  ghost predicate HasBreakingChanges(r: DiffResult) {
    exists s :: s in r.bySeverity && Rank(s) >= Rank(High) && r.bySeverity[s] > 0
  }

  lemma {:induction false} SomeOfSeverity(changes: seq<Change>, n: nat, s: Severity)
    requires n <= |changes|
    ensures OfSeverity(changes, n, s) > 0 <==> exists i :: 0 <= i < n && changes[i].severity == s
  {
    if n > 0 {
      SomeOfSeverity(changes, n - 1, s);
    }
  }

  lemma SeverityCounted(sig: TypeRef -> string, options: Options, before: Dump, after: Dump, o: Orders, s: Severity)
    ensures var r := ResultOf(sig, options, before, after, o);
            (s in r.bySeverity && r.bySeverity[s] > 0) <==> exists c :: c in r.changes && c.severity == s
  {
    var r := ResultOf(sig, options, before, after, o);
    CountsHold(sig, options, before, after, o, TypeAdded, s);
    SomeOfSeverity(r.changes, |r.changes|, s);
    if c :| c in r.changes && c.severity == s {
      var i :| 0 <= i < |r.changes| && r.changes[i] == c;
    }
    assert forall i :: 0 <= i < |r.changes| ==> r.changes[i] in r.changes;
  }

  /** The counts say so exactly when a high or critical change is in the report. */
  lemma BreakingIff(sig: TypeRef -> string, options: Options, before: Dump, after: Dump, o: Orders)
    ensures var r := ResultOf(sig, options, before, after, o);
            HasBreakingChanges(r) <==> exists c :: c in r.changes && Rank(c.severity) >= Rank(High)
  {
    var r := ResultOf(sig, options, before, after, o);
    forall s ensures (s in r.bySeverity && r.bySeverity[s] > 0) <==> exists c :: c in r.changes && c.severity == s {
      SeverityCounted(sig, options, before, after, o, s);
    }
    BreakingByCounts(r);
  }

  lemma BreakingByCounts(r: DiffResult)
    requires forall s :: (s in r.bySeverity && r.bySeverity[s] > 0) <==> exists c :: c in r.changes && c.severity == s
    ensures HasBreakingChanges(r) <==> exists c :: c in r.changes && Rank(c.severity) >= Rank(High)
  {
    if c :| c in r.changes && Rank(c.severity) >= Rank(High) {
      assert c.severity in r.bySeverity;
    }
  }

  // ---------------------------------------------------------------- what is counted

  ghost function Chosen(s: seq<string>, some: set<string>): set<string> { set p | p in s && p in some }

  lemma ChosenMore(s: seq<string>, last: string, some: set<string>)
    requires last !in s
    ensures |Chosen(s + [last], some)| == |Chosen(s, some)| + (if last in some then 1 else 0)
  {
    assert Chosen(s + [last], some) == Chosen(s, some) + (if last in some then {last} else {});
  }

  /** Each of the chosen counts one. */
  lemma {:induction false} CountedOnce(weight: string -> nat, s: seq<string>, some: set<string>)
    requires Distinct(s) && forall p :: p in s ==> weight(p) == if p in some then 1 else 0
    ensures SumBy(weight, s) == |Chosen(s, some)|
    decreases |s|
  {
    if s == [] {
      assert Chosen(s, some) == {};
    } else {
      var init, last := s[..|s| - 1], s[|s| - 1];
      CountedOnce(weight, init, some);
      ChosenMore(init, last, some);
      assert s == init + [last];
    }
  }

  /** The types on both sides about which nothing differs. */
  ghost function Unchanged(sig: TypeRef -> string, was: Index, now: Index): set<string> {
    set p | p in was.types && p in now.types && SameShape(was.types[p], now.types[p])
            && PropertiesAgree(sig, was.types[p], now.types[p]) && FunctionsAgree(sig, was.types[p], now.types[p])
  }

  /** The statistics count the types on both sides, and those of them about which nothing differs. */
  lemma StatsAre(sig: TypeRef -> string, options: Options, before: Dump, after: Dump, o: Orders)
    requires ValidOrders(o, DumpIndex(before, options.packageFilter), DumpIndex(after, options.packageFilter))
    ensures var was, now := DumpIndex(before, options.packageFilter), DumpIndex(after, options.packageFilter);
            var stats := ResultOf(sig, options, before, after, o).stats;
            && stats.typesCompared == |was.types.Keys * now.types.Keys|
            && stats.typesUnchanged == |Unchanged(sig, was, now)|
  {
    var was, now := DumpIndex(before, options.packageFilter), DumpIndex(after, options.packageFilter);
    ComparedAre(was, now, SortedKeys(o.oldTypes), o.oldTypes);
    UnchangedAre(sig, options, was, now, SortedKeys(o.oldTypes), o.oldTypes);
  }

  lemma ComparedAre(was: Index, now: Index, paths: seq<string>, order: seq<string>)
    requires Enumerates(order, was.types.Keys) && paths == SortedKeys(order)
    ensures SumBy(ComparedWeight(was, now), paths) == |was.types.Keys * now.types.Keys|
  {
    SortedKeysAre(order, was.types.Keys);
    CountedOnce(ComparedWeight(was, now), paths, was.types.Keys * now.types.Keys);
    assert Chosen(paths, was.types.Keys * now.types.Keys) == was.types.Keys * now.types.Keys;
  }

  lemma UnchangedAre(sig: TypeRef -> string, options: Options, was: Index, now: Index, paths: seq<string>,
                     order: seq<string>)
    requires Enumerates(order, was.types.Keys) && paths == SortedKeys(order)
    ensures SumBy(UnchangedWeight(sig, options, was, now), paths) == |Unchanged(sig, was, now)|
  {
    SortedKeysAre(order, was.types.Keys);
    var some, weight := Unchanged(sig, was, now), UnchangedWeight(sig, options, was, now);
    forall p | p in paths ensures weight(p) == if p in some then 1 else 0 {
      UnchangedCounts(sig, options, was, now, p);
    }
    CountedOnce(weight, paths, some);
    assert Chosen(paths, some) == some;
  }

  lemma UnchangedCounts(sig: TypeRef -> string, options: Options, was: Index, now: Index, path: string)
    ensures UnchangedWeight(sig, options, was, now)(path) == if path in Unchanged(sig, was, now) then 1 else 0
  {
    if path in was.types && path in now.types {
      UnchangedIff(sig, options, was, now, path);
    }
  }
}
