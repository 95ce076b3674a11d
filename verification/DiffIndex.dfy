/** The types and enums of a dump by path, and what each path stands for. */
module DiffIndex {
  import opened Ir

  predicate Mentions(text: string, part: string) {
    part <= text || (text != "" && Mentions(text[1..], part))
  }

  ghost predicate StandsAt(text: string, part: string, i: nat) { i <= |text| && part <= text[i..] }

  /** The part stands somewhere in the text. */
  lemma {:induction false} MentionsIff(text: string, part: string)
    ensures Mentions(text, part) <==> exists i: nat :: StandsAt(text, part, i)
  {
    assert text[0..] == text;
    if part <= text {
      assert StandsAt(text, part, 0);
    }
    if text != "" {
      MentionsIff(text[1..], part);
      if i: nat :| StandsAt(text[1..], part, i) {
        assert text[1..][i..] == text[i + 1..];
        assert StandsAt(text, part, i + 1);
      }
      if i: nat :| StandsAt(text, part, i) && i > 0 {
        assert text[i..] == text[1..][i - 1..];
        assert StandsAt(text[1..], part, i - 1);
      }
    }
  }

  predicate Accepted(package: Package, filter: string) { filter == "" || Mentions(package.name, filter) }

  /** The types and enums by path, and the packages, of the packages accepted. */
  datatype Index = Index(types: map<string, Record>, enums: map<string, EnumRecord>, packages: set<string>)

  /** The first n items by path: a later one overwrites an earlier one. */
  function WithAll<T>(byPath: map<string, T>, items: seq<T>, path: T -> string, n: nat): map<string, T>
    requires n <= |items|
  {
    if n == 0 then byPath else WithAll(byPath, items, path, n - 1)[path(items[n - 1]) := items[n - 1]]
  }

  function RecordPath(): Record -> string { (r: Record) => r.path }

  function EnumPath(): EnumRecord -> string { (e: EnumRecord) => e.path }

  /** Structs come after classes. */
  function WithPackage(index: Index, p: Package): Index {
    Index(WithAll(WithAll(index.types, p.classes, RecordPath(), |p.classes|), p.structs, RecordPath(), |p.structs|),
          WithAll(index.enums, p.enums, EnumPath(), |p.enums|), index.packages + {p.name})
  }

  function IndexOf(packages: seq<Package>, filter: string, n: nat): Index
    requires n <= |packages|
  {
    if n == 0 then Index(map[], map[], {}) else
    var before := IndexOf(packages, filter, n - 1);
    if Accepted(packages[n - 1], filter) then WithPackage(before, packages[n - 1]) else before
  }

  function DumpIndex(dump: Dump, filter: string): Index { IndexOf(dump.packages, filter, |dump.packages|) }

  method BuildIndex(dump: Dump, filter: string) returns (index: Index)
    ensures index == DumpIndex(dump, filter)
  {
    index := Index(map[], map[], {});
    for n := 0 to |dump.packages|
      invariant index == IndexOf(dump.packages, filter, n)
    {
      var package := dump.packages[n];
      if Accepted(package, filter) {
        var types, enums := index.types, index.enums;
        for k := 0 to |package.classes|
          invariant types == WithAll(index.types, package.classes, RecordPath(), k)
        {
          types := types[package.classes[k].path := package.classes[k]];
        }
        ghost var classes := types;
        for k := 0 to |package.structs|
          invariant types == WithAll(classes, package.structs, RecordPath(), k)
        {
          types := types[package.structs[k].path := package.structs[k]];
        }
        for k := 0 to |package.enums|
          invariant enums == WithAll(index.enums, package.enums, EnumPath(), k)
        {
          enums := enums[package.enums[k].path := package.enums[k]];
        }
        index := Index(types, enums, index.packages + {package.name});
      }
    }
  }

  // ---------------------------------------------------------------- what a path stands for

  /** The classes and structs of the packages accepted, in the order of the dump. */
  function AcceptedRecords(packages: seq<Package>, filter: string, n: nat): seq<Record>
    requires n <= |packages|
  {
    if n == 0 then [] else
    var p := packages[n - 1];
    AcceptedRecords(packages, filter, n - 1) + (if Accepted(p, filter) then p.classes + p.structs else [])
  }

  function AcceptedEnums(packages: seq<Package>, filter: string, n: nat): seq<EnumRecord>
    requires n <= |packages|
  {
    if n == 0 then [] else
    AcceptedEnums(packages, filter, n - 1) + (if Accepted(packages[n - 1], filter) then packages[n - 1].enums else [])
  }

  /** The i-th item is the last of its path. */
  ghost predicate LastOfPath<T>(items: seq<T>, path: T -> string, i: nat) {
    i < |items| && forall k :: i < k < |items| ==> path(items[k]) != path(items[i])
  }

  /** Each path of the items stands for the last of them that has it, and there is no other path. */
  ghost predicate LastByPath<T(!new)>(byPath: map<string, T>, items: seq<T>, path: T -> string) {
    && (forall i :: 0 <= i < |items| ==> path(items[i]) in byPath)
    && forall p :: p in byPath ==> exists i: nat ::
       LastOfPath(items, path, i) && path(items[i]) == p && byPath[p] == items[i]
  }

  lemma {:induction false} WithAllStands<T>(byPath: map<string, T>, items: seq<T>, more: seq<T>, path: T -> string,
                                            n: nat)
    requires n <= |items|
    ensures WithAll(byPath, items + more, path, n) == WithAll(byPath, items, path, n)
  {
    if n > 0 {
      WithAllStands(byPath, items, more, path, n - 1);
    }
  }

  lemma {:induction false} WithAllConcat<T>(byPath: map<string, T>, a: seq<T>, b: seq<T>, path: T -> string, n: nat)
    requires n <= |b|
    ensures WithAll(WithAll(byPath, a, path, |a|), b, path, n) == WithAll(byPath, a + b, path, |a| + n)
  {
    if n == 0 {
      WithAllStands(byPath, a, b, path, |a|);
    } else {
      WithAllConcat(byPath, a, b, path, n - 1);
      assert (a + b)[|a| + n - 1] == b[n - 1];
    }
  }

  /** The map is what all of the items leave. */
  ghost predicate Holds<T>(byPath: map<string, T>, items: seq<T>, path: T -> string) {
    byPath == WithAll(map[], items, path, |items|)
  }

  lemma HoldsMore<T>(before: map<string, T>, items: seq<T>, more: seq<T>, path: T -> string, after: map<string, T>)
    requires Holds(before, items, path) && after == WithAll(before, more, path, |more|)
    ensures Holds(after, items + more, path)
  {
    WithAllConcat(map[], items, more, path, |more|);
  }

  lemma {:induction false} RecordsFold(packages: seq<Package>, filter: string, n: nat)
    requires n <= |packages|
    ensures Holds(IndexOf(packages, filter, n).types, AcceptedRecords(packages, filter, n), RecordPath())
  {
    if n > 0 {
      RecordsFold(packages, filter, n - 1);
      var before, p := IndexOf(packages, filter, n - 1), packages[n - 1];
      var records := AcceptedRecords(packages, filter, n - 1);
      if Accepted(p, filter) {
        RecordsMore(before, p, records);
      } else {
        assert records + [] == records;
      }
    }
  }

  lemma RecordsMore(before: Index, p: Package, records: seq<Record>)
    requires Holds(before.types, records, RecordPath())
    ensures Holds(WithPackage(before, p).types, records + (p.classes + p.structs), RecordPath())
  {
    var classes := WithAll(before.types, p.classes, RecordPath(), |p.classes|);
    HoldsMore(before.types, records, p.classes, RecordPath(), classes);
    HoldsMore(classes, records + p.classes, p.structs, RecordPath(), WithPackage(before, p).types);
    assert records + p.classes + p.structs == records + (p.classes + p.structs);
  }

  lemma {:induction false} EnumsFold(packages: seq<Package>, filter: string, n: nat)
    requires n <= |packages|
    ensures Holds(IndexOf(packages, filter, n).enums, AcceptedEnums(packages, filter, n), EnumPath())
  {
    if n > 0 {
      EnumsFold(packages, filter, n - 1);
      var before, p := IndexOf(packages, filter, n - 1), packages[n - 1];
      var enums := AcceptedEnums(packages, filter, n - 1);
      if Accepted(p, filter) {
        HoldsMore(before.enums, enums, p.enums, EnumPath(), WithPackage(before, p).enums);
      } else {
        assert enums + [] == enums;
      }
    }
  }

  lemma {:induction false} FoldIsLast<T(!new)>(items: seq<T>, path: T -> string, n: nat)
    requires n <= |items|
    ensures LastByPath(WithAll(map[], items, path, n), items[..n], path)
  {
    if n > 0 {
      FoldIsLast(items, path, n - 1);
      LastMore(WithAll(map[], items, path, n - 1), items[..n - 1], path, items[n - 1]);
      assert items[..n] == items[..n - 1] + [items[n - 1]];
    }
  }

  lemma LastMore<T(!new)>(byPath: map<string, T>, items: seq<T>, path: T -> string, item: T)
    requires LastByPath(byPath, items, path)
    ensures LastByPath(byPath[path(item) := item], items + [item], path)
  {
    var more := items + [item];
    assert LastOfPath(more, path, |items|) && more[|items|] == item;
    forall p | p in byPath && p != path(item)
      ensures exists i: nat :: LastOfPath(more, path, i) && path(more[i]) == p && byPath[p] == more[i]
    {
      var i: nat :| LastOfPath(items, path, i) && path(items[i]) == p && byPath[p] == items[i];
      assert LastOfPath(more, path, i) && more[i] == items[i];
    }
  }

  lemma {:induction false} PackagesFold(packages: seq<Package>, filter: string, n: nat)
    requires n <= |packages|
    ensures IndexOf(packages, filter, n).packages == set i | 0 <= i < n && Accepted(packages[i], filter) ::
            packages[i].name
  {
    if n > 0 {
      PackagesFold(packages, filter, n - 1);
    }
  }

  /**
   * In the index each path stands for the last class or struct, or the last enum, that has it among the
   * packages accepted; and the packages are those.
   */
  lemma IndexHoldsLast(dump: Dump, filter: string)
    ensures var index, n := DumpIndex(dump, filter), |dump.packages|;
            && LastByPath(index.types, AcceptedRecords(dump.packages, filter, n), RecordPath())
            && LastByPath(index.enums, AcceptedEnums(dump.packages, filter, n), EnumPath())
            && index.packages == set i | 0 <= i < n && Accepted(dump.packages[i], filter) :: dump.packages[i].name
  {
    var n := |dump.packages|;
    var records, enums := AcceptedRecords(dump.packages, filter, n), AcceptedEnums(dump.packages, filter, n);
    RecordsFold(dump.packages, filter, n);
    EnumsFold(dump.packages, filter, n);
    PackagesFold(dump.packages, filter, n);
    FoldIsLast(records, RecordPath(), |records|);
    FoldIsLast(enums, EnumPath(), |enums|);
    assert records[..|records|] == records && enums[..|enums|] == enums;
  }

  /** Every type indexed stands under its own path. */
  ghost predicate Keyed(index: Index) {
    && (forall p :: p in index.types ==> index.types[p].path == p)
    && (forall p :: p in index.enums ==> index.enums[p].path == p)
  }

  lemma IndexIsKeyed(dump: Dump, filter: string)
    ensures Keyed(DumpIndex(dump, filter))
  {
    IndexHoldsLast(dump, filter);
  }
}
