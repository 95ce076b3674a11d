/** The C# tree: each type printed in its own file, or inside its outer type. */
module CSharpForest {
  import opened Common
  import opened CSharpNames

  // ---------------------------------------------------------------- what is inside what

  /** What the tree needs of an entry: the path of the type it is nested in, when the dump has that path. */
  datatype Item = Item(isEnum: bool, path: string, outer: Option<string>)

  function Paths(entries: seq<Entry>): set<string> { set e | e in entries :: e.path }

  function ItemOf(e: Entry, paths: set<string>): Item {
    Item(e.isEnum, e.path, if OuterPath(e).Some? && OuterPath(e).value in paths then OuterPath(e) else None)
  }

  function Items(entries: seq<Entry>): (items: seq<Item>)
    ensures |items| == |entries|
  {
    seq(|entries|, i requires 0 <= i < |entries| => ItemOf(entries[i], Paths(entries)))
  }

  /** The first n entries' that are nested in a type of the given path, or in none, in order. */
  function Inside(items: seq<Item>, outer: Option<string>, n: nat): (inside: seq<nat>)
    requires n <= |items|
    ensures forall k :: 0 <= k < |inside| ==> inside[k] < n && items[inside[k]].outer == outer
    ensures forall i: nat :: i < n && items[i].outer == outer ==> i in inside
    ensures Distinct(inside)
  {
    if n == 0 then [] else
    Inside(items, outer, n - 1) + (if items[n - 1].outer == outer then [n - 1] else [])
  }

  /** Printing a prints b inside it: b is nested in a type of a's path, and a is no enum. */
  predicate Link(items: seq<Item>, a: nat, b: nat) {
    a < |items| && b < |items| && !items[a].isEnum && items[b].outer == Some(items[a].path)
  }

  /** A way inwards from a type that is nested in none. */
  ghost predicate Chain(items: seq<Item>, c: seq<nat>) {
    && c != [] && c[0] < |items| && items[c[0]].outer.None?
    && forall k {:trigger c[k]} :: 0 < k < |c| ==> Link(items, c[k - 1], c[k])
  }

  /** No way inwards comes back to where it was. */
  ghost predicate NoCircle(items: seq<Item>) { forall c: seq<nat> :: Chain(items, c) ==> Distinct(c) }

  // ---------------------------------------------------------------- the printed text

  /** The printed text of one entry: the entry, and the blocks inside it. */
  datatype Block = Block(entry: nat, inner: seq<Block>)

  /** The entries a block prints, in order. */
  function Printed(b: Block): seq<nat>
    decreases b, 0
  {
    [b.entry] + PrintedAll(b.inner)
  }

  function PrintedAll(blocks: seq<Block>): seq<nat>
    decreases blocks, 1
  {
    if blocks == [] then [] else Printed(blocks[0]) + PrintedAll(blocks[1..])
  }

  /** And where each of them stands: the entries around it, from the outermost on, and itself. */
  function Trails(b: Block, above: seq<nat>): seq<seq<nat>>
    decreases b, 0
  {
    [above + [b.entry]] + TrailsAll(b.inner, above + [b.entry])
  }

  function TrailsAll(blocks: seq<Block>, above: seq<nat>): seq<seq<nat>>
    decreases blocks, 1
  {
    if blocks == [] then [] else Trails(blocks[0], above) + TrailsAll(blocks[1..], above)
  }

  /** The k-th entry printed is the last of the k-th trail. */
  ghost predicate Ends(printed: seq<nat>, trails: seq<seq<nat>>) {
    |printed| == |trails|
    && forall k {:trigger trails[k]} :: 0 <= k < |trails| ==>
       trails[k] != [] && trails[k][|trails[k]| - 1] == printed[k]
  }

  lemma EndsConcat(p: seq<nat>, s: seq<seq<nat>>, q: seq<nat>, t: seq<seq<nat>>)
    requires Ends(p, s) && Ends(q, t)
    ensures Ends(p + q, s + t)
  {
  }

  lemma {:induction false} PrintedEnds(b: Block, above: seq<nat>)
    ensures Ends(Printed(b), Trails(b, above))
    decreases b, 0
  {
    PrintedAllEnds(b.inner, above + [b.entry]);
    EndsConcat([b.entry], [above + [b.entry]], PrintedAll(b.inner), TrailsAll(b.inner, above + [b.entry]));
  }

  lemma {:induction false} PrintedAllEnds(blocks: seq<Block>, above: seq<nat>)
    ensures Ends(PrintedAll(blocks), TrailsAll(blocks, above))
    decreases blocks, 1
  {
    if blocks != [] {
      PrintedEnds(blocks[0], above);
      PrintedAllEnds(blocks[1..], above);
      EndsConcat(Printed(blocks[0]), Trails(blocks[0], above), PrintedAll(blocks[1..]), TrailsAll(blocks[1..], above));
    }
  }

  lemma {:induction false} TrailsConcat(a: seq<Block>, b: seq<Block>, above: seq<nat>)
    ensures TrailsAll(a + b, above) == TrailsAll(a, above) + TrailsAll(b, above)
  {
    if a == [] {
      assert a + b == b;
      assert [] + TrailsAll(b, above) == TrailsAll(b, above);
    } else {
      TrailsConcat(a[1..], b, above);
      assert (a + b)[1..] == a[1..] + b;
      Regrouped(Trails(a[0], above), TrailsAll(a[1..], above), TrailsAll(b, above));
    }
  }

  lemma Regrouped<T>(a: seq<T>, b: seq<T>, c: seq<T>)
    ensures a + (b + c) == a + b + c
  {
  }

  lemma TrailsMore(a: seq<Block>, b: Block, above: seq<nat>)
    ensures TrailsAll(a + [b], above) == TrailsAll(a, above) + Trails(b, above)
  {
    TrailsConcat(a, [b], above);
    assert TrailsAll([b], above) == Trails(b, above) + [] == Trails(b, above);
  }

  // ---------------------------------------------------------------- every way inwards, once

  /** The trails are exactly the ways inwards that go on from c, each once. */
  ghost predicate Covers(items: seq<Item>, trails: seq<seq<nat>>, c: seq<nat>) {
    Distinct(trails) && forall d :: d in trails <==> Chain(items, d) && c <= d
  }

  /** The way goes on from `above` with one of the given entries. */
  ghost predicate Through(above: seq<nat>, tops: seq<nat>, d: seq<nat>) {
    above < d && d[|above|] in tops
  }

  /** The trails are exactly the ways inwards that go on from `above` with one of the given entries. */
  ghost predicate CoversAll(items: seq<Item>, trails: seq<seq<nat>>, above: seq<nat>, tops: seq<nat>) {
    Distinct(trails) && forall d :: d in trails <==> Chain(items, d) && Through(above, tops, d)
  }

  lemma DistinctConcat<T>(a: seq<T>, b: seq<T>)
    requires Distinct(a) && Distinct(b) && forall x :: x in a ==> x !in b
    ensures Distinct(a + b)
  {
    var c := a + b;
    forall i, j | 0 <= i < j < |c| ensures c[i] != c[j] {
      if i < |a| && |a| <= j {
        assert a[i] in a && b[j - |a|] in b;
      }
    }
  }

  lemma ThroughOne(above: seq<nat>, t: nat, d: seq<nat>)
    ensures above + [t] <= d <==> above < d && d[|above|] == t
  {
    if above < d && d[|above|] == t {
      assert d[..|above| + 1] == above + [t];
    }
    if above + [t] <= d {
      assert d[|above|] == (above + [t])[|above|];
      assert d[..|above|] == (above + [t])[..|above|] == above;
    }
  }

  /** One more sibling covers the ways through it as well, and none twice. */
  lemma CoversMore(items: seq<Item>, trails: seq<seq<nat>>, above: seq<nat>, tops: seq<nat>, more: seq<seq<nat>>,
                   t: nat)
    requires CoversAll(items, trails, above, tops) && Covers(items, more, above + [t]) && t !in tops
    ensures CoversAll(items, trails + more, above, tops + [t])
  {
    forall d ensures d in more ==> above < d && d[|above|] == t {
      ThroughOne(above, t, d);
    }
    DistinctConcat(trails, more);
    forall d ensures d in trails + more <==> Chain(items, d) && Through(above, tops + [t], d) {
      ThroughOne(above, t, d);
    }
  }

  /** A way that goes on from one that ends in i goes on with what is inside i. */
  lemma GoesOn(items: seq<Item>, c: seq<nat>, d: seq<nat>)
    requires Chain(items, c) && Chain(items, d) && c < d
    ensures var i := c[|c| - 1];
            i < |items| && !items[i].isEnum && d[|c|] in Inside(items, Some(items[i].path), |items|)
  {
    assert Link(items, d[|c| - 1], d[|c|]);
    assert d[|c| - 1] == c[|c| - 1];
  }

  /** The way itself, and those that go on from it. */
  lemma CoversSelf(items: seq<Item>, c: seq<nat>, inner: seq<seq<nat>>, tops: seq<nat>)
    requires Chain(items, c) && CoversAll(items, inner, c, tops)
    requires forall d :: Chain(items, d) && c < d ==> d[|c|] in tops
    ensures Covers(items, [c] + inner, c)
  {
    assert c !in inner;
    DistinctConcat([c], inner);
    forall d ensures d in [c] + inner <==> Chain(items, d) && c <= d {
      if Chain(items, d) && c <= d && d != c {
        assert Through(c, tops, d);
      }
    }
  }

  lemma ChainMore(items: seq<Item>, c: seq<nat>, t: nat)
    requires Chain(items, c) && Link(items, c[|c| - 1], t)
    ensures Chain(items, c + [t])
  {
    var d := c + [t];
    forall k {:trigger d[k]} | 0 < k < |d| ensures Link(items, d[k - 1], d[k]) {
      if k < |c| {
        assert d[k] == c[k] && d[k - 1] == c[k - 1];
      }
    }
  }

  lemma ChainLast(items: seq<Item>, c: seq<nat>)
    requires Chain(items, c)
    ensures forall k {:trigger c[k]} :: 0 <= k < |c| ==> c[k] < |items|
  {
    forall k {:trigger c[k]} | 0 <= k < |c| ensures c[k] < |items| {
      if k > 0 {
        assert Link(items, c[k - 1], c[k]);
      }
    }
  }

  lemma Without(c: seq<nat>, k: nat)
    requires Distinct(c) && k < |c|
    ensures Distinct(c[..k] + c[k + 1..])
  {
    var rest := c[..k] + c[k + 1..];
    forall i, j | 0 <= i < j < |rest| ensures rest[i] != rest[j] {
      assert rest[i] == c[if i < k then i else i + 1] && rest[j] == c[if j < k then j else j + 1];
    }
  }

  /** Different numbers below n are no more than n. */
  lemma {:induction false} DistinctBound(c: seq<nat>, n: nat)
    requires Distinct(c) && forall k :: 0 <= k < |c| ==> c[k] < n
    ensures |c| <= n
    decreases n
  {
    if c != [] {
      assert 0 <= c[0] < n;
      if n - 1 in c {
        var k :| 0 <= k < |c| && c[k] == n - 1;
        var rest := c[..k] + c[k + 1..];
        Without(c, k);
        forall i | 0 <= i < |rest| ensures rest[i] < n - 1 {
          assert rest[i] == c[if i < k then i else i + 1];
        }
        DistinctBound(rest, n - 1);
      } else {
        forall k | 0 <= k < |c| ensures c[k] < n - 1 {
          assert c[k] in c;
        }
        DistinctBound(c, n - 1);
      }
    }
  }

  lemma ChainBound(items: seq<Item>, c: seq<nat>)
    requires NoCircle(items) && Chain(items, c)
    ensures |c| <= |items|
  {
    ChainLast(items, c);
    DistinctBound(c, |items|);
  }

  // ---------------------------------------------------------------- printing

  method KnownPaths(entries: seq<Entry>) returns (paths: set<string>)
    ensures paths == Paths(entries)
  {
    paths := {};
    for n := 0 to |entries|
      invariant paths == Paths(entries[..n])
    {
      assert entries[..n + 1] == entries[..n] + [entries[n]];
      paths := paths + {entries[n].path};
    }
    assert entries[..|entries|] == entries;
  }

  /** What the map of nested entries holds for a path. */
  function Of(nestedOf: map<string, seq<nat>>, path: string): seq<nat> {
    if path in nestedOf then nestedOf[path] else []
  }

  /** The map gives, for every path, the first n entries nested in it. */
  ghost predicate NestedTo(items: seq<Item>, n: nat, nestedOf: map<string, seq<nat>>) {
    n <= |items| && forall p {:trigger Of(nestedOf, p)} :: Of(nestedOf, p) == Inside(items, Some(p), n)
  }

  /** For each path the entries nested in it; and which entries are nested at all. */
  method FindNesting(entries: seq<Entry>) returns (nestedOf: map<string, seq<nat>>, nested: seq<bool>)
    ensures NestedTo(Items(entries), |entries|, nestedOf)
    ensures |nested| == |entries|
    ensures forall i {:trigger nested[i]} :: 0 <= i < |nested| ==> nested[i] == Items(entries)[i].outer.Some?
  {
    var paths := KnownPaths(entries);
    ghost var items := Items(entries);
    assert Outers(items, entries, paths);
    nestedOf, nested := NestAll(entries, paths, items);
  }

  /** The items are those of the entries. */
  ghost predicate Outers(items: seq<Item>, entries: seq<Entry>, paths: set<string>) {
    |items| == |entries| && forall i {:trigger ItemOf(entries[i], paths)} :: 0 <= i < |entries| ==>
                              items[i] == ItemOf(entries[i], paths)
  }

  method NestAll(entries: seq<Entry>, paths: set<string>, ghost items: seq<Item>)
    returns (nestedOf: map<string, seq<nat>>, nested: seq<bool>)
    requires Outers(items, entries, paths)
    ensures NestedTo(items, |entries|, nestedOf) && |nested| == |entries|
    ensures forall i {:trigger nested[i]} :: 0 <= i < |nested| ==> nested[i] == items[i].outer.Some?
  {
    nestedOf, nested := map[], [];
    for n := 0 to |entries|
      invariant NestedTo(items, n, nestedOf)
      invariant |nested| == n && forall i {:trigger nested[i]} :: 0 <= i < n ==> nested[i] == items[i].outer.Some?
    {
      var outer := OuterOf(entries, n, paths, items);
      ghost var before := nestedOf;
      if outer.Some? {
        nestedOf := nestedOf[outer.value := Of(nestedOf, outer.value) + [n]];
      }
      nested := nested + [outer.Some?];
      NestedMore(items, n, before, nestedOf);
    }
  }

  /** The path of the outer type, when the dump has it. */
  method OuterOf(entries: seq<Entry>, n: nat, paths: set<string>, ghost items: seq<Item>)
    returns (outer: Option<string>)
    requires Outers(items, entries, paths) && n < |entries|
    ensures outer == items[n].outer
  {
    outer := ItemOf(entries[n], paths).outer;
  }

  lemma NestedMore(items: seq<Item>, n: nat, before: map<string, seq<nat>>, after: map<string, seq<nat>>)
    requires n < |items| && NestedTo(items, n, before)
    requires after == match items[n].outer
                      case None => before
                      case Some(p) => before[p := Of(before, p) + [n]]
    ensures NestedTo(items, n + 1, after)
  {
    forall p {:trigger Of(after, p)} ensures Of(after, p) == Inside(items, Some(p), n + 1) {
      assert Of(before, p) == Inside(items, Some(p), n);
    }
  }

  /** One type: an enum alone, anything else with what is nested in it. */
  method WriteType(items: seq<Item>, nestedOf: map<string, seq<nat>>, i: nat, ghost c: seq<nat>) returns (block: Block)
    requires NestedTo(items, |items|, nestedOf) && NoCircle(items) && Chain(items, c) && c[|c| - 1] == i < |items|
    ensures block.entry == i && Covers(items, Trails(block, c[..|c| - 1]), c)
    decreases |items| - |c|, 1
  {
    if items[i].isEnum {
      block := Block(i, []);
      EnumAlone(items, c);
      BlockTrails(i, [], c);
      return;
    }
    ChainBound(items, c);
    var inner := WriteMembers(items, nestedOf, i, c);
    block := Block(i, inner);
    SelfCovered(items, c, TrailsAll(inner, c));
    BlockTrails(i, inner, c);
  }

  lemma BlockTrails(i: nat, inner: seq<Block>, c: seq<nat>)
    requires c != [] && c[|c| - 1] == i
    ensures Trails(Block(i, inner), c[..|c| - 1]) == [c] + TrailsAll(inner, c)
  {
    assert c[..|c| - 1] + [i] == c;
  }

  lemma EnumAlone(items: seq<Item>, c: seq<nat>)
    requires Chain(items, c) && c[|c| - 1] < |items| && items[c[|c| - 1]].isEnum
    ensures Covers(items, [c] + [], c)
  {
    forall d ensures Chain(items, d) && c <= d ==> d == c {
      if Chain(items, d) && c < d {
        GoesOn(items, c, d);
      }
    }
    assert [c] + [] == [c];
  }

  lemma SelfCovered(items: seq<Item>, c: seq<nat>, inner: seq<seq<nat>>)
    requires Chain(items, c) && c[|c| - 1] < |items|
    requires CoversAll(items, inner, c, Inside(items, Some(items[c[|c| - 1]].path), |items|))
    ensures Covers(items, [c] + inner, c)
  {
    var tops := Inside(items, Some(items[c[|c| - 1]].path), |items|);
    forall d | Chain(items, d) && c < d ensures d[|c|] in tops {
      GoesOn(items, c, d);
    }
    CoversSelf(items, c, inner, tops);
  }

  /** The types nested in one, in the order of the dump. */
  method WriteMembers(items: seq<Item>, nestedOf: map<string, seq<nat>>, i: nat, ghost c: seq<nat>)
    returns (inner: seq<Block>)
    requires NestedTo(items, |items|, nestedOf) && NoCircle(items) && Chain(items, c) && c[|c| - 1] == i < |items|
    requires !items[i].isEnum && |c| <= |items|
    ensures CoversAll(items, TrailsAll(inner, c), c, Inside(items, Some(items[i].path), |items|))
    decreases |items| - |c|, 0
  {
    var children := Of(nestedOf, items[i].path);
    inner := [];
    for n := 0 to |children|
      invariant CoversAll(items, TrailsAll(inner, c), c, children[..n])
    {
      var t := children[n];
      ChildOn(items, c, t);
      var block := WriteType(items, nestedOf, t, c + [t]);
      assert (c + [t])[..|c|] == c;
      ChildCovered(items, c, children, n, inner, block);
      inner := inner + [block];
    }
    assert children[..|children|] == children;
  }

  /** One more of the types nested in one. */
  lemma ChildCovered(items: seq<Item>, c: seq<nat>, children: seq<nat>, n: nat, inner: seq<Block>, block: Block)
    requires n < |children| && Distinct(children) && CoversAll(items, TrailsAll(inner, c), c, children[..n])
    requires Covers(items, Trails(block, c), c + [children[n]])
    ensures CoversAll(items, TrailsAll(inner + [block], c), c, children[..n + 1])
  {
    assert children[..n + 1] == children[..n] + [children[n]];
    CoversMore(items, TrailsAll(inner, c), c, children[..n], Trails(block, c), children[n]);
    TrailsMore(inner, block, c);
  }

  /** The way goes on to what is inside, and is short enough for that. */
  lemma ChildOn(items: seq<Item>, c: seq<nat>, t: nat)
    requires NoCircle(items) && Chain(items, c) && c[|c| - 1] < |items| && !items[c[|c| - 1]].isEnum
    requires t in Inside(items, Some(items[c[|c| - 1]].path), |items|)
    ensures t < |items| && Chain(items, c + [t]) && |c| < |items|
  {
    ChainMore(items, c, t);
    ChainBound(items, c + [t]);
  }

  /** The files: every type that is nested in none, with what is nested in it. */
  method WriteAll(items: seq<Item>, nestedOf: map<string, seq<nat>>, nested: seq<bool>) returns (files: seq<Block>)
    requires NestedTo(items, |items|, nestedOf) && NoCircle(items) && |nested| == |items|
    requires forall i {:trigger nested[i]} :: 0 <= i < |nested| ==> nested[i] == items[i].outer.Some?
    ensures Distinct(TrailsAll(files, [])) && forall c :: c in TrailsAll(files, []) <==> Chain(items, c)
  {
    files := [];
    for n := 0 to |items|
      invariant CoversAll(items, TrailsAll(files, []), [], Inside(items, None, n))
    {
      if nested[n] {
        continue;
      }
      var block := WriteFile(items, nestedOf, n);
      CoversMore(items, TrailsAll(files, []), [], Inside(items, None, n), Trails(block, []), n);
      TrailsMore(files, block, []);
      files := files + [block];
    }
    AllThrough(items, TrailsAll(files, []));
  }

  /** The type of one file. */
  method WriteFile(items: seq<Item>, nestedOf: map<string, seq<nat>>, n: nat) returns (block: Block)
    requires NestedTo(items, |items|, nestedOf) && NoCircle(items) && n < |items| && items[n].outer.None?
    ensures Covers(items, Trails(block, []), [] + [n])
  {
    block := WriteType(items, nestedOf, n, [n]);
    assert [n][..0] == [] && [] + [n] == [n];
  }

  /** Every way inwards begins with an entry that is nested in none. */
  lemma AllThrough(items: seq<Item>, trails: seq<seq<nat>>)
    requires CoversAll(items, trails, [], Inside(items, None, |items|))
    ensures forall c :: c in trails <==> Chain(items, c)
  {
    forall c ensures Chain(items, c) ==> Through([], Inside(items, None, |items|), c) {
    }
  }

  /**
   * The whole tree, for any dump in which no way inwards comes back: along every way inwards from a type
   * that is nested in none, the last type is printed inside the others, exactly once; and nothing else is.
   */
  method EmitCSharp(entries: seq<Entry>) returns (files: seq<Block>)
    requires NoCircle(Items(entries))
    ensures IsTree(Items(entries), files)
  {
    var nestedOf, nested := FindNesting(entries);
    files := WriteAll(Items(entries), nestedOf, nested);
  }

  // ---------------------------------------------------------------- when printing ends

  /** Whatever grows from each type to those in it grows along every way inwards. */
  lemma {:induction false} Inwards(items: seq<Item>, length: nat -> nat, c: seq<nat>, j: nat, k: nat)
    requires forall a, b {:trigger Link(items, a, b)} :: Link(items, a, b) ==> length(a) < length(b)
    requires Chain(items, c) && j < k < |c|
    ensures length(c[j]) < length(c[k])
    decreases k
  {
    assert Link(items, c[k - 1], c[k]);
    if j < k - 1 {
      Inwards(items, length, c, j, k - 1);
    }
  }

  lemma LinkIsLonger(entries: seq<Entry>, a: nat, b: nat)
    requires Link(Items(entries), a, b) && WellPlaced(entries[b])
    ensures Length(entries[a]) < Length(entries[b])
  {
    OuterIsShorter(entries[b]);
  }

  function LengthAt(entries: seq<Entry>, i: nat): nat { if i < |entries| then Length(entries[i]) else 0 }

  /** Well-placed entries nest without a circle, whatever paths repeat: going inwards the names get longer. */
  lemma PlacedEnds(entries: seq<Entry>)
    requires forall e :: e in entries ==> WellPlaced(e)
    ensures NoCircle(Items(entries))
  {
    var items, length := Items(entries), (i: nat) => LengthAt(entries, i);
    forall a, b {:trigger Link(items, a, b)} | Link(items, a, b) ensures length(a) < length(b) {
      LinkIsLonger(entries, a, b);
    }
    NoneTwice(items, length);
  }

  lemma NoneTwice(items: seq<Item>, length: nat -> nat)
    requires forall a, b {:trigger Link(items, a, b)} :: Link(items, a, b) ==> length(a) < length(b)
    ensures NoCircle(items)
  {
    forall c: seq<nat> | Chain(items, c) ensures Distinct(c) {
      forall i, j | 0 <= i < j < |c| ensures c[i] != c[j] {
        Inwards(items, length, c, i, j);
      }
    }
  }

  /** The part of a way from behind i up to j, taken so many times more. */
  function Round(c: seq<nat>, i: nat, j: nat, n: nat): (d: seq<nat>)
    requires i < j < |c|
    ensures |d| == j + 1 + n * (j - i) && d[|d| - 1] == c[j]
  {
    if n == 0 then c[..j + 1] else
    var d := Round(c, i, j, n - 1) + c[i + 1..j + 1];
    assert n * (j - i) == (n - 1) * (j - i) + (j - i);
    d
  }

  lemma ChainConcat(items: seq<Item>, c: seq<nat>, i: nat, j: nat, d: seq<nat>)
    requires Chain(items, c) && Chain(items, d) && i < j < |c| && d[|d| - 1] == c[i]
    ensures Chain(items, d + c[i + 1..j + 1])
  {
    var whole := d + c[i + 1..j + 1];
    forall k {:trigger whole[k]} | 0 < k < |whole| ensures Link(items, whole[k - 1], whole[k]) {
      JoinedAt(c, i, j, d, k);
      if k < |d| {
        ChainLink(items, d, k);
      } else {
        ChainLink(items, c, i + 1 + (k - |d|));
      }
    }
  }

  lemma ChainLink(items: seq<Item>, c: seq<nat>, k: nat)
    requires Chain(items, c) && 0 < k < |c|
    ensures Link(items, c[k - 1], c[k])
  {
  }

  lemma JoinedAt(c: seq<nat>, i: nat, j: nat, d: seq<nat>, k: nat)
    requires i < j < |c| && d != [] && d[|d| - 1] == c[i] && 0 < k < |d| + (j - i)
    ensures var whole, m := d + c[i + 1..j + 1], i + 1 + (k - |d|);
            if k < |d| then whole[k] == d[k] && whole[k - 1] == d[k - 1]
            else whole[k] == c[m] && whole[k - 1] == c[m - 1]
  {
  }

  lemma {:induction false} RoundIsChain(items: seq<Item>, c: seq<nat>, i: nat, j: nat, n: nat)
    requires Chain(items, c) && i < j < |c| && c[i] == c[j]
    ensures Chain(items, Round(c, i, j, n))
  {
    if n == 0 {
      var d := c[..j + 1];
      forall k {:trigger d[k]} | 0 < k < |d| ensures Link(items, d[k - 1], d[k]) {
        assert d[k] == c[k] && d[k - 1] == c[k - 1];
      }
    } else {
      RoundIsChain(items, c, i, j, n - 1);
      ChainConcat(items, c, i, j, Round(c, i, j, n - 1));
    }
  }

  /** With a circle there are ways inwards longer than any length: printing them has no end. */
  lemma CircleNeverEnds(items: seq<Item>, n: nat)
    requires !NoCircle(items)
    ensures exists d: seq<nat> :: Chain(items, d) && |d| > n
  {
    var c: seq<nat> :| Chain(items, c) && !Distinct(c);
    var i: nat, j: nat :| i < j < |c| && c[i] == c[j];
    RoundIsChain(items, c, i, j, n);
    RoundIsLong(c, i, j, n);
  }

  lemma RoundIsLong(c: seq<nat>, i: nat, j: nat, n: nat)
    requires i < j < |c|
    ensures |Round(c, i, j, n)| > n
  {
    Longer(n, j - i);
  }

  lemma Longer(n: nat, step: nat)
    requires step > 0
    ensures n * step >= n
  {
  }

  // ---------------------------------------------------------------- what is printed, and how often

  /** The tree is the one of the entries. */
  ghost predicate IsTree(items: seq<Item>, files: seq<Block>) {
    Distinct(TrailsAll(files, [])) && forall c :: c in TrailsAll(files, []) <==> Chain(items, c)
  }

  /** An entry is printed if and only if a way inwards ends in it. */
  lemma PrintedIff(items: seq<Item>, files: seq<Block>, j: nat)
    requires IsTree(items, files)
    ensures j in PrintedAll(files) <==> exists c :: Chain(items, c) && c[|c| - 1] == j
  {
    var printed, trails := PrintedAll(files), TrailsAll(files, []);
    PrintedAllEnds(files, []);
    if j in printed {
      var k :| 0 <= k < |printed| && printed[k] == j;
      assert trails[k] in trails && trails[k][|trails[k]| - 1] == j;
    }
    if c :| Chain(items, c) && c[|c| - 1] == j {
      assert c in trails;
      var k :| 0 <= k < |trails| && trails[k] == c;
      assert printed[k] == j;
    }
  }

  /** At most one type of each path holds others. */
  ghost predicate OnePath(items: seq<Item>) {
    forall a, b :: 0 <= a < b < |items| && !items[a].isEnum && !items[b].isEnum ==> items[a].path != items[b].path
  }

  /** Then there is at most one way to an entry. */
  lemma {:induction false} OneWay(items: seq<Item>, c: seq<nat>, d: seq<nat>)
    requires OnePath(items) && Chain(items, c) && Chain(items, d) && c[|c| - 1] == d[|d| - 1]
    ensures c == d
    decreases |c|
  {
    LastOuter(items, c);
    LastOuter(items, d);
    if |c| > 1 {
      ChainLink(items, c, |c| - 1);
      ChainLink(items, d, |d| - 1);
      SameOuter(items, c[|c| - 2], d[|d| - 2], c[|c| - 1]);
      Front(items, c);
      Front(items, d);
      OneWay(items, c[..|c| - 1], d[..|d| - 1]);
      SameWhole(c, d);
    } else {
      SameWhole(c, d);
    }
  }

  lemma SameOuter(items: seq<Item>, a: nat, b: nat, j: nat)
    requires OnePath(items) && Link(items, a, j) && Link(items, b, j)
    ensures a == b
  {
  }

  lemma SameWhole(c: seq<nat>, d: seq<nat>)
    requires c != [] && d != [] && c[..|c| - 1] == d[..|d| - 1] && c[|c| - 1] == d[|d| - 1]
    ensures c == d
  {
    assert c == c[..|c| - 1] + [c[|c| - 1]] && d == d[..|d| - 1] + [d[|d| - 1]];
  }

  /** A way is longer than one entry exactly when its last one is nested. */
  lemma LastOuter(items: seq<Item>, c: seq<nat>)
    requires Chain(items, c)
    ensures c[|c| - 1] < |items| && (|c| > 1 <==> items[c[|c| - 1]].outer.Some?)
  {
    if |c| > 1 {
      ChainLink(items, c, |c| - 1);
    }
  }

  lemma Front(items: seq<Item>, c: seq<nat>)
    requires Chain(items, c) && |c| > 1
    ensures var d := c[..|c| - 1]; Chain(items, d) && d[|d| - 1] == c[|c| - 2]
  {
    var d := c[..|c| - 1];
    forall k {:trigger d[k]} | 0 < k < |d| ensures Link(items, d[k - 1], d[k]) {
      assert d[k] == c[k] && d[k - 1] == c[k - 1];
    }
  }

  /** So nothing is printed twice. */
  lemma PrintedOnce(items: seq<Item>, files: seq<Block>)
    requires IsTree(items, files) && OnePath(items)
    ensures Distinct(PrintedAll(files))
  {
    var printed, trails := PrintedAll(files), TrailsAll(files, []);
    PrintedAllEnds(files, []);
    forall i, j | 0 <= i < j < |printed| ensures printed[i] != printed[j] {
      assert trails[i] in trails && trails[j] in trails;
      if printed[i] == printed[j] {
        OneWay(items, trails[i], trails[j]);
      }
    }
  }

  /** An entry that is nested is nested in a type, not in an enum alone. */
  ghost predicate Housed(items: seq<Item>, j: nat)
    requires j < |items|
  {
    items[j].outer.Some? ==> exists i: nat :: Link(items, i, j)
  }

  ghost predicate AllPrinted(items: seq<Item>, files: seq<Block>) {
    forall j: nat :: j < |items| ==> j in PrintedAll(files)
  }

  /** When every entry is housed, a way leads to each well-placed one. */
  lemma {:induction false} WayTo(entries: seq<Entry>, j: nat) returns (c: seq<nat>)
    requires (forall e :: e in entries ==> WellPlaced(e)) && j < |entries|
    requires forall i: nat :: i < |entries| ==> Housed(Items(entries), i)
    ensures Chain(Items(entries), c) && c[|c| - 1] == j
    decreases Length(entries[j])
  {
    var items := Items(entries);
    if items[j].outer.None? {
      c := [j];
    } else {
      assert Housed(items, j);
      var i: nat :| Link(items, i, j);
      LinkIsLonger(entries, i, j);
      c := WayTo(entries, i);
      ChainMore(items, c, j);
      c := c + [j];
    }
  }

  /** Of well-placed entries all are printed if and only if none is nested in enums alone. */
  lemma AllPrintedIffHoused(entries: seq<Entry>, files: seq<Block>)
    requires (forall e :: e in entries ==> WellPlaced(e)) && IsTree(Items(entries), files)
    ensures AllPrinted(Items(entries), files) <==> forall j: nat :: j < |entries| ==> Housed(Items(entries), j)
  {
    var items := Items(entries);
    if AllPrinted(items, files) {
      forall j: nat | j < |entries| ensures Housed(items, j) {
        PrintedIff(items, files, j);
        var c :| Chain(items, c) && c[|c| - 1] == j;
        if |c| > 1 {
          assert Link(items, c[|c| - 2], c[|c| - 1]);
        }
      }
    }
    if forall j: nat :: j < |entries| ==> Housed(items, j) {
      forall j: nat | j < |items| ensures j in PrintedAll(files) {
        var c := WayTo(entries, j);
        PrintedIff(items, files, j);
      }
    }
  }

  // ---------------------------------------------------------------- a dump whose printing has no end

  predicate Letter(c: char) { 'A' <= c <= 'Z' }

  /** A path of two letters, in a namespace of one. */
  function Short(a: char, b: char, n: char): Entry { Entry([a, '.', b], [n], "", false) }

  lemma ShortParts(a: char, b: char)
    requires Letter(a) && Letter(b)
    ensures LastComma([a, '.', b]).None? && SplitFrom([a, '.', b], 0, "") == [[a], [b]]
            && SplitFrom([b], 0, "") == [[b]]
  {
    var text := [a, '.', b];
    assert text[1..] == ['.', b] && text[1..][1..] == [b] && [b][1..] == "";
    assert "" + [a] == [a] && "" + [b] == [b];
    assert SplitFrom(text[1..][1..], 0, "") == [[b]];
    assert SplitFrom(text[1..], 0, [a]) == [[a]] + [[b]];
    assert text[1..] == ['.', b] && text[..2] == [a, '.'] && text[..2][..1] == [a];
  }

  /** In a namespace other than its first part the outer type is that part, in the namespace. */
  lemma ShortOuter(a: char, b: char, n: char)
    requires Letter(a) && Letter(b) && Letter(n)
    ensures OuterPath(Short(a, b, n)) == if n == a then None else Some([n, '.', a])
  {
    var e := Short(a, b, n);
    ShortParts(a, b);
    assert NamePart(e.path) == e.path && Assembly(e) == "";
    if n == a {
      assert e.path[..1] == [a] && e.path[2..] == [b];
      assert LocalName(e) == [b];
    } else {
      assert e.path[..1] == [a];
      assert LocalName(e) == e.path && [[a], [b]][..1] == [[a]] && Dotted([[a]]) == [a];
      assert [n] + "." + [a] == [n, '.', a];
    }
  }

  /** The same path once as it should be, once in a namespace that does not begin it, and one more type. */
  function Endless(): seq<Entry> { [Short('A', 'B', 'A'), Short('A', 'B', 'B'), Short('B', 'A', 'A')] }

  lemma EndlessItems(items: seq<Item>, x: Entry, y: Entry, z: Entry, paths: set<string>)
    requires x == Short('A', 'B', 'A') && y == Short('A', 'B', 'B') && z == Short('B', 'A', 'A')
    requires "A.B" in paths && "B.A" in paths
    requires items == [ItemOf(x, paths), ItemOf(y, paths), ItemOf(z, paths)]
    ensures items == [Item(false, "A.B", None), Item(false, "A.B", Some("B.A")), Item(false, "B.A", Some("A.B"))]
  {
    ShortItem('A', 'B', 'A', paths);
    ShortItem('A', 'B', 'B', paths);
    ShortItem('B', 'A', 'A', paths);
  }

  lemma ThreeItems(x: Entry, y: Entry, z: Entry)
    ensures var paths := Paths([x, y, z]);
            && y.path in paths && z.path in paths
            && Items([x, y, z]) == [ItemOf(x, paths), ItemOf(y, paths), ItemOf(z, paths)]
  {
    assert y in [x, y, z] && z in [x, y, z];
  }

  lemma ShortItem(a: char, b: char, n: char, paths: set<string>)
    requires Letter(a) && Letter(b) && Letter(n) && [n, '.', a] in paths + {[a, '.', a]}
    ensures ItemOf(Short(a, b, n), paths) == Item(false, [a, '.', b], if n == a then None else Some([n, '.', a]))
  {
    ShortOuter(a, b, n);
  }

  lemma RoundAndRound(items: seq<Item>)
    requires items == [Item(false, "A.B", None), Item(false, "A.B", Some("B.A")), Item(false, "B.A", Some("A.B"))]
    ensures !NoCircle(items)
  {
    var c: seq<nat> := [0, 2, 1, 2];
    assert Link(items, c[0], c[1]) && Link(items, c[1], c[2]) && Link(items, c[2], c[3]);
    assert Chain(items, c) && c[1] == c[3];
  }

  /** The source prints these three for ever: the first holds the third, that the second, and that the third again. */
  lemma EndlessNesting()
    ensures !NoCircle(Items(Endless()))
  {
    var x, y, z := Short('A', 'B', 'A'), Short('A', 'B', 'B'), Short('B', 'A', 'A');
    ThreeItems(x, y, z);
    EndlessItems(Items([x, y, z]), x, y, z, Paths([x, y, z]));
    RoundAndRound(Items(Endless()));
  }
}
