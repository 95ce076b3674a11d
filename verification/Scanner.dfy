/**
 * The scanner's calls: all hits up to a cap, the first one, and the only one. What they answer is said in
 * terms of the places the scan looks at and the pattern's hits there.
 */
module Scanner {
  import opened Common
  import opened ByteMap
  import opened MemorySource
  import opened Pattern
  import opened PatternScanner
  import opened PatternScans
  import opened PatternHoles

  // ---------------------------------------------------------------- what there is to find

  /** The pattern hits at a place of the range that the scan looks at. */
  ghost predicate HitIn(view: View, p: Pattern, range: Range, a: nat)
    requires Valid(p)
  {
    Hit(view, p, a) && Reached(view, |p.bytes|, range, 0, a)
  }

  /** s holds the hits of the range, in ascending order, each once. */
  ghost predicate Lists(view: View, p: Pattern, range: Range, s: seq<nat>)
    requires Valid(p)
  {
    Ascending(s) && forall a: nat {:trigger HitIn(view, p, range, a)} :: a in s <==> HitIn(view, p, range, a)
  }

  /** `all` holds the hits of one range after the other. */
  ghost predicate Gathers(view: View, p: Pattern, ranges: seq<Range>, all: seq<nat>)
    requires Valid(p)
    decreases |ranges|, 1
  {
    if ranges == [] then all == [] else exists n: nat :: GathersFrom(view, p, ranges, all, n)
  }

  /** The first n of them are those of the first range. */
  ghost predicate GathersFrom(view: View, p: Pattern, ranges: seq<Range>, all: seq<nat>, n: nat)
    requires Valid(p) && ranges != []
    decreases |ranges|, 0
  {
    n <= |all| && Lists(view, p, ranges[0], all[..n]) && Gathers(view, p, ranges[1..], all[n..])
  }

  /** The first cap of them, or all there are when there are no more, or no cap. */
  ghost predicate FirstOf(hits: seq<nat>, all: seq<nat>, cap: nat) {
    if cap == 0 then hits == all else hits <= all && |hits| == Min(cap, |all|)
  }

  /** The answer of a scan. */
  ghost predicate Answers(view: View, p: Pattern, ranges: seq<Range>, cap: nat, hits: seq<nat>)
    requires Valid(p)
  {
    exists all :: Gathers(view, p, ranges, all) && FirstOf(hits, all, cap)
  }

  /** What the chunks of one range bring in is what there is to find in it. */
  lemma RangeLists(view: View, p: Pattern, range: Range)
    requires Valid(p)
    ensures Lists(view, p, range, RangeHits(view, HitAt(view, p), |p.bytes|, range, 0))
  {
    var hit, n := HitAt(view, p), |p.bytes|;
    ReportsAscend(view, hit, n, range);
    forall a: nat {:trigger HitIn(view, p, range, a)}
      ensures a in RangeHits(view, hit, n, range, 0) <==> HitIn(view, p, range, a)
    {
      ReportedIff(view, hit, n, range, a);
    }
  }

  lemma {:induction false} AllGathers(view: View, p: Pattern, ranges: seq<Range>)
    requires Valid(p)
    ensures Gathers(view, p, ranges, AllHits(view, HitAt(view, p), |p.bytes|, ranges))
  {
    if ranges != [] {
      var first := RangeHits(view, HitAt(view, p), |p.bytes|, ranges[0], 0);
      var rest := AllHits(view, HitAt(view, p), |p.bytes|, ranges[1..]);
      RangeLists(view, p, ranges[0]);
      AllGathers(view, p, ranges[1..]);
      assert (first + rest)[..|first|] == first && (first + rest)[|first|..] == rest;
      assert GathersFrom(view, p, ranges, first + rest, |first|);
    }
  }

  // ---------------------------------------------------------------- what that means

  /** The hits of one range and of the others. */
  lemma GathersParts(view: View, p: Pattern, ranges: seq<Range>, all: seq<nat>)
    returns (first: seq<nat>, rest: seq<nat>)
    requires Valid(p) && Gathers(view, p, ranges, all) && ranges != []
    ensures all == first + rest && Lists(view, p, ranges[0], first) && Gathers(view, p, ranges[1..], rest)
  {
    var n: nat :| GathersFrom(view, p, ranges, all, n);
    first, rest := all[..n], all[n..];
  }

  /** An address is among them if and only if it is a hit of some range. */
  lemma {:induction false} GathersIff(view: View, p: Pattern, ranges: seq<Range>, all: seq<nat>, a: nat)
    requires Valid(p) && Gathers(view, p, ranges, all)
    ensures a in all <==> exists k :: 0 <= k < |ranges| && HitIn(view, p, ranges[k], a)
  {
    if ranges != [] {
      var first, rest := GathersParts(view, p, ranges, all);
      GathersIff(view, p, ranges[1..], rest, a);
      assert a in first <==> HitIn(view, p, ranges[0], a);
      if k :| 0 <= k < |ranges| && HitIn(view, p, ranges[k], a) {
        assert k > 0 ==> ranges[1..][k - 1] == ranges[k];
      }
    }
  }

  /** In a readable range the places looked at are all those where the pattern fits. */
  lemma ReadableReached(view: View, n: nat, range: Range, a: nat)
    requires n > 0 && Readable(view, range)
    ensures Reached(view, n, range, 0, a) <==> range.base <= a && a + n <= range.base + range.size
  {
    if range.size > 0 {
      HoleIs(view, range, 0, range.size, Hole(view, range, 0));
    }
  }

  /** The address is the first hit of the first range that has one. */
  ghost predicate First(view: View, p: Pattern, ranges: seq<Range>, a: nat)
    requires Valid(p)
  {
    exists k :: 0 <= k < |ranges| && FirstIn(view, p, ranges, k, a)
  }

  ghost predicate FirstIn(view: View, p: Pattern, ranges: seq<Range>, k: nat, a: nat)
    requires Valid(p) && k < |ranges|
  {
    && HitIn(view, p, ranges[k], a) && (forall b: nat :: b < a ==> !HitIn(view, p, ranges[k], b))
    && (forall j, b: nat :: 0 <= j < k ==> !HitIn(view, p, ranges[j], b))
  }

  lemma FirstOnce(view: View, p: Pattern, ranges: seq<Range>, a: nat, b: nat)
    requires Valid(p) && First(view, p, ranges, a) && First(view, p, ranges, b)
    ensures a == b
  {
    var j :| 0 <= j < |ranges| && FirstIn(view, p, ranges, j, a);
    var k :| 0 <= k < |ranges| && FirstIn(view, p, ranges, k, b);
    assert j == k;
  }

  lemma {:induction false} GathersFirst(view: View, p: Pattern, ranges: seq<Range>, all: seq<nat>)
    requires Valid(p) && Gathers(view, p, ranges, all) && all != []
    ensures First(view, p, ranges, all[0])
  {
    var first, rest := GathersParts(view, p, ranges, all);
    if first != [] {
      assert all[0] == first[0] && first[0] in first;
      forall b: nat | b < all[0] ensures !HitIn(view, p, ranges[0], b) {
        assert b !in first;
      }
      assert FirstIn(view, p, ranges, 0, all[0]);
    } else {
      GathersFirst(view, p, ranges[1..], rest);
      var k :| 0 <= k < |ranges[1..]| && FirstIn(view, p, ranges[1..], k, all[0]);
      FirstLater(view, p, ranges, k, all[0]);
    }
  }

  lemma FirstLater(view: View, p: Pattern, ranges: seq<Range>, k: nat, a: nat)
    requires Valid(p) && ranges != [] && Lists(view, p, ranges[0], [])
    requires k < |ranges[1..]| && FirstIn(view, p, ranges[1..], k, a)
    ensures FirstIn(view, p, ranges, k + 1, a)
  {
    forall j, b: nat | 0 <= j < k + 1 ensures !HitIn(view, p, ranges[j], b) {
      if j > 0 {
        assert !HitIn(view, p, ranges[1..][j - 1], b);
      }
    }
  }

  /** The address is the only hit, and of one range only. */
  ghost predicate Only(view: View, p: Pattern, ranges: seq<Range>, a: nat)
    requires Valid(p)
  {
    exists k :: 0 <= k < |ranges| && OnlyIn(view, p, ranges, k, a)
  }

  ghost predicate OnlyIn(view: View, p: Pattern, ranges: seq<Range>, k: nat, a: nat)
    requires Valid(p) && k < |ranges|
  {
    HitIn(view, p, ranges[k], a)
    && forall j, b: nat :: 0 <= j < |ranges| && HitIn(view, p, ranges[j], b) ==> j == k && b == a
  }

  lemma {:induction false} OnlyIff(view: View, p: Pattern, ranges: seq<Range>, all: seq<nat>, a: nat)
    requires Valid(p) && Gathers(view, p, ranges, all)
    ensures all == [a] <==> Only(view, p, ranges, a)
  {
    if ranges != [] {
      var first, rest := GathersParts(view, p, ranges, all);
      OnlyIff(view, p, ranges[1..], rest, a);
      if first == [] {
        NoneInFirst(view, p, ranges, a);
      } else if rest == [] {
        OnlyInFirst(view, p, ranges, first, a);
      } else {
        TwoHits(view, p, ranges, first, rest, a);
      }
    }
  }

  lemma NoneInFirst(view: View, p: Pattern, ranges: seq<Range>, a: nat)
    requires Valid(p) && ranges != [] && Lists(view, p, ranges[0], [])
    ensures Only(view, p, ranges, a) <==> Only(view, p, ranges[1..], a)
  {
    if k :| 0 <= k < |ranges| && OnlyIn(view, p, ranges, k, a) {
      assert OnlyIn(view, p, ranges[1..], k - 1, a);
    }
    if k :| 0 <= k < |ranges[1..]| && OnlyIn(view, p, ranges[1..], k, a) {
      forall j, b: nat | 0 <= j < |ranges| && HitIn(view, p, ranges[j], b) ensures j == k + 1 && b == a {
        assert HitIn(view, p, ranges[1..][j - 1], b);
      }
      assert OnlyIn(view, p, ranges, k + 1, a);
    }
  }

  lemma OnlyInFirst(view: View, p: Pattern, ranges: seq<Range>, first: seq<nat>, a: nat)
    requires Valid(p) && ranges != [] && Lists(view, p, ranges[0], first) && first != []
    requires Gathers(view, p, ranges[1..], [])
    ensures first == [a] <==> Only(view, p, ranges, a)
  {
    assert first[0] in first && HitIn(view, p, ranges[0], first[0]);
    if first == [a] {
      forall j, b: nat | 0 < j < |ranges| ensures !HitIn(view, p, ranges[j], b) {
        GathersIff(view, p, ranges[1..], [], b);
        assert ranges[1..][j - 1] == ranges[j];
      }
      assert OnlyIn(view, p, ranges, 0, a);
    }
    if k :| 0 <= k < |ranges| && OnlyIn(view, p, ranges, k, a) {
      assert first[0] == a;
      forall b | b in first ensures b == a {
        assert HitIn(view, p, ranges[0], b);
      }
      OnlyOne(first, a);
    }
  }

  lemma TwoHits(view: View, p: Pattern, ranges: seq<Range>, first: seq<nat>, rest: seq<nat>, a: nat)
    requires Valid(p) && ranges != [] && Lists(view, p, ranges[0], first) && first != []
    requires Gathers(view, p, ranges[1..], rest) && rest != []
    ensures !Only(view, p, ranges, a)
  {
    assert first[0] in first && HitIn(view, p, ranges[0], first[0]);
    assert rest[0] in rest;
    GathersIff(view, p, ranges[1..], rest, rest[0]);
    var k :| 0 <= k < |ranges[1..]| && HitIn(view, p, ranges[1..][k], rest[0]);
    assert HitIn(view, p, ranges[k + 1], rest[0]);
  }

  // ---------------------------------------------------------------- the calls

  /** PatternScanner::Scan over the ranges to search. */
  method Scan(mem: Provider, p: Pattern, ranges: seq<Range>, cap: nat) returns (hits: seq<nat>)
    requires Valid(p)
    ensures Answers(MemView(mem.mem), p, ranges, cap, hits)
  {
    ghost var view := MemView(mem.mem);
    ghost var hit, n := HitAt(view, p), |p.bytes|;
    ghost var total := AllHits(view, hit, n, ranges);
    AllGathers(view, p, ranges);
    var buffer := new byte[CHUNK + (|p.bytes| - 1)];
    hits := [];
    assert hits + total == total;
    for k := 0 to |ranges|
      invariant cap == 0 || |hits| < cap
      invariant total == hits + AllHits(view, hit, n, ranges[k..])
    {
      assert ranges[k..][1..] == ranges[k + 1..];
      ghost var after := (o: nat) => RangeHits(view, hit, n, ranges[k], o);
      ghost var was, later := hits, AllHits(view, hit, n, ranges[k + 1..]);
      var full;
      hits, full := ScanRange(hit, view, after, mem, p, ranges[k], buffer, cap, hits);
      CollectedMore(was, hits, full, cap, after(0), later, total);
      if full {
        assert FirstOf(hits, total, cap);
        return;
      }
    }
    assert FirstOf(hits, total, cap);
  }

  /** With no cap an address is reported if and only if some range has it as a hit. */
  lemma UncappedIff(view: View, p: Pattern, ranges: seq<Range>, hits: seq<nat>, a: nat)
    requires Valid(p) && Answers(view, p, ranges, 0, hits)
    ensures a in hits <==> exists k :: 0 <= k < |ranges| && HitIn(view, p, ranges[k], a)
  {
    var all :| Gathers(view, p, ranges, all) && FirstOf(hits, all, 0);
    GathersIff(view, p, ranges, all, a);
  }

  /** On readable ranges that is every place where the pattern fits and hits. */
  lemma UncappedReadable(view: View, p: Pattern, ranges: seq<Range>, hits: seq<nat>, a: nat)
    requires Valid(p) && Answers(view, p, ranges, 0, hits)
    requires forall r :: r in ranges ==> Readable(view, r)
    ensures a in hits <==>
            exists r :: r in ranges && Hit(view, p, a) && r.base <= a && a + |p.bytes| <= r.base + r.size
  {
    UncappedIff(view, p, ranges, hits, a);
    forall k | 0 <= k < |ranges|
      ensures HitIn(view, p, ranges[k], a) <==>
              Hit(view, p, a) && ranges[k].base <= a && a + |p.bytes| <= ranges[k].base + ranges[k].size
    {
      ReadableReached(view, |p.bytes|, ranges[k], a);
    }
  }

  /** With a cap the answer is the beginning of the uncapped one: as much of it as the cap allows. */
  lemma CappedIsPrefix(view: View, p: Pattern, ranges: seq<Range>, cap: nat, hits: seq<nat>, uncapped: seq<nat>)
    requires Valid(p) && cap > 0
    requires Answers(view, p, ranges, cap, hits) && Answers(view, p, ranges, 0, uncapped)
    ensures hits <= uncapped && |hits| == Min(cap, |uncapped|)
  {
    var all :| Gathers(view, p, ranges, all) && FirstOf(hits, all, cap);
    var every :| Gathers(view, p, ranges, every) && FirstOf(uncapped, every, 0);
    GathersOnce(view, p, ranges, all, every);
  }

  /** There is one list of what there is to find. */
  lemma {:induction false} GathersOnce(view: View, p: Pattern, ranges: seq<Range>, all: seq<nat>, every: seq<nat>)
    requires Valid(p) && Gathers(view, p, ranges, all) && Gathers(view, p, ranges, every)
    ensures all == every
  {
    if ranges != [] {
      var first, rest := GathersParts(view, p, ranges, all);
      var first', rest' := GathersParts(view, p, ranges, every);
      forall a ensures a in first <==> a in first' {
        assert a in first <==> a >= 0 && HitIn(view, p, ranges[0], a);
      }
      SameAscending(first, first');
      GathersOnce(view, p, ranges[1..], rest, rest');
    }
  }

  /** The first hit of the first range that has one. */
  method ScanFirst(mem: Provider, p: Pattern, ranges: seq<Range>) returns (r: Option<nat>)
    requires Valid(p)
    ensures r.Some? ==> First(MemView(mem.mem), p, ranges, r.value)
    ensures r.None? ==> forall k, a: nat :: 0 <= k < |ranges| ==> !HitIn(MemView(mem.mem), p, ranges[k], a)
  {
    ghost var view := MemView(mem.mem);
    var hits := Scan(mem, p, ranges, 1);
    ghost var all :| Gathers(view, p, ranges, all) && FirstOf(hits, all, 1);
    if hits == [] {
      forall k, a: nat | 0 <= k < |ranges| ensures !HitIn(view, p, ranges[k], a) {
        GathersIff(view, p, ranges, all, a);
      }
      return None;
    }
    GathersFirst(view, p, ranges, all);
    return Some(hits[0]);
  }

  /** A signature counts only when it is unambiguous: the answer is the only hit there is, if there is only one. */
  method ScanUnique(mem: Provider, p: Pattern, ranges: seq<Range>) returns (r: Option<nat>)
    requires Valid(p)
    ensures forall a: nat :: r == Some(a) <==> Only(MemView(mem.mem), p, ranges, a)
  {
    ghost var view := MemView(mem.mem);
    var hits := Scan(mem, p, ranges, 2);
    ghost var all :| Gathers(view, p, ranges, all) && FirstOf(hits, all, 2);
    forall a: nat ensures (|hits| == 1 && hits[0] == a) <==> Only(view, p, ranges, a) {
      OnlyIff(view, p, ranges, all, a);
    }
    return if |hits| == 1 then Some(hits[0]) else None;
  }

  /** In one readable range ScanUnique's answer is the only place where the pattern matches. */
  lemma UniqueMeansOnly(view: View, p: Pattern, range: Range, a: nat)
    requires Valid(p) && Readable(view, range)
    ensures Only(view, p, [range], a) <==>
            (range.base <= a < FitEnd(|p.bytes|, range) && Hit(view, p, a) &&
             forall b: nat :: range.base <= b < FitEnd(|p.bytes|, range) && Hit(view, p, b) ==> b == a)
  {
    forall b: nat
      ensures HitIn(view, p, range, b) <==> range.base <= b < FitEnd(|p.bytes|, range) && Hit(view, p, b)
    {
      ReadableReached(view, |p.bytes|, range, b);
    }
    assert [range][0] == range;
    if Only(view, p, [range], a) {
      assert OnlyIn(view, p, [range], 0, a);
    }
    if HitIn(view, p, range, a) && forall b: nat :: HitIn(view, p, range, b) ==> b == a {
      assert OnlyIn(view, p, [range], 0, a);
    }
  }
}
