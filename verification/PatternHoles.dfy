/** What the holes of a range cost a scan: exactly which hits are reported, and when all of them are. */
module PatternHoles {
  import opened Common
  import opened ByteMap
  import opened MemorySource
  import opened Pattern
  import opened PatternScanner
  import opened PatternScans

  // ---------------------------------------------------------------- what is looked at

  /**
   * The scan looks at the place: it lies, with room for the pattern, in the readable run from the
   * offset on; or the hole behind that run does not end the scan, and it is looked at from a whole
   * chunk behind the hole on.
   */
  ghost predicate Reached(view: View, n: nat, range: Range, offset: nat, a: nat)
    requires n > 0
    decreases range.size - offset
  {
    offset < range.size &&
    var stop := Hole(view, range, offset);
    || (range.base + offset <= a && a + n <= range.base + stop)
    || (stop < range.size && !Ends(n, stop - offset) && Reached(view, n, range, stop + CHUNK, a))
  }

  /** The hits of a readable run are those at which the pattern fits in it. */
  lemma HitInRun(hit: nat -> bool, n: nat, range: Range, offset: nat, stop: nat, a: nat)
    requires n > 0 && offset <= stop
    ensures a in Hits(hit, range.base + offset, FitEnd(n, Range(range.base, stop)))
            <==> hit(a) && range.base + offset <= a && a + n <= range.base + stop
  {
    HitsExact(hit, range.base + offset, FitEnd(n, Range(range.base, stop)), a);
  }

  /** A range's reports are exactly the hits at the places looked at. */
  lemma {:induction false} ReportedFromIff(after: nat -> seq<nat>, view: View, hit: nat -> bool, n: nat, range: Range,
                                           offset: nat, a: nat)
    requires n > 0 && Gives(after, view, hit, n, range)
    ensures a in after(offset) <==> hit(a) && Reached(view, n, range, offset, a)
    decreases range.size - offset
  {
    if offset >= range.size {
      NothingAfter(after, view, hit, n, range, offset);
    } else {
      var stop := Hole(view, range, offset);
      var behind := Behind(after, n, range, offset, stop);
      RunHits(after, view, hit, n, range, offset, stop);
      HitInRun(hit, n, range, offset, stop, a);
      if stop < range.size && !Ends(n, stop - offset) {
        ReportedFromIff(after, view, hit, n, range, stop + CHUNK, a);
      }
      InEither(Hits(hit, range.base + offset, FitEnd(n, Range(range.base, stop))), behind, after(offset), a);
    }
  }

  lemma InEither(front: seq<nat>, behind: seq<nat>, all: seq<nat>, a: nat)
    requires all == front + behind
    ensures a in all <==> a in front || a in behind
  {
  }

  lemma ReportedIff(view: View, hit: nat -> bool, n: nat, range: Range, a: nat)
    requires n > 0
    ensures a in RangeHits(view, hit, n, range, 0) <==> hit(a) && Reached(view, n, range, 0, a)
  {
    ReportedFromIff(o => RangeHits(view, hit, n, range, o), view, hit, n, range, 0, a);
  }

  // ---------------------------------------------------------------- when nothing is missed

  /** The scan of the range finds what trying every offset finds. */
  ghost predicate Complete(view: View, hit: nat -> bool, n: nat, range: Range)
    requires n > 0
  {
    RangeHits(view, hit, n, range, 0) == Hits(hit, range.base, FitEnd(n, range))
  }

  lemma FirstIn(s: seq<nat>)
    requires s != []
    ensures exists a :: a in s
  {
    assert s[0] in s;
  }

  /** Ascending lists of the same addresses are the same. */
  lemma {:induction false} SameAscending(s: seq<nat>, t: seq<nat>)
    requires Ascending(s) && Ascending(t) && forall a :: a in s <==> a in t
    ensures s == t
    decreases |s|
  {
    if s == [] {
      if t != [] {
        FirstIn(t);
      }
    } else if t == [] {
      FirstIn(s);
    } else {
      var i, j := |s| - 1, |t| - 1;
      assert s[i] in t && t[j] in s;
      assert s[i] == t[j];
      forall a ensures a in s[..i] <==> a in t[..j] {
        assert a in s[..i] <==> a in s && a != s[i];
        assert a in t[..j] <==> a in t && a != t[j];
      }
      SameAscending(s[..i], t[..j]);
    }
  }

  /**
   * Whatever holes a range has, its scan misses nothing if and only if every hit of the range is at a place
   * looked at.
   */
  lemma CompleteIff(view: View, hit: nat -> bool, n: nat, range: Range)
    requires n > 0
    ensures Complete(view, hit, n, range) <==>
              forall a: nat :: range.base <= a < FitEnd(n, range) && hit(a) ==> Reached(view, n, range, 0, a)
  {
    var reported, all := RangeHits(view, hit, n, range, 0), Hits(hit, range.base, FitEnd(n, range));
    forall a: nat
      ensures a in reported <==> hit(a) && Reached(view, n, range, 0, a)
      ensures a in all <==> range.base <= a < FitEnd(n, range) && hit(a)
      ensures a in reported ==> a in all
    {
      ReportedIff(view, hit, n, range, a);
      HitsExact(hit, range.base, FitEnd(n, range), a);
      if a in reported {
        ReportedIsHit(view, hit, n, range, 0, a);
      }
    }
    if forall a: nat :: range.base <= a < FitEnd(n, range) && hit(a) ==> Reached(view, n, range, 0, a) {
      ReportsAscend(view, hit, n, range);
      HitsAscend(hit, range.base, FitEnd(n, range));
      SameAscending(reported, all);
    }
  }

  /** With a hole that ends the scan, nothing is missed if and only if the pattern hits nowhere behind the hole. */
  lemma CompleteWhenEnded(view: View, p: Pattern, range: Range, stop: nat)
    requires Valid(p) && stop < range.size && IsHole(view, range, 0, stop) && Ends(|p.bytes|, stop)
    ensures Complete(view, HitAt(view, p), |p.bytes|, range) <==>
              forall a: nat :: range.base + stop < a < FitEnd(|p.bytes|, range) ==> !Hit(view, p, a)
  {
    var n, hit := |p.bytes|, HitAt(view, p);
    CompleteIff(view, hit, n, range);
    HoleIs(view, range, 0, stop, Hole(view, range, 0));
    forall a: nat | range.base <= a < FitEnd(n, range) && hit(a)
      ensures Hit(view, p, a) && (Reached(view, n, range, 0, a) <==> a <= range.base + stop)
    {
      HitReadable(view, p, a);
      var gap := At(view, range.base + stop);
    }
    if forall a: nat :: range.base + stop < a < FitEnd(n, range) ==> !Hit(view, p, a) {
      assert forall a: nat :: range.base <= a < FitEnd(n, range) && hit(a) ==> Reached(view, n, range, 0, a);
    }
    if Complete(view, hit, n, range) {
      assert forall a: nat :: range.base <= a < FitEnd(n, range) && hit(a) ==> a <= range.base + stop;
      assert forall a: nat {:trigger Hit(view, p, a)} :: Hit(view, p, a) ==> hit(a);
    }
  }

  // ---------------------------------------------------------------- whatever the pattern is

  /** n bytes can be read at a. */
  ghost predicate RunAt(view: View, a: nat, n: nat) {
    forall x: nat {:trigger At(view, x)} :: a <= x < a + n ==> At(view, x).Some?
  }

  lemma HitReadable(view: View, p: Pattern, a: nat)
    requires Valid(p) && Hit(view, p, a)
    ensures RunAt(view, a, |p.bytes|)
  {
    forall x: nat {:trigger At(view, x)} | a <= x < a + |p.bytes| ensures At(view, x).Some? {
      assert Agrees(view, p, a, x - a);
    }
  }

  /** The pattern that is what stands at a. */
  ghost function Standing(view: View, a: nat, n: nat): (p: Pattern)
    requires n > 0 && RunAt(view, a, n)
    ensures Valid(p) && |p.bytes| == n
  {
    Pattern(seq(n, i requires 0 <= i < n => At(view, a + i).value), seq(n, _ => true), 0)
  }

  lemma StandingHits(view: View, a: nat, n: nat)
    requires n > 0 && RunAt(view, a, n)
    ensures Hit(view, Standing(view, a, n), a)
  {
    var p := Standing(view, a, n);
    forall j: nat {:trigger Agrees(view, p, a, j)} | j < |p.bytes| ensures Agrees(view, p, a, j) {
      var here := At(view, a + j);
    }
  }

  /** Every pattern of n bytes is found wherever it is in the range. */
  ghost predicate EveryPattern(view: View, n: nat, range: Range)
    requires n > 0
  {
    forall p: Pattern :: Valid(p) && |p.bytes| == n ==> Complete(view, HitAt(view, p), n, range)
  }

  /**
   * No pattern of n bytes is ever missed if and only if the scan looks at every place of the range
   * where n bytes can be read: what is readable decides, whatever the bytes are.
   */
  lemma EveryPatternIff(view: View, n: nat, range: Range)
    requires n > 0
    ensures EveryPattern(view, n, range) <==>
              forall a: nat :: range.base <= a < FitEnd(n, range) && RunAt(view, a, n) ==> Reached(view, n, range, 0, a)
  {
    if EveryPattern(view, n, range) {
      forall a: nat | range.base <= a < FitEnd(n, range) && RunAt(view, a, n) ensures Reached(view, n, range, 0, a) {
        var p := Standing(view, a, n);
        StandingHits(view, a, n);
        assert HitAt(view, p)(a) && Complete(view, HitAt(view, p), n, range);
        CompleteIff(view, HitAt(view, p), n, range);
      }
    }
    if forall a: nat :: range.base <= a < FitEnd(n, range) && RunAt(view, a, n) ==> Reached(view, n, range, 0, a) {
      forall p: Pattern | Valid(p) && |p.bytes| == n ensures Complete(view, HitAt(view, p), n, range) {
        forall a: nat | range.base <= a < FitEnd(n, range) && Hit(view, p, a) ensures Reached(view, n, range, 0, a) {
          HitReadable(view, p, a);
        }
        CompleteIff(view, HitAt(view, p), n, range);
      }
    }
  }

  // ---------------------------------------------------------------- hits that are lost

  /** Four bytes of no-operations, save at one address that cannot be read. */
  function Sled(hole: nat): Memory { map[0 := 0x90, 1 := 0x90, 2 := 0x90, 3 := 0x90] - {hole} }

  const NOP := Pattern([0x90], [true], 0)

  lemma SledShows(view: View, hole: nat, a: nat)
    requires view == MemView(Sled(hole)) && a < 4
    ensures At(view, a) == if a == hole then None else Some(0x90)
  {
    assert Wrap(a) == a;
  }

  lemma NopHits(view: View, hole: nat, a: nat)
    requires view == MemView(Sled(hole)) && a < 4 && a != hole
    ensures Valid(NOP) && Hit(view, NOP, a)
  {
    SledShows(view, hole, a);
    forall j: nat {:trigger Agrees(view, NOP, a, j)} | j < |NOP.bytes| ensures Agrees(view, NOP, a, j) {
      assert j == 0 && a + j == a && NOP.bytes[0] == 0x90;
    }
  }

  /** The hole at 1 ends the scan, so the hit at 2 is lost. */
  lemma HitBehindHoleLost()
    ensures var view, range := MemView(Sled(1)), Range(0, 4);
            Valid(NOP) && Hit(view, NOP, 2) && 2 !in RangeHits(view, HitAt(view, NOP), 1, range, 0)
  {
    var view, range := MemView(Sled(1)), Range(0, 4);
    NopHits(view, 1, 2);
    SledShows(view, 1, 0);
    SledShows(view, 1, 1);
    HoleIs(view, range, 0, 1, Hole(view, range, 0));
    ReportedIff(view, HitAt(view, NOP), 1, range, 2);
  }

  /** The hole at 0 does not, but the chunk behind it is skipped, so the hit at 1 is lost. */
  lemma HitInSkippedChunkLost()
    ensures var view, range := MemView(Sled(0)), Range(0, 4);
            Valid(NOP) && Hit(view, NOP, 1) && 1 !in RangeHits(view, HitAt(view, NOP), 1, range, 0)
  {
    var view, range := MemView(Sled(0)), Range(0, 4);
    NopHits(view, 0, 1);
    SledShows(view, 0, 0);
    HoleIs(view, range, 0, 0, Hole(view, range, 0));
    ReportedIff(view, HitAt(view, NOP), 1, range, 1);
  }
}
