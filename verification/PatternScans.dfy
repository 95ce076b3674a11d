/**
 * What a scan amounts to: on readable ranges the chunks make no difference, on any range every
 * reported address is a hit, and behind a hole the scan of the range ends or skips a chunk.
 */
module PatternScans {
  import opened Common
  import opened ByteMap
  import opened PatternScanner

  ghost predicate Readable(view: View, range: Range) {
    forall a: nat {:trigger At(view, a)} :: range.base <= a < range.base + range.size ==> At(view, a).Some?
  }

  /** The places of a range where a pattern of n bytes fits: [base, FitEnd). */
  function FitEnd(n: nat, range: Range): nat
    requires n > 0
  {
    if range.size < n then range.base else range.base + (range.size - n + 1)
  }

  // ---------------------------------------------------------------- one readable run

  /** From the offset on the range is readable up to `stop`: its end, or a hole. */
  ghost predicate IsHole(view: View, range: Range, offset: nat, stop: nat) {
    && offset <= stop <= range.size
    && (forall a: nat {:trigger At(view, a)} :: range.base + offset <= a < range.base + stop ==> At(view, a).Some?)
    && (stop < range.size ==> At(view, range.base + stop).None?)
  }

  /** Where the readable run from the offset on ends. */
  ghost function Hole(view: View, range: Range, offset: nat): (stop: nat)
    requires offset <= range.size
    ensures IsHole(view, range, offset, stop)
    decreases range.size - offset
  {
    if offset == range.size || At(view, range.base + offset).None? then offset else Hole(view, range, offset + 1)
  }

  /** It ends at one place. */
  lemma HoleIs(view: View, range: Range, offset: nat, stop: nat, other: nat)
    requires IsHole(view, range, offset, stop) && IsHole(view, range, offset, other)
    ensures stop == other
  {
    var here, there := At(view, range.base + stop), At(view, range.base + other);
  }

  /** A read stops at the hole. */
  lemma ReadToHole(view: View, range: Range, offset: nat, stop: nat, want: nat)
    requires IsHole(view, range, offset, stop) && offset + want <= range.size
    ensures |LongestPrefix(view, range.base + offset, want)| == Min(want, stop - offset)
  {
    var r := LongestPrefix(view, range.base + offset, want);
    var gap, past := At(view, range.base + offset + |r|), At(view, range.base + stop);
  }

  /**
   * A hole `run` bytes behind where scanning began ends the scan of the range: the chunk that meets it
   * is long enough to hold the pattern. Any other hole is skipped, with a whole chunk of what is behind it.
   */
  predicate Ends(n: nat, run: nat)
    requires n > 0
  {
    n <= run && (run - (n - 1)) % CHUNK != 0
  }

  /** What is still reported behind the run. */
  ghost function Behind(after: nat -> seq<nat>, n: nat, range: Range, offset: nat, stop: nat): seq<nat>
    requires n > 0 && offset <= stop
  {
    if stop < range.size && !Ends(n, stop - offset) then after(stop + CHUNK) else []
  }

  lemma EndsLater(n: nat, run: nat)
    requires n > 0 && run >= CHUNK + (n - 1)
    ensures Ends(n, run - CHUNK) == Ends(n, run)
  {
    var left := run - (n - 1);
    assert left % CHUNK == (left - CHUNK) % CHUNK;
  }

  lemma EndsHere(n: nat, run: nat)
    requires n > 0 && n <= run < CHUNK + (n - 1)
    ensures Ends(n, run)
  {
  }

  lemma NoRoom(hit: nat -> bool, n: nat, range: Range, offset: nat, stop: nat)
    requires n > 0 && offset <= stop < offset + n
    ensures Hits(hit, range.base + offset, FitEnd(n, Range(range.base, stop))) == []
  {
  }

  /** A read that comes back whole: the run goes on behind its chunk. */
  lemma ChunkInRun(view: View, n: nat, range: Range, offset: nat, stop: nat, want: nat)
    requires n > 0 && IsHole(view, range, offset, stop) && offset < range.size && want == Want(n, range, offset)
    requires n <= want <= stop - offset
    ensures var next := offset + (want - (n - 1));
            && offset < next <= stop && IsHole(view, range, next, stop)
            && range.base + next <= FitEnd(n, Range(range.base, stop))
            && (stop < range.size ==> Ends(n, stop - next) == Ends(n, stop - offset))
  {
    if stop < range.size {
      EndsLater(n, stop - offset);
    }
  }

  /** The readable run is scanned as if by trying every offset; what follows depends on how it ends. */
  lemma {:induction false} RunHits(after: nat -> seq<nat>, view: View, hit: nat -> bool, n: nat, range: Range,
                                   offset: nat, stop: nat)
    requires n > 0 && IsHole(view, range, offset, stop) && Gives(after, view, hit, n, range)
    ensures after(offset) ==
              Hits(hit, range.base + offset, FitEnd(n, Range(range.base, stop))) + Behind(after, n, range, offset, stop)
    decreases range.size - offset
  {
    var at, end := range.base + offset, FitEnd(n, Range(range.base, stop));
    if offset == range.size {
      NothingAfter(after, view, hit, n, range, offset);
      NoRoom(hit, n, range, offset, stop);
    } else {
      var want := Want(n, range, offset);
      var got := Min(want, stop - offset);
      ReadToHole(view, range, offset, stop, want);
      var chunk, later := ChunkNext(after, view, hit, n, range, offset, got);
      if got < n {
        NoRoom(hit, n, range, offset, stop);
        ShortChunk(after, view, hit, n, range, offset, stop, got);
      } else if got == want {
        ChunkInRun(view, n, range, offset, stop, want);
        var next := offset + (want - (n - 1));
        RunHits(after, view, hit, n, range, next, stop);
        HitsSplit(hit, at, range.base + next, end);
        Regrouped(chunk, Hits(hit, range.base + next, end), Behind(after, n, range, next, stop));
      } else {
        EndsHere(n, got);
      }
    }
  }

  lemma Regrouped(a: seq<nat>, b: seq<nat>, c: seq<nat>)
    ensures a + (b + c) == a + b + c
  {
  }

  /** A chunk too short to hold the pattern. */
  lemma ShortChunk(after: nat -> seq<nat>, view: View, hit: nat -> bool, n: nat, range: Range, offset: nat, stop: nat,
                   got: nat)
    requires n > 0 && IsHole(view, range, offset, stop) && offset < range.size && Gives(after, view, hit, n, range)
    requires got == Min(Want(n, range, offset), stop - offset) < n
    ensures after(offset + (if got > 0 then got else CHUNK)) == Behind(after, n, range, offset, stop)
  {
    if stop == range.size {
      NothingAfter(after, view, hit, n, range, stop);
    } else if got > 0 {
      ReadToHole(view, range, stop, stop, Want(n, range, stop));
      var chunk, later := ChunkNext(after, view, hit, n, range, stop, 0);
      assert [] + later == later;
    }
  }

  /** On a readable range the chunks add up to the plain scan, straddling matches included. */
  lemma ChunksAddUp(view: View, hit: nat -> bool, n: nat, range: Range)
    requires n > 0 && Readable(view, range)
    ensures RangeHits(view, hit, n, range, 0) == Hits(hit, range.base, FitEnd(n, range))
  {
    RunHits(o => RangeHits(view, hit, n, range, o), view, hit, n, range, 0, range.size);
  }

  /** The plain scan of several ranges, one after the other. */
  ghost function NaiveHits(hit: nat -> bool, n: nat, ranges: seq<Range>): seq<nat>
    requires n > 0
  {
    if ranges == [] then []
    else Hits(hit, ranges[0].base, FitEnd(n, ranges[0])) + NaiveHits(hit, n, ranges[1..])
  }

  /**
   * Chunked scan equals naive scan: on readable ranges the scanner finds what trying every offset
   * finds.
   */
  lemma {:induction false} ChunkedIsNaive(view: View, hit: nat -> bool, n: nat, ranges: seq<Range>)
    requires n > 0
    requires forall r :: r in ranges ==> Readable(view, r)
    ensures AllHits(view, hit, n, ranges) == NaiveHits(hit, n, ranges)
  {
    if ranges != [] {
      assert ranges[0] in ranges;
      ChunksAddUp(view, hit, n, ranges[0]);
      ChunkedIsNaive(view, hit, n, ranges[1..]);
    }
  }

  /** A report is a hit of the first chunk, or is left for later. */
  lemma ReportedNow(after: nat -> seq<nat>, view: View, hit: nat -> bool, n: nat, range: Range, offset: nat, a: nat)
    returns (next: nat)
    requires n > 0 && Gives(after, view, hit, n, range) && a in after(offset) && offset < range.size
    ensures (hit(a) && range.base + offset <= a && a + n <= range.base + range.size) || a in after(next)
    ensures next > offset
  {
    var got := |LongestPrefix(view, range.base + offset, Want(n, range, offset))|;
    var chunk, later := ChunkNext(after, view, hit, n, range, offset, got);
    next := LaterStarts(after, n, range, offset, got, later);
    if a in chunk {
      HitsExact(hit, range.base + offset, range.base + offset + (got - n + 1), a);
    }
  }

  lemma {:induction false} ReportedFrom(after: nat -> seq<nat>, view: View, hit: nat -> bool, n: nat, range: Range,
                                        offset: nat, a: nat)
    requires n > 0 && Gives(after, view, hit, n, range) && a in after(offset)
    ensures hit(a) && range.base + offset <= a && a + n <= range.base + range.size
    decreases range.size - offset
  {
    if offset >= range.size {
      NothingAfter(after, view, hit, n, range, offset);
    } else {
      var next := ReportedNow(after, view, hit, n, range, offset, a);
      if a in after(next) {
        ReportedFrom(after, view, hit, n, range, next, a);
      }
    }
  }

  /** Whatever is readable, every address reported is a hit inside the range. */
  lemma ReportedIsHit(view: View, hit: nat -> bool, n: nat, range: Range, offset: nat, a: nat)
    requires n > 0 && a in RangeHits(view, hit, n, range, offset)
    ensures hit(a) && range.base + offset <= a && a + n <= range.base + range.size
  {
    ReportedFrom(o => RangeHits(view, hit, n, range, o), view, hit, n, range, offset, a);
  }

  lemma AscendConcat(s: seq<nat>, t: seq<nat>, mid: nat)
    requires Ascending(s) && Ascending(t)
    requires (forall a :: a in s ==> a < mid) && (forall a :: a in t ==> mid <= a)
    ensures Ascending(s + t)
  {
    assert forall i :: 0 <= i < |s| ==> s[i] in s;
    assert forall i :: 0 <= i < |t| ==> t[i] in t;
  }

  lemma {:induction false} AscendFrom(after: nat -> seq<nat>, view: View, hit: nat -> bool, n: nat, range: Range,
                                      offset: nat)
    requires n > 0 && Gives(after, view, hit, n, range)
    ensures Ascending(after(offset))
    decreases range.size - offset
  {
    if offset >= range.size {
      NothingAfter(after, view, hit, n, range, offset);
    } else {
      var got := |LongestPrefix(view, range.base + offset, Want(n, range, offset))|;
      var chunk, later := ChunkNext(after, view, hit, n, range, offset, got);
      if got < n {
        AscendFrom(after, view, hit, n, range, offset + (if got > 0 then got else CHUNK));
        assert [] + later == later;
      } else {
        var next := offset + (got - (n - 1));
        HitsAscend(hit, range.base + offset, range.base + next);
        AscendFrom(after, view, hit, n, range, next);
        ChunkBefore(after, view, hit, n, range, offset, next, chunk, after(next));
        AscendConcat(chunk, later, range.base + next);
      }
    }
  }

  /** The hits of a chunk lie in front of the next one, and what the next ones report behind it. */
  lemma ChunkBefore(after: nat -> seq<nat>, view: View, hit: nat -> bool, n: nat, range: Range, offset: nat, next: nat,
                    chunk: seq<nat>, later: seq<nat>)
    requires n > 0 && Gives(after, view, hit, n, range)
    requires chunk == Hits(hit, range.base + offset, range.base + next) && later == after(next)
    ensures forall a :: a in chunk ==> a < range.base + next
    ensures forall a :: a in later ==> range.base + next <= a
  {
    forall a | a in chunk ensures a < range.base + next {
      HitsExact(hit, range.base + offset, range.base + next, a);
    }
    forall a | a in later ensures range.base + next <= a {
      ReportedFrom(after, view, hit, n, range, next, a);
    }
  }

  /** Whatever is readable, a range's addresses are reported in ascending order, each once. */
  lemma ReportsAscend(view: View, hit: nat -> bool, n: nat, range: Range)
    requires n > 0
    ensures Ascending(RangeHits(view, hit, n, range, 0))
  {
    AscendFrom(o => RangeHits(view, hit, n, range, o), view, hit, n, range, 0);
  }

  /**
   * Short reads: whatever lies behind the first unreadable byte of a range, at offset stop, the
   * scan reports every hit in front of it, and reports those first.
   */
  lemma FirstRunComplete(view: View, hit: nat -> bool, n: nat, range: Range, stop: nat)
    requires n > 0 && stop < range.size && IsHole(view, range, 0, stop)
    ensures Hits(hit, range.base, FitEnd(n, Range(range.base, stop))) <= RangeHits(view, hit, n, range, 0)
  {
    RunHits(o => RangeHits(view, hit, n, range, o), view, hit, n, range, 0, stop);
  }

  /** ... and when the hole ends the scan, those are all it reports: the rest of the range is not looked at. */
  lemma ScanStopsAt(view: View, hit: nat -> bool, n: nat, range: Range, stop: nat)
    requires n > 0 && stop < range.size && IsHole(view, range, 0, stop) && Ends(n, stop)
    ensures RangeHits(view, hit, n, range, 0) == Hits(hit, range.base, FitEnd(n, Range(range.base, stop)))
  {
    RunHits(o => RangeHits(view, hit, n, range, o), view, hit, n, range, 0, stop);
  }

  /** ... and when it does not, the scan goes on a whole chunk behind the hole, at whatever it finds there. */
  lemma ScanSkipsAt(view: View, hit: nat -> bool, n: nat, range: Range, stop: nat)
    requires n > 0 && stop < range.size && IsHole(view, range, 0, stop) && !Ends(n, stop)
    ensures RangeHits(view, hit, n, range, 0) ==
              Hits(hit, range.base, FitEnd(n, Range(range.base, stop))) + RangeHits(view, hit, n, range, stop + CHUNK)
  {
    RunHits(o => RangeHits(view, hit, n, range, o), view, hit, n, range, 0, stop);
  }

  lemma OnlyOne(all: seq<nat>, a: nat)
    requires Ascending(all) && a in all && forall b :: b in all ==> b == a
    ensures all == [a]
  {
    var last := all[|all| - 1];
    assert last in all && all[0] in all;
    assert |all| == 1;
  }
}
