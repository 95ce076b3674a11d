/** Reading a minidump: ranges of memory kept at offsets of a file, found by binary search. */
module DumpMemory {
  import opened Common
  import opened ByteMap
  import opened MemorySource
  import opened Piecewise

  datatype Range = Range(start: nat, size: nat, fileOffset: nat)

  predicate StartLe(a: Range, b: Range) { a.start <= b.start }

  ghost predicate Ordered(ranges: seq<Range>) {
    forall i, j :: 0 <= i < j < |ranges| ==> ranges[i].start <= ranges[j].start
  }

  /** What the format promises: no empty range, none past the address space, none inside another. */
  ghost predicate Disjoint(ranges: seq<Range>) {
    && (forall i {:trigger ranges[i]} :: 0 <= i < |ranges| ==>
        ranges[i].size > 0 && ranges[i].start + ranges[i].size <= SPACE)
    && (forall i, j :: 0 <= i < j < |ranges| ==> ranges[i].start + ranges[i].size <= ranges[j].start)
  }

  predicate Covers(r: Range, a: nat) { r.start <= a < r.start + r.size }

  /** Exactly the first n ranges start at or before the address. */
  ghost predicate Splits(ranges: seq<Range>, a: nat, n: nat) {
    n <= |ranges| && forall i {:trigger ranges[i]} :: 0 <= i < |ranges| ==> (i < n <==> ranges[i].start <= a)
  }

  lemma {:induction false} SplitExists(ranges: seq<Range>, a: nat) returns (n: nat)
    requires Ordered(ranges)
    ensures Splits(ranges, a, n)
  {
    if ranges == [] {
      n := 0;
    } else if ranges[|ranges| - 1].start <= a {
      n := |ranges|;
    } else {
      var front := ranges[..|ranges| - 1];
      n := SplitExists(front, a);
      forall i {:trigger ranges[i]} | 0 <= i < |ranges| ensures i < n <==> ranges[i].start <= a {
        if i < |front| {
          assert front[i] == ranges[i];
        }
      }
    }
  }

  /** How many ranges start at or before the address. */
  ghost function Starting(ranges: seq<Range>, a: nat): (n: nat)
    requires Ordered(ranges)
    ensures Splits(ranges, a, n)
  {
    assert exists n :: Splits(ranges, a, n) by {
      var n := SplitExists(ranges, a);
    }
    var n :| Splits(ranges, a, n);
    n
  }

  /** The last range that starts at or before the address, when it reaches the address. */
  ghost function Found(ranges: seq<Range>, a: nat): (at: Option<nat>)
    requires Ordered(ranges)
    ensures at.Some? ==> at.value < |ranges| && Covers(ranges[at.value], a)
  {
    var n := Starting(ranges, a);
    if n > 0 && Covers(ranges[n - 1], a) then Some(n - 1) else None
  }

  /** The search finds a range that holds the address if and only if there is one, and then the only one. */
  lemma FoundIffCovered(ranges: seq<Range>, a: nat)
    requires Disjoint(ranges) && Ordered(ranges)
    ensures Found(ranges, a).Some? <==> exists i :: 0 <= i < |ranges| && Covers(ranges[i], a)
    ensures forall i :: 0 <= i < |ranges| && Covers(ranges[i], a) ==> Found(ranges, a) == Some(i)
  {
    forall i | 0 <= i < |ranges| && Covers(ranges[i], a) ensures Found(ranges, a) == Some(i) {
      var n := Starting(ranges, a);
      forall j {:trigger ranges[j]} | i < j < |ranges| ensures ranges[j].start > a {
        assert ranges[i].start + ranges[i].size <= ranges[j].start;
      }
      var last := ranges[n - 1];
      assert last.start <= a;
    }
  }

  /** What the dump shows at an address: the file's byte behind the range found there, if the file has it. */
  ghost function Shown(ranges: seq<Range>, file: seq<byte>, a: nat): Option<byte>
    requires Ordered(ranges)
  {
    match Found(ranges, a)
    case None => None
    case Some(i) =>
      var offset := ranges[i].fileOffset + (a - ranges[i].start);
      if offset < |file| then Some(file[offset]) else None
  }

  /** The dump as a byte map. */
  ghost function DumpView(ranges: seq<Range>, file: seq<byte>): View
    requires Ordered(ranges)
  {
    (a: nat) => Shown(ranges, file, Wrap(a))
  }

  /**
   * One turn of the read: as much as is wanted of the range at the address. A range whose bytes run past the
   * file ends it.
   */
  ghost function Piece(ranges: seq<Range>, file: seq<byte>, at: nat, n: nat): (turn: Turn)
    requires Ordered(ranges)
    ensures n > 0 ==> |turn.bytes| <= n && (turn.more ==> |turn.bytes| > 0)
  {
    match Found(ranges, at)
    case None => Turn([], false)
    case Some(i) =>
      var into := at - ranges[i].start;
      var want, offset := Min(n, ranges[i].size - into), ranges[i].fileOffset + into;
      if offset + want > |file| then Turn([], false) else Turn(file[offset..offset + want], true)
  }

  /** Reading range by range, at 64-bit addresses. */
  ghost function DumpReader(ranges: seq<Range>, file: seq<byte>): Reader
    requires Ordered(ranges)
  {
    (at: nat, n: nat) => Piece(ranges, file, Wrap(at), n)
  }

  /** Every range's bytes lie inside the file, or all of them outside. */
  ghost predicate Whole(ranges: seq<Range>, file: seq<byte>) {
    forall i {:trigger ranges[i]} :: 0 <= i < |ranges| ==>
        ranges[i].fileOffset + ranges[i].size <= |file| || ranges[i].fileOffset >= |file|
  }

  /** The view is the dump's. */
  ghost predicate Names(view: View, ranges: seq<Range>, file: seq<byte>)
    requires Ordered(ranges)
  {
    forall a: nat {:trigger At(view, a)} :: At(view, a) == Shown(ranges, file, Wrap(a))
  }

  /** A stretch inside one range shows the file's bytes. */
  lemma ByteInRange(ranges: seq<Range>, file: seq<byte>, i: nat, a: nat)
    requires Ordered(ranges) && Disjoint(ranges) && i < |ranges| && Covers(ranges[i], a)
    ensures Found(ranges, a) == Some(i)
    ensures var offset := ranges[i].fileOffset + (a - ranges[i].start);
            Shown(ranges, file, a) == if offset < |file| then Some(file[offset]) else None
  {
    FoundIffCovered(ranges, a);
  }

  lemma PieceBytes(ranges: seq<Range>, file: seq<byte>, at: nat, n: nat, k: nat)
    requires Ordered(ranges) && Disjoint(ranges) && k < |Piece(ranges, file, at, n).bytes|
    ensures Shown(ranges, file, at + k) == Some(Piece(ranges, file, at, n).bytes[k]) && at + k < SPACE
  {
    var i := Found(ranges, at).value;
    assert ranges[i].start + ranges[i].size <= SPACE;
    ByteInRange(ranges, file, i, at + k);
  }

  lemma PieceShows(ranges: seq<Range>, file: seq<byte>, view: View, at: nat, n: nat)
    requires Ordered(ranges) && Disjoint(ranges) && Names(view, ranges, file)
    ensures Shows(view, at, Piece(ranges, file, Wrap(at), n).bytes)
  {
    var first := Wrap(at);
    var bytes := Piece(ranges, file, first, n).bytes;
    forall a: nat {:trigger At(view, a)} | at <= a < at + |bytes| ensures At(view, a) == Some(bytes[a - at]) {
      PieceBytes(ranges, file, first, n, a - at);
      WrapStep(at, a - at);
    }
  }

  lemma PieceStops(ranges: seq<Range>, file: seq<byte>, at: nat, n: nat)
    requires Ordered(ranges) && Disjoint(ranges) && Whole(ranges, file)
    ensures var turn := Piece(ranges, file, at, n); !turn.more ==> turn.bytes == [] && Shown(ranges, file, at).None?
  {
    if Found(ranges, at).Some? {
      var r := ranges[Found(ranges, at).value];
      assert r.fileOffset + r.size <= |file| || r.fileOffset >= |file|;
    }
  }

  /** The turns never deliver a wrong byte, and with every range whole they stop only where nothing is shown. */
  lemma PiecesRefine(ranges: seq<Range>, file: seq<byte>, view: View, turn: Reader)
    requires Ordered(ranges) && Disjoint(ranges) && Names(view, ranges, file) && turn == DumpReader(ranges, file)
    ensures Progresses(turn) && Truthful(turn, view) && (Whole(ranges, file) ==> Thorough(turn, view))
  {
    forall at: nat, n: nat {:trigger turn(at, n)} | n > 0 ensures Shows(view, at, turn(at, n).bytes) {
      PieceShows(ranges, file, view, at, n);
    }
    if Whole(ranges, file) {
      forall at: nat, n: nat {:trigger turn(at, n)} | n > 0 && !turn(at, n).more && |turn(at, n).bytes| < n
        ensures At(view, at + |turn(at, n).bytes|).None?
      {
        PieceStops(ranges, file, Wrap(at), n);
      }
    }
  }

  /** Every read delivers the longest mapped prefix. */
  ghost predicate Refines(turn: Reader, view: View)
    requires Progresses(turn)
  {
    forall at: nat, n: nat :: Turned(turn, at, n) == LongestPrefix(view, at, n)
  }

  lemma FirstShown(view: View, at: nat, n: nat)
    requires At(view, at).Some? && n > 0
    ensures |LongestPrefix(view, at, n)| > 0
  {
    var s := LongestPrefix(view, at, n);
    var stop := At(view, at + |s|);
  }

  /** A range that runs past the file reads as nothing, though its first byte is shown. */
  lemma CutRangeReads(ranges: seq<Range>, file: seq<byte>, view: View, turn: Reader, i: nat)
    requires Ordered(ranges) && Disjoint(ranges) && Names(view, ranges, file) && i < |ranges|
    requires turn == DumpReader(ranges, file) && Progresses(turn)
    ensures var r := ranges[i];
            r.fileOffset < |file| < r.fileOffset + r.size ==>
              |Turned(turn, r.start, r.size)| == 0 && |LongestPrefix(view, r.start, r.size)| > 0
  {
    var r := ranges[i];
    assert r.size > 0 && r.start + r.size <= SPACE;
    ByteInRange(ranges, file, i, r.start);
    var first := At(view, r.start);
    if r.fileOffset < |file| < r.fileOffset + r.size {
      assert turn(r.start, r.size) == Piece(ranges, file, r.start, r.size) == Turn([], false);
      FirstShown(view, r.start, r.size);
    }
  }

  lemma RefinesIffWhole(ranges: seq<Range>, file: seq<byte>, view: View, turn: Reader)
    requires Ordered(ranges) && Disjoint(ranges) && Names(view, ranges, file)
    requires turn == DumpReader(ranges, file) && Progresses(turn)
    ensures Refines(turn, view) <==> Whole(ranges, file)
  {
    PiecesRefine(ranges, file, view, turn);
    if Whole(ranges, file) {
      forall at: nat, n: nat ensures Turned(turn, at, n) == LongestPrefix(view, at, n) {
        TurnedIsLongest(turn, view, at, n);
      }
    }
    if Refines(turn, view) {
      forall i {:trigger ranges[i]} | 0 <= i < |ranges|
        ensures ranges[i].fileOffset + ranges[i].size <= |file| || ranges[i].fileOffset >= |file|
      {
        CutRangeReads(ranges, file, view, turn, i);
        assert Turned(turn, ranges[i].start, ranges[i].size) == LongestPrefix(view, ranges[i].start, ranges[i].size);
      }
    }
  }

  /**
   * Reading delivers exactly the longest mapped prefix, across adjacent ranges, from every address and
   * for every size, if and only if no range runs from inside the file past its end.
   */
  lemma ReadsExactlyWhenWhole(ranges: seq<Range>, file: seq<byte>)
    requires Ordered(ranges) && Disjoint(ranges)
    ensures var turn := DumpReader(ranges, file);
            Progresses(turn) && (Refines(turn, DumpView(ranges, file)) <==> Whole(ranges, file))
  {
    var turn, view := DumpReader(ranges, file), DumpView(ranges, file);
    PiecesRefine(ranges, file, view, turn);
    RefinesIffWhole(ranges, file, view, turn);
  }

  /** So, with every range whole, reading a bytes and then b is reading a + b, when the first read is complete. */
  lemma ReadsSplit(ranges: seq<Range>, file: seq<byte>, at: nat, a: nat, b: nat)
    requires Ordered(ranges) && Disjoint(ranges) && Whole(ranges, file)
    ensures var turn := DumpReader(ranges, file);
            Progresses(turn) &&
            var first := Turned(turn, at, a);
            Turned(turn, at, a + b) == if |first| == a then first + Turned(turn, at + a, b) else first
  {
    var turn, view := DumpReader(ranges, file), DumpView(ranges, file);
    PiecesRefine(ranges, file, view, turn);
    TurnedSplits(turn, view, at, a, b);
  }
}
