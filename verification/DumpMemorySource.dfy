/** The minidump reader: what it takes from the file, how it searches, how it reads. */
module DumpMemorySource {
  import opened Common
  import opened MemorySource
  import opened Piecewise
  import opened DumpMemory
  import StableSort

  // ---------------------------------------------------------------- fields of the file

  const MAX_RANGES: nat := 0x40_0000
  const SPACE32: nat := 0x1_0000_0000

  /** The number whose bytes these are, the lowest first. */
  function LittleEndian(bytes: seq<byte>): nat {
    if bytes == [] then 0 else bytes[0] + 256 * LittleEndian(bytes[1..])
  }

  /** The field of `width` bytes at an offset, when the file holds all of it. */
  function Field(file: seq<byte>, offset: nat, width: nat): Option<nat> {
    if offset + width > |file| then None else Some(LittleEndian(file[offset..offset + width]))
  }

  /** 32-bit offset arithmetic. */
  function Offset32(rva: nat, add: nat): nat { if rva + add < SPACE32 then rva + add else rva + add - SPACE32 }

  /** A descriptor: where the memory starts, how long it is, and where its bytes are, when it says so. */
  datatype Entry = Entry(start: nat, size: nat, data: nat)

  /** The i-th 16-byte descriptor of a Memory64 list. */
  function Entry64(file: seq<byte>, table: nat, i: nat): Option<Entry> {
    match (Field(file, table + i * 16, 8), Field(file, table + i * 16 + 8, 8))
    case (Some(start), Some(size)) => Some(Entry(start, size, 0))
    case _ => None
  }

  /** The i-th 16-byte descriptor of a memory list. */
  function Entry32(file: seq<byte>, table: nat, i: nat): Option<Entry> {
    match (Field(file, table + i * 16, 8), Field(file, table + i * 16 + 8, 4), Field(file, table + i * 16 + 12, 4))
    case (Some(start), Some(size), Some(data)) => Some(Entry(start, size, data))
    case _ => None
  }

  type Table = nat -> Option<Entry>

  /** How many of the first n descriptors the file holds, up to the first it does not. */
  function Held(table: Table, n: nat): (held: nat)
    ensures held <= n
  {
    if n == 0 then 0 else
    var before := Held(table, n - 1);
    if before == n - 1 && table(n - 1).Some? then n else before
  }

  /** The ranges of the first n descriptors, their bytes packed back to back from `base`; empty ones take no place. */
  function Packed(table: Table, n: nat, base: nat): (ranges: seq<Range>)
  {
    if n == 0 then [] else
    var before := Packed(table, n - 1, base);
    match table(n - 1)
    case Some(e) => if e.size == 0 then before else before + [Range(e.start, e.size, base + Bytes(before))]
    case None => before
  }

  function Bytes(ranges: seq<Range>): nat {
    if ranges == [] then 0 else Bytes(ranges[..|ranges| - 1]) + ranges[|ranges| - 1].size
  }

  /** The ranges of the first n descriptors, each with its own offset. */
  function Placed(table: Table, n: nat): seq<Range> {
    if n == 0 then [] else
    var before := Placed(table, n - 1);
    match table(n - 1)
    case Some(e) => if e.size == 0 then before else before + [Range(e.start, e.size, e.data)]
    case None => before
  }

  /** The range of a descriptor, unless it is empty. */
  function RangeOf(e: Entry, offset: nat): seq<Range> {
    if e.size == 0 then [] else [Range(e.start, e.size, offset)]
  }

  /** Appending to the back part appends to the whole. */
  lemma Appended<T>(front: seq<T>, back: seq<T>, next: seq<T>, whole: seq<T>, more: seq<T>)
    requires whole == front + back && more == back + next
    ensures whole + next == front + more
  {
  }

  /** One more descriptor packed, at the offset the earlier ones reach. */
  ghost predicate PacksOn(packed: seq<Range>, more: seq<Range>, e: Entry, base: nat, offset: nat, next: nat) {
    && offset == base + Bytes(packed) && more == packed + RangeOf(e, offset)
    && next == offset + e.size == base + Bytes(more)
  }

  lemma PackedNext(table: Table, n: nat, base: nat, offset: nat)
    requires table(n).Some? && offset == base + Bytes(Packed(table, n, base))
    ensures var e := table(n).value;
            PacksOn(Packed(table, n, base), Packed(table, n + 1, base), e, base, offset, offset + e.size)
  {
    var packed, e := Packed(table, n, base), table(n).value;
    if e.size == 0 {
      assert Packed(table, n + 1, base) == packed == packed + [];
    } else {
      assert Packed(table, n + 1, base) == packed + [Range(e.start, e.size, offset)];
      BytesMore(packed, Range(e.start, e.size, offset));
    }
  }

  lemma PacksMore(before: seq<Range>, packed: seq<Range>, more: seq<Range>, e: Entry, base: nat, offset: nat, next: nat)
    requires PacksOn(packed, more, e, base, offset, next)
    ensures before + packed + RangeOf(e, offset) == before + more && next == base + Bytes(more)
  {
    Appended(before, packed, RangeOf(e, offset), before + packed, more);
  }

  lemma PackedMore(table: Table, n: nat, base: nat, before: seq<Range>, ranges: seq<Range>, offset: nat)
    requires table(n).Some? && ranges == before + Packed(table, n, base)
             && offset == base + Bytes(Packed(table, n, base))
    ensures ranges + RangeOf(table(n).value, offset) == before + Packed(table, n + 1, base)
    ensures offset + table(n).value.size == base + Bytes(Packed(table, n + 1, base))
  {
    var e := table(n).value;
    PackedNext(table, n, base, offset);
    PacksMore(before, Packed(table, n, base), Packed(table, n + 1, base), e, base, offset, offset + e.size);
  }

  lemma PlacedMore(table: Table, n: nat, before: seq<Range>, ranges: seq<Range>)
    requires table(n).Some? && ranges == before + Placed(table, n)
    ensures ranges + RangeOf(table(n).value, table(n).value.data) == before + Placed(table, n + 1)
  {
    Appended(before, Placed(table, n), RangeOf(table(n).value, table(n).value.data), ranges, Placed(table, n + 1));
  }

  lemma BytesMore(ranges: seq<Range>, r: Range)
    ensures Bytes(ranges + [r]) == Bytes(ranges) + r.size
  {
    assert (ranges + [r])[..|ranges|] == ranges;
  }

  /** The offset of each range is the running sum of the sizes before it. */
  lemma {:induction false} OffsetsAreRunningSums(table: Table, n: nat, base: nat, k: nat)
    requires k < |Packed(table, n, base)|
    ensures var ranges := Packed(table, n, base);
            ranges[k].fileOffset == base + Bytes(ranges[..k]) && ranges[k].size > 0
  {
    if n > 0 {
      var before := Packed(table, n - 1, base);
      if k < |before| {
        OffsetsAreRunningSums(table, n - 1, base, k);
        assert Packed(table, n, base)[..k] == before[..k];
      } else {
        assert Packed(table, n, base)[..k] == before;
      }
    }
  }

  /** So the packed bytes of different ranges never share a byte of the file. */
  lemma {:induction false} PackedApart(table: Table, n: nat, base: nat, j: nat, k: nat)
    requires j < k < |Packed(table, n, base)|
    ensures var ranges := Packed(table, n, base); ranges[j].fileOffset + ranges[j].size <= ranges[k].fileOffset
  {
    var ranges := Packed(table, n, base);
    OffsetsAreRunningSums(table, n, base, j);
    OffsetsAreRunningSums(table, n, base, k);
    BytesGrow(ranges, j + 1, k);
    assert ranges[..j + 1] == ranges[..j] + [ranges[j]];
    BytesMore(ranges[..j], ranges[j]);
  }

  lemma {:induction false} BytesGrow(ranges: seq<Range>, j: nat, k: nat)
    requires j <= k <= |ranges|
    ensures Bytes(ranges[..j]) <= Bytes(ranges[..k])
    decreases k
  {
    if j < k {
      BytesGrow(ranges, j, k - 1);
      assert ranges[..k] == ranges[..k - 1] + [ranges[k - 1]];
      BytesMore(ranges[..k - 1], ranges[k - 1]);
    }
  }

  // ---------------------------------------------------------------- the reader

  class DumpSource {
    const file: seq<byte>
    var ranges: seq<Range>
    var sawMemory64: bool

    constructor (file: seq<byte>)
      ensures this.file == file && ranges == [] && !sawMemory64
    {
      this.file := file;
      ranges, sawMemory64 := [], false;
    }

    /**
     * The ranges of a Memory64 list, onto those there are. A truncated table ends early; an implausible one
     * is refused.
     */
    method ParseMemory64List(rva: nat)
      requires rva < SPACE32
      modifies this
      ensures var table := (i: nat) => Entry64(file, Offset32(rva, 16), i);
              match (Field(file, rva, 8), Field(file, Offset32(rva, 8), 8))
              case (Some(count), Some(base)) =>
                if count > MAX_RANGES then ranges == old(ranges) && sawMemory64 == old(sawMemory64)
                else ranges == old(ranges) + Packed(table, Held(table, count), base) && sawMemory64
              case _ => ranges == old(ranges) && sawMemory64 == old(sawMemory64)
    {
      var count, base := Field(file, rva, 8), Field(file, Offset32(rva, 8), 8);
      if count.None? || base.None? { return; }
      if count.value > MAX_RANGES { return; }
      sawMemory64 := true;
      var table := (i: nat) => Entry64(file, Offset32(rva, 16), i);
      AppendPacked(table, count.value, base.value);
    }

    method AppendPacked(table: Table, count: nat, base: nat)
      modifies this`ranges
      ensures ranges == old(ranges) + Packed(table, Held(table, count), base)
    {
      var offset := base;
      var i := 0;
      while i < count && table(i).Some?
        invariant 0 <= i <= count && Held(table, i) == i
        invariant ranges == old(ranges) + Packed(table, i, base)
        invariant offset == base + Bytes(Packed(table, i, base))
      {
        PackedMore(table, i, base, old(ranges), ranges, offset);
        ranges := ranges + RangeOf(table(i).value, offset);
        offset := offset + table(i).value.size;
        i := i + 1;
      }
      HeldStops(table, i, count);
    }

    /** The ranges of a memory list, each with its own offset, onto those there are. */
    method ParseMemoryList(rva: nat)
      requires rva < SPACE32
      modifies this`ranges
      ensures var table := (i: nat) => Entry32(file, Offset32(rva, 4), i);
              match Field(file, rva, 4)
              case Some(count) => ranges == old(ranges)
                  + (if count > MAX_RANGES then [] else Placed(table, Held(table, count)))
              case None => ranges == old(ranges)
    {
      var count := Field(file, rva, 4);
      if count.None? || count.value > MAX_RANGES { return; }
      var table := (i: nat) => Entry32(file, Offset32(rva, 4), i);
      AppendPlaced(table, count.value);
    }

    method AppendPlaced(table: Table, count: nat)
      modifies this`ranges
      ensures ranges == old(ranges) + Placed(table, Held(table, count))
    {
      var i := 0;
      while i < count && table(i).Some?
        invariant 0 <= i <= count && Held(table, i) == i
        invariant ranges == old(ranges) + Placed(table, i)
      {
        PlacedMore(table, i, old(ranges), ranges);
        ranges := ranges + RangeOf(table(i).value, table(i).value.data);
        i := i + 1;
      }
      HeldStops(table, i, count);
    }

    /** The ranges, by where they start. */
    method SortRanges()
      modifies this`ranges
      ensures Ordered(ranges) && multiset(ranges) == multiset(old(ranges))
    {
      StableSort.SortSorted(ranges, StartLe);
      ranges := StableSort.Sort(ranges, StartLe);
    }

    /** The range that holds an address: binary search for the first range that starts past it. */
    method FindRange(address: nat) returns (at: Option<nat>)
      requires Ordered(ranges)
      ensures at == Found(ranges, address)
    {
      var low, high := 0, |ranges|;
      while low < high
        invariant 0 <= low <= Starting(ranges, address) <= high <= |ranges|
      {
        var middle := low + (high - low) / 2;
        if address < ranges[middle].start {
          high := middle;
        } else {
          low := middle + 1;
        }
      }
      if low == 0 { return None; }
      at := if Covers(ranges[low - 1], address) then Some(low - 1) else None;
    }

    /** One turn of the read, into the buffer. */
    method ReadPiece(at: nat, dest: array<byte>, into: nat, n: nat) returns (turn: Turn)
      requires Ordered(ranges) && into + n <= dest.Length && n > 0
      modifies dest
      ensures turn == Piece(ranges, file, at, n)
      ensures dest[..] == Spliced(old(dest[..]), into, turn.bytes)
    {
      var range := FindRange(at);
      turn := Turn([], false);
      if range.Some? {
        var r := ranges[range.value];
        var skip := at - r.start;
        var want, offset := Min(n, r.size - skip), r.fileOffset + skip;
        if offset + want <= |file| {
          turn := Turn(file[offset..offset + want], true);
          CopyBytes(turn.bytes, dest, into);
        }
      }
    }

    /** The turns are those of this dump. */
    ghost predicate Gives(turn: Reader)
      requires Ordered(ranges)
      reads this
    {
      forall at: nat, n: nat {:trigger turn(at, n)} :: turn(at, n) == Piece(ranges, file, Wrap(at), n)
    }

    method ReadTurn(at: nat, dest: array<byte>, into: nat, n: nat, ghost turn: Reader) returns (t: Turn)
      requires Ordered(ranges) && Gives(turn) && into + n <= dest.Length && n > 0
      modifies dest
      ensures t == turn(at, n) && |t.bytes| <= n && dest[..] == Spliced(old(dest[..]), into, t.bytes)
    {
      t := ReadPiece(Wrap(at), dest, into, n);
    }

    /** The turn after the bytes s, behind them in the buffer. */
    method ReadNext(addr: nat, dest: array<byte>, done: nat, size: nat, ghost turn: Reader, ghost s: seq<byte>,
                    ghost start: seq<byte>)
      returns (t: Turn)
      requires Ordered(ranges) && Gives(turn) && Progresses(turn) && done == |s| < size <= dest.Length == |start|
      requires dest[..] == Spliced(start, 0, s) && Along(turn, addr, size, s, true)
      modifies dest
      ensures |s + t.bytes| <= size && dest[..] == Spliced(start, 0, s + t.bytes)
      ensures Along(turn, addr, size, s + t.bytes, t.more) && (t.more ==> |t.bytes| > 0)
    {
      ghost var was := dest[..];
      t := ReadTurn(addr + done, dest, done, size - done, turn);
      TurnTaken(turn, addr, size, s, t, start, was, dest[..]);
    }

    method ReadTurns(addr: nat, dest: array<byte>, size: nat, ghost turn: Reader) returns (done: nat)
      requires Ordered(ranges) && Gives(turn) && Progresses(turn) && size <= dest.Length
      modifies dest
      ensures done == |Turned(turn, addr, size)| && dest[..] == Spliced(old(dest[..]), 0, Turned(turn, addr, size))
    {
      ghost var s, start := [], dest[..];
      done := 0;
      var more := true;
      AlongStarts(turn, addr, size);
      while done < size && more
        invariant done == |s| && Along(turn, addr, size, s, more)
        invariant dest[..] == Spliced(start, 0, s)
        decreases size - done, more
      {
        var t := ReadNext(addr, dest, done, size, turn, s, start);
        s, done, more := s + t.bytes, done + |t.bytes|, t.more;
      }
      AlongEnds(turn, addr, size, s, more);
    }

    /** Reads across adjacent ranges, as far as they reach. */
    method Read(addr: nat, dest: array<byte>, size: nat) returns (done: nat)
      requires Ordered(ranges) && size <= dest.Length
      modifies dest
      ensures var turn := DumpReader(ranges, file);
              Progresses(turn) && done == |Turned(turn, addr, size)|
                  && dest[..] == Spliced(old(dest[..]), 0, Turned(turn, addr, size))
    {
      ghost var turn := DumpReader(ranges, file);
      done := ReadTurns(addr, dest, size, turn);
    }
  }

  lemma {:induction false} HeldStops(table: Table, i: nat, count: nat)
    requires i <= count && Held(table, i) == i && (i < count ==> table(i).None?)
    ensures Held(table, count) == i
    decreases count
  {
    if i < count {
      HeldPast(table, i, count);
    }
  }

  lemma {:induction false} HeldPast(table: Table, i: nat, count: nat)
    requires i < count && Held(table, i) == i && table(i).None?
    ensures Held(table, count) == i
    decreases count
  {
    if i < count - 1 {
      HeldPast(table, i, count - 1);
    }
  }

  method CopyBytes(bytes: seq<byte>, dest: array<byte>, into: nat)
    requires into + |bytes| <= dest.Length
    modifies dest
    ensures dest[..] == Spliced(old(dest[..]), into, bytes)
  {
    forall k | 0 <= k < |bytes| {
      dest[into + k] := bytes[k];
    }
  }
}
