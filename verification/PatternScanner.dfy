/**
 * The chunked scanner: 1 MiB reads that overlap by one byte less than the pattern, a jump to the
 * next occurrence of the first fixed byte, and a cap on the number of hits; and the plain scan of
 * every offset that it has to agree with.
 */
module PatternScanner {
  import opened Common
  import opened ByteMap
  import opened MemorySource
  import opened Pattern

  const CHUNK: nat := 0x10_0000

  datatype Range = Range(base: nat, size: nat)

  // ---------------------------------------------------------------- the plain scan

  /** Position j of the pattern, laid at address a, lies on a readable byte and agrees with it. */
  ghost predicate Agrees(view: View, p: Pattern, a: nat, j: nat)
    requires j < |p.bytes| == |p.mask|
  {
    view(a + j).Some? && (p.mask[j] ==> view(a + j).value == p.bytes[j])
  }

  /** The pattern fits at address a in readable memory and matches there. */
  ghost predicate Hit(view: View, p: Pattern, a: nat)
    requires Valid(p)
  {
    forall j: nat {:trigger Agrees(view, p, a, j)} :: j < |p.bytes| ==> Agrees(view, p, a, j)
  }

  ghost function HitAt(view: View, p: Pattern): nat -> bool
    requires Valid(p)
  {
    (a: nat) => Valid(p) && Hit(view, p, a)
  }

  /** Every hit in [lo, hi), in order: the naive scan. */
  ghost function Hits(hit: nat -> bool, lo: nat, hi: nat): seq<nat>
    decreases hi - lo
  {
    if lo >= hi then [] else (if hit(lo) then [lo] else []) + Hits(hit, lo + 1, hi)
  }

  /** Hits lists the hits of [lo, hi): all of them and nothing else. */
  lemma {:induction false} HitsExact(hit: nat -> bool, lo: nat, hi: nat, a: nat)
    ensures a in Hits(hit, lo, hi) <==> lo <= a < hi && hit(a)
    decreases hi - lo
  {
    if lo < hi {
      HitsExact(hit, lo + 1, hi, a);
      assert Hits(hit, lo, hi) == (if hit(lo) then [lo] else []) + Hits(hit, lo + 1, hi);
    }
  }

  /** Hits lists in ascending order, each once. */
  lemma {:induction false} HitsAscend(hit: nat -> bool, lo: nat, hi: nat)
    ensures Ascending(Hits(hit, lo, hi))
    decreases hi - lo
  {
    if lo < hi {
      HitsAscend(hit, lo + 1, hi);
      var tail := Hits(hit, lo + 1, hi);
      forall j | 0 <= j < |tail| ensures lo < tail[j] {
        HitsExact(hit, lo + 1, hi, tail[j]);
      }
      assert [] + tail == tail;
    }
  }

  ghost predicate Ascending(s: seq<nat>) {
    forall i, j :: 0 <= i < j < |s| ==> s[i] < s[j]
  }

  lemma {:induction false} HitsSplit(hit: nat -> bool, lo: nat, mid: nat, hi: nat)
    requires lo <= mid <= hi
    ensures Hits(hit, lo, hi) == Hits(hit, lo, mid) + Hits(hit, mid, hi)
    decreases mid - lo
  {
    if lo < mid {
      HitsSplit(hit, lo + 1, mid, hi);
    }
  }

  lemma {:induction false} NoHits(hit: nat -> bool, lo: nat, mid: nat, hi: nat)
    requires lo <= mid <= hi
    requires forall a :: lo <= a < mid ==> !hit(a)
    ensures Hits(hit, lo, hi) == Hits(hit, mid, hi)
    decreases mid - lo
  {
    if lo < mid {
      NoHits(hit, lo + 1, mid, hi);
    }
  }

  // ---------------------------------------------------------------- what the chunks cover

  /** The bytes a read of the range asks for at an offset; n is the length of the pattern. */
  function Want(n: nat, range: Range, offset: nat): nat
    requires n > 0 && offset < range.size
  {
    Min(CHUNK + (n - 1), range.size - offset)
  }

  /** The hits of a range from an offset on, chunk by chunk, as the source's reads come back. */
  ghost function RangeHits(view: View, hit: nat -> bool, n: nat, range: Range, offset: nat): seq<nat>
    requires n > 0
    decreases range.size - offset
  {
    if offset >= range.size then []
    else
      var at, want := range.base + offset, Want(n, range, offset);
      var got := |LongestPrefix(view, at, want)|;
      if got < n then RangeHits(view, hit, n, range, offset + (if got > 0 then got else CHUNK))
      else
        Hits(hit, at, at + (got - n + 1)) +
        (if got < want then [] else RangeHits(view, hit, n, range, offset + (got - (n - 1))))
  }

  ghost function AllHits(view: View, hit: nat -> bool, n: nat, ranges: seq<Range>): seq<nat>
    requires n > 0
  {
    if ranges == [] then [] else RangeHits(view, hit, n, ranges[0], 0) + AllHits(view, hit, n, ranges[1..])
  }

  // ---------------------------------------------------------------- inside one chunk

  /** hit says of every address whether the pattern hits there. */
  ghost predicate Names(hit: nat -> bool, view: View, p: Pattern)
    requires Valid(p)
  {
    forall a: nat {:trigger Hit(view, p, a)} :: hit(a) <==> Hit(view, p, a)
  }

  /** memchr: the first place in [from, to) that holds b, or `to`. */
  method FindByte(buffer: array<byte>, from: nat, to: nat, b: byte) returns (k: nat)
    requires from <= to <= buffer.Length
    ensures from <= k <= to && (k < to ==> buffer[k] == b)
    ensures b !in buffer[from..k]
  {
    k := from;
    while k < to && buffer[k] != b
      invariant from <= k <= to
      invariant b !in buffer[from..k]
    {
      assert buffer[from..k + 1] == buffer[from..k] + [buffer[k]];
      k := k + 1;
    }
  }

  /** Inside what was read, the buffer decides. */
  lemma BufferDecides(view: View, p: Pattern, data: seq<byte>, at: nat, k: nat, j: nat)
    requires j < |p.bytes| == |p.mask| && k + j < |data| && Shows(view, at, data)
    ensures Agrees(view, p, at + k, j) <==> (p.mask[j] ==> data[k + j] == p.bytes[j])
  {
    var a := at + k + j;
    assert At(view, a) == Some(data[a - at]);
  }

  /** Pattern::MatchesAt, on bytes read at address `at`: it decides a hit. */
  method MatchesAt(ghost view: View, p: Pattern, buffer: array<byte>, ghost data: seq<byte>, ghost at: nat, k: nat)
    returns (r: bool)
    requires Valid(p) && k + |p.bytes| <= |data| <= buffer.Length
    requires data == buffer[..|data|] && Shows(view, at, data)
    ensures r <==> Hit(view, p, at + k)
  {
    for i := 0 to |p.bytes|
      invariant forall j: nat {:trigger Agrees(view, p, at + k, j)} :: j < i ==> Agrees(view, p, at + k, j)
    {
      BufferDecides(view, p, data, at, k, i);
      if p.mask[i] && buffer[k + i] != p.bytes[i] {
        return false;
      }
    }
    return true;
  }

  /** No hit lies before the next place that holds the first fixed byte. */
  lemma JumpedOver(hit: nat -> bool, view: View, p: Pattern, data: seq<byte>, at: nat, i: nat, stop: nat)
    requires Valid(p) && Names(hit, view, p)
    requires Shows(view, at, data) && i <= stop && stop + |p.bytes| <= |data| + 1
    requires p.bytes[p.firstFixed] !in data[i + p.firstFixed..stop + p.firstFixed]
    ensures forall a :: at + i <= a < at + stop ==> !hit(a)
  {
    var passed := data[i + p.firstFixed..stop + p.firstFixed];
    forall a | at + i <= a < at + stop ensures !hit(a) {
      var k := a - at;
      assert passed[k - i] == data[k + p.firstFixed];
      BufferDecides(view, p, data, at, k, p.firstFixed);
      assert !Hit(view, p, at + k);
    }
  }

  /** memchr from place i on: the next candidate, or the end when the first fixed byte does not come again. */
  method NextCandidate(ghost hit: nat -> bool, ghost view: View, p: Pattern, buffer: array<byte>, got: nat,
                       ghost at: nat, i: nat)
    returns (candidate: nat)
    requires Valid(p) && Names(hit, view, p)
    requires i + |p.bytes| <= got <= buffer.Length && Shows(view, at, buffer[..got])
    ensures i <= candidate <= got - |p.bytes| + 1
    ensures forall a :: at + i <= a < at + candidate ==> !hit(a)
  {
    var found := FindByte(buffer, i + p.firstFixed, got, p.bytes[p.firstFixed]);
    candidate := Min(found - p.firstFixed, got - |p.bytes| + 1);
    ghost var data := buffer[..got];
    assert data[i + p.firstFixed..candidate + p.firstFixed] <= buffer[i + p.firstFixed..found];
    JumpedOver(hit, view, p, data, at, i, candidate);
  }

  /** What is still to be found from lo on, once everything passed over and the candidate are dealt with. */
  lemma CandidateNext(hit: nat -> bool, all: seq<nat>, r: seq<nat>, rest: seq<nat>, lo: nat, candidate: nat, hi: nat)
    returns (rest': seq<nat>)
    requires lo <= candidate < hi && rest == Hits(hit, lo, hi) && all == r + rest
    requires forall a :: lo <= a < candidate ==> !hit(a)
    ensures rest' == Hits(hit, candidate + 1, hi)
    ensures all == (if hit(candidate) then r + [candidate] else r) + rest'
  {
    NoHits(hit, lo, candidate, hi);
    rest' := Hits(hit, candidate + 1, hi);
    Taken(r, hit(candidate), candidate, rest', rest, all);
  }

  lemma Taken(r: seq<nat>, found: bool, candidate: nat, later: seq<nat>, rest: seq<nat>, all: seq<nat>)
    requires all == r + rest && rest == (if found then [candidate] else []) + later
    ensures all == (if found then r + [candidate] else r) + later
  {
    assert r + ([candidate] + later) == r + [candidate] + later;
    assert [] + later == later;
  }

  lemma NoCandidate(hit: nat -> bool, lo: nat, hi: nat)
    requires lo <= hi
    requires forall a :: lo <= a < hi ==> !hit(a)
    ensures Hits(hit, lo, hi) == []
  {
    NoHits(hit, lo, hi, hi);
  }

  /** The hits so far against all there are to find: all of them, or the first cap when it was reached. */
  ghost predicate Collected(r: seq<nat>, full: bool, cap: nat, all: seq<nat>) {
    if full then 0 < cap == |r| && r <= all else r == all && (cap == 0 || |r| < cap)
  }

  /** The scan of one chunk: `got` bytes were read at `at`; only the places where the pattern fits count. */
  method ScanChunk(ghost hit: nat -> bool, ghost view: View, p: Pattern, buffer: array<byte>, got: nat, at: nat,
                   ghost data: seq<byte>, ghost chunk: seq<nat>, cap: nat, hits: seq<nat>)
    returns (r: seq<nat>, full: bool)
    requires Valid(p) && Names(hit, view, p)
    requires |p.bytes| <= got <= buffer.Length && data == buffer[..got] && Shows(view, at, data)
    requires chunk == Hits(hit, at, at + (got - |p.bytes| + 1)) && (cap == 0 || |hits| < cap)
    ensures Collected(r, full, cap, hits + chunk)
  {
    r, full := hits, false;
    var limit := got - |p.bytes| + 1;
    ghost var hi := at + limit;
    ghost var rest := chunk;
    ghost var all := hits + chunk;
    var i := 0;
    while i < limit
      invariant i <= limit && (cap == 0 || |r| < cap)
      invariant rest == Hits(hit, at + i, hi) && all == r + rest
    {
      var candidate := NextCandidate(hit, view, p, buffer, got, at, i);
      if candidate >= limit {
        NoCandidate(hit, at + i, hi);
        assert r + [] == r;
        return;
      }
      rest := CandidateNext(hit, all, r, rest, at + i, at + candidate, hi);
      var matches := MatchesAt(view, p, buffer, data, at, candidate);
      if matches {
        r := r + [at + candidate];
        if cap > 0 && |r| >= cap {
          return r, true;
        }
      }
      i := candidate + 1;
    }
    assert r + [] == r;
  }

  // ---------------------------------------------------------------- ranges

  /** What was collected and what is still to come against all there are: or the first cap were reached. */
  ghost predicate Stands(r: seq<nat>, full: bool, cap: nat, later: seq<nat>, all: seq<nat>) {
    if full then Collected(r, true, cap, all) else all == r + later && (cap == 0 || |r| < cap)
  }

  lemma StandsDone(r: seq<nat>, full: bool, cap: nat, all: seq<nat>)
    requires Stands(r, full, cap, [], all)
    ensures Collected(r, full, cap, all)
  {
    assert r + [] == r;
  }

  /** What was collected from `some` of the hits to come, seen against all of them. */
  lemma CollectedMore(was: seq<nat>, r: seq<nat>, full: bool, cap: nat, some: seq<nat>, rest: seq<nat>, all: seq<nat>)
    requires Collected(r, full, cap, was + some) && Stands(was, false, cap, some + rest, all)
    ensures Stands(r, full, cap, rest, all)
  {
    assert was + (some + rest) == was + some + rest;
  }

  lemma NothingMore(r: seq<nat>, cap: nat, rest: seq<nat>, all: seq<nat>)
    requires Stands(r, false, cap, [] + rest, all)
    ensures Stands(r, false, cap, rest, all)
  {
    assert [] + rest == rest;
  }

  /** after gives the hits of the range from every offset on. */
  ghost predicate Gives(after: nat -> seq<nat>, view: View, hit: nat -> bool, n: nat, range: Range)
    requires n > 0
  {
    forall o: nat {:trigger RangeHits(view, hit, n, range, o)} :: after(o) == RangeHits(view, hit, n, range, o)
  }

  lemma NothingAfter(after: nat -> seq<nat>, view: View, hit: nat -> bool, n: nat, range: Range, offset: nat)
    requires n > 0 && Gives(after, view, hit, n, range) && offset >= range.size
    ensures after(offset) == []
  {
    assert RangeHits(view, hit, n, range, offset) == [];
  }

  /** What a chunk of which `got` bytes were read leaves for later. */
  ghost predicate Leaves(after: nat -> seq<nat>, n: nat, range: Range, offset: nat, got: nat, later: seq<nat>)
    requires n > 0 && offset < range.size
  {
    if got < n then later == after(offset + (if got > 0 then got else CHUNK))
    else if got < Want(n, range, offset) then later == []
    else later == after(offset + (got - (n - 1)))
  }

  /** One chunk of a range taken off the front of what is left of it. */
  lemma ChunkNext(after: nat -> seq<nat>, view: View, hit: nat -> bool, n: nat, range: Range, offset: nat, got: nat)
    returns (chunk: seq<nat>, later: seq<nat>)
    requires n > 0 && offset < range.size && Gives(after, view, hit, n, range)
    requires got == |LongestPrefix(view, range.base + offset, Want(n, range, offset))|
    ensures chunk == if got < n then [] else Hits(hit, range.base + offset, range.base + offset + (got - n + 1))
    ensures after(offset) == chunk + later && Leaves(after, n, range, offset, got, later)
  {
    var all := RangeHits(view, hit, n, range, offset);
    if got < n {
      chunk, later := [], RangeHits(view, hit, n, range, offset + (if got > 0 then got else CHUNK));
      assert [] + later == later;
    } else {
      chunk := Hits(hit, range.base + offset, range.base + offset + (got - n + 1));
      later := if got < Want(n, range, offset) then [] else RangeHits(view, hit, n, range, offset + (got - (n - 1)));
    }
  }

  /** Where what is left for later starts, when there is anything. */
  lemma LaterStarts(after: nat -> seq<nat>, n: nat, range: Range, offset: nat, got: nat, later: seq<nat>)
    returns (next: nat)
    requires n > 0 && offset < range.size && Leaves(after, n, range, offset, got, later)
    ensures next > offset && (later == [] || later == after(next))
  {
    next := if got < n then offset + (if got > 0 then got else CHUNK) else offset + (got - (n - 1));
  }

  /** One read into the start of the buffer, and the hits it brings in reach. */
  method ReadChunk(ghost hit: nat -> bool, ghost view: View, ghost after: nat -> seq<nat>, mem: Provider, n: nat,
                   range: Range, offset: nat, buffer: array<byte>)
    returns (got: nat, ghost data: seq<byte>, ghost chunk: seq<nat>, ghost later: seq<nat>)
    requires n > 0 && Gives(after, view, hit, n, range) && view == MemView(mem.mem)
    requires buffer.Length == CHUNK + (n - 1) && offset < range.size
    modifies buffer
    ensures got <= Want(n, range, offset) && data == buffer[..got] && Shows(view, range.base + offset, data)
    ensures chunk == if got < n then [] else Hits(hit, range.base + offset, range.base + offset + (got - n + 1))
    ensures after(offset) == chunk + later && Leaves(after, n, range, offset, got, later)
  {
    got := mem.Read(range.base + offset, buffer, 0, Want(n, range, offset));
    data := LongestPrefix(view, range.base + offset, Want(n, range, offset));
    chunk, later := ChunkNext(after, view, hit, n, range, offset, got);
  }

  /** One chunk of a range: its hits, and where the next chunk starts, unless this was the last. */
  method ScanNext(ghost hit: nat -> bool, ghost view: View, ghost after: nat -> seq<nat>, mem: Provider, p: Pattern,
                  range: Range, offset: nat, buffer: array<byte>, cap: nat, hits: seq<nat>, ghost all: seq<nat>)
    returns (r: seq<nat>, full: bool, last: bool, next: nat)
    requires Valid(p) && Names(hit, view, p) && Gives(after, view, hit, |p.bytes|, range) && view == MemView(mem.mem)
    requires buffer.Length == CHUNK + (|p.bytes| - 1) && offset < range.size
    requires Stands(hits, false, cap, after(offset), all)
    modifies buffer
    ensures Stands(r, full, cap, if last then [] else after(next), all) && next > offset
  {
    ghost var data, chunk, rest;
    var got;
    got, data, chunk, rest, last, next := ReadOn(hit, view, after, mem, |p.bytes|, range, offset, buffer);
    r, full := Collect(hit, view, p, buffer, got, range.base + offset, data, chunk, cap, hits, rest, after(offset),
                       all);
  }

  /** One read, the hits it brings in reach, and where the scan goes on, when it does. */
  method ReadOn(ghost hit: nat -> bool, ghost view: View, ghost after: nat -> seq<nat>, mem: Provider, n: nat,
                range: Range, offset: nat, buffer: array<byte>)
    returns (got: nat, ghost data: seq<byte>, ghost chunk: seq<nat>, ghost later: seq<nat>, last: bool, next: nat)
    requires n > 0 && Gives(after, view, hit, n, range) && view == MemView(mem.mem)
    requires buffer.Length == CHUNK + (n - 1) && offset < range.size
    modifies buffer
    ensures got <= buffer.Length && data == buffer[..got] && Shows(view, range.base + offset, data)
    ensures ChunkHits(hit, n, range.base + offset, got, chunk) && after(offset) == chunk + later
    ensures next > offset && later == if last then [] else after(next)
  {
    got, data, chunk, later := ReadChunk(hit, view, after, mem, n, range, offset, buffer);
    last, next := Onwards(after, n, range, offset, got, later);
  }

  /** The hits in reach of what was read. */
  ghost predicate ChunkHits(hit: nat -> bool, n: nat, at: nat, got: nat, chunk: seq<nat>) {
    chunk == if got < n then [] else Hits(hit, at, at + (got - n + 1))
  }

  /** The hits of what was read, when it can hold the pattern, seen against all there is to find. */
  method Collect(ghost hit: nat -> bool, ghost view: View, p: Pattern, buffer: array<byte>, got: nat, at: nat,
                 ghost data: seq<byte>, ghost chunk: seq<nat>, cap: nat, hits: seq<nat>, ghost rest: seq<nat>,
                 ghost coming: seq<nat>, ghost all: seq<nat>)
    returns (r: seq<nat>, full: bool)
    requires Valid(p) && Names(hit, view, p)
    requires got <= buffer.Length && data == buffer[..got] && Shows(view, at, data)
    requires ChunkHits(hit, |p.bytes|, at, got, chunk)
    requires coming == chunk + rest && Stands(hits, false, cap, coming, all)
    ensures Stands(r, full, cap, rest, all)
  {
    if got < |p.bytes| {
      NothingMore(hits, cap, rest, all);
      r, full := hits, false;
    } else {
      r, full := ScanChunk(hit, view, p, buffer, got, at, data, chunk, cap, hits);
      CollectedMore(hits, r, full, cap, chunk, rest, all);
    }
  }

  /** Where the scan goes on, when it does: a read that came back short but not too short is the last. */
  method Onwards(ghost after: nat -> seq<nat>, n: nat, range: Range, offset: nat, got: nat, ghost later: seq<nat>)
    returns (last: bool, next: nat)
    requires n > 0 && offset < range.size && Leaves(after, n, range, offset, got, later)
    ensures next > offset && later == if last then [] else after(next)
  {
    if got < n {
      last, next := false, offset + if got > 0 then got else CHUNK;
    } else {
      last, next := got < Want(n, range, offset), offset + (got - (n - 1));
    }
  }

  /** The chunks of one range, in one buffer. */
  method ScanRange(ghost hit: nat -> bool, ghost view: View, ghost after: nat -> seq<nat>, mem: Provider, p: Pattern,
                   range: Range, buffer: array<byte>, cap: nat, hits: seq<nat>)
    returns (r: seq<nat>, full: bool)
    requires Valid(p) && Names(hit, view, p) && Gives(after, view, hit, |p.bytes|, range) && view == MemView(mem.mem)
    requires buffer.Length == CHUNK + (|p.bytes| - 1)
    requires cap == 0 || |hits| < cap
    modifies buffer
    ensures Collected(r, full, cap, hits + after(0))
  {
    var offset := 0;
    ghost var all := hits + after(0);
    r, full := hits, false;
    while offset < range.size
      invariant !full && Stands(r, false, cap, after(offset), all)
      decreases range.size - offset
    {
      var last, next;
      r, full, last, next := ScanNext(hit, view, after, mem, p, range, offset, buffer, cap, r, all);
      if full || last {
        StandsDone(r, full, cap, all);
        return;
      }
      offset := next;
    }
    NothingAfter(after, view, hit, |p.bytes|, range, offset);
    StandsDone(r, full, cap, all);
  }
}
