/**
 * The direct-mapped page cache as a value: what each operation does to the slots, and what that
 * means over whole runs. CachedMemorySource carries the same operations out on its arrays.
 */
module PageCache {
  import opened Common
  import opened ByteMap
  import opened MemorySource

  const PAGE: nat := 4096
  const PAGES: nat := SPACE / PAGE
  const INVALID_TAG: nat := SPACE - 1

  /** One slot: the page it holds, how many of its bytes are good, and the bytes themselves. */
  datatype Slot = Slot(tag: nat, good: nat, bytes: seq<byte>)

  type Cache = seq<Slot>

  ghost predicate WellFormed(c: Cache) {
    |c| > 0 && forall s :: 0 <= s < |c| ==> |c[s].bytes| == PAGE && c[s].good <= PAGE
  }

  /** The slot of a page in a cache of that many slots: the pages are dealt out in turn. */
  function SlotOf(page: nat, slots: nat): (r: nat)
    requires slots > 0
    ensures r < slots
    decreases page
  {
    if page < slots then page else SlotOf(page - slots, slots)
  }

  /** cur & (kPageSize - 1) */
  function InPage(a: nat): (r: nat)
    ensures r < PAGE
  {
    if a < PAGE then a else InPage(a - PAGE)
  }

  /** cur >> kPageShift */
  function PageOf(a: nat): nat { Shifted(Wrap(a)) }

  function Shifted(a: nat): nat { if a < PAGE then 0 else 1 + Shifted(a - PAGE) }

  lemma PageBits(a: nat)
    ensures InPage(a) == a % PAGE && Shifted(a) == a / PAGE
  {
    if a >= PAGE {
      PageBits(a - PAGE);
    }
  }

  /** The readable bytes at the start of a page. */
  ghost function PagePrefix(m: Memory, page: nat): seq<byte> { InnerRead(m, page * PAGE, PAGE) }

  // ---------------------------------------------------------------- operations

  /** What FetchPage leaves in the slot: a hit nothing new, a miss the page, even when none of it is readable. */
  ghost function Refilled(m: Memory, slot: Slot, page: nat): (r: Slot)
    requires |slot.bytes| == PAGE && slot.good <= PAGE
    ensures |r.bytes| == PAGE && r.good <= PAGE && r.tag == page
  {
    if slot.tag == page then slot
    else
      var got := PagePrefix(m, page);
      Slot(page, |got|, got + slot.bytes[|got|..])
  }

  /** FetchPage */
  ghost function Fetched(m: Memory, c: Cache, page: nat): (r: Cache)
    requires WellFormed(c)
    ensures WellFormed(r) && |r| == |c| && r[SlotOf(page, |c|)].tag == page
  {
    c[SlotOf(page, |c|) := Refilled(m, c[SlotOf(page, |c|)], page)]
  }

  /** What a slot delivers from byte inPage on: it stops where the page stopped being readable. */
  function Chunk(slot: Slot, inPage: nat, want: nat): (r: seq<byte>)
    requires slot.good <= |slot.bytes|
    ensures |r| <= want
  {
    if inPage >= slot.good then [] else slot.bytes[inPage..Min(inPage + want, slot.good)]
  }

  /** The bytes still wanted that lie in the page of cur. */
  function Want(cur: nat, size: nat): nat { Min(size, PAGE - InPage(cur)) }

  /** One turn of the read loop: the part of the answer that lies in the page of cur. */
  ghost function TurnBytes(m: Memory, c: Cache, cur: nat, size: nat): (r: seq<byte>)
    requires WellFormed(c)
    ensures |r| <= Want(cur, size)
  {
    Chunk(Refilled(m, c[SlotOf(PageOf(cur), |c|)], PageOf(cur)), InPage(cur), Want(cur, size))
  }

  /** The read loop between turns: the slots, the bytes copied so far, whether it broke off. */
  datatype Loop = Loop(cache: Cache, out: seq<byte>, broke: bool)

  ghost function Turn(m: Memory, at: nat, size: nat, l: Loop): (r: Loop)
    requires WellFormed(l.cache) && |l.out| < size
    ensures WellFormed(r.cache) && |r.cache| == |l.cache| && |l.out| <= |r.out| <= size
    ensures r.broke || |l.out| < |r.out|
  {
    var cur, left := at + |l.out|, size - |l.out|;
    var chunk := TurnBytes(m, l.cache, cur, left);
    Loop(Fetched(m, l.cache, PageOf(cur)), l.out + chunk, |chunk| < Want(cur, left))
  }

  ghost function LoopEnd(m: Memory, at: nat, size: nat, l: Loop): (r: Loop)
    requires WellFormed(l.cache) && |l.out| <= size
    ensures WellFormed(r.cache) && |r.cache| == |l.cache| && |r.out| <= size
    decreases !l.broke, size - |l.out|
  {
    if l.broke || |l.out| == size then l else LoopEnd(m, at, size, Turn(m, at, size, l))
  }

  /** Read: the bytes delivered and the slots left behind. */
  ghost function CachedRead(m: Memory, c: Cache, at: nat, size: nat): (r: Loop)
    requires WellFormed(c)
    ensures WellFormed(r.cache) && |r.cache| == |c| && |r.out| <= size
  {
    LoopEnd(m, at, size, Loop(c, [], false))
  }

  function Dropped(slot: Slot): Slot { slot.(tag := INVALID_TAG) }

  /** Invalidate: every tag is dropped. */
  function Emptied(c: Cache): (r: Cache) {
    seq(|c|, s requires 0 <= s < |c| => Dropped(c[s]))
  }

  /** The pages InvalidateRange walks: none when the byte count wraps the end below the start. */
  function FirstPage(at: nat): nat { Shifted(at) }

  function LastPage(at: nat, size: nat): nat { Shifted(Wrap(at + size + SPACE - 1)) }

  /** InvalidateRange: a slot loses its tag when it holds one of the pages first..last. */
  function RangeDropped(c: Cache, first: nat, last: nat): (r: Cache) {
    seq(|c|, s requires 0 <= s < |c| =>
      if first <= c[s].tag <= last && SlotOf(c[s].tag, |c|) == s then Dropped(c[s]) else c[s])
  }

  // ---------------------------------------------------------------- what is held is not read again

  /** The page of the address is in its slot, even as a page none of which could be read. */
  ghost predicate Live(c: Cache, a: nat)
    requires WellFormed(c)
  {
    c[SlotOf(PageOf(a), |c|)].tag == PageOf(a)
  }

  lemma LiveTurn(m: Memory, at: nat, size: nat, l: Loop)
    requires WellFormed(l.cache) && |l.out| < size && Live(l.cache, at + |l.out|)
    ensures forall n {:trigger Turn(n, at, size, l)} :: Turn(n, at, size, l) == Turn(m, at, size, l)
    ensures Turn(m, at, size, l).cache == l.cache
  {
    var page := PageOf(at + |l.out|);
    assert forall n {:trigger Fetched(n, l.cache, page)} :: Fetched(n, l.cache, page) == l.cache;
  }

  lemma {:induction false} LiveLoop(m: Memory, n: Memory, at: nat, size: nat, l: Loop)
    requires WellFormed(l.cache) && |l.out| <= size
    requires forall a: nat {:trigger Live(l.cache, a)} :: at <= a < at + size ==> Live(l.cache, a)
    ensures LoopEnd(n, at, size, l) == LoopEnd(m, at, size, l) && LoopEnd(m, at, size, l).cache == l.cache
    decreases !l.broke, size - |l.out|
  {
    if !l.broke && |l.out| < size {
      assert Live(l.cache, at + |l.out|);
      LiveTurn(m, at, size, l);
      assert Turn(n, at, size, l) == Turn(m, at, size, l);
      LiveLoop(m, n, at, size, Turn(m, at, size, l));
    }
  }

  /** What the cache is for: a read of pages it holds does not depend on memory, and leaves the cache alone. */
  lemma HeldPagesAnswer(m: Memory, n: Memory, c: Cache, at: nat, size: nat)
    requires WellFormed(c)
    requires forall a: nat {:trigger Live(c, a)} :: at <= a < at + size ==> Live(c, a)
    ensures CachedRead(n, c, at, size) == CachedRead(m, c, at, size) && CachedRead(m, c, at, size).cache == c
  {
    LiveLoop(m, n, at, size, Loop(c, [], false));
  }

  /** A read inside one page, once done, is answered from the cache, whatever has become of memory since. */
  lemma ReadAgain(m: Memory, n: Memory, c: Cache, at: nat, size: nat)
    requires WellFormed(c) && 0 < size && at % PAGE + size <= PAGE
    ensures var first := CachedRead(m, c, at, size);
            CachedRead(n, first.cache, at, size).out == first.out
  {
    OneTurn(m, c, at, size);
    OneTurn(n, Fetched(m, c, PageOf(at)), at, size);
    FetchedHits(m, n, c, PageOf(at));
  }

  /** A page fetched is not fetched again. */
  lemma FetchedHits(m: Memory, n: Memory, c: Cache, page: nat)
    requires WellFormed(c)
    ensures var slot := Refilled(m, c[SlotOf(page, |c|)], page);
            && Refilled(n, Fetched(m, c, page)[SlotOf(page, |c|)], page) == slot
            && Fetched(n, Fetched(m, c, page), page) == Fetched(m, c, page)
  {
    var slot := Refilled(m, c[SlotOf(page, |c|)], page);
    assert Fetched(m, c, page)[SlotOf(page, |c|)] == slot;
  }

  lemma OneTurn(m: Memory, c: Cache, at: nat, size: nat)
    requires WellFormed(c) && 0 < size && at % PAGE + size <= PAGE
    ensures CachedRead(m, c, at, size).cache == Fetched(m, c, PageOf(at))
    ensures CachedRead(m, c, at, size).out == TurnBytes(m, c, at, size)
  {
    PageBits(at);
    var l := Turn(m, at, size, Loop(c, [], false));
    assert LoopEnd(m, at, size, l) == l;
  }

  // ---------------------------------------------------------------- one read against memory

  /** A live slot shows the page it is tagged with, as memory m holds it. */
  ghost predicate SlotShows(c: Cache, s: nat, m: Memory)
    requires WellFormed(c) && s < |c|
  {
    && c[s].tag < PAGES && SlotOf(c[s].tag, |c|) == s
    && c[s].bytes[..c[s].good] == PagePrefix(m, c[s].tag)
  }

  /** The cache agrees with memory m. */
  ghost predicate Coherent(c: Cache, m: Memory)
    requires WellFormed(c)
  {
    forall s {:trigger SlotShows(c, s, m)} :: 0 <= s < |c| && c[s].tag != INVALID_TAG ==> SlotShows(c, s, m)
  }

  /** Memory seen a page at a time: within a page nothing past its first unreadable byte. */
  ghost function PageView(m: Memory): View {
    (a: nat) => if InPage(a) < |PagePrefix(m, PageOf(a))| then MemView(m)(a) else None
  }

  lemma WrapKeepsPageOffset(a: nat)
    ensures Wrap(a) % PAGE == a % PAGE
  {
    if a >= SPACE {
      WrapKeepsPageOffset(a - SPACE);
    }
  }

  lemma PageArithmetic(cur: nat, k: nat)
    requires cur % PAGE + k < PAGE
    ensures InPage(cur) == cur % PAGE && InPage(cur + k) == cur % PAGE + k
    ensures PageOf(cur + k) == PageOf(cur) < PAGES
    ensures (cur + k) % PAGE == cur % PAGE + k
    ensures Wrap(cur + k) == PageOf(cur) * PAGE + cur % PAGE + k
  {
    WrapKeepsPageOffset(cur);
    WithinPage(cur, k);
    WithinPage(Wrap(cur), k);
    InSpace(Wrap(cur), k);
    WrapStep(cur, k);
    PageBits(cur);
    PageBits(cur + k);
    PageBits(Wrap(cur));
    PageBits(Wrap(cur) + k);
  }

  /** Inside a page only the offset in it changes. */
  lemma WithinPage(a: nat, k: nat)
    requires a % PAGE + k < PAGE
    ensures (a + k) % PAGE == a % PAGE + k && (a + k) / PAGE == a / PAGE && a == a / PAGE * PAGE + a % PAGE
  {
  }

  /** No page reaches past the address space. */
  lemma InSpace(a: nat, k: nat)
    requires a < SPACE && a % PAGE + k < PAGE
    ensures a + k < SPACE && a / PAGE < PAGES
  {
  }

  /** At a, in the page that starts at address u, the view shows the page's readable start `good`. */
  ghost predicate ShowsPage(view: View, u: nat, good: seq<byte>, a: nat)
    requires u <= a
  {
    view(a) == if a - u < |good| then Some(good[a - u]) else None
  }

  lemma SameAddress(m: Memory, a: nat, b: nat)
    requires Wrap(a) == Wrap(b)
    ensures MemView(m)(a) == MemView(m)(b)
  {
  }

  lemma PageByte(m: Memory, page: nat, k: nat)
    requires page < PAGES && k < |PagePrefix(m, page)|
    ensures MemView(m)(page * PAGE + k) == Some(PagePrefix(m, page)[k])
  {
    var shown := At(MemView(m), page * PAGE + k);
  }

  lemma PagewiseAt(m: Memory, a: nat, page: nat, k: nat)
    requires InPage(a) == k && PageOf(a) == page
    ensures PageView(m)(a) == if k < |PagePrefix(m, page)| then MemView(m)(a) else None
  {
  }

  lemma PagewiseByte(m: Memory, page: nat, k: nat, a: nat)
    requires page < PAGES && InPage(a) == k && PageOf(a) == page && Wrap(a) == page * PAGE + k < SPACE
    ensures var good := PagePrefix(m, page);
            && PageView(m)(a) == (if k < |good| then Some(good[k]) else None)
            && (k < |good| ==> MemView(m)(a) == Some(good[k]))
  {
    PagewiseAt(m, a, page, k);
    if k < |PagePrefix(m, page)| {
      PageByte(m, page, k);
      SameAddress(m, a, page * PAGE + k);
    }
  }

  lemma PageWindow(m: Memory, u: nat, a: nat)
    requires u % PAGE == 0 && u <= a < u + PAGE
    ensures PageOf(a) == PageOf(u)
    ensures ShowsPage(PageView(m), u, PagePrefix(m, PageOf(u)), a)
    ensures a - u < |PagePrefix(m, PageOf(u))| ==> MemView(m)(a) == Some(PagePrefix(m, PageOf(u))[a - u])
  {
    var page, k := PageOf(u), a - u;
    PageArithmetic(u, k);
    PagewiseByte(m, page, k, a);
  }

  /** A view that shows `good` and then nothing in a window delivers the matching slice of it. */
  lemma WindowPrefix(view: View, u: nat, len: nat, good: seq<byte>, cur: nat, want: nat)
    requires |good| <= len && u <= cur && cur + want <= u + len
    requires forall a: nat {:trigger ShowsPage(view, u, good, a)} ::
               u <= a < u + len ==> ShowsPage(view, u, good, a)
    ensures LongestPrefix(view, cur, want) ==
            if cur - u >= |good| then [] else good[cur - u..Min(cur - u + want, |good|)]
  {
    var chunk := if cur - u >= |good| then [] else good[cur - u..Min(cur - u + want, |good|)];
    forall a: nat {:trigger At(view, a)} | cur <= a < cur + |chunk| ensures At(view, a) == Some(chunk[a - cur]) {
      assert ShowsPage(view, u, good, a);
    }
    if |chunk| < want {
      assert ShowsPage(view, u, good, cur + |chunk|);
    }
    PrefixUnique(view, cur, want, chunk);
  }

  /** The bytes a page has to offer from cur on are what the page-wise view shows there. */
  lemma ChunkExact(m: Memory, u: nat, cur: nat, want: nat)
    requires u % PAGE == 0 && u <= cur && cur + want <= u + PAGE
    ensures LongestPrefix(PageView(m), cur, want) ==
            var good := PagePrefix(m, PageOf(u));
            if cur - u >= |good| then [] else good[cur - u..Min(cur - u + want, |good|)]
  {
    var view, good := PageView(m), PagePrefix(m, PageOf(u));
    forall a: nat {:trigger ShowsPage(view, u, good, a)} | u <= a < u + PAGE ensures ShowsPage(view, u, good, a) {
      PageWindow(m, u, a);
    }
    WindowPrefix(view, u, PAGE, good, cur, want);
  }

  lemma FetchedCoherent(c: Cache, m: Memory, page: nat)
    requires WellFormed(c) && Coherent(c, m) && page < PAGES
    ensures Coherent(Fetched(m, c, page), m)
    ensures SlotShows(Fetched(m, c, page), SlotOf(page, |c|), m)
  {
    var r, home := Fetched(m, c, page), SlotOf(page, |c|);
    assert SlotShows(r, home, m) by {
      if c[home].tag == page {
        assert SlotShows(c, home, m);
      } else {
        assert r[home].bytes[..r[home].good] == PagePrefix(m, page);
      }
    }
    forall s | 0 <= s < |r| && r[s].tag != INVALID_TAG ensures SlotShows(r, s, m) {
      if s != home {
        assert SlotShows(c, s, m);
      }
    }
  }

  lemma PageStart(cur: nat) returns (u: nat)
    ensures u % PAGE == 0 && u <= cur && cur - u == InPage(cur)
    ensures PageOf(u) == PageOf(cur) < PAGES
  {
    PageArithmetic(cur, 0);
    u := cur - InPage(cur);
    PageArithmetic(u, cur - u);
  }

  /** A slot that shows a page delivers the page's bytes. */
  lemma SlotChunk(slot: Slot, inPage: nat, want: nat, good: seq<byte>)
    requires slot.good <= |slot.bytes| && slot.bytes[..slot.good] == good
    ensures Chunk(slot, inPage, want) == if inPage >= |good| then [] else good[inPage..Min(inPage + want, |good|)]
  {
    if inPage < slot.good {
      var end := Min(inPage + want, slot.good);
      assert slot.bytes[..slot.good][inPage..end] == slot.bytes[inPage..end];
    }
  }

  /** One turn on a coherent cache delivers what the page-wise view shows in the page of cur. */
  lemma TurnExact(m: Memory, c: Cache, cur: nat, size: nat)
    requires WellFormed(c) && Coherent(c, m)
    ensures TurnBytes(m, c, cur, size) == LongestPrefix(PageView(m), cur, Want(cur, size))
    ensures Coherent(Fetched(m, c, PageOf(cur)), m)
  {
    var page, inPage, want := PageOf(cur), InPage(cur), Want(cur, size);
    var u := PageStart(cur);
    FetchedCoherent(c, m, page);
    var slot := Refilled(m, c[SlotOf(page, |c|)], page);
    assert Fetched(m, c, page)[SlotOf(page, |c|)] == slot;
    SlotChunk(slot, inPage, want, PagePrefix(m, page));
    ChunkExact(m, u, cur, want);
  }

  /** One turn at cur delivers what the view shows in the page of cur, and keeps the cache coherent. */
  ghost predicate TurnShows(view: View, m: Memory, c: Cache, cur: nat, size: nat)
    requires WellFormed(c)
  {
    && TurnBytes(m, c, cur, size) == LongestPrefix(view, cur, Want(cur, size))
    && Coherent(Fetched(m, c, PageOf(cur)), m)
  }

  /** If every turn on a coherent cache delivers what a view shows, so does the loop. */
  lemma {:induction false} TurnsAddUp(view: View, m: Memory, at: nat, size: nat, l: Loop)
    requires WellFormed(l.cache) && Coherent(l.cache, m)
    requires !l.broke && |l.out| <= size && l.out == LongestPrefix(view, at, |l.out|)
    requires forall c', cur', size' {:trigger TurnShows(view, m, c', cur', size')} ::
               WellFormed(c') && Coherent(c', m) ==> TurnShows(view, m, c', cur', size')
    ensures LoopEnd(m, at, size, l).out == LongestPrefix(view, at, size)
    ensures Coherent(LoopEnd(m, at, size, l).cache, m)
    decreases size - |l.out|
  {
    if |l.out| < size {
      var cur, left := at + |l.out|, size - |l.out|;
      assert TurnShows(view, m, l.cache, cur, left);
      var next := Turn(m, at, size, l);
      PrefixAssemble(view, at, |l.out|, |l.out| + Want(cur, left), l.out, TurnBytes(m, l.cache, cur, left), next.out);
      if next.broke {
        PrefixAssemble(view, at, |l.out| + Want(cur, left), size, next.out, [], next.out);
      } else {
        TurnsAddUp(view, m, at, size, next);
      }
    }
  }

  /** A read through a coherent cache is a read of memory seen a page at a time. */
  lemma ReadExact(m: Memory, c: Cache, at: nat, size: nat)
    requires WellFormed(c) && Coherent(c, m)
    ensures CachedRead(m, c, at, size).out == LongestPrefix(PageView(m), at, size)
    ensures Coherent(CachedRead(m, c, at, size).cache, m)
  {
    forall c', cur', size' | WellFormed(c') && Coherent(c', m) ensures TurnShows(PageView(m), m, c', cur', size') {
      TurnExact(m, c', cur', size');
    }
    TurnsAddUp(PageView(m), m, at, size, Loop(c, [], false));
  }
}
