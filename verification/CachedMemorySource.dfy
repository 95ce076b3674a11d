/**
 * The page cache as the program keeps it: three vectors updated in place. Every method does to
 * the vectors what the operation of module PageCache does to their value.
 */
module CachedMemorySource {
  import opened Common
  import opened MemorySource
  import opened PageCache
  import opened PageCacheRuns

  /** Bitwise and. */
  function And(a: nat, b: nat): nat {
    if a == 0 || b == 0 then 0 else (if a % 2 == 1 && b % 2 == 1 then 1 else 0) + 2 * And(a / 2, b / 2)
  }

  predicate PowerOfTwo(n: nat) {
    n == 1 || (n > 1 && n % 2 == 0 && PowerOfTwo(n / 2))
  }

  lemma {:induction false} SlotOfDouble(page: nat, half: nat)
    requires half > 0
    ensures SlotOf(page, 2 * half) == page % 2 + 2 * SlotOf(page / 2, half)
    decreases page
  {
    if page >= 2 * half {
      SlotOfDouble(page - 2 * half, half);
      assert (page - 2 * half) / 2 == page / 2 - half;
    }
  }

  /** The mask picks the slot because the number of slots is a power of two. */
  lemma {:induction false} MaskPicksSlot(page: nat, slots: nat)
    requires PowerOfTwo(slots)
    ensures And(page, slots - 1) == SlotOf(page, slots)
    decreases slots
  {
    if slots == 1 {
      OneSlot(page);
    } else {
      MaskPicksSlot(page / 2, slots / 2);
      SlotOfDouble(page, slots / 2);
      assert (slots - 1) / 2 == slots / 2 - 1;
    }
  }

  lemma {:induction false} OneSlot(page: nat)
    ensures SlotOf(page, 1) == 0
  {
    if page >= 1 {
      OneSlot(page - 1);
    }
  }

  // ---------------------------------------------------------------- the vectors as a value

  ghost predicate Matching(tags: seq<nat>, good: seq<nat>, data: seq<byte>) {
    && |tags| == |good| > 0 && |data| == |tags| * PAGE
    && forall s :: 0 <= s < |good| ==> good[s] <= PAGE
  }

  ghost function SlotAt(tags: seq<nat>, good: seq<nat>, data: seq<byte>, s: nat): Slot
    requires Matching(tags, good, data) && s < |tags|
  {
    Slot(tags[s], good[s], data[s * PAGE..s * PAGE + PAGE])
  }

  /** The vectors hold the slots of c. */
  ghost predicate Represents(c: Cache, tags: seq<nat>, good: seq<nat>, data: seq<byte>) {
    && WellFormed(c) && Matching(tags, good, data) && |c| == |tags|
    && forall s: nat {:trigger SlotAt(tags, good, data, s)} :: s < |c| ==> c[s] == SlotAt(tags, good, data, s)
  }

  /** What the vectors hold for one slot. */
  lemma SlotHeld(c: Cache, tags: seq<nat>, good: seq<nat>, data: seq<byte>, slot: nat)
    requires Represents(c, tags, good, data) && slot < |c|
    ensures tags[slot] == c[slot].tag && good[slot] == c[slot].good
    ensures slot * PAGE + PAGE <= |data| && data[slot * PAGE..slot * PAGE + PAGE] == c[slot].bytes
  {
    assert c[slot] == SlotAt(tags, good, data, slot);
  }

  /** Overwriting bytes [at, at + |got|) and looking at a window [from, to) apart from them. */
  lemma WindowApart(before: seq<byte>, after: seq<byte>, at: nat, got: seq<byte>, from: nat, to: nat)
    requires at + |got| <= |before| && from <= to <= |before| && after == Spliced(before, at, got)
    requires to <= at || at + |got| <= from
    ensures after[from..to] == before[from..to]
  {
    forall k | from <= k < to ensures after[k] == before[k] {
      SplicedAt(before, at, got, k);
    }
  }

  /** ... and at a window that begins with them. */
  lemma WindowPatched(before: seq<byte>, after: seq<byte>, at: nat, got: seq<byte>, to: nat)
    requires at + |got| <= to <= |before| && after == Spliced(before, at, got)
    ensures after[at..to] == got + before[at..to][|got|..]
  {
    forall k | at <= k < to ensures after[k] == if k < at + |got| then got[k - at] else before[k] {
      SplicedAt(before, at, got, k);
    }
  }

  /** The refilled slot and any other, after `got` was copied over the start of the refilled one's bytes. */
  lemma SlotPatched(data: seq<byte>, data': seq<byte>, slot: nat, got: seq<byte>, s: nat)
    requires |got| <= PAGE && slot * PAGE + PAGE <= |data| && s * PAGE + PAGE <= |data|
    requires data' == Spliced(data, slot * PAGE, got)
    ensures var was, now := data[s * PAGE..s * PAGE + PAGE], data'[s * PAGE..s * PAGE + PAGE];
            now == if s == slot then got + was[|got|..] else was
  {
    if s == slot {
      WindowPatched(data, data', slot * PAGE, got, slot * PAGE + PAGE);
    } else {
      WindowApart(data, data', slot * PAGE, got, s * PAGE, s * PAGE + PAGE);
    }
  }

  /** One slot after another, or the same, was refilled. */
  lemma OneRefilled(m: Memory, c: Cache, tags: seq<nat>, good: seq<nat>, data: seq<byte>, data': seq<byte>, page: nat,
                    s: nat)
    requires Represents(c, tags, good, data) && tags[SlotOf(page, |tags|)] != page && s < |c|
    requires |data'| == |data| && data' == Spliced(data, SlotOf(page, |tags|) * PAGE, PagePrefix(m, page))
    ensures var slot := SlotOf(page, |tags|);
            && s * PAGE + PAGE <= |data'|
            && Fetched(m, c, page)[s] == Slot(tags[slot := page][s], good[slot := |PagePrefix(m, page)|][s],
                                              data'[s * PAGE..s * PAGE + PAGE])
  {
    SlotHeld(c, tags, good, data, s);
    SlotPatched(data, data', SlotOf(page, |tags|), PagePrefix(m, page), s);
  }

  /** Refilling one slot of the vectors is FetchPage's miss. */
  lemma SlotRefilled(m: Memory, c: Cache, tags: seq<nat>, good: seq<nat>, data: seq<byte>, data': seq<byte>, page: nat)
    requires Represents(c, tags, good, data) && tags[SlotOf(page, |tags|)] != page
    requires data' == Spliced(data, SlotOf(page, |tags|) * PAGE, PagePrefix(m, page))
    ensures var slot := SlotOf(page, |tags|);
            Represents(Fetched(m, c, page), tags[slot := page], good[slot := |PagePrefix(m, page)|], data')
  {
    var slot, got := SlotOf(page, |tags|), PagePrefix(m, page);
    var tags', good' := tags[slot := page], good[slot := |got|];
    forall s: nat | s < |c| ensures Fetched(m, c, page)[s] == SlotAt(tags', good', data', s) {
      OneRefilled(m, c, tags, good, data, data', page, s);
    }
  }

  lemma SlotHit(m: Memory, c: Cache, tags: seq<nat>, good: seq<nat>, data: seq<byte>, page: nat)
    requires Represents(c, tags, good, data) && tags[SlotOf(page, |tags|)] == page
    ensures Fetched(m, c, page) == c
  {
    assert c[SlotOf(page, |c|)] == SlotAt(tags, good, data, SlotOf(page, |c|));
  }

  /** A turn of the loop in terms of the slot it reads from. */
  lemma TurnIs(m: Memory, at: nat, size: nat, l: Loop, c': Cache, out: seq<byte>)
    requires WellFormed(l.cache) && !l.broke && |l.out| < size
    requires var cur := at + |l.out|;
             c' == Fetched(m, l.cache, PageOf(cur)) &&
             out == l.out + Chunk(c'[SlotOf(PageOf(cur), |c'|)], InPage(cur), Want(cur, size - |l.out|))
    ensures var want := Want(at + |l.out|, size - |l.out|);
            LoopEnd(m, at, size, l) == LoopEnd(m, at, size, Loop(c', out, |out| - |l.out| < want))
  {
    var cur := at + |l.out|;
    assert c'[SlotOf(PageOf(cur), |c'|)] == Refilled(m, l.cache[SlotOf(PageOf(cur), |c'|)], PageOf(cur));
    assert Turn(m, at, size, l) == Loop(c', out, |out| - |l.out| < Want(cur, size - |l.out|));
  }

  /** Where in the data vector the chunk of a slot lies. */
  lemma ChunkInData(data: seq<byte>, at: nat, slot: Slot, inPage: nat, want: nat)
    requires at + PAGE <= |data| && data[at..at + PAGE] == slot.bytes && inPage < slot.good <= PAGE
    ensures var n := Min(want, slot.good - inPage);
            Chunk(slot, inPage, want) == data[at + inPage..at + inPage + n]
  {
    var n := Min(want, slot.good - inPage);
    SliceOfSlice(data, at, at + PAGE, inPage, inPage + n);
  }

  /** InvalidateRange half way: the pages from first up to, not including, `page` are gone. */
  ghost function DroppedBelow(c: Cache, first: nat, page: nat): (r: Cache)
    ensures |r| == |c|
  {
    seq(|c|, s requires 0 <= s < |c| =>
      if first <= c[s].tag < page && SlotOf(c[s].tag, |c|) == s then Dropped(c[s]) else c[s])
  }

  lemma DroppedNext(c: Cache, first: nat, page: nat)
    requires WellFormed(c) && first <= page < PAGES
    ensures var r, slot := DroppedBelow(c, first, page), SlotOf(page, |c|);
            DroppedBelow(c, first, page + 1) == if r[slot].tag == page then r[slot := Dropped(r[slot])] else r
  {
  }

  lemma DroppedAll(c: Cache, first: nat, last: nat)
    requires WellFormed(c)
    ensures first <= last ==> DroppedBelow(c, first, last + 1) == RangeDropped(c, first, last)
    ensures DroppedBelow(c, first, first) == c
    ensures first > last ==> RangeDropped(c, first, last) == c
  {
  }

  lemma TagDropped(c: Cache, tags: seq<nat>, good: seq<nat>, data: seq<byte>, slot: nat)
    requires Represents(c, tags, good, data) && slot < |c|
    ensures Represents(c[slot := Dropped(c[slot])], tags[slot := INVALID_TAG], good, data)
  {
    var c', tags' := c[slot := Dropped(c[slot])], tags[slot := INVALID_TAG];
    forall s: nat | s < |c'| ensures c'[s] == SlotAt(tags', good, data, s) {
      assert c[s] == SlotAt(tags, good, data, s);
    }
  }

  class CachedMemorySource {
    const inner: Provider
    var tags: array<nat>
    var good: array<nat>
    var data: array<byte>
    var slotMask: nat
    ghost var cache: Cache   // the slots as a value

    ghost predicate Valid()
      reads this, tags, good, data
    {
      && tags != good
      && Represents(cache, tags[..], good[..], data[..])
      && PowerOfTwo(tags.Length) && slotMask == tags.Length - 1
    }

    constructor (inner: Provider, cacheBytes: nat)
      ensures Valid() && this.inner == inner
      ensures fresh(tags) && fresh(good) && fresh(data)
      ensures forall s :: 0 <= s < |cache| ==> cache[s].tag == INVALID_TAG
      ensures PowerOfTwo(|cache|) && |cache| <= Max(cacheBytes / PAGE, 64) < 2 * |cache|
    {
      var slots := Max(cacheBytes / PAGE, 64);
      var power := 1;
      while power * 2 <= slots
        invariant PowerOfTwo(power) && power <= slots
        decreases slots - power
      {
        power := power * 2;
      }
      slots := power;
      this.inner := inner;
      slotMask := slots - 1;
      tags := new nat[slots](_ => INVALID_TAG);
      good := new nat[slots](_ => 0);
      data := new byte[slots * PAGE](_ => 0);
      new;
      cache := seq(slots, s requires 0 <= s < slots => Slot(INVALID_TAG, 0, seq(PAGE, _ => 0)));
      forall s: nat | s < |cache| ensures cache[s] == SlotAt(tags[..], good[..], data[..], s) {
        assert data[s * PAGE..s * PAGE + PAGE] == seq(PAGE, _ => 0);
      }
    }

    /** The source together with the target it fronts. */
    ghost function State(): World
      requires WellFormed(cache)
      reads this, inner
    {
      World(inner.mem, cache)
    }

    /** The slot's bytes, tag and count come from the page now. */
    method Refill(page: nat, slot: nat)
      requires Valid() && slot == SlotOf(page, tags.Length) && tags[slot] != page
      modifies `cache, tags, good, data
      ensures Valid() && cache == Fetched(inner.mem, old(cache), page)
    {
      ghost var before := (tags[..], good[..], data[..]);
      var got := inner.Read(page * PAGE, data, slot * PAGE, PAGE);
      tags[slot] := page;
      good[slot] := got;
      SlotRefilled(inner.mem, cache, before.0, before.1, before.2, data[..], page);
      cache := Fetched(inner.mem, cache, page);
    }

    /** The offset of the page's bytes in data, or nothing when none of the page is readable. */
    method FetchPage(page: nat) returns (at: Option<nat>)
      requires Valid()
      modifies `cache, tags, good, data
      ensures Valid() && cache == Fetched(inner.mem, old(cache), page)
      ensures var slot := SlotOf(page, tags.Length);
              && good[slot] == cache[slot].good
              && at == (if good[slot] > 0 then Some(slot * PAGE) else None)
              && (at.Some? ==>
                    at.value + PAGE <= data.Length && data[..][at.value..at.value + PAGE] == cache[slot].bytes)
    {
      MaskPicksSlot(page, tags.Length);
      var slot := And(page, slotMask);
      if tags[slot] == page {
        SlotHit(inner.mem, cache, tags[..], good[..], data[..], page);
      } else {
        Refill(page, slot);
      }
      SlotHeld(cache, tags[..], good[..], data[..], slot);
      at := if good[slot] > 0 then Some(slot * PAGE) else None;
    }

    /** How many of the bytes wanted the page in the slot has, copied to dest. */
    method CopyFromPage(slot: nat, ghost held: Slot, at: Option<nat>, inPage: nat, want: nat, dest: array<byte>,
                        to: nat)
      returns (got: nat, ghost chunk: seq<byte>)
      requires slot < good.Length && good[slot] == held.good <= |held.bytes| == PAGE
      requires at == if good[slot] > 0 then Some(slot * PAGE) else None
      requires at.Some? ==> at.value + PAGE <= data.Length && data[..][at.value..at.value + PAGE] == held.bytes
      requires inPage + want <= PAGE && to + want <= dest.Length && dest != data
      modifies dest
      ensures chunk == Chunk(held, inPage, want) && got == |chunk|
      ensures dest[..] == Spliced(old(dest[..]), to, chunk)
    {
      chunk := Chunk(held, inPage, want);
      if at.None? || inPage >= good[slot] {
        SplicedNothing(dest[..], to);
        return 0, chunk;
      }
      got := Min(want, good[slot] - inPage);
      ChunkInData(data[..], at.value, held, inPage, want);
      CopyBytes(data, at.value + inPage, dest, to, got, chunk);
    }

    /** Fetches the page of cur and copies what is wanted of it. */
    method ReadPage(cur: nat, want: nat, dest: array<byte>, to: nat) returns (got: nat, ghost chunk: seq<byte>)
      requires Valid() && InPage(cur) + want <= PAGE && to + want <= dest.Length && dest != data
      modifies `cache, tags, good, data, dest
      ensures Valid() && cache == Fetched(inner.mem, old(cache), PageOf(cur))
      ensures chunk == Chunk(cache[SlotOf(PageOf(cur), |cache|)], InPage(cur), want) && got == |chunk|
      ensures dest[..] == Spliced(old(dest[..]), to, chunk)
    {
      var at := FetchPage(PageOf(cur));
      ghost var held := cache[SlotOf(PageOf(cur), |cache|)];
      got, chunk := CopyFromPage(SlotOf(PageOf(cur), tags.Length), held, at, InPage(cur), want, dest, to);
    }

    /** One pass through the read loop, from loop state l to loop state r. */
    method ReadPass(addr: nat, dest: array<byte>, size: nat, done: nat, ghost l: Loop, ghost before: seq<byte>)
      returns (available: nat, ghost r: Loop)
      requires Valid() && size <= dest.Length && dest != data
      requires cache == l.cache && done == |l.out| < size && !l.broke
      requires |before| == dest.Length && dest[..] == Spliced(before, 0, l.out)
      modifies `cache, tags, good, data, dest
      ensures Valid() && cache == r.cache && done + available == |r.out| <= size
      ensures dest[..] == Spliced(before, 0, r.out)
      ensures r.broke == (available < Want(addr + done, size - done))
      ensures LoopEnd(inner.mem, addr, size, l) == LoopEnd(inner.mem, addr, size, r)
      ensures !r.broke ==> available > 0
    {
      ghost var was := dest[..];
      ghost var chunk;
      available, chunk := ReadPage(addr + done, Want(addr + done, size - done), dest, done);
      SplicedOn(before, l.out, was, chunk, dest[..]);
      TurnIs(inner.mem, addr, size, l, cache, l.out + chunk);
      r := Loop(cache, l.out + chunk, available < Want(addr + done, size - done));
    }

    method Read(addr: nat, dest: array<byte>, size: nat) returns (done: nat)
      requires Valid() && size <= dest.Length && dest != data
      modifies `cache, tags, good, data, dest
      ensures Valid() && State() == Step(old(State()), Event.Read(addr, size))
      ensures var out := CachedRead(inner.mem, old(cache), addr, size).out;
              done == |out| && dest[..] == Spliced(old(dest[..]), 0, out)
    {
      ghost var before, r := dest[..], CachedRead(inner.mem, cache, addr, size);
      ghost var l := Loop(cache, [], false);
      done := 0;
      while done < size
        invariant Valid() && cache == l.cache
        invariant done == |l.out| <= size && dest[..] == Spliced(before, 0, l.out)
        invariant !l.broke && r == LoopEnd(inner.mem, addr, size, l)
      {
        var available;
        available, l := ReadPass(addr, dest, size, done, l, before);
        var want := Want(addr + done, size - done);
        done := done + available;
        if available < want { break; }
      }
      assert r == l;
    }

    /** One page is forgotten, when its slot holds it. */
    method Drop(page: nat)
      requires Valid()
      modifies `cache, tags
      ensures Valid()
      ensures var c, slot := old(cache), SlotOf(page, |old(cache)|);
              cache == if c[slot].tag == page then c[slot := Dropped(c[slot])] else c
    {
      MaskPicksSlot(page, tags.Length);
      var slot := And(page, slotMask);
      SlotHeld(cache, tags[..], good[..], data[..], slot);
      if tags[slot] == page {
        TagDropped(cache, tags[..], good[..], data[..], slot);
        tags[slot] := INVALID_TAG;
        cache := cache[slot := Dropped(cache[slot])];
      }
    }

    method InvalidateRange(addr: nat, size: nat)
      requires Valid()
      modifies `cache, tags
      ensures Valid() && cache == RangeDropped(old(cache), FirstPage(addr), LastPage(addr, size))
    {
      var first, last := FirstPage(addr), LastPage(addr, size);
      var page := first;
      LastPageSmall(addr, size);
      while page <= last
        invariant first <= page && (page <= last + 1 || page == first)
        invariant Valid() && cache == DroppedBelow(old(cache), first, page)
      {
        DroppedNext(old(cache), first, page);
        Drop(page);
        page := page + 1;
      }
      DroppedAll(old(cache), first, last);
    }

    method Write(addr: nat, bytes: seq<byte>, accept: bool) returns (ok: bool)
      requires Valid()
      modifies `cache, tags, inner
      ensures Valid() && State() == Step(old(State()), Event.Write(addr, bytes, accept))
      ensures ok == (accept && addr + |bytes| <= SPACE)
      ensures Puts(old(inner.mem), inner.mem, addr, if ok then bytes else [])
    {
      ok := inner.Write(addr, bytes, accept);
      if ok {
        InvalidateRange(addr, |bytes|);
      }
    }

    method Invalidate()
      requires Valid()
      modifies `cache, tags
      ensures Valid() && State() == Step(old(State()), Event.Invalidate)
    {
      ghost var was, g, d := tags[..], good[..], data[..];
      forall s | 0 <= s < tags.Length {
        tags[s] := INVALID_TAG;
      }
      assert good[..] == g && data[..] == d;
      forall s: nat | s < |cache| ensures Emptied(cache)[s] == SlotAt(tags[..], g, d, s) {
        assert cache[s] == SlotAt(was, g, d, s);
      }
      cache := Emptied(cache);
    }
  }

  /** memcpy between two buffers */
  method CopyBytes(src: array<byte>, from: nat, dest: array<byte>, to: nat, n: nat, ghost chunk: seq<byte>)
    requires src != dest && from + n <= src.Length && to + n <= dest.Length && chunk == src[..][from..from + n]
    modifies dest
    ensures dest[..] == Spliced(old(dest[..]), to, chunk)
  {
    forall i | 0 <= i < n {
      dest[to + i] := src[from + i];
    }
  }
}
