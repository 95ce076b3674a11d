/**
 * Whole runs of the page cache: any mixture of reads, writes and invalidations, against a target
 * that changes only when written, and against a target that changes whenever it likes.
 */
module PageCacheRuns {
  import opened Common
  import opened ByteMap
  import opened MemorySource
  import opened PageCache

  datatype Event =
    | Read(at: nat, size: nat)
    | Write(at: nat, data: seq<byte>, accept: bool)
    | Invalidate
    | Mutate(to: Memory)   // the target goes on running

  datatype World = World(mem: Memory, cache: Cache)

  /** The provider took the write. */
  predicate Succeeds(e: Event) { e.Write? && e.accept && e.at + |e.data| <= SPACE }

  ghost function Step(w: World, e: Event): (r: World)
    requires WellFormed(w.cache)
    ensures WellFormed(r.cache) && |r.cache| == |w.cache|
  {
    match e
    case Read(at, size) => World(w.mem, CachedRead(w.mem, w.cache, at, size).cache)
    case Write(at, data, _) =>
      if Succeeds(e) then
        World(Written(w.mem, at, data), RangeDropped(w.cache, FirstPage(at), LastPage(at, |data|)))
      else w
    case Invalidate => World(w.mem, Emptied(w.cache))
    case Mutate(to) => World(to, w.cache)
  }

  ghost function After(w: World, events: seq<Event>): (r: World)
    requires WellFormed(w.cache)
    ensures WellFormed(r.cache) && |r.cache| == |w.cache|
  {
    if events == [] then w else Step(After(w, events[..|events| - 1]), events[|events| - 1])
  }

  // ---------------------------------------------------------------- what a run leaves in memory

  /** The event decides what an address holds. */
  predicate Decides(e: Event, a: nat) { e.Mutate? || (Succeeds(e) && e.at <= a < e.at + |e.data|) }

  /** What it decides. */
  function Decided(e: Event, a: nat): Option<byte>
    requires Decides(e, a)
  {
    if e.Mutate? then Byte(e.to, a) else Some(e.data[a - e.at])
  }

  lemma StepMem(w: World, e: Event)
    requires WellFormed(w.cache)
    ensures Step(w, e).mem ==
            if Succeeds(e) then Written(w.mem, e.at, e.data) else if e.Mutate? then e.to else w.mem
  {
  }

  lemma StepByte(w: World, e: Event, a: nat)
    requires WellFormed(w.cache)
    ensures Byte(Step(w, e).mem, a) == if Decides(e, a) then Decided(e, a) else Byte(w.mem, a)
  {
    StepMem(w, e);
    if Succeeds(e) {
      WrittenByte(w.mem, e.at, e.data, a);
    }
  }

  /** After any run an address holds what the last event that decides it left there. */
  lemma {:induction false} LastDecides(w: World, events: seq<Event>, k: nat, a: nat)
    requires WellFormed(w.cache) && k < |events| && Decides(events[k], a)
    requires forall j :: k < j < |events| ==> !Decides(events[j], a)
    ensures Byte(After(w, events).mem, a) == Decided(events[k], a)
  {
    var front := events[..|events| - 1];
    StepByte(After(w, front), events[|events| - 1], a);
    if k < |front| {
      LastDecides(w, front, k, a);
    }
  }

  /** And what it held at the start when none does. */
  lemma {:induction false} NoneDecides(w: World, events: seq<Event>, a: nat)
    requires WellFormed(w.cache) && forall j :: 0 <= j < |events| ==> !Decides(events[j], a)
    ensures Byte(After(w, events).mem, a) == Byte(w.mem, a)
  {
    if events != [] {
      var front := events[..|events| - 1];
      StepByte(After(w, front), events[|events| - 1], a);
      NoneDecides(w, front, a);
    }
  }

  // ---------------------------------------------------------------- memory changes only by writes

  lemma WrapSmall(a: nat)
    requires a < SPACE
    ensures Wrap(a) == a
  {
  }

  lemma PageWindowSmall(page: nat, a: nat)
    requires page < PAGES && page * PAGE <= a < page * PAGE + PAGE
    ensures a < SPACE && a / PAGE == page
  {
  }

  /** The pages of a write that stays inside the address space are those of its first and last byte. */
  lemma WriteRange(at: nat, size: nat)
    requires 0 < size && at + size <= SPACE
    ensures FirstPage(at) == at / PAGE && LastPage(at, size) == (at + size - 1) / PAGE
  {
    PageBits(at);
    PageBits(at + size - 1);
    assert Wrap(at + size + SPACE - 1) == at + size - 1;
  }

  /** A write leaves every page outside first..last as it was. */
  lemma WriteElsewhere(m: Memory, at: nat, data: seq<byte>, page: nat)
    requires at + |data| <= SPACE && page < PAGES
    requires data == [] || page < FirstPage(at) || page > LastPage(at, |data|)
    ensures PagePrefix(Written(m, at, data), page) == PagePrefix(m, page)
  {
    var m' := Written(m, at, data);
    if data == [] {
      assert m' == m;
    } else {
      WriteRange(at, |data|);
      forall a: nat | page * PAGE <= a < page * PAGE + PAGE
        ensures MemView(m')(a) == MemView(m)(a)
      {
        PageWindowSmall(page, a);
        WrapSmall(a);
        assert !(at <= a < at + |data|);
      }
      PrefixAgree(MemView(m'), MemView(m), page * PAGE, PAGE);
    }
  }

  lemma RangeDroppedShows(c: Cache, m: Memory, first: nat, last: nat, s: nat)
    requires WellFormed(c) && last < PAGES && s < |c| && SlotShows(c, s, m)
    requires RangeDropped(c, first, last)[s].tag != INVALID_TAG
    ensures RangeDropped(c, first, last)[s] == c[s] && !(first <= c[s].tag <= last)
    ensures SlotShows(RangeDropped(c, first, last), s, m)
  {
  }

  /** Some byte of the page is written. */
  ghost predicate Touches(at: nat, data: seq<byte>, page: nat) {
    exists a: nat :: at <= a < at + |data| && a / PAGE == page
  }

  lemma TouchesIff(at: nat, data: seq<byte>, page: nat)
    requires data != [] && at + |data| <= SPACE
    ensures Touches(at, data, page) <==> FirstPage(at) <= page <= LastPage(at, |data|)
  {
    WriteRange(at, |data|);
    if FirstPage(at) <= page <= LastPage(at, |data|) {
      var a := if page == at / PAGE then at else page * PAGE;
      if page != at / PAGE {
        InPages(at, at + |data| - 1, page);
      }
      assert at <= a < at + |data| && a / PAGE == page;
    }
  }

  lemma InPages(first: nat, last: nat, page: nat)
    requires first <= last && first / PAGE < page <= last / PAGE
    ensures first <= page * PAGE <= last && page * PAGE / PAGE == page
  {
  }

  /** A write that is taken drops exactly the held pages of which it writes a byte. */
  lemma WriteDrops(w: World, e: Event, s: nat)
    requires WellFormed(w.cache) && Succeeds(e) && e.data != [] && s < |w.cache|
    requires SlotOf(w.cache[s].tag, |w.cache|) == s
    ensures Step(w, e).cache[s] == if Touches(e.at, e.data, w.cache[s].tag) then Dropped(w.cache[s]) else w.cache[s]
  {
    TouchesIff(e.at, e.data, w.cache[s].tag);
  }

  lemma LastPageSmall(at: nat, size: nat)
    ensures LastPage(at, size) < PAGES
  {
    PageBits(Wrap(at + size + SPACE - 1));
  }

  lemma WriteKeepsCoherent(w: World, e: Event)
    requires Succeeds(e) && WellFormed(w.cache) && Coherent(w.cache, w.mem)
    ensures Coherent(Step(w, e).cache, Step(w, e).mem)
  {
    var w' := Step(w, e);
    var first, last := FirstPage(e.at), LastPage(e.at, |e.data|);
    LastPageSmall(e.at, |e.data|);
    forall s | 0 <= s < |w'.cache| && w'.cache[s].tag != INVALID_TAG ensures SlotShows(w'.cache, s, w'.mem) {
      assert w.cache[s].tag != INVALID_TAG && SlotShows(w.cache, s, w.mem);
      RangeDroppedShows(w.cache, w.mem, first, last, s);
      WriteElsewhere(w.mem, e.at, e.data, w.cache[s].tag);
    }
  }

  /** One step keeps cache and memory in agreement unless the target changes on its own. */
  lemma StepKeepsCoherent(w: World, e: Event)
    requires !e.Mutate? && WellFormed(w.cache) && Coherent(w.cache, w.mem)
    ensures Coherent(Step(w, e).cache, Step(w, e).mem)
  {
    match e
    case Read(at, size) => ReadExact(w.mem, w.cache, at, size);
    case Write(_, _, _) => if Succeeds(e) { WriteKeepsCoherent(w, e); }
    case Invalidate =>
    case Mutate(_) =>
  }

  lemma {:induction false} RunKeepsCoherent(w: World, events: seq<Event>)
    requires WellFormed(w.cache) && Coherent(w.cache, w.mem)
    requires forall e :: e in events ==> !e.Mutate?
    ensures Coherent(After(w, events).cache, After(w, events).mem)
  {
    if events != [] {
      var front := events[..|events| - 1];
      RunKeepsCoherent(w, front);
      StepKeepsCoherent(After(w, front), events[|events| - 1]);
    }
  }

  /** What a cached read answers after a run. */
  ghost function Answer(w: World, events: seq<Event>, at: nat, size: nat): seq<byte>
    requires WellFormed(w.cache)
  {
    CachedRead(After(w, events).mem, After(w, events).cache, at, size).out
  }

  /** Every page's readable bytes lie at the start of the page. */
  ghost predicate PagesFillFromStart(m: Memory) {
    forall a: nat {:trigger MemView(m)(a)} :: MemView(m)(a).Some? ==> PageView(m)(a).Some?
  }

  lemma PageViewNarrows(m: Memory, a: nat)
    ensures PageView(m)(a).Some? ==> MemView(m)(a) == PageView(m)(a)
  {
  }

  /**
   * Refinement over whole runs: in a run that starts with the cache in agreement with memory and
   * in which memory changes only through the cache, every read answers exactly what memory seen a
   * page at a time holds now, which is a prefix of what the provider would answer.
   */
  lemma CachedRunRefines(w: World, events: seq<Event>, at: nat, size: nat)
    requires WellFormed(w.cache) && Coherent(w.cache, w.mem)
    requires forall e :: e in events ==> !e.Mutate?
    ensures Answer(w, events, at, size) == LongestPrefix(PageView(After(w, events).mem), at, size)
    ensures Answer(w, events, at, size) <= InnerRead(After(w, events).mem, at, size)
    ensures PagesFillFromStart(After(w, events).mem) ==>
              Answer(w, events, at, size) == InnerRead(After(w, events).mem, at, size)
  {
    var now := After(w, events);
    RunKeepsCoherent(w, events);
    ReadExact(now.mem, now.cache, at, size);
    forall a: nat | PageView(now.mem)(a).Some? ensures MemView(now.mem)(a) == PageView(now.mem)(a) {
      PageViewNarrows(now.mem, a);
    }
    PrefixOfWider(PageView(now.mem), MemView(now.mem), at, size);
    if PagesFillFromStart(now.mem) {
      forall a: nat | at <= a < at + size ensures PageView(now.mem)(a) == MemView(now.mem)(a) {
        PageViewNarrows(now.mem, a);
      }
      PrefixAgree(PageView(now.mem), MemView(now.mem), at, size);
    }
  }

  /** The page-wise view shows an address when everything from the start of its page up to it can be read. */
  lemma PageViewShows(m: Memory, a: nat)
    requires a < SPACE
    ensures PageView(m)(a).Some? <==> forall b: nat :: a - a % PAGE <= b <= a ==> b in m
  {
    var page, u := a / PAGE, a - a % PAGE;
    PageBits(a);
    assert PageOf(a) == page && InPage(a) == a - u && u == page * PAGE;
    var good := PagePrefix(m, page);
    if a - u < |good| {
      forall b: nat | u <= b <= a ensures b in m {
        WrapSmall(b);
        var shown := At(MemView(m), b);
      }
    } else {
      WrapSmall(u + |good|);
      assert u + |good| !in m;
    }
  }

  /** No later event decides what an address holds that this one decides. */
  ghost predicate WritesLast(events: seq<Event>, k: nat)
    requires k < |events|
  {
    forall j, a: nat {:trigger Decides(events[j], a)} ::
      k < j < |events| && Decides(events[k], a) ==> !Decides(events[j], a)
  }

  /** The bytes stand at `at`. */
  ghost predicate Stands(m: Memory, at: nat, data: seq<byte>) {
    forall i :: 0 <= i < |data| ==> Byte(m, at + i) == Some(data[i])
  }

  lemma StandsRead(m: Memory, at: nat, data: seq<byte>)
    requires Stands(m, at, data) && at + |data| <= SPACE
    ensures InnerRead(m, at, |data|) == data
  {
    forall a: nat {:trigger At(MemView(m), a)} | at <= a < at + |data|
      ensures At(MemView(m), a) == Some(data[a - at])
    {
      WrapSmall(a);
      assert Byte(m, at + (a - at)) == Some(data[a - at]);
    }
    PrefixUnique(MemView(m), at, |data|, data);
  }

  /** With the start of its first page readable, all of it is shown page by page. */
  lemma StandsShown(m: Memory, at: nat, data: seq<byte>)
    requires Stands(m, at, data) && at + |data| <= SPACE && data != []
    ensures LongestPrefix(PageView(m), at, |data|) == data <==> forall b: nat :: at - at % PAGE <= b < at ==> b in m
  {
    forall a: nat | at <= a < at + |data| ensures a in m && MemView(m)(a) == Some(data[a - at]) {
      WrapSmall(a);
      assert Byte(m, at + (a - at)) == Some(data[a - at]);
    }
    PageViewShows(m, at);
    var out := LongestPrefix(PageView(m), at, |data|);
    if out == data {
      var shown := At(PageView(m), at);
    }
    if forall b: nat :: at - at % PAGE <= b < at ==> b in m {
      forall a: nat {:trigger At(PageView(m), a)} | at <= a < at + |data|
        ensures At(PageView(m), a) == Some(data[a - at])
      {
        LaterShown(m, at, a);
        PageViewNarrows(m, a);
      }
      PrefixUnique(PageView(m), at, |data|, data);
    }
  }

  lemma LaterShown(m: Memory, at: nat, a: nat)
    requires at <= a < SPACE && forall b: nat :: at - at % PAGE <= b <= a ==> b in m
    ensures PageView(m)(a).Some?
  {
    assert a - a % PAGE >= at - at % PAGE by {
      assert a / PAGE >= at / PAGE;
    }
    PageViewShows(m, a);
  }

  /**
   * Read your writes, over whole runs: in a run in which memory changes only through the cache, a read
   * of what an event wrote, and no later one wrote over, answers a prefix of what was written. It
   * answers all of it if and only if the page it starts in can be read from its start up to there.
   */
  lemma ReadYourWrites(w: World, events: seq<Event>, k: nat)
    requires WellFormed(w.cache) && Coherent(w.cache, w.mem)
    requires forall e :: e in events ==> !e.Mutate?
    requires k < |events| && Succeeds(events[k])
    requires WritesLast(events, k)
    ensures var at, data := events[k].at, events[k].data;
            && Answer(w, events, at, |data|) <= data
            && (Answer(w, events, at, |data|) == data <==>
                data == [] || forall b: nat :: at - at % PAGE <= b < at ==> b in After(w, events).mem)
  {
    LastWriteStands(w, events, k);
    CachedRunRefines(w, events, events[k].at, |events[k].data|);
    StandsAnswer(After(w, events).mem, events[k].at, events[k].data, Answer(w, events, events[k].at, |events[k].data|));
  }

  lemma LastWriteStands(w: World, events: seq<Event>, k: nat)
    requires WellFormed(w.cache) && k < |events| && Succeeds(events[k])
    requires WritesLast(events, k)
    ensures Stands(After(w, events).mem, events[k].at, events[k].data)
  {
    forall i | 0 <= i < |events[k].data| {
      LastWriteByte(w, events, k, i);
    }
  }

  lemma LastWriteByte(w: World, events: seq<Event>, k: nat, i: nat)
    requires WellFormed(w.cache) && k < |events| && Succeeds(events[k]) && i < |events[k].data|
    requires WritesLast(events, k)
    ensures Byte(After(w, events).mem, events[k].at + i) == Some(events[k].data[i])
  {
    assert Decides(events[k], events[k].at + i);
    LastDecides(w, events, k, events[k].at + i);
  }

  lemma StandsAnswer(m: Memory, at: nat, data: seq<byte>, out: seq<byte>)
    requires Stands(m, at, data) && at + |data| <= SPACE
    requires out == LongestPrefix(PageView(m), at, |data|) && out <= InnerRead(m, at, |data|)
    ensures out <= data
    ensures out == data <==> data == [] || forall b: nat :: at - at % PAGE <= b < at ==> b in m
  {
    StandsRead(m, at, data);
    if data != [] {
      StandsShown(m, at, data);
    }
  }

  lemma OneByte(view: View, a: nat)
    ensures LongestPrefix(view, a, 1) == if view(a).Some? then [view(a).value] else []
  {
    PrefixUnique(view, a, 1, if view(a).Some? then [view(a).value] else []);
  }

  /** A readable byte behind an unreadable one of its page is a byte the cache does not deliver. */
  lemma HiddenByte(w: World, events: seq<Event>, a: nat)
    requires WellFormed(w.cache) && Coherent(w.cache, w.mem)
    requires forall e :: e in events ==> !e.Mutate?
    requires Answer(w, events, a, 1) == InnerRead(After(w, events).mem, a, 1)
    ensures MemView(After(w, events).mem)(a).Some? ==> PageView(After(w, events).mem)(a).Some?
  {
    CachedRunRefines(w, events, a, 1);
    OneByte(MemView(After(w, events).mem), a);
    OneByte(PageView(After(w, events).mem), a);
  }

  /** Every read answers as the provider would. */
  ghost predicate Invisible(w: World, events: seq<Event>)
    requires WellFormed(w.cache)
  {
    forall at: nat, size: nat :: Answer(w, events, at, size) == InnerRead(After(w, events).mem, at, size)
  }

  /** The cache is invisible exactly when every page is readable from its start. */
  lemma InvisibleExactlyWhenPagesFill(w: World, events: seq<Event>)
    requires WellFormed(w.cache) && Coherent(w.cache, w.mem)
    requires forall e :: e in events ==> !e.Mutate?
    ensures Invisible(w, events) <==> PagesFillFromStart(After(w, events).mem)
  {
    var m := After(w, events).mem;
    if PagesFillFromStart(m) {
      forall at: nat, size: nat ensures Answer(w, events, at, size) == InnerRead(m, at, size) {
        CachedRunRefines(w, events, at, size);
      }
    }
    if Invisible(w, events) {
      forall a: nat {:trigger MemView(m)(a)} | MemView(m)(a).Some? ensures PageView(m)(a).Some? {
        HiddenByte(w, events, a);
      }
    }
  }

  // ---------------------------------------------------------------- the target changes on its own

  /** Memory at every moment of a run: History(w, events)[t] is memory after t events. */
  ghost function History(w: World, events: seq<Event>): (r: seq<Memory>)
    requires WellFormed(w.cache)
    ensures |r| == |events| + 1 && r[|events|] == After(w, events).mem
  {
    if events == [] then [w.mem]
    else History(w, events[..|events| - 1]) + [After(w, events).mem]
  }

  /** The event rules out older bytes of the page: Invalidate, or a successful write that covers it. */
  predicate Fences(e: Event, page: nat) {
    || e.Invalidate?
    || (Succeeds(e) && e.data != [] && FirstPage(e.at) <= page <= LastPage(e.at, |e.data|))
  }

  /** The moment of the last event that fences the page. */
  ghost function Fence(events: seq<Event>, page: nat): (r: nat)
    ensures r <= |events|
    ensures r > 0 ==> Fences(events[r - 1], page)
    ensures forall k :: r <= k < |events| ==> !Fences(events[k], page)
  {
    if events == [] then 0
    else if Fences(events[|events| - 1], page) then |events|
    else Fence(events[..|events| - 1], page)
  }

  /** A live slot shows its page as memory held it at some moment since the page's fence. */
  ghost predicate SlotFresh(c: Cache, s: nat, history: seq<Memory>, events: seq<Event>)
    requires WellFormed(c) && s < |c|
  {
    c[s].tag != INVALID_TAG ==>
      c[s].tag < PAGES &&
      exists t {:trigger history[t]} :: Fence(events, c[s].tag) <= t < |history| && SlotShows(c, s, history[t])
  }

  ghost predicate AllFresh(c: Cache, history: seq<Memory>, events: seq<Event>)
    requires WellFormed(c)
  {
    forall s: nat {:trigger SlotFresh(c, s, history, events)} :: s < |c| ==> SlotFresh(c, s, history, events)
  }

  /** Address a held byte b at some moment since its page's fence. */
  ghost predicate Held(history: seq<Memory>, events: seq<Event>, a: nat, b: byte) {
    exists t {:trigger history[t]} :: Fence(events, PageOf(a)) <= t < |history| && MemView(history[t])(a) == Some(b)
  }

  ghost predicate ByteHeld(history: seq<Memory>, events: seq<Event>, at: nat, bytes: seq<byte>, i: nat)
    requires i < |bytes|
  {
    Held(history, events, at + i, bytes[i])
  }

  ghost predicate AllHeld(history: seq<Memory>, events: seq<Event>, at: nat, bytes: seq<byte>) {
    forall i: nat {:trigger ByteHeld(history, events, at, bytes, i)} ::
      i < |bytes| ==> ByteHeld(history, events, at, bytes, i)
  }

  lemma FetchedFresh(c: Cache, history: seq<Memory>, events: seq<Event>, page: nat)
    requires WellFormed(c) && |history| == |events| + 1 && page < PAGES
    requires AllFresh(c, history, events)
    ensures AllFresh(Fetched(history[|events|], c, page), history, events)
  {
    var m := history[|events|];
    var r := Fetched(m, c, page);
    forall s: nat | s < |r| ensures SlotFresh(r, s, history, events) {
      if c[SlotOf(page, |c|)].tag != page && s == SlotOf(page, |c|) {
        assert r[s].bytes[..r[s].good] == PagePrefix(m, page);
        assert SlotShows(r, s, history[|events|]);
      } else if r[s].tag != INVALID_TAG {
        assert SlotFresh(c, s, history, events);
        var t :| Fence(events, c[s].tag) <= t < |history| && SlotShows(c, s, history[t]);
        assert SlotShows(r, s, history[t]);
      }
    }
  }

  /** The page of cur is in its slot once fetched, as memory held it at some moment since its fence. */
  lemma FetchedMoment(c: Cache, history: seq<Memory>, events: seq<Event>, page: nat) returns (t: nat)
    requires WellFormed(c) && |history| == |events| + 1 && page < PAGES
    requires AllFresh(c, history, events)
    ensures Fence(events, page) <= t < |history|
    ensures var slot := Fetched(history[|events|], c, page)[SlotOf(page, |c|)];
            slot.bytes[..slot.good] == PagePrefix(history[t], page)
  {
    FetchedFresh(c, history, events, page);
    var c' := Fetched(history[|events|], c, page);
    assert SlotFresh(c', SlotOf(page, |c|), history, events);
    t :| Fence(events, page) <= t < |history| && SlotShows(c', SlotOf(page, |c|), history[t]);
  }

  /** A chunk of a page as memory m held it is made of bytes m held at those addresses. */
  lemma ChunkHeld(m: Memory, u: nat, cur: nat, want: nat, chunk: seq<byte>, k: nat)
    requires u % PAGE == 0 && u <= cur && cur + want <= u + PAGE
    requires var good := PagePrefix(m, PageOf(u));
             chunk == if cur - u >= |good| then [] else good[cur - u..Min(cur - u + want, |good|)]
    requires k < |chunk|
    ensures PageOf(cur + k) == PageOf(u) && MemView(m)(cur + k) == Some(chunk[k])
  {
    var a := cur + k;
    PageWindow(m, u, a);
    assert chunk[k] == PagePrefix(m, PageOf(u))[a - u];
  }

  lemma TurnHeld(m: Memory, c: Cache, history: seq<Memory>, events: seq<Event>, cur: nat, size: nat)
    requires WellFormed(c) && |history| == |events| + 1 && m == history[|events|]
    requires AllFresh(c, history, events)
    ensures AllFresh(Fetched(m, c, PageOf(cur)), history, events)
    ensures AllHeld(history, events, cur, TurnBytes(m, c, cur, size))
  {
    var page, want := PageOf(cur), Want(cur, size);
    var u := PageStart(cur);
    FetchedFresh(c, history, events, page);
    var t := FetchedMoment(c, history, events, page);
    var slot := Fetched(m, c, page)[SlotOf(page, |c|)];
    var chunk := TurnBytes(m, c, cur, size);
    SlotChunk(slot, InPage(cur), want, PagePrefix(history[t], page));
    forall k: nat | k < |chunk| ensures ByteHeld(history, events, cur, chunk, k) {
      ChunkHeld(history[t], u, cur, want, chunk, k);
    }
  }

  lemma AllHeldConcat(history: seq<Memory>, events: seq<Event>, at: nat, s: seq<byte>, t: seq<byte>, out: seq<byte>)
    requires AllHeld(history, events, at, s) && AllHeld(history, events, at + |s|, t)
    requires out == s + t
    ensures AllHeld(history, events, at, out)
  {
    forall k: nat | k < |out| ensures ByteHeld(history, events, at, out, k) {
      if k >= |s| {
        assert ByteHeld(history, events, at + |s|, t, k - |s|);
      } else {
        assert ByteHeld(history, events, at, s, k);
      }
    }
  }

  /** Whatever every turn keeps, the loop keeps. */
  lemma {:induction false} LoopKeeps(inv: Loop -> bool, m: Memory, at: nat, size: nat, l: Loop)
    requires WellFormed(l.cache) && |l.out| <= size && inv(l)
    requires forall t: Loop :: WellFormed(t.cache) && |t.out| < size && inv(t) ==> inv(Turn(m, at, size, t))
    ensures inv(LoopEnd(m, at, size, l))
    decreases !l.broke, size - |l.out|
  {
    if !l.broke && |l.out| < size {
      LoopKeeps(inv, m, at, size, Turn(m, at, size, l));
    }
  }

  ghost predicate LoopHeld(history: seq<Memory>, events: seq<Event>, at: nat, l: Loop) {
    |history| == |events| + 1 && WellFormed(l.cache) && AllFresh(l.cache, history, events)
        && AllHeld(history, events, at, l.out)
  }

  lemma TurnKeepsHeld(m: Memory, history: seq<Memory>, events: seq<Event>, at: nat, size: nat, l: Loop)
    requires LoopHeld(history, events, at, l) && m == history[|events|] && |l.out| < size
    ensures LoopHeld(history, events, at, Turn(m, at, size, l))
  {
    var cur, left := at + |l.out|, size - |l.out|;
    var cache, chunk, next := TurnParts(m, at, size, l);
    TurnHeld(m, l.cache, history, events, cur, left);
    AllHeldConcat(history, events, at, l.out, chunk, next.out);
  }

  /** What a turn does to the cache and to the bytes read. */
  lemma TurnParts(m: Memory, at: nat, size: nat, l: Loop) returns (cache: Cache, chunk: seq<byte>, next: Loop)
    requires WellFormed(l.cache) && |l.out| < size
    ensures cache == Fetched(m, l.cache, PageOf(at + |l.out|))
    ensures chunk == TurnBytes(m, l.cache, at + |l.out|, size - |l.out|)
    ensures next == Turn(m, at, size, l) && next.cache == cache && next.out == l.out + chunk && WellFormed(cache)
  {
    next := Turn(m, at, size, l);
    cache, chunk := next.cache, TurnBytes(m, l.cache, at + |l.out|, size - |l.out|);
  }

  lemma ReadHeld(m: Memory, c: Cache, history: seq<Memory>, events: seq<Event>, at: nat, size: nat)
    requires WellFormed(c) && |history| == |events| + 1 && m == history[|events|]
    requires AllFresh(c, history, events)
    ensures AllFresh(CachedRead(m, c, at, size).cache, history, events)
    ensures AllHeld(history, events, at, CachedRead(m, c, at, size).out)
  {
    var inv := (l: Loop) => LoopHeld(history, events, at, l);
    forall t: Loop | WellFormed(t.cache) && |t.out| < size && inv(t) ensures inv(Turn(m, at, size, t)) {
      TurnKeepsHeld(m, history, events, at, size, t);
    }
    LoopKeeps(inv, m, at, size, Loop(c, [], false));
  }

  /** Appending an event that does not fence a page keeps its slots fresh. */
  lemma FreshLater(c: Cache, history: seq<Memory>, events: seq<Event>, e: Event, m: Memory)
    requires WellFormed(c) && |history| == |events| + 1 && AllFresh(c, history, events)
    requires forall s {:trigger c[s]} :: 0 <= s < |c| && c[s].tag != INVALID_TAG ==> !Fences(e, c[s].tag)
    ensures AllFresh(c, history + [m], events + [e])
  {
    var later := history + [m];
    assert (events + [e])[..|events + [e]| - 1] == events;
    forall s: nat | s < |c| ensures SlotFresh(c, s, later, events + [e]) {
      assert SlotFresh(c, s, history, events);
      if c[s].tag != INVALID_TAG {
        var t :| Fence(events, c[s].tag) <= t < |history| && SlotShows(c, s, history[t]);
        assert SlotShows(c, s, later[t]);
      }
    }
  }

  /** Slots that survive InvalidateRange were fresh and lie outside the range. */
  lemma DroppedFresh(c: Cache, history: seq<Memory>, events: seq<Event>, first: nat, last: nat)
    requires WellFormed(c) && AllFresh(c, history, events) && last < PAGES
    ensures WellFormed(RangeDropped(c, first, last)) && AllFresh(RangeDropped(c, first, last), history, events)
    ensures var r := RangeDropped(c, first, last);
            forall s {:trigger r[s]} :: 0 <= s < |r| && r[s].tag != INVALID_TAG ==> !(first <= r[s].tag <= last)
  {
    var r := RangeDropped(c, first, last);
    forall s: nat | s < |r|
      ensures r[s].tag != INVALID_TAG ==> !(first <= r[s].tag <= last)
      ensures SlotFresh(r, s, history, events)
    {
      assert SlotFresh(c, s, history, events);
      if r[s].tag != INVALID_TAG {
        var t :| Fence(events, c[s].tag) <= t < |history| && SlotShows(c, s, history[t]);
        RangeDroppedShows(c, history[t], first, last, s);
      }
    }
  }

  lemma StepKeepsFresh(w: World, history: seq<Memory>, events: seq<Event>, e: Event)
    requires WellFormed(w.cache) && |history| == |events| + 1 && history[|events|] == w.mem
    requires AllFresh(w.cache, history, events)
    ensures AllFresh(Step(w, e).cache, history + [Step(w, e).mem], events + [e])
  {
    match e
    case Read(at, size) =>
      ReadHeld(w.mem, w.cache, history, events, at, size);
      FreshLater(Step(w, e).cache, history, events, e, w.mem);
    case Write(at, data, _) =>
      if Succeeds(e) {
        LastPageSmall(at, |data|);
        DroppedFresh(w.cache, history, events, FirstPage(at), LastPage(at, |data|));
        FreshLater(Step(w, e).cache, history, events, e, Step(w, e).mem);
      } else {
        FreshLater(w.cache, history, events, e, w.mem);
      }
    case Invalidate =>
    case Mutate(to) =>
      FreshLater(w.cache, history, events, e, to);
  }

  lemma {:induction false} RunKeepsFresh(w: World, events: seq<Event>)
    requires WellFormed(w.cache)
    requires forall s :: 0 <= s < |w.cache| ==> w.cache[s].tag == INVALID_TAG
    ensures AllFresh(After(w, events).cache, History(w, events), events)
  {
    if events != [] {
      var front, e := events[..|events| - 1], events[|events| - 1];
      RunKeepsFresh(w, front);
      var before, history, now, later := LastStep(w, events);
      NextKeepsFresh(before, history, front, e, events, now, later);
    }
  }

  /** A run that is not empty ends with a step. */
  lemma LastStep(w: World, events: seq<Event>)
    returns (before: World, history: seq<Memory>, now: World, later: seq<Memory>)
    requires WellFormed(w.cache) && events != []
    ensures before == After(w, events[..|events| - 1]) && history == History(w, events[..|events| - 1])
    ensures now == After(w, events) && later == History(w, events) && WellFormed(before.cache)
    ensures now == Step(before, events[|events| - 1]) && later == history + [now.mem]
    ensures |history| == |events| && history[|events| - 1] == before.mem
  {
    before, history := After(w, events[..|events| - 1]), History(w, events[..|events| - 1]);
    now, later := After(w, events), History(w, events);
  }

  lemma NextKeepsFresh(before: World, history: seq<Memory>, front: seq<Event>, e: Event, events: seq<Event>, now: World,
                       later: seq<Memory>)
    requires WellFormed(before.cache) && |history| == |front| + 1 && history[|front|] == before.mem
    requires AllFresh(before.cache, history, front) && events == front + [e]
    requires now == Step(before, e) && later == history + [now.mem]
    ensures AllFresh(now.cache, later, events)
  {
    StepKeepsFresh(before, history, front, e);
  }

  /**
   * Staleness bound: whatever the target does meanwhile, a byte a read delivers is a value its
   * address held at some moment no earlier than the last Invalidate and the last successful write
   * through the cache that covered its page.
   */
  lemma StalenessBound(w: World, events: seq<Event>, at: nat, size: nat, i: nat)
    requires WellFormed(w.cache)
    requires forall s :: 0 <= s < |w.cache| ==> w.cache[s].tag == INVALID_TAG
    requires i < |Answer(w, events, at, size)|
    ensures exists t {:trigger History(w, events)[t]} ::
              && Fence(events, PageOf(at + i)) <= t <= |events|
              && MemView(History(w, events)[t])(at + i) == Some(Answer(w, events, at, size)[i])
  {
    RunKeepsFresh(w, events);
    ReadHeld(After(w, events).mem, After(w, events).cache, History(w, events), events, at, size);
    var out := Answer(w, events, at, size);
    assert ByteHeld(History(w, events), events, at, out, i);
  }
}
