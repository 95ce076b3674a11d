/** The memory lists of a minidump as they are written, against what is read from them. */
module DumpTables {
  import opened Common
  import opened DumpMemory
  import opened DumpMemorySource

  // ---------------------------------------------------------------- fields

  /** The lowest `width` bytes of a number, the lowest first. */
  function Digits(n: nat, width: nat): (s: seq<byte>)
    ensures |s| == width
  {
    if width == 0 then [] else [n % 256] + Digits(n / 256, width - 1)
  }

  function Power(width: nat): nat { if width == 0 then 1 else 256 * Power(width - 1) }

  lemma {:induction false} DigitsBack(n: nat, width: nat)
    requires n < Power(width)
    ensures LittleEndian(Digits(n, width)) == n
  {
    if width > 0 {
      Quotient(n, Power(width - 1));
      DigitsBack(n / 256, width - 1);
      assert Digits(n, width)[1..] == Digits(n / 256, width - 1);
    }
  }

  lemma Quotient(n: nat, p: nat)
    requires n < 256 * p
    ensures n / 256 < p && n == n / 256 * 256 + n % 256
  {
  }

  /** The file holds the number there. */
  ghost predicate HoldsNumber(file: seq<byte>, offset: nat, width: nat, n: nat) {
    offset + width <= |file| && n < Power(width) && file[offset..offset + width] == Digits(n, width)
  }

  /** A field that was written is read back. */
  lemma FieldBack(file: seq<byte>, offset: nat, width: nat, n: nat)
    requires HoldsNumber(file, offset, width, n)
    ensures Field(file, offset, width) == Some(n)
  {
    DigitsBack(n, width);
  }

  // ---------------------------------------------------------------- tables

  /** The bytes of the descriptors before the i-th. */
  function SizesBefore(es: seq<Entry>, i: nat): nat
    requires i <= |es|
  {
    if i == 0 then 0 else SizesBefore(es, i - 1) + es[i - 1].size
  }

  /** The table holds the descriptors. */
  ghost predicate Tabled(table: Table, es: seq<Entry>) {
    forall i: nat {:trigger table(i)} :: i < |es| ==> table(i) == Some(es[i])
  }

  /** A descriptor that is not empty, its bytes behind those of all before it. */
  ghost predicate PackedAs(es: seq<Entry>, base: nat, i: nat, r: Range) {
    i < |es| && es[i].size > 0 && r == Range(es[i].start, es[i].size, base + SizesBefore(es, i))
  }

  /** One of the first n. */
  ghost predicate SomePacked(es: seq<Entry>, base: nat, n: nat, r: Range) {
    exists i: nat :: i < n && PackedAs(es, base, i, r)
  }

  lemma PackedMoreIff(es: seq<Entry>, base: nat, n: nat, r: Range)
    requires n < |es|
    ensures SomePacked(es, base, n + 1, r) <==>
            SomePacked(es, base, n, r)
                || (es[n].size > 0 && r == Range(es[n].start, es[n].size, base + SizesBefore(es, n)))
  {
    if PackedAs(es, base, n, r) {
      assert SomePacked(es, base, n + 1, r);
    }
    if i: nat :| i < n && PackedAs(es, base, i, r) {
      assert i < n + 1;
    }
  }

  /** A descriptor that is not empty, at its own offset. */
  ghost predicate PlacedAs(es: seq<Entry>, i: nat, r: Range) {
    i < |es| && es[i].size > 0 && r == Range(es[i].start, es[i].size, es[i].data)
  }

  lemma {:induction false} HeldAll(table: Table, es: seq<Entry>, n: nat)
    requires Tabled(table, es) && n <= |es|
    ensures Held(table, n) == n
  {
    if n > 0 {
      HeldAll(table, es, n - 1);
    }
  }

  /** Up to where the table ends. */
  lemma {:induction false} HeldIs(table: Table, n: nat)
    ensures forall i :: 0 <= i < Held(table, n) ==> table(i).Some?
    ensures Held(table, n) < n ==> table(Held(table, n)).None?
  {
    if n > 0 {
      HeldIs(table, n - 1);
    }
  }

  lemma {:induction false} PackedBytes(table: Table, es: seq<Entry>, n: nat, base: nat)
    requires Tabled(table, es) && n <= |es|
    ensures Bytes(Packed(table, n, base)) == SizesBefore(es, n)
  {
    if n > 0 {
      PackedBytes(table, es, n - 1, base);
      assert table(n - 1) == Some(es[n - 1]);
      PackedNext(table, n - 1, base, base + SizesBefore(es, n - 1));
    }
  }

  /** One more descriptor, behind those before it. */
  lemma PackedStep(table: Table, es: seq<Entry>, i: nat, base: nat) returns (before: seq<Range>, more: seq<Range>)
    requires Tabled(table, es) && i < |es|
    ensures before == Packed(table, i, base) && more == Packed(table, i + 1, base)
    ensures more == before + RangeOf(es[i], base + SizesBefore(es, i))
  {
    before, more := Packed(table, i, base), Packed(table, i + 1, base);
    PackedBytes(table, es, i, base);
    assert table(i) == Some(es[i]);
    PackedNext(table, i, base, base + SizesBefore(es, i));
  }

  /** The sequences grow by one descriptor at a time, each behind those before it. */
  ghost predicate Grows(packed: nat -> seq<Range>, es: seq<Entry>, base: nat) {
    packed(0) == [] && forall i: nat :: i < |es| ==> GrowsAt(packed, es, base, i)
  }

  ghost predicate GrowsAt(packed: nat -> seq<Range>, es: seq<Entry>, base: nat, i: nat)
    requires i < |es|
  {
    packed(i + 1) == packed(i) + RangeOf(es[i], base + SizesBefore(es, i))
  }

  lemma {:induction false} GrowsIff(packed: nat -> seq<Range>, es: seq<Entry>, n: nat, base: nat, r: Range)
    requires Grows(packed, es, base) && n <= |es|
    ensures r in packed(n) <==> SomePacked(es, base, n, r)
  {
    if n > 0 {
      GrowsIff(packed, es, n - 1, base, r);
      assert GrowsAt(packed, es, base, n - 1);
      RangeIn(es[n - 1], base + SizesBefore(es, n - 1), packed(n - 1), packed(n), r);
      PackedMoreIff(es, base, n - 1, r);
    }
  }

  /** The ranges packed are those of the descriptors that are not empty, each behind all before it. */
  lemma PackedIff(table: Table, es: seq<Entry>, n: nat, base: nat, r: Range)
    requires Tabled(table, es) && n <= |es|
    ensures r in Packed(table, n, base) <==> SomePacked(es, base, n, r)
  {
    var packed := (i: nat) => Packed(table, i, base);
    forall i: nat | i < |es| ensures GrowsAt(packed, es, base, i) {
      var before, more := PackedStep(table, es, i, base);
    }
    GrowsIff(packed, es, n, base, r);
  }

  lemma RangeIn(e: Entry, offset: nat, before: seq<Range>, more: seq<Range>, r: Range)
    requires more == before + RangeOf(e, offset)
    ensures r in more <==> r in before || (e.size > 0 && r == Range(e.start, e.size, offset))
  {
  }

  lemma {:induction false} PlacedIff(table: Table, es: seq<Entry>, n: nat, r: Range)
    requires Tabled(table, es) && n <= |es|
    ensures r in Placed(table, n) <==> exists i: nat :: i < n && PlacedAs(es, i, r)
  {
    if n > 0 {
      PlacedIff(table, es, n - 1, r);
      var before, e := Placed(table, n - 1), es[n - 1];
      assert table(n - 1) == Some(e);
      assert r in Placed(table, n) <==> r in before || PlacedAs(es, n - 1, r);
    }
  }

  function Filled(es: seq<Entry>, n: nat): nat
    requires n <= |es|
  {
    if n == 0 then 0 else Filled(es, n - 1) + (if es[n - 1].size > 0 then 1 else 0)
  }

  /** Each of them once. */
  lemma {:induction false} PackedCount(table: Table, es: seq<Entry>, n: nat, base: nat)
    requires Tabled(table, es) && n <= |es|
    ensures |Packed(table, n, base)| == Filled(es, n)
  {
    if n > 0 {
      var before, more := PackedStep(table, es, n - 1, base);
      PackedCount(table, es, n - 1, base);
    }
  }

  lemma {:induction false} PlacedCount(table: Table, es: seq<Entry>, n: nat)
    requires Tabled(table, es) && n <= |es|
    ensures |Placed(table, n)| == Filled(es, n)
  {
    if n > 0 {
      PlacedCount(table, es, n - 1);
      assert table(n - 1) == Some(es[n - 1]);
    }
  }

  // ---------------------------------------------------------------- the streams

  /** A Memory64 list as it is written: the count, where the bytes are, and a start and a size for each. */
  ghost predicate Written64(file: seq<byte>, rva: nat, base: nat, es: seq<Entry>) {
    && HoldsNumber(file, rva, 8, |es|) && HoldsNumber(file, rva + 8, 8, base)
    && forall i: nat {:trigger es[i]} :: i < |es| ==> Described64(file, rva + 16, i, es[i])
  }

  ghost predicate Described64(file: seq<byte>, table: nat, i: nat, e: Entry) {
    && HoldsNumber(file, table + i * 16, 8, e.start) && HoldsNumber(file, table + i * 16 + 8, 8, e.size)
    && e.data == 0
  }

  ghost predicate Described32(file: seq<byte>, table: nat, i: nat, e: Entry) {
    && HoldsNumber(file, table + i * 16, 8, e.start) && HoldsNumber(file, table + i * 16 + 8, 4, e.size)
    && HoldsNumber(file, table + i * 16 + 12, 4, e.data)
  }

  /** A memory list: the count, and a start, a size and a place for each. */
  ghost predicate Written32(file: seq<byte>, rva: nat, es: seq<Entry>) {
    && HoldsNumber(file, rva, 4, |es|)
    && forall i: nat {:trigger es[i]} :: i < |es| ==> Described32(file, rva + 4, i, es[i])
  }

  function Table64(file: seq<byte>, rva: nat): Table { (i: nat) => Entry64(file, Offset32(rva, 16), i) }

  function Table32(file: seq<byte>, rva: nat): Table { (i: nat) => Entry32(file, Offset32(rva, 4), i) }

  lemma Entry64Back(file: seq<byte>, table: nat, i: nat, e: Entry)
    requires Described64(file, table, i, e)
    ensures Entry64(file, table, i) == Some(e)
  {
    FieldBack(file, table + i * 16, 8, e.start);
    FieldBack(file, table + i * 16 + 8, 8, e.size);
  }

  lemma Entry32Back(file: seq<byte>, table: nat, i: nat, e: Entry)
    requires Described32(file, table, i, e)
    ensures Entry32(file, table, i) == Some(e)
  {
    FieldBack(file, table + i * 16, 8, e.start);
    FieldBack(file, table + i * 16 + 8, 4, e.size);
    FieldBack(file, table + i * 16 + 12, 4, e.data);
  }

  lemma Table64Back(file: seq<byte>, rva: nat, base: nat, es: seq<Entry>)
    requires rva + 16 < SPACE32 && Written64(file, rva, base, es)
    ensures Tabled(Table64(file, rva), es)
  {
    var table := Table64(file, rva);
    forall i: nat | i < |es| ensures table(i) == Some(es[i]) {
      Entry64Back(file, rva + 16, i, es[i]);
    }
  }

  lemma Table32Back(file: seq<byte>, rva: nat, es: seq<Entry>)
    requires rva + 4 < SPACE32 && Written32(file, rva, es)
    ensures Tabled(Table32(file, rva), es)
  {
    var table := Table32(file, rva);
    forall i: nat | i < |es| ensures table(i) == Some(es[i]) {
      Entry32Back(file, rva + 4, i, es[i]);
    }
  }

  /**
   * What is read from a Memory64 list that was written: a range for each descriptor that is not empty, of its
   * start and size, its bytes behind those of all the descriptors before it; and no other.
   */
  lemma Memory64Back(file: seq<byte>, rva: nat, base: nat, es: seq<Entry>, r: Range)
    requires rva + 16 < SPACE32 && |es| <= MAX_RANGES && Written64(file, rva, base, es)
    ensures Field(file, rva, 8) == Some(|es|) && Field(file, Offset32(rva, 8), 8) == Some(base)
    ensures var table := Table64(file, rva);
            var ranges := Packed(table, Held(table, |es|), base);
            && |ranges| == Filled(es, |es|)
            && (r in ranges <==> SomePacked(es, base, |es|, r))
  {
    var table := Table64(file, rva);
    FieldBack(file, rva, 8, |es|);
    FieldBack(file, rva + 8, 8, base);
    Table64Back(file, rva, base, es);
    HeldAll(table, es, |es|);
    PackedIff(table, es, |es|, base, r);
    PackedCount(table, es, |es|, base);
  }

  /** And from a memory list: each at its own place. */
  lemma MemoryListBack(file: seq<byte>, rva: nat, es: seq<Entry>, r: Range)
    requires rva + 4 < SPACE32 && |es| <= MAX_RANGES && Written32(file, rva, es)
    ensures Field(file, rva, 4) == Some(|es|)
    ensures var table := Table32(file, rva);
            var ranges := Placed(table, Held(table, |es|));
            && |ranges| == Filled(es, |es|)
            && (r in ranges <==> exists i: nat :: i < |es| && PlacedAs(es, i, r))
  {
    var table := Table32(file, rva);
    FieldBack(file, rva, 4, |es|);
    Table32Back(file, rva, es);
    HeldAll(table, es, |es|);
    PlacedIff(table, es, |es|, r);
    PlacedCount(table, es, |es|);
  }
}
