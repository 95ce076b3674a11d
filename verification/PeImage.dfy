/** Reading a PE file as it would be mapped: headers, sections from the file, zero tails. */
module PeImage {
  import opened Common
  import opened ByteMap
  import opened Piecewise

  const SPACE32: nat := 0x1_0000_0000

  /** 32-bit address arithmetic. */
  function Wrap32(a: nat): (r: nat)
    ensures r < SPACE32
  {
    if a < SPACE32 then a else Wrap32(a - SPACE32)
  }

  lemma {:induction false} Wrap32Step(a: nat, k: nat)
    requires Wrap32(a) + k < SPACE32
    ensures Wrap32(a + k) == Wrap32(a) + k
  {
    if a >= SPACE32 {
      Wrap32Step(a - SPACE32, k);
      assert Wrap32(a + k) == Wrap32(a - SPACE32 + k);
    }
  }

  datatype Section = Section(rva: nat, virtualSize: nat, rawSize: nat, rawOffset: nat)

  function Span(s: Section): nat { Max(s.virtualSize, s.rawSize) }

  /** The test the lookup makes, its sum taken in 32 bits. */
  predicate Holds(s: Section, rva: nat) { s.rva <= rva < Wrap32(s.rva + Span(s)) }

  /** The first section, from one on, that holds the address. */
  function FirstHolding(sections: seq<Section>, rva: nat, from: nat): (at: Option<nat>)
    requires from <= |sections|
    ensures at.Some? ==> from <= at.value < |sections| && Holds(sections[at.value], rva)
    ensures at.Some? ==> forall i :: from <= i < at.value ==> !Holds(sections[i], rva)
    ensures at.None? ==> forall i :: from <= i < |sections| ==> !Holds(sections[i], rva)
    decreases |sections| - from
  {
    if from == |sections| then None
    else if Holds(sections[from], rva) then Some(from)
    else FirstHolding(sections, rva, from + 1)
  }

  datatype Image = Image(file: seq<byte>, headers: nat, sections: seq<Section>)

  /** What the mapped image shows at an address below 2^32: a header's byte, else the section's, else its zero tail. */
  function Mapped(image: Image, rva: nat): Option<byte> {
    if rva < image.headers then FileByte(image.file, rva)
    else match FirstHolding(image.sections, rva, 0)
      case None => None
      case Some(i) => SectionByte(image, image.sections[i], rva)
  }

  function FileByte(file: seq<byte>, offset: nat): Option<byte> { if offset < |file| then Some(file[offset]) else None }

  function SectionByte(image: Image, s: Section, rva: nat): Option<byte>
    requires s.rva <= rva
  {
    if rva - s.rva < s.rawSize then FileByte(image.file, s.rawOffset + (rva - s.rva)) else Some(0)
  }

  function Zeros(n: nat): seq<byte> { seq(n, _ => 0) }

  /** One turn of the read: as much as the headers or one section have of what is wanted. */
  function Piece(image: Image, rva: nat, n: nat): (turn: Turn)
    ensures n > 0 ==> |turn.bytes| <= n && (turn.more ==> |turn.bytes| > 0)
  {
    if rva < image.headers then HeaderPiece(image, rva, n)
    else match FirstHolding(image.sections, rva, 0)
      case None => Turn([], false)
      case Some(i) => SectionPiece(image, image.sections[i], rva, n)
  }

  function HeaderPiece(image: Image, rva: nat, n: nat): (turn: Turn)
    requires rva < image.headers
    ensures n > 0 ==> |turn.bytes| <= n && (turn.more ==> |turn.bytes| > 0)
  {
    var want := Min(n, image.headers - rva);
    var available := if rva < |image.file| then Min(want, |image.file| - rva) else 0;
    if available == 0 then Turn([], false) else Turn(image.file[rva..rva + available], available >= want)
  }

  /** Raw data that runs past the file ends the read outright; past the raw data there are zeros. */
  function SectionPiece(image: Image, s: Section, rva: nat, n: nat): (turn: Turn)
    requires Holds(s, rva)
    ensures n > 0 ==> |turn.bytes| <= n && (turn.more ==> |turn.bytes| > 0)
  {
    var into := rva - s.rva;
    assert Wrap32(s.rva + Span(s)) <= s.rva + Span(s) by { Wrap32Below(s.rva + Span(s)); }
    var want := Min(n, Span(s) - into);
    if into < s.rawSize then
      var available, offset := Min(want, s.rawSize - into), Wrap32(s.rawOffset + into);
      if offset + available > |image.file| then Turn([], false)
      else Turn(image.file[offset..offset + available] + Zeros(want - available), want > 0)
    else Turn(Zeros(want), want > 0)
  }

  lemma {:induction false} Wrap32Below(a: nat)
    ensures Wrap32(a) <= a
  {
    if a >= SPACE32 {
      Wrap32Below(a - SPACE32);
    }
  }

  /** The image as a byte map, and the read over it, at 32-bit addresses. */
  function ImageView(image: Image): View { (a: nat) => Mapped(image, Wrap32(a)) }

  function TurnAt(image: Image, at: nat, n: nat): Turn { Piece(image, Wrap32(at), n) }

  function ImageReader(image: Image): Reader { (at: nat, n: nat) => TurnAt(image, at, n) }

  // ---------------------------------------------------------------- when the read is the image

  /** No sum of the tables passes 32 bits, and no two sections share an address. */
  ghost predicate Sane(image: Image) {
    && image.headers < SPACE32
    && (forall i {:trigger image.sections[i]} :: 0 <= i < |image.sections| ==> Fits32(image.sections[i]))
    && (forall i, j :: 0 <= i < j < |image.sections| ==> Apart(image.sections[i], image.sections[j]))
  }

  predicate Fits32(s: Section) { s.rva + Span(s) < SPACE32 && s.rawOffset + s.rawSize < SPACE32 }

  predicate Apart(s: Section, t: Section) { s.rva + Span(s) <= t.rva || t.rva + Span(t) <= s.rva }

  /** What of a section is not hidden behind the headers. */
  function Hidden(image: Image, s: Section): nat { if s.rva < image.headers then image.headers - s.rva else 0 }

  /** The raw data that can be read lies inside the file, or all of it outside. */
  ghost predicate Whole(image: Image) {
    forall i {:trigger image.sections[i]} :: 0 <= i < |image.sections| ==> SectionWhole(image, image.sections[i])
  }

  predicate SectionWhole(image: Image, s: Section) {
    || s.rawSize <= Hidden(image, s)
    || s.rawOffset + s.rawSize <= |image.file|
    || s.rawOffset + Hidden(image, s) >= |image.file|
  }

  lemma OnlySection(image: Image, i: nat, rva: nat)
    requires Sane(image) && i < |image.sections| && Holds(image.sections[i], rva)
    ensures FirstHolding(image.sections, rva, 0) == Some(i)
  {
    var s := image.sections[i];
    assert Fits32(s) && Wrap32(s.rva + Span(s)) == s.rva + Span(s);
    forall j {:trigger image.sections[j]} | 0 <= j < |image.sections| && j != i ensures !Holds(image.sections[j], rva) {
      var t := image.sections[j];
      assert Fits32(t) && Wrap32(t.rva + Span(t)) == t.rva + Span(t);
      assert if i < j then Apart(s, t) else Apart(t, s);
    }
  }

  lemma SectionPieceBytes(image: Image, i: nat, rva: nat, n: nat, k: nat)
    requires Sane(image) && i < |image.sections| && Holds(image.sections[i], rva) && rva >= image.headers
    requires k < |SectionPiece(image, image.sections[i], rva, n).bytes|
    ensures rva + k < SPACE32 && Mapped(image, rva + k) == Some(SectionPiece(image, image.sections[i], rva, n).bytes[k])
  {
    var s := image.sections[i];
    assert Fits32(s) && Wrap32(s.rva + Span(s)) == s.rva + Span(s);
    OnlySection(image, i, rva + k);
  }

  lemma PieceBytes(image: Image, rva: nat, n: nat, k: nat)
    requires Sane(image) && k < |Piece(image, rva, n).bytes|
    ensures rva + k < SPACE32 && Mapped(image, rva + k) == Some(Piece(image, rva, n).bytes[k])
  {
    if rva >= image.headers {
      var i := FirstHolding(image.sections, rva, 0).value;
      SectionPieceBytes(image, i, rva, n, k);
    }
  }

  lemma PieceStops(image: Image, rva: nat, n: nat)
    requires Sane(image) && Whole(image) && n > 0
    ensures var turn := Piece(image, rva, n);
            !turn.more && |turn.bytes| < n && rva + |turn.bytes| < SPACE32 ==> Mapped(image, rva + |turn.bytes|).None?
  {
    if rva >= image.headers && FirstHolding(image.sections, rva, 0).Some? {
      var s := image.sections[FirstHolding(image.sections, rva, 0).value];
      assert Fits32(s) && SectionWhole(image, s) && Wrap32(s.rva + Span(s)) == s.rva + Span(s);
    }
  }

  // ---------------------------------------------------------------- reading at wrapped addresses

  /** The view is what is mapped at 32-bit addresses. */
  ghost predicate Wraps(view: View, mapped: nat -> Option<byte>) {
    forall a: nat {:trigger At(view, a)} :: At(view, a) == mapped(Wrap32(a))
  }

  /** The turns are the pieces at 32-bit addresses. */
  ghost predicate Turns(turn: Reader, piece: Reader) {
    forall at: nat, n: nat {:trigger turn(at, n)} :: turn(at, n) == piece(Wrap32(at), n)
  }

  /** Every piece holds what is mapped, below 2^32. */
  ghost predicate Exact(piece: Reader, mapped: nat -> Option<byte>) {
    forall rva: nat, n: nat {:trigger piece(rva, n)} :: ExactAt(mapped, rva, piece(rva, n))
  }

  ghost predicate ExactAt(mapped: nat -> Option<byte>, rva: nat, t: Turn) {
    forall k: nat {:trigger t.bytes[k]} :: k < |t.bytes| ==> rva + k < SPACE32 && mapped(rva + k) == Some(t.bytes[k])
  }

  /** A last piece that is short ends where nothing is mapped, below 2^32. */
  ghost predicate Stops(piece: Reader, mapped: nat -> Option<byte>) {
    forall rva: nat, n: nat {:trigger piece(rva, n)} :: n > 0 && rva < SPACE32 ==>
        StopsAt(mapped, rva, n, piece(rva, n))
  }

  ghost predicate StopsAt(mapped: nat -> Option<byte>, rva: nat, n: nat, t: Turn) {
    !t.more && |t.bytes| < n ==> rva + |t.bytes| < SPACE32 && mapped(rva + |t.bytes|).None?
  }

  lemma WrapsOn(view: View, mapped: nat -> Option<byte>, at: nat, k: nat)
    requires Wraps(view, mapped) && Wrap32(at) + k < SPACE32
    ensures At(view, at + k) == mapped(Wrap32(at) + k)
  {
    Wrap32Step(at, k);
  }

  lemma ExactByte(mapped: nat -> Option<byte>, rva: nat, t: Turn, k: nat)
    requires ExactAt(mapped, rva, t) && k < |t.bytes|
    ensures rva + k < SPACE32 && mapped(rva + k) == Some(t.bytes[k])
  {
    var b := t.bytes[k];
  }

  lemma WrappedShows(view: View, mapped: nat -> Option<byte>, turn: Reader, piece: Reader, at: nat, n: nat)
    requires Wraps(view, mapped) && Turns(turn, piece) && Exact(piece, mapped)
    ensures Shows(view, at, turn(at, n).bytes)
  {
    var bytes := turn(at, n).bytes;
    forall a: nat {:trigger At(view, a)} | at <= a < at + |bytes| ensures At(view, a) == Some(bytes[a - at]) {
      ExactByte(mapped, Wrap32(at), turn(at, n), a - at);
      WrapsOn(view, mapped, at, a - at);
    }
  }

  lemma WrappedStops(view: View, mapped: nat -> Option<byte>, turn: Reader, piece: Reader, at: nat, n: nat)
    requires Wraps(view, mapped) && Turns(turn, piece) && Stops(piece, mapped) && n > 0
    ensures !turn(at, n).more && |turn(at, n).bytes| < n ==> At(view, at + |turn(at, n).bytes|).None?
  {
    var t := turn(at, n);
    assert StopsAt(mapped, Wrap32(at), n, t);
    if !t.more && |t.bytes| < n {
      WrapsOn(view, mapped, at, |t.bytes|);
    }
  }

  lemma WrappedReads(view: View, mapped: nat -> Option<byte>, turn: Reader, piece: Reader)
    requires Wraps(view, mapped) && Turns(turn, piece) && Progresses(piece) && Exact(piece, mapped)
    ensures Progresses(turn) && Truthful(turn, view) && (Stops(piece, mapped) ==> Thorough(turn, view))
  {
    forall at: nat, n: nat {:trigger turn(at, n)} | n > 0 ensures Shows(view, at, turn(at, n).bytes) {
      WrappedShows(view, mapped, turn, piece, at, n);
    }
    if Stops(piece, mapped) {
      forall at: nat, n: nat {:trigger turn(at, n)} | n > 0 && !turn(at, n).more && |turn(at, n).bytes| < n
        ensures At(view, at + |turn(at, n).bytes|).None?
      {
        WrappedStops(view, mapped, turn, piece, at, n);
      }
    }
  }

  // ---------------------------------------------------------------- what the image's reads deliver

  /** The map and the pieces are the image's. */
  ghost predicate Describes(image: Image, mapped: nat -> Option<byte>, piece: Reader) {
    && (forall rva: nat {:trigger Mapped(image, rva)} :: mapped(rva) == Mapped(image, rva))
    && (forall rva: nat, n: nat {:trigger Piece(image, rva, n)} :: piece(rva, n) == Piece(image, rva, n))
  }

  lemma PiecesExact(image: Image, mapped: nat -> Option<byte>, piece: Reader)
    requires Sane(image) && Describes(image, mapped, piece)
    ensures Progresses(piece) && Exact(piece, mapped)
  {
    PiecesProgress(image, mapped, piece);
    forall rva: nat, n: nat {:trigger piece(rva, n)} ensures ExactAt(mapped, rva, piece(rva, n)) {
      PieceExact(image, mapped, piece, rva, n);
    }
  }

  lemma PiecesProgress(image: Image, mapped: nat -> Option<byte>, piece: Reader)
    requires Describes(image, mapped, piece)
    ensures Progresses(piece)
  {
    forall rva: nat, n: nat {:trigger piece(rva, n)} | n > 0
      ensures |piece(rva, n).bytes| <= n && (piece(rva, n).more ==> |piece(rva, n).bytes| > 0)
    {
      var t := Piece(image, rva, n);
    }
  }

  lemma PieceExact(image: Image, mapped: nat -> Option<byte>, piece: Reader, rva: nat, n: nat)
    requires Sane(image) && Describes(image, mapped, piece)
    ensures ExactAt(mapped, rva, piece(rva, n))
  {
    var t := Piece(image, rva, n);
    forall k: nat {:trigger t.bytes[k]} | k < |t.bytes|
      ensures rva + k < SPACE32 && mapped(rva + k) == Some(t.bytes[k])
    {
      var shown := Mapped(image, rva + k);
      PieceBytes(image, rva, n, k);
    }
  }

  lemma PiecesStop(image: Image, mapped: nat -> Option<byte>, piece: Reader)
    requires Sane(image) && Whole(image) && Describes(image, mapped, piece)
    ensures Stops(piece, mapped)
  {
    forall rva: nat, n: nat {:trigger piece(rva, n)} | n > 0 && rva < SPACE32
      ensures StopsAt(mapped, rva, n, piece(rva, n))
    {
      var t := Piece(image, rva, n);
      EndOfPiece(image, rva, n, t);
      var shown := Mapped(image, rva + |t.bytes|);
    }
  }

  /** A turn that is the last one ends below 2^32, where nothing is mapped. */
  lemma EndOfPiece(image: Image, rva: nat, n: nat, t: Turn)
    requires Sane(image) && Whole(image) && n > 0 && rva < SPACE32 && t == Piece(image, rva, n)
    ensures !t.more && |t.bytes| < n ==> rva + |t.bytes| < SPACE32 && Mapped(image, rva + |t.bytes|).None?
  {
    PieceInside(image, rva, n);
    PieceStops(image, rva, n);
  }

  /** A turn that is the last one ends below 2^32. */
  lemma PieceInside(image: Image, rva: nat, n: nat)
    requires Sane(image) && rva < SPACE32
    ensures var turn := Piece(image, rva, n); !turn.more ==> rva + |turn.bytes| < SPACE32
  {
  }

  /** Every read delivers the longest mapped prefix. */
  ghost predicate Refines(turn: Reader, view: View)
    requires Progresses(turn)
  {
    forall at: nat, n: nat :: Turned(turn, at, n) == LongestPrefix(view, at, n)
  }

  function Mapping(image: Image): nat -> Option<byte> { (rva: nat) => Mapped(image, rva) }

  function Pieces(image: Image): Reader { (rva: nat, n: nat) => Piece(image, rva, n) }

  /** The image's reads never deliver a wrong byte, and with whole raw data stop only where nothing is mapped. */
  lemma ReaderRefines(image: Image)
    requires Sane(image)
    ensures var turn, view := ImageReader(image), ImageView(image);
            Progresses(turn) && Truthful(turn, view) && (Whole(image) ==> Thorough(turn, view))
  {
    var mapped, piece := Mapping(image), Pieces(image);
    PiecesExact(image, mapped, piece);
    WrappedReads(ImageView(image), mapped, ImageReader(image), piece);
    if Whole(image) {
      PiecesStop(image, mapped, piece);
    }
  }

  /** The piece is the last, and empty, though the first byte is mapped. */
  ghost predicate Cut(image: Image, at: nat, n: nat) {
    at < SPACE32 && n > 0 && Piece(image, at, n) == Turn([], false) && Mapped(image, at).Some?
  }

  /** So it is where the raw data of a section that is not whole can first be read. */
  lemma CutPiece(image: Image, i: nat)
    requires Sane(image) && i < |image.sections| && !SectionWhole(image, image.sections[i])
    ensures var s := image.sections[i];
            s.rawSize >= Hidden(image, s) && Cut(image, s.rva + Hidden(image, s), s.rawSize - Hidden(image, s))
  {
    var s := image.sections[i];
    assert Fits32(s) && Wrap32(s.rva + Span(s)) == s.rva + Span(s);
    OnlySection(image, i, s.rva + Hidden(image, s));
  }

  /** The view and the reader are the image's. */
  ghost predicate Reads(image: Image, turn: Reader, view: View) {
    && (forall at: nat, n: nat {:trigger Piece(image, at, n)} :: at < SPACE32 ==> turn(at, n) == Piece(image, at, n))
    && (forall a: nat {:trigger Mapped(image, a)} :: a < SPACE32 ==> At(view, a) == Mapped(image, a))
  }

  /**
   * From the first byte of its raw data that is not hidden on, a section whose raw data runs past the
   * file reads as nothing, though that byte is there.
   */
  lemma CutSectionReads(image: Image, turn: Reader, view: View, i: nat)
    requires Sane(image) && Reads(image, turn, view) && Progresses(turn)
    requires i < |image.sections| && !SectionWhole(image, image.sections[i])
    ensures var s := image.sections[i];
            var at, n := s.rva + Hidden(image, s), s.rawSize - Hidden(image, s);
            n > 0 && Turned(turn, at, n) == [] && |LongestPrefix(view, at, n)| > 0
  {
    var s := image.sections[i];
    CutPiece(image, i);
    CutReads(turn, view, s.rva + Hidden(image, s), s.rawSize - Hidden(image, s));
  }

  lemma CutReads(turn: Reader, view: View, at: nat, n: nat)
    requires Progresses(turn) && n > 0
    requires turn(at, n) == Turn([], false) && At(view, at).Some?
    ensures Turned(turn, at, n) == [] && |LongestPrefix(view, at, n)| > 0
  {
    var stop := At(view, at + |LongestPrefix(view, at, n)|);
  }

  lemma RefinesIffWhole(image: Image, turn: Reader, view: View)
    requires Sane(image) && Reads(image, turn, view) && Progresses(turn) && Truthful(turn, view)
    requires Whole(image) ==> Thorough(turn, view)
    ensures Refines(turn, view) <==> Whole(image)
  {
    if Whole(image) {
      forall at: nat, n: nat ensures Turned(turn, at, n) == LongestPrefix(view, at, n) {
        TurnedIsLongest(turn, view, at, n);
      }
    }
    if Refines(turn, view) {
      forall i {:trigger image.sections[i]} | 0 <= i < |image.sections| ensures SectionWhole(image, image.sections[i]) {
        if !SectionWhole(image, image.sections[i]) {
          CutSectionReads(image, turn, view, i);
        }
      }
    }
  }

  lemma ImageReads(image: Image)
    ensures Reads(image, ImageReader(image), ImageView(image))
  {
  }

  /**
   * ReadRva delivers the longest mapped prefix of header byte, else section byte, else zero tail, from
   * every address and for every size, if and only if no readable raw data runs past the end of the file.
   */
  lemma ReadsExactlyWhenWhole(image: Image)
    requires Sane(image)
    ensures var turn := ImageReader(image); Progresses(turn) && (Refines(turn, ImageView(image)) <==> Whole(image))
  {
    ReaderRefines(image);
    ImageReads(image);
    RefinesIffWhole(image, ImageReader(image), ImageView(image));
  }

  /** Reading a bytes and then b is reading a + b, whenever the first read is complete. */
  lemma ReadsSplit(image: Image, at: nat, a: nat, b: nat)
    requires Sane(image) && Whole(image)
    ensures var turn := ImageReader(image);
            Progresses(turn) &&
            var first := Turned(turn, at, a);
            Turned(turn, at, a + b) == if |first| == a then first + Turned(turn, at + a, b) else first
  {
    ReaderRefines(image);
    TurnedSplits(ImageReader(image), ImageView(image), at, a, b);
  }

  // ---------------------------------------------------------------- the reader

  method SectionForRva(sections: seq<Section>, rva: nat) returns (at: Option<nat>)
    ensures at == FirstHolding(sections, rva, 0)
  {
    var i := 0;
    while i < |sections|
      invariant 0 <= i <= |sections| && FirstHolding(sections, rva, 0) == FirstHolding(sections, rva, i)
    {
      if Holds(sections[i], rva) {
        return Some(i);
      }
      i := i + 1;
    }
    at := None;
  }

  /** One turn of the read, into the buffer. */
  method ReadTurn(image: Image, at: nat, dest: array<byte>, into: nat, n: nat, ghost turn: Reader) returns (t: Turn)
    requires Gives(image, turn) && into + n <= dest.Length && n > 0
    modifies dest
    ensures t == turn(at, n) && |t.bytes| <= n && dest[..] == Spliced(old(dest[..]), into, t.bytes)
  {
    ghost var given := TurnAt(image, at, n);
    var rva := Wrap32(at);
    if rva < image.headers {
      t := HeaderPiece(image, rva, n);
    } else {
      var section := SectionForRva(image.sections, rva);
      t := if section.None? then Turn([], false) else SectionPiece(image, image.sections[section.value], rva, n);
    }
    forall k | 0 <= k < |t.bytes| {
      dest[into + k] := t.bytes[k];
    }
  }

  /** The turn after the bytes s, behind them in the buffer. */
  method ReadNext(image: Image, rva: nat, dest: array<byte>, done: nat, size: nat, ghost turn: Reader,
                  ghost s: seq<byte>, ghost start: seq<byte>)
    returns (t: Turn)
    requires Gives(image, turn) && Progresses(turn) && done == |s| < size <= dest.Length == |start|
    requires dest[..] == Spliced(start, 0, s) && Along(turn, rva, size, s, true)
    modifies dest
    ensures |s + t.bytes| <= size && dest[..] == Spliced(start, 0, s + t.bytes)
    ensures Along(turn, rva, size, s + t.bytes, t.more) && (t.more ==> |t.bytes| > 0)
  {
    ghost var was := dest[..];
    t := ReadTurn(image, rva + done, dest, done, size - done, turn);
    TurnTaken(turn, rva, size, s, t, start, was, dest[..]);
  }

  /** The turns are those of the image. */
  ghost predicate Gives(image: Image, turn: Reader) {
    forall at: nat, n: nat {:trigger TurnAt(image, at, n)} :: turn(at, n) == TurnAt(image, at, n)
  }

  method ReadTurns(image: Image, rva: nat, dest: array<byte>, size: nat, ghost turn: Reader) returns (done: nat)
    requires size <= dest.Length && Progresses(turn) && Gives(image, turn)
    modifies dest
    ensures done == |Turned(turn, rva, size)| && dest[..] == Spliced(old(dest[..]), 0, Turned(turn, rva, size))
  {
    ghost var s, start := [], dest[..];
    done := 0;
    var more := true;
    AlongStarts(turn, rva, size);
    while done < size && more
      invariant done == |s| && Along(turn, rva, size, s, more)
      invariant dest[..] == Spliced(start, 0, s)
      decreases size - done, more
    {
      var t := ReadNext(image, rva, dest, done, size, turn, s, start);
      s, done, more := s + t.bytes, done + |t.bytes|, t.more;
    }
    AlongEnds(turn, rva, size, s, more);
  }

  /** Reads as the loader would map it, as far as that reaches. */
  method ReadRva(image: Image, rva: nat, dest: array<byte>, size: nat) returns (done: nat)
    requires size <= dest.Length
    modifies dest
    ensures var turn := ImageReader(image);
            && Progresses(turn) && done == |Turned(turn, rva, size)|
            && dest[..] == Spliced(old(dest[..]), 0, Turned(turn, rva, size))
  {
    ghost var turn := ImageReader(image);
    done := ReadTurns(image, rva, dest, size, turn);
  }
}
