/** Which texts spell a pattern, and which one: the notation, piece by piece, against the parser. */
module PatternText {
  import opened Common
  import opened Names
  import opened Pattern

  /** What a text is made of: a blank, a wildcard of one mark or of two, a byte of two digits. */
  datatype Piece = Blank(c: char) | Mark | Marks | Digits(hi: char, lo: char)

  const BLANKS: string := " \t\n\U{000B}\U{000C}\r"

  predicate IsPiece(p: Piece) {
    match p
    case Blank(c) => c in BLANKS
    case Mark => true
    case Marks => true
    case Digits(hi, lo) => IsHex(hi) && IsHex(lo)
  }

  function PieceText(p: Piece): string {
    match p
    case Blank(c) => [c]
    case Mark => "?"
    case Marks => "??"
    case Digits(hi, lo) => [hi, lo]
  }

  /** The positions a piece stands for: digits of either case. */
  function PieceTokens(p: Piece): seq<Token>
    requires IsPiece(p)
  {
    match p
    case Blank(_) => []
    case Mark => [Wild]
    case Marks => [Wild]
    case Digits(hi, lo) => [Fixed(16 * HexDigit(hi) + HexDigit(lo))]
  }

  /** A single mark is not followed by another: the two would be one wildcard. */
  ghost predicate Spells(ps: seq<Piece>) {
    && (forall i :: 0 <= i < |ps| ==> IsPiece(ps[i]))
    && (forall i :: 0 < i < |ps| && ps[i - 1].Mark? ==> !ps[i].Mark? && !ps[i].Marks?)
  }

  function Text(ps: seq<Piece>): string { if ps == [] then "" else PieceText(ps[0]) + Text(ps[1..]) }

  ghost function Meaning(ps: seq<Piece>): seq<Token>
    requires forall i :: 0 <= i < |ps| ==> IsPiece(ps[i])
  {
    if ps == [] then [] else PieceTokens(ps[0]) + Meaning(ps[1..])
  }

  /** Digits of either case are read, and nothing else. */
  lemma NibbleIs(c: char)
    ensures HexNibble(c) == if IsHex(c) then Some(HexDigit(c)) else None
  {
  }

  lemma BlankIs(c: char)
    ensures IsSpace(c) <==> c in BLANKS
  {
  }

  lemma BlankRead(text: string)
    requires text != "" && text[0] in BLANKS
    ensures Tokens(text, 0) == Tokens(text, 1)
  {
    BlankIs(text[0]);
  }

  lemma MarkRead(text: string)
    requires text != "" && text[0] == '?' && (|text| > 1 ==> text[1] != '?')
    ensures Tokens(text, 0) == Prepend(Wild, Tokens(text, 1))
  {
  }

  lemma MarksRead(text: string)
    requires |text| > 1 && text[0] == '?' && text[1] == '?'
    ensures Tokens(text, 0) == Prepend(Wild, Tokens(text, 2))
  {
  }

  lemma DigitsRead(text: string)
    requires |text| > 1 && IsHex(text[0]) && IsHex(text[1])
    ensures Tokens(text, 0) == Prepend(Fixed(16 * HexDigit(text[0]) + HexDigit(text[1])), Tokens(text, 2))
  {
    NibbleIs(text[0]);
    NibbleIs(text[1]);
  }

  function Behind(ts: seq<Token>, more: Option<seq<Token>>): Option<seq<Token>> {
    if more.None? then None else Some(ts + more.value)
  }

  lemma AfterBlank(c: char, rest: string)
    requires c in BLANKS
    ensures Tokens([c] + rest, 0) == Behind([], Tokens(rest, 0))
  {
    TokensShift([c], rest, 0);
    BlankRead([c] + rest);
    assert Tokens(rest, 0).Some? ==> [] + Tokens(rest, 0).value == Tokens(rest, 0).value;
  }

  lemma AfterMark(rest: string)
    requires rest == "" || rest[0] != '?'
    ensures Tokens("?" + rest, 0) == Behind([Wild], Tokens(rest, 0))
  {
    TokensShift("?", rest, 0);
    MarkRead("?" + rest);
  }

  lemma AfterMarks(rest: string)
    ensures Tokens("??" + rest, 0) == Behind([Wild], Tokens(rest, 0))
  {
    TokensShift("??", rest, 0);
    MarksRead("??" + rest);
  }

  lemma AfterDigits(hi: char, lo: char, rest: string)
    requires IsHex(hi) && IsHex(lo)
    ensures Tokens([hi, lo] + rest, 0) == Behind([Fixed(16 * HexDigit(hi) + HexDigit(lo))], Tokens(rest, 0))
  {
    TokensShift([hi, lo], rest, 0);
    DigitsRead([hi, lo] + rest);
  }

  /** What follows a piece is read as if it stood alone. */
  lemma AfterPiece(p: Piece, rest: string, text: string)
    requires IsPiece(p) && (p.Mark? ==> rest == "" || rest[0] != '?') && text == PieceText(p) + rest
    ensures Tokens(text, 0) == Behind(PieceTokens(p), Tokens(rest, 0))
  {
    match p {
      case Blank(c) => AfterBlank(c, rest);
      case Mark => AfterMark(rest);
      case Marks => AfterMarks(rest);
      case Digits(hi, lo) => AfterDigits(hi, lo, rest);
    }
  }

  lemma FirstIs(ps: seq<Piece>)
    requires Spells(ps) && ps != []
    ensures Text(ps) != "" && (Text(ps)[0] == '?' <==> ps[0].Mark? || ps[0].Marks?)
  {
    BlankIs('?');
  }

  lemma SpellsRest(ps: seq<Piece>)
    requires Spells(ps) && ps != []
    ensures Spells(ps[1..])
  {
  }

  /** Pieces are read as what they stand for. */
  lemma {:induction false} ReadsPieces(ps: seq<Piece>)
    requires Spells(ps)
    ensures Tokens(Text(ps), 0) == Some(Meaning(ps))
  {
    if ps != [] {
      SpellsRest(ps);
      ReadsPieces(ps[1..]);
      if |ps| > 1 {
        FirstIs(ps[1..]);
        assert ps[1..][0] == ps[1];
      }
      AfterPiece(ps[0], Text(ps[1..]), Text(ps));
    }
  }

  lemma SpellsMore(p: Piece, ps: seq<Piece>)
    requires Spells(ps) && IsPiece(p) && (p.Mark? ==> Text(ps) == "" || Text(ps)[0] != '?')
    ensures Spells([p] + ps) && Text([p] + ps) == PieceText(p) + Text(ps)
  {
    assert ([p] + ps)[1..] == ps;
    if ps != [] {
      FirstIs(ps);
    }
  }

  /** The first piece of a text that can be read. */
  lemma FirstPiece(text: string) returns (p: Piece, rest: string)
    requires text != "" && Tokens(text, 0).Some?
    ensures IsPiece(p) && text == PieceText(p) + rest && |rest| < |text|
    ensures (p.Mark? ==> rest == "" || rest[0] != '?') && Tokens(rest, 0).Some?
  {
    BlankIs(text[0]);
    NibbleIs(text[0]);
    if IsSpace(text[0]) {
      p := Blank(text[0]);
    } else if text[0] == '?' {
      p := if |text| > 1 && text[1] == '?' then Marks else Mark;
    } else {
      NibbleIs(text[1]);
      p := Digits(text[0], text[1]);
    }
    rest := text[|PieceText(p)|..];
    assert text == PieceText(p) + rest;
    TokensShift(PieceText(p), rest, 0);
  }

  /** And every text that can be read is made of pieces. */
  lemma {:induction false} MadeOfPieces(text: string) returns (ps: seq<Piece>)
    requires Tokens(text, 0).Some?
    ensures Spells(ps) && Text(ps) == text
    decreases |text|
  {
    if text == "" {
      ps := [];
    } else {
      var p, rest := FirstPiece(text);
      ps := MadeOfPieces(rest);
      SpellsMore(p, ps);
      ps := [p] + ps;
    }
  }

  /** A text is read as some positions if and only if it is made of pieces that stand for them. */
  lemma ReadIff(text: string, ts: seq<Token>)
    ensures Tokens(text, 0) == Some(ts) <==> exists ps :: Spells(ps) && Text(ps) == text && Meaning(ps) == ts
  {
    if Tokens(text, 0) == Some(ts) {
      var ps := MadeOfPieces(text);
      ReadsPieces(ps);
    }
    if ps: seq<Piece> :| Spells(ps) && Text(ps) == text && Meaning(ps) == ts {
      ReadsPieces(ps);
    }
  }

  /** The text is a pattern if and only if it is so made and some position is fixed. */
  lemma PatternIff(text: string)
    ensures (Tokens(text, 0).Some? && FromTokens(Tokens(text, 0).value).Some?) <==>
            exists ps: seq<Piece> :: Spells(ps) && Text(ps) == text && exists p: Piece :: p in ps && p.Digits?
  {
    if Tokens(text, 0).Some? && FromTokens(Tokens(text, 0).value).Some? {
      var ps := MadeOfPieces(text);
      ReadsPieces(ps);
      FixedIff(ps);
    }
    if ps: seq<Piece> :| Spells(ps) && Text(ps) == text && exists p: Piece :: p in ps && p.Digits? {
      ReadsPieces(ps);
      FixedIff(ps);
    }
  }

  lemma {:induction false} FixedIff(ps: seq<Piece>)
    requires Spells(ps)
    ensures HasFixed(Meaning(ps)) <==> exists p: Piece :: p in ps && p.Digits?
  {
    if ps != [] {
      SpellsRest(ps);
      FixedIff(ps[1..]);
      FixedMore(PieceTokens(ps[0]), Meaning(ps[1..]));
      if ps[0].Digits? {
        assert PieceTokens(ps[0])[0].Fixed?;
      }
      assert ps == [ps[0]] + ps[1..];
    }
  }

  ghost predicate HasFixed(ts: seq<Token>) { exists i :: 0 <= i < |ts| && ts[i].Fixed? }

  lemma FixedMore(a: seq<Token>, b: seq<Token>)
    ensures HasFixed(a + b) <==> HasFixed(a) || HasFixed(b)
  {
    if i :| 0 <= i < |a + b| && (a + b)[i].Fixed? {
      if i < |a| {
        assert a[i].Fixed?;
      } else {
        assert b[i - |a|].Fixed?;
      }
    }
    if i :| 0 <= i < |a| && a[i].Fixed? {
      assert (a + b)[i].Fixed?;
    }
    if i :| 0 <= i < |b| && b[i].Fixed? {
      assert (a + b)[|a| + i].Fixed?;
    }
  }
}
