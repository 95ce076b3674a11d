/** What a single-line string stands for by the "String" section of TOML v1.0.0, and which values are written as one. */
module TomlStrings {
  import opened Common
  import opened Names
  import opened Toml

  // ---------------------------------------------------------------- what a string stands for

  const DEL: char := 0x7F as char

  /** The control characters other than the tab: none of them may stand in a string as it is. */
  predicate Forbidden(c: char) { (IsControl(c) && c != '\t') || c == DEL }

  /** The numbers \u and \U may give: those of Unicode scalar values. */
  predicate IsScalar(n: nat) { n < 0xD800 || 0xE000 <= n < 0x11_0000 }

  /** The escapes of one letter. */
  function Simple(c: char): Option<char> {
    match c
    case 'b' => Some(0x08 as char)
    case 't' => Some('\t')
    case 'n' => Some('\n')
    case 'f' => Some(0x0C as char)
    case 'r' => Some('\r')
    case '"' => Some('"')
    case '\\' => Some('\\')
    case _ => None
  }

  /** The character that so many digits behind the letter of an escape give. */
  function Numbered(body: string, digits: nat): Option<char> {
    if |body| < 2 + digits || !AllHex(body[2..2 + digits]) then None
    else
      var n := HexValue(body[2..2 + digits]);
      if IsScalar(n) then Some(n as char) else None
  }

  /** The escape a body begins with, and how long it is. */
  function Escape(body: string): (e: Option<(char, nat)>)
    requires |body| >= 2
    ensures e.Some? ==> 2 <= e.value.1 <= |body|
  {
    if body[1] == 'u' then
      match Numbered(body, 4) case Some(c) => Some((c, 6)) case None => None
    else if body[1] == 'U' then
      match Numbered(body, 8) case Some(c) => Some((c, 10)) case None => None
    else
      match Simple(body[1]) case Some(c) => Some((c, 2)) case None => None
  }

  function Put(c: char, rest: Option<string>): Option<string> {
    match rest case Some(s) => Some([c] + s) case None => None
  }

  /** What is between the quotes of a basic string stands for this, if it may stand there at all. */
  function BasicValue(body: string): Option<string>
    decreases |body|
  {
    if body == "" then Some("")
    else if body[0] == '\\' then
      if |body| < 2 then None
      else
        match Escape(body)
        case Some((c, length)) => Put(c, BasicValue(body[length..]))
        case None => None
    else if body[0] == '"' || Forbidden(body[0]) then None
    else Put(body[0], BasicValue(body[1..]))
  }

  /** And what is between those of a literal string. */
  function LiteralValue(body: string): Option<string> {
    if forall i :: 0 <= i < |body| ==> body[i] != '\'' && !Forbidden(body[i]) then Some(body) else None
  }

  /** What a text stands for that is one single-line string, literal or basic; three quotes begin another kind. */
  function StringValue(text: string): Option<string> {
    if |text| < 2 || text[0] != text[|text| - 1] || (|text| > 2 && text[0] == text[1] == text[2]) then None
    else if text[0] == '\'' then LiteralValue(text[1..|text| - 1])
    else if text[0] == '"' then BasicValue(text[1..|text| - 1])
    else None
  }

  // ---------------------------------------------------------------- what is written

  lemma Hex4Four(n: nat)
    requires n < 0x20
    ensures |Hex4(n)| == 4
  {
    assert Hex(n) == if n < 16 then [HexChar(n)] else [HexChar(n / 16)] + [HexChar(n % 16)];
  }

  lemma NumberedBack(c: char, hex: string, rest: string)
    requires IsControl(c) && |hex| == 4 && AllHex(hex) && HexValue(hex) == c as int
    ensures BasicValue("\\u" + hex + rest) == Put(c, BasicValue(rest))
  {
    var body := "\\u" + hex + rest;
    assert body[0] == '\\' && body[1] == 'u' && body[2..6] == hex && body[6..] == rest;
    assert Numbered(body, 4) == Some(c);
    assert Escape(body) == Some((c, 6));
  }

  lemma SimpleBack(c: char, letter: char, rest: string)
    requires Simple(letter) == Some(c) && letter != 'u' && letter != 'U'
    ensures BasicValue(['\\', letter] + rest) == Put(c, BasicValue(rest))
  {
    var body := ['\\', letter] + rest;
    assert body[0] == '\\' && body[1] == letter && body[2..] == rest;
    assert Escape(body) == Some((c, 2));
  }

  /** A character is written so that it is read back, unless it is U+007F, which no string may hold as it is. */
  lemma EscapedBack(c: char, rest: string)
    ensures BasicValue(Escaped(c) + rest) == if c == DEL then None else Put(c, BasicValue(rest))
  {
    if c in {'\\', '"', '\n', '\r', '\t'} {
      SimpleBack(c, Escaped(c)[1], rest);
      assert Escaped(c) == ['\\', Escaped(c)[1]];
    } else if IsControl(c) {
      Hex4Back(c as int);
      Hex4Four(c as int);
      NumberedBack(c, Hex4(c as int), rest);
    } else {
      assert ([c] + rest)[0] == c && ([c] + rest)[1..] == rest;
    }
  }

  /** Each code gives its character back, or nothing. */
  ghost predicate GivesBack(code: Code) {
    forall c: char, rest: string {:trigger BasicValue(code(c) + rest)} ::
      BasicValue(code(c) + rest) == if c == DEL then None else Put(c, BasicValue(rest))
  }

  lemma {:induction false} CodedBack(code: Code, value: string)
    requires GivesBack(code)
    ensures BasicValue(Coded(code, value)) == if DEL in value then None else Some(value)
  {
    if value != "" {
      CodedBack(code, value[1..]);
      assert BasicValue(code(value[0]) + Coded(code, value[1..]))
          == if value[0] == DEL then None else Put(value[0], BasicValue(Coded(code, value[1..])));
      assert value == [value[0]] + value[1..];
      assert DEL in value <==> value[0] == DEL || DEL in value[1..];
    }
  }

  lemma BodyBack(value: string)
    ensures BasicValue(EscapedAll(value)) == if DEL in value then None else Some(value)
  {
    forall c: char, rest: string {:trigger BasicValue(Escaped(c) + rest)}
      ensures BasicValue(Escaped(c) + rest) == if c == DEL then None else Put(c, BasicValue(rest))
    {
      EscapedBack(c, rest);
    }
    CodedBack(Escaped, value);
  }

  /** What is written is a string of TOML that stands for the value, if and only if the value holds no U+007F. */
  lemma WrittenStandsFor(value: string)
    ensures StringValue(Quoted(value)) == Some(value) <==> DEL !in value
  {
    if Awkward(value) {
      BasicStands(value);
    } else {
      LiteralStands(value);
    }
  }

  lemma BasicStands(value: string)
    requires Awkward(value)
    ensures StringValue(Quoted(value)) == if DEL in value then None else Some(value)
  {
    var body := EscapedAll(value);
    var text := "\"" + body + "\"";
    BodyBack(value);
    FirstNoQuote(value);
    assert text[0] == text[|text| - 1] == '"' && text[1..|text| - 1] == body && text[1] == body[0];
  }

  /** No quote stands first in what is between the quotes. */
  lemma FirstNoQuote(value: string)
    requires value != ""
    ensures EscapedAll(value) != "" && EscapedAll(value)[0] != '"'
  {
    var front, rest := Escaped(value[0]), Coded(Escaped, value[1..]);
    assert front != "" && front[0] != '"';
    assert (front + rest)[0] == front[0];
  }

  lemma LiteralStands(value: string)
    requires !Awkward(value)
    ensures StringValue(Quoted(value)) == if DEL in value then None else Some(value)
  {
    var text := "'" + value + "'";
    assert text[0] == text[|text| - 1] == '\'' && text[1..|text| - 1] == value;
    if value != "" {
      assert text[1] == value[0];
    }
    if DEL in value {
      var i :| 0 <= i < |value| && value[i] == DEL;
      assert Forbidden(value[i]);
    }
  }
}
