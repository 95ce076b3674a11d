/** The strings of the manifest: literal when they can be, basic with escapes when they cannot. */
module Toml {
  import opened Common
  import opened Names

  predicate IsControl(c: char) { c < 0x20 as char }

  /** The control characters that have an escape the reader knows. */
  predicate IsPlainControl(c: char) { c == '\n' || c == '\r' || c == '\t' }

  predicate Awkward(value: string) { exists i :: 0 <= i < |value| && (value[i] == '\'' || IsControl(value[i])) }

  /** A character inside a basic string. */
  function Escaped(c: char): string {
    if c == '\\' then "\\\\"
    else if c == '"' then "\\\""
    else if c == '\n' then "\\n"
    else if c == '\r' then "\\r"
    else if c == '\t' then "\\t"
    else if IsControl(c) then "\\u" + Hex4(c as int)
    else [c]
  }

  type Code = char -> string

  /** A text written character by character. */
  function Coded(code: Code, value: string): string {
    if value == "" then "" else code(value[0]) + Coded(code, value[1..])
  }

  function EscapedAll(value: string): string { Coded(Escaped, value) }

  /** The value as it is written. */
  function Quoted(value: string): string {
    if Awkward(value) then "\"" + EscapedAll(value) + "\"" else "'" + value + "'"
  }

  /** The escapes of a basic string's body; a backslash before anything else stays. */
  function Unescaped(body: string): string {
    if body == "" then ""
    else if body[0] != '\\' || |body| == 1 then [body[0]] + Unescaped(body[1..])
    else Unescape(body[1]) + Unescaped(body[2..])
  }

  function Unescape(c: char): string {
    match c
    case 'n' => "\n"
    case 'r' => "\r"
    case 't' => "\t"
    case '"' => "\""
    case '\\' => "\\"
    case _ => ['\\', c]
  }

  predicate IsQuote(c: char) { c == '\'' || c == '"' }

  /** Where the first quote of either kind is. */
  function FirstQuote(text: string, from: nat): (at: Option<nat>)
    requires from <= |text|
    ensures at.Some? ==> from <= at.value < |text| && IsQuote(text[at.value]) && forall i :: from <= i < at.value ==>
            !IsQuote(text[i])
    ensures at.None? ==> forall i :: from <= i < |text| ==> !IsQuote(text[i])
    decreases |text| - from
  {
    if from == |text| then None else if IsQuote(text[from]) then Some(from) else FirstQuote(text, from + 1)
  }

  /** Where the last of a character is, below n. */
  function LastOf(text: string, c: char, n: nat): (at: Option<nat>)
    requires n <= |text|
    ensures at.Some? ==> at.value < n && text[at.value] == c && forall i :: at.value < i < n ==> text[i] != c
    ensures at.None? ==> forall i :: 0 <= i < n ==> text[i] != c
  {
    if n == 0 then None else if text[n - 1] == c then Some(n - 1) else LastOf(text, c, n - 1)
  }

  /** The value that a text holds between its quotes. */
  function ValueOf(text: string): string {
    match FirstQuote(text, 0)
    case None => ""
    case Some(open) =>
      match LastOf(text, text[open], |text|)
      case None => ""
      case Some(close) =>
        if close <= open then ""
        else if text[open] == '\'' then text[open + 1..close] else Unescaped(text[open + 1..close])
  }

  // ---------------------------------------------------------------- round trip

  /** What reading makes of a character that was written. */
  function Reread(c: char): string {
    if IsControl(c) && !IsPlainControl(c) then "\\u" + Hex4(c as int) else [c]
  }

  function RereadAll(value: string): string { Coded(Reread, value) }

  lemma {:induction false} CodedMore(code: Code, value: string, c: char)
    ensures Coded(code, value + [c]) == Coded(code, value) + code(c)
  {
    if value == "" {
      assert Coded(code, [c]) == code(c) + Coded(code, "") by { assert [c][1..] == ""; }
      assert value + [c] == [c];
    } else {
      assert (value + [c])[1..] == value[1..] + [c];
      CodedMore(code, value[1..], c);
      assert code(value[0]) + (Coded(code, value[1..]) + code(c)) == code(value[0]) + Coded(code, value[1..]) + code(c);
    }
  }

  lemma {:induction false} PlainUnescaped(s: string, rest: string)
    requires forall i :: 0 <= i < |s| ==> s[i] != '\\'
    ensures Unescaped(s + rest) == s + Unescaped(rest)
    decreases |s|
  {
    if s == "" {
      assert s + rest == rest;
    } else {
      PlainUnescaped(s[1..], rest);
      PlainStep(s, rest);
    }
  }

  lemma PlainStep(s: string, rest: string)
    requires s != "" && s[0] != '\\'
    ensures Unescaped(s + rest) == [s[0]] + Unescaped(s[1..] + rest)
    ensures [s[0]] + (s[1..] + Unescaped(rest)) == s + Unescaped(rest)
  {
    assert (s + rest)[1..] == s[1..] + rest;
    assert s == [s[0]] + s[1..];
  }

  lemma {:induction false} HexDigits(n: nat)
    ensures forall c :: c in Hex(n) ==> '0' <= c <= 'F'
  {
    if n >= 16 {
      HexDigits(n / 16);
    }
  }

  lemma Hex4Plain(n: nat)
    ensures |Hex4(n)| >= 4 && forall i :: 0 <= i < |Hex4(n)| ==> Hex4(n)[i] != '\\'
  {
    HexDigits(n);
    var s := Hex(n);
    assert forall i :: 0 <= i < |s| ==> s[i] in s;
  }

  /** Reading a character's escape gives what it rereads as, and goes on behind it. */
  lemma EscapeReread(c: char, rest: string)
    ensures Unescaped(Escaped(c) + rest) == Reread(c) + Unescaped(rest)
  {
    if IsControl(c) && !IsPlainControl(c) {
      ControlReread(c, rest);
    } else if c in {'\\', '"', '\n', '\r', '\t'} {
      PairReread(c, rest);
    } else {
      assert ([c] + rest)[1..] == rest;
    }
  }

  lemma ControlReread(c: char, rest: string)
    requires IsControl(c) && !IsPlainControl(c)
    ensures Unescaped(Escaped(c) + rest) == Reread(c) + Unescaped(rest)
  {
    var hex := Hex4(c as int);
    Hex4Plain(c as int);
    PlainUnescaped(hex, rest);
    UnknownReread('u', hex, rest);
  }

  /** A backslash before a letter that is no escape stays, with the letter. */
  lemma UnknownReread(c: char, hex: string, rest: string)
    requires Unescape(c) == ['\\', c] && Unescaped(hex + rest) == hex + Unescaped(rest)
    ensures Unescaped(['\\', c] + hex + rest) == ['\\', c] + hex + Unescaped(rest)
  {
    var body := ['\\', c] + hex + rest;
    assert body[0] == '\\' && body[1] == c && body[2..] == hex + rest;
    assert ['\\', c] + (hex + Unescaped(rest)) == ['\\', c] + hex + Unescaped(rest);
  }

  lemma PairReread(c: char, rest: string)
    requires c in {'\\', '"', '\n', '\r', '\t'}
    ensures Unescaped(Escaped(c) + rest) == Reread(c) + Unescaped(rest)
  {
    var code := Escaped(c);
    assert |code| == 2 && (code + rest)[0] == '\\' && (code + rest)[1] == code[1];
    assert (code + rest)[2..] == rest;
  }

  /** Reading each character's code gives what it rereads as. */
  ghost predicate Rereads(code: Code, reread: Code) {
    forall c: char, rest: string {:trigger Unescaped(code(c) + rest)} ::
        Unescaped(code(c) + rest) == reread(c) + Unescaped(rest)
  }

  lemma {:induction false} CodeReread(code: Code, reread: Code, value: string)
    requires Rereads(code, reread)
    ensures Unescaped(Coded(code, value)) == Coded(reread, value)
  {
    if value != "" {
      CodeReread(code, reread, value[1..]);
      assert Unescaped(code(value[0]) + Coded(code, value[1..]))
          == reread(value[0]) + Unescaped(Coded(code, value[1..]));
    }
  }

  lemma BodyReread(value: string)
    ensures Unescaped(EscapedAll(value)) == RereadAll(value)
  {
    forall c: char, rest: string ensures Unescaped(Escaped(c) + rest) == Reread(c) + Unescaped(rest) {
      EscapeReread(c, rest);
    }
    CodeReread(Escaped, Reread, value);
  }

  /** The value between quotes, whatever comes before the first of them and is no quote. */
  lemma QuotedValue(lead: string, quote: char, body: string)
    requires IsQuote(quote) && forall i :: 0 <= i < |lead| ==> !IsQuote(lead[i])
    ensures ValueOf(lead + [quote] + body + [quote]) == if quote == '\'' then body else Unescaped(body)
  {
    var text := lead + [quote] + body + [quote];
    var open, close := FirstQuote(text, 0), LastOf(text, quote, |text|);
    assert text[|lead|] == quote && text[|text| - 1] == quote;
    assert open == Some(|lead|);
    assert close == Some(|text| - 1);
    assert text[|lead| + 1..|text| - 1] == body;
  }

  /** Written and read, a value comes back as its characters reread. */
  lemma ValueReread(lead: string, value: string)
    requires forall i :: 0 <= i < |lead| ==> !IsQuote(lead[i])
    ensures ValueOf(lead + Quoted(value)) == if Awkward(value) then RereadAll(value) else value
  {
    if Awkward(value) {
      var body := EscapedAll(value);
      assert lead + ("\"" + body + "\"") == lead + ['"'] + body + ['"'];
      QuotedValue(lead, '"', body);
      BodyReread(value);
    } else {
      assert lead + ("'" + value + "'") == lead + ['\''] + value + ['\''];
      QuotedValue(lead, '\'', value);
    }
  }

  /** The only control characters are the line feed, the carriage return and the tab. */
  ghost predicate Writable(value: string) { forall c :: c in value && IsControl(c) ==> IsPlainControl(c) }

  lemma {:induction false} RereadGrows(value: string)
    ensures |RereadAll(value)| >= |value|
    ensures |RereadAll(value)| == |value| <==> Writable(value)
    ensures Writable(value) ==> RereadAll(value) == value
  {
    if value != "" {
      RereadGrows(value[1..]);
      Hex4Plain(value[0] as int);
      assert value == [value[0]] + value[1..];
      assert forall c :: c in value <==> c == value[0] || c in value[1..];
    }
  }

  /** A value comes back as it was if and only if its only control characters are \n, \r and \t. */
  lemma RoundTrip(lead: string, value: string)
    requires forall i :: 0 <= i < |lead| ==> !IsQuote(lead[i])
    ensures ValueOf(lead + Quoted(value)) == value <==> Writable(value)
  {
    ValueReread(lead, value);
    RereadGrows(value);
    if !Awkward(value) {
      forall c | c in value ensures !IsControl(c) {
        var i :| 0 <= i < |value| && value[i] == c;
      }
    }
  }

  // ---------------------------------------------------------------- the loops

  method TomlString(value: string) returns (text: string)
    ensures text == Quoted(value)
  {
    var awkward := false;
    for n := 0 to |value|
      invariant awkward <==> exists i :: 0 <= i < n && (value[i] == '\'' || IsControl(value[i]))
    {
      if value[n] == '\'' || IsControl(value[n]) {
        awkward := true;
      }
    }
    if !awkward {
      return "'" + value + "'";
    }
    var body := WriteEscaped(value);
    text := "\"" + body + "\"";
  }

  method WriteEscaped(value: string) returns (body: string)
    ensures body == EscapedAll(value)
  {
    var code: Code := Escaped;
    body := "";
    for n := 0 to |value|
      invariant body == Coded(code, value[..n])
    {
      CodedMore(code, value[..n], value[n]);
      assert value[..n + 1] == value[..n] + [value[n]];
      body := body + code(value[n]);
    }
    assert value[..|value|] == value;
  }

  method TomlValue(text: string) returns (value: string)
    ensures value == ValueOf(text)
  {
    var open := FirstQuote(text, 0);
    if open.None? { return ""; }
    var close := LastOf(text, text[open.value], |text|);
    if close.None? || close.value <= open.value { return ""; }
    var body := text[open.value + 1..close.value];
    if text[open.value] == '\'' { return body; }
    value := ReadEscapes(body);
  }

  /** The loop over the body of a basic string. */
  method ReadEscapes(body: string) returns (value: string)
    ensures value == Unescaped(body)
  {
    value := "";
    var i := 0;
    while i < |body|
      invariant 0 <= i <= |body| && value + Unescaped(body[i..]) == Unescaped(body)
    {
      UnescapeStep(value, body, i);
      if body[i] != '\\' || i + 1 >= |body| {
        value := value + [body[i]];
        i := i + 1;
      } else {
        value := value + Unescape(body[i + 1]);
        i := i + 2;
      }
    }
  }

  lemma UnescapeStep(value: string, body: string, i: nat)
    requires i < |body|
    ensures value + Unescaped(body[i..]) ==
            if body[i] != '\\' || i + 1 >= |body| then value + [body[i]] + Unescaped(body[i + 1..])
            else value + Unescape(body[i + 1]) + Unescaped(body[i + 2..])
  {
    var rest := body[i..];
    if body[i] != '\\' || i + 1 >= |body| {
      assert rest[1..] == body[i + 1..];
      assert value + ([body[i]] + Unescaped(rest[1..])) == value + [body[i]] + Unescaped(rest[1..]);
    } else {
      assert rest[2..] == body[i + 2..];
      assert value + (Unescape(body[i + 1]) + Unescaped(rest[2..]))
          == value + Unescape(body[i + 1]) + Unescaped(rest[2..]);
    }
  }
}
