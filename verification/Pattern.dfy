/**
 * Byte patterns with wildcards: reading one from text, writing it back, and matching.
 */
module Pattern {
  import opened Common

  /** mask[i] says whether bytes[i] must match; firstFixed is the first position that must. */
  datatype Pattern = Pattern(bytes: seq<byte>, mask: seq<bool>, firstFixed: nat)

  ghost predicate Valid(p: Pattern) {
    && |p.bytes| == |p.mask| && p.firstFixed < |p.mask| && p.mask[p.firstFixed]
    && forall i :: 0 <= i < p.firstFixed ==> !p.mask[i]
  }

  predicate IsSpace(c: char) { c == ' ' || '\t' <= c <= '\r' }

  function HexNibble(c: char): (r: Option<nat>)
    ensures r.Some? ==> r.value < 16
  {
    if '0' <= c <= '9' then Some((c - '0') as nat)
    else if 'a' <= c <= 'f' then Some((c - 'a') as nat + 10)
    else if 'A' <= c <= 'F' then Some((c - 'A') as nat + 10)
    else None
  }

  /** One position of a pattern as written: a wildcard or a fixed byte. */
  datatype Token = Wild | Fixed(value: byte)

  /** The positions a text spells from i on, or nothing when it is malformed. */
  function Tokens(text: string, i: nat): Option<seq<Token>>
    decreases |text| - i
  {
    if i >= |text| then Some([])
    else if IsSpace(text[i]) then Tokens(text, i + 1)
    else if text[i] == '?' then
      Prepend(Wild, Tokens(text, if i + 1 < |text| && text[i + 1] == '?' then i + 2 else i + 1))
    else
      var hi := HexNibble(text[i]);
      if hi.None? || i + 1 >= |text| then None
      else
        var lo := HexNibble(text[i + 1]);
        if lo.None? then None
        else Prepend(Fixed(16 * hi.value + lo.value), Tokens(text, i + 2))
  }

  function Prepend<T>(t: T, rest: Option<seq<T>>): Option<seq<T>> {
    if rest.None? then None else Some([t] + rest.value)
  }

  function TokenByte(t: Token): byte { if t.Wild? then 0 else t.value }

  /** The first position that must match, or the length when every position is a wildcard. */
  function FirstFixed(mask: seq<bool>): (r: nat)
    ensures r <= |mask|
    ensures forall i :: 0 <= i < r ==> !mask[i]
    ensures r < |mask| ==> mask[r]
  {
    if mask == [] || mask[0] then 0 else 1 + FirstFixed(mask[1..])
  }

  function FromTokens(ts: seq<Token>): (r: Option<Pattern>)
    ensures r.Some? <==> exists i :: 0 <= i < |ts| && ts[i].Fixed?
    ensures r.Some? ==> Valid(r.value) && |r.value.bytes| == |ts|
  {
    var bytes := seq(|ts|, i requires 0 <= i < |ts| => TokenByte(ts[i]));
    var mask := seq(|ts|, i requires 0 <= i < |ts| => ts[i].Fixed?);
    var first := FirstFixed(mask);
    if first == |mask| then
      assert forall i :: 0 <= i < |ts| ==> mask[i] == ts[i].Fixed?;
      None
    else
      assert mask[first] == ts[first].Fixed?;
      Some(Pattern(bytes, mask, first))
  }

  /** Pattern::Parse */
  method Parse(text: string) returns (r: Option<Pattern>)
    ensures r == if Tokens(text, 0).None? then None else FromTokens(Tokens(text, 0).value)
  {
    var tokens: seq<Token> := [];
    var i := 0;
    assert Tokens(text, 0).Some? ==> tokens + Tokens(text, 0).value == Tokens(text, 0).value;
    while i < |text|
      invariant i <= |text|
      invariant Tokens(text, 0) == if Tokens(text, i).None? then None else Some(tokens + Tokens(text, i).value)
      decreases |text| - i
    {
      var c := text[i];
      if IsSpace(c) {
        i := i + 1;
      } else if c == '?' {
        ghost var rest := Tokens(text, if i + 1 < |text| && text[i + 1] == '?' then i + 2 else i + 1);
        assert rest.Some? ==> tokens + ([Wild] + rest.value) == tokens + [Wild] + rest.value;
        tokens := tokens + [Wild];
        i := i + 1;
        if i < |text| && text[i] == '?' {
          i := i + 1;
        }
      } else {
        var hi := HexNibble(c);
        if hi.None? || i + 1 >= |text| {
          return None;
        }
        var lo := HexNibble(text[i + 1]);
        if lo.None? {
          return None;
        }
        var t := Fixed(16 * hi.value + lo.value);
        ghost var rest := Tokens(text, i + 2);
        assert rest.Some? ==> tokens + ([t] + rest.value) == tokens + [t] + rest.value;
        tokens := tokens + [t];
        i := i + 2;
      }
    }
    assert tokens + [] == tokens;
    r := FromTokens(tokens);
  }

  // ---------------------------------------------------------------- writing a pattern

  const HEX: string := "0123456789ABCDEF"

  function TokenText(t: Token): string {
    match t
    case Wild => "??"
    case Fixed(b) => [HEX[b / 16], HEX[b % 16]]
  }

  /** Pattern::ToString over the positions: two characters each, a space before every one but the first. */
  function Spelled(ts: seq<Token>): string {
    if ts == [] then ""
    else if |ts| == 1 then TokenText(ts[0])
    else TokenText(ts[0]) + [' '] + Spelled(ts[1..])
  }

  function TokensOf(p: Pattern): seq<Token>
    requires |p.bytes| == |p.mask|
  {
    seq(|p.bytes|, i requires 0 <= i < |p.bytes| => if p.mask[i] then Fixed(p.bytes[i]) else Wild)
  }

  function ToString(p: Pattern): string
    requires |p.bytes| == |p.mask|
  {
    Spelled(TokensOf(p))
  }

  lemma HexDigits(n: nat)
    requires n < 16
    ensures HexNibble(HEX[n]) == Some(n) && !IsSpace(HEX[n]) && HEX[n] != '?'
  {
  }

  lemma TokensShift(prefix: string, text: string, i: nat)
    requires i <= |text|
    ensures Tokens(prefix + text, |prefix| + i) == Tokens(text, i)
    decreases |text| - i
  {
    var whole := prefix + text;
    if i < |text| {
      assert whole[|prefix| + i] == text[i];
      TokensShift(prefix, text, i + 1);
      if i + 1 < |text| {
        assert whole[|prefix| + i + 1] == text[i + 1];
        TokensShift(prefix, text, i + 2);
      }
    }
  }

  lemma ReadFixed(text: string, b: byte)
    requires |text| >= 2 && text[0] == HEX[b / 16] && text[1] == HEX[b % 16]
    ensures Tokens(text, 0) == Prepend(Fixed(b), Tokens(text, 2))
  {
    HexDigits(b / 16);
    HexDigits(b % 16);
  }

  /** Reading one written position, then whatever follows the space after it. */
  lemma ReadBack(t: Token, rest: string)
    requires rest == "" || rest[0] == ' '
    ensures Tokens(TokenText(t) + rest, 0) == Prepend(t, Tokens(rest, 0))
  {
    var text := TokenText(t) + rest;
    TokensShift(TokenText(t), rest, 0);
    match t
    case Wild =>
    case Fixed(b) => ReadFixed(text, b);
  }

  /** A position, a space, and what spells the others. */
  lemma SpelledMore(t: Token, text: string, ts: seq<Token>)
    requires Tokens(text, 0) == Some(ts)
    ensures Tokens(TokenText(t) + [' '] + text, 0) == Some([t] + ts)
  {
    var rest := [' '] + text;
    TokensShift([' '], text, 0);
    assert Tokens(rest, 0) == Tokens(rest, 1);
    ReadBack(t, rest);
    assert TokenText(t) + [' '] + text == TokenText(t) + rest;
  }

  lemma {:induction false} SpelledTokens(ts: seq<Token>)
    ensures Tokens(Spelled(ts), 0) == Some(ts)
  {
    if |ts| == 1 {
      ReadBack(ts[0], "");
      assert TokenText(ts[0]) + "" == Spelled(ts) && [ts[0]] + [] == ts;
    } else if |ts| > 1 {
      SpelledTokens(ts[1..]);
      SpelledMore(ts[0], Spelled(ts[1..]), ts[1..]);
      assert [ts[0]] + ts[1..] == ts;
    }
  }

  /** Writing a pattern and parsing the text gives the pattern back, wildcards' bytes as zero. */
  lemma ParseOfToString(p: Pattern)
    requires Valid(p)
    requires forall i :: 0 <= i < |p.mask| && !p.mask[i] ==> p.bytes[i] == 0
    ensures Tokens(ToString(p), 0).Some?
    ensures FromTokens(Tokens(ToString(p), 0).value) == Some(p)
  {
    var ts := TokensOf(p);
    SpelledTokens(ts);
    assert ts[p.firstFixed].Fixed?;
    var q := FromTokens(ts).value;
    assert q.mask == p.mask && q.bytes == p.bytes;
    assert q.firstFixed == p.firstFixed;
  }
}
