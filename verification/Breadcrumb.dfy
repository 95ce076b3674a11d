/** The crash breadcrumb: a page of fixed size that always holds a text, and what is read of it later. */
module Breadcrumb {
  import opened Common

  const NUL: char := 0 as char

  // ---------------------------------------------------------------- up to a character

  /** The part is the whole up to its first `c`. */
  predicate EndsAt(whole: string, c: char, part: string) {
    |part| <= |whole| && part == whole[..|part|] && c !in part && (|part| < |whole| ==> whole[|part|] == c)
  }

  function UpTo(whole: string, c: char): (part: string)
    ensures EndsAt(whole, c, part)
  {
    if whole == "" || whole[0] == c then "" else [whole[0]] + UpTo(whole[1..], c)
  }

  /** Only one part is that. */
  lemma {:induction false} UpToIs(whole: string, c: char, part: string)
    requires EndsAt(whole, c, part)
    ensures UpTo(whole, c) == part
  {
    if part != "" {
      assert part[0] in part && part[0] == whole[0];
      assert forall x :: x in part[1..] ==> x in part;
      UpToIs(whole[1..], c, part[1..]);
    }
  }

  /** Where there is none, it is all of it. */
  lemma UpToNone(whole: string, c: char)
    requires c !in whole
    ensures UpTo(whole, c) == whole
  {
    UpToIs(whole, c, whole);
  }

  /** What a page holds: its text, up to the first NUL. */
  function TextOf(page: string): string { UpTo(page, NUL) }

  /** The page ends its text inside itself. */
  predicate Terminated(page: string) { |TextOf(page)| < |page| }

  // ---------------------------------------------------------------- what the calls do to the text

  predicate Plain(text: string) { NUL !in text }

  /** A note: as much as leaves room for the NUL. */
  function Noted(text: string, size: nat): string
    requires size > 0
  {
    TextOf(text[..Min(|text|, size - 1)])
  }

  /** A line behind the text, when there is room for more than its newline; as much as fits. */
  function Appended(text: string, line: string, size: nat): string {
    if |text| + 2 >= size then text else text + "\n" + TextOf(line[..Min(|line|, size - |text| - 2)])
  }

  /** The last note and the lines after it, joined by newlines, had there been room. */
  function Joined(note: string, lines: seq<string>): string {
    if lines == [] then note else Joined(note, lines[..|lines| - 1]) + "\n" + lines[|lines| - 1]
  }

  /** The text after a note and some lines. */
  function Written(note: string, lines: seq<string>, size: nat): string
    requires size > 0
  {
    if lines == [] then Noted(note, size)
    else Appended(Written(note, lines[..|lines| - 1], size), lines[|lines| - 1], size)
  }

  datatype Call = Noting(text: string) | Appending(line: string)

  /** The text of a page that began empty, after some calls. */
  function TextAfter(calls: seq<Call>, size: nat): string
    requires size > 0
  {
    if calls == [] then "" else
    match calls[|calls| - 1]
    case Noting(text) => Noted(text, size)
    case Appending(line) => Appended(TextAfter(calls[..|calls| - 1], size), line, size)
  }

  function LastNote(calls: seq<Call>): string {
    if calls == [] then "" else
    match calls[|calls| - 1]
    case Noting(text) => text
    case Appending(_) => LastNote(calls[..|calls| - 1])
  }

  function LinesSince(calls: seq<Call>): seq<string> {
    if calls == [] || calls[|calls| - 1].Noting? then [] else
    LinesSince(calls[..|calls| - 1]) + [calls[|calls| - 1].line]
  }

  /** Whatever was called, only the last note and the lines after it count. */
  lemma {:induction false} TextIsWritten(calls: seq<Call>, size: nat)
    requires size > 0
    ensures TextAfter(calls, size) == Written(LastNote(calls), LinesSince(calls), size)
  {
    if calls != [] && calls[|calls| - 1].Appending? {
      var before := calls[..|calls| - 1];
      TextIsWritten(before, size);
      assert LinesSince(calls)[..|LinesSince(calls)| - 1] == LinesSince(before);
    }
  }

  /** A page keeps a prefix of what was written, with room for its NUL; all of it, until it is full. */
  lemma {:induction false} WrittenIsPrefix(note: string, lines: seq<string>, size: nat)
    requires size > 0 && Plain(note) && forall line :: line in lines ==> Plain(line)
    ensures Written(note, lines, size) <= Joined(note, lines) && |Written(note, lines, size)| < size
    ensures Written(note, lines, size) == Joined(note, lines) || |Written(note, lines, size)| + 2 >= size
  {
    if lines == [] {
      UpToNone(note[..Min(|note|, size - 1)], NUL);
    } else {
      WrittenIsPrefix(note, lines[..|lines| - 1], size);
      AppendIsPrefix(Written(note, lines[..|lines| - 1], size), Joined(note, lines[..|lines| - 1]), lines[|lines| - 1],
                     size);
    }
  }

  lemma AppendIsPrefix(text: string, whole: string, line: string, size: nat)
    requires text <= whole && |text| < size && Plain(line) && (text == whole || |text| + 2 >= size)
    ensures Appended(text, line, size) <= whole + "\n" + line && |Appended(text, line, size)| < size
    ensures Appended(text, line, size) == whole + "\n" + line || |Appended(text, line, size)| + 2 >= size
  {
    if |text| + 2 < size {
      UpToNone(line[..Min(|line|, size - |text| - 2)], NUL);
    }
  }

  /** A note that fits is there whole, and what follows it begins with a newline. */
  lemma {:induction false} NoteStays(note: string, lines: seq<string>, size: nat)
    requires |note| < size && Plain(note)
    ensures var text := Written(note, lines, size);
            |text| >= |note| && text[..|note|] == note && (|text| > |note| ==> text[|note|] == '\n')
  {
    if lines == [] {
      assert note[..|note|] == note;
      UpToNone(note, NUL);
    } else {
      NoteStays(note, lines[..|lines| - 1], size);
    }
  }

  // ---------------------------------------------------------------- reading it later

  predicate IsNewline(c: char) { c == '\n' || c == '\r' }

  function Stripped(text: string): (s: string)
    ensures |s| <= |text| && s == text[..|s|]
    ensures s != "" ==> !IsNewline(s[|s| - 1])
    ensures forall i :: |s| <= i < |text| ==> IsNewline(text[i])
  {
    if text != "" && IsNewline(text[|text| - 1]) then Stripped(text[..|text| - 1]) else text
  }

  /** What is read of a file: its first `size` characters, up to a NUL, without the newlines at the end. */
  function Read(file: string, size: nat): Option<string> {
    var text := Stripped(TextOf(file[..Min(|file|, size)]));
    if text == "" then None else Some(text)
  }

  /** The reading: cut at the first NUL, then newline by newline from the end. */
  method ReadBreadcrumb(file: string, size: nat) returns (text: Option<string>)
    ensures text == Read(file, size)
  {
    var buffer := UpTo(file[..Min(|file|, size)], NUL);
    ghost var whole := buffer;
    while buffer != "" && IsNewline(buffer[|buffer| - 1])
      invariant Stripped(buffer) == Stripped(whole)
      decreases |buffer|
    {
      buffer := buffer[..|buffer| - 1];
    }
    text := if buffer == "" then None else Some(buffer);
  }

  /** The half that names the thing: up to the first newline. */
  function Key(text: string): string { UpTo(text, '\n') }

  /** And the other half: what was being done to it. */
  function Phase(text: string): string {
    if |Key(text)| == |text| then "" else text[|Key(text)| + 1..]
  }

  /** Key and phase are the whole text. */
  lemma KeyAndPhase(text: string)
    ensures text == Key(text) + if '\n' in text then "\n" + Phase(text) else ""
  {
    var k := |Key(text)|;
    if k < |text| {
      assert text[k] in text;
      assert text[k..] == [text[k]] + text[k + 1..];
    }
    assert text == text[..k] + text[k..];
  }

  /**
   * The key is the note itself, for any note that is not empty, fits, and holds no CR or LF, whatever
   * lines came after it.
   */
  lemma KeyIsNote(page: string, note: string, lines: seq<string>)
    requires 0 < |note| < |page| && TextOf(page) == Written(note, lines, |page|)
    requires Plain(note) && forall c :: c in note ==> !IsNewline(c)
    ensures Read(page, |page|).Some? && Key(Read(page, |page|).value) == note
  {
    var text := TextOf(page);
    assert page[..Min(|page|, |page|)] == page;
    NoteStays(note, lines, |page|);
    var s := Stripped(text);
    assert note[|note| - 1] in note && text[|note| - 1] == note[|note| - 1];
    assert |s| >= |note|;
    assert s[..|note|] == note;
    UpToIs(s, '\n', note);
  }

  // ---------------------------------------------------------------- trimming the file

  predicate IsTail(c: char) { IsNewline(c) || c == ' ' }

  function TrimmedText(text: string): (s: string)
    ensures |s| <= |text| && s == text[..|s|]
    ensures s != "" ==> !IsTail(s[|s| - 1])
    ensures forall i :: |s| <= i < |text| ==> IsTail(text[i])
  {
    if text != "" && IsTail(text[|text| - 1]) then TrimmedText(text[..|text| - 1]) else text
  }

  /** The file after it was trimmed to its contents: left alone when nothing of them would be left. */
  function Trimmed(file: string, contents: string): string {
    if TrimmedText(contents) == "" then file else TrimmedText(contents) + "\n"
  }

  /** What the file holds afterwards. */
  method TrimBreadcrumbFile(file: string, contents: string) returns (after: string)
    ensures after == Trimmed(file, contents)
  {
    var text := contents;
    while text != "" && IsTail(text[|text| - 1])
      invariant TrimmedText(text) == TrimmedText(contents)
      decreases |text|
    {
      text := text[..|text| - 1];
    }
    after := if text == "" then file else text + "\n";
  }

  lemma PrefixPlain(text: string, s: string)
    requires NUL !in text && |s| <= |text| && s == text[..|s|]
    ensures NUL !in s
  {
  }

  lemma ReadText(file: string, size: nat)
    requires Read(file, size).Some?
    ensures NUL !in Read(file, size).value && |Read(file, size).value| <= size
    ensures var c := Read(file, size).value; c != "" && !IsNewline(c[|c| - 1])
  {
    PrefixPlain(TextOf(file[..Min(|file|, size)]), Read(file, size).value);
  }

  /** A text of its own length or less, in a file with a newline behind it, is read back. */
  lemma ReadsBack(text: string, size: nat)
    requires text != "" && |text| <= size && NUL !in text && !IsNewline(text[|text| - 1])
    ensures Read(text + "\n", size) == Some(text)
  {
    var file := text + "\n";
    var head := file[..Min(|file|, size)];
    UpToNone(head, NUL);
    assert head == file || head == text;
    var s := Stripped(head);
    assert |s| >= |text| by {
      assert head[|text| - 1] == text[|text| - 1];
    }
    assert |s| <= |text| by {
      assert |head| > |text| ==> head[|text|] == '\n';
    }
    assert s == text;
  }

  /**
   * Trimming keeps what was read, exactly when it does not end in a space or is nothing but spaces and
   * newlines.
   */
  lemma TrimKeeps(file: string, size: nat)
    requires Read(file, size).Some?
    ensures var c := Read(file, size).value;
            Read(Trimmed(file, c), size) == Some(c) <==> c[|c| - 1] != ' ' || forall i :: 0 <= i < |c| ==> IsTail(c[i])
  {
    var c := Read(file, size).value;
    ReadText(file, size);
    var t := TrimmedText(c);
    if t != "" {
      PrefixPlain(c, t);
      ReadsBack(t, size);
      assert !IsTail(c[|t| - 1]) by { assert c[|t| - 1] == t[|t| - 1]; }
      assert t == c <==> c[|c| - 1] != ' ';
    }
  }

  /** Only spaces and newlines. */
  predicate Blank(text: string) { forall i :: 0 <= i < |text| ==> IsTail(text[i]) }

  /** A beginning of a text has the text's key if and only if it reaches to the key's end. */
  lemma KeyOfPrefix(text: string, s: string)
    requires |s| <= |text| && s == text[..|s|]
    ensures Key(s) == Key(text) <==> |Key(text)| <= |s|
  {
    var key := Key(text);
    if |key| <= |s| {
      assert s[..|key|] == key;
      UpToIs(s, '\n', key);
    }
  }

  /**
   * Something is still read after trimming; and its key is the one read before if and only if the text
   * is nothing but spaces and newlines, or is not so from the last character of its key on.
   */
  lemma KeySurvivesTrim(file: string, size: nat)
    requires Read(file, size).Some?
    ensures var c := Read(file, size).value;
            && Read(Trimmed(file, c), size).Some?
            && (Key(Read(Trimmed(file, c), size).value) == Key(c)
                <==> Blank(c) || Key(c) == "" || !Blank(c[|Key(c)| - 1..]))
  {
    var c := Read(file, size).value;
    ReadText(file, size);
    var t := TrimmedText(c);
    if t != "" {
      PrefixPlain(c, t);
      ReadsBack(t, size);
      TrimmedKey(c, t);
    }
  }

  lemma TrimmedKey(c: string, t: string)
    requires t == TrimmedText(c) && t != ""
    ensures !Blank(c) && (Key(t) == Key(c) <==> Key(c) == "" || !Blank(c[|Key(c)| - 1..]))
  {
    KeyOfPrefix(c, t);
    assert c[|t| - 1] == t[|t| - 1];
    BlankBehind(c, |Key(c)|, |t|);
  }

  /** A text is not blank from k - 1 on exactly when its last character that is not lies there. */
  lemma BlankBehind(c: string, k: nat, end: nat)
    requires 0 < end <= |c| && k <= |c| && !IsTail(c[end - 1]) && forall i :: end <= i < |c| ==> IsTail(c[i])
    ensures !Blank(c) && (k > 0 ==> (!Blank(c[k - 1..]) <==> k <= end))
  {
    if 0 < k <= end {
      assert c[k - 1..][end - k] == c[end - 1];
    }
  }

  // ---------------------------------------------------------------- the page

  /** What an append writes over the end of the text: a newline, as much of the line as fits, a NUL. */
  function Tail(text: string, line: string, size: nat): string
    requires |text| + 2 < size
  {
    "\n" + line[..Min(|line|, size - |text| - 2)] + [NUL]
  }

  lemma AppendsHere(was: string, now: string, line: string)
    requires var text := TextOf(was); |text| + 2 < |was| && now == Spliced(was, |text|, Tail(text, line, |was|))
    ensures Terminated(now) && TextOf(now) == Appended(TextOf(was), line, |was|)
  {
    var text := TextOf(was);
    var room := line[..Min(|line|, |was| - |text| - 2)];
    EndsEarly(text, room, was[|text| + |room| + 2..]);
    assert now == text + "\n" + room + [NUL] + was[|text| + |room| + 2..];
    UpToIs(now, NUL, text + "\n" + TextOf(room));
  }

  lemma EndsEarly(text: string, room: string, behind: string)
    requires Plain(text)
    ensures EndsAt(text + "\n" + room + [NUL] + behind, NUL, text + "\n" + TextOf(room))
  {
    var held := TextOf(room);
    var front := text + "\n";
    assert (room + [NUL])[..|held|] == held && (room + [NUL])[|held|] == NUL;
    assert text + "\n" + room + [NUL] + behind == front + ((room + [NUL]) + behind);
  }

  class CrashBreadcrumb {
    var view: array?<char>

    /** Nothing is mapped yet. */
    constructor ()
      ensures view == null
    {
      view := null;
    }

    /** Maps a page of NULs. */
    method Open(size: nat)
      modifies this
      ensures view != null && fresh(view) && view.Length == size && forall i :: 0 <= i < size ==> view[i] == NUL
    {
      view := new char[size](_ => NUL);
    }

    /** The page holds the note, from its start. */
    method Note(text: string)
      requires view != null ==> view.Length > 0
      modifies view
      ensures view != null ==> Terminated(view[..]) && TextOf(view[..]) == Noted(text, view.Length)
      ensures view != null ==> view[..] == Spliced(old(view[..]), 0, text[..Min(|text|, view.Length - 1)] + [NUL])
    {
      if view == null { return; }
      var length := if |text| < view.Length - 1 then |text| else view.Length - 1;
      forall i | 0 <= i < length {
        view[i] := text[i];
      }
      view[length] := NUL;
      ghost var held := TextOf(text[..length]);
      assert view[..][..|held|] == held;
      UpToIs(view[..], NUL, held);
    }

    /** Where the text ends: the first NUL. */
    method EndOfText() returns (at: nat)
      requires view != null
      ensures at == |TextOf(view[..])|
    {
      at := 0;
      while at < view.Length && view[at] != NUL
        invariant at <= view.Length && NUL !in view[..at]
      {
        assert view[..at + 1] == view[..at] + [view[at]];
        at := at + 1;
      }
      assert view[..][..at] == view[..at];
      UpToIs(view[..], NUL, view[..at]);
    }

    /** The page holds its text and the line, as much as there is room for. */
    method Append(line: string)
      modifies view
      ensures view != null ==> (Terminated(view[..]) <==> old(Terminated(view[..])))
      ensures view != null ==> TextOf(view[..]) == Appended(old(TextOf(view[..])), line, view.Length)
      ensures view != null ==>
        var text, size := old(TextOf(view[..])), view.Length;
        view[..] == if |text| + 2 >= size then old(view[..]) else Spliced(old(view[..]), |text|, Tail(text, line, size))
    {
      if view == null { return; }
      ghost var was := view[..];
      var at := EndOfText();
      if at + 2 >= view.Length { return; }
      view[at] := '\n';
      at := at + 1;
      var room := view.Length - at - 1;
      var length := if |line| < room then |line| else room;
      forall i | 0 <= i < length {
        view[at + i] := line[i];
      }
      view[at + length] := NUL;
      ghost var text := TextOf(was);
      forall k | 0 <= k < |was| ensures view[..][k] == Spliced(was, |text|, Tail(text, line, |was|))[k] {
        SplicedAt(was, |text|, Tail(text, line, |was|), k);
      }
      AppendsHere(was, view[..], line);
    }
  }
}
