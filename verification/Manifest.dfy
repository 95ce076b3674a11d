/** The manifest of games: written by the scan, read back by the batch. */
module Manifest {
  import opened Common
  import opened Toml

  datatype Game = Game(name: string, runtime: string, exe: string, metadata: string, build: string)

  datatype BatchEntry = BatchEntry(name: string, runtime: string, exe: string, metadata: string)

  // ---------------------------------------------------------------- writing

  /** The runtimes that can be run: the rest is written as comments. */
  predicate Runnable(g: Game) { g.runtime == "il2cpp" || g.runtime == "unreal" || g.runtime == "mono" }

  function KeyLine(key: string, value: string): string { key + " = " + Quoted(value) }

  /** How a key and its value make a line. */
  type LineOf = (string, string) -> string

  function FourLines(line: LineOf, g: Game): seq<string> {
    ["[[game]]", line("name", g.name), line("runtime", g.runtime), line("exe", g.exe)]
  }

  /** Metadata when there is any; a label when the store knows the build. */
  function MoreLines(line: LineOf, g: Game): seq<string> {
    (if g.metadata == "" then [] else [line("metadata", g.metadata)])
        + (if g.build == "" then [] else [line("label", "steam-" + g.build)])
  }

  /** The lines of one game, without their lead. */
  function BareLines(line: LineOf, g: Game): seq<string> { FourLines(line, g) + MoreLines(line, g) }

  function Led(lead: string, lines: seq<string>): (led: seq<string>)
    ensures |led| == |lines|
  {
    seq(|lines|, i requires 0 <= i < |lines| => lead + lines[i])
  }

  function GameLines(line: LineOf, g: Game): seq<string> {
    Led(if Runnable(g) then "" else "# ", BareLines(line, g)) + [""]
  }

  type GameWriter = Game -> seq<string>

  function WriterOf(line: LineOf): GameWriter { (g: Game) => GameLines(line, g) }

  function AllGameLines(writer: GameWriter, games: seq<Game>, n: nat): seq<string>
    requires n <= |games|
  {
    if n == 0 then [] else AllGameLines(writer, games, n - 1) + writer(games[n - 1])
  }

  /** The comments at the top, whatever they say, and an empty line. */
  function HeadLines(comments: seq<string>): seq<string> { Led("# ", comments) + [""] }

  function ManifestLines(line: LineOf, comments: seq<string>, games: seq<Game>): seq<string> {
    HeadLines(comments) + AllGameLines(WriterOf(line), games, |games|)
  }

  /** The manifest's text. */
  function ManifestText(comments: seq<string>, games: seq<Game>): string {
    Unlines(ManifestLines(KeyLine, comments, games))
  }

  /** A file of lines. */
  function Unlines(lines: seq<string>): string {
    if lines == [] then "" else lines[0] + "\n" + Unlines(lines[1..])
  }

  // ---------------------------------------------------------------- reading

  /** The lines of a file; a last one without its end counts when it holds anything. */
  function LinesFrom(text: string, current: string): seq<string> {
    if text == "" then (if current == "" then [] else [current])
    else if text[0] == '\n' then [current] + LinesFrom(text[1..], "")
    else LinesFrom(text[1..], current + [text[0]])
  }

  predicate IsBlank(c: char) { c == ' ' || c == '\t' || c == '\r' }

  function TrimLeft(line: string): string {
    if line != "" && IsBlank(line[0]) then TrimLeft(line[1..]) else line
  }

  function TrimRight(line: string): string {
    if line != "" && IsBlank(line[|line| - 1]) then TrimRight(line[..|line| - 1]) else line
  }

  predicate IsSpace(c: char) { c == ' ' || c == '\t' }

  function TrimKey(key: string): string {
    if key != "" && IsSpace(key[|key| - 1]) then TrimKey(key[..|key| - 1]) else key
  }

  /** Where the first '=' is. */
  function FirstEquals(line: string, from: nat): (at: Option<nat>)
    requires from <= |line|
    ensures at.Some? ==> from <= at.value < |line| && line[at.value] == '=' && forall i :: from <= i < at.value ==>
            line[i] != '='
    ensures at.None? ==> forall i :: from <= i < |line| ==> line[i] != '='
    decreases |line| - from
  {
    if from == |line| then None else if line[from] == '=' then Some(from) else FirstEquals(line, from + 1)
  }

  function WithKey(e: BatchEntry, key: string, value: string): BatchEntry {
    if value == "" then e
    else if key == "name" then e.(name := value)
    else if key == "runtime" then e.(runtime := value)
    else if key == "exe" then e.(exe := value)
    else if key == "metadata" then e.(metadata := value)
    else e
  }

  /** What one line does to the entries read so far. */
  function ReadLine(entries: seq<BatchEntry>, line: string): seq<BatchEntry> {
    ReadTrimmed(entries, TrimRight(TrimLeft(line)))
  }

  function ReadTrimmed(entries: seq<BatchEntry>, t: string): seq<BatchEntry> {
    if t == "" || t[0] == '#' then entries
    else if t == "[[game]]" then entries + [BatchEntry("", "", "", "")]
    else match FirstEquals(t, 0)
      case None => entries
      case Some(at) =>
        if entries == [] then entries
        else entries[|entries| - 1 := WithKey(entries[|entries| - 1], TrimKey(t[..at]), ValueOf(t[at + 1..]))]
  }

  type Step = (seq<BatchEntry>, string) -> seq<BatchEntry>

  function ReadLines(step: Step, entries: seq<BatchEntry>, lines: seq<string>): seq<BatchEntry>
    decreases |lines|
  {
    if lines == [] then entries else ReadLines(step, step(entries, lines[0]), lines[1..])
  }

  /** The entries of a manifest's text. */
  function EntriesOf(text: string): seq<BatchEntry> { ReadLines(ReadLine, [], LinesFrom(text, "")) }

  // ---------------------------------------------------------------- lines

  ghost predicate OneLine(line: string) { '\n' !in line }

  lemma {:induction false} LineRead(line: string, current: string, rest: string)
    requires OneLine(line)
    ensures LinesFrom(line + "\n" + rest, current) == [current + line] + LinesFrom(rest, "")
  {
    var text := line + "\n" + rest;
    if line == "" {
      assert text[1..] == rest && current + line == current;
    } else {
      assert text[1..] == line[1..] + "\n" + rest;
      LineRead(line[1..], current + [line[0]], rest);
      assert current + [line[0]] + line[1..] == current + line;
    }
  }

  lemma {:induction false} LinesOfUnlines(lines: seq<string>)
    requires forall l :: l in lines ==> OneLine(l)
    ensures LinesFrom(Unlines(lines), "") == lines
  {
    if lines != [] {
      LinesOfUnlines(lines[1..]);
      LineRead(lines[0], "", Unlines(lines[1..]));
      assert "" + lines[0] == lines[0];
    }
  }

  lemma {:induction false} ReadConcat(step: Step, entries: seq<BatchEntry>, a: seq<string>, b: seq<string>)
    ensures ReadLines(step, entries, a + b) == ReadLines(step, ReadLines(step, entries, a), b)
    decreases |a|
  {
    if a == [] {
      assert a + b == b;
    } else {
      assert (a + b)[1..] == a[1..] + b;
      ReadConcat(step, step(entries, a[0]), a[1..], b);
    }
  }

  // ---------------------------------------------------------------- one line

  /** A line that begins and ends with ink is read as it is. */
  lemma NoTrim(line: string)
    requires line != "" && !IsBlank(line[0]) && !IsBlank(line[|line| - 1])
    ensures TrimRight(TrimLeft(line)) == line
  {
  }

  lemma {:induction false} TrimRightKeepsFirst(line: string)
    requires line != "" && !IsBlank(line[0])
    ensures TrimRight(line) != "" && TrimRight(line)[0] == line[0]
  {
    if IsBlank(line[|line| - 1]) {
      TrimRightKeepsFirst(line[..|line| - 1]);
    }
  }

  /** A comment changes nothing. */
  lemma CommentRead(entries: seq<BatchEntry>, line: string)
    requires line != "" && line[0] == '#'
    ensures ReadLine(entries, line) == entries
  {
    TrimRightKeepsFirst(line);
  }

  /** A key as the writer writes them. */
  ghost predicate IsKey(key: string) {
    key != "" && forall i :: 0 <= i < |key| ==> 'a' <= key[i] <= 'z'
  }

  lemma QuotedEnds(value: string)
    ensures |Quoted(value)| >= 2 && IsQuote(Quoted(value)[|Quoted(value)| - 1])
  {
  }

  lemma KeyParts(key: string, q: string)
    requires IsKey(key)
    ensures var line := key + " = " + q;
            && FirstEquals(line, 0) == Some(|key| + 1)
            && line[..|key| + 1] == key + " " && line[|key| + 2..] == " " + q
  {
    var line := key + " = " + q;
    assert line[|key| + 1] == '=' && line[|key|] == ' ';
    assert forall i :: 0 <= i < |key| ==> line[i] == key[i];
  }

  lemma KeyTrims(key: string)
    requires IsKey(key)
    ensures TrimKey(key + " ") == key
  {
    assert (key + " ")[..|key|] == key;
  }

  /** What a value that was written reads as, on its line. */
  function Back(value: string): string { ValueOf(" " + Quoted(value)) }

  /** A line of key and value sets the key of the last entry. */
  lemma KeyRead(entries: seq<BatchEntry>, e: BatchEntry, key: string, value: string)
    requires IsKey(key)
    ensures ReadLine(entries + [e], KeyLine(key, value)) == entries + [WithKey(e, key, Back(value))]
  {
    var q := Quoted(value);
    QuotedEnds(value);
    KeyLineStands(key, q);
    KeyParts(key, q);
    KeyTrims(key);
    LastReplaced(entries, e, WithKey(e, key, Back(value)));
  }

  /** Such a line has nothing to trim. */
  lemma KeyLineStands(key: string, q: string)
    requires IsKey(key) && |q| >= 2 && IsQuote(q[|q| - 1])
    ensures var line := key + " = " + q;
            line != "" && TrimRight(TrimLeft(line)) == line && line[0] == key[0] && line != "[[game]]"
  {
    var line := key + " = " + q;
    assert line[0] == key[0] && line[|line| - 1] == q[|q| - 1];
    NoTrim(line);
  }

  lemma LastReplaced<T>(s: seq<T>, old_: T, new_: T)
    ensures (s + [old_])[|s| := new_] == s + [new_]
  {
  }

  lemma HeadRead(entries: seq<BatchEntry>)
    ensures ReadLine(entries, "[[game]]") == entries + [BatchEntry("", "", "", "")]
    ensures ReadLine(entries, "") == entries
  {
    NoTrim("[[game]]");
  }

  // ---------------------------------------------------------------- one game

  /** All that is used of the reader's step: what it makes of each kind of line. */
  ghost predicate Reads(step: Step, line: LineOf, back: string -> string) {
    && (forall es {:trigger step(es, "[[game]]")} :: step(es, "[[game]]") == es + [BatchEntry("", "", "", "")])
    && (forall es {:trigger step(es, "")} :: step(es, "") == es)
    && (forall es, l {:trigger step(es, l)} :: l != "" && l[0] == '#' ==> step(es, l) == es)
    && (forall es, e, key, value {:trigger step(es + [e], line(key, value))} :: IsKey(key) ==>
          step(es + [e], line(key, value)) == es + [WithKey(e, key, back(value))])
    && back("") == ""
  }

  lemma ReaderReads()
    ensures Reads(ReadLine, KeyLine, Back)
  {
    forall es ensures ReadLine(es, "[[game]]") == es + [BatchEntry("", "", "", "")] && ReadLine(es, "") == es {
      HeadRead(es);
    }
    forall es, l: string | l != "" && l[0] == '#' ensures ReadLine(es, l) == es {
      CommentRead(es, l);
    }
    forall es, e, key, value {:trigger ReadLine(es + [e], KeyLine(key, value))} | IsKey(key)
      ensures ReadLine(es + [e], KeyLine(key, value)) == es + [WithKey(e, key, Back(value))]
    {
      KeyRead(es, e, key, value);
    }
    ValueReread(" ", "");
  }

  // ---------------------------------------------------------------- one game

  /** A game as it is read back. */
  function ReadBack(back: string -> string, g: Game): BatchEntry {
    BatchEntry(back(g.name), back(g.runtime), back(g.exe), back(g.metadata))
  }

  lemma {:induction false} CommentsRead(step: Step, line: LineOf, back: string -> string, entries: seq<BatchEntry>,
                                        lines: seq<string>)
    requires Reads(step, line, back) && forall i :: 0 <= i < |lines| ==> lines[i] != "" && lines[i][0] == '#'
    ensures ReadLines(step, entries, lines) == entries
    decreases |lines|
  {
    if lines != [] {
      assert step(entries, lines[0]) == entries;
      CommentsRead(step, line, back, entries, lines[1..]);
    }
  }

  lemma OneRead(step: Step, entries: seq<BatchEntry>, l: string)
    ensures ReadLines(step, entries, [l]) == step(entries, l)
  {
    assert [l][1..] == [];
  }

  lemma LedNothing(lines: seq<string>)
    ensures Led("", lines) == lines
  {
    forall i | 0 <= i < |lines| ensures Led("", lines)[i] == lines[i] {
      assert "" + lines[i] == lines[i];
    }
  }

  lemma FourInARow(step: Step, entries: seq<BatchEntry>, a: string, b: string, c: string, d: string)
    ensures ReadLines(step, entries, [a, b, c, d]) == step(step(step(step(entries, a), b), c), d)
  {
    assert [a, b, c, d] == [a] + ([b] + ([c] + [d]));
    ReadConcat(step, entries, [a], [b] + ([c] + [d]));
    OneRead(step, entries, a);
    ReadConcat(step, step(entries, a), [b], [c] + [d]);
    OneRead(step, step(entries, a), b);
    ReadConcat(step, step(step(entries, a), b), [c], [d]);
    OneRead(step, step(step(entries, a), b), c);
    OneRead(step, step(step(step(entries, a), b), c), d);
  }

  lemma KeysAreKeys()
    ensures IsKey("name") && IsKey("runtime") && IsKey("exe") && IsKey("metadata") && IsKey("label")
  {
  }

  /** The first four lines of a game. */
  lemma FourRead(step: Step, line: LineOf, back: string -> string, entries: seq<BatchEntry>, g: Game)
    requires Reads(step, line, back)
    ensures ReadLines(step, entries, FourLines(line, g))
            == entries + [BatchEntry(back(g.name), back(g.runtime), back(g.exe), "")]
  {
    var a, b, c := line("name", g.name), line("runtime", g.runtime), line("exe", g.exe);
    KeysAreKeys();
    var e0 := BatchEntry("", "", "", "");
    var e1 := WithKey(e0, "name", back(g.name));
    var e2 := WithKey(e1, "runtime", back(g.runtime));
    var e3 := WithKey(e2, "exe", back(g.exe));
    WithKeys(back(g.name), back(g.runtime), back(g.exe));
    assert step(entries, "[[game]]") == entries + [e0];
    assert step(entries + [e0], a) == entries + [e1];
    assert step(entries + [e1], b) == entries + [e2];
    assert step(entries + [e2], c) == entries + [e3];
    FourInARow(step, entries, "[[game]]", a, b, c);
  }

  lemma WithKeys(name: string, runtime: string, exe: string)
    ensures WithKey(WithKey(WithKey(BatchEntry("", "", "", ""), "name", name), "runtime", runtime), "exe", exe)
            == BatchEntry(name, runtime, exe, "")
  {
  }

  lemma OptionalRead(step: Step, entries: seq<BatchEntry>, there: bool, text: string, after: seq<BatchEntry>)
    requires after == if there then step(entries, text) else entries
    ensures ReadLines(step, entries, if there then [text] else []) == after
  {
    OneRead(step, entries, text);
  }

  /** The optional lines: metadata is kept, a label is not. */
  lemma MoreRead(step: Step, line: LineOf, back: string -> string, entries: seq<BatchEntry>, e: BatchEntry, g: Game)
    requires Reads(step, line, back) && e.metadata == ""
    ensures ReadLines(step, entries + [e], MoreLines(line, g)) == entries + [e.(metadata := back(g.metadata))]
  {
    var data := if g.metadata == "" then [] else [line("metadata", g.metadata)];
    var steam := if g.build == "" then [] else [line("label", "steam-" + g.build)];
    var e' := e.(metadata := back(g.metadata));
    KeysAreKeys();
    OptionalRead(step, entries + [e], g.metadata != "", line("metadata", g.metadata), entries + [e']);
    OptionalRead(step, entries + [e'], g.build != "", line("label", "steam-" + g.build), entries + [e']);
    ReadConcat(step, entries + [e], data, steam);
  }

  /** A game that can be run is read back, behind those before it; another is not. */
  lemma GameRead(step: Step, line: LineOf, back: string -> string, entries: seq<BatchEntry>, g: Game)
    requires Reads(step, line, back)
    ensures ReadLines(step, entries, GameLines(line, g)) == entries + (if Runnable(g) then [ReadBack(back, g)] else [])
  {
    var lines := Led(if Runnable(g) then "" else "# ", BareLines(line, g));
    if Runnable(g) {
      LedNothing(BareLines(line, g));
      FourRead(step, line, back, entries, g);
      MoreRead(step, line, back, entries, BatchEntry(back(g.name), back(g.runtime), back(g.exe), ""), g);
      ReadConcat(step, entries, FourLines(line, g), MoreLines(line, g));
    } else {
      CommentsRead(step, line, back, entries, lines);
    }
    var after := ReadLines(step, entries, lines);
    assert step(after, "") == after;
    OneRead(step, after, "");
    ReadConcat(step, entries, lines, [""]);
  }

  // ---------------------------------------------------------------- the whole manifest

  function RunnableGames(games: seq<Game>, n: nat): seq<Game>
    requires n <= |games|
  {
    if n == 0 then [] else RunnableGames(games, n - 1) + (if Runnable(games[n - 1]) then [games[n - 1]] else [])
  }

  function ReadBackAll(back: string -> string, games: seq<Game>): (entries: seq<BatchEntry>)
    ensures |entries| == |games|
  {
    seq(|games|, i requires 0 <= i < |games| => ReadBack(back, games[i]))
  }

  lemma ReadBackMore(back: string -> string, games: seq<Game>, more: seq<Game>)
    ensures ReadBackAll(back, games + more) == ReadBackAll(back, games) + ReadBackAll(back, more)
  {
  }

  /** Each game's lines add what is read of the game. */
  ghost predicate ReadsGames(step: Step, writer: GameWriter, back: string -> string) {
    forall es, g {:trigger ReadLines(step, es, writer(g))} ::
      ReadLines(step, es, writer(g)) == es + ReadBackAll(back, if Runnable(g) then [g] else [])
  }

  lemma WriterRead(step: Step, line: LineOf, back: string -> string)
    requires Reads(step, line, back)
    ensures ReadsGames(step, WriterOf(line), back)
  {
    var writer := WriterOf(line);
    forall es, g {:trigger ReadLines(step, es, writer(g))}
      ensures ReadLines(step, es, writer(g)) == es + ReadBackAll(back, if Runnable(g) then [g] else [])
    {
      GameRead(step, line, back, es, g);
      assert ReadBackAll(back, [g]) == [ReadBack(back, g)];
    }
  }

  lemma OneMoreRead(step: Step, writer: GameWriter, back: string -> string, lines: seq<string>, can: seq<Game>, g: Game)
    requires ReadsGames(step, writer, back) && ReadLines(step, [], lines) == ReadBackAll(back, can)
    ensures ReadLines(step, [], lines + writer(g)) == ReadBackAll(back, can + (if Runnable(g) then [g] else []))
  {
    ReadConcat(step, [], lines, writer(g));
    ReadBackMore(back, can, if Runnable(g) then [g] else []);
  }

  lemma {:induction false} GamesRead(step: Step, writer: GameWriter, back: string -> string, games: seq<Game>, n: nat)
    requires n <= |games| && ReadsGames(step, writer, back)
    ensures ReadLines(step, [], AllGameLines(writer, games, n)) == ReadBackAll(back, RunnableGames(games, n))
  {
    if n > 0 {
      GamesRead(step, writer, back, games, n - 1);
      OneMoreRead(step, writer, back, AllGameLines(writer, games, n - 1), RunnableGames(games, n - 1), games[n - 1]);
    }
  }

  lemma HeadLinesRead(step: Step, line: LineOf, back: string -> string, comments: seq<string>)
    requires Reads(step, line, back)
    ensures ReadLines(step, [], HeadLines(comments)) == []
  {
    var led := Led("# ", comments);
    assert forall i :: 0 <= i < |led| ==> led[i][0] == '#';
    CommentsRead(step, line, back, [], led);
    OneRead(step, [], "");
    assert step([], "") == [];
    ReadConcat(step, [], led, [""]);
  }

  /** Every line is one line. */
  ghost predicate OneLineEach(line: LineOf) {
    forall key, value {:trigger line(key, value)} :: IsKey(key) ==> OneLine(line(key, value))
  }

  ghost predicate AllOneLine(lines: seq<string>) { forall l :: l in lines ==> OneLine(l) }

  lemma {:induction false} GamesOneLine(writer: GameWriter, games: seq<Game>, n: nat)
    requires n <= |games| && forall g :: AllOneLine(writer(g))
    ensures AllOneLine(AllGameLines(writer, games, n))
  {
    if n > 0 {
      GamesOneLine(writer, games, n - 1);
      OneLineConcat(AllGameLines(writer, games, n - 1), writer(games[n - 1]));
    }
  }

  lemma OneLineConcat(a: seq<string>, b: seq<string>)
    requires AllOneLine(a) && AllOneLine(b)
    ensures AllOneLine(a + b)
  {
  }

  lemma GameOneLine(line: LineOf, g: Game)
    requires OneLineEach(line)
    ensures AllOneLine(GameLines(line, g))
  {
    KeysAreKeys();
    var bare := BareLines(line, g);
    assert forall l :: l in bare ==> OneLine(l);
    forall l | l in GameLines(line, g) ensures OneLine(l) {
      var i :| 0 <= i < |GameLines(line, g)| && GameLines(line, g)[i] == l;
      if i < |bare| {
        assert bare[i] in bare;
        LeadOneLine(if Runnable(g) then "" else "# ", bare[i]);
      }
    }
  }

  lemma LeadOneLine(lead: string, l: string)
    requires OneLine(lead) && OneLine(l)
    ensures OneLine(lead + l)
  {
  }

  lemma {:induction false} CodedOneLine(code: Code, value: string)
    requires forall c :: OneLine(code(c))
    ensures OneLine(Coded(code, value))
  {
    if value != "" {
      CodedOneLine(code, value[1..]);
    }
  }

  lemma EscapeOneLine(c: char)
    ensures OneLine(Escaped(c))
  {
    if IsControl(c) {
      HexDigits(c as int);
    }
  }

  lemma QuotedOneLine(value: string)
    ensures OneLine(Quoted(value))
  {
    if Awkward(value) {
      forall c ensures OneLine(Escaped(c)) {
        EscapeOneLine(c);
      }
      CodedOneLine(Escaped, value);
    } else {
      assert forall i :: 0 <= i < |value| ==> value[i] != '\n';
    }
  }

  lemma KeyLinesOneLine()
    ensures OneLineEach(KeyLine)
  {
    forall key, value {:trigger KeyLine(key, value)} | IsKey(key) ensures OneLine(KeyLine(key, value)) {
      QuotedOneLine(value);
    }
  }

  lemma LinesReadBack(step: Step, line: LineOf, back: string -> string, comments: seq<string>, games: seq<Game>)
    requires Reads(step, line, back) && OneLineEach(line) && forall i :: 0 <= i < |comments| ==> OneLine(comments[i])
    ensures ReadLines(step, [], LinesFrom(Unlines(ManifestLines(line, comments, games)), ""))
            == ReadBackAll(back, RunnableGames(games, |games|))
  {
    var writer := WriterOf(line);
    var head, rest := HeadLines(comments), AllGameLines(writer, games, |games|);
    forall g ensures AllOneLine(writer(g)) {
      GameOneLine(line, g);
    }
    GamesOneLine(writer, games, |games|);
    HeadOneLine(comments);
    LinesOfUnlines(head + rest);
    HeadLinesRead(step, line, back, comments);
    ReadConcat(step, [], head, rest);
    WriterRead(step, line, back);
    GamesRead(step, writer, back, games, |games|);
  }

  lemma HeadOneLine(comments: seq<string>)
    requires forall i :: 0 <= i < |comments| ==> OneLine(comments[i])
    ensures forall l :: l in HeadLines(comments) ==> OneLine(l)
  {
    var led := Led("# ", comments);
    forall i | 0 <= i < |led| ensures OneLine(led[i]) {
      LeadOneLine("# ", comments[i]);
    }
  }

  /** What is read from a manifest that was written: the games that can be run, in order, their fields reread. */
  lemma ManifestReadBack(comments: seq<string>, games: seq<Game>)
    requires forall i :: 0 <= i < |comments| ==> OneLine(comments[i])
    ensures EntriesOf(ManifestText(comments, games)) == ReadBackAll(Back, RunnableGames(games, |games|))
  {
    ReaderReads();
    KeyLinesOneLine();
    LinesReadBack(ReadLine, KeyLine, Back, comments, games);
  }

  /** A game's fields as they are. */
  function Fields(g: Game): BatchEntry { BatchEntry(g.name, g.runtime, g.exe, g.metadata) }

  function AllFields(games: seq<Game>): (entries: seq<BatchEntry>)
    ensures |entries| == |games|
  {
    seq(|games|, i requires 0 <= i < |games| => Fields(games[i]))
  }

  ghost predicate GameWritable(g: Game) {
    Writable(g.name) && Writable(g.runtime) && Writable(g.exe) && Writable(g.metadata)
  }

  /** Each value comes back as it was if and only if it is writable. */
  ghost predicate ReturnsWritable(back: string -> string) {
    forall v {:trigger back(v)} :: back(v) == v <==> Writable(v)
  }

  lemma BackReturns()
    ensures ReturnsWritable(Back)
  {
    forall v {:trigger Back(v)} ensures Back(v) == v <==> Writable(v) {
      RoundTrip(" ", v);
    }
  }

  lemma AllReturn(back: string -> string, games: seq<Game>)
    requires ReturnsWritable(back)
    ensures ReadBackAll(back, games) == AllFields(games) <==> forall g :: g in games ==> GameWritable(g)
  {
    var read, fields := ReadBackAll(back, games), AllFields(games);
    forall i | 0 <= i < |games| ensures read[i] == fields[i] <==> GameWritable(games[i]) {
      var g := games[i];
      assert read[i] == ReadBack(back, g) && fields[i] == Fields(g);
    }
    if read == fields {
      forall g | g in games ensures GameWritable(g) {
        var i :| 0 <= i < |games| && games[i] == g;
        assert read[i] == fields[i];
      }
    }
    if forall g :: g in games ==> GameWritable(g) {
      assert forall i :: 0 <= i < |games| ==> games[i] in games;
      assert read == fields;
    }
  }

  /**
   * The manifest round trip: written and read, the games that can be run come back in order with the
   * names, runtimes, executables and metadata they had, if and only if no field of theirs holds a
   * control character other than \n, \r and \t.
   */
  lemma ManifestRoundTrip(comments: seq<string>, games: seq<Game>)
    requires forall i :: 0 <= i < |comments| ==> OneLine(comments[i])
    ensures var can := RunnableGames(games, |games|);
            EntriesOf(ManifestText(comments, games)) == AllFields(can) <==> forall g :: g in can ==> GameWritable(g)
  {
    ManifestReadBack(comments, games);
    BackReturns();
    AllReturn(Back, RunnableGames(games, |games|));
  }

  // ---------------------------------------------------------------- manifests written by hand

  predicate Blanks(s: string) { forall i :: 0 <= i < |s| ==> IsBlank(s[i]) }

  predicate Spaces(s: string) { forall i :: 0 <= i < |s| ==> IsSpace(s[i]) }

  lemma {:induction false} TrimsLead(lead: string, s: string)
    requires Blanks(lead) && s != "" && !IsBlank(s[0])
    ensures TrimLeft(lead + s) == s
  {
    if lead == "" {
      assert lead + s == s;
    } else {
      TrimsLead(lead[1..], s);
      assert (lead + s)[1..] == lead[1..] + s;
    }
  }

  lemma {:induction false} TrimsTail(s: string, tail: string)
    requires Blanks(tail) && s != "" && !IsBlank(s[|s| - 1])
    ensures TrimRight(s + tail) == s
  {
    if tail == "" {
      assert s + tail == s;
    } else {
      TrimsTail(s, tail[..|tail| - 1]);
      assert (s + tail)[..|s + tail| - 1] == s + tail[..|tail| - 1];
    }
  }

  /** What stands around a line in blanks is not read, whether it came from a file of CRLF lines or from an editor. */
  lemma BlanksIgnored(entries: seq<BatchEntry>, lead: string, s: string, tail: string)
    requires Blanks(lead) && Blanks(tail) && s != "" && !IsBlank(s[0]) && !IsBlank(s[|s| - 1])
    ensures ReadLine(entries, lead + s + tail) == ReadTrimmed(entries, s)
  {
    assert lead + s + tail == lead + (s + tail);
    TrimsLead(lead, s + tail);
    TrimsTail(s, tail);
  }

  lemma {:induction false} TrimsKey(key: string, spaces: string)
    requires IsKey(key) && Spaces(spaces)
    ensures TrimKey(key + spaces) == key
  {
    if spaces == "" {
      assert key + spaces == key;
    } else {
      TrimsKey(key, spaces[..|spaces| - 1]);
      assert (key + spaces)[..|key + spaces| - 1] == key + spaces[..|spaces| - 1];
    }
  }

  /** A line of key and value sets the key of the last game, whatever blanks there are. */
  lemma HandWritten(entries: seq<BatchEntry>, e: BatchEntry, lead: string, key: string, spaces: string, rest: string,
                    tail: string)
    requires Blanks(lead) && IsKey(key) && Spaces(spaces) && rest != "" && !IsBlank(rest[|rest| - 1]) && Blanks(tail)
    ensures ReadLine(entries + [e], lead + (key + spaces + "=" + rest) + tail)
            == entries + [WithKey(e, key, ValueOf(rest))]
  {
    var s := key + spaces + "=" + rest;
    assert s[0] == key[0] && s[|s| - 1] == rest[|rest| - 1];
    BlanksIgnored(entries + [e], lead, s, tail);
    KeySet(entries, e, s, key, spaces, rest);
  }

  lemma KeySet(entries: seq<BatchEntry>, e: BatchEntry, s: string, key: string, spaces: string, rest: string)
    requires IsKey(key) && Spaces(spaces) && s == key + spaces + "=" + rest
    ensures ReadTrimmed(entries + [e], s) == entries + [WithKey(e, key, ValueOf(rest))]
  {
    EqualsAt(key, spaces, rest);
    TrimsKey(key, spaces);
    LastReplaced(entries, e, WithKey(e, key, ValueOf(rest)));
  }

  lemma EqualsAt(key: string, spaces: string, rest: string)
    requires IsKey(key) && Spaces(spaces)
    ensures var s, at := key + spaces + "=" + rest, |key| + |spaces|;
            && FirstEquals(s, 0) == Some(at) && s[..at] == key + spaces && s[at + 1..] == rest
            && s != "" && s[0] != '#' && s != "[[game]]"
  {
    var s, at := key + spaces + "=" + rest, |key| + |spaces|;
    assert s[at] == '=' && s[0] == key[0];
    forall i | 0 <= i < at ensures s[i] != '=' {
      assert s[i] == if i < |key| then key[i] else spaces[i - |key|];
    }
  }

  /** A key in front of the first game, and a line that is neither, are passed over. */
  lemma PassedOver(entries: seq<BatchEntry>, s: string)
    requires s != "" && s != "[[game]]" && (entries == [] || FirstEquals(s, 0).None?)
    ensures ReadTrimmed(entries, s) == entries
  {
  }

  /** The lines of one game, read on their own, are the game. */
  lemma BareRead(step: Step, line: LineOf, back: string -> string, g: Game)
    requires Reads(step, line, back)
    ensures ReadLines(step, [], BareLines(line, g)) == [ReadBack(back, g)]
  {
    FourRead(step, line, back, [], g);
    MoreRead(step, line, back, [], BatchEntry(back(g.name), back(g.runtime), back(g.exe), ""), g);
    ReadConcat(step, [], FourLines(line, g), MoreLines(line, g));
    assert [] + [ReadBack(back, g)] == [ReadBack(back, g)];
    assert [] + [BatchEntry(back(g.name), back(g.runtime), back(g.exe), "")]
        == [BatchEntry(back(g.name), back(g.runtime), back(g.exe), "")];
  }

  /** What is left of a commented line. */
  function Uncommented(lines: seq<string>): seq<string>
    requires forall i :: 0 <= i < |lines| ==> "# " <= lines[i]
  {
    seq(|lines|, i requires 0 <= i < |lines| => lines[i][2..])
  }

  /**
   * A game that cannot be run is there, line by line behind "# ": with those taken away, what is read is
   * the game.
   */
  lemma CommentedIsThere(g: Game)
    requires !Runnable(g)
    ensures var lines := GameLines(KeyLine, g);
            && (forall i :: 0 <= i < |lines| - 1 ==> "# " <= lines[i])
            && ReadLines(ReadLine, [], Uncommented(lines[..|lines| - 1])) == [ReadBack(Back, g)]
  {
    var bare, lines := BareLines(KeyLine, g), GameLines(KeyLine, g);
    assert lines[..|lines| - 1] == Led("# ", bare);
    forall i | 0 <= i < |bare| ensures "# " <= lines[i] && lines[i][2..] == bare[i] {
      assert lines[i] == "# " + bare[i];
    }
    assert Uncommented(lines[..|lines| - 1]) == bare;
    ReaderReads();
    BareRead(ReadLine, KeyLine, Back, g);
  }

  // ---------------------------------------------------------------- the loops

  lemma {:induction false} UnlinesConcat(a: seq<string>, b: seq<string>)
    ensures Unlines(a + b) == Unlines(a) + Unlines(b)
  {
    if a == [] {
      assert a + b == b;
    } else {
      assert (a + b)[1..] == a[1..] + b;
      UnlinesConcat(a[1..], b);
      assert a[0] + "\n" + (Unlines(a[1..]) + Unlines(b)) == a[0] + "\n" + Unlines(a[1..]) + Unlines(b);
    }
  }

  method WriteLines(lines: seq<string>) returns (text: string)
    ensures text == Unlines(lines)
  {
    text := "";
    for n := 0 to |lines|
      invariant text == Unlines(lines[..n])
    {
      assert lines[..n + 1] == lines[..n] + [lines[n]];
      UnlinesConcat(lines[..n], [lines[n]]);
      assert [lines[n]][1..] == [];
      text := text + (lines[n] + "\n" + "");
    }
    assert lines[..|lines|] == lines;
  }

  lemma Behind(head: string, lines: string, game: string)
    ensures head + lines + game == head + (lines + game)
  {
  }

  method WriteGames(head: string, writer: GameWriter, games: seq<Game>) returns (text: string)
    ensures text == head + Unlines(AllGameLines(writer, games, |games|))
  {
    text := head;
    assert head + "" == head;
    for n := 0 to |games|
      invariant text == head + Unlines(AllGameLines(writer, games, n))
    {
      var game := WriteLines(writer(games[n]));
      UnlinesConcat(AllGameLines(writer, games, n), writer(games[n]));
      Behind(head, Unlines(AllGameLines(writer, games, n)), game);
      text := text + game;
    }
  }

  method WriteManifest(comments: seq<string>, games: seq<Game>) returns (text: string)
    ensures text == ManifestText(comments, games)
  {
    var writer := WriterOf(KeyLine);
    var head := WriteLines(HeadLines(comments));
    text := WriteGames(head, writer, games);
    UnlinesConcat(HeadLines(comments), AllGameLines(writer, games, |games|));
  }

  method ReadManifest(text: string) returns (entries: seq<BatchEntry>)
    ensures entries == EntriesOf(text)
  {
    var lines := LinesFrom(text, "");
    var step: Step := ReadLine;
    entries := [];
    for n := 0 to |lines|
      invariant ReadLines(step, entries, lines[n..]) == ReadLines(step, [], lines)
    {
      assert lines[n..][1..] == lines[n + 1..];
      entries := step(entries, lines[n]);
    }
  }
}
