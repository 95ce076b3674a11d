/** Where a C# type sits: its assembly, its namespace, and the chain of outer types down to it. */
module CSharpNames {
  import opened Common

  /** Where the last ", " of the text is. */
  function LastComma(text: string): (at: Option<nat>)
    ensures at.Some? ==> at.value + 2 <= |text| && text[at.value..at.value + 2] == ", "
  {
    if |text| < 2 then None
    else if text[|text| - 2..] == ", " then Some(|text| - 2)
    else LastComma(text[..|text| - 1])
  }

  /** "Game.Boss, Assembly" is the name "Game.Boss" in the assembly "Assembly". */
  function NamePart(path: string): string {
    match LastComma(path)
    case Some(at) => path[..at]
    case None => path
  }

  function AssemblyPart(path: string): string {
    match LastComma(path)
    case Some(at) => path[at + 2..]
    case None => ""
  }

  function Deeper(depth: int, c: char): int {
    if c == '<' || c == '[' then depth + 1 else if c == '>' || c == ']' then depth - 1 else depth
  }

  /** The parts of a text between dots that are in no argument list. */
  function SplitFrom(text: string, depth: int, current: string): (parts: seq<string>)
    ensures |parts| > 0
  {
    if text == "" then [current] else
    var deeper := Deeper(depth, text[0]);
    if text[0] == '.' && deeper == 0 then [current] + SplitFrom(text[1..], deeper, "")
    else SplitFrom(text[1..], deeper, current + [text[0]])
  }

  function Dotted(parts: seq<string>): string {
    if parts == [] then "" else if |parts| == 1 then parts[0] else parts[0] + "." + Dotted(parts[1..])
  }

  /** Put together again the parts are the text. */
  lemma {:induction false} SplitJoins(text: string, depth: int, current: string)
    ensures Dotted(SplitFrom(text, depth, current)) == current + text
  {
    if text == "" {
      assert current + text == current;
    } else {
      var deeper := Deeper(depth, text[0]);
      if text[0] == '.' && deeper == 0 {
        SplitJoins(text[1..], deeper, "");
        var rest := SplitFrom(text[1..], deeper, "");
        assert ([current] + rest)[1..] == rest;
        assert current + "." + text[1..] == current + text;
        assert "" + text[1..] == text[1..];
      } else {
        SplitJoins(text[1..], deeper, current + [text[0]]);
        assert current + [text[0]] + text[1..] == current + text;
      }
    }
  }

  /** Without its last part a dotted text is shorter by the part and its dot. */
  lemma {:induction false} DottedShorter(parts: seq<string>)
    requires |parts| > 1
    ensures |Dotted(parts[..|parts| - 1])| < |Dotted(parts)|
  {
    var init := parts[..|parts| - 1];
    if |parts| > 2 {
      var rest := parts[1..];
      DottedShorter(rest);
      assert init[1..] == rest[..|rest| - 1];
    }
  }

  /** The loop that splits. */
  method SplitDots(text: string) returns (parts: seq<string>)
    ensures parts == SplitFrom(text, 0, "")
  {
    var depth := 0;
    var current := "";
    parts := [];
    assert text[0..] == text;
    for n := 0 to |text|
      invariant parts + SplitFrom(text[n..], depth, current) == SplitFrom(text, 0, "")
    {
      assert text[n..][0] == text[n] && text[n..][1..] == text[n + 1..];
      depth := Deeper(depth, text[n]);
      if text[n] == '.' && depth == 0 {
        assert parts + ([current] + SplitFrom(text[n + 1..], depth, ""))
            == parts + [current] + SplitFrom(text[n + 1..], depth, "");
        parts := parts + [current];
        current := "";
      } else {
        current := current + [text[n]];
      }
    }
    parts := parts + [current];
  }

  // ---------------------------------------------------------------- the outer type

  /** A type or an enum of the dump, and the assembly its package is named after. */
  datatype Entry = Entry(path: string, nameSpace: string, fallback: string, isEnum: bool)

  function Assembly(e: Entry): string { if AssemblyPart(e.path) == "" then e.fallback else AssemblyPart(e.path) }

  /** The namespace is a prefix of the name, and a dot and something follow it. */
  predicate Prefixed(nameSpace: string, name: string) {
    nameSpace != "" && |name| > |nameSpace| + 1 && name[..|nameSpace|] == nameSpace && name[|nameSpace|] == '.'
  }

  /** The name below the namespace. */
  function LocalName(e: Entry): string {
    var name := NamePart(e.path);
    if Prefixed(e.nameSpace, name) then name[|e.nameSpace| + 1..] else name
  }

  function Nesting(e: Entry): (parts: seq<string>)
    ensures |parts| > 0
  {
    SplitFrom(LocalName(e), 0, "")
  }

  /** The path the outer type would have, when the type is nested at all. */
  function OuterPath(e: Entry): Option<string> {
    var parts := Nesting(e);
    if |parts| < 2 then None else
    var local := Dotted(parts[..|parts| - 1]);
    var name := if e.nameSpace == "" then local else e.nameSpace + "." + local;
    Some(if Assembly(e) == "" then name else name + ", " + Assembly(e))
  }

  // ---------------------------------------------------------------- what that is

  /** How many argument lists are open in front of the n-th character. */
  function Depth(text: string, start: int, n: nat): int
    requires n <= |text|
  {
    if n == 0 then start else Deeper(Depth(text, start, n - 1), text[n - 1])
  }

  /** A dot in no argument list. */
  predicate TopDot(text: string, start: int, i: nat) { i < |text| && text[i] == '.' && Depth(text, start, i) == 0 }

  /** The last such dot. */
  ghost predicate LastDot(text: string, start: int, i: nat) {
    TopDot(text, start, i) && forall k: nat :: i < k < |text| ==> !TopDot(text, start, k)
  }

  lemma {:induction false} DepthLater(text: string, start: int, n: nat)
    requires 0 < n <= |text|
    ensures Depth(text, start, n) == Depth(text[1..], Deeper(start, text[0]), n - 1)
  {
    if n > 1 {
      DepthLater(text, start, n - 1);
    }
  }

  lemma DotLater(text: string, start: int, i: nat)
    requires text != ""
    ensures TopDot(text, start, i + 1) <==> TopDot(text[1..], Deeper(start, text[0]), i)
    ensures TopDot(text, start, 0) <==> text[0] == '.' && Deeper(start, text[0]) == 0
  {
    if i + 1 < |text| {
      DepthLater(text, start, i + 1);
    }
  }

  lemma {:induction false} NoDotNoSplit(text: string, start: int, current: string)
    requires forall k: nat :: !TopDot(text, start, k)
    ensures SplitFrom(text, start, current) == [current + text]
  {
    if text == "" {
      assert current + text == current;
    } else {
      forall k: nat ensures !TopDot(text[1..], Deeper(start, text[0]), k) {
        DotLater(text, start, k);
      }
      DotLater(text, start, 0);
      assert !TopDot(text, start, 0);
      NoDotNoSplit(text[1..], Deeper(start, text[0]), current + [text[0]]);
      assert current + [text[0]] + text[1..] == current + text;
    }
  }

  /** All parts but the last make up the text in front of the last dot. */
  ghost predicate CutsAt(parts: seq<string>, front: string, behind: string) {
    |parts| > 1 && Dotted(parts[..|parts| - 1]) == front && parts[|parts| - 1] == behind
  }

  lemma CutBefore(part: string, rest: seq<string>, front: string, behind: string)
    requires CutsAt(rest, front, behind)
    ensures CutsAt([part] + rest, part + "." + front, behind)
  {
    var parts := [part] + rest;
    assert parts[..|parts| - 1][1..] == rest[..|rest| - 1];
  }

  lemma CutHere(part: string, behind: string)
    ensures CutsAt([part, behind], part, behind)
  {
    assert [part, behind][..1] == [part];
  }

  lemma {:induction false} SplitsAtLast(text: string, start: int, current: string, i: nat)
    requires LastDot(text, start, i)
    ensures CutsAt(SplitFrom(text, start, current), current + text[..i], text[i + 1..])
  {
    var rest, deeper := text[1..], Deeper(start, text[0]);
    DotLater(text, start, 0);
    forall k: nat ensures TopDot(text, start, k + 1) <==> TopDot(rest, deeper, k) {
      DotLater(text, start, k);
    }
    if i == 0 {
      forall k: nat ensures !TopDot(rest, deeper, k) {
        assert !TopDot(text, start, k + 1);
      }
      NoDotNoSplit(rest, deeper, "");
      assert "" + rest == rest && current + text[..0] == current;
      CutHere(current, rest);
    } else {
      assert forall k: nat :: i - 1 < k < |rest| ==> !TopDot(rest, deeper, k) by {
        forall k: nat | i - 1 < k < |rest| ensures !TopDot(rest, deeper, k) {
          assert !TopDot(text, start, k + 1);
        }
      }
      assert rest[i..] == text[i + 1..];
      if TopDot(text, start, 0) {
        SplitsAtLast(rest, deeper, "", i - 1);
        CutBefore(current, SplitFrom(rest, deeper, ""), rest[..i - 1], text[i + 1..]);
        assert "" + rest[..i - 1] == rest[..i - 1];
        assert current + "." + rest[..i - 1] == current + text[..i];
      } else {
        SplitsAtLast(rest, deeper, current + [text[0]], i - 1);
        assert current + [text[0]] + rest[..i - 1] == current + text[..i];
      }
    }
  }

  /** The path of a name in the namespace and the assembly. */
  function PathOf(nameSpace: string, name: string, assembly: string): string {
    (if nameSpace == "" then name else nameSpace + "." + name) + (if assembly == "" then "" else ", " + assembly)
  }

  /** The outer type is what stands in front of the last dot outside argument lists; without one there is none. */
  lemma OuterIs(e: Entry)
    ensures OuterPath(e).None? <==> forall i: nat :: !TopDot(LocalName(e), 0, i)
    ensures forall i: nat :: LastDot(LocalName(e), 0, i) ==>
              OuterPath(e) == Some(PathOf(e.nameSpace, LocalName(e)[..i], Assembly(e)))
  {
    var local := LocalName(e);
    if i: nat :| TopDot(local, 0, i) {
      var last := LastDotFrom(local, i);
      OuterAt(e, local, last);
    } else {
      NoDotNoSplit(local, 0, "");
    }
    forall i: nat | LastDot(local, 0, i)
      ensures OuterPath(e) == Some(PathOf(e.nameSpace, local[..i], Assembly(e)))
    {
      OuterAt(e, local, i);
    }
  }

  lemma OuterAt(e: Entry, local: string, i: nat)
    requires local == LocalName(e) && LastDot(local, 0, i)
    ensures OuterPath(e) == Some(PathOf(e.nameSpace, local[..i], Assembly(e)))
  {
    SplitsAtLast(local, 0, "", i);
    assert "" + local[..i] == local[..i];
    OuterFrom(e, Nesting(e), local[..i], local[i + 1..]);
  }

  lemma OuterFrom(e: Entry, parts: seq<string>, front: string, behind: string)
    requires parts == Nesting(e) && CutsAt(parts, front, behind)
    ensures OuterPath(e) == Some(PathOf(e.nameSpace, front, Assembly(e)))
  {
    PathText(if e.nameSpace == "" then front else e.nameSpace + "." + front, Assembly(e));
  }

  lemma PathText(name: string, assembly: string)
    ensures name + (if assembly == "" then "" else ", " + assembly)
            == if assembly == "" then name else name + ", " + assembly
  {
    assert name + "" == name;
    assert name + ", " + assembly == name + (", " + assembly);
  }

  lemma {:induction false} LastDotFrom(text: string, i: nat) returns (last: nat)
    requires TopDot(text, 0, i)
    ensures LastDot(text, 0, last)
    decreases |text| - i
  {
    last := i;
    if k: nat :| i < k < |text| && TopDot(text, 0, k) {
      last := LastDotFrom(text, k);
    }
  }

  /** The last ", " of a text is one, and there is none behind it. */
  lemma {:induction false} LastCommaIs(text: string, i: nat)
    requires i + 2 <= |text| && text[i..i + 2] == ", "
    ensures LastComma(text).Some? && i <= LastComma(text).value
  {
    if text[|text| - 2..] != ", " {
      assert text[..|text| - 1][i..i + 2] == text[i..i + 2];
      LastCommaIs(text[..|text| - 1], i);
    }
  }

  /** The name of an entry, without its assembly. */
  function Length(e: Entry): nat { |NamePart(e.path)| }

  /**
   * The assembly, from the path or from the package, holds no ", ", and the namespace is empty or begins
   * the name. The first is so for every path that carries its assembly.
   */
  predicate WellPlaced(e: Entry) {
    LastComma(Assembly(e)).None? && (e.nameSpace == "" || Prefixed(e.nameSpace, NamePart(e.path)))
  }

  lemma {:induction false} NoCommaBehind(path: string)
    requires LastComma(path).Some?
    ensures LastComma(path[LastComma(path).value + 2..]).None?
  {
    if path[|path| - 2..] != ", " {
      NoCommaBehind(path[..|path| - 1]);
      NoCommaMore(path, LastComma(path).value + 2);
    }
  }

  /** A text that does not end in ", ", and holds none before its last character, holds none. */
  lemma NoCommaEnds(text: string)
    requires text != "" && LastComma(text[..|text| - 1]).None?
    requires |text| > 1 ==> text[|text| - 2..] != ", "
    ensures LastComma(text).None?
  {
  }

  /** Nor does what is behind a place, when it holds none but for the last character. */
  lemma NoCommaMore(path: string, from: nat)
    requires from < |path| && |path| > 1 && path[|path| - 2..] != ", "
    requires LastComma(path[..|path| - 1][from..]).None?
    ensures LastComma(path[from..]).None?
  {
    var behind := path[from..];
    assert behind[..|behind| - 1] == path[..|path| - 1][from..];
    if |behind| > 1 {
      assert behind[|behind| - 2..] == path[|path| - 2..];
    }
    NoCommaEnds(behind);
  }

  /** A path that carries its assembly is fine, whatever its package is called. */
  lemma CarriedIsWellPlaced(e: Entry)
    requires AssemblyPart(e.path) != "" && (e.nameSpace == "" || Prefixed(e.nameSpace, NamePart(e.path)))
    ensures WellPlaced(e)
  {
    NoCommaBehind(e.path);
  }

  lemma LastTwo(name: string, assembly: string)
    requires assembly != ""
    ensures var path, front := name + ", " + assembly, assembly[..|assembly| - 1];
            && path[..|path| - 1] == name + ", " + front
            && (path[|path| - 2..] == ", " ==> |assembly| > 1 && assembly[|assembly| - 2..] == ", ")
  {
    var path := name + ", " + assembly;
    assert path[|path| - 2..] == if |assembly| > 1 then assembly[|assembly| - 2..] else [' ', assembly[0]];
  }

  /** The comma in front of an assembly that holds none is the last. */
  lemma {:induction false} CommaOfPath(name: string, assembly: string)
    requires LastComma(assembly).None?
    ensures LastComma(name + ", " + assembly) == Some(|name|)
    decreases |assembly|
  {
    if assembly == "" {
      assert (name + ", " + "")[|name|..] == ", ";
    } else {
      LastTwo(name, assembly);
      CommaOfPath(name, assembly[..|assembly| - 1]);
    }
  }

  /** The name of a path put together is the name. */
  lemma NameOfPath(name: string, assembly: string)
    requires LastComma(assembly).None?
    ensures NamePart(name + ", " + assembly) == name
  {
    CommaOfPath(name, assembly);
    assert (name + ", " + assembly)[..|name|] == name;
  }

  lemma LocalIsShorter(e: Entry, outer: string)
    requires WellPlaced(e) && |outer| < |LocalName(e)|
    ensures |if e.nameSpace == "" then outer else e.nameSpace + "." + outer| < Length(e)
  {
  }

  lemma NamePartShort(path: string)
    ensures |NamePart(path)| <= |path|
  {
  }

  /** The outer type's name is strictly shorter. */
  lemma OuterIsShorter(e: Entry)
    requires WellPlaced(e) && OuterPath(e).Some?
    ensures |NamePart(OuterPath(e).value)| < Length(e)
  {
    var parts, local := Nesting(e), LocalName(e);
    SplitJoins(local, 0, "");
    assert "" + local == local;
    DottedShorter(parts);
    var outer := Dotted(parts[..|parts| - 1]);
    var name := if e.nameSpace == "" then outer else e.nameSpace + "." + outer;
    LocalIsShorter(e, outer);
    NameOfPath(name, Assembly(e));
    NamePartShort(name);
  }
}
