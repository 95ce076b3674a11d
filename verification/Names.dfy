/** Names made unique by a counter: the two allocators that cannot run out. */
module Names {

  function Digit(d: nat): char
    requires d < 10
  {
    "0123456789"[d]
  }

  function Decimal(n: nat): (s: string)
    ensures |s| > 0
  {
    if n < 10 then [Digit(n)] else Decimal(n / 10) + [Digit(n % 10)]
  }

  function HexChar(d: nat): char
    requires d < 16
  {
    "0123456789ABCDEF"[d]
  }

  function Hex(n: nat): string {
    if n < 16 then [HexChar(n)] else Hex(n / 16) + [HexChar(n % 16)]
  }

  /** At least four upper-case hexadecimal digits. */
  function Hex4(n: nat): string {
    var s := Hex(n);
    if |s| >= 4 then s else seq(4 - |s|, _ => '0') + s
  }

  predicate IsHex(c: char) { '0' <= c <= '9' || 'A' <= c <= 'F' || 'a' <= c <= 'f' }

  function HexDigit(c: char): (d: nat)
    requires IsHex(c)
    ensures d < 16
  {
    if c <= '9' then c as nat - '0' as nat
    else if c <= 'F' then c as nat - 'A' as nat + 10
    else c as nat - 'a' as nat + 10
  }

  predicate AllHex(s: string) { forall i :: 0 <= i < |s| ==> IsHex(s[i]) }

  /** The number hexadecimal digits stand for. */
  function HexValue(s: string): nat
    requires AllHex(s)
  {
    if s == "" then 0 else 16 * HexValue(s[..|s| - 1]) + HexDigit(s[|s| - 1])
  }

  lemma HexCharBack(d: nat)
    requires d < 16
    ensures HexChar(d) <= 'F' && IsHex(HexChar(d)) && HexDigit(HexChar(d)) == d
  {
  }

  /** Upper-case digits. */
  predicate UpperHex(s: string) { forall i :: 0 <= i < |s| ==> IsHex(s[i]) && s[i] <= 'F' }

  lemma HexValueMore(s: string, d: nat)
    requires UpperHex(s) && d < 16
    ensures UpperHex(s + [HexChar(d)]) && HexValue(s + [HexChar(d)]) == 16 * HexValue(s) + d
  {
    HexCharBack(d);
    assert (s + [HexChar(d)])[..|s|] == s;
  }

  lemma {:induction false} HexBack(n: nat)
    ensures UpperHex(Hex(n)) && HexValue(Hex(n)) == n && Hex(n) != ""
  {
    if n < 16 {
      HexValueMore("", n);
      assert "" + [HexChar(n)] == Hex(n);
    } else {
      HexBack(n / 16);
      HexValueMore(Hex(n / 16), n % 16);
    }
  }

  lemma {:induction false} ZerosBefore(zeros: string, s: string)
    requires UpperHex(s) && forall i :: 0 <= i < |zeros| ==> zeros[i] == '0'
    ensures UpperHex(zeros + s) && HexValue(zeros + s) == HexValue(s)
    decreases |zeros| + |s|
  {
    var t := zeros + s;
    if s != "" {
      ZerosBefore(zeros, s[..|s| - 1]);
      assert t[..|t| - 1] == zeros + s[..|s| - 1];
    } else if zeros != "" {
      ZerosBefore(zeros[..|zeros| - 1], "");
      assert t[..|t| - 1] == zeros[..|zeros| - 1] + "";
    }
  }

  /** The digits written can be read back, so two numbers never print alike. */
  lemma Hex4Back(n: nat)
    ensures |Hex4(n)| >= 4 && UpperHex(Hex4(n)) && HexValue(Hex4(n)) == n
  {
    HexBack(n);
    var s := Hex(n);
    if |s| < 4 {
      var zeros := seq(4 - |s|, _ => '0');
      ZerosBefore(zeros, s);
      assert Hex4(n) == zeros + s;
    }
  }

  lemma {:induction false} DecimalInjective(m: nat, n: nat)
    requires Decimal(m) == Decimal(n)
    ensures m == n
  {
    var s, t := Decimal(m), Decimal(n);
    assert s[|s| - 1] == Digit(m % 10) && t[|t| - 1] == Digit(n % 10);
    if m >= 10 && n >= 10 {
      assert s[..|s| - 1] == Decimal(m / 10) && t[..|t| - 1] == Decimal(n / 10);
      DecimalInjective(m / 10, n / 10);
    }
  }

  /** `name_k`. */
  function Suffixed(name: string, k: nat): string { name + "_" + Decimal(k) }

  lemma SuffixedInjective(name: string, j: nat, k: nat)
    requires Suffixed(name, j) == Suffixed(name, k)
    ensures j == k
  {
    var n := |name| + 1;
    assert Suffixed(name, j)[n..] == Decimal(j) && Suffixed(name, k)[n..] == Decimal(k);
    DecimalInjective(j, k);
  }

  ghost predicate IsSuffixed(name: string, from: nat, s: string) {
    exists k {:trigger Suffixed(name, k)} :: k >= from && s == Suffixed(name, k)
  }

  /** The taken names a counter that stands at `from` can still run into. */
  ghost function Ahead(name: string, from: nat, taken: set<string>): set<string> {
    set s | s in taken && IsSuffixed(name, from, s)
  }

  lemma CounterMoves(name: string, k: nat, taken: set<string>)
    requires Suffixed(name, k) in taken
    ensures Ahead(name, k + 1, taken) < Ahead(name, k, taken)
  {
    var s := Suffixed(name, k);
    var now, next := Ahead(name, k, taken), Ahead(name, k + 1, taken);
    if IsSuffixed(name, k + 1, s) {
      var j: nat :| j >= k + 1 && s == Suffixed(name, j);
      SuffixedInjective(name, j, k);
    }
    assert s in now && s !in next;
    forall t | t in next ensures t in now {
      var j: nat :| j >= k + 1 && t == Suffixed(name, j);
      assert IsSuffixed(name, k, t);
    }
  }

  /** `s` is the first of `name_from`, `name_from+1`, … that is not taken. */
  ghost predicate IsFirstFree(name: string, from: nat, taken: set<string>, s: string) {
    s !in taken && exists k: nat {:trigger Suffixed(name, k)} ::
      (k >= from && s == Suffixed(name, k) && forall j: nat :: from <= j < k ==> Suffixed(name, j) in taken)
  }

  /** The counter's loop. The taken set being finite, it stops. */
  method FirstFree(name: string, from: nat, taken: set<string>) returns (candidate: string)
    ensures IsFirstFree(name, from, taken, candidate)
  {
    var suffix := from;
    candidate := Suffixed(name, suffix);
    while candidate in taken
      invariant suffix >= from && candidate == Suffixed(name, suffix)
      invariant forall j: nat :: from <= j < suffix ==> Suffixed(name, j) in taken
      decreases Ahead(name, suffix, taken)
    {
      CounterMoves(name, suffix, taken);
      suffix := suffix + 1;
      candidate := Suffixed(name, suffix);
    }
  }

  /** A member's name, unique in its owner: the name itself when free, else the first free `name_k`. */
  method UniqueMember(name: string, taken: set<string>) returns (member: string, more: set<string>)
    ensures member !in taken && more == taken + {member}
    ensures name !in taken ==> member == name
    ensures name in taken ==> IsFirstFree(name, 1, taken, member)
    ensures member == name || IsSuffixed(name, 1, member)
  {
    if name !in taken {
      return name, taken + {name};
    }
    member := FirstFree(name, 1, taken);
    more := taken + {member};
  }

  // ---------------------------------------------------------------- the disassembler model's names

  /** A type to be named: its path, the name it would have, and its package's. */
  datatype Wanted = Wanted(path: string, candidate: string, package: string)

  /** The name of one type: its own, else with the package, else numbered from 2. */
  method Claim(candidate: string, package: string, used: set<string>) returns (name: string, more: set<string>)
    ensures name !in used && more == used + {name}
    ensures candidate !in used ==> name == candidate
    ensures MadeFrom(Wanted("", candidate, package), name)
    ensures var qualified := candidate + "_" + package;
            candidate in used ==>
              (qualified !in used ==> name == qualified)
              && (qualified in used ==> IsFirstFree(qualified, 2, used, name))
  {
    if candidate !in used {
      return candidate, used + {candidate};
    }
    var qualified := candidate + "_" + package;
    if qualified !in used {
      return qualified, used + {qualified};
    }
    name := FirstFree(qualified, 2, used);
    more := used + {name};
  }

  /** No two paths have one name. */
  ghost predicate Injective(names: map<string, string>) {
    forall p, q :: p in names && q in names && names[p] == names[q] ==> p == q
  }

  ghost function PathsOf(wanted: seq<Wanted>): set<string> { set w | w in wanted :: w.path }

  /** The name was made from what the type asked for. */
  ghost predicate MadeFrom(w: Wanted, name: string) {
    || name == w.candidate
    || name == w.candidate + "_" + w.package
    || IsSuffixed(w.candidate + "_" + w.package, 2, name)
  }

  /** Every path has a name of its own, made for its first type, none of them used before. */
  ghost predicate Named(wanted: seq<Wanted>, names: map<string, string>, used: set<string>, more: set<string>) {
    && names.Keys == PathsOf(wanted) && Injective(names) && used <= more
    && (forall p :: p in names ==> names[p] !in used && names[p] in more)
    && FirstsMade(wanted, names)
  }

  ghost predicate FirstsMade(wanted: seq<Wanted>, names: map<string, string>)
    requires names.Keys == PathsOf(wanted)
  {
    forall i {:trigger wanted[i]} :: 0 <= i < |wanted| && wanted[i].path !in PathsOf(wanted[..i])
      ==> MadeFrom(wanted[i], names[wanted[i].path])
  }

  lemma OneMoreMade(wanted: seq<Wanted>, w: Wanted, names: map<string, string>, name: string)
    requires names.Keys == PathsOf(wanted) && FirstsMade(wanted, names) && MadeFrom(w, name)
    ensures var names' := if w.path in names then names else names[w.path := name];
            names'.Keys == PathsOf(wanted + [w]) && FirstsMade(wanted + [w], names')
  {
    var longer := wanted + [w];
    assert PathsOf(longer) == PathsOf(wanted) + {w.path};
    var names' := if w.path in names then names else names[w.path := name];
    forall i {:trigger longer[i]} | 0 <= i < |longer| && longer[i].path !in PathsOf(longer[..i])
      ensures MadeFrom(longer[i], names'[longer[i].path])
    {
      if i < |wanted| {
        assert longer[..i] == wanted[..i] && wanted[i] == longer[i];
      } else {
        assert longer[..i] == wanted;
      }
    }
  }

  lemma OneMoreNamed(wanted: seq<Wanted>, w: Wanted, names: map<string, string>, used: set<string>, more: set<string>,
                     name: string)
    requires Named(wanted, names, used, more) && name !in more && MadeFrom(w, name)
    ensures Named(wanted + [w], if w.path in names then names else names[w.path := name], used, more + {name})
  {
    OneMoreMade(wanted, w, names, name);
  }

  /** One list of types named on top of what is used already; a path's first type names it. */
  method ClaimAll(wanted: seq<Wanted>, used: set<string>) returns (names: map<string, string>, more: set<string>)
    ensures Named(wanted, names, used, more)
  {
    names, more := map[], used;
    for n := 0 to |wanted|
      invariant Named(wanted[..n], names, used, more)
    {
      assert wanted[..n + 1] == wanted[..n] + [wanted[n]];
      var w := wanted[n];
      var name, next := Claim(w.candidate, w.package, more);
      OneMoreNamed(wanted[..n], w, names, used, more, name);
      more := next;
      if w.path !in names {
        names := names[w.path := name];
      }
    }
    assert wanted[..|wanted|] == wanted;
  }

  /** Structs first, then enums on top of the same names: all distinct, jointly. */
  method NameTypes(types: seq<Wanted>, enums: seq<Wanted>)
    returns (structNames: map<string, string>, enumNames: map<string, string>)
    ensures structNames.Keys == PathsOf(types) && enumNames.Keys == PathsOf(enums)
    ensures Injective(structNames) && Injective(enumNames)
    ensures forall p, q :: p in structNames && q in enumNames ==> structNames[p] != enumNames[q]
    ensures forall i {:trigger types[i]} :: 0 <= i < |types| && types[i].path !in PathsOf(types[..i])
              ==> MadeFrom(types[i], structNames[types[i].path])
    ensures forall i {:trigger enums[i]} :: 0 <= i < |enums| && enums[i].path !in PathsOf(enums[..i])
              ==> MadeFrom(enums[i], enumNames[enums[i].path])
  {
    var used;
    structNames, used := ClaimAll(types, {});
    enumNames, used := ClaimAll(enums, used);
  }
}
