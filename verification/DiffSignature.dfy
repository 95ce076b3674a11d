/** The text a type is compared by, and how it comes apart again. */
module DiffSignature {
  import opened Ir
  import opened Names

  function KindText(kind: TypeKind): string {
    match kind
    case Unknown => "unknown"
    case Bool => "bool"
    case Int8 => "int8"
    case Int16 => "int16"
    case Int32 => "int32"
    case Int64 => "int64"
    case UInt8 => "uint8"
    case UInt16 => "uint16"
    case UInt32 => "uint32"
    case UInt64 => "uint64"
    case Float => "float"
    case Double => "double"
    case Name => "name"
    case String => "string"
    case Text => "text"
    case Enumeration => "enum"
    case Struct => "struct"
    case ObjectPtr => "objectptr"
    case WeakPtr => "weakptr"
    case LazyPtr => "lazyptr"
    case SoftPtr => "softptr"
    case SoftClassPtr => "softclassptr"
    case ClassPtr => "classptr"
    case Interface => "interface"
    case Array => "array"
    case Set => "set"
    case Map => "map"
    case Delegate => "delegate"
    case MulticastDelegate => "multicast_delegate"
    case FieldPath => "fieldpath"
    case Optional => "optional"
  }

  function DecimalInt(n: int): string { if n < 0 then "-" + Decimal(-n) else Decimal(n) }

  /** The signature, given the text of each kind. */
  function SignatureBy(text: TypeKind -> string, ty: TypeRef): string
    decreases ty, 0
  {
    text(ty.kind)
    + (if ty.name == "" then "" else "<" + ty.name + ">")
    + (if ty.params == [] then "" else "(" + Joined(text, ty.params) + ")")
    + "[" + DecimalInt(ty.size) + "]"
  }

  /** The signatures of the parameters, between commas. */
  function Joined(text: TypeKind -> string, params: seq<TypeRef>): string
    requires params != []
    decreases params, 1
  {
    SignatureBy(text, params[0]) + (if |params| == 1 then "" else "," + Joined(text, params[1..]))
  }

  function Signature(ty: TypeRef): string { SignatureBy(KindText, ty) }

  /** The signature, built from front to back. */
  method WriteSignature(ty: TypeRef) returns (out: string)
    ensures out == Signature(ty)
    decreases ty
  {
    out := KindText(ty.kind);
    if ty.name != "" {
      out := out + ("<" + ty.name + ">");
    }
    if ty.params != [] {
      var params := WriteParams(ty.params);
      out := out + ("(" + params + ")");
    }
    out := out + "[" + DecimalInt(ty.size) + "]";
  }

  method WriteParams(params: seq<TypeRef>) returns (out: string)
    requires params != []
    ensures out == Joined(KindText, params)
    decreases params
  {
    ghost var text := KindText;
    out := WriteSignature(params[0]);
    for i := 1 to |params|
      invariant Joined(text, params) == out + RestOf(text, params, i)
    {
      var next := WriteSignature(params[i]);
      RestMore(text, params, i, out);
      out := out + "," + next;
    }
  }

  /** The parameters from one on, each after its comma. */
  function RestOf(text: TypeKind -> string, params: seq<TypeRef>, i: nat): string
    requires 0 < i <= |params|
  {
    if i == |params| then "" else "," + Joined(text, params[i..])
  }

  lemma RestMore(text: TypeKind -> string, params: seq<TypeRef>, i: nat, out: string)
    requires 0 < i < |params|
    ensures out + RestOf(text, params, i) == out + "," + SignatureBy(text, params[i]) + RestOf(text, params, i + 1)
  {
    assert params[i..][1..] == params[i + 1..] && params[i..][0] == params[i];
    var first := SignatureBy(text, params[i]);
    assert Joined(text, params[i..]) == first + RestOf(text, params, i + 1);
    assert out + ("," + (first + RestOf(text, params, i + 1))) == out + "," + first + RestOf(text, params, i + 1);
  }

  /** The type as the comparison sees it: without the engine's own names. */
  function Seen(ty: TypeRef): TypeRef
    decreases ty, 0
  {
    TypeRef(ty.kind, ty.name, "", SeenAll(ty.params), ty.size)
  }

  function SeenAll(params: seq<TypeRef>): (r: seq<TypeRef>)
    ensures |r| == |params|
    decreases params, 1
  {
    if params == [] then [] else [Seen(params[0])] + SeenAll(params[1..])
  }

  // ---------------------------------------------------------------- reading the text back

  /** Two texts that agree up to the first character of a kind agree there. */
  lemma {:induction false} UntilStop(u: string, s: string, v: string, t: string, stop: set<char>)
    requires (forall c :: c in u ==> c !in stop) && (forall c :: c in v ==> c !in stop)
    requires s != [] && s[0] in stop && t != [] && t[0] in stop && u + s == v + t
    ensures u == v && s == t
  {
    assert forall k :: 0 <= k < |u| ==> (u + s)[k] == u[k];
    assert forall k :: 0 <= k < |v| ==> (v + t)[k] == v[k];
    assert (u + s)[|u|] == s[0] && (v + t)[|v|] == t[0];
    assert forall k :: 0 <= k < |u| ==> u[k] in u;
    assert forall k :: 0 <= k < |v| ==> v[k] in v;
    assert u == (u + s)[..|u|] && v == (v + t)[..|v|];
    assert s == (u + s)[|u|..] && t == (v + t)[|v|..];
  }

  predicate IsDigit(c: char) { '0' <= c <= '9' }

  lemma {:induction false} DecimalDigits(n: nat)
    ensures forall c :: c in Decimal(n) ==> IsDigit(c)
  {
    if n >= 10 {
      DecimalDigits(n / 10);
    }
  }

  lemma DecimalIntText(n: int)
    ensures forall c :: c in DecimalInt(n) ==> IsDigit(c) || c == '-'
    ensures DecimalInt(n) != [] && (DecimalInt(n)[0] == '-' <==> n < 0)
  {
    DecimalDigits(if n < 0 then -n else n);
    if n >= 0 {
      assert Decimal(n)[0] in Decimal(n);
    }
  }

  lemma MinusText(n: int)
    requires n < 0
    ensures DecimalInt(n)[1..] == Decimal(-n)
  {
  }

  lemma DecimalIntInjective(m: int, n: int)
    requires DecimalInt(m) == DecimalInt(n)
    ensures m == n
  {
    DecimalIntText(m);
    DecimalIntText(n);
    if m < 0 {
      MinusText(m);
      if n < 0 {
        MinusText(n);
      }
      DecimalInjective(-m, -n);
    } else {
      DecimalInjective(m, n);
    }
  }

  predicate IsWord(c: char) { 'a' <= c <= 'z' || '0' <= c <= '9' || c == '_' }

  lemma KindWords(kind: TypeKind)
    ensures forall c :: c in KindText(kind) ==> IsWord(c)
  {
  }

  /** Every kind has a word of its own. */
  ghost predicate Words(text: TypeKind -> string) {
    && (forall kind, c :: c in text(kind) ==> IsWord(c))
    && (forall a, b :: text(a) == text(b) ==> a == b)
  }

  lemma KindTextWords()
    ensures Words(KindText)
  {
    forall kind ensures forall c :: c in KindText(kind) ==> IsWord(c) {
      KindWords(kind);
    }
    forall a, b | KindText(a) == KindText(b) ensures a == b {
      KindTextInjective(a, b);
    }
  }

  /** The kind a word stands for. */
  function KindRead(t: string): TypeKind {
    match |t|
    case 3 => if t[0] == 's' then Set else Map
    case 4 =>
      if t[0] == 'b' then Bool else if t[0] == 'i' then Int8 else if t[0] == 'n' then Name
      else if t[0] == 't' then Text else Enumeration
    case 5 =>
      if t[0] == 'i' then (if t[3] == '1' then Int16 else if t[3] == '3' then Int32 else Int64)
      else if t[0] == 'u' then UInt8 else if t[0] == 'f' then Float else Array
    case 6 =>
      if t[0] == 'u' then (if t[4] == '1' then UInt16 else if t[4] == '3' then UInt32 else UInt64)
      else if t[0] == 'd' then Double else if t[3] == 'i' then String else Struct
    case 7 => if t[0] == 'u' then Unknown else if t[0] == 'w' then WeakPtr else if t[0] == 'l' then LazyPtr else SoftPtr
    case 8 => if t[0] == 'c' then ClassPtr else if t[0] == 'd' then Delegate else Optional
    case 9 => if t[0] == 'o' then ObjectPtr else if t[0] == 'i' then Interface else FieldPath
    case 12 => SoftClassPtr
    case _ => MulticastDelegate
  }

  lemma KindReadBack(kind: TypeKind)
    ensures KindRead(KindText(kind)) == kind
  {
  }

  lemma KindTextInjective(a: TypeKind, b: TypeKind)
    requires KindText(a) == KindText(b)
    ensures a == b
  {
    KindReadBack(a);
    KindReadBack(b);
  }

  function SizePart(ty: TypeRef): string { "[" + DecimalInt(ty.size) + "]" }

  function ParamsPart(text: TypeKind -> string, ty: TypeRef): string {
    (if ty.params == [] then "" else "(" + Joined(text, ty.params) + ")") + SizePart(ty)
  }

  function NamePart(text: TypeKind -> string, ty: TypeRef): string {
    (if ty.name == "" then "" else "<" + ty.name + ">") + ParamsPart(text, ty)
  }

  lemma SignatureParts(text: TypeKind -> string, ty: TypeRef)
    ensures SignatureBy(text, ty) == text(ty.kind) + NamePart(text, ty)
  {
    var name := if ty.name == "" then "" else "<" + ty.name + ">";
    var params := if ty.params == [] then "" else "(" + Joined(text, ty.params) + ")";
    Grouped(text(ty.kind), name, params, SizePart(ty));
  }

  lemma Grouped(a: string, b: string, c: string, d: string)
    ensures a + b + c + d == a + (b + (c + d))
  {
  }

  lemma NamePartStarts(text: TypeKind -> string, ty: TypeRef, s: string)
    ensures NamePart(text, ty) + s != [] && (NamePart(text, ty) + s)[0] in {'<', '(', '['}
  {
    assert (NamePart(text, ty) + s)[0] == NamePart(text, ty)[0];
  }

  lemma KindUnique(text: TypeKind -> string, a: TypeRef, b: TypeRef, s: string, t: string)
    requires Words(text) && SignatureBy(text, a) + s == SignatureBy(text, b) + t
    ensures a.kind == b.kind && NamePart(text, a) + s == NamePart(text, b) + t
  {
    KindFirst(text, a, s);
    KindFirst(text, b, t);
    NamePartStarts(text, a, s);
    NamePartStarts(text, b, t);
    WordUntilStop(text(a.kind), NamePart(text, a) + s, text(b.kind), NamePart(text, b) + t);
  }

  lemma KindFirst(text: TypeKind -> string, ty: TypeRef, s: string)
    ensures SignatureBy(text, ty) + s == text(ty.kind) + (NamePart(text, ty) + s)
  {
    SignatureParts(text, ty);
    KindBehind(text(ty.kind), NamePart(text, ty), s);
  }

  lemma KindBehind(kind: string, rest: string, s: string)
    ensures kind + rest + s == kind + (rest + s)
  {
  }

  lemma WordUntilStop(u: string, s: string, v: string, t: string)
    requires (forall c :: c in u ==> IsWord(c)) && (forall c :: c in v ==> IsWord(c))
    requires s != [] && s[0] in {'<', '(', '['} && t != [] && t[0] in {'<', '(', '['} && u + s == v + t
    ensures u == v && s == t
  {
    UntilStop(u, s, v, t, {'<', '(', '['});
  }

  /** What follows the name. */
  function AfterName(text: TypeKind -> string, ty: TypeRef, s: string): string { ">" + (ParamsPart(text, ty) + s) }

  lemma NameOpen(text: TypeKind -> string, ty: TypeRef, s: string)
    ensures ty.name == "" ==> NamePart(text, ty) == ParamsPart(text, ty) && (NamePart(text, ty) + s)[0] in {'(', '['}
    ensures ty.name != "" ==>
              (NamePart(text, ty) + s)[0] == '<' && (NamePart(text, ty) + s)[1..] == ty.name + AfterName(text, ty, s)
  {
    if ty.name == "" {
      assert NamePart(text, ty) == ParamsPart(text, ty);
    } else {
      assert NamePart(text, ty) + s == "<" + (ty.name + AfterName(text, ty, s));
    }
  }

  lemma SizeUnique(a: TypeRef, b: TypeRef, s: string, t: string)
    requires SizePart(a) + s == SizePart(b) + t
    ensures a.size == b.size && s == t
  {
    DecimalIntText(a.size);
    DecimalIntText(b.size);
    assert (SizePart(a) + s)[1..] == DecimalInt(a.size) + ("]" + s);
    assert (SizePart(b) + t)[1..] == DecimalInt(b.size) + ("]" + t);
    UntilStop(DecimalInt(a.size), "]" + s, DecimalInt(b.size), "]" + t, {']'});
    DecimalIntInjective(a.size, b.size);
    assert ("]" + s)[1..] == s && ("]" + t)[1..] == t;
  }

  /** What follows the parameters' opening bracket. */
  function AfterParams(ty: TypeRef, s: string): string { ")" + SizePart(ty) + s }

  lemma ParamsOpen(text: TypeKind -> string, ty: TypeRef, s: string)
    ensures ty.params == [] ==> ParamsPart(text, ty) + s == SizePart(ty) + s && (SizePart(ty) + s)[0] == '['
    ensures ty.params != [] ==>
              && (ParamsPart(text, ty) + s)[0] == '('
              && (ParamsPart(text, ty) + s)[1..] == Joined(text, ty.params) + AfterParams(ty, s)
  {
    if ty.params == [] {
      assert ParamsPart(text, ty) == SizePart(ty);
    } else {
      assert ParamsPart(text, ty) + s == "(" + (Joined(text, ty.params) + AfterParams(ty, s));
    }
  }

  lemma ParamsSplit(text: TypeKind -> string, a: TypeRef, b: TypeRef, s: string, t: string)
    requires ParamsPart(text, a) + s == ParamsPart(text, b) + t
    ensures a.params == [] <==> b.params == []
    ensures a.params == [] ==> SizePart(a) + s == SizePart(b) + t
    ensures a.params != [] ==> Joined(text, a.params) + AfterParams(a, s) == Joined(text, b.params) + AfterParams(b, t)
  {
    ParamsOpen(text, a, s);
    ParamsOpen(text, b, t);
  }

  lemma AfterParamsUnique(a: TypeRef, b: TypeRef, s: string, t: string)
    requires AfterParams(a, s) == AfterParams(b, t)
    ensures SizePart(a) + s == SizePart(b) + t
  {
    assert AfterParams(a, s)[1..] == SizePart(a) + s;
    assert AfterParams(b, t)[1..] == SizePart(b) + t;
  }

  /** What follows the first parameter. */
  function AfterFirst(text: TypeKind -> string, ps: seq<TypeRef>, s: string): string
    requires ps != []
  {
    if |ps| == 1 then s else "," + (Joined(text, ps[1..]) + s)
  }

  lemma JoinedSplits(text: TypeKind -> string, ps: seq<TypeRef>, s: string)
    requires ps != []
    ensures Joined(text, ps) + s == SignatureBy(text, ps[0]) + AfterFirst(text, ps, s)
    ensures |ps| > 1 ==> AfterFirst(text, ps, s)[0] == ',' && AfterFirst(text, ps, s)[1..] == Joined(text, ps[1..]) + s
  {
    var head := SignatureBy(text, ps[0]);
    if |ps| == 1 {
      assert Joined(text, ps) == head + "" == head;
    } else {
      var rest := Joined(text, ps[1..]);
      assert Joined(text, ps) == head + ("," + rest);
      Regroup(head, rest, s);
    }
  }

  lemma Regroup(head: string, rest: string, s: string)
    ensures (head + ("," + rest)) + s == head + ("," + (rest + s))
    ensures ("," + (rest + s))[0] == ',' && ("," + (rest + s))[1..] == rest + s
  {
  }

  lemma {:induction false} SeenDecides(text: TypeKind -> string, a: TypeRef, b: TypeRef)
    requires Seen(a) == Seen(b)
    ensures SignatureBy(text, a) == SignatureBy(text, b)
    decreases a, 0
  {
    if a.params != [] {
      JoinedDecides(text, a.params, b.params);
    }
  }

  lemma {:induction false} JoinedDecides(text: TypeKind -> string, ps: seq<TypeRef>, qs: seq<TypeRef>)
    requires ps != [] && qs != [] && SeenAll(ps) == SeenAll(qs)
    ensures Joined(text, ps) == Joined(text, qs)
    decreases ps, 1
  {
    assert Seen(ps[0]) == SeenAll(ps)[0] == SeenAll(qs)[0] == Seen(qs[0]);
    SeenDecides(text, ps[0], qs[0]);
    if |ps| > 1 {
      assert SeenAll(ps[1..]) == SeenAll(ps)[1..] == SeenAll(qs)[1..] == SeenAll(qs[1..]);
      JoinedDecides(text, ps[1..], qs[1..]);
    }
  }
}
