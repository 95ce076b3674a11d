/** Which names a type's signature can hold: when two types with one text are one type, and when they are not. */
module DiffNames {
  import opened Ir
  import opened DiffSignature

  // ---------------------------------------------------------------- where a name seems to end

  /** The type has no name, at any depth. */
  ghost predicate Bare(ty: TypeRef)
    decreases ty
  {
    ty.name == "" && forall p :: p in ty.params ==> Bare(p)
  }

  /**
   * The beginning of a list of parameters, up to the bracket that opens the first name: of this
   * parameter, of a parameter inside this one, or of a later one, this one having no name.
   */
  datatype Head = Here(kind: TypeKind) | Inside(kind: TypeKind, inner: Head) | Later(first: TypeRef, rest: Head)

  ghost predicate Sane(h: Head) {
    match h
    case Here(_) => true
    case Inside(_, inner) => Sane(inner)
    case Later(first, rest) => Bare(first) && Sane(rest)
  }

  function HeadText(text: TypeKind -> string, h: Head): string {
    match h
    case Here(kind) => text(kind) + "<"
    case Inside(kind, inner) => text(kind) + "(" + HeadText(text, inner)
    case Later(first, rest) => SignatureBy(text, first) + "," + HeadText(text, rest)
  }

  /** What follows the closing bracket of a name reads as what follows a name: parameters and a size. */
  ghost predicate Opens(text: TypeKind -> string, rest: string) {
    || (exists q :: Bare(q) && ParamsPart(text, q) <= rest)
    || (exists h :: Sane(h) && OpensName("(" + HeadText(text, h), rest))
  }

  /** The text goes on behind a bracket that opens a name, with a name. */
  predicate OpensName(head: string, rest: string) { head < rest && rest[|head|] != '>' }

  /** No closing bracket in the name reads as the one that ends it. */
  ghost predicate Clean(text: TypeKind -> string, name: string) {
    && (name != "" ==> name[0] != '>')
    && forall i {:trigger name[i]} :: 0 < i < |name| && name[i] == '>' ==> !Opens(text, name[i + 1..])
  }

  ghost predicate CleanNames(text: TypeKind -> string, ty: TypeRef)
    decreases ty
  {
    Clean(text, ty.name) && forall p :: p in ty.params ==> CleanNames(text, p)
  }

  /** Every name in the type, at any depth, is clean as the engine's kinds are written. */
  ghost predicate PlainNames(ty: TypeRef) { CleanNames(KindText, ty) }

  /**
   * What a caller can look for: a name that does not begin with a closing bracket, and in which none
   * that has something behind it is followed by "(", or by "[" and a digit or a sign. The names of
   * generic types and of arrays are like that.
   */
  predicate LooksClean(name: string) {
    && (name != "" ==> name[0] != '>')
    && forall i {:trigger name[i]} :: 0 < i < |name| - 1 && name[i] == '>' ==>
         name[i + 1] != '(' && (name[i + 1] == '[' && i + 2 < |name| ==> !IsDigit(name[i + 2]) && name[i + 2] != '-')
  }

  lemma LooksCleanIsClean(text: TypeKind -> string, name: string)
    requires LooksClean(name)
    ensures Clean(text, name)
  {
    forall i {:trigger name[i]} | 0 < i < |name| && name[i] == '>' ensures !Opens(text, name[i + 1..]) {
      var rest := name[i + 1..];
      assert |rest| > 0 ==> rest[0] == name[i + 1];
      assert |rest| > 1 ==> rest[1] == name[i + 2];
      forall q | Bare(q) ensures !(ParamsPart(text, q) <= rest) {
        PartStarts(text, q);
      }
      forall h | Sane(h) ensures !OpensName("(" + HeadText(text, h), rest) {
        assert ("(" + HeadText(text, h))[0] == '(';
      }
    }
  }

  lemma PartStarts(text: TypeKind -> string, q: TypeRef)
    ensures var part := ParamsPart(text, q);
            |part| > 1 && (part[0] == '(' || (part[0] == '[' && (IsDigit(part[1]) || part[1] == '-')))
  {
    DecimalIntText(q.size);
    assert SizePart(q)[1] == DecimalInt(q.size)[0] && DecimalInt(q.size)[0] in DecimalInt(q.size);
  }

  // ---------------------------------------------------------------- up to the first name

  predicate NoBracket(s: string) { '>' !in s }

  lemma NoneInBoth(a: string, b: string)
    requires NoBracket(a) && NoBracket(b)
    ensures NoBracket(a + b)
  {
  }

  lemma SizeNoBracket(ty: TypeRef)
    ensures NoBracket(SizePart(ty))
  {
    DecimalIntText(ty.size);
    NoneInBoth("[", DecimalInt(ty.size));
    NoneInBoth("[" + DecimalInt(ty.size), "]");
  }

  lemma WordNoBracket(text: TypeKind -> string, kind: TypeKind)
    requires Words(text)
    ensures NoBracket(text(kind))
  {
    assert !IsWord('>');
  }

  /** The signature of a type without a name. */
  lemma NamelessParts(text: TypeKind -> string, ty: TypeRef)
    requires ty.name == ""
    ensures SignatureBy(text, ty) == text(ty.kind) + ParamsPart(text, ty)
  {
    SignatureParts(text, ty);
    assert NamePart(text, ty) == "" + ParamsPart(text, ty) == ParamsPart(text, ty);
  }

  /** The parameters of a type that has some. */
  lemma ParamsParts(text: TypeKind -> string, ty: TypeRef)
    requires ty.params != []
    ensures ParamsPart(text, ty) == "(" + Joined(text, ty.params) + (")" + SizePart(ty))
  {
  }

  /** What follows the first parameter of a list. */
  function Following(text: TypeKind -> string, params: seq<TypeRef>): string
    requires params != []
  {
    if |params| == 1 then "" else "," + Joined(text, params[1..])
  }

  lemma {:induction false} BareNoBracket(text: TypeKind -> string, q: TypeRef)
    requires Words(text) && Bare(q)
    ensures NoBracket(ParamsPart(text, q)) && NoBracket(SignatureBy(text, q))
    decreases q, 1
  {
    SizeNoBracket(q);
    if q.params == [] {
      assert ParamsPart(text, q) == SizePart(q);
    } else {
      BaresNoBracket(text, q.params);
      ParamsParts(text, q);
      NoneInBoth("(", Joined(text, q.params));
      NoneInBoth(")", SizePart(q));
      NoneInBoth("(" + Joined(text, q.params), ")" + SizePart(q));
    }
    NamelessParts(text, q);
    WordNoBracket(text, q.kind);
    NoneInBoth(text(q.kind), ParamsPart(text, q));
  }

  lemma {:induction false} BaresNoBracket(text: TypeKind -> string, params: seq<TypeRef>)
    requires Words(text) && params != [] && forall p :: p in params ==> Bare(p)
    ensures NoBracket(Joined(text, params))
    decreases params, 0
  {
    BareNoBracket(text, params[0]);
    if |params| > 1 {
      BaresNoBracket(text, params[1..]);
      NoneInBoth(",", Joined(text, params[1..]));
    }
    NoneInBoth(SignatureBy(text, params[0]), Following(text, params));
  }

  lemma {:induction false} HeadNoBracket(text: TypeKind -> string, h: Head)
    requires Words(text) && Sane(h)
    ensures NoBracket(HeadText(text, h))
  {
    match h
    case Here(kind) =>
      WordNoBracket(text, kind);
      NoneInBoth(text(kind), "<");
    case Inside(kind, inner) =>
      HeadNoBracket(text, inner);
      WordNoBracket(text, kind);
      NoneInBoth(text(kind), "(");
      NoneInBoth(text(kind) + "(", HeadText(text, inner));
    case Later(first, rest) =>
      BareNoBracket(text, first);
      HeadNoBracket(text, rest);
      NoneInBoth(SignatureBy(text, first), ",");
      NoneInBoth(SignatureBy(text, first) + ",", HeadText(text, rest));
  }

  lemma OpensInside(before: string, head: string, body: string, behind: string)
    requires OpensName(head, body)
    ensures OpensName(before + head, before + (body + behind))
  {
    assert (before + (body + behind))[|before + head|] == body[|head|];
  }

  lemma OpensHere(text: TypeKind -> string, first: TypeRef, behind: string)
    requires first.name != "" && first.name[0] != '>'
    ensures OpensName(text(first.kind) + "<", SignatureBy(text, first) + behind)
  {
    var body := "<" + first.name + ">" + ParamsPart(text, first);
    SignatureParts(text, first);
    assert NamePart(text, first) == body && body[1] == first.name[0];
    OpensInside(text(first.kind), "<", body, behind);
    assert text(first.kind) + (body + behind) == SignatureBy(text, first) + behind;
  }

  lemma OpensDeeper(text: TypeKind -> string, first: TypeRef, inner: string, behind: string)
    requires first.name == "" && first.params != [] && OpensName(inner, Joined(text, first.params))
    ensures OpensName(text(first.kind) + "(" + inner, SignatureBy(text, first) + behind)
  {
    var body, end := Joined(text, first.params), ")" + SizePart(first);
    NamelessParts(text, first);
    ParamsParts(text, first);
    OpensInside(text(first.kind) + "(", inner, body, end + behind);
    SameBody(SignatureBy(text, first), text(first.kind), body, end, behind);
  }

  lemma SameBody(sig: string, kind: string, body: string, end: string, behind: string)
    requires sig == kind + ("(" + body + end)
    ensures kind + "(" + (body + (end + behind)) == sig + behind
  {
  }

  /** No name in the type, at any depth, begins with a closing bracket. */
  ghost predicate Started(ty: TypeRef)
    decreases ty
  {
    (ty.name != "" ==> ty.name[0] != '>') && forall p :: p in ty.params ==> Started(p)
  }

  lemma {:induction false} CleanStarted(text: TypeKind -> string, ty: TypeRef)
    requires CleanNames(text, ty)
    ensures Started(ty)
    decreases ty
  {
    forall p | p in ty.params ensures Started(p) {
      CleanStarted(text, p);
    }
  }

  /** A list that holds a name begins with the head that opens the first one. */
  lemma {:induction false} HeadOf(text: TypeKind -> string, params: seq<TypeRef>) returns (h: Head)
    requires (exists p :: p in params && !Bare(p)) && forall p :: p in params ==> Started(p)
    ensures Sane(h) && OpensName(HeadText(text, h), Joined(text, params))
    decreases params
  {
    var first, behind := params[0], Following(text, params);
    assert first in params && Started(first);
    if Bare(first) {
      var rest := HeadOf(text, params[1..]);
      h := Later(first, rest);
      OpensInside(SignatureBy(text, first) + ",", HeadText(text, rest), Joined(text, params[1..]), "");
      LaterText(SignatureBy(text, first), Joined(text, params[1..]));
    } else if first.name != "" {
      h := Here(first.kind);
      OpensHere(text, first, behind);
    } else {
      var inner := HeadOf(text, first.params);
      h := Inside(first.kind, inner);
      OpensDeeper(text, first, HeadText(text, inner), behind);
    }
  }

  lemma LaterText(first: string, rest: string)
    ensures first + "," + (rest + "") == first + ("," + rest)
  {
  }

  // ---------------------------------------------------------------- clean names end where they should

  /** The text has no bracket, and what begins with it reads as what follows a name. */
  ghost predicate IsOpening(text: TypeKind -> string, opening: string) {
    NoBracket(opening) && forall rest {:trigger Opens(text, rest)} :: opening <= rest ==> Opens(text, rest)
  }

  lemma HeadOpening(text: TypeKind -> string, h: Head, c: char)
    requires Words(text) && Sane(h) && c != '>'
    ensures IsOpening(text, "(" + HeadText(text, h) + [c])
  {
    var head := "(" + HeadText(text, h);
    HeadNoBracket(text, h);
    NoneInBoth("(", HeadText(text, h));
    NoneInBoth(head, [c]);
    forall rest {:trigger Opens(text, rest)} | head + [c] <= rest ensures Opens(text, rest) {
      assert rest[|head|] == (head + [c])[|head|] && head <= rest;
      assert OpensName("(" + HeadText(text, h), rest);
    }
  }

  lemma BareOpening(text: TypeKind -> string, ty: TypeRef)
    requires Words(text) && forall p :: p in ty.params ==> Bare(p)
    ensures IsOpening(text, ParamsPart(text, ty))
  {
    var q := TypeRef(ty.kind, "", "", ty.params, ty.size);
    BareNoBracket(text, q);
    assert Bare(q) && ParamsPart(text, q) == ParamsPart(text, ty);
  }

  /** What comes before the first name of the parameters, with its first character, or all of them. */
  lemma OpeningOf(text: TypeKind -> string, ty: TypeRef) returns (opening: string)
    requires Words(text) && forall p :: p in ty.params ==> CleanNames(text, p)
    ensures IsOpening(text, opening) && opening <= ParamsPart(text, ty)
  {
    if exists p :: p in ty.params && !Bare(p) {
      opening := NamedOpening(text, ty);
    } else {
      opening := ParamsPart(text, ty);
      BareOpening(text, ty);
    }
  }

  lemma NamedOpening(text: TypeKind -> string, ty: TypeRef) returns (opening: string)
    requires Words(text) && forall p :: p in ty.params ==> CleanNames(text, p)
    requires exists p :: p in ty.params && !Bare(p)
    ensures IsOpening(text, opening) && opening <= ParamsPart(text, ty)
  {
    forall p | p in ty.params ensures Started(p) {
      CleanStarted(text, p);
    }
    var h := HeadOf(text, ty.params);
    var list, end := Joined(text, ty.params), ")" + SizePart(ty);
    ParamsParts(text, ty);
    LaterParts(list, end);
    OpensInside("(", HeadText(text, h), list, end);
    opening := HeadAndOne(text, h, "(" + list + end);
  }

  /** What opens a name, with the name's first character. */
  lemma HeadAndOne(text: TypeKind -> string, h: Head, part: string) returns (opening: string)
    requires Words(text) && Sane(h) && OpensName("(" + HeadText(text, h), part)
    ensures IsOpening(text, opening) && opening <= part
  {
    var head := "(" + HeadText(text, h);
    opening := head + [part[|head|]];
    HeadOpening(text, h, part[|head|]);
  }

  lemma LaterParts(a: string, b: string)
    ensures "(" + a + b == "(" + (a + b)
  {
  }

  /** Were one name shorter, what follows it in the other would read as what follows a name. */
  lemma ShorterOpens(text: TypeKind -> string, a: TypeRef, b: TypeRef, s: string, t: string)
    requires Words(text) && forall p :: p in a.params ==> CleanNames(text, p)
    requires |a.name| < |b.name| && a.name + (">" + (ParamsPart(text, a) + s))
             == b.name + (">" + (ParamsPart(text, b) + t))
    ensures b.name[|a.name|] == '>' && Opens(text, b.name[|a.name| + 1..])
  {
    var n := |a.name|;
    var whole, rest := a.name + (">" + (ParamsPart(text, a) + s)), b.name[n + 1..];
    assert whole[n] == '>' == b.name[n];
    assert whole[n + 1..] == ParamsPart(text, a) + s;
    assert whole[n + 1..] == rest + (">" + (ParamsPart(text, b) + t));
    var opening := OpeningOf(text, a);
    assert opening <= rest by {
      PrefixStops(opening, rest, whole[n + 1..]);
    }
  }

  /** A beginning without a bracket lies in front of the first bracket. */
  lemma PrefixStops(opening: string, rest: string, whole: string)
    requires NoBracket(opening) && opening <= whole && rest < whole && whole[|rest|] == '>'
    ensures opening <= rest
  {
    forall k | 0 <= k < |opening| ensures opening[k] == whole[k] && whole[k] != '>' {
      assert opening[k] in opening;
    }
  }

  lemma NameUnique(text: TypeKind -> string, a: TypeRef, b: TypeRef, s: string, t: string)
    requires Words(text) && CleanNames(text, a) && CleanNames(text, b) && NamePart(text, a) + s == NamePart(text, b) + t
    ensures a.name == b.name && ParamsPart(text, a) + s == ParamsPart(text, b) + t
  {
    NameOpen(text, a, s);
    NameOpen(text, b, t);
    if a.name != "" && b.name != "" {
      var u, v := AfterName(text, a, s), AfterName(text, b, t);
      if |a.name| < |b.name| {
        ShorterOpens(text, a, b, s, t);
      } else if |b.name| < |a.name| {
        ShorterOpens(text, b, a, t, s);
      }
      assert a.name == (a.name + u)[..|a.name|] && b.name == (b.name + v)[..|b.name|];
      assert u == (a.name + u)[|a.name|..] && v == (b.name + v)[|b.name|..];
      assert u[1..] == ParamsPart(text, a) + s && v[1..] == ParamsPart(text, b) + t;
    }
  }

  /**
   * Signatures are prefix-free, whatever follows them: from a text that starts with one, the type can
   * be read back, kind, name, parameters and size, at every level.
   */
  lemma {:induction false} SignatureUnique(text: TypeKind -> string, a: TypeRef, b: TypeRef, s: string, t: string)
    requires Words(text) && CleanNames(text, a) && CleanNames(text, b)
             && SignatureBy(text, a) + s == SignatureBy(text, b) + t
    ensures Seen(a) == Seen(b) && s == t
    decreases a, 0
  {
    KindUnique(text, a, b, s, t);
    NameUnique(text, a, b, s, t);
    ParamsSplit(text, a, b, s, t);
    if a.params != [] {
      JoinedUnique(text, a.params, b.params, AfterParams(a, s), AfterParams(b, t));
      AfterParamsUnique(a, b, s, t);
    }
    SizeUnique(a, b, s, t);
    assert SeenAll(a.params) == SeenAll(b.params);
  }

  lemma {:induction false} JoinedUnique(text: TypeKind -> string, ps: seq<TypeRef>, qs: seq<TypeRef>, s: string,
                                        t: string)
    requires Words(text) && ps != [] && qs != [] && Joined(text, ps) + s == Joined(text, qs) + t
    requires (forall p :: p in ps ==> CleanNames(text, p)) && (forall q :: q in qs ==> CleanNames(text, q))
    requires s != [] && s[0] == ')' && t != [] && t[0] == ')'
    ensures SeenAll(ps) == SeenAll(qs) && s == t
    decreases ps, 1
  {
    var u, v := AfterFirst(text, ps, s), AfterFirst(text, qs, t);
    JoinedSplits(text, ps, s);
    JoinedSplits(text, qs, t);
    SignatureUnique(text, ps[0], qs[0], u, v);
    if |ps| > 1 && |qs| > 1 {
      JoinedUnique(text, ps[1..], qs[1..], s, t);
    }
  }

  /** Two types have one signature if and only if they are one type, whatever the engine calls them. */
  lemma SignatureDecides(a: TypeRef, b: TypeRef)
    requires PlainNames(a) && PlainNames(b)
    ensures Signature(a) == Signature(b) <==> Seen(a) == Seen(b)
  {
    KindTextWords();
    SignatureByDecides(KindText, a, b);
  }

  lemma SignatureByDecides(text: TypeKind -> string, a: TypeRef, b: TypeRef)
    requires Words(text) && CleanNames(text, a) && CleanNames(text, b)
    ensures SignatureBy(text, a) == SignatureBy(text, b) <==> Seen(a) == Seen(b)
  {
    if SignatureBy(text, a) == SignatureBy(text, b) {
      assert SignatureBy(text, a) + "" == SignatureBy(text, b) + "";
      SignatureUnique(text, a, b, "", "");
    }
    if Seen(a) == Seen(b) {
      SeenDecides(text, a, b);
    }
  }

  // ---------------------------------------------------------------- and unclean ones do not

  /** A size as it is written. */
  function Bracketed(size: int): string { "[" + DecimalInt(size) + "]" }

  function Zero(): string { Bracketed(0) }

  /** A list that begins with the head, its first name being w. */
  function Build(h: Head, w: string): (params: seq<TypeRef>)
    ensures params != []
  {
    match h
    case Here(kind) => [TypeRef(kind, w, "", [], 0)]
    case Inside(kind, inner) => [TypeRef(kind, "", "", Build(inner, w), 0)]
    case Later(first, rest) => [first] + Build(rest, w)
  }

  /** What follows the size of the type that is named. */
  function Tail(h: Head): string {
    match h
    case Here(_) => ""
    case Inside(_, inner) => Tail(inner) + (")" + Zero())
    case Later(_, rest) => Tail(rest)
  }

  lemma {:induction false} BuildText(text: TypeKind -> string, h: Head, w: string)
    requires w != ""
    ensures Joined(text, Build(h, w)) == HeadText(text, h) + (w + ">" + Zero() + Tail(h))
  {
    match h
    case Here(kind) => NamedText(text, kind, w, 0);
    case Inside(kind, inner) =>
      BuildText(text, inner, w);
      BuildInside(text, kind, Build(inner, w), HeadText(text, inner), w + ">" + Zero() + Tail(inner));
      SameTail(w + ">" + Zero(), Tail(inner), ")" + Zero());
    case Later(first, rest) =>
      BuildText(text, rest, w);
      assert Build(h, w)[1..] == Build(rest, w);
      LaterName(SignatureBy(text, first), HeadText(text, rest), w + ">" + Zero() + Tail(rest));
  }

  lemma BuildInside(text: TypeKind -> string, kind: TypeKind, params: seq<TypeRef>, head: string, name: string)
    requires params != [] && Joined(text, params) == head + name
    ensures Joined(text, [TypeRef(kind, "", "", params, 0)]) == text(kind) + "(" + head + (name + (")" + Zero()))
  {
    var one := TypeRef(kind, "", "", params, 0);
    NamelessParts(text, one);
    ParamsParts(text, one);
    InsideText(text(kind), head, name, ")" + Zero());
    assert Joined(text, [one]) == SignatureBy(text, one) + "" == SignatureBy(text, one);
  }

  lemma SameTail(name: string, tail: string, end: string)
    ensures name + tail + end == name + (tail + end)
  {
  }

  lemma NamedText(text: TypeKind -> string, kind: TypeKind, name: string, size: int)
    requires name != ""
    ensures SignatureBy(text, Leaf(kind, name, size)) == text(kind) + "<" + name + ">" + Bracketed(size)
  {
    assert SizePart(Leaf(kind, name, size)) == Bracketed(size);
  }

  lemma InsideText(kind: string, head: string, name: string, end: string)
    ensures kind + ("(" + (head + name) + end) == kind + "(" + head + (name + end)
  {
  }

  lemma LaterName(first: string, head: string, name: string)
    ensures first + ("," + (head + name)) == first + "," + head + name
  {
  }

  function Leaf(kind: TypeKind, name: string, size: int): TypeRef { TypeRef(kind, name, "", [], size) }

  /** Every name in the type is one of them. */
  ghost predicate Over(ok: string -> bool, ty: TypeRef)
    decreases ty
  {
    ok(ty.name) && forall p :: p in ty.params ==> Over(ok, p)
  }

  /**
   * A set of names that holds the beginnings of its names, and what follows an opening bracket in them;
   * none of them begins with a closing one.
   */
  ghost predicate Family(ok: string -> bool) {
    && ok("") && (forall x :: ok(x) && x != "" ==> x[0] != '>')
    && (forall x, i {:trigger Beginning(x, i)} :: ok(x) && 0 <= i <= |x| ==> ok(Beginning(x, i)))
    && (forall x, i {:trigger Opened(x, i)} ::
        ok(x) && 0 <= i < |x| && x[i] == '<' && (i + 1 < |x| ==> x[i + 1] != '>') ==> ok(Opened(x, i)))
  }

  /** The first i characters. */
  function Beginning(x: string, i: int): string { if 0 <= i <= |x| then x[..i] else x }

  /** What follows an opening bracket at i. */
  function Opened(x: string, i: int): string { if 0 <= i < |x| then x[i + 1..] else "" }

  /** Types over these names can be read back from their signatures, whatever follows. */
  ghost predicate PrefixFree(text: TypeKind -> string, ok: string -> bool) {
    forall a, b, s, t :: Over(ok, a) && Over(ok, b) && SignatureBy(text, a) + s == SignatureBy(text, b) + t ==>
      Seen(a) == Seen(b) && s == t
  }

  lemma {:induction false} BareOver(ok: string -> bool, q: TypeRef)
    requires ok("") && Bare(q)
    ensures Over(ok, q)
    decreases q
  {
    forall p | p in q.params ensures Over(ok, p) {
      BareOver(ok, p);
    }
  }

  lemma {:induction false} BuildOver(ok: string -> bool, h: Head, w: string)
    requires ok("") && ok(w) && Sane(h)
    ensures forall p :: p in Build(h, w) ==> Over(ok, p)
  {
    match h
    case Here(_) =>
    case Inside(_, inner) => BuildOver(ok, inner, w);
    case Later(first, rest) =>
      BareOver(ok, first);
      BuildOver(ok, rest, w);
  }

  lemma {:induction false} HeadEnds(text: TypeKind -> string, h: Head)
    ensures var head := HeadText(text, h); head != "" && head[|head| - 1] == '<'
  {
    match h
    case Here(_) =>
    case Inside(_, inner) => HeadEnds(text, inner);
    case Later(_, rest) => HeadEnds(text, rest);
  }

  /**
   * A name in which parameters and a size are written out: a type of a shorter name, with those, is a
   * beginning of it.
   */
  lemma BareCollides(text: TypeKind -> string, u: string, q: TypeRef, w: string)
    requires u != "" && Bare(q)
    ensures var a := Leaf(TypeKind.Struct, u + ">" + ParamsPart(text, q) + w, 0);
            var b := TypeRef(TypeKind.Struct, u, "", q.params, q.size);
            SignatureBy(text, a) + "" == SignatureBy(text, b) + (w + ">" + Zero())
  {
    var part, x := ParamsPart(text, q), u + ">" + ParamsPart(text, q) + w;
    var b := TypeRef(TypeKind.Struct, u, "", q.params, q.size);
    NamedText(text, TypeKind.Struct, x, 0);
    SignatureParts(text, b);
    assert NamePart(text, b) == "<" + u + ">" + part;
    SameCollision(SignatureBy(text, Leaf(TypeKind.Struct, x, 0)), SignatureBy(text, b), text(TypeKind.Struct), u, part,
                  w, Zero());
  }

  lemma SameCollision(a: string, b: string, kind: string, u: string, part: string, w: string, zero: string)
    requires a == kind + "<" + (u + ">" + part + w) + ">" + zero && b == kind + ("<" + u + ">" + part)
    ensures a + "" == b + (w + ">" + zero)
  {
  }

  lemma NamedParamsText(text: TypeKind -> string, b: TypeRef)
    requires b.name != "" && b.params != []
    ensures SignatureBy(text, b) == text(b.kind)
            + ("<" + b.name + ">" + ("(" + Joined(text, b.params) + (")" + SizePart(b))))
  {
    SignatureParts(text, b);
    ParamsParts(text, b);
    assert NamePart(text, b) == "<" + b.name + ">" + ParamsPart(text, b);
  }

  /** A name in which parameters are begun up to a name: it reads on as the name of one of those. */
  lemma HeadCollides(text: TypeKind -> string, u: string, h: Head, w: string)
    requires u != "" && w != ""
    ensures var a := Leaf(TypeKind.Struct, u + ">" + ("(" + HeadText(text, h)) + w, 0);
            var b := TypeRef(TypeKind.Struct, u, "", Build(h, w), 0);
            SignatureBy(text, a) + (Tail(h) + (")" + Zero())) == SignatureBy(text, b) + ""
  {
    var a := Leaf(TypeKind.Struct, u + ">" + ("(" + HeadText(text, h)) + w, 0);
    var b := TypeRef(TypeKind.Struct, u, "", Build(h, w), 0);
    NamedText(text, TypeKind.Struct, a.name, 0);
    NamedParamsText(text, b);
    BuildText(text, h, w);
    SameReading(SignatureBy(text, a), SignatureBy(text, b), Joined(text, b.params), text(TypeKind.Struct), u,
                HeadText(text, h), w, Tail(h), Zero());
  }

  lemma SameReading(a: string, b: string, params: string, kind: string, u: string, head: string, w: string,
                    tail: string, zero: string)
    requires a == kind + "<" + (u + ">" + ("(" + head) + w) + ">" + zero
    requires params == head + (w + ">" + zero + tail) && b == kind + ("<" + u + ">" + ("(" + params + (")" + zero)))
    ensures a + (tail + (")" + zero)) == b + ""
  {
  }

  lemma NotFree(text: TypeKind -> string, ok: string -> bool, a: TypeRef, b: TypeRef, s: string, t: string)
    requires Over(ok, a) && Over(ok, b) && SignatureBy(text, a) + s == SignatureBy(text, b) + t
    requires Seen(a) != Seen(b) || s != t
    ensures !PrefixFree(text, ok)
  {
  }

  lemma BareNotFree(text: TypeKind -> string, ok: string -> bool, u: string, q: TypeRef, w: string)
    requires ok("") && ok(u) && ok(u + ">" + ParamsPart(text, q) + w) && u != "" && Bare(q)
    ensures !PrefixFree(text, ok)
  {
    var a, b := Leaf(TypeKind.Struct, u + ">" + ParamsPart(text, q) + w, 0),
        TypeRef(TypeKind.Struct, u, "", q.params, q.size);
    BareCollides(text, u, q, w);
    BareOver(ok, q);
    assert Over(ok, a) && Over(ok, b);
    NotFree(text, ok, a, b, "", w + ">" + Zero());
  }

  lemma HeadNotFree(text: TypeKind -> string, ok: string -> bool, u: string, h: Head, w: string)
    requires ok("") && ok(u) && ok(w) && ok(u + ">" + ("(" + HeadText(text, h)) + w) && u != "" && w != "" && Sane(h)
    ensures !PrefixFree(text, ok)
  {
    var a := Leaf(TypeKind.Struct, u + ">" + ("(" + HeadText(text, h)) + w, 0);
    var b := TypeRef(TypeKind.Struct, u, "", Build(h, w), 0);
    HeadCollides(text, u, h, w);
    BuildOver(ok, h, w);
    assert Over(ok, a) && Over(ok, b);
    NotFree(text, ok, a, b, Tail(h) + (")" + Zero()), "");
  }

  lemma NameSplit(x: string, i: nat, part: string)
    requires i < |x| && x[i] == '>' && part <= x[i + 1..]
    ensures x == x[..i] + ">" + part + x[i + 1..][|part|..]
  {
  }

  /** One name that is not clean, and two types over the family share a beginning they should not. */
  lemma UncleanCollides(text: TypeKind -> string, ok: string -> bool, x: string, i: nat)
    requires Family(ok) && ok(x) && 0 < i < |x| && x[i] == '>' && Opens(text, x[i + 1..])
    ensures !PrefixFree(text, ok)
  {
    var rest := x[i + 1..];
    assert ok(Beginning(x, i));
    if q :| Bare(q) && ParamsPart(text, q) <= rest {
      NameSplit(x, i, ParamsPart(text, q));
      BareNotFree(text, ok, x[..i], q, rest[|ParamsPart(text, q)|..]);
    } else {
      var h :| Sane(h) && OpensName("(" + HeadText(text, h), rest);
      NameSplit(x, i, "(" + HeadText(text, h));
      NameBehindHead(text, ok, h, x, i);
      HeadNotFree(text, ok, x[..i], h, rest[|"(" + HeadText(text, h)|..]);
    }
  }

  lemma NameBehindHead(text: TypeKind -> string, ok: string -> bool, h: Head, x: string, i: nat)
    requires Family(ok) && ok(x) && i < |x| && OpensName("(" + HeadText(text, h), x[i + 1..])
    ensures ok(x[i + 1..][|"(" + HeadText(text, h)|..])
  {
    var rest, head := x[i + 1..], "(" + HeadText(text, h);
    var k := i + |head|;
    HeadEnds(text, h);
    assert rest[|head| - 1] == head[|head| - 1] == '<';
    assert x[k] == '<' && x[k + 1] == rest[|head|];
    assert rest[|head|..] == x[k + 1..] == Opened(x, k);
  }

  lemma {:induction false} OverClean(text: TypeKind -> string, ok: string -> bool, ty: TypeRef)
    requires Over(ok, ty) && forall x :: ok(x) ==> Clean(text, x)
    ensures CleanNames(text, ty)
    decreases ty
  {
    forall p | p in ty.params ensures CleanNames(text, p) {
      OverClean(text, ok, p);
    }
  }

  /** Types over a family of names can be read back from their signatures if and only if every name is clean. */
  lemma PrefixFreeIff(text: TypeKind -> string, ok: string -> bool)
    requires Words(text) && Family(ok)
    ensures PrefixFree(text, ok) <==> forall x :: ok(x) ==> Clean(text, x)
  {
    if forall x :: ok(x) ==> Clean(text, x) {
      forall a, b, s, t | Over(ok, a) && Over(ok, b) && SignatureBy(text, a) + s == SignatureBy(text, b) + t
        ensures Seen(a) == Seen(b) && s == t
      {
        OverClean(text, ok, a);
        OverClean(text, ok, b);
        SignatureUnique(text, a, b, s, t);
      }
    }
    if x :| ok(x) && !Clean(text, x) {
      var i: nat :| 0 < i < |x| && x[i] == '>' && Opens(text, x[i + 1..]);
      UncleanCollides(text, ok, x, i);
    }
  }

  // ---------------------------------------------------------------- one parameter that reads as two

  /** A name that holds another name's end, a size, a comma and a kind. */
  function Spliced(text: TypeKind -> string, u: string, size: int, kind: TypeKind, w: string): string {
    u + ">" + Bracketed(size) + "," + text(kind) + "<" + w
  }

  /**
   * Whole signatures are equal for every name of that shape: in any list, the one parameter of that
   * name reads as two.
   */
  lemma BracketsConfuse(text: TypeKind -> string, outer: TypeRef, first: TypeKind, second: TypeKind,
                        u: string, w: string, size: int, last: int)
    requires u != "" && w != ""
    ensures var one := outer.(params := [Leaf(first, Spliced(text, u, size, second, w), last)]);
            var two := outer.(params := [Leaf(first, u, size), Leaf(second, w, last)]);
            SignatureBy(text, one) == SignatureBy(text, two) && Seen(one) != Seen(two)
  {
    var x := Spliced(text, u, size, second, w);
    var one, two := [Leaf(first, x, last)], [Leaf(first, u, size), Leaf(second, w, last)];
    NamedText(text, first, x, last);
    NamedText(text, first, u, size);
    NamedText(text, second, w, last);
    assert two[1..] == [two[1]];
    SameList(text(first), u, Bracketed(size), text(second), w, Bracketed(last));
    assert Joined(text, one) == Joined(text, two);
    assert |SeenAll(one)| != |SeenAll(two)|;
  }

  lemma SameList(first: string, u: string, size: string, second: string, w: string, last: string)
    ensures first + "<" + (u + ">" + size + "," + second + "<" + w) + ">" + last + ""
            == first + "<" + u + ">" + size + ("," + (second + "<" + w + ">" + last + ""))
  {
  }
}
