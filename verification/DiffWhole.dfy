/** When whole signatures decide: two types with one signature are one type unless a name runs into another. */
module DiffWhole {
  import opened Ir
  import opened DiffSignature
  import opened DiffNames

  // ---------------------------------------------------------------- from one name to the next

  /** Types without names that are still to come in a list, and the size behind the list. */
  datatype Up = Up(later: seq<TypeRef>, size: int)

  /**
   * The way from behind a name to the next one that is opened: into the parameters of the type named;
   * or past them, its own being without names, out of so many lists, and on to a later type.
   */
  datatype Jump = Into(h: Head) | Past(q: TypeRef, ups: seq<Up>, h: Head)

  ghost predicate BareAll(params: seq<TypeRef>) { forall p :: p in params ==> Bare(p) }

  ghost predicate SaneJump(j: Jump) {
    match j
    case Into(h) => Sane(h)
    case Past(q, ups, h) => Bare(q) && (forall i :: 0 <= i < |ups| ==> BareAll(ups[i].later)) && Sane(h)
  }

  /** What follows a type in a list: the later ones, the end of the list, and the size. */
  function ListEnd(text: TypeKind -> string, later: seq<TypeRef>, size: int, behind: string): string {
    var end := ")" + Bracketed(size) + behind;
    if later == [] then end else "," + (Joined(text, later) + end)
  }

  function UpsText(text: TypeKind -> string, ups: seq<Up>, behind: string): string {
    if ups == [] then behind else ListEnd(text, ups[0].later, ups[0].size, UpsText(text, ups[1..], behind))
  }

  function JumpText(text: TypeKind -> string, j: Jump): string {
    match j
    case Into(h) => "(" + HeadText(text, h)
    case Past(q, ups, h) => ParamsPart(text, q) + UpsText(text, ups, "," + HeadText(text, h))
  }

  /** What follows a closing bracket in a name reads as a way to another name, and goes on with a name. */
  ghost predicate Resumes(text: TypeKind -> string, rest: string) {
    exists j :: SaneJump(j) && OpensName(JumpText(text, j), rest)
  }

  /** No closing bracket in the name reads as the end of a name that is followed by another. */
  ghost predicate Settled(text: TypeKind -> string, name: string) {
    && (name != "" ==> name[0] != '>')
    && forall i {:trigger name[i]} :: 0 < i < |name| && name[i] == '>' ==> !Resumes(text, name[i + 1..])
  }

  ghost predicate SettledNames(text: TypeKind -> string, ty: TypeRef)
    decreases ty
  {
    Settled(text, ty.name) && forall p :: p in ty.params ==> SettledNames(text, p)
  }

  // ---------------------------------------------------------------- which names are settled

  lemma {:induction false} UpsEnds(text: TypeKind -> string, ups: seq<Up>, behind: string)
    requires behind != "" && behind[|behind| - 1] == '<'
    ensures var s := UpsText(text, ups, behind); s != "" && s[|s| - 1] == '<'
    decreases |ups|
  {
    if ups != [] {
      UpsEnds(text, ups[1..], behind);
    }
  }

  lemma JumpEnds(text: TypeKind -> string, j: Jump)
    ensures var s := JumpText(text, j); s != "" && s[|s| - 1] == '<'
  {
    HeadEnds(text, j.h);
    if j.Past? {
      UpsEnds(text, j.ups, "," + HeadText(text, j.h));
    }
  }

  lemma PrefixOf(part: string, more: string, rest: string)
    requires part + more <= rest
    ensures part <= rest
  {
    assert (part + more)[..|part|] == part;
  }

  /** What resumes opens, too. */
  lemma ResumesOpens(text: TypeKind -> string, rest: string)
    requires Resumes(text, rest)
    ensures Opens(text, rest) && '<' in rest
  {
    var j :| SaneJump(j) && OpensName(JumpText(text, j), rest);
    JumpEnds(text, j);
    assert rest[|JumpText(text, j)| - 1] == '<';
    if j.Past? {
      PrefixOf(ParamsPart(text, j.q), UpsText(text, j.ups, "," + HeadText(text, j.h)), rest);
    }
  }

  /** A clean name is settled. */
  lemma CleanSettled(text: TypeKind -> string, name: string)
    requires Clean(text, name)
    ensures Settled(text, name)
  {
    forall i {:trigger name[i]} | 0 < i < |name| && name[i] == '>' ensures !Resumes(text, name[i + 1..]) {
      if Resumes(text, name[i + 1..]) {
        ResumesOpens(text, name[i + 1..]);
      }
    }
  }

  /** So is a name in which nothing is opened behind a closing bracket: `u>[0]w`, or a generic array's. */
  predicate OpensNothing(name: string) {
    && (name != "" ==> name[0] != '>')
    && forall i, k :: 0 <= i < k < |name| && name[i] == '>' ==> name[k] != '<'
  }

  lemma NothingOpened(name: string, i: nat)
    requires OpensNothing(name) && i < |name| && name[i] == '>'
    ensures '<' !in name[i + 1..]
  {
    var rest := name[i + 1..];
    forall k | 0 <= k < |rest| ensures rest[k] != '<' {
      assert rest[k] == name[i + 1 + k];
    }
  }

  lemma OpensNothingSettled(text: TypeKind -> string, name: string)
    requires OpensNothing(name)
    ensures Settled(text, name)
  {
    forall i {:trigger name[i]} | 0 < i < |name| && name[i] == '>' ensures !Resumes(text, name[i + 1..]) {
      NothingOpened(name, i);
      if Resumes(text, name[i + 1..]) {
        ResumesOpens(text, name[i + 1..]);
      }
    }
  }

  // ---------------------------------------------------------------- where a type stands

  /** What is around a type: nothing, or a list with the types behind it, of a type with its size. */
  datatype Around = Top | Within(later: seq<TypeRef>, size: int, up: Around)

  function AroundText(text: TypeKind -> string, c: Around): string {
    match c
    case Top => ""
    case Within(later, size, up) => ListEnd(text, later, size, AroundText(text, up))
  }

  ghost predicate AroundStarted(c: Around) {
    match c
    case Top => true
    case Within(later, _, up) => (forall p :: p in later ==> Started(p)) && AroundStarted(up)
  }

  /** A name is still to come. */
  ghost predicate NameAhead(c: Around) {
    match c
    case Top => false
    case Within(later, _, up) => !BareAll(later) || NameAhead(up)
  }

  lemma BracketedNone(size: int)
    ensures NoBracket(Bracketed(size))
  {
    SizeNoBracket(Leaf(TypeKind.Struct, "", size));
  }

  lemma ListEndNone(text: TypeKind -> string, later: seq<TypeRef>, size: int, behind: string)
    requires Words(text) && BareAll(later) && NoBracket(behind)
    ensures NoBracket(ListEnd(text, later, size, behind))
  {
    BracketedNone(size);
    NoneInBoth(")", Bracketed(size));
    NoneInBoth(")" + Bracketed(size), behind);
    if later != [] {
      BaresNoBracket(text, later);
      NoneInBoth(Joined(text, later), ")" + Bracketed(size) + behind);
      NoneInBoth(",", Joined(text, later) + (")" + Bracketed(size) + behind));
    }
  }

  /** When no name is to come there is no bracket. */
  lemma {:induction false} NothingAhead(text: TypeKind -> string, c: Around)
    requires Words(text) && !NameAhead(c)
    ensures NoBracket(AroundText(text, c))
  {
    match c
    case Top =>
    case Within(later, size, up) =>
      NothingAhead(text, up);
      ListEndNone(text, later, size, AroundText(text, up));
  }

  lemma {:induction false} UpsNone(text: TypeKind -> string, ups: seq<Up>, behind: string)
    requires Words(text) && NoBracket(behind) && forall i :: 0 <= i < |ups| ==> BareAll(ups[i].later)
    ensures NoBracket(UpsText(text, ups, behind))
    decreases |ups|
  {
    if ups != [] {
      UpsNone(text, ups[1..], behind);
      ListEndNone(text, ups[0].later, ups[0].size, UpsText(text, ups[1..], behind));
    }
  }

  lemma JumpNone(text: TypeKind -> string, j: Jump)
    requires Words(text) && SaneJump(j)
    ensures NoBracket(JumpText(text, j))
  {
    HeadNoBracket(text, j.h);
    match j
    case Into(h) => NoneInBoth("(", HeadText(text, h));
    case Past(q, ups, h) =>
      BareNoBracket(text, q);
      NoneInBoth(",", HeadText(text, h));
      UpsNone(text, ups, "," + HeadText(text, h));
      NoneInBoth(ParamsPart(text, q), UpsText(text, ups, "," + HeadText(text, h)));
  }

  // ---------------------------------------------------------------- the way to the next name

  lemma OpensBehind(front: string, head: string, body: string)
    requires OpensName(head, body)
    ensures OpensName(front + head, front + body)
  {
    assert (front + body)[|front + head|] == body[|head|];
  }

  lemma OpensLonger(head: string, body: string, more: string)
    requires OpensName(head, body)
    ensures OpensName(head, body + more)
  {
    assert (body + more)[|head|] == body[|head|];
  }

  /** Out of the lists, up to a type with a name. */
  lemma {:induction false} WayOut(text: TypeKind -> string, c: Around) returns (ups: seq<Up>, h: Head)
    requires Words(text) && NameAhead(c) && AroundStarted(c)
    ensures Sane(h) && forall i :: 0 <= i < |ups| ==> BareAll(ups[i].later)
    ensures OpensName(UpsText(text, ups, "," + HeadText(text, h)), AroundText(text, c))
    decreases c
  {
    var end := ")" + Bracketed(c.size) + AroundText(text, c.up);
    if BareAll(c.later) {
      ups, h := WayOut(text, c.up);
      OpensListEnd(text, c.later, c.size, UpsText(text, ups, "," + HeadText(text, h)), AroundText(text, c.up));
      assert ([Up(c.later, c.size)] + ups)[1..] == ups;
      ups := [Up(c.later, c.size)] + ups;
    } else {
      ups := [];
      h := HeadOf(text, c.later);
      OpensLonger(HeadText(text, h), Joined(text, c.later), end);
      OpensBehind(",", HeadText(text, h), Joined(text, c.later) + end);
    }
  }

  lemma OpensListEnd(text: TypeKind -> string, later: seq<TypeRef>, size: int, head: string, body: string)
    requires OpensName(head, body)
    ensures OpensName(ListEnd(text, later, size, head), ListEnd(text, later, size, body))
  {
    var end := ")" + Bracketed(size);
    OpensBehind(end, head, body);
    if later != [] {
      OpensBehind(Joined(text, later), end + head, end + body);
      OpensBehind(",", Joined(text, later) + (end + head), Joined(text, later) + (end + body));
    }
  }

  /** From behind the name of a type to the next name, when there is one. */
  lemma NextName(text: TypeKind -> string, ty: TypeRef, c: Around) returns (j: Jump)
    requires Words(text) && Started(ty) && AroundStarted(c) && (!BareAll(ty.params) || NameAhead(c))
    ensures SaneJump(j) && OpensName(JumpText(text, j), ParamsPart(text, ty) + AroundText(text, c))
  {
    if BareAll(ty.params) {
      var ups, h := WayOut(text, c);
      var q := TypeRef(ty.kind, "", "", ty.params, ty.size);
      j := Past(q, ups, h);
      assert Bare(q) && ParamsPart(text, q) == ParamsPart(text, ty);
      OpensBehind(ParamsPart(text, ty), UpsText(text, ups, "," + HeadText(text, h)), AroundText(text, c));
    } else {
      var h := HeadOf(text, ty.params);
      j := Into(h);
      NextInside(text, ty, HeadText(text, h), AroundText(text, c));
    }
  }

  lemma NextInside(text: TypeKind -> string, ty: TypeRef, head: string, behind: string)
    requires ty.params != [] && OpensName(head, Joined(text, ty.params))
    ensures OpensName("(" + head, ParamsPart(text, ty) + behind)
  {
    ParamsParts(text, ty);
    OpensBehind("(", head, Joined(text, ty.params));
    OpensLonger("(" + head, "(" + Joined(text, ty.params), ")" + SizePart(ty));
    OpensLonger("(" + head, ParamsPart(text, ty), behind);
  }

  /** Behind a name whose type, and all around it, has no other name there is no bracket. */
  lemma NoNextName(text: TypeKind -> string, ty: TypeRef, c: Around)
    requires Words(text) && BareAll(ty.params) && !NameAhead(c)
    ensures NoBracket(ParamsPart(text, ty) + AroundText(text, c))
  {
    var q := TypeRef(ty.kind, "", "", ty.params, ty.size);
    BareNoBracket(text, q);
    assert ParamsPart(text, q) == ParamsPart(text, ty);
    NothingAhead(text, c);
    NoneInBoth(ParamsPart(text, ty), AroundText(text, c));
  }

  // ---------------------------------------------------------------- settled names end where they should

  /** Were one name shorter, the other would resume behind it. */
  lemma ShorterResumes(text: TypeKind -> string, a: TypeRef, c: Around, b: string, behind: string)
    requires Words(text) && Started(a) && AroundStarted(c) && |a.name| < |b|
    requires a.name + (">" + (ParamsPart(text, a) + AroundText(text, c))) == b + (">" + behind)
    ensures b[|a.name|] == '>' && Resumes(text, b[|a.name| + 1..])
  {
    var n, whole := |a.name|, ParamsPart(text, a) + AroundText(text, c);
    var rest := b[n + 1..];
    TextBehind(a.name, whole, b, behind);
    if BareAll(a.params) && !NameAhead(c) {
      BracketIn(rest, behind);
      NoNextName(text, a, c);
    } else {
      var j := NextName(text, a, c);
      JumpNone(text, j);
      StaysInName(JumpText(text, j), rest, whole);
      assert OpensName(JumpText(text, j), rest);
    }
  }

  lemma BracketIn(rest: string, behind: string)
    ensures !NoBracket(rest + (">" + behind))
  {
    assert (rest + (">" + behind))[|rest|] == '>';
  }

  lemma TextBehind(a: string, whole: string, b: string, behind: string)
    requires |a| < |b| && a + (">" + whole) == b + (">" + behind)
    ensures b[|a|] == '>' && whole == b[|a| + 1..] + (">" + behind)
  {
    var text, n := a + (">" + whole), |a|;
    assert text[n] == '>' && text[n] == b[n];
    assert text[n + 1..] == whole;
    assert (b + (">" + behind))[n + 1..] == b[n + 1..] + (">" + behind);
  }

  lemma StaysInName(head: string, rest: string, whole: string)
    requires NoBracket(head) && OpensName(head, whole) && rest < whole && whole[|rest|] == '>'
    ensures OpensName(head, rest)
  {
    var opening := head + [whole[|head|]];
    NoneInBoth(head, [whole[|head|]]);
    PrefixStops(opening, rest, whole);
    assert rest[|head|] == opening[|head|];
  }

  ghost predicate AroundSettled(text: TypeKind -> string, c: Around) {
    match c
    case Top => true
    case Within(later, _, up) => (forall p :: p in later ==> SettledNames(text, p)) && AroundSettled(text, up)
  }

  lemma {:induction false} SettledStarted(text: TypeKind -> string, ty: TypeRef)
    requires SettledNames(text, ty)
    ensures Started(ty)
    decreases ty
  {
    forall p | p in ty.params ensures Started(p) {
      SettledStarted(text, p);
    }
  }

  lemma {:induction false} SettledAround(text: TypeKind -> string, c: Around)
    requires AroundSettled(text, c)
    ensures AroundStarted(c)
    decreases c
  {
    if c.Within? {
      forall p | p in c.later ensures Started(p) {
        SettledStarted(text, p);
      }
      SettledAround(text, c.up);
    }
  }

  lemma NotShorter(text: TypeKind -> string, a: TypeRef, c: Around, b: TypeRef, t: string)
    requires Words(text) && SettledNames(text, a) && AroundSettled(text, c) && Settled(text, b.name)
    requires a.name != ""
    requires a.name + AfterName(text, a, AroundText(text, c)) == b.name + AfterName(text, b, t)
    ensures |b.name| <= |a.name|
  {
    if |a.name| < |b.name| {
      SettledStarted(text, a);
      SettledAround(text, c);
      ShorterResumes(text, a, c, b.name, ParamsPart(text, b) + t);
    }
  }

  lemma NamesAgree(text: TypeKind -> string, a: TypeRef, c: Around, b: TypeRef, d: Around)
    requires Words(text) && SettledNames(text, a) && SettledNames(text, b)
    requires AroundSettled(text, c) && AroundSettled(text, d)
    requires NamePart(text, a) + AroundText(text, c) == NamePart(text, b) + AroundText(text, d)
    ensures a.name == b.name
            && ParamsPart(text, a) + AroundText(text, c) == ParamsPart(text, b) + AroundText(text, d)
  {
    var s, t := AroundText(text, c), AroundText(text, d);
    NameOpen(text, a, s);
    NameOpen(text, b, t);
    if a.name != "" && b.name != "" {
      NotShorter(text, a, c, b, t);
      NotShorter(text, b, d, a, s);
      SameNames(a.name, ParamsPart(text, a) + s, b.name, ParamsPart(text, b) + t);
    }
  }

  lemma SameNames(a: string, s: string, b: string, t: string)
    requires |a| == |b| && a + (">" + s) == b + (">" + t)
    ensures a == b && s == t
  {
    assert a == (a + (">" + s))[..|a|] && b == (b + (">" + t))[..|b|];
    assert s == (a + (">" + s))[|a| + 1..] && t == (b + (">" + t))[|b| + 1..];
  }

  /** Wherever they stand, types with settled names can be read back. */
  lemma {:induction false} ReadsBack(text: TypeKind -> string, a: TypeRef, c: Around, b: TypeRef, d: Around)
    requires Words(text) && SettledNames(text, a) && SettledNames(text, b)
    requires AroundSettled(text, c) && AroundSettled(text, d)
    requires SignatureBy(text, a) + AroundText(text, c) == SignatureBy(text, b) + AroundText(text, d)
    ensures Seen(a) == Seen(b) && AroundText(text, c) == AroundText(text, d)
    decreases a, 0
  {
    var s, t := AroundText(text, c), AroundText(text, d);
    KindUnique(text, a, b, s, t);
    NamesAgree(text, a, c, b, d);
    ParamsSplit(text, a, b, s, t);
    if a.params != [] {
      ListReadsBack(text, a.params, a.size, c, b.params, b.size, d);
      AfterParamsUnique(a, b, s, t);
    }
    SizeUnique(a, b, s, t);
    assert SeenAll(a.params) == SeenAll(b.params);
  }

  /** Two lists go on, or end, together. */
  lemma SameEnds(s: string, more: bool, t: string, moreToo: bool)
    requires s == t && s != "" && s[0] == (if more then ',' else ')') && t[0] == (if moreToo then ',' else ')')
    ensures more == moreToo
  {
  }

  /** The end of a list of a type of the given size. */
  function EndText(text: TypeKind -> string, size: int, c: Around): string {
    ")" + Bracketed(size) + AroundText(text, c)
  }

  lemma {:induction false} ListReadsBack(text: TypeKind -> string, ps: seq<TypeRef>, m: int, c: Around,
                                         qs: seq<TypeRef>, n: int, d: Around)
    requires Words(text) && ps != [] && qs != [] && AroundSettled(text, c) && AroundSettled(text, d)
    requires (forall p :: p in ps ==> SettledNames(text, p)) && (forall q :: q in qs ==> SettledNames(text, q))
    requires Joined(text, ps) + EndText(text, m, c) == Joined(text, qs) + EndText(text, n, d)
    ensures SeenAll(ps) == SeenAll(qs) && EndText(text, m, c) == EndText(text, n, d)
    decreases ps, 1
  {
    var s, t := EndText(text, m, c), EndText(text, n, d);
    JoinedSplits(text, ps, s);
    JoinedSplits(text, qs, t);
    ReadsBack(text, ps[0], Within(ps[1..], m, c), qs[0], Within(qs[1..], n, d));
    SameEnds(AfterFirst(text, ps, s), |ps| > 1, AfterFirst(text, qs, t), |qs| > 1);
    if |ps| > 1 {
      ListReadsBack(text, ps[1..], m, c, qs[1..], n, d);
    }
  }

  lemma {:induction false} CleanNamesSettled(text: TypeKind -> string, ty: TypeRef)
    requires CleanNames(text, ty)
    ensures SettledNames(text, ty)
    decreases ty
  {
    CleanSettled(text, ty.name);
    forall p | p in ty.params ensures SettledNames(text, p) {
      CleanNamesSettled(text, p);
    }
  }

  /** Two types with settled names have one signature if and only if they are one type. */
  lemma WholeDecides(text: TypeKind -> string, a: TypeRef, b: TypeRef)
    requires Words(text) && SettledNames(text, a) && SettledNames(text, b)
    ensures SignatureBy(text, a) == SignatureBy(text, b) <==> Seen(a) == Seen(b)
  {
    if SignatureBy(text, a) == SignatureBy(text, b) {
      assert SignatureBy(text, a) + AroundText(text, Top) == SignatureBy(text, b) + AroundText(text, Top);
      ReadsBack(text, a, Top, b, Top);
    }
    if Seen(a) == Seen(b) {
      SeenDecides(text, a, b);
    }
  }

  /** Every name in the type, at any depth, is settled as the engine's kinds are written. */
  ghost predicate SettledType(ty: TypeRef) { SettledNames(KindText, ty) }

  /** So it is for the engine's own kinds; and every type whose names are clean is one of these. */
  lemma SignaturesDecide(a: TypeRef, b: TypeRef)
    requires SettledType(a) && SettledType(b)
    ensures Signature(a) == Signature(b) <==> Seen(a) == Seen(b)
  {
    KindTextWords();
    WholeDecides(KindText, a, b);
  }

  // ---------------------------------------------------------------- and others do not

  /** The type, with the lists it is in, the innermost first. */
  function Wrap(ups: seq<Up>, ty: TypeRef): TypeRef
    decreases |ups|
  {
    if ups == [] then ty else Wrap(ups[1..], OneOf(ty, ups[0].later, ups[0].size))
  }

  /** A type in which the jump leads from the first name to the second. */
  function Built(j: Jump, first: string, second: string): TypeRef {
    match j
    case Into(h) => TypeRef(TypeKind.Struct, first, "", Build(h, second), 0)
    case Past(q, ups, h) =>
      TypeRef(TypeKind.Struct, "", "",
              [Wrap(ups, TypeRef(TypeKind.Struct, first, "", q.params, q.size))] + Build(h, second), 0)
  }

  /** What opens so many lists. */
  function Lists(list: string, n: nat): string { if n == 0 then "" else list + Lists(list, n - 1) }

  lemma {:induction false} ListsMore(list: string, n: nat)
    ensures Lists(list, n) + list == Lists(list, n + 1)
  {
    if n == 0 {
      assert "" + list == list + "" == list;
    } else {
      ListsMore(list, n - 1);
      assert list + Lists(list, n - 1) + list == list + (Lists(list, n - 1) + list);
    }
  }

  lemma ListText(text: TypeKind -> string, ty: TypeRef, later: seq<TypeRef>, size: int, behind: string)
    ensures var one := TypeRef(TypeKind.Struct, "", "", [ty] + later, size);
            SignatureBy(text, one) + behind
            == text(TypeKind.Struct) + "(" + (SignatureBy(text, ty) + ListEnd(text, later, size, behind))
  {
    var one := TypeRef(TypeKind.Struct, "", "", [ty] + later, size);
    NamelessParts(text, one);
    ParamsParts(text, one);
    assert ([ty] + later)[1..] == later;
    ListGrouped(text(TypeKind.Struct), SignatureBy(text, ty), if later == [] then "" else Joined(text, later),
                later == [], Bracketed(size), behind);
    assert Joined(text, one.params) == SignatureBy(text, ty) + (if later == [] then "" else "," + Joined(text, later));
    assert SizePart(one) == Bracketed(size);
  }

  lemma ListGrouped(kind: string, first: string, rest: string, alone: bool, size: string, behind: string)
    ensures kind + ("(" + (first + (if alone then "" else "," + rest)) + (")" + size)) + behind
            == kind + "(" + (first + (if alone then ")" + size + behind else "," + (rest + (")" + size + behind))))
  {
  }

  function OneOf(ty: TypeRef, later: seq<TypeRef>, size: int): TypeRef {
    TypeRef(TypeKind.Struct, "", "", [ty] + later, size)
  }

  type Ender = (seq<TypeRef>, int, string) -> string

  /** A list around a type opens in front of it, and ends behind it. */
  ghost predicate Encloses(sig: TypeRef -> string, list: string, end: Ender) {
    forall ty, later, size, rest {:trigger sig(OneOf(ty, later, size)), end(later, size, rest)} ::
      sig(OneOf(ty, later, size)) + rest == list + (sig(ty) + end(later, size, rest))
  }

  lemma EnclosesOne(sig: TypeRef -> string, list: string, end: Ender, ty: TypeRef, up: Up, rest: string)
    requires Encloses(sig, list, end)
    ensures sig(OneOf(ty, up.later, up.size)) + rest == list + (sig(ty) + end(up.later, up.size, rest))
  {
  }

  function UpsBy(end: Ender, ups: seq<Up>, behind: string): string {
    if ups == [] then behind else end(ups[0].later, ups[0].size, UpsBy(end, ups[1..], behind))
  }

  lemma {:induction false} WrapBy(sig: TypeRef -> string, list: string, end: Ender, ups: seq<Up>, ty: TypeRef,
                                  behind: string)
    requires Encloses(sig, list, end)
    ensures sig(Wrap(ups, ty)) + behind == Lists(list, |ups|) + (sig(ty) + UpsBy(end, ups, behind))
    decreases |ups|
  {
    if ups == [] {
      assert "" + (sig(ty) + behind) == sig(ty) + behind;
    } else {
      var one, rest := OneOf(ty, ups[0].later, ups[0].size), UpsBy(end, ups[1..], behind);
      WrapBy(sig, list, end, ups[1..], one, behind);
      EnclosesOne(sig, list, end, ty, ups[0], rest);
      ListsMore(list, |ups| - 1);
      WrapGrouped(sig(one) + rest, Lists(list, |ups| - 1), list, sig(ty) + UpsBy(end, ups, behind),
                  Lists(list, |ups|));
    }
  }

  lemma {:induction false} UpsByText(text: TypeKind -> string, end: Ender, ups: seq<Up>, behind: string)
    requires forall later, size, rest :: end(later, size, rest) == ListEnd(text, later, size, rest)
    ensures UpsBy(end, ups, behind) == UpsText(text, ups, behind)
    decreases |ups|
  {
    if ups != [] {
      UpsByText(text, end, ups[1..], behind);
    }
  }

  function SigBy(text: TypeKind -> string): TypeRef -> string { (t: TypeRef) => SignatureBy(text, t) }

  function EndBy(text: TypeKind -> string): Ender {
    (later: seq<TypeRef>, size: int, rest: string) => ListEnd(text, later, size, rest)
  }

  lemma TextEncloses(text: TypeKind -> string, sig: TypeRef -> string, end: Ender)
    requires sig == SigBy(text) && end == EndBy(text)
    ensures Encloses(sig, text(TypeKind.Struct) + "(", end)
  {
    forall one, later, size, rest {:trigger sig(OneOf(one, later, size)), end(later, size, rest)}
      ensures sig(OneOf(one, later, size)) + rest
              == text(TypeKind.Struct) + "(" + (sig(one) + end(later, size, rest))
    {
      ListText(text, one, later, size, rest);
    }
  }

  lemma WrapText(text: TypeKind -> string, ups: seq<Up>, ty: TypeRef, behind: string)
    ensures SignatureBy(text, Wrap(ups, ty)) + behind
            == Lists(text(TypeKind.Struct) + "(", |ups|) + (SignatureBy(text, ty) + UpsText(text, ups, behind))
  {
    var sig, end := SigBy(text), EndBy(text);
    TextEncloses(text, sig, end);
    WrapBy(sig, text(TypeKind.Struct) + "(", end, ups, ty, behind);
    UpsByText(text, end, ups, behind);
  }

  lemma WrapGrouped(one: string, open: string, list: string, ty: string, more: string)
    requires one == list + ty && open + list == more
    ensures open + one == more + ty
  {
    Around3(open, list, ty);
  }

  lemma Around3(a: string, b: string, c: string)
    ensures a + (b + c) == a + b + c
  {
  }

  /** What stands in front of the first name, and behind the second: the same for any two names. */
  function Front(text: TypeKind -> string, j: Jump): string {
    if j.Into? then text(TypeKind.Struct)
    else Lists(text(TypeKind.Struct) + "(", |j.ups| + 1) + text(TypeKind.Struct)
  }

  function Back(j: Jump): string { Zero() + Tail(j.h) + ")" + Zero() }

  lemma BuiltText(text: TypeKind -> string, j: Jump, first: string, second: string)
    requires first != "" && second != ""
    ensures SignatureBy(text, Built(j, first, second))
            == Front(text, j) + ("<" + first + ">" + JumpText(text, j) + second + ">" + Back(j))
  {
    BuildText(text, j.h, second);
    match j
    case Into(h) => IntoText(text, h, first, second);
    case Past(q, ups, h) => PastText(text, q, ups, h, first, second);
  }

  lemma IntoText(text: TypeKind -> string, h: Head, first: string, second: string)
    requires first != "" && Joined(text, Build(h, second)) == HeadText(text, h) + (second + ">" + Zero() + Tail(h))
    ensures SignatureBy(text, Built(Into(h), first, second))
            == text(TypeKind.Struct) + ("<" + first + ">" + ("(" + HeadText(text, h)) + second + ">" + Back(Into(h)))
  {
    var b := Built(Into(h), first, second);
    NamedParamsText(text, b);
    assert SizePart(b) == Zero();
    IntoGrouped(text(TypeKind.Struct), first, HeadText(text, h), second, Zero(), Tail(h));
  }

  lemma IntoGrouped(kind: string, first: string, head: string, second: string, zero: string, tail: string)
    ensures kind + ("<" + first + ">" + ("(" + (head + (second + ">" + zero + tail)) + (")" + zero)))
            == kind + ("<" + first + ">" + ("(" + head) + second + ">" + (zero + tail + ")" + zero))
  {
  }

  lemma PastText(text: TypeKind -> string, q: TypeRef, ups: seq<Up>, h: Head, first: string, second: string)
    requires first != "" && Joined(text, Build(h, second)) == HeadText(text, h) + (second + ">" + Zero() + Tail(h))
    ensures var j := Past(q, ups, h);
            SignatureBy(text, Built(j, first, second))
            == Front(text, j) + ("<" + first + ">" + JumpText(text, j) + second + ">" + Back(j))
  {
    var inner, whole := TypeRef(TypeKind.Struct, first, "", q.params, q.size), Built(Past(q, ups, h), first, second);
    var list, head, tail := Build(h, second), "," + HeadText(text, h), second + ">" + Back(Past(q, ups, h));
    ListText(text, Wrap(ups, inner), list, 0, "");
    WrapText(text, ups, inner, ListEnd(text, list, 0, ""));
    PastTail(text, h, second);
    UpsBehind(text, ups, head, tail);
    InnerText(text, q, first);
    PastJoined(text(TypeKind.Struct), SignatureBy(text, whole), SignatureBy(text, Wrap(ups, inner)),
               ListEnd(text, list, 0, ""), Lists(text(TypeKind.Struct) + "(", |ups|), SignatureBy(text, inner),
               "<" + first + ">", ParamsPart(text, q), UpsText(text, ups, head), UpsText(text, ups, head + tail), tail);
    Around3("<" + first + ">" + JumpText(text, Past(q, ups, h)), second + ">", Back(Past(q, ups, h)));
    Around3("<" + first + ">" + JumpText(text, Past(q, ups, h)), second, ">");
    Around3(second, ">", Back(Past(q, ups, h)));
  }

  lemma PastTail(text: TypeKind -> string, h: Head, second: string)
    requires Joined(text, Build(h, second)) == HeadText(text, h) + (second + ">" + Zero() + Tail(h))
    ensures ListEnd(text, Build(h, second), 0, "")
            == "," + HeadText(text, h) + (second + ">" + (Zero() + Tail(h) + ")" + Zero()))
  {
    ListTail(HeadText(text, h), second, Zero(), Tail(h));
  }

  lemma InnerText(text: TypeKind -> string, q: TypeRef, first: string)
    requires first != ""
    ensures var inner := TypeRef(TypeKind.Struct, first, "", q.params, q.size);
            SignatureBy(text, inner) == text(TypeKind.Struct) + ("<" + first + ">" + ParamsPart(text, q))
  {
    var inner := TypeRef(TypeKind.Struct, first, "", q.params, q.size);
    SignatureParts(text, inner);
    assert ParamsPart(text, inner) == ParamsPart(text, q);
  }

  lemma PastJoined(kind: string, whole: string, wrapped: string, end: string, open: string, inner: string, name: string,
                   part: string, ups: string, all: string, tail: string)
    requires whole + "" == kind + "(" + (wrapped + end) && wrapped + end == open + (inner + all)
    requires inner == kind + (name + part) && all == ups + tail
    ensures whole == kind + "(" + open + kind + (name + (part + ups) + tail)
  {
    assert whole + "" == whole;
    PastGrouped(kind + "(", open, kind, name, part, ups, tail);
  }

  lemma ListTail(head: string, second: string, zero: string, tail: string)
    ensures "," + ((head + (second + ">" + zero + tail)) + (")" + zero + ""))
            == "," + head + (second + ">" + (zero + tail + ")" + zero))
  {
  }

  lemma {:induction false} UpsBehind(text: TypeKind -> string, ups: seq<Up>, behind: string, more: string)
    ensures UpsText(text, ups, behind + more) == UpsText(text, ups, behind) + more
    decreases |ups|
  {
    if ups != [] {
      UpsBehind(text, ups[1..], behind, more);
      EndBehind(text, ups[0].later, ups[0].size, UpsText(text, ups[1..], behind), more);
    }
  }

  lemma EndBehind(text: TypeKind -> string, later: seq<TypeRef>, size: int, behind: string, more: string)
    ensures ListEnd(text, later, size, behind + more) == ListEnd(text, later, size, behind) + more
  {
    Around3(")" + Bracketed(size), behind, more);
    if later != [] {
      var end := ")" + Bracketed(size) + behind;
      Around3(Joined(text, later), end, more);
      Around3(",", Joined(text, later) + end, more);
    }
  }

  lemma PastGrouped(list: string, open: string, kind: string, name: string, part: string, ups: string, tail: string)
    ensures list + (open + (kind + (name + part) + (ups + tail))) == list + open + kind + (name + (part + ups) + tail)
  {
  }

  // ---------------------------------------------------------------- exactly when they decide

  /** In a name of the set what follows an opening bracket may be exchanged for any name of it. */
  ghost predicate Swaps(ok: string -> bool) {
    forall x, y, i {:trigger Exchange(x, i, y)} :: 0 <= i < |x| && ok(x) && ok(y) && y != "" && x[i] == '<' ==>
      ok(Exchange(x, i, y))
  }

  /** x with what follows its character i exchanged for y. */
  function Exchange(x: string, i: int, y: string): string { if 0 <= i < |x| then x[..i + 1] + y else y }

  /** Types over these names are one when their signatures are. */
  ghost predicate WholeUnique(text: TypeKind -> string, ok: string -> bool) {
    forall a, b :: Over(ok, a) && Over(ok, b) && SignatureBy(text, a) == SignatureBy(text, b) ==> Seen(a) == Seen(b)
  }

  lemma {:induction false} WrapOver(ok: string -> bool, ups: seq<Up>, ty: TypeRef)
    requires ok("") && Over(ok, ty) && forall i :: 0 <= i < |ups| ==> BareAll(ups[i].later)
    ensures Over(ok, Wrap(ups, ty))
    decreases |ups|
  {
    if ups != [] {
      var one := TypeRef(TypeKind.Struct, "", "", [ty] + ups[0].later, ups[0].size);
      forall p | p in one.params ensures Over(ok, p) {
        if p != ty {
          BareOver(ok, p);
        }
      }
      WrapOver(ok, ups[1..], one);
    }
  }

  lemma BuiltOver(ok: string -> bool, j: Jump, first: string, second: string)
    requires ok("") && ok(first) && ok(second) && SaneJump(j)
    ensures Over(ok, Built(j, first, second))
  {
    BuildOver(ok, j.h, second);
    if j.Past? {
      var inner := TypeRef(TypeKind.Struct, first, "", j.q.params, j.q.size);
      BareOver(ok, j.q);
      WrapOver(ok, j.ups, inner);
    }
  }

  lemma {:induction false} WrapSeen(ups: seq<Up>, a: TypeRef, b: TypeRef)
    requires Seen(Wrap(ups, a)) == Seen(Wrap(ups, b))
    ensures Seen(a) == Seen(b)
    decreases |ups|
  {
    if ups != [] {
      var one := TypeRef(TypeKind.Struct, "", "", [a] + ups[0].later, ups[0].size);
      var two := TypeRef(TypeKind.Struct, "", "", [b] + ups[0].later, ups[0].size);
      WrapSeen(ups[1..], one, two);
      assert Seen(one).params[0] == Seen(a) && Seen(two).params[0] == Seen(b);
    }
  }

  /** The first names can be told apart. */
  lemma BuiltSeen(j: Jump, a: string, b: string, x: string, y: string)
    requires Seen(Built(j, a, x)) == Seen(Built(j, b, y))
    ensures a == b
  {
    if j.Past? {
      var one, two := Built(j, a, x), Built(j, b, y);
      assert Seen(one).params[0] == Seen(one.params[0]) && Seen(two).params[0] == Seen(two.params[0]);
      WrapSeen(j.ups, TypeRef(TypeKind.Struct, a, "", j.q.params, j.q.size),
               TypeRef(TypeKind.Struct, b, "", j.q.params, j.q.size));
    }
  }

  /** The same text is a short name and then the long one, or a long one and then the rest. */
  lemma SameReadings(front: string, u: string, jump: string, w: string, back: string)
    ensures front + ("<" + u + ">" + jump + (u + ">" + jump + w) + ">" + back)
            == front + ("<" + (u + ">" + jump + u) + ">" + jump + w + ">" + back)
  {
  }

  lemma JumpCollides(text: TypeKind -> string, ok: string -> bool, j: Jump, u: string, w: string)
    requires ok("") && SaneJump(j) && u != "" && w != ""
    requires ok(u) && ok(w) && ok(u + ">" + JumpText(text, j) + w) && ok(u + ">" + JumpText(text, j) + u)
    ensures !WholeUnique(text, ok)
  {
    var jump := JumpText(text, j);
    var a, b := Built(j, u, u + ">" + jump + w), Built(j, u + ">" + jump + u, w);
    BuiltOver(ok, j, u, u + ">" + jump + w);
    BuiltOver(ok, j, u + ">" + jump + u, w);
    BuiltText(text, j, u, u + ">" + jump + w);
    BuiltText(text, j, u + ">" + jump + u, w);
    SameReadings(Front(text, j), u, jump, w, Back(j));
    if Seen(a) == Seen(b) {
      BuiltSeen(j, u, u + ">" + jump + u, u + ">" + jump + w, w);
    }
  }

  /** The name in front of a bracket, the way to another, and that. */
  lemma SplitAt(x: string, i: nat, jump: string)
    requires i < |x| && x[i] == '>' && OpensName(jump, x[i + 1..]) && jump != "" && jump[|jump| - 1] == '<'
    ensures var k := i + |jump|;
            && k + 1 < |x| && x[k] == '<' && x[k + 1] != '>'
            && x[..k + 1] == x[..i] + ">" + jump && x == x[..k + 1] + x[k + 1..]
  {
    var rest, k := x[i + 1..], i + |jump|;
    assert x[k] == rest[|jump| - 1] && x[k + 1] == rest[|jump|];
    assert jump == rest[..|jump|];
    assert jump == x[i + 1..k + 1];
  }

  lemma NamesOfSet(ok: string -> bool, x: string, i: nat, k: nat)
    requires Family(ok) && Swaps(ok) && ok(x) && 0 < i < k && k + 1 < |x| && x[k] == '<' && x[k + 1] != '>'
    ensures ok("") && ok(x[..i]) && ok(x[k + 1..]) && ok(x[..k + 1] + x[..i])
  {
    assert ok(Beginning(x, i)) && ok(Opened(x, k));
    assert Exchange(x, k, x[..i]) == x[..k + 1] + x[..i];
  }

  /** One name that is not settled, and two types over the set have one signature. */
  lemma UnsettledCollides(text: TypeKind -> string, ok: string -> bool, x: string, i: nat)
    requires Family(ok) && Swaps(ok) && ok(x) && 0 < i < |x| && x[i] == '>' && Resumes(text, x[i + 1..])
    ensures !WholeUnique(text, ok)
  {
    var j :| SaneJump(j) && OpensName(JumpText(text, j), x[i + 1..]);
    ResumedCollides(text, ok, x, i, j, JumpText(text, j));
  }

  lemma ResumedCollides(text: TypeKind -> string, ok: string -> bool, x: string, i: nat, j: Jump, jump: string)
    requires Family(ok) && Swaps(ok) && ok(x) && 0 < i < |x| && x[i] == '>'
    requires jump == JumpText(text, j) && SaneJump(j) && OpensName(jump, x[i + 1..])
    ensures !WholeUnique(text, ok)
  {
    var k := i + |jump|;
    JumpEnds(text, j);
    SplitAt(x, i, jump);
    NamesOfSet(ok, x, i, k);
    SplitCollides(text, ok, j, jump, x[..i], x[k + 1..], x[..k + 1], x);
  }

  lemma SplitCollides(text: TypeKind -> string, ok: string -> bool, j: Jump, jump: string, u: string, w: string,
                      front: string, x: string)
    requires jump == JumpText(text, j) && SaneJump(j) && u != "" && w != ""
    requires front == u + ">" + jump && x == front + w
    requires ok("") && ok(u) && ok(w) && ok(x) && ok(front + u)
    ensures !WholeUnique(text, ok)
  {
    JumpCollides(text, ok, j, u, w);
  }

  lemma {:induction false} OverSettled(text: TypeKind -> string, ok: string -> bool, ty: TypeRef)
    requires Over(ok, ty) && forall x :: ok(x) ==> Settled(text, x)
    ensures SettledNames(text, ty)
    decreases ty
  {
    forall p | p in ty.params ensures SettledNames(text, p) {
      OverSettled(text, ok, p);
    }
  }

  /**
   * Over a set of names that holds their beginnings and what follows an opening bracket, and in which
   * that may be exchanged, whole signatures decide if and only if every name is settled.
   */
  lemma WholeUniqueIff(text: TypeKind -> string, ok: string -> bool)
    requires Words(text) && Family(ok) && Swaps(ok)
    ensures WholeUnique(text, ok) <==> forall x :: ok(x) ==> Settled(text, x)
  {
    if forall x :: ok(x) ==> Settled(text, x) {
      forall a, b | Over(ok, a) && Over(ok, b) && SignatureBy(text, a) == SignatureBy(text, b)
        ensures Seen(a) == Seen(b)
      {
        OverSettled(text, ok, a);
        OverSettled(text, ok, b);
        WholeDecides(text, a, b);
      }
    }
    if x :| ok(x) && !Settled(text, x) {
      var i: nat :| 0 < i < |x| && x[i] == '>' && Resumes(text, x[i + 1..]);
      UnsettledCollides(text, ok, x, i);
    }
  }
}
