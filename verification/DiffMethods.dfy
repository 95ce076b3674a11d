/** What the text a function is compared by determines: how each parameter passes, and its type. */
module DiffMethods {
  import opened Ir
  import opened DiffSignature
  import opened DiffNames
  import opened DiffFunctionsAndEnums

  /** How a parameter passes. */
  datatype Way = Returned | Out | In

  function WayOf(p: Param): Way { if p.isReturn then Returned else if p.isOut then Out else In }

  function Mark(way: Way): string {
    match way
    case Returned => "-> "
    case Out => "out "
    case In => ""
  }

  /** The parameters pass in the same ways, and their types are the same to the comparison. */
  ghost predicate SameParams(ps: seq<Param>, qs: seq<Param>) {
    |ps| == |qs| && forall i :: 0 <= i < |ps| ==> WayOf(ps[i]) == WayOf(qs[i]) && Seen(ps[i].ty) == Seen(qs[i].ty)
  }

  ghost predicate PlainParams(ps: seq<Param>) { forall p :: p in ps ==> PlainNames(p.ty) }

  // ---------------------------------------------------------------- what is used of signatures

  /** The text begins with a word, and goes on with a bracket. */
  ghost predicate StartsWord(s: string) {
    exists k :: 0 <= k < |s| && s[k] in {'<', '(', '['} && forall i :: 0 <= i < k ==> IsWord(s[i])
  }

  /** A signature gives its type back, whatever follows it, and begins with a word. */
  ghost predicate Decodes(sig: TypeRef -> string) {
    && (forall a, b, s, t :: PlainNames(a) && PlainNames(b) && sig(a) + s == sig(b) + t ==>
        Seen(a) == Seen(b) && s == t)
    && (forall a, b :: Seen(a) == Seen(b) ==> sig(a) == sig(b))
    && forall a :: StartsWord(sig(a))
  }

  lemma SignatureDecodes()
    ensures Decodes(Signature)
  {
    KindTextWords();
    forall a, b, s, t | PlainNames(a) && PlainNames(b) && Signature(a) + s == Signature(b) + t
      ensures Seen(a) == Seen(b) && s == t
    {
      SignatureUnique(KindText, a, b, s, t);
    }
    forall a, b | Seen(a) == Seen(b) ensures Signature(a) == Signature(b) {
      SeenDecides(KindText, a, b);
    }
    forall a ensures StartsWord(Signature(a)) {
      SignatureStarts(KindText, a);
    }
  }

  lemma SignatureStarts(text: TypeKind -> string, ty: TypeRef)
    requires Words(text)
    ensures StartsWord(SignatureBy(text, ty))
  {
    var s, k := SignatureBy(text, ty), |text(ty.kind)|;
    SignatureParts(text, ty);
    NamePartStarts(text, ty, "");
    assert NamePart(text, ty) + "" == NamePart(text, ty);
    assert s[k] == NamePart(text, ty)[0];
    forall i | 0 <= i < k ensures IsWord(s[i]) {
      assert s[i] == text(ty.kind)[i] && s[i] in text(ty.kind);
    }
  }

  // ---------------------------------------------------------------- one parameter

  /** The mark of a parameter can be told from the beginning of the signature of another. */
  lemma MarkUnique(v: Way, w: Way, x: string, y: string)
    requires StartsWord(x) && StartsWord(y) && Mark(v) + x == Mark(w) + y
    ensures v == w && x == y
  {
    if v == w {
      SameAfter(Mark(v), x, y);
    } else if v.In? {
      MarkedApart(w, y, x);
    } else if w.In? {
      MarkedApart(v, x, y);
    } else {
      MarksApart(v, w, x, y);
    }
  }

  lemma SameAfter(front: string, x: string, y: string)
    requires front + x == front + y
    ensures x == y
  {
    assert x == (front + x)[|front|..] && y == (front + y)[|front|..];
  }

  /** A text that begins with a word begins with no mark. */
  lemma MarkedApart(way: Way, x: string, word: string)
    requires !way.In? && StartsWord(word)
    ensures Mark(way) + x != Mark(In) + word
  {
    var k :| 0 <= k < |word| && word[k] in {'<', '(', '['} && forall i :: 0 <= i < k ==> IsWord(word[i]);
    MarkEndsWord(way, word, k);
    assert Mark(In) + word == word;
    assert Mark(way) <= Mark(way) + x;
  }

  lemma MarksApart(v: Way, w: Way, x: string, y: string)
    requires v != w && !v.In? && !w.In?
    ensures Mark(v) + x != Mark(w) + y
  {
    assert (Mark(v) + x)[0] == Mark(v)[0] && (Mark(w) + y)[0] == Mark(w)[0];
  }

  /** A mark holds a character that is no part of a word and no bracket. */
  lemma MarkEndsWord(way: Way, word: string, k: nat)
    requires !way.In? && k < |word| && word[k] in {'<', '(', '['} && forall i :: 0 <= i < k ==> IsWord(word[i])
    ensures !(Mark(way) <= word)
  {
    var stop := if way.Returned? then 0 else 3;
    assert !IsWord(Mark(way)[stop]) && Mark(way)[stop] !in {'<', '(', '['};
    assert way.Out? ==> forall i :: 0 <= i < 3 ==> IsWord(Mark(way)[i]);
  }

  lemma ParamMarked(sig: TypeRef -> string, p: Param, s: string)
    ensures ParamText(sig, p) + s == Mark(WayOf(p)) + (sig(p.ty) + s)
  {
  }

  lemma ParamUnique(sig: TypeRef -> string, p: Param, q: Param, s: string, t: string)
    requires Decodes(sig) && PlainNames(p.ty) && PlainNames(q.ty) && ParamText(sig, p) + s == ParamText(sig, q) + t
    ensures WayOf(p) == WayOf(q) && Seen(p.ty) == Seen(q.ty) && s == t
  {
    ParamMarked(sig, p, s);
    ParamMarked(sig, q, t);
    StartsOn(sig(p.ty), s);
    StartsOn(sig(q.ty), t);
    MarkUnique(WayOf(p), WayOf(q), sig(p.ty) + s, sig(q.ty) + t);
  }

  lemma StartsOn(x: string, s: string)
    requires StartsWord(x)
    ensures StartsWord(x + s) && x != ""
  {
    var k :| 0 <= k < |x| && x[k] in {'<', '(', '['} && forall i :: 0 <= i < k ==> IsWord(x[i]);
    assert (x + s)[k] == x[k];
  }

  // ---------------------------------------------------------------- all of them

  /** The text of the parameters, from the first one on. */
  function FromFirst(sig: TypeRef -> string, params: seq<Param>): string
    decreases |params|, 0
  {
    if params == [] then "" else ParamText(sig, params[0]) + Following(sig, params[1..])
  }

  /** The parameters behind another one. */
  function Following(sig: TypeRef -> string, params: seq<Param>): string
    decreases |params|, 1
  {
    if params == [] then "" else ", " + FromFirst(sig, params)
  }

  lemma OneText(sig: TypeRef -> string, p: Param)
    ensures FromFirst(sig, [p]) == ParamText(sig, p)
  {
    assert ParamText(sig, p) + "" == ParamText(sig, p);
  }

  lemma {:induction false} FollowingMore(sig: TypeRef -> string, params: seq<Param>, p: Param)
    ensures Following(sig, params + [p]) == Following(sig, params) + ", " + ParamText(sig, p)
    decreases |params|
  {
    if params == [] {
      assert [] + [p] == [p];
      OneText(sig, p);
      assert "" + ", " == ", ";
    } else {
      FollowingMore(sig, params[1..], p);
      assert (params + [p])[1..] == params[1..] + [p];
      Behind(ParamText(sig, params[0]), Following(sig, params[1..]), ParamText(sig, p));
    }
  }

  lemma Behind(first: string, rest: string, last: string)
    ensures ", " + (first + (rest + ", " + last)) == ", " + (first + rest) + ", " + last
  {
  }

  lemma FromFirstMore(sig: TypeRef -> string, front: seq<Param>, p: Param)
    ensures FromFirst(sig, front + [p]) == FromFirst(sig, front) + (if front == [] then "" else ", ")
            + ParamText(sig, p)
  {
    if front == [] {
      assert [] + [p] == [p];
      OneText(sig, p);
      assert "" + "" + ParamText(sig, p) == ParamText(sig, p);
    } else {
      FollowingMore(sig, front[1..], p);
      assert (front + [p])[1..] == front[1..] + [p];
      Regrouped(ParamText(sig, front[0]), Following(sig, front[1..]), ParamText(sig, p));
    }
  }

  lemma Regrouped(first: string, rest: string, last: string)
    ensures first + (rest + ", " + last) == first + rest + ", " + last
  {
  }

  lemma {:induction false} TextFromFirst(sig: TypeRef -> string, params: seq<Param>, n: nat)
    requires Decodes(sig) && n <= |params|
    ensures ParamsText(sig, params, n) == FromFirst(sig, params[..n])
  {
    if n > 0 {
      TextFromFirst(sig, params, n - 1);
      assert params[..n] == params[..n - 1] + [params[n - 1]];
      FromFirstMore(sig, params[..n - 1], params[n - 1]);
      NotEmpty(sig, params[..n - 1]);
    }
  }

  lemma {:induction false} FromFirstUnique(sig: TypeRef -> string, ps: seq<Param>, qs: seq<Param>)
    requires Decodes(sig) && PlainParams(ps) && PlainParams(qs)
    ensures FromFirst(sig, ps) == FromFirst(sig, qs) <==> SameParams(ps, qs)
    decreases |ps|
  {
    if ps == [] || qs == [] {
      NotEmpty(sig, ps);
      NotEmpty(sig, qs);
    } else {
      var p, q := ps[0], qs[0];
      assert p in ps && q in qs;
      FromFirstUnique(sig, ps[1..], qs[1..]);
      FollowingUnique(sig, ps[1..], qs[1..]);
      if FromFirst(sig, ps) == FromFirst(sig, qs) {
        ParamUnique(sig, p, q, Following(sig, ps[1..]), Following(sig, qs[1..]));
      }
      if SameParams(ps, qs) {
        assert ParamText(sig, p) == Mark(WayOf(p)) + sig(p.ty) && ParamText(sig, q) == Mark(WayOf(q)) + sig(q.ty);
      }
      SameBehind(ps, qs);
    }
  }

  lemma NotEmpty(sig: TypeRef -> string, ps: seq<Param>)
    requires Decodes(sig)
    ensures FromFirst(sig, ps) == "" <==> ps == []
  {
    if ps != [] {
      StartsOn(sig(ps[0].ty), "");
    }
  }

  lemma FollowingUnique(sig: TypeRef -> string, ps: seq<Param>, qs: seq<Param>)
    requires FromFirst(sig, ps) == FromFirst(sig, qs) <==> SameParams(ps, qs)
    ensures Following(sig, ps) == Following(sig, qs) <==> SameParams(ps, qs)
  {
    if ps != [] && qs != [] && Following(sig, ps) == Following(sig, qs) {
      assert FromFirst(sig, ps) == Following(sig, ps)[2..] == Following(sig, qs)[2..] == FromFirst(sig, qs);
    }
  }

  lemma SameBehind(ps: seq<Param>, qs: seq<Param>)
    requires ps != [] && qs != []
    ensures SameParams(ps, qs) <==>
              WayOf(ps[0]) == WayOf(qs[0]) && Seen(ps[0].ty) == Seen(qs[0].ty) && SameParams(ps[1..], qs[1..])
  {
    if WayOf(ps[0]) == WayOf(qs[0]) && Seen(ps[0].ty) == Seen(qs[0].ty) && SameParams(ps[1..], qs[1..]) {
      forall i | 0 <= i < |ps| ensures WayOf(ps[i]) == WayOf(qs[i]) && Seen(ps[i].ty) == Seen(qs[i].ty) {
        assert i > 0 ==> ps[i] == ps[1..][i - 1] && qs[i] == qs[1..][i - 1];
      }
    }
  }

  /**
   * Two functions have one text if and only if their parameters are as many, pass in the same ways, and
   * have the same types at every level.
   */
  lemma MethodTextDecides(m: Method, now: Method)
    requires PlainParams(m.params) && PlainParams(now.params)
    ensures MethodText(Signature, m) == MethodText(Signature, now) <==> SameParams(m.params, now.params)
  {
    SignatureDecodes();
    MethodTextBy(Signature, m, now);
  }

  lemma MethodTextBy(sig: TypeRef -> string, m: Method, now: Method)
    requires Decodes(sig) && PlainParams(m.params) && PlainParams(now.params)
    ensures MethodText(sig, m) == MethodText(sig, now) <==> SameParams(m.params, now.params)
  {
    TextFromFirst(sig, m.params, |m.params|);
    TextFromFirst(sig, now.params, |now.params|);
    assert m.params[..|m.params|] == m.params && now.params[..|now.params|] == now.params;
    FromFirstUnique(sig, m.params, now.params);
  }
}
