/**
 * The whole report, change by change: what is in it and why. Each kind of change is raised exactly when
 * what it is about differs, and shows the two values.
 */
module DiffExact {
  import opened Common
  import opened Ir
  import opened DiffPairing
  import opened DiffMembers
  import opened DiffFunctionsAndEnums
  import opened DiffFields
  import opened DiffIndex
  import opened DiffReport

  // ---------------------------------------------------------------- a type's functions

  /** A signature, as it is shown. */
  function ShownText(text: string): Shown { Words(if text == "" then "()" else text) }

  /** What a change of the kind says of a function that was m, of signature `text`, and is `now`, of `nowText`. */
  predicate MethodDiffers(text: string, nowText: string, m: Method, now: Method, kind: ChangeKind, before: Shown,
                          after: Shown) {
    match kind
    case FunctionSignatureChanged => text != nowText && before == ShownText(text) && after == ShownText(nowText)
    case FunctionMoved =>
      && m.nativeRva != 0 && now.nativeRva != 0 && m.nativeRva != now.nativeRva
      && before == Number(m.nativeRva) && after == Number(now.nativeRva)
    case FunctionFlagsChanged => m.flags != now.flags && before == Number(m.flags) && after == Number(now.flags)
    case _ => false
  }

  lemma MethodDifferencesAre(sig: TypeRef -> string, path: string, m: Method, now: Method, c: Change)
    ensures c in MethodDifferences(sig, path, m, now) <==>
            About(c, path, m.name)
            && MethodDiffers(MethodText(sig, m), MethodText(sig, now), m, now, c.kind, c.before, c.after)
  {
    var text, nowText := MethodText(sig, m), MethodText(sig, now);
    var x, y, z := MethodParts(sig, path, m, now, text, nowText);
    ThreeIn(x, y, z, c);
    MethodWhens(path, m, now, text, nowText, c);
  }

  lemma MethodWhens(path: string, m: Method, now: Method, text: string, nowText: string, c: Change)
    ensures About(c, path, m.name) && MethodDiffers(text, nowText, m, now, c.kind, c.before, c.after) <==>
            || c in When(text != nowText, Raise(FunctionSignatureChanged, path, m.name, Words(OrBrackets(text)),
                                                Words(OrBrackets(nowText))))
            || c in When(Moved(m, now), Raise(FunctionMoved, path, m.name, Number(m.nativeRva), Number(now.nativeRva)))
            || c in When(m.flags != now.flags,
                         Raise(FunctionFlagsChanged, path, m.name, Number(m.flags), Number(now.flags)))
  {
    WhenIs(text != nowText, FunctionSignatureChanged, path, m.name, Words(OrBrackets(text)),
           Words(OrBrackets(nowText)), c);
    WhenIs(Moved(m, now), FunctionMoved, path, m.name, Number(m.nativeRva), Number(now.nativeRva), c);
    WhenIs(m.flags != now.flags, FunctionFlagsChanged, path, m.name, Number(m.flags), Number(now.flags), c);
  }

  /** Two functions of one name, as many of it before each of them. */
  ghost predicate MethodPair(before: Record, after: Record, i: nat, j: nat) {
    Mates(MethodNames(before.methods), MethodNames(after.methods), i, j)
  }

  /** The i-th old function is gone, or differs from the one it pairs with. */
  ghost predicate OldMethodSays(sig: TypeRef -> string, before: Record, after: Record, i: nat, c: Change)
    requires i < |before.methods|
  {
    || ((forall j: nat :: !MethodPair(before, after, i, j)) && c.kind == FunctionRemoved
        && About(c, before.path, before.methods[i].name) && c.before == c.after == Nothing)
    || (exists j: nat :: MethodPair(before, after, i, j) && About(c, after.path, before.methods[i].name)
                         && MethodDiffers(MethodText(sig, before.methods[i]), MethodText(sig, after.methods[j]),
                                          before.methods[i], after.methods[j], c.kind, c.before, c.after))
  }

  /** The j-th new function has no pair. */
  ghost predicate NewMethodSays(before: Record, after: Record, j: nat, c: Change)
    requires j < |after.methods|
  {
    && (forall i: nat :: !MethodPair(before, after, i, j)) && c.kind == FunctionAdded
    && About(c, after.path, after.methods[j].name) && c.before == c.after == Nothing
  }

  ghost predicate SomeOldMethod(sig: TypeRef -> string, before: Record, after: Record, c: Change) {
    exists i: nat :: i < |before.methods| && OldMethodSays(sig, before, after, i, c)
  }

  ghost predicate SomeNewMethod(before: Record, after: Record, c: Change) {
    exists j: nat :: j < |after.methods| && NewMethodSays(before, after, j, c)
  }

  ghost predicate FunctionSays(sig: TypeRef -> string, before: Record, after: Record, c: Change) {
    SomeOldMethod(sig, before, after, c) || SomeNewMethod(before, after, c)
  }

  lemma OldMethodIs(sig: TypeRef -> string, before: Record, after: Record, i: nat, c: Change)
    requires i < |before.methods|
    ensures c in MethodEvents(sig, before, after, i) <==> OldMethodSays(sig, before, after, i, c)
  {
    var names, others := MethodNames(before.methods), MethodNames(after.methods);
    var partner := Partner(names, others, i);
    forall j: nat ensures MethodPair(before, after, i, j) <==> partner == Some(j) {
      PartnerIff(names, others, i, j);
    }
    if partner.Some? {
      assert MethodPair(before, after, i, partner.value);
      MethodDifferencesAre(sig, after.path, before.methods[i], after.methods[partner.value], c);
    }
  }

  lemma NewMethodIs(before: Record, after: Record, j: nat, c: Change)
    requires j < |after.methods|
    ensures c in NewMethodEvents(before, after, j) <==> NewMethodSays(before, after, j, c)
  {
    var names, others := MethodNames(after.methods), MethodNames(before.methods);
    var partner := Partner(names, others, j);
    forall i: nat ensures MethodPair(before, after, i, j) <==> partner == Some(i) {
      PartnerIff(names, others, j, i);
    }
    if partner.Some? {
      assert MethodPair(before, after, partner.value, j);
    }
    WhenIs(partner.None?, FunctionAdded, after.path, after.methods[j].name, Nothing, Nothing, c);
  }

  /** The function pass is exact. */
  lemma FunctionPassIs(sig: TypeRef -> string, before: Record, after: Record, c: Change)
    ensures c in FunctionEvents(sig, before, after) <==> FunctionSays(sig, before, after, c)
  {
    OldMethodsAre(sig, before, after, c);
    NewMethodsAre(before, after, c);
    TwoIn(Gathered(OldMethods(sig, before, after), |before.methods|),
          Gathered(NewMethods(before, after), |after.methods|), c);
  }

  lemma TwoIn(x: seq<Change>, y: seq<Change>, c: Change)
    ensures c in x + y <==> c in x || c in y
  {
  }

  lemma OldMethodsAre(sig: TypeRef -> string, before: Record, after: Record, c: Change)
    ensures c in Gathered(OldMethods(sig, before, after), |before.methods|) <==> SomeOldMethod(sig, before, after, c)
  {
    var olds := OldMethods(sig, before, after);
    GatheredIn(olds, |before.methods|, c);
    forall i: nat | i < |before.methods| ensures c in olds(i) <==> OldMethodSays(sig, before, after, i, c) {
      OldMethodIs(sig, before, after, i, c);
    }
  }

  lemma NewMethodsAre(before: Record, after: Record, c: Change)
    ensures c in Gathered(NewMethods(before, after), |after.methods|) <==> SomeNewMethod(before, after, c)
  {
    var news := NewMethods(before, after);
    GatheredIn(news, |after.methods|, c);
    forall j: nat | j < |after.methods| ensures c in news(j) <==> NewMethodSays(before, after, j, c) {
      NewMethodIs(before, after, j, c);
    }
  }

  // ---------------------------------------------------------------- enums

  /** The value is that of the last enumerator of the name. */
  ghost predicate IsValue(values: seq<EnumValue>, name: string, value: int) {
    exists i: nat :: LastNamed(values, |values|, name, i) && values[i].value == value
  }

  /** Among the first n it is the last of the name. */
  ghost predicate LastNamed(values: seq<EnumValue>, n: nat, name: string, i: nat)
    requires n <= |values|
  {
    i < n && values[i].name == name && forall k :: i < k < n ==> values[k].name != name
  }

  ghost predicate HasName(values: seq<EnumValue>, name: string) {
    exists i :: 0 <= i < |values| && values[i].name == name
  }

  lemma {:induction false} LastValueAre(values: seq<EnumValue>, n: nat, name: string)
    requires n <= |values|
    ensures LastValue(values, n, name).None? <==> forall i :: 0 <= i < n ==> values[i].name != name
    ensures LastValue(values, n, name).Some? ==>
              exists i: nat :: LastNamed(values, n, name, i) && values[i].value == LastValue(values, n, name).value
  {
    if n > 0 {
      LastValueAre(values, n - 1, name);
      if values[n - 1].name == name {
        assert LastNamed(values, n, name, n - 1);
      } else if LastValue(values, n - 1, name).Some? {
        var i: nat :| LastNamed(values, n - 1, name, i) && values[i].value == LastValue(values, n - 1, name).value;
        assert LastNamed(values, n, name, i);
      }
    }
  }

  lemma ValueIs(values: seq<EnumValue>, name: string)
    ensures ValueOf(values, name).None? <==> !HasName(values, name)
    ensures forall value :: ValueOf(values, name) == Some(value) <==> IsValue(values, name, value)
  {
    LastValueAre(values, |values|, name);
    forall i: nat, j: nat | LastNamed(values, |values|, name, i) && LastNamed(values, |values|, name, j)
      ensures i == j
    {
    }
  }

  ghost predicate OldValueSays(before: EnumRecord, after: EnumRecord, i: nat, c: Change)
    requires i < |before.values|
  {
    var v := before.values[i];
    || (!HasName(after.values, v.name) && c.kind == EnumValueRemoved && About(c, before.path, v.name)
        && c.before == Number(v.value) && c.after == Nothing)
    || (c.kind == EnumValueChanged && About(c, after.path, v.name) && c.before == Number(v.value) && c.after.Number?
        && c.after.n != v.value && IsValue(after.values, v.name, c.after.n))
  }

  ghost predicate NewValueSays(before: EnumRecord, after: EnumRecord, j: nat, c: Change)
    requires j < |after.values|
  {
    var v := after.values[j];
    && !HasName(before.values, v.name) && c.kind == EnumValueAdded && About(c, after.path, v.name)
    && c.before == Nothing && c.after == Number(v.value)
  }

  ghost predicate SomeOldValue(before: EnumRecord, after: EnumRecord, c: Change) {
    exists i: nat :: i < |before.values| && OldValueSays(before, after, i, c)
  }

  ghost predicate SomeNewValue(before: EnumRecord, after: EnumRecord, c: Change) {
    exists j: nat :: j < |after.values| && NewValueSays(before, after, j, c)
  }

  ghost predicate EnumSays(before: EnumRecord, after: EnumRecord, c: Change) {
    SomeOldValue(before, after, c) || SomeNewValue(before, after, c)
  }

  lemma OldValueIs(before: EnumRecord, after: EnumRecord, i: nat, c: Change)
    requires i < |before.values|
    ensures c in ValueEvents(before, after, i) <==> OldValueSays(before, after, i, c)
  {
    var v := before.values[i];
    ValueIs(after.values, v.name);
    var now := ValueOf(after.values, v.name);
    if now.Some? {
      assert IsValue(after.values, v.name, now.value);
      WhenIs(now.value != v.value, EnumValueChanged, after.path, v.name, Number(v.value), Number(now.value), c);
    }
  }

  lemma NewValueIs(before: EnumRecord, after: EnumRecord, j: nat, c: Change)
    requires j < |after.values|
    ensures c in NewValueEvents(before, after, j) <==> NewValueSays(before, after, j, c)
  {
    var v := after.values[j];
    ValueIs(before.values, v.name);
    WhenIs(ValueOf(before.values, v.name).None?, EnumValueAdded, after.path, v.name, Nothing, Number(v.value), c);
  }

  /** The enum pass is exact. */
  lemma EnumPassIs(before: EnumRecord, after: EnumRecord, c: Change)
    ensures c in EnumEvents(before, after) <==> EnumSays(before, after, c)
  {
    OldValuesAre(before, after, c);
    NewValuesAre(before, after, c);
    TwoIn(Gathered(OldValues(before, after), |before.values|), Gathered(NewValues(before, after), |after.values|), c);
  }

  lemma OldValuesAre(before: EnumRecord, after: EnumRecord, c: Change)
    ensures c in Gathered(OldValues(before, after), |before.values|) <==> SomeOldValue(before, after, c)
  {
    var olds := OldValues(before, after);
    GatheredIn(olds, |before.values|, c);
    forall i: nat | i < |before.values| ensures c in olds(i) <==> OldValueSays(before, after, i, c) {
      OldValueIs(before, after, i, c);
    }
  }

  lemma NewValuesAre(before: EnumRecord, after: EnumRecord, c: Change)
    ensures c in Gathered(NewValues(before, after), |after.values|) <==> SomeNewValue(before, after, c)
  {
    var news := NewValues(before, after);
    GatheredIn(news, |after.values|, c);
    forall j: nat | j < |after.values| ensures c in news(j) <==> NewValueSays(before, after, j, c) {
      NewValueIs(before, after, j, c);
    }
  }

  // ---------------------------------------------------------------- the shape of a type

  function ShownSuper(super: string): Shown { Words(if super == "" then "<none>" else super) }

  /** What a change of the kind says of a type that was r and is `now`. */
  predicate ShapeDiffers(r: Record, now: Record, kind: ChangeKind, before: Shown, after: Shown) {
    match kind
    case TypeResized => r.size != now.size && before == Number(r.size) && after == Number(now.size)
    case TypeRealigned =>
      r.alignment != now.alignment && before == Number(r.alignment) && after == Number(now.alignment)
    case TypeSuperChanged =>
      r.super != now.super && before == ShownSuper(r.super) && after == ShownSuper(now.super)
    case _ => false
  }

  lemma ShapeIs(path: string, r: Record, now: Record, c: Change)
    ensures c in ShapeEvents(path, r, now) <==> About(c, path, "") && ShapeDiffers(r, now, c.kind, c.before, c.after)
  {
    var size := When(r.size != now.size, Raise(TypeResized, path, "", Number(r.size), Number(now.size)));
    var alignment := When(r.alignment != now.alignment,
                          Raise(TypeRealigned, path, "", Number(r.alignment), Number(now.alignment)));
    var super := When(r.super != now.super,
                      Raise(TypeSuperChanged, path, "", Words(SuperText(r.super)), Words(SuperText(now.super))));
    WhenIs(r.size != now.size, TypeResized, path, "", Number(r.size), Number(now.size), c);
    WhenIs(r.alignment != now.alignment, TypeRealigned, path, "", Number(r.alignment), Number(now.alignment), c);
    WhenIs(r.super != now.super, TypeSuperChanged, path, "", Words(SuperText(r.super)), Words(SuperText(now.super)), c);
    ThreeIn(size, alignment, super, c);
  }

  predicate SameShape(r: Record, now: Record) {
    r.size == now.size && r.alignment == now.alignment && r.super == now.super
  }

  /** A type found on both sides counts as unchanged if and only if nothing about it differs. */
  lemma UnchangedIff(sig: TypeRef -> string, options: Options, was: Index, now: Index, path: string)
    requires path in was.types && path in now.types
    ensures var r, current := was.types[path], now.types[path];
            TypeEvents(sig, options, was, now, path) == [] <==>
            SameShape(r, current) && PropertiesAgree(sig, r, current) && FunctionsAgree(sig, r, current)
  {
    var r, current := was.types[path], now.types[path];
    PropertiesAgreeIff(sig, options, r, current);
    FunctionsAgreeIff(sig, r, current);
    NoneOfThree(ShapeEvents(path, r, current), PropertyEvents(sig, options, r, current),
                FunctionEvents(sig, r, current));
    ShapeAgrees(path, r, current);
  }

  lemma NoneOfThree(x: seq<Change>, y: seq<Change>, z: seq<Change>)
    ensures x + y + z == [] <==> x == [] && y == [] && z == []
  {
  }

  lemma ShapeAgrees(path: string, r: Record, now: Record)
    ensures ShapeEvents(path, r, now) == [] <==> SameShape(r, now)
  {
    NoneOfThree(When(r.size != now.size, Raise(TypeResized, path, "", Number(r.size), Number(now.size))),
                When(r.alignment != now.alignment,
                     Raise(TypeRealigned, path, "", Number(r.alignment), Number(now.alignment))),
                When(r.super != now.super,
                     Raise(TypeSuperChanged, path, "", Words(SuperText(r.super)), Words(SuperText(now.super)))));
  }
}
