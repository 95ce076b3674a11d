/** What the diff raises for a type's functions and for an enum's values. */
module DiffFunctionsAndEnums {
  import opened Common
  import opened Ir
  import opened DiffPairing
  import opened DiffMembers

  function ParamText(sig: TypeRef -> string, p: Param): string {
    (if p.isReturn then "-> " else if p.isOut then "out " else "") + sig(p.ty)
  }

  /** The signature of the first n parameters. */
  function ParamsText(sig: TypeRef -> string, params: seq<Param>, n: nat): string
    requires n <= |params|
  {
    if n == 0 then "" else
    var front := ParamsText(sig, params, n - 1);
    front + (if front == "" then "" else ", ") + ParamText(sig, params[n - 1])
  }

  function MethodText(sig: TypeRef -> string, m: Method): string { ParamsText(sig, m.params, |m.params|) }

  /** The loop over the parameters. */
  method WriteMethodText(sig: TypeRef -> string, m: Method) returns (out: string)
    ensures out == MethodText(sig, m)
  {
    out := "";
    for n := 0 to |m.params|
      invariant out == ParamsText(sig, m.params, n)
    {
      var param := m.params[n];
      if out != "" {
        out := out + ", ";
      }
      ghost var front := out;
      if param.isReturn {
        out := out + "-> ";
      } else if param.isOut {
        out := out + "out ";
      }
      out := out + sig(param.ty);
      assert out == front + ParamText(sig, param);
    }
  }

  function OrBrackets(text: string): string { if text == "" then "()" else text }

  function MethodNames(methods: seq<Method>): (names: seq<string>)
    ensures |names| == |methods|
  {
    seq(|methods|, i requires 0 <= i < |methods| => methods[i].name)
  }

  /** Both were recorded, and differ. */
  predicate Moved(m: Method, now: Method) { m.nativeRva != 0 && now.nativeRva != 0 && m.nativeRva != now.nativeRva }

  /** What differs between a function and its partner. */
  function MethodDifferences(sig: TypeRef -> string, path: string, m: Method, now: Method): seq<Change> {
    When(MethodText(sig, m) != MethodText(sig, now),
         Raise(FunctionSignatureChanged, path, m.name, Words(OrBrackets(MethodText(sig, m))),
               Words(OrBrackets(MethodText(sig, now)))))
    + When(Moved(m, now), Raise(FunctionMoved, path, m.name, Number(m.nativeRva), Number(now.nativeRva)))
    + When(m.flags != now.flags, Raise(FunctionFlagsChanged, path, m.name, Number(m.flags), Number(now.flags)))
  }

  /** Nothing differs between the two: addresses count when both dumps recorded one. */
  predicate MethodsMatch(sig: TypeRef -> string, m: Method, now: Method) {
    && MethodText(sig, m) == MethodText(sig, now) && m.flags == now.flags
    && (m.nativeRva == 0 || now.nativeRva == 0 || m.nativeRva == now.nativeRva)
  }

  lemma MatchIff(sig: TypeRef -> string, path: string, m: Method, now: Method)
    ensures MethodDifferences(sig, path, m, now) == [] <==> MethodsMatch(sig, m, now)
  {
    var a, b, c := MethodParts(sig, path, m, now, MethodText(sig, m), MethodText(sig, now));
  }

  /** What the n-th of the old functions raises. */
  function MethodEvents(sig: TypeRef -> string, before: Record, after: Record, n: nat): seq<Change> {
    if n >= |before.methods| then [] else
    match Partner(MethodNames(before.methods), MethodNames(after.methods), n)
    case None => [Raise(FunctionRemoved, before.path, before.methods[n].name, Nothing, Nothing)]
    case Some(j) =>
      if j < |after.methods| then MethodDifferences(sig, after.path, before.methods[n], after.methods[j]) else []
  }

  /** What the n-th of the new functions raises. */
  function NewMethodEvents(before: Record, after: Record, n: nat): seq<Change> {
    if n >= |after.methods| then [] else
    When(Partner(MethodNames(after.methods), MethodNames(before.methods), n).None?,
         Raise(FunctionAdded, after.path, after.methods[n].name, Nothing, Nothing))
  }

  function OldMethods(sig: TypeRef -> string, before: Record, after: Record): nat -> seq<Change> {
    (n: nat) => MethodEvents(sig, before, after, n)
  }

  function NewMethods(before: Record, after: Record): nat -> seq<Change> {
    (n: nat) => NewMethodEvents(before, after, n)
  }

  function FunctionEvents(sig: TypeRef -> string, before: Record, after: Record): seq<Change> {
    Gathered(OldMethods(sig, before, after), |before.methods|) + Gathered(NewMethods(before, after), |after.methods|)
  }

  /** The differences one by one, given the two texts. */
  lemma MethodParts(sig: TypeRef -> string, path: string, m: Method, now: Method, text: string, nowText: string)
    returns (a: seq<Change>, b: seq<Change>, c: seq<Change>)
    requires text == MethodText(sig, m) && nowText == MethodText(sig, now)
    ensures a == When(text != nowText, Raise(FunctionSignatureChanged, path, m.name, Words(OrBrackets(text)),
                                             Words(OrBrackets(nowText))))
    ensures b == When(Moved(m, now), Raise(FunctionMoved, path, m.name, Number(m.nativeRva), Number(now.nativeRva)))
    ensures c == When(m.flags != now.flags,
                      Raise(FunctionFlagsChanged, path, m.name, Number(m.flags), Number(now.flags)))
    ensures MethodDifferences(sig, path, m, now) == a + b + c
  {
    a := When(text != nowText, Raise(FunctionSignatureChanged, path, m.name, Words(OrBrackets(text)),
                                     Words(OrBrackets(nowText))));
    b := When(Moved(m, now), Raise(FunctionMoved, path, m.name, Number(m.nativeRva), Number(now.nativeRva)));
    c := When(m.flags != now.flags, Raise(FunctionFlagsChanged, path, m.name, Number(m.flags), Number(now.flags)));
  }

  method CompareMethod(emit: Differ, sig: TypeRef -> string, path: string, m: Method, now: Method) returns (same: bool)
    requires emit.Valid()
    modifies emit
    ensures emit.Valid() && emit.raised == old(emit.raised) + MethodDifferences(sig, path, m, now)
    ensures same <==> MethodDifferences(sig, path, m, now) == []
  {
    var text := WriteMethodText(sig, m);
    var nowText := WriteMethodText(sig, now);
    ghost var a, b, c := MethodParts(sig, path, m, now, text, nowText);
    Regroup(emit.raised, a, b);
    Regroup(emit.raised, a + b, c);
    var signature := EmitWhen(emit, text != nowText, FunctionSignatureChanged, path, m.name, Words(OrBrackets(text)),
                              Words(OrBrackets(nowText)));
    var moved := EmitWhen(emit, Moved(m, now), FunctionMoved, path, m.name, Number(m.nativeRva), Number(now.nativeRva));
    var flags := EmitWhen(emit, m.flags != now.flags, FunctionFlagsChanged, path, m.name, Number(m.flags),
                          Number(now.flags));
    same := signature && moved && flags;
  }

  /** raises gives what the n-th of the old functions raises. */
  ghost predicate OldGive(raises: nat -> seq<Change>, sig: TypeRef -> string, before: Record, after: Record) {
    forall n: nat {:trigger MethodEvents(sig, before, after, n)} :: raises(n) == MethodEvents(sig, before, after, n)
  }

  /** The n-th of the old functions: compared with its partner, or removed. */
  method CompareNthMethod(emit: Differ, sig: TypeRef -> string, before: Record, after: Record, n: nat,
                          byName: map<string, seq<nat>>, taken: map<string, nat>, ghost raises: nat -> seq<Change>)
    returns (same: bool, next: map<string, nat>)
    requires emit.Valid() && n < |before.methods| && OldGive(raises, sig, before, after)
    requires IndexedTo(MethodNames(after.methods), |after.methods|, byName)
             && Counted(MethodNames(before.methods), n, taken)
    modifies emit
    ensures emit.Valid() && emit.raised == old(emit.raised) + raises(n)
    ensures Counted(MethodNames(before.methods), n + 1, next) && (same <==> raises(n) == [])
  {
    ghost var events := MethodEvents(sig, before, after, n);
    var names, others := MethodNames(before.methods), MethodNames(after.methods);
    var partner;
    partner, next := FindPartner(names, n, others, byName, taken);
    match partner
    case None =>
      emit.Emit(FunctionRemoved, before.path, before.methods[n].name, Nothing, Nothing);
      same := false;
    case Some(j) =>
      PartnerSymmetric(names, others, n);
      same := CompareMethod(emit, sig, after.path, before.methods[n], after.methods[j]);
  }

  method CompareMethods(emit: Differ, sig: TypeRef -> string, before: Record, after: Record,
                        ghost raises: nat -> seq<Change>)
    returns (same: bool)
    requires emit.Valid() && OldGive(raises, sig, before, after)
    modifies emit
    ensures emit.Valid() && emit.raised == old(emit.raised) + Gathered(raises, |before.methods|)
    ensures same <==> Gathered(raises, |before.methods|) == []
  {
    var byName := IndexByName(MethodNames(after.methods));
    var taken: map<string, nat> := map[];
    ghost var names := MethodNames(before.methods);
    same := true;
    for n := 0 to |before.methods|
      invariant emit.Valid() && emit.raised == old(emit.raised) + Gathered(raises, n)
      invariant Counted(names, n, taken) && (same <==> Gathered(raises, n) == [])
    {
      ghost var raised := emit.raised;
      var alike;
      alike, taken := CompareNthMethod(emit, sig, before, after, n, byName, taken, raises);
      GatheredOn(old(emit.raised), raises, n, raised, emit.raised);
      GatheredNone(raises, n);
      same := same && alike;
    }
  }

  /** raises gives what the n-th of the new functions raises. */
  ghost predicate NewGive(raises: nat -> seq<Change>, before: Record, after: Record) {
    forall n: nat {:trigger NewMethodEvents(before, after, n)} :: raises(n) == NewMethodEvents(before, after, n)
  }

  /** The n-th of the new functions, when it has no partner. */
  method AddNthMethod(emit: Differ, before: Record, after: Record, n: nat, byName: map<string, seq<nat>>,
                      seen: map<string, nat>, ghost raises: nat -> seq<Change>)
    returns (same: bool, next: map<string, nat>)
    requires emit.Valid() && n < |after.methods| && NewGive(raises, before, after)
    requires IndexedTo(MethodNames(before.methods), |before.methods|, byName)
             && Counted(MethodNames(after.methods), n, seen)
    modifies emit
    ensures emit.Valid() && emit.raised == old(emit.raised) + raises(n)
    ensures Counted(MethodNames(after.methods), n + 1, next) && (same <==> raises(n) == [])
  {
    ghost var events := NewMethodEvents(before, after, n);
    var names, others := MethodNames(after.methods), MethodNames(before.methods);
    var partner;
    partner, next := FindPartner(names, n, others, byName, seen);
    same := EmitWhen(emit, partner.None?, FunctionAdded, after.path, after.methods[n].name, Nothing, Nothing);
  }

  method AddMethods(emit: Differ, before: Record, after: Record, ghost raises: nat -> seq<Change>) returns (same: bool)
    requires emit.Valid() && NewGive(raises, before, after)
    modifies emit
    ensures emit.Valid() && emit.raised == old(emit.raised) + Gathered(raises, |after.methods|)
    ensures same <==> Gathered(raises, |after.methods|) == []
  {
    var byName := IndexByName(MethodNames(before.methods));
    var seen: map<string, nat> := map[];
    ghost var names := MethodNames(after.methods);
    same := true;
    for n := 0 to |after.methods|
      invariant emit.Valid() && emit.raised == old(emit.raised) + Gathered(raises, n)
      invariant Counted(names, n, seen) && (same <==> Gathered(raises, n) == [])
    {
      ghost var raised := emit.raised;
      var known;
      known, seen := AddNthMethod(emit, before, after, n, byName, seen, raises);
      GatheredOn(old(emit.raised), raises, n, raised, emit.raised);
      GatheredNone(raises, n);
      same := same && known;
    }
  }

  /** Every function of either side has a mate, which matches it. */
  ghost predicate FunctionsAgree(sig: TypeRef -> string, before: Record, after: Record) {
    var names, others := MethodNames(before.methods), MethodNames(after.methods);
    && (forall i: nat :: i < |names| ==> HasMate(names, others, i))
    && (forall j: nat :: j < |others| ==> HasMate(others, names, j))
    && (forall i: nat, j: nat :: Mates(names, others, i, j) ==> MethodsMatch(sig, before.methods[i], after.methods[j]))
  }

  /** The n-th of the old functions has a mate, which matches it. */
  ghost predicate OldAgrees(sig: TypeRef -> string, before: Record, after: Record, n: nat)
    requires n < |before.methods|
  {
    var names, others := MethodNames(before.methods), MethodNames(after.methods);
    HasMate(names, others, n)
    && forall j: nat :: Mates(names, others, n, j) ==> MethodsMatch(sig, before.methods[n], after.methods[j])
  }

  lemma OldMethodAgrees(sig: TypeRef -> string, before: Record, after: Record, n: nat)
    requires n < |before.methods|
    ensures MethodEvents(sig, before, after, n) == [] <==> OldAgrees(sig, before, after, n)
  {
    var names, others := MethodNames(before.methods), MethodNames(after.methods);
    var partner := Partner(names, others, n);
    forall j: nat ensures Mates(names, others, n, j) <==> partner == Some(j) {
      PartnerIff(names, others, n, j);
    }
    if partner.Some? {
      assert Mates(names, others, n, partner.value);
      MatchIff(sig, after.path, before.methods[n], after.methods[partner.value]);
    }
  }

  lemma NewMethodKnown(before: Record, after: Record, n: nat)
    requires n < |after.methods|
    ensures NewMethodEvents(before, after, n) == [] <==>
            HasMate(MethodNames(after.methods), MethodNames(before.methods), n)
  {
    var names, others := MethodNames(after.methods), MethodNames(before.methods);
    var partner := Partner(names, others, n);
    forall j: nat ensures Mates(names, others, n, j) <==> partner == Some(j) {
      PartnerIff(names, others, n, j);
    }
    if partner.Some? {
      assert Mates(names, others, n, partner.value);
    }
  }

  lemma OldsAgree(sig: TypeRef -> string, before: Record, after: Record)
    ensures Gathered(OldMethods(sig, before, after), |before.methods|) == [] <==>
            forall n: nat :: n < |before.methods| ==> OldAgrees(sig, before, after, n)
  {
    var olds := OldMethods(sig, before, after);
    GatheredNothing(olds, |before.methods|);
    forall n: nat | n < |before.methods| ensures olds(n) == [] <==> OldAgrees(sig, before, after, n) {
      OldMethodAgrees(sig, before, after, n);
    }
  }

  lemma NewsKnown(before: Record, after: Record)
    ensures Gathered(NewMethods(before, after), |after.methods|) == [] <==>
            forall n: nat :: n < |after.methods| ==> HasMate(MethodNames(after.methods), MethodNames(before.methods), n)
  {
    var news := NewMethods(before, after);
    GatheredNothing(news, |after.methods|);
    forall n: nat | n < |after.methods|
      ensures news(n) == [] <==> HasMate(MethodNames(after.methods), MethodNames(before.methods), n)
    {
      NewMethodKnown(before, after, n);
    }
  }

  lemma AgreeAsOne(sig: TypeRef -> string, before: Record, after: Record)
    ensures FunctionsAgree(sig, before, after) <==>
            && (forall n: nat :: n < |before.methods| ==> OldAgrees(sig, before, after, n))
            && (forall n: nat :: n < |after.methods| ==>
                HasMate(MethodNames(after.methods), MethodNames(before.methods), n))
  {
    if forall n: nat :: n < |before.methods| ==> OldAgrees(sig, before, after, n) {
      forall i: nat, j: nat | Mates(MethodNames(before.methods), MethodNames(after.methods), i, j)
        ensures MethodsMatch(sig, before.methods[i], after.methods[j])
      {
        assert OldAgrees(sig, before, after, i);
      }
      forall i: nat | i < |before.methods| ensures HasMate(MethodNames(before.methods), MethodNames(after.methods), i) {
        assert OldAgrees(sig, before, after, i);
      }
    }
  }

  /** Nothing is raised for the functions of a type if and only if they all have mates that match. */
  lemma FunctionsAgreeIff(sig: TypeRef -> string, before: Record, after: Record)
    ensures FunctionEvents(sig, before, after) == [] <==> FunctionsAgree(sig, before, after)
  {
    OldsAgree(sig, before, after);
    NewsKnown(before, after);
    AgreeAsOne(sig, before, after);
  }

  /** One type's functions. It says `unchanged` exactly when each has a mate on the other side that matches. */
  method DiffFunctions(emit: Differ, sig: TypeRef -> string, before: Record, after: Record) returns (same: bool)
    requires emit.Valid()
    modifies emit
    ensures emit.Valid() && emit.raised == old(emit.raised) + FunctionEvents(sig, before, after)
    ensures same <==> FunctionEvents(sig, before, after) == []
    ensures same <==> FunctionsAgree(sig, before, after)
  {
    Regroup(emit.raised, Gathered(OldMethods(sig, before, after), |before.methods|),
            Gathered(NewMethods(before, after), |after.methods|));
    var compared := CompareMethods(emit, sig, before, after, OldMethods(sig, before, after));
    var added := AddMethods(emit, before, after, NewMethods(before, after));
    same := compared && added;
    FunctionsAgreeIff(sig, before, after);
  }

  // ---------------------------------------------------------------- enums

  /** The value of a name among the first n: the last one, when names repeat. */
  function LastValue(values: seq<EnumValue>, n: nat, name: string): Option<int>
    requires n <= |values|
  {
    if n == 0 then None
    else if values[n - 1].name == name then Some(values[n - 1].value)
    else LastValue(values, n - 1, name)
  }

  function ValueOf(values: seq<EnumValue>, name: string): Option<int> { LastValue(values, |values|, name) }

  /** What the n-th of the old values raises. */
  function ValueEvents(before: EnumRecord, after: EnumRecord, n: nat): seq<Change> {
    if n >= |before.values| then [] else
    var v := before.values[n];
    match ValueOf(after.values, v.name)
    case None => [Raise(EnumValueRemoved, before.path, v.name, Number(v.value), Nothing)]
    case Some(now) => When(now != v.value, Raise(EnumValueChanged, after.path, v.name, Number(v.value), Number(now)))
  }

  /** What the n-th of the new values raises. */
  function NewValueEvents(before: EnumRecord, after: EnumRecord, n: nat): seq<Change> {
    if n >= |after.values| then [] else
    var v := after.values[n];
    When(ValueOf(before.values, v.name).None?, Raise(EnumValueAdded, after.path, v.name, Nothing, Number(v.value)))
  }

  function OldValues(before: EnumRecord, after: EnumRecord): nat -> seq<Change> {
    (n: nat) => ValueEvents(before, after, n)
  }

  function NewValues(before: EnumRecord, after: EnumRecord): nat -> seq<Change> {
    (n: nat) => NewValueEvents(before, after, n)
  }

  function EnumEvents(before: EnumRecord, after: EnumRecord): seq<Change> {
    Gathered(OldValues(before, after), |before.values|) + Gathered(NewValues(before, after), |after.values|)
  }

  function Known(byName: map<string, int>, name: string): Option<int> {
    if name in byName then Some(byName[name]) else None
  }

  /** The map a list of values leaves: later ones overwrite earlier ones. */
  method ValuesByName(values: seq<EnumValue>) returns (byName: map<string, int>)
    ensures forall name {:trigger Known(byName, name)} :: Known(byName, name) == ValueOf(values, name)
  {
    byName := map[];
    for n := 0 to |values|
      invariant forall name {:trigger Known(byName, name)} :: Known(byName, name) == LastValue(values, n, name)
    {
      ghost var before := byName;
      byName := byName[values[n].name := values[n].value];
      forall name {:trigger Known(byName, name)} ensures Known(byName, name) == LastValue(values, n + 1, name) {
        assert Known(before, name) == LastValue(values, n, name);
      }
    }
  }

  /** One enum. */
  method DiffEnum(emit: Differ, before: EnumRecord, after: EnumRecord)
    requires emit.Valid()
    modifies emit
    ensures emit.Valid() && emit.raised == old(emit.raised) + EnumEvents(before, after)
  {
    Regroup(emit.raised, Gathered(OldValues(before, after), |before.values|),
            Gathered(NewValues(before, after), |after.values|));
    var now := ValuesByName(after.values);
    CompareValues(emit, before, after, now);
    var was := ValuesByName(before.values);
    AddValues(emit, before, after, was);
  }

  method CompareValues(emit: Differ, before: EnumRecord, after: EnumRecord, now: map<string, int>)
    requires emit.Valid() && forall name {:trigger Known(now, name)} :: Known(now, name) == ValueOf(after.values, name)
    modifies emit
    ensures emit.Valid() && emit.raised == old(emit.raised) + Gathered(OldValues(before, after), |before.values|)
  {
    ghost var raises := OldValues(before, after);
    for n := 0 to |before.values|
      invariant emit.Valid() && emit.raised == old(emit.raised) + Gathered(raises, n)
    {
      GatheredMore(old(emit.raised), raises, n);
      var v := before.values[n];
      match Known(now, v.name)
      case None =>
        emit.Emit(EnumValueRemoved, before.path, v.name, Number(v.value), Nothing);
      case Some(value) =>
        var same := EmitWhen(emit, value != v.value, EnumValueChanged, after.path, v.name, Number(v.value),
                             Number(value));
    }
  }

  method AddValues(emit: Differ, before: EnumRecord, after: EnumRecord, was: map<string, int>)
    requires emit.Valid() && forall name {:trigger Known(was, name)} :: Known(was, name) == ValueOf(before.values, name)
    modifies emit
    ensures emit.Valid() && emit.raised == old(emit.raised) + Gathered(NewValues(before, after), |after.values|)
  {
    ghost var raises := NewValues(before, after);
    for n := 0 to |after.values|
      invariant emit.Valid() && emit.raised == old(emit.raised) + Gathered(raises, n)
    {
      GatheredMore(old(emit.raised), raises, n);
      var v := after.values[n];
      var same := EmitWhen(emit, Known(was, v.name).None?, EnumValueAdded, after.path, v.name, Nothing,
                           Number(v.value));
    }
  }

  // ---------------------------------------------------------------- against itself

  /** Diffed against itself a record raises nothing, duplicate names and all. */
  lemma SelfRecord(sig: TypeRef -> string, options: Options, r: Record)
    ensures PropertyEvents(sig, options, r, r) == [] && FunctionEvents(sig, r, r) == []
  {
    SelfUnpaired(PropertyNames(r.properties));
    SelfPairs(sig, r);
    NothingLost(sig, options, r, r);
    SelfFunctions(sig, r);
  }

  lemma SelfPairs(sig: TypeRef -> string, r: Record)
    ensures PairedEvents(sig, r, r, |r.properties|) == []
  {
    var pairs := PairsOf(sig, r, r);
    forall k: nat | k < |r.properties| ensures pairs(k) == [] {
      SelfPair(sig, r, k);
    }
    GatheredNothing(pairs, |r.properties|);
  }

  lemma SelfPair(sig: TypeRef -> string, r: Record, k: nat)
    requires k < |r.properties|
    ensures PairsOf(sig, r, r)(k) == []
  {
    SelfPartner(PropertyNames(r.properties), k);
  }

  lemma SelfFunctions(sig: TypeRef -> string, r: Record)
    ensures FunctionEvents(sig, r, r) == []
  {
    forall k: nat | k < |r.methods| ensures OldMethods(sig, r, r)(k) == [] && NewMethods(r, r)(k) == [] {
      SelfPartner(MethodNames(r.methods), k);
    }
    GatheredNothing(OldMethods(sig, r, r), |r.methods|);
    GatheredNothing(NewMethods(r, r), |r.methods|);
  }

  lemma SelfUnpaired(names: seq<string>)
    ensures Unpaired(names, names) == []
  {
    forall i: nat | i < |names| ensures Partners(names, names)[i].Some? {
      SelfPartner(names, i);
    }
    var u := Nones(Partners(names, names));
    if u != [] {
      NonesAre(Partners(names, names), u[0]);
    }
  }

  /** A name that repeats in an enum repeats its value. */
  ghost predicate Repeats(values: seq<EnumValue>) {
    forall i, j :: 0 <= i < j < |values| && values[i].name == values[j].name ==> values[i].value == values[j].value
  }

  lemma {:induction false} LastValueIs(values: seq<EnumValue>, n: nat, i: nat)
    requires i < n <= |values|
    ensures LastValue(values, n, values[i].name).Some?
    ensures exists j :: i <= j < n && values[j].name == values[i].name && LastValue(values, n,
            values[i].name) == Some(values[j].value)
    decreases n
  {
    if values[n - 1].name != values[i].name {
      LastValueIs(values, n - 1, i);
    }
  }

  /** Diffed against itself an enum raises nothing if and only if its repeated names repeat their values. */
  lemma SelfEnum(e: EnumRecord)
    ensures EnumEvents(e, e) == [] <==> Repeats(e.values)
  {
    var raises, adds := OldValues(e, e), NewValues(e, e);
    GatheredNothing(raises, |e.values|);
    GatheredNothing(adds, |e.values|);
    forall i: nat | i < |e.values|
      ensures adds(i) == [] && (raises(i) == [] <==> ValueOf(e.values, e.values[i].name) == Some(e.values[i].value))
    {
      LastValueIs(e.values, |e.values|, i);
    }
    if Repeats(e.values) {
      forall i: nat | i < |e.values| ensures raises(i) == [] {
        LastValueIs(e.values, |e.values|, i);
      }
    }
    if forall i :: 0 <= i < |e.values| ==> raises(i) == [] {
      forall i, j | 0 <= i < j < |e.values| && e.values[i].name == e.values[j].name
        ensures e.values[i].value == e.values[j].value
      {
        assert raises(i) == [] && raises(j) == [];
      }
    }
  }
}
