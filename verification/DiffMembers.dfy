/** What the diff raises for one type, one function list, one enum: changes by what they break. */
module DiffMembers {
  import opened Common
  import opened Ir
  import opened DiffPairing

  datatype Severity = Info | Low | Medium | High | Critical

  function Rank(s: Severity): nat {
    match s
    case Info => 0
    case Low => 1
    case Medium => 2
    case High => 3
    case Critical => 4
  }

  datatype ChangeKind =
    | PackageAdded | PackageRemoved
    | TypeAdded | TypeRemoved | TypeResized | TypeRealigned | TypeSuperChanged
    | PropertyAdded | PropertyRemoved | PropertyMoved | PropertyResized
    | PropertyTypeChanged | PropertyFlagsChanged | PropertyBitMoved | PropertyRenamed
    | PropertyDefaultChanged
    | FunctionAdded | FunctionRemoved | FunctionSignatureChanged | FunctionMoved
    | FunctionFlagsChanged
    | EnumAdded | EnumRemoved | EnumValueAdded | EnumValueRemoved | EnumValueChanged
    | EngineVersionChanged | LayoutOffsetChanged

  /** How loudly a change is reported: by what it breaks. */
  function DefaultSeverity(kind: ChangeKind): Severity {
    match kind
    case PropertyMoved | PropertyResized | PropertyTypeChanged | PropertyBitMoved | PropertyRemoved
       | TypeRemoved | FunctionRemoved => Critical
    case TypeResized | TypeSuperChanged | FunctionMoved | FunctionSignatureChanged | EnumValueChanged
       | EnumValueRemoved | PackageRemoved | EnumRemoved => High
    case TypeRealigned | PropertyRenamed | EngineVersionChanged | LayoutOffsetChanged => Medium
    case PropertyFlagsChanged | FunctionFlagsChanged | PropertyDefaultChanged => Low
    case PackageAdded | TypeAdded | PropertyAdded | FunctionAdded | EnumAdded | EnumValueAdded => Info
  }

  predicate IsAddition(kind: ChangeKind) {
    kind.TypeAdded? || kind.PropertyAdded? || kind.FunctionAdded? || kind.EnumAdded? || kind.EnumValueAdded?
        || kind.PackageAdded?
  }

  /** A value a change shows, before its formatting. */
  datatype Shown = Nothing | Number(n: int) | Words(text: string) | Bits(index: int, mask: nat)

  datatype Change = Change(kind: ChangeKind, severity: Severity, path: string, member: string, before: Shown,
                           after: Shown)

  datatype Options = Options(packageFilter: string, includeAdditions: bool, minimum: Severity, detectRenames: bool)

  predicate Reported(options: Options, kind: ChangeKind) {
    Rank(DefaultSeverity(kind)) >= Rank(options.minimum) && (options.includeAdditions || !IsAddition(kind))
  }

  function Raise(kind: ChangeKind, path: string, member: string, before: Shown, after: Shown): Change {
    Change(kind, DefaultSeverity(kind), path, member, before, after)
  }

  /** What is left of the first n changes raised after the options' filters. */
  function KeptOf(options: Options, raised: seq<Change>, n: nat): seq<Change>
    requires n <= |raised|
  {
    if n == 0 then [] else
    KeptOf(options, raised, n - 1) + (if Reported(options, raised[n - 1].kind) then [raised[n - 1]] else [])
  }

  ghost function OfKind(changes: seq<Change>, n: nat, kind: ChangeKind): nat
    requires n <= |changes|
  {
    if n == 0 then 0 else OfKind(changes, n - 1, kind) + (if changes[n - 1].kind == kind then 1 else 0)
  }

  ghost function OfSeverity(changes: seq<Change>, n: nat, severity: Severity): nat
    requires n <= |changes|
  {
    if n == 0 then 0 else OfSeverity(changes, n - 1, severity) + (if changes[n - 1].severity == severity then 1 else 0)
  }

  lemma {:induction false} CountsStand(changes: seq<Change>, more: seq<Change>, n: nat, kind: ChangeKind,
                                       severity: Severity)
    requires n <= |changes|
    ensures OfKind(changes + more, n, kind) == OfKind(changes, n, kind)
    ensures OfSeverity(changes + more, n, severity) == OfSeverity(changes, n, severity)
  {
    if n > 0 {
      CountsStand(changes, more, n - 1, kind, severity);
    }
  }

  /** The tallies count the changes by severity and by kind. */
  ghost predicate Tallied(changes: seq<Change>, bySeverity: map<Severity, nat>, byKind: map<ChangeKind, nat>) {
    && (forall s :: Count(bySeverity, s) == OfSeverity(changes, |changes|, s))
    && (forall k :: Count(byKind, k) == OfKind(changes, |changes|, k))
  }

  lemma TalliedMore(changes: seq<Change>, bySeverity: map<Severity, nat>, byKind: map<ChangeKind, nat>, c: Change)
    requires Tallied(changes, bySeverity, byKind)
    ensures Tallied(changes + [c], bySeverity[c.severity := Count(bySeverity, c.severity) + 1],
                    byKind[c.kind := Count(byKind, c.kind) + 1])
  {
    var severities, kinds := bySeverity[c.severity := Count(bySeverity, c.severity) + 1],
        byKind[c.kind := Count(byKind, c.kind) + 1];
    forall s ensures Count(severities, s) == OfSeverity(changes + [c], |changes| + 1, s) {
      CountsStand(changes, [c], |changes|, c.kind, s);
      assert Count(bySeverity, s) == OfSeverity(changes, |changes|, s);
    }
    forall k ensures Count(kinds, k) == OfKind(changes + [c], |changes| + 1, k) {
      CountsStand(changes, [c], |changes|, k, c.severity);
      assert Count(byKind, k) == OfKind(changes, |changes|, k);
    }
  }

  lemma Regroup(a: seq<Change>, b: seq<Change>, c: seq<Change>)
    ensures a + b + c == a + (b + c)
  {
  }

  function Count<K>(tally: map<K, nat>, key: K): nat { if key in tally then tally[key] else 0 }

  /** The changes kept, and how many there are of each severity and kind. */
  datatype Report = Report(changes: seq<Change>, bySeverity: map<Severity, nat>, byKind: map<ChangeKind, nat>)

  /** One change: dropped by the filters, or counted and kept. */
  function Recorded(options: Options, r: Report, c: Change): Report {
    if !Reported(options, c.kind) then r
    else Report(r.changes + [c], r.bySeverity[c.severity := Count(r.bySeverity, c.severity) + 1],
                r.byKind[c.kind := Count(r.byKind, c.kind) + 1])
  }

  /** The report after the first n changes raised. */
  function ReportOf(options: Options, raised: seq<Change>, n: nat): Report
    requires n <= |raised|
  {
    if n == 0 then Report([], map[], map[]) else Recorded(options, ReportOf(options, raised, n - 1), raised[n - 1])
  }

  lemma {:induction false} ReportStands(options: Options, raised: seq<Change>, more: seq<Change>, n: nat)
    requires n <= |raised|
    ensures ReportOf(options, raised + more, n) == ReportOf(options, raised, n)
  {
    if n > 0 {
      ReportStands(options, raised, more, n - 1);
    }
  }

  /** One more change raised is one more recorded. */
  lemma RecordedNext(options: Options, raised: seq<Change>, c: Change, r: Report)
    requires r == ReportOf(options, raised, |raised|)
    ensures ReportOf(options, raised + [c], |raised + [c]|) == Recorded(options, r, c)
  {
    ReportStands(options, raised, [c], |raised|);
  }

  /** The report holds what the filters leave, in order, and its counts count it. */
  lemma {:induction false} ReportCounts(options: Options, raised: seq<Change>, n: nat)
    requires n <= |raised|
    ensures var r := ReportOf(options, raised, n);
            r.changes == KeptOf(options, raised, n) && Tallied(r.changes, r.bySeverity, r.byKind)
  {
    if n > 0 {
      ReportCounts(options, raised, n - 1);
      var r := ReportOf(options, raised, n - 1);
      TalliedMore(r.changes, r.bySeverity, r.byKind, raised[n - 1]);
    }
  }

  /** The report under construction. */
  class Differ {
    const options: Options
    var changes: seq<Change>
    var bySeverity: map<Severity, nat>
    var byKind: map<ChangeKind, nat>
    /** Every change raised, kept or not. */
    ghost var raised: seq<Change>

    ghost predicate Valid()
      reads this
    {
      Report(changes, bySeverity, byKind) == ReportOf(options, raised, |raised|)
    }

    constructor (options: Options)
      ensures Valid() && this.options == options && raised == []
    {
      this.options := options;
      changes, bySeverity, byKind := [], map[], map[];
      raised := [];
    }

    method Emit(kind: ChangeKind, path: string, member: string, before: Shown, after: Shown)
      requires Valid()
      modifies this
      ensures Valid() && raised == old(raised) + [Raise(kind, path, member, before, after)]
    {
      var change := Raise(kind, path, member, before, after);
      RecordedNext(options, raised, change, Report(changes, bySeverity, byKind));
      raised := raised + [change];
      if Rank(change.severity) < Rank(options.minimum) { return; }
      if !options.includeAdditions && IsAddition(kind) { return; }
      Record(change);
    }

    /** A change that no filter drops. */
    method Record(change: Change)
      modifies `bySeverity, `byKind, `changes
      ensures Report(changes, bySeverity, byKind) ==
              Report(old(changes) + [change],
                     old(bySeverity)[change.severity := Count(old(bySeverity), change.severity) + 1],
                     old(byKind)[change.kind := Count(old(byKind), change.kind) + 1])
    {
      bySeverity := bySeverity[change.severity := Count(bySeverity, change.severity) + 1];
      byKind := byKind[change.kind := Count(byKind, change.kind) + 1];
      changes := changes + [change];
    }
  }

  // ---------------------------------------------------------------- properties

  function PropertyNames(properties: seq<Property>): (names: seq<string>)
    ensures |names| == |properties|
  {
    seq(|properties|, i requires 0 <= i < |properties| => properties[i].name)
  }

  function When(b: bool, c: Change): seq<Change> { if b then [c] else [] }

  /** What differs between a property and its partner: where it is and what, then how it reads. */
  function Differences(sig: TypeRef -> string, path: string, p: Property, now: Property): seq<Change> {
    LayoutDifferences(sig, path, p, now) + DetailDifferences(path, p, now)
  }

  function LayoutDifferences(sig: TypeRef -> string, path: string, p: Property, now: Property): seq<Change> {
    When(p.offset != now.offset, Raise(PropertyMoved, path, p.name, Number(p.offset), Number(now.offset)))
    + When(p.size != now.size, Raise(PropertyResized, path, p.name, Number(p.size), Number(now.size)))
    + When(sig(p.ty) != sig(now.ty), Raise(PropertyTypeChanged, path, p.name, Words(sig(p.ty)), Words(sig(now.ty))))
  }

  predicate BitMoved(p: Property, now: Property) {
    p.isBitfield && now.isBitfield && (p.bitIndex != now.bitIndex || p.fieldMask != now.fieldMask)
  }

  predicate DefaultChanged(p: Property, now: Property) {
    p.defaultValue != "" && now.defaultValue != "" && p.defaultValue != now.defaultValue
  }

  function DetailDifferences(path: string, p: Property, now: Property): seq<Change> {
    When(BitMoved(p, now), Raise(PropertyBitMoved, path, p.name, Bits(p.bitIndex, p.fieldMask),
                                 Bits(now.bitIndex, now.fieldMask)))
    + When(p.flags != now.flags, Raise(PropertyFlagsChanged, path, p.name, Number(p.flags), Number(now.flags)))
    + When(DefaultChanged(p, now), Raise(PropertyDefaultChanged, path, p.name, Words(p.defaultValue),
                                         Words(now.defaultValue)))
  }

  /** Nothing differs between the two: defaults and bits count when both sides have them. */
  predicate Agree(sig: TypeRef -> string, p: Property, now: Property) {
    && p.offset == now.offset && p.size == now.size && sig(p.ty) == sig(now.ty) && p.flags == now.flags
    && (p.isBitfield && now.isBitfield ==> p.bitIndex == now.bitIndex && p.fieldMask == now.fieldMask)
    && (p.defaultValue != "" && now.defaultValue != "" ==> p.defaultValue == now.defaultValue)
  }

  lemma AgreeIff(sig: TypeRef -> string, path: string, p: Property, now: Property)
    ensures Differences(sig, path, p, now) == [] <==> Agree(sig, p, now)
  {
  }

  /** The differences of the n-th property and its partner. */
  function PairEvents(sig: TypeRef -> string, before: Record, after: Record, n: nat): seq<Change>
    requires n < |before.properties|
  {
    match Partner(PropertyNames(before.properties), PropertyNames(after.properties), n)
    case None => []
    case Some(j) =>
      if j < |after.properties| then Differences(sig, after.path, before.properties[n], after.properties[j]) else []
  }

  /** What the first n of something raise, one after the other. */
  function Gathered(raises: nat -> seq<Change>, n: nat): seq<Change> {
    if n == 0 then [] else Gathered(raises, n - 1) + raises(n - 1)
  }

  lemma GatheredMore(start: seq<Change>, raises: nat -> seq<Change>, n: nat)
    ensures start + Gathered(raises, n) + raises(n) == start + Gathered(raises, n + 1)
    ensures Gathered(raises, n + 1) == [] <==> Gathered(raises, n) == [] && raises(n) == []
  {
    Regroup(start, Gathered(raises, n), raises(n));
  }

  /** The changes raised grow by what one more of something raises. */
  lemma GatheredOn(start: seq<Change>, raises: nat -> seq<Change>, n: nat, was: seq<Change>, now: seq<Change>)
    requires was == start + Gathered(raises, n) && now == was + raises(n)
    ensures now == start + Gathered(raises, n + 1)
  {
    GatheredMore(start, raises, n);
  }

  lemma GatheredNone(raises: nat -> seq<Change>, n: nat)
    ensures Gathered(raises, n + 1) == [] <==> Gathered(raises, n) == [] && raises(n) == []
  {
  }

  lemma {:induction false} GatheredNothing(raises: nat -> seq<Change>, n: nat)
    ensures Gathered(raises, n) == [] <==> forall k :: 0 <= k < n ==> raises(k) == []
  {
    if n > 0 {
      GatheredNothing(raises, n - 1);
    }
  }

  function PairsOf(sig: TypeRef -> string, before: Record, after: Record): nat -> seq<Change> {
    (n: nat) => if n < |before.properties| then PairEvents(sig, before, after, n) else []
  }

  /** The differences of the first n properties that have a partner. */
  function PairedEvents(sig: TypeRef -> string, before: Record, after: Record, n: nat): seq<Change>
    requires n <= |before.properties|
  {
    Gathered(PairsOf(sig, before, after), n)
  }

  /** What makes a vanished and a new property one that was renamed. */
  function RenameKey(sig: TypeRef -> string, p: Property): (int, string) { (p.offset, sig(p.ty)) }

  function RenameKeys(sig: TypeRef -> string, properties: seq<Property>, at: seq<nat>): (keys: seq<(int, string)>)
    requires forall k :: 0 <= k < |at| ==> at[k] < |properties|
    ensures |keys| == |at|
  {
    seq(|at|, i requires 0 <= i < |at| => RenameKey(sig, properties[at[i]]))
  }

  /** The renames found among the first n that vanished. */
  function Renames(sig: TypeRef -> string, options: Options, before: Record, after: Record,
                   n: nat): (matches: seq<Option<nat>>)
    requires n <= |Vanished(before, after)|
    ensures |matches| == n
  {
    if options.detectRenames
    then Greedy(RenameKeys(sig, before.properties, Vanished(before, after)),
                RenameKeys(sig, after.properties, Appeared(before, after)), n)
    else seq(n, _ => None)
  }

  function Vanished(before: Record, after: Record): (at: seq<nat>)
    ensures forall k :: 0 <= k < |at| ==> at[k] < |before.properties|
  {
    Unpaired(PropertyNames(before.properties), PropertyNames(after.properties))
  }

  function Appeared(before: Record, after: Record): (at: seq<nat>)
    ensures forall k :: 0 <= k < |at| ==> at[k] < |after.properties|
  {
    Unpaired(PropertyNames(after.properties), PropertyNames(before.properties))
  }

  /** What one vanished property is raised as. */
  function GoneEvent(before: Record, after: Record, at: nat, hit: Option<nat>): seq<Change>
    requires at < |Vanished(before, after)|
  {
    var gone, appeared := before.properties[Vanished(before, after)[at]], Appeared(before, after);
    match hit
    case None => [Raise(PropertyRemoved, before.path, gone.name, Number(gone.offset), Nothing)]
    case Some(m) =>
      if m < |appeared|
      then [Raise(PropertyRenamed, after.path, gone.name, Words(gone.name), Words(after.properties[appeared[m]].name))]
      else []
  }

  /** The first n vanished properties, as renamed or removed. */
  function GoneEvents(before: Record, after: Record, matches: seq<Option<nat>>, n: nat): seq<Change>
    requires n <= |matches| <= |Vanished(before, after)|
  {
    if n == 0 then [] else GoneEvents(before, after, matches, n - 1) + GoneEvent(before, after, n - 1, matches[n - 1])
  }

  /** New properties that nothing was renamed to. */
  function NewEvents(before: Record, after: Record, taken: set<nat>, n: nat): seq<Change>
    requires n <= |Appeared(before, after)|
  {
    if n == 0 then [] else
    var now := after.properties[Appeared(before, after)[n - 1]];
    NewEvents(before, after, taken, n - 1)
    + When(n - 1 !in taken, Raise(PropertyAdded, after.path, now.name, Nothing, Number(now.offset)))
  }

  function PropertyEvents(sig: TypeRef -> string, options: Options, before: Record, after: Record): seq<Change> {
    var matches := Renames(sig, options, before, after, |Vanished(before, after)|);
    PairedEvents(sig, before, after, |before.properties|)
    + GoneEvents(before, after, matches, |matches|)
    + NewEvents(before, after, Taken(matches), |Appeared(before, after)|)
  }

  /** The places of each name among the first n, as the maps by name hold them. */
  ghost predicate IndexedTo(names: seq<string>, n: nat, byName: map<string, seq<nat>>)
    requires n <= |names|
  {
    forall name {:trigger At(byName, name)} :: At(byName, name) == Positions(names, n, name)
  }

  function At(byName: map<string, seq<nat>>, name: string): seq<nat> { if name in byName then byName[name] else [] }

  /** One more place for a name. */
  function Listing(byName: map<string, seq<nat>>, name: string, n: nat): map<string, seq<nat>> {
    byName[name := At(byName, name) + [n]]
  }

  lemma IndexedMore(names: seq<string>, n: nat, byName: map<string, seq<nat>>)
    requires n < |names| && IndexedTo(names, n, byName)
    ensures IndexedTo(names, n + 1, Listing(byName, names[n], n))
  {
    var more := Listing(byName, names[n], n);
    forall name {:trigger At(more, name)} ensures At(more, name) == Positions(names, n + 1, name) {
      assert At(byName, name) == Positions(names, n, name);
    }
  }

  lemma IndexedNone(names: seq<string>)
    ensures IndexedTo(names, 0, map[])
  {
  }

  method IndexByName(names: seq<string>) returns (byName: map<string, seq<nat>>)
    ensures IndexedTo(names, |names|, byName)
  {
    byName := map[];
    IndexedNone(names);
    for n := 0 to |names|
      invariant IndexedTo(names, n, byName)
    {
      IndexedMore(names, n, byName);
      byName := Listing(byName, names[n], n);
    }
  }

  // ---------------------------------------------------------------- the property pass

  /** The occurrences counted so far. */
  ghost predicate Counted(names: seq<string>, n: nat, taken: map<string, nat>)
    requires n <= |names|
  {
    forall name {:trigger Count(taken, name)} :: Count(taken, name) == |Positions(names, n, name)|
  }

  /** The partner of the i-th member, by the map of names and the occurrence counted. */
  method FindPartner(names: seq<string>, i: nat, others: seq<string>, byName: map<string, seq<nat>>,
                     taken: map<string, nat>)
    returns (partner: Option<nat>, next: map<string, nat>)
    requires i < |names| && IndexedTo(others, |others|, byName) && Counted(names, i, taken)
    ensures partner == Partner(names, others, i) && Counted(names, i + 1, next)
  {
    var name := names[i];
    var occurrence := Count(taken, name);
    next := taken[name := occurrence + 1];
    var candidates := At(byName, name);
    assert candidates == Positions(others, |others|, name);
    assert occurrence == |Positions(names, i, name)|;
    partner := if occurrence < |candidates| then Some(candidates[occurrence]) else None;
    forall other {:trigger Count(next, other)} ensures Count(next, other) == |Positions(names, i + 1, other)| {
      assert Count(taken, other) == |Positions(names, i, other)|;
    }
  }

  lemma NonesMore(ps: seq<Option<nat>>, n: nat)
    requires n < |ps|
    ensures Nones(ps[..n + 1]) == Nones(ps[..n]) + (if ps[n].None? then [n] else [])
  {
    assert ps[..n + 1][..n] == ps[..n];
  }

  /** One change, raised when there is one. */
  method EmitWhen(emit: Differ, differs: bool, kind: ChangeKind, path: string, member: string, before: Shown,
                  after: Shown)
    returns (same: bool)
    requires emit.Valid()
    modifies emit
    ensures emit.Valid() && emit.raised == old(emit.raised) + When(differs, Raise(kind, path, member, before, after))
    ensures same == !differs
  {
    same := !differs;
    if differs {
      emit.Emit(kind, path, member, before, after);
    }
  }

  method CompareLayout(emit: Differ, sig: TypeRef -> string, path: string, p: Property, now: Property)
    returns (same: bool)
    requires emit.Valid()
    modifies emit
    ensures emit.Valid() && emit.raised == old(emit.raised) + LayoutDifferences(sig, path, p, now)
    ensures same <==> LayoutDifferences(sig, path, p, now) == []
  {
    var moved := EmitWhen(emit, p.offset != now.offset, PropertyMoved, path, p.name, Number(p.offset),
                          Number(now.offset));
    var resized := EmitWhen(emit, p.size != now.size, PropertyResized, path, p.name, Number(p.size), Number(now.size));
    var typed := EmitWhen(emit, sig(p.ty) != sig(now.ty), PropertyTypeChanged, path, p.name, Words(sig(p.ty)),
                          Words(sig(now.ty)));
    same := moved && resized && typed;
  }

  method CompareDetail(emit: Differ, path: string, p: Property, now: Property) returns (same: bool)
    requires emit.Valid()
    modifies emit
    ensures emit.Valid() && emit.raised == old(emit.raised) + DetailDifferences(path, p, now)
    ensures same <==> DetailDifferences(path, p, now) == []
  {
    var bits := EmitWhen(emit, BitMoved(p, now), PropertyBitMoved,
                         path, p.name, Bits(p.bitIndex, p.fieldMask), Bits(now.bitIndex, now.fieldMask));
    var flags := EmitWhen(emit, p.flags != now.flags, PropertyFlagsChanged, path, p.name, Number(p.flags),
                          Number(now.flags));
    var defaulted := EmitWhen(emit, DefaultChanged(p, now), PropertyDefaultChanged,
                              path, p.name, Words(p.defaultValue), Words(now.defaultValue));
    same := bits && flags && defaulted;
  }

  /** The differences of one pair, raised. */
  method Compare(emit: Differ, sig: TypeRef -> string, path: string, p: Property, now: Property) returns (same: bool)
    requires emit.Valid()
    modifies emit
    ensures emit.Valid() && emit.raised == old(emit.raised) + Differences(sig, path, p, now)
    ensures same <==> Differences(sig, path, p, now) == []
  {
    Regroup(emit.raised, LayoutDifferences(sig, path, p, now), DetailDifferences(path, p, now));
    var layout := CompareLayout(emit, sig, path, p, now);
    var detail := CompareDetail(emit, path, p, now);
    same := layout && detail;
  }

  /** The n-th of the old properties: compared with its partner, or vanished. */
  method CompareNth(emit: Differ, sig: TypeRef -> string, before: Record, after: Record, n: nat, partner: Option<nat>)
    returns (same: bool)
    requires emit.Valid() && n < |before.properties|
    requires partner == Partner(PropertyNames(before.properties), PropertyNames(after.properties), n)
    requires partner.Some? ==> partner.value < |after.properties|
    modifies emit
    ensures emit.Valid() && emit.raised == old(emit.raised) + PairEvents(sig, before, after, n)
    ensures same <==> partner.Some? && PairEvents(sig, before, after, n) == []
  {
    match partner
    case None =>
      same := false;
    case Some(j) =>
      same := Compare(emit, sig, after.path, before.properties[n], after.properties[j]);
  }

  /** The pass over the old properties: pairs compared, the rest vanished. */
  method ComparePaired(emit: Differ, sig: TypeRef -> string, before: Record, after: Record)
    returns (vanished: seq<nat>, same: bool)
    requires emit.Valid()
    modifies emit
    ensures emit.Valid() && emit.raised == old(emit.raised) + PairedEvents(sig, before, after, |before.properties|)
    ensures vanished == Vanished(before, after)
    ensures same <==> PairedEvents(sig, before, after, |before.properties|) == [] && vanished == []
  {
    var names, others := PropertyNames(before.properties), PropertyNames(after.properties);
    var byName := IndexByName(others);
    var taken: map<string, nat> := map[];
    ghost var ps := Partners(names, others);
    vanished, same := [], true;
    for n := 0 to |before.properties|
      invariant emit.Valid() && emit.raised == old(emit.raised) + PairedEvents(sig, before, after, n)
      invariant vanished == Nones(ps[..n]) && Counted(names, n, taken)
      invariant same <==> PairedEvents(sig, before, after, n) == [] && vanished == []
    {
      NonesMore(ps, n);
      var partner;
      partner, taken := FindPartner(names, n, others, byName, taken);
      if partner.Some? {
        PartnerSymmetric(names, others, n);
      } else {
        vanished := vanished + [n];
      }
      GatheredMore(old(emit.raised), PairsOf(sig, before, after), n);
      var alike := CompareNth(emit, sig, before, after, n, partner);
      same := same && alike;
    }
    assert ps[..|ps|] == ps;
  }

  /** The pass over the new properties: those past the old ones of their name appeared. */
  method FindAppeared(before: Record, after: Record) returns (appeared: seq<nat>)
    ensures appeared == Appeared(before, after)
  {
    var names, others := PropertyNames(after.properties), PropertyNames(before.properties);
    var byName := IndexByName(others);
    var seen: map<string, nat> := map[];
    ghost var ps := Partners(names, others);
    appeared := [];
    for n := 0 to |after.properties|
      invariant appeared == Nones(ps[..n]) && Counted(names, n, seen)
    {
      NonesMore(ps, n);
      var partner;
      partner, seen := FindPartner(names, n, others, byName, seen);
      if partner.None? {
        appeared := appeared + [n];
      }
    }
    assert ps[..|ps|] == ps;
  }

  /** The first appeared property, from one on, that the vanished one can have been renamed to. */
  method FindRename(sig: TypeRef -> string, gone: Property, appeared: seq<Property>, taken: set<nat>,
                    ghost keys: seq<(int, string)>)
    returns (match_: Option<nat>)
    requires |keys| == |appeared|
    requires forall i {:trigger keys[i]} :: 0 <= i < |keys| ==> keys[i] == RenameKey(sig, appeared[i])
    ensures match_ == FirstFree(keys, RenameKey(sig, gone), taken, 0)
  {
    var i := 0;
    while i < |appeared|
      invariant 0 <= i <= |appeared|
      invariant FirstFree(keys, RenameKey(sig, gone), taken, 0) == FirstFree(keys, RenameKey(sig, gone), taken, i)
    {
      assert keys[i] == RenameKey(sig, appeared[i]);
      if i !in taken && appeared[i].offset == gone.offset && sig(appeared[i].ty) == sig(gone.ty) {
        return Some(i);
      }
      i := i + 1;
    }
    match_ := None;
  }

  lemma GoneMore(start: seq<Change>, before: Record, after: Record, matches: seq<Option<nat>>, hit: Option<nat>)
    requires |matches| < |Vanished(before, after)|
    ensures var n := |matches|;
            start + GoneEvents(before, after, matches, n) + GoneEvent(before, after, n, hit)
            == start + GoneEvents(before, after, matches + [hit], n + 1)
  {
    GoneStand(before, after, matches, hit, |matches|);
    Regroup(start, GoneEvents(before, after, matches, |matches|), GoneEvent(before, after, |matches|, hit));
  }

  lemma {:induction false} GoneStand(before: Record, after: Record, matches: seq<Option<nat>>, hit: Option<nat>, n: nat)
    requires n <= |matches| < |Vanished(before, after)|
    ensures GoneEvents(before, after, matches + [hit], n) == GoneEvents(before, after, matches, n)
  {
    if n > 0 {
      GoneStand(before, after, matches, hit, n - 1);
    }
  }

  /** One vanished property: renamed, or removed. */
  method EmitGone(emit: Differ, before: Record, after: Record, at: nat, hit: Option<nat>)
    requires emit.Valid() && at < |Vanished(before, after)| && (hit.Some? ==> hit.value < |Appeared(before, after)|)
    modifies emit
    ensures emit.Valid() && emit.raised == old(emit.raised) + GoneEvent(before, after, at, hit)
  {
    var gone := before.properties[Vanished(before, after)[at]];
    match hit
    case None =>
      emit.Emit(PropertyRemoved, before.path, gone.name, Number(gone.offset), Nothing);
    case Some(m) =>
      emit.Emit(PropertyRenamed, after.path, gone.name, Words(gone.name),
                Words(after.properties[Appeared(before, after)[m]].name));
  }

  /** The new property a vanished one is renamed to, when renames are looked for. */
  method FindHit(emit: Differ, sig: TypeRef -> string, before: Record, after: Record, appeared: seq<Property>,
                 n: nat, taken: set<nat>)
    returns (hit: Option<nat>)
    requires n < |Vanished(before, after)| && |appeared| == |Appeared(before, after)|
    requires forall i {:trigger appeared[i]} :: 0 <= i < |appeared| ==>
               appeared[i] == after.properties[Appeared(before, after)[i]]
    ensures hit == if emit.options.detectRenames
                   then FirstFree(RenameKeys(sig, after.properties, Appeared(before, after)),
                                  RenameKeys(sig, before.properties, Vanished(before, after))[n], taken, 0)
                   else None
  {
    ghost var keys := RenameKeys(sig, after.properties, Appeared(before, after));
    hit := None;
    if emit.options.detectRenames {
      hit := FindRename(sig, before.properties[Vanished(before, after)[n]], appeared, taken, keys);
    }
  }

  /** The n-th vanished property, with the rename found for it, if any. */
  method EmitVanishedNth(emit: Differ, sig: TypeRef -> string, before: Record, after: Record, appeared: seq<Property>,
                         n: nat, taken: set<nat>,
                         ghost matches: seq<Option<nat>>, ghost start: seq<Change>)
    returns (hit: Option<nat>, next: set<nat>)
    requires emit.Valid() && n < |Vanished(before, after)| && matches == Renames(sig, emit.options, before, after, n)
             && taken == Taken(matches)
    requires emit.raised == start + GoneEvents(before, after, matches, n)
    requires |appeared| == |Appeared(before, after)|
    requires forall i {:trigger appeared[i]} :: 0 <= i < |appeared| ==>
               appeared[i] == after.properties[Appeared(before, after)[i]]
    modifies emit
    ensures emit.Valid() && emit.raised == start + GoneEvents(before, after, matches + [hit], n + 1)
    ensures Renames(sig, emit.options, before, after, n + 1) == matches + [hit] && next == Taken(matches + [hit])
  {
    hit := FindHit(emit, sig, before, after, appeared, n, taken);
    RenamesMore(sig, emit.options, before, after, n, matches, hit);
    TakenMore(matches, hit);
    next := taken + (if hit.Some? then {hit.value} else {});
    GoneMore(start, before, after, matches, hit);
    EmitGone(emit, before, after, n, hit);
  }

  /** The pass over what vanished, finding renames when asked to. */
  method EmitVanished(emit: Differ, sig: TypeRef -> string, before: Record, after: Record, vanished: seq<nat>,
                      appeared: seq<nat>)
    returns (taken: set<nat>)
    requires emit.Valid() && vanished == Vanished(before, after) && appeared == Appeared(before, after)
    modifies emit
    ensures emit.Valid()
    ensures var matches := Renames(sig, emit.options, before, after, |vanished|);
            emit.raised == old(emit.raised) + GoneEvents(before, after, matches, |vanished|) && taken == Taken(matches)
  {
    var candidates := seq(|appeared|, i requires 0 <= i < |appeared| => after.properties[appeared[i]]);
    ghost var matches: seq<Option<nat>> := [];
    taken := {};
    for n := 0 to |vanished|
      invariant emit.Valid() && matches == Renames(sig, emit.options, before, after, n)
      invariant emit.raised == old(emit.raised) + GoneEvents(before, after, matches, n)
      invariant taken == Taken(matches)
    {
      var hit;
      hit, taken := EmitVanishedNth(emit, sig, before, after, candidates, n, taken, matches, old(emit.raised));
      matches := matches + [hit];
    }
  }

  lemma RenamesMore(sig: TypeRef -> string, options: Options, before: Record, after: Record, n: nat,
                    matches: seq<Option<nat>>, hit: Option<nat>)
    requires n < |Vanished(before, after)| && matches == Renames(sig, options, before, after, n)
    requires var keys := RenameKeys(sig, after.properties, Appeared(before, after));
             hit == if options.detectRenames
                    then FirstFree(keys, RenameKeys(sig, before.properties, Vanished(before, after))[n],
                                   Taken(matches), 0)
                    else None
    ensures Renames(sig, options, before, after, n + 1) == matches + [hit]
  {
  }

  lemma NewMore(start: seq<Change>, before: Record, after: Record, taken: set<nat>, n: nat)
    requires n < |Appeared(before, after)|
    ensures var now := after.properties[Appeared(before, after)[n]];
            start + NewEvents(before, after, taken, n)
                + When(n !in taken, Raise(PropertyAdded, after.path, now.name, Nothing, Number(now.offset)))
            == start + NewEvents(before, after, taken, n + 1)
  {
    var now := after.properties[Appeared(before, after)[n]];
    Regroup(start, NewEvents(before, after, taken, n),
            When(n !in taken, Raise(PropertyAdded, after.path, now.name, Nothing, Number(now.offset))));
  }

  /** The pass over what appeared and nothing was renamed to. */
  method EmitAppeared(emit: Differ, before: Record, after: Record, appeared: seq<nat>, taken: set<nat>)
    requires emit.Valid() && appeared == Appeared(before, after)
    modifies emit
    ensures emit.Valid() && emit.raised == old(emit.raised) + NewEvents(before, after, taken, |appeared|)
  {
    for n := 0 to |appeared|
      invariant emit.Valid() && emit.raised == old(emit.raised) + NewEvents(before, after, taken, n)
    {
      NewMore(old(emit.raised), before, after, taken, n);
      var now := after.properties[appeared[n]];
      var same := EmitWhen(emit, n !in taken, PropertyAdded, after.path, now.name, Nothing, Number(now.offset));
    }
  }

  /** All vanished and all appeared properties are raised in some way. */
  lemma NothingLost(sig: TypeRef -> string, options: Options, before: Record, after: Record)
    ensures PropertyEvents(sig, options, before, after) == [] <==>
            PairedEvents(sig, before, after, |before.properties|) == [] && Vanished(before, after) == []
                && Appeared(before, after) == []
  {
    NoneGone(sig, options, before, after);
    NoneNew(before, after, |Appeared(before, after)|);
  }

  /** Every property of either side has a mate, which agrees with it. */
  ghost predicate PropertiesAgree(sig: TypeRef -> string, before: Record, after: Record) {
    var names, others := PropertyNames(before.properties), PropertyNames(after.properties);
    && (forall i: nat :: i < |names| ==> HasMate(names, others, i))
    && (forall j: nat :: j < |others| ==> HasMate(others, names, j))
    && (forall i: nat, j: nat :: Mates(names, others, i, j) ==> Agree(sig, before.properties[i], after.properties[j]))
  }

  lemma PairAgrees(sig: TypeRef -> string, before: Record, after: Record, n: nat)
    requires n < |before.properties|
    ensures PairEvents(sig, before, after, n) == [] <==>
            forall j: nat :: Mates(PropertyNames(before.properties), PropertyNames(after.properties), n, j) ==>
              Agree(sig, before.properties[n], after.properties[j])
  {
    var names, others := PropertyNames(before.properties), PropertyNames(after.properties);
    var partner := Partner(names, others, n);
    forall j: nat ensures Mates(names, others, n, j) <==> partner == Some(j) {
      PartnerIff(names, others, n, j);
    }
    if partner.Some? && partner.value < |others| {
      AgreeIff(sig, after.path, before.properties[n], after.properties[partner.value]);
    }
  }

  lemma PairsAgree(sig: TypeRef -> string, before: Record, after: Record)
    ensures PairedEvents(sig, before, after, |before.properties|) == [] <==>
            forall i: nat, j: nat :: Mates(PropertyNames(before.properties), PropertyNames(after.properties), i, j) ==>
              Agree(sig, before.properties[i], after.properties[j])
  {
    var pairs := PairsOf(sig, before, after);
    GatheredNothing(pairs, |before.properties|);
    forall n: nat | n < |before.properties|
      ensures pairs(n) == [] <==>
              forall j: nat :: Mates(PropertyNames(before.properties), PropertyNames(after.properties), n, j) ==>
                Agree(sig, before.properties[n], after.properties[j])
    {
      PairAgrees(sig, before, after, n);
    }
  }

  /** Nothing is raised for the properties of a type if and only if they all have mates that agree. */
  lemma PropertiesAgreeIff(sig: TypeRef -> string, options: Options, before: Record, after: Record)
    ensures PropertyEvents(sig, options, before, after) == [] <==> PropertiesAgree(sig, before, after)
  {
    var names, others := PropertyNames(before.properties), PropertyNames(after.properties);
    NothingLost(sig, options, before, after);
    PairsAgree(sig, before, after);
    AllMated(names, others);
    AllMated(others, names);
  }

  lemma NoneGone(sig: TypeRef -> string, options: Options, before: Record, after: Record)
    ensures var matches := Renames(sig, options, before, after, |Vanished(before, after)|);
            && (GoneEvents(before, after, matches, |matches|) == [] <==> Vanished(before, after) == [])
            && (Vanished(before, after) == [] ==> Taken(matches) == {})
  {
  }

  lemma NoneNew(before: Record, after: Record, n: nat)
    requires n <= |Appeared(before, after)|
    ensures NewEvents(before, after, {}, n) == [] <==> n == 0
  {
  }

  lemma EventsGroup(start: seq<Change>, sig: TypeRef -> string, options: Options, before: Record, after: Record)
    ensures var matches := Renames(sig, options, before, after, |Vanished(before, after)|);
            start + PairedEvents(sig, before, after, |before.properties|)
                + GoneEvents(before, after, matches, |matches|)
                  + NewEvents(before, after, Taken(matches), |Appeared(before, after)|)
            == start + PropertyEvents(sig, options, before, after)
  {
    var matches := Renames(sig, options, before, after, |Vanished(before, after)|);
    var paired, gone := PairedEvents(sig, before, after, |before.properties|),
        GoneEvents(before, after, matches, |matches|);
    Regroup(start, paired, gone);
    Regroup(start, paired + gone, NewEvents(before, after, Taken(matches), |Appeared(before, after)|));
  }

  /** One type's properties. It says `unchanged` exactly when each has a mate on the other side that agrees. */
  method DiffProperties(emit: Differ, sig: TypeRef -> string, before: Record, after: Record) returns (same: bool)
    requires emit.Valid()
    modifies emit
    ensures emit.Valid() && emit.raised == old(emit.raised) + PropertyEvents(sig, emit.options, before, after)
    ensures same <==> PropertyEvents(sig, emit.options, before, after) == []
    ensures same <==> PropertiesAgree(sig, before, after)
  {
    var vanished;
    vanished, same := ComparePaired(emit, sig, before, after);
    var appeared := FindAppeared(before, after);
    if appeared != [] {
      same := false;
    }
    var taken := EmitVanished(emit, sig, before, after, vanished, appeared);
    EmitAppeared(emit, before, after, appeared, taken);
    NothingLost(sig, emit.options, before, after);
    PropertiesAgreeIff(sig, emit.options, before, after);
    EventsGroup(old(emit.raised), sig, emit.options, before, after);
  }
}
