/** The order in which the disassembler scripts define their types: embedded records come first. */
module DisasmOrder {
  import opened Common
  import opened Ir
  import opened DepthFirst

  datatype Mark = Fresh | Open | Done

  /** The record a path stands for: the first that has it. */
  function Lookup(types: seq<Record>, path: string): (at: Option<nat>)
    ensures at.Some? ==> at.value < |types| && types[at.value].path == path
    ensures at.Some? ==> forall k :: 0 <= k < at.value ==> types[k].path != path
    ensures at.None? ==> forall r :: r in types ==> r.path != path
  {
    LookupFrom(types, path, 0)
  }

  function LookupFrom(types: seq<Record>, path: string, from: nat): (at: Option<nat>)
    requires from <= |types|
    ensures at.Some? ==> from <= at.value < |types| && types[at.value].path == path
    ensures at.Some? ==> forall k :: from <= k < at.value ==> types[k].path != path
    ensures at.None? ==> forall k :: from <= k < |types| ==> types[k].path != path
    decreases |types| - from
  {
    if from == |types| then None
    else if types[from].path == path then Some(from)
    else LookupFrom(types, path, from + 1)
  }

  /** The base, when the record embeds it whole. */
  function BaseDependency(types: seq<Record>, record: Record): seq<nat> {
    if record.super == "" || record.inheritedSize <= 0 then [] else
    match Lookup(types, record.super)
    case None => []
    case Some(base) => if types[base].size == record.inheritedSize then [base] else []
  }

  /** The struct a property embeds, when its size agrees. */
  function MemberDependency(types: seq<Record>, property: Property): seq<nat> {
    if property.ty.kind != TypeKind.Struct then [] else
    match Lookup(types, property.ty.name)
    case None => []
    case Some(used) => if types[used].size == property.ty.size then [used] else []
  }

  function MemberDependencies(types: seq<Record>, properties: seq<Property>): seq<nat> {
    if properties == [] then []
    else MemberDependency(types, properties[0]) + MemberDependencies(types, properties[1..])
  }

  function Dependencies(types: seq<Record>, record: Record): seq<nat> {
    BaseDependency(types, record) + MemberDependencies(types, record.properties)
  }

  lemma {:induction false} MembersInRange(types: seq<Record>, properties: seq<Property>)
    ensures forall d :: d in MemberDependencies(types, properties) ==> d < |types|
  {
    if properties != [] {
      MembersInRange(types, properties[1..]);
    }
  }

  /** Exactly the records embedded whole: as base, or as a struct member of the size reported. */
  lemma {:induction false} MembersAre(types: seq<Record>, properties: seq<Property>, d: nat)
    ensures d in MemberDependencies(types, properties) <==>
            exists p :: p in properties && p.ty.kind.Struct? && Lookup(types, p.ty.name) == Some(d)
                        && types[d].size == p.ty.size
  {
    if properties != [] {
      MembersAre(types, properties[1..], d);
      assert properties == [properties[0]] + properties[1..];
    }
  }

  /** The first record of the path. */
  ghost predicate IsFirst(types: seq<Record>, path: string, d: nat) {
    d < |types| && types[d].path == path && forall k :: 0 <= k < d ==> types[k].path != path
  }

  lemma LookupIs(types: seq<Record>, path: string, d: nat)
    ensures Lookup(types, path) == Some(d) <==> IsFirst(types, path, d)
  {
  }

  /** The record starts with the whole of another: its base is found, of the size inherited. */
  ghost predicate EmbedsAsBase(types: seq<Record>, r: Record, d: nat) {
    r.super != "" && r.inheritedSize > 0 && IsFirst(types, r.super, d) && types[d].size == r.inheritedSize
  }

  /** A member is another, by value: the struct is found, of the size the member reports. */
  ghost predicate EmbedsAsMember(types: seq<Record>, r: Record, d: nat) {
    exists p :: p in r.properties && p.ty.kind.Struct? && IsFirst(types, p.ty.name, d) && types[d].size == p.ty.size
  }

  ghost predicate Embeds(types: seq<Record>, n: nat, d: nat) {
    n < |types| && (EmbedsAsBase(types, types[n], d) || EmbedsAsMember(types, types[n], d))
  }

  lemma BaseIs(types: seq<Record>, r: Record, d: nat)
    ensures d in BaseDependency(types, r) <==> EmbedsAsBase(types, r, d)
  {
    LookupIs(types, r.super, d);
  }

  lemma MembersEmbedded(types: seq<Record>, r: Record, d: nat)
    ensures d in MemberDependencies(types, r.properties) <==> EmbedsAsMember(types, r, d)
  {
    MembersAre(types, r.properties, d);
    forall p | p in r.properties
      ensures Lookup(types, p.ty.name) == Some(d) <==> IsFirst(types, p.ty.name, d)
    {
      LookupIs(types, p.ty.name, d);
    }
  }

  /** An edge of the graph is one record embedding another whole, as base or as member. */
  lemma EdgeIs(types: seq<Record>, n: nat, d: nat)
    ensures Edge(WholeGraph(types), n, d) <==> Embeds(types, n, d)
  {
    if n < |types| {
      BaseIs(types, types[n], d);
      MembersEmbedded(types, types[n], d);
    }
  }

  /** The graph over the places of the records. */
  ghost function DependencySet(types: seq<Record>, n: nat): set<nat>
    requires n < |types|
  {
    set d | d in Dependencies(types, types[n])
  }

  ghost function WholeGraph(types: seq<Record>): Succ<nat> {
    map n | 0 <= n < |types| :: DependencySet(types, n)
  }

  /** The part of a graph over 0..|marks| that was visited. */
  ghost function Graph(whole: Succ<nat>, marks: seq<Mark>): (graph: Succ<nat>) {
    map n | n in whole && n < |marks| && !marks[n].Fresh? :: whole[n]
  }

  /** The variables of the loop. */
  datatype Walk = Walk(marks: seq<Mark>, stack: seq<Frame<nat>>, ordered: seq<nat>, warnings: seq<(nat, nat)>)

  ghost function DoneSet(marks: seq<Mark>): set<nat> { set n | 0 <= n < |marks| && marks[n].Done? }

  ghost function FreshSet(marks: seq<Mark>): set<nat> { set n | 0 <= n < |marks| && marks[n].Fresh? }

  ghost function Warned(warnings: seq<(nat, nat)>): set<(nat, nat)> { set e | e in warnings }

  ghost predicate WalkOk(whole: Succ<nat>, w: Walk) {
    && (forall n: nat :: n in whole <==> n < |w.marks|)
    && Inv(Graph(whole, w.marks), w.stack, DoneSet(w.marks), w.ordered, Warned(w.warnings))
  }

  function Top(w: Walk): Frame<nat>
    requires |w.stack| > 0
  {
    w.stack[|w.stack| - 1]
  }

  lemma OpenGraph(whole: Succ<nat>, marks: seq<Mark>, n: nat)
    requires n in whole && n < |marks| && marks[n].Fresh?
    ensures Graph(whole, marks[n := Open]) == Graph(whole, marks)[n := whole[n]]
    ensures DoneSet(marks[n := Open]) == DoneSet(marks)
    ensures FreshSet(marks[n := Open]) == FreshSet(marks) - {n}
  {
  }

  lemma CloseGraph(whole: Succ<nat>, marks: seq<Mark>, n: nat)
    requires n < |marks| && marks[n].Open?
    ensures Graph(whole, marks[n := Done]) == Graph(whole, marks)
    ensures DoneSet(marks[n := Done]) == DoneSet(marks) + {n}
    ensures FreshSet(marks[n := Done]) == FreshSet(marks)
  {
  }

  /** A place is open exactly while it is on the stack. */
  lemma OpenOnStack(whole: Succ<nat>, w: Walk, n: nat)
    requires WalkOk(whole, w) && n < |w.marks|
    ensures w.marks[n].Open? <==> OnStack(w.stack, n)
  {
    var graph := Graph(whole, w.marks);
    assert n in graph <==> n in DoneSet(w.marks) || OnStack(w.stack, n);
    if OnStack(w.stack, n) {
      var k :| 0 <= k < |w.stack| && w.stack[k].node == n;
      assert FrameOk(graph, w.stack[k], DoneSet(w.marks));
    }
  }

  lemma TopOpen(whole: Succ<nat>, w: Walk)
    requires WalkOk(whole, w) && w.stack != []
    ensures Top(w).node < |w.marks| && w.marks[Top(w).node].Open?
    ensures Top(w).at <= |Top(w).deps| && Top(w).node in whole && forall d :: d in Top(w).deps ==>
            d in whole[Top(w).node]
  {
    assert FrameOk(Graph(whole, w.marks), w.stack[|w.stack| - 1], DoneSet(w.marks));
  }

  function Pushed(w: Walk, n: nat, deps: seq<nat>): Walk
    requires n < |w.marks|
  {
    w.(marks := w.marks[n := Open], stack := w.stack + [Frame(n, deps, 0)])
  }

  function Looked(w: Walk): Walk
    requires |w.stack| > 0
  {
    w.(stack := Advanced(w.stack))
  }

  function Reported(w: Walk): Walk
    requires |w.stack| > 0 && Top(w).at < |Top(w).deps|
  {
    w.(stack := Advanced(w.stack), warnings := w.warnings + [(Top(w).node, Top(w).deps[Top(w).at])])
  }

  function Popped(w: Walk): Walk
    requires |w.stack| > 0 && Top(w).node < |w.marks|
  {
    w.(marks := w.marks[Top(w).node := Done], ordered := w.ordered + [Top(w).node],
       stack := w.stack[..|w.stack| - 1])
  }

  /** `deps` lists the successors of n. */
  ghost predicate Lists(whole: Succ<nat>, n: nat, deps: seq<nat>) {
    n in whole && forall d :: d in deps <==> d in whole[n]
  }

  lemma StartedKeeps(whole: Succ<nat>, w: Walk, n: nat, deps: seq<nat>)
    requires WalkOk(whole, w) && w.stack == [] && n < |w.marks| && w.marks[n].Fresh? && Lists(whole, n, deps)
    ensures WalkOk(whole, Pushed(w, n, deps))
  {
    StartKeeps(Graph(whole, w.marks), w.stack, DoneSet(w.marks), w.ordered, Warned(w.warnings), n, whole[n], deps);
    OpenGraph(whole, w.marks, n);
  }

  lemma DescendedKeeps(whole: Succ<nat>, w: Walk, n: nat, deps: seq<nat>)
    requires WalkOk(whole, w) && w.stack != [] && n < |w.marks| && w.marks[n].Fresh? && Lists(whole, n, deps)
    requires Top(w).at < |Top(w).deps| && Top(w).deps[Top(w).at] == n
    ensures WalkOk(whole, Pushed(Looked(w), n, deps))
  {
    DescendKeeps(Graph(whole, w.marks), w.stack, DoneSet(w.marks), w.ordered, Warned(w.warnings), n, whole[n], deps);
    OpenGraph(whole, w.marks, n);
  }

  lemma LookedKeeps(whole: Succ<nat>, w: Walk)
    requires WalkOk(whole, w) && w.stack != [] && Top(w).at < |Top(w).deps|
    requires Top(w).deps[Top(w).at] in DoneSet(w.marks)
    ensures WalkOk(whole, Looked(w))
  {
    SkipKeeps(Graph(whole, w.marks), w.stack, DoneSet(w.marks), w.ordered, Warned(w.warnings));
  }

  lemma WarnedMore(warnings: seq<(nat, nat)>, e: (nat, nat))
    ensures Warned(warnings + [e]) == Warned(warnings) + {e}
  {
  }

  lemma ReportedKeeps(whole: Succ<nat>, w: Walk)
    requires WalkOk(whole, w) && w.stack != [] && Top(w).at < |Top(w).deps|
    requires OnStack(w.stack, Top(w).deps[Top(w).at])
    ensures WalkOk(whole, Reported(w))
  {
    WarnedMore(w.warnings, (Top(w).node, Top(w).deps[Top(w).at]));
    ReportKeeps(Graph(whole, w.marks), w.stack, DoneSet(w.marks), w.ordered, Warned(w.warnings));
  }

  lemma PoppedKeeps(whole: Succ<nat>, w: Walk)
    requires WalkOk(whole, w) && w.stack != [] && Top(w).at == |Top(w).deps|
    requires Top(w).node < |w.marks| && w.marks[Top(w).node].Open?
    ensures WalkOk(whole, Popped(w))
  {
    PopKeeps(Graph(whole, w.marks), w.stack, DoneSet(w.marks), w.ordered, Warned(w.warnings));
    CloseGraph(whole, w.marks, Top(w).node);
  }

  /** How many successors the top of the stack has still to look at. */
  ghost function Rest(stack: seq<Frame<nat>>): int {
    if stack == [] then 0 else |stack[|stack| - 1].deps| - stack[|stack| - 1].at
  }

  /** No place goes back a mark. */
  ghost predicate KeepsMarks(before: seq<Mark>, after: seq<Mark>) {
    |before| == |after| && forall n {:trigger after[n]} :: 0 <= n < |before| ==>
      (before[n].Done? ==> after[n].Done?) && (!before[n].Fresh? ==> !after[n].Fresh?)
  }

  /** The graph's edges stay inside it. */
  lemma WholeCloses(types: seq<Record>, n: nat)
    requires n < |types|
    ensures n in WholeGraph(types) && Lists(WholeGraph(types), n, Dependencies(types, types[n]))
    ensures forall d :: d in WholeGraph(types)[n] ==> d < |types|
  {
    MembersInRange(types, types[n].properties);
  }

  /** One of the loop's measures goes down. */
  ghost predicate Progress(w: Walk, next: Walk) {
    || FreshSet(next.marks) < FreshSet(w.marks)
    || (FreshSet(next.marks) == FreshSet(w.marks) && |next.stack| < |w.stack|)
    || (FreshSet(next.marks) == FreshSet(w.marks) && |next.stack| == |w.stack| && Rest(next.stack) < Rest(w.stack))
  }

  function DependenciesAt(types: seq<Record>, n: nat): seq<nat> {
    if n < |types| then Dependencies(types, types[n]) else []
  }

  /** The function gives the successors of every place, and they are places again. */
  ghost predicate Names(dependencies: nat -> seq<nat>, whole: Succ<nat>) {
    forall n {:trigger dependencies(n)} :: n in whole ==>
      Lists(whole, n, dependencies(n)) && forall d :: d in dependencies(n) ==> d in whole
  }

  /** The loop's body: one look at the top of the stack. */
  method Turn(dependencies: nat -> seq<nat>, w: Walk, ghost whole: Succ<nat>) returns (next: Walk)
    requires Names(dependencies, whole) && WalkOk(whole, w) && w.stack != []
    ensures WalkOk(whole, next) && KeepsMarks(w.marks, next.marks)
    ensures Progress(w, next)
  {
    TopOpen(whole, w);
    var top := Top(w);
    if top.at < |top.deps| {
      var dep := top.deps[top.at];
      assert dep in top.deps;
      assert dep in dependencies(top.node);
      OpenOnStack(whole, w, dep);
      match w.marks[dep]
      case Done =>
        LookedKeeps(whole, w);
        next := Looked(w);
      case Open =>
        ReportedKeeps(whole, w);
        next := Reported(w);
      case Fresh =>
        var deps := dependencies(dep);
        DescendedKeeps(whole, w, dep, deps);
        OpenGraph(whole, w.marks, dep);
        next := Pushed(Looked(w), dep, deps);
    } else {
      PoppedKeeps(whole, w);
      CloseGraph(whole, w.marks, top.node);
      next := Popped(w);
    }
  }

  lemma NamesWhole(types: seq<Record>, dependencies: nat -> seq<nat>)
    requires forall n :: dependencies(n) == DependenciesAt(types, n)
    ensures Names(dependencies, WholeGraph(types))
  {
    var whole := WholeGraph(types);
    forall n {:trigger dependencies(n)} | n in whole
      ensures Lists(whole, n, dependencies(n)) && forall d :: d in dependencies(n) ==> d in whole
    {
      WholeCloses(types, n);
    }
  }

  lemma RestBounded(whole: Succ<nat>, w: Walk)
    requires WalkOk(whole, w)
    ensures Rest(w.stack) >= 0
  {
    if w.stack != [] {
      TopOpen(whole, w);
    }
  }

  /** Everything that can be reached from the root, onto the order. */
  method VisitFrom(dependencies: nat -> seq<nat>, w: Walk, root: nat, ghost whole: Succ<nat>) returns (next: Walk)
    requires Names(dependencies, whole) && WalkOk(whole, w) && w.stack == []
    requires root < |w.marks| && w.marks[root].Fresh?
    ensures WalkOk(whole, next) && next.stack == []
    ensures KeepsMarks(w.marks, next.marks) && next.marks[root].Done?
  {
    var deps := dependencies(root);
    StartedKeeps(whole, w, root, deps);
    next := Pushed(w, root, deps);
    while next.stack != []
      invariant WalkOk(whole, next)
      invariant KeepsMarks(w.marks, next.marks) && !next.marks[root].Fresh?
      decreases FreshSet(next.marks), |next.stack|, Rest(next.stack)
    {
      ghost var before := next.marks;
      RestBounded(whole, next);
      next := Turn(dependencies, next, whole);
      RestBounded(whole, next);
      MarksChain(w.marks, before, next.marks, root);
    }
    OpenOnStack(whole, next, root);
  }

  lemma MarksChain(first: seq<Mark>, second: seq<Mark>, third: seq<Mark>, n: nat)
    requires KeepsMarks(first, second) && KeepsMarks(second, third) && n < |second|
    ensures KeepsMarks(first, third) && (!second[n].Fresh? ==> !third[n].Fresh?)
  {
  }

  ghost predicate FirstDone(n: nat, marks: seq<Mark>) {
    forall k {:trigger marks[k]} :: 0 <= k < n && k < |marks| ==> marks[k].Done?
  }

  lemma OneMoreDone(n: nat, marks: seq<Mark>, more: seq<Mark>)
    requires n < |marks| && FirstDone(n, marks) && KeepsMarks(marks, more) && more[n].Done?
    ensures FirstDone(n + 1, more)
  {
  }

  /** With nothing open, a place is done or fresh. */
  lemma NothingOpen(whole: Succ<nat>, w: Walk, n: nat)
    requires WalkOk(whole, w) && w.stack == [] && n < |w.marks|
    ensures !w.marks[n].Open?
  {
    OpenOnStack(whole, w, n);
  }

  method WalkAll(dependencies: nat -> seq<nat>, count: nat, ghost whole: Succ<nat>) returns (w: Walk)
    requires Names(dependencies, whole) && forall n: nat :: n in whole <==> n < count
    ensures WalkOk(whole, w) && w.stack == [] && |w.marks| == count && FirstDone(count, w.marks)
  {
    w := Walk(seq(count, i => Fresh), [], [], []);
    StartOk(whole, w);
    for n := 0 to count
      invariant WalkOk(whole, w) && w.stack == [] && |w.marks| == count
      invariant FirstDone(n, w.marks)
    {
      ghost var before := w.marks;
      NothingOpen(whole, w, n);
      if w.marks[n] != Done {
        w := VisitFrom(dependencies, w, n, whole);
      }
      OneMoreDone(n, before, w.marks);
    }
  }

  lemma StartOk(whole: Succ<nat>, w: Walk)
    requires forall n: nat :: n in whole <==> n < |w.marks|
    requires w.stack == [] && w.ordered == [] && w.warnings == [] && forall n :: 0 <= n < |w.marks| ==>
             w.marks[n].Fresh?
    ensures WalkOk(whole, w)
  {
    assert Graph(whole, w.marks) == map[] && DoneSet(w.marks) == {} && Warned(w.warnings) == {};
  }

  // ---------------------------------------------------------------- what the finished order says

  /** What a record embeds comes before it, save the pairs listed. */
  ghost predicate EmbeddedFirst(whole: Succ<nat>, ordered: seq<nat>, except: seq<(nat, nat)>) {
    forall k, d: nat {:trigger ordered[k], (ordered[k], d) in except} ::
      0 <= k < |ordered| && Edge(whole, ordered[k], d) ==> d in ordered[..k] || (ordered[k], d) in except
  }

  /** On the records: a base or a struct embedded whole comes before what embeds it, save the pairs listed. */
  ghost predicate WholeBefore(types: seq<Record>, ordered: seq<nat>, except: seq<(nat, nat)>) {
    forall k, d: nat {:trigger Embeds(types, ordered[k], d)} ::
      0 <= k < |ordered| && Embeds(types, ordered[k], d) ==> d in ordered[..k] || (ordered[k], d) in except
  }

  lemma FirstIsBefore(types: seq<Record>, ordered: seq<nat>, except: seq<(nat, nat)>)
    requires EmbeddedFirst(WholeGraph(types), ordered, except)
    ensures WholeBefore(types, ordered, except)
  {
    forall k, d: nat | 0 <= k < |ordered| && Embeds(types, ordered[k], d)
      ensures d in ordered[..k] || (ordered[k], d) in except
    {
      EdgeIs(types, ordered[k], d);
    }
  }

  /** Only edges that lie on a cycle are listed, and some edge is if and only if there is a cycle. */
  ghost predicate ListsCycles(graph: Succ<nat>, warnings: seq<(nat, nat)>) {
    && (forall e :: e in warnings ==> Edge(graph, e.0, e.1) && Reaches(graph, e.1, e.0))
    && (warnings != [] <==> Cyclic(graph))
  }

  lemma OverGraph(whole: Succ<nat>, w: Walk)
    requires WalkOk(whole, w) && w.stack == [] && FirstDone(|w.marks|, w.marks)
    ensures Graph(whole, w.marks) == whole
    ensures forall n: nat :: n in w.ordered <==> n < |w.marks|
  {
    forall n: nat ensures n in w.ordered <==> n < |w.marks| {
      assert n in DoneSet(w.marks) <==> n in w.ordered;
    }
  }

  lemma OverOrder(whole: Succ<nat>, w: Walk)
    requires WalkOk(whole, w) && w.stack == [] && FirstDone(|w.marks|, w.marks)
    ensures Distinct(w.ordered) && EmbeddedFirst(whole, w.ordered, w.warnings)
  {
    OverGraph(whole, w);
    forall k, d: nat | 0 <= k < |w.ordered| && Edge(whole, w.ordered[k], d)
      ensures d in w.ordered[..k] || (w.ordered[k], d) in w.warnings
    {
      assert Settled(whole, w.ordered[..k], w.ordered[k], Warned(w.warnings));
    }
  }

  lemma OverCycles(whole: Succ<nat>, w: Walk)
    requires WalkOk(whole, w) && w.stack == [] && FirstDone(|w.marks|, w.marks)
    ensures ListsCycles(whole, w.warnings)
  {
    OverGraph(whole, w);
    forall e | e in w.warnings ensures Edge(whole, e.0, e.1) && Reaches(whole, e.1, e.0) {
      assert e in Warned(w.warnings);
    }
    ReportedIffCyclic(whole, w.ordered, Warned(w.warnings));
    if w.warnings != [] {
      assert w.warnings[0] in Warned(w.warnings);
    }
  }

  /**
   * The order of definition, by place. Every record comes exactly once; what it embeds whole comes
   * before it or the pair was reported; a reported pair lies on a cycle; and cycles are reported if
   * and only if there is one.
   */
  method TopoSort(types: seq<Record>) returns (ordered: seq<nat>, warnings: seq<(nat, nat)>)
    ensures Distinct(ordered) && forall n: nat :: n in ordered <==> n < |types|
    ensures EmbeddedFirst(WholeGraph(types), ordered, warnings) && WholeBefore(types, ordered, warnings)
    ensures ListsCycles(WholeGraph(types), warnings)
  {
    var dependencies := (n: nat) => DependenciesAt(types, n);
    ghost var whole := WholeGraph(types);
    assert forall n: nat :: n in whole <==> n < |types|;
    NamesWhole(types, dependencies);
    var w := WalkAll(dependencies, |types|, whole);
    OverGraph(whole, w);
    OverOrder(whole, w);
    OverCycles(whole, w);
    FirstIsBefore(types, w.ordered, w.warnings);
    ordered, warnings := w.ordered, w.warnings;
  }
}
