/** The order in which the C++ SDK defines its types: what is held by value comes first. */
module SdkOrder {
  import opened Common
  import opened Ir
  import opened DepthFirst

  /** The paths a type needs complete: structs and enums, at any depth of its parameters. */
  function ValueDependencies(ty: TypeRef): set<string> {
    (if (ty.kind.Struct? || ty.kind.Enumeration?) && ty.name != "" then {ty.name} else {})
    + (set p, d | p in ty.params && d in ValueDependencies(p) :: d)
  }

  /** What must be defined before the record is. */
  function Needs(record: Record): set<string> {
    (if record.super != "" then {record.super} else {})
    + (set p, d | p in record.properties && d in ValueDependencies(p.ty) :: d)
  }

  /** The type found by going into the parameters, one index after the other. */
  function Inside(ty: TypeRef, trail: seq<nat>): Option<TypeRef>
    decreases |trail|
  {
    if trail == [] then Some(ty)
    else if trail[0] < |ty.params| then Inside(ty.params[trail[0]], trail[1..])
    else None
  }

  /** Somewhere inside the type there is a struct or an enum of the path. */
  ghost predicate HoldsPath(ty: TypeRef, d: string) { exists trail: seq<nat> :: NamesAt(ty, trail, d) }

  ghost predicate NamesAt(ty: TypeRef, trail: seq<nat>, d: string) {
    var at := Inside(ty, trail);
    at.Some? && (at.value.kind.Struct? || at.value.kind.Enumeration?) && at.value.name == d != ""
  }

  /** What a type depends on are the structs and enums named anywhere in it. */
  lemma {:induction false} DependsIff(ty: TypeRef, d: string)
    ensures d in ValueDependencies(ty) <==> HoldsPath(ty, d)
    decreases ty
  {
    if d in ValueDependencies(ty) {
      if (ty.kind.Struct? || ty.kind.Enumeration?) && ty.name == d != "" {
        assert NamesAt(ty, [], d);
      } else {
        var p :| p in ty.params && d in ValueDependencies(p);
        var i :| 0 <= i < |ty.params| && ty.params[i] == p;
        DependsIff(p, d);
        var trail: seq<nat> :| NamesAt(p, trail, d);
        assert ([i] + trail)[1..] == trail;
        assert NamesAt(ty, [i] + trail, d);
      }
    }
    if trail: seq<nat> :| NamesAt(ty, trail, d) {
      if trail != [] {
        var p := ty.params[trail[0]];
        DependsIff(p, d);
        assert NamesAt(p, trail[1..], d);
      }
    }
  }

  /** What a record needs: its base, and the structs and enums named anywhere in a property's type. */
  lemma NeedsIff(record: Record, d: string)
    ensures d in Needs(record) <==>
            (d == record.super && d != "") || exists p :: p in record.properties && HoldsPath(p.ty, d)
  {
    forall p | p in record.properties ensures d in ValueDependencies(p.ty) <==> HoldsPath(p.ty, d) {
      DependsIff(p.ty, d);
    }
  }

  function Paths(records: seq<Record>): (paths: seq<string>)
    ensures |paths| == |records|
  {
    seq(|records|, i requires 0 <= i < |records| => records[i].path)
  }

  function PathSet(records: seq<Record>): set<string> { set r | r in records :: r.path }

  /** The graph that an order of records stands for: by path, the needs that are themselves among the records. */
  ghost predicate GraphOf(graph: Succ<string>, ordered: seq<Record>, paths: set<string>) {
    && graph.Keys == PathSet(ordered)
    && forall r :: r in ordered ==> r.path in graph && graph[r.path] == Needs(r) * paths
  }

  /** Each path stands for the last record that has it. */
  method LocalIndex(records: seq<Record>) returns (local: map<string, Record>)
    ensures local.Keys == PathSet(records)
    ensures forall p :: p in local ==> local[p] in records && local[p].path == p
    ensures forall i {:trigger records[i]} :: 0 <= i < |records|
              && (forall k :: i < k < |records| ==> records[k].path != records[i].path)
              ==> local[records[i].path] == records[i]
  {
    local := map[];
    for n := 0 to |records|
      invariant local.Keys == PathSet(records[..n])
      invariant forall p :: p in local ==> local[p] in records[..n] && local[p].path == p
      invariant forall i {:trigger records[i]} :: 0 <= i < n
                  && (forall k :: i < k < n ==> records[k].path != records[i].path)
                  ==> records[i].path in local && local[records[i].path] == records[i]
    {
      assert records[..n + 1] == records[..n] + [records[n]];
      local := local[records[n].path := records[n]];
    }
    assert records[..|records|] == records;
  }

  /** The needs still to be visited, in some order. */
  method Filtered(needs: set<string>, paths: set<string>, done: set<string>) returns (deps: seq<string>)
    ensures forall d :: d in deps <==> d in needs * paths && d !in done
    ensures Distinct(deps)
  {
    deps := [];
    var rest := (needs * paths) - done;
    while rest != {}
      invariant forall d :: d in deps || d in rest <==> d in needs * paths && d !in done
      invariant forall d :: d in deps ==> d !in rest
      invariant Distinct(deps)
    {
      var d :| d in rest;
      deps := deps + [d];
      rest := rest - {d};
    }
  }

  // ---------------------------------------------------------------- the walk

  /** The variables of the loop; `pushed` gives the record of each path on the stack or finished. */
  datatype Walk = Walk(
    pushed: map<string, Record>, stack: seq<Frame<string>>, done: set<string>, visiting: set<string>,
    ordered: seq<Record>, warnings: seq<(string, string)>)

  ghost function Graph(pushed: map<string, Record>, paths: set<string>): (graph: Succ<string>)
    ensures graph.Keys == pushed.Keys
  {
    map p | p in pushed :: Needs(pushed[p]) * paths
  }

  ghost function Warned(warnings: seq<(string, string)>): set<(string, string)> { set e | e in warnings }

  ghost predicate PushedOk(pushed: map<string, Record>, records: seq<Record>) {
    forall p :: p in pushed ==> pushed[p] in records && pushed[p].path == p
  }

  ghost predicate OrderedOk(ordered: seq<Record>, pushed: map<string, Record>) {
    forall r :: r in ordered ==> r.path in pushed && pushed[r.path] == r
  }

  ghost predicate VisitingOk(visiting: set<string>, stack: seq<Frame<string>>) {
    forall p :: p in visiting <==> OnStack(stack, p)
  }

  ghost predicate WalkOk(w: Walk, records: seq<Record>, paths: set<string>) {
    && Inv(Graph(w.pushed, paths), w.stack, w.done, Paths(w.ordered), Warned(w.warnings))
    && PushedOk(w.pushed, records) && OrderedOk(w.ordered, w.pushed) && VisitingOk(w.visiting, w.stack)
  }

  function Pushed(w: Walk, record: Record, deps: seq<string>): Walk {
    w.(pushed := w.pushed[record.path := record], stack := w.stack + [Frame(record.path, deps, 0)],
       visiting := w.visiting + {record.path})
  }

  function Looked(w: Walk): Walk
    requires |w.stack| > 0
  {
    w.(stack := Advanced(w.stack))
  }

  function Reported(w: Walk): Walk
    requires |w.stack| > 0 && Top(w).at < |Top(w).deps|
  {
    w.(stack := Advanced(w.stack), warnings := w.warnings + [(Top(w).node, Top(w).deps[Top(w).at])])
  }

  function Popped(w: Walk): Walk
    requires |w.stack| > 0 && Top(w).node in w.pushed
  {
    w.(visiting := w.visiting - {Top(w).node}, done := w.done + {Top(w).node},
       ordered := w.ordered + [w.pushed[Top(w).node]], stack := w.stack[..|w.stack| - 1])
  }

  function Top(w: Walk): Frame<string>
    requires |w.stack| > 0
  {
    w.stack[|w.stack| - 1]
  }

  lemma StartedKeeps(w: Walk, record: Record, deps: seq<string>, records: seq<Record>, paths: set<string>)
    requires WalkOk(w, records, paths) && w.stack == []
    requires record in records && record.path !in w.pushed
    requires forall d :: d in deps <==> d in Needs(record) * paths && d !in w.done
    ensures WalkOk(Pushed(w, record, deps), records, paths)
  {
    StartKeeps(Graph(w.pushed, paths), w.stack, w.done, Paths(w.ordered), Warned(w.warnings),
               record.path, Needs(record) * paths, deps);
    GraphPushed(w.pushed, record, paths);
    RecordsPushed(w.pushed, w.ordered, record, records);
    PushVisiting(w.visiting, w.stack, Frame(record.path, deps, 0));
  }

  lemma GraphPushed(pushed: map<string, Record>, record: Record, paths: set<string>)
    ensures Graph(pushed[record.path := record], paths) == Graph(pushed, paths)[record.path := Needs(record) * paths]
  {
  }

  lemma RecordsPushed(pushed: map<string, Record>, ordered: seq<Record>, record: Record, records: seq<Record>)
    requires PushedOk(pushed, records) && OrderedOk(ordered, pushed) && record in records && record.path !in pushed
    ensures PushedOk(pushed[record.path := record], records) && OrderedOk(ordered, pushed[record.path := record])
  {
  }

  lemma PushVisiting(visiting: set<string>, stack: seq<Frame<string>>, f: Frame<string>)
    requires VisitingOk(visiting, stack)
    ensures VisitingOk(visiting + {f.node}, stack + [f])
  {
    var stack' := stack + [f];
    assert stack'[|stack|] == f;
    forall p ensures p in visiting + {f.node} <==> OnStack(stack', p) {
      if OnStack(stack, p) {
        var k :| 0 <= k < |stack| && stack[k].node == p;
        assert stack'[k].node == p;
      }
    }
  }

  lemma AdvanceVisiting(visiting: set<string>, stack: seq<Frame<string>>)
    requires |stack| > 0 && VisitingOk(visiting, stack)
    ensures VisitingOk(visiting, Advanced(stack))
  {
    forall p ensures OnStack(stack, p) <==> OnStack(Advanced(stack), p) {
      SameOnStack(stack, Advanced(stack), p);
    }
  }

  lemma LookedKeeps(w: Walk, records: seq<Record>, paths: set<string>)
    requires WalkOk(w, records, paths) && |w.stack| > 0 && Top(w).at < |Top(w).deps|
    requires Top(w).deps[Top(w).at] in w.done
    ensures WalkOk(Looked(w), records, paths)
  {
    SkipKeeps(Graph(w.pushed, paths), w.stack, w.done, Paths(w.ordered), Warned(w.warnings));
    AdvanceVisiting(w.visiting, w.stack);
  }

  lemma WarnedMore(warnings: seq<(string, string)>, e: (string, string))
    ensures Warned(warnings + [e]) == Warned(warnings) + {e}
  {
  }

  lemma ReportedKeeps(w: Walk, records: seq<Record>, paths: set<string>)
    requires WalkOk(w, records, paths) && |w.stack| > 0 && Top(w).at < |Top(w).deps|
    requires Top(w).deps[Top(w).at] in w.visiting
    ensures WalkOk(Reported(w), records, paths)
  {
    WarnedMore(w.warnings, (Top(w).node, Top(w).deps[Top(w).at]));
    ReportKeeps(Graph(w.pushed, paths), w.stack, w.done, Paths(w.ordered), Warned(w.warnings));
    AdvanceVisiting(w.visiting, w.stack);
  }

  lemma PopVisiting(visiting: set<string>, stack: seq<Frame<string>>)
    requires |stack| > 0 && VisitingOk(visiting, stack)
    requires forall j, k :: 0 <= j < k < |stack| ==> stack[j].node != stack[k].node
    ensures VisitingOk(visiting - {stack[|stack| - 1].node}, stack[..|stack| - 1])
  {
    var last := |stack| - 1;
    forall p ensures p in visiting - {stack[last].node} <==> OnStack(stack[..last], p) {
      if OnStack(stack, p) {
        var k :| 0 <= k < |stack| && stack[k].node == p;
        if k < last {
          assert stack[..last][k].node == p && stack[k].node != stack[last].node;
        }
      }
      if OnStack(stack[..last], p) {
        var k :| 0 <= k < last && stack[..last][k].node == p;
        assert stack[k].node == p && stack[k].node != stack[last].node;
      }
    }
  }

  lemma TopPushed(w: Walk, records: seq<Record>, paths: set<string>)
    requires WalkOk(w, records, paths) && |w.stack| > 0
    ensures Top(w).node in w.pushed && Top(w).node !in w.done && Top(w).at <= |Top(w).deps|
    ensures forall d :: d in Top(w).deps ==> d in paths
  {
    assert FrameOk(Graph(w.pushed, paths), w.stack[|w.stack| - 1], w.done);
  }

  lemma PoppedKeeps(w: Walk, records: seq<Record>, paths: set<string>)
    requires WalkOk(w, records, paths) && |w.stack| > 0 && Top(w).at == |Top(w).deps|
    requires Top(w).node in w.pushed
    ensures WalkOk(Popped(w), records, paths)
  {
    PopKeeps(Graph(w.pushed, paths), w.stack, w.done, Paths(w.ordered), Warned(w.warnings));
    PopVisiting(w.visiting, w.stack);
    var r := w.pushed[Top(w).node];
    assert Paths(w.ordered + [r]) == Paths(w.ordered) + [r.path];
  }

  lemma DescendVisiting(visiting: set<string>, stack: seq<Frame<string>>, f: Frame<string>)
    requires |stack| > 0 && VisitingOk(visiting, stack)
    ensures VisitingOk(visiting + {f.node}, Advanced(stack) + [f])
  {
    AdvanceVisiting(visiting, stack);
    PushVisiting(visiting, Advanced(stack), f);
  }

  /** Looking at a successor that is neither finished nor open: it is pushed. */
  lemma DescendedKeeps(w: Walk, record: Record, deps: seq<string>, records: seq<Record>, paths: set<string>)
    requires WalkOk(w, records, paths) && |w.stack| > 0 && Top(w).at < |Top(w).deps|
    requires record in records && Top(w).deps[Top(w).at] == record.path && record.path !in w.pushed
    requires forall d :: d in deps <==> d in Needs(record) * paths && d !in w.done
    ensures WalkOk(Pushed(Looked(w), record, deps), records, paths)
  {
    DescendKeeps(Graph(w.pushed, paths), w.stack, w.done, Paths(w.ordered), Warned(w.warnings),
                 record.path, Needs(record) * paths, deps);
    GraphPushed(w.pushed, record, paths);
    RecordsPushed(w.pushed, w.ordered, record, records);
    DescendVisiting(w.visiting, w.stack, Frame(record.path, deps, 0));
  }

  /** What the loops know: the walk is in order and runs over the records of `local`. */
  ghost predicate Runs(w: Walk, records: seq<Record>, local: map<string, Record>) {
    && WalkOk(w, records, PathSet(records))
    && w.pushed.Keys <= PathSet(records) && local.Keys == PathSet(records)
    && forall p :: p in local ==> local[p] in records && local[p].path == p
  }

  /** The loop's body: one look at the top of the stack. */
  method Turn(w: Walk, records: seq<Record>, local: map<string, Record>) returns (next: Walk)
    requires Runs(w, records, local) && w.stack != []
    ensures Runs(next, records, local)
    ensures w.done <= next.done
    ensures PathSet(records) - next.pushed.Keys < PathSet(records) - w.pushed.Keys
            || (next.pushed == w.pushed && |next.stack| < |w.stack|)
            || (next.pushed == w.pushed && |next.stack| == |w.stack| && Rest(next.stack) < Rest(w.stack))
  {
    TopPushed(w, records, PathSet(records));
    var top := Top(w);
    if top.at < |top.deps| {
      var dep := top.deps[top.at];
      if dep in w.done {
        LookedKeeps(w, records, PathSet(records));
        next := Looked(w);
      } else if dep in w.visiting {
        ReportedKeeps(w, records, PathSet(records));
        next := Reported(w);
      } else {
        var deps := Filtered(Needs(local[dep]), local.Keys, w.done);
        NotPushed(w, records, PathSet(records), dep);
        DescendedKeeps(w, local[dep], deps, records, PathSet(records));
        next := Pushed(Looked(w), local[dep], deps);
        assert dep in PathSet(records) - w.pushed.Keys;
      }
    } else {
      PoppedKeeps(w, records, PathSet(records));
      next := Popped(w);
    }
  }

  /** How many successors the top of the stack has still to look at. */
  ghost function Rest(stack: seq<Frame<string>>): int {
    if stack == [] then 0 else |stack[|stack| - 1].deps| - stack[|stack| - 1].at
  }

  /** A path neither finished nor open was never pushed. */
  lemma NotPushed(w: Walk, records: seq<Record>, paths: set<string>, p: string)
    requires WalkOk(w, records, paths) && p !in w.done && p !in w.visiting
    ensures p !in w.pushed
  {
    var graph := Graph(w.pushed, paths);
    assert p in graph <==> p in w.done || OnStack(w.stack, p);
  }

  lemma RestBounded(w: Walk, records: seq<Record>, paths: set<string>)
    requires WalkOk(w, records, paths)
    ensures Rest(w.stack) >= 0
  {
    if w.stack != [] {
      TopPushed(w, records, paths);
    }
  }

  /** Everything that can be reached from the seed, onto the order. */
  method VisitFrom(w: Walk, seed: Record, records: seq<Record>, local: map<string, Record>) returns (next: Walk)
    requires Runs(w, records, local) && w.stack == [] && seed in records && seed.path !in w.done
    ensures Runs(next, records, local) && next.stack == []
    ensures w.done <= next.done && seed.path in next.done
  {
    var deps := Filtered(Needs(seed), local.Keys, w.done);
    assert seed.path !in w.visiting by { assert !OnStack(w.stack, seed.path); }
    NotPushed(w, records, PathSet(records), seed.path);
    StartedKeeps(w, seed, deps, records, PathSet(records));
    next := Pushed(w, seed, deps);
    while next.stack != []
      invariant Runs(next, records, local)
      invariant w.done <= next.done && seed.path in next.pushed
      decreases PathSet(records) - next.pushed.Keys, |next.stack|, Rest(next.stack)
    {
      RestBounded(next, records, PathSet(records));
      next := Turn(next, records, local);
      RestBounded(next, records, PathSet(records));
    }
    var graph := Graph(next.pushed, PathSet(records));
    assert seed.path in graph <==> seed.path in next.done || OnStack(next.stack, seed.path);
  }

  lemma StartRuns(w: Walk, records: seq<Record>, local: map<string, Record>)
    requires w == Walk(map[], [], {}, {}, [], []) && local.Keys == PathSet(records)
    requires forall p :: p in local ==> local[p] in records && local[p].path == p
    ensures Runs(w, records, local)
  {
    assert Paths(w.ordered) == [] && Warned(w.warnings) == {};
  }

  /** The walk is over: nothing is open and every record was finished. */
  ghost predicate Over(w: Walk, records: seq<Record>, local: map<string, Record>) {
    && Runs(w, records, local) && w.stack == []
    && forall r :: r in records ==> r.path in w.done
  }

  lemma OverAll(w: Walk, records: seq<Record>, local: map<string, Record>)
    requires Over(w, records, local)
    ensures forall p :: p in PathSet(records) <==> p in w.pushed
    ensures forall p :: p in w.pushed <==> p in Paths(w.ordered)
  {
    var graph := Graph(w.pushed, PathSet(records));
    forall p ensures p in w.pushed <==> p in Paths(w.ordered) {
      assert p in graph <==> p in w.done || OnStack(w.stack, p);
    }
    forall p ensures p in PathSet(records) <==> p in w.pushed {
      if p in PathSet(records) {
        assert p in graph <==> p in w.done || OnStack(w.stack, p);
      }
    }
  }

  lemma OverGraph(w: Walk, records: seq<Record>, local: map<string, Record>)
    requires Over(w, records, local)
    ensures PathSet(w.ordered) == PathSet(records)
    ensures GraphOf(Graph(w.pushed, PathSet(records)), w.ordered, PathSet(records))
  {
    OverAll(w, records, local);
    forall p ensures p in PathSet(w.ordered) <==> p in Paths(w.ordered) {
      if p in Paths(w.ordered) {
        var i :| 0 <= i < |w.ordered| && Paths(w.ordered)[i] == p;
        assert w.ordered[i] in w.ordered;
      }
      if p in PathSet(w.ordered) {
        var r :| r in w.ordered && r.path == p;
        var i :| 0 <= i < |w.ordered| && w.ordered[i] == r;
        assert Paths(w.ordered)[i] == p;
      }
    }
  }

  lemma OverNeeds(w: Walk, records: seq<Record>, local: map<string, Record>, i: nat, d: string)
    requires Over(w, records, local) && i < |w.ordered|
    requires d in Needs(w.ordered[i]) && d in PathSet(records)
    ensures d in PathSet(w.ordered[..i]) || (w.ordered[i].path, d) in w.warnings
  {
    var graph, order := Graph(w.pushed, PathSet(records)), Paths(w.ordered);
    assert w.ordered[i] in w.ordered;
    assert Settled(graph, order[..i], order[i], Warned(w.warnings));
    assert d in graph[order[i]];
    if d in order[..i] {
      var k :| 0 <= k < i && order[..i][k] == d;
      assert w.ordered[..i][k] in w.ordered[..i] && w.ordered[..i][k].path == d;
    }
  }

  lemma OverCycles(w: Walk, records: seq<Record>, local: map<string, Record>)
    requires Over(w, records, local)
    ensures var graph := Graph(w.pushed, PathSet(records));
            && (forall e :: e in w.warnings ==> Edge(graph, e.0, e.1) && Reaches(graph, e.1, e.0))
            && (w.warnings != [] <==> Cyclic(graph))
  {
    var graph, reported := Graph(w.pushed, PathSet(records)), Warned(w.warnings);
    OverAll(w, records, local);
    forall e | e in w.warnings ensures Edge(graph, e.0, e.1) && Reaches(graph, e.1, e.0) {
      assert e in reported;
    }
    ReportedIffCyclic(graph, Paths(w.ordered), reported);
    if w.warnings != [] {
      assert w.warnings[0] in reported;
    }
  }

  /** What a record needs is defined before it, save the pairs listed. */
  ghost predicate NeedsFirst(ordered: seq<Record>, paths: set<string>, except: seq<(string, string)>) {
    forall i, d {:trigger ordered[i], d in paths} :: 0 <= i < |ordered| && d in Needs(ordered[i]) && d in paths ==>
      d in PathSet(ordered[..i]) || (ordered[i].path, d) in except
  }

  /** Only edges that lie on a cycle are listed, and some edge is if and only if there is a cycle. */
  ghost predicate ListsCycles(graph: Succ<string>, warnings: seq<(string, string)>) {
    && (forall e :: e in warnings ==> Edge(graph, e.0, e.1) && Reaches(graph, e.1, e.0))
    && (warnings != [] <==> Cyclic(graph))
  }

  lemma OverOrder(w: Walk, records: seq<Record>, local: map<string, Record>)
    requires Over(w, records, local)
    ensures NeedsFirst(w.ordered, PathSet(records), w.warnings)
    ensures Distinct(Paths(w.ordered)) && (forall r :: r in w.ordered ==> r in records)
  {
    var paths := PathSet(records);
    forall i, d {:trigger w.ordered[i], d in paths} | 0 <= i < |w.ordered| && d in Needs(w.ordered[i]) && d in paths
      ensures d in PathSet(w.ordered[..i]) || (w.ordered[i].path, d) in w.warnings
    {
      OverNeeds(w, records, local, i, d);
    }
  }

  ghost predicate FirstDone(records: seq<Record>, n: nat, done: set<string>) {
    forall k :: 0 <= k < n && k < |records| ==> records[k].path in done
  }

  lemma OneMoreDone(records: seq<Record>, n: nat, done: set<string>, more: set<string>)
    requires n < |records| && FirstDone(records, n, done) && done <= more && records[n].path in more
    ensures FirstDone(records, n + 1, more)
  {
  }

  method WalkAll(records: seq<Record>, local: map<string, Record>) returns (w: Walk)
    requires local.Keys == PathSet(records)
    requires forall p :: p in local ==> local[p] in records && local[p].path == p
    ensures Over(w, records, local)
  {
    w := Walk(map[], [], {}, {}, [], []);
    StartRuns(w, records, local);
    for n := 0 to |records|
      invariant Runs(w, records, local) && w.stack == []
      invariant FirstDone(records, n, w.done)
    {
      var seed := records[n];
      ghost var before := w.done;
      if seed.path !in w.done {
        w := VisitFrom(w, seed, records, local);
      }
      OneMoreDone(records, n, before, w.done);
    }
  }

  /**
   * The order of definition. Every path is defined exactly once, by one of its records; what a
   * record needs comes before it or the pair was reported; a reported pair lies on a cycle; and
   * cycles are reported if and only if there is one.
   */
  method TopoSort(records: seq<Record>)
    returns (ordered: seq<Record>, warnings: seq<(string, string)>, ghost graph: Succ<string>)
    ensures Distinct(Paths(ordered)) && PathSet(ordered) == PathSet(records)
    ensures forall r :: r in ordered ==> r in records
    ensures GraphOf(graph, ordered, PathSet(records))
    ensures NeedsFirst(ordered, PathSet(records), warnings)
    ensures ListsCycles(graph, warnings)
  {
    var local := LocalIndex(records);
    var w := WalkAll(records, local);
    OverGraph(w, records, local);
    OverOrder(w, records, local);
    OverCycles(w, records, local);
    ordered, warnings, graph := w.ordered, w.warnings, Graph(w.pushed, PathSet(records));
  }
}
