/**
 * Depth-first post-order with an explicit stack, as both emitters run it: what every step of the
 * loop keeps, and what the finished order says about the graph.
 */
module DepthFirst {
  import opened Common

  /** A node being visited, the successors to look at, and how many were looked at already. */
  datatype Frame<N> = Frame(node: N, deps: seq<N>, at: nat)

  /** The successors of every node visited so far. */
  type Succ<N> = map<N, set<N>>

  ghost predicate Edge<N>(succ: Succ<N>, u: N, v: N) { u in succ && v in succ[u] }

  ghost predicate IsWalk<N>(succ: Succ<N>, w: seq<N>) {
    |w| > 0 && forall i :: 0 <= i < |w| - 1 ==> Edge(succ, w[i], w[i + 1])
  }

  /** There is a walk from u to v. */
  ghost predicate Reaches<N(!new)>(succ: Succ<N>, u: N, v: N) {
    exists w :: IsWalk(succ, w) && w[0] == u && w[|w| - 1] == v
  }

  /** A closed walk of at least one edge. */
  ghost predicate IsCycle<N>(succ: Succ<N>, w: seq<N>) {
    |w| > 1 && IsWalk(succ, w) && w[0] == w[|w| - 1]
  }

  ghost predicate Cyclic<N(!new)>(succ: Succ<N>) { exists w :: IsCycle(succ, w) }

  // ---------------------------------------------------------------- the loop invariant

  /** A frame lists the node's successors, save those that were finished when it was pushed. */
  ghost predicate FrameOk<N>(succ: Succ<N>, f: Frame<N>, done: set<N>) {
    && f.node in succ && f.node !in done && f.at <= |f.deps|
    && (forall v :: v in f.deps ==> v in succ[f.node])
    && (forall v :: v in succ[f.node] ==> v in f.deps || v in done)
  }

  /** The node above is the successor its parent looked at last. */
  ghost predicate Linked<N>(lower: Frame<N>, upper: Frame<N>) {
    0 < lower.at <= |lower.deps| && lower.deps[lower.at - 1] == upper.node
  }

  /** The stack is a path of distinct open nodes. */
  ghost predicate StackOk<N>(succ: Succ<N>, stack: seq<Frame<N>>, done: set<N>) {
    && (forall k {:trigger stack[k]} :: 0 <= k < |stack| ==> FrameOk(succ, stack[k], done))
    && (forall k {:trigger Linked(stack[k], stack[k + 1])} :: 0 <= k < |stack| - 1 ==> Linked(stack[k], stack[k + 1]))
    && (forall j, k :: 0 <= j < k < |stack| ==> stack[j].node != stack[k].node)
  }

  ghost predicate OnStack<N>(stack: seq<Frame<N>>, u: N) {
    exists k :: 0 <= k < |stack| && stack[k].node == u
  }

  /** A successor looked at is finished or was reported, unless it is the node above on the stack. */
  ghost predicate FrameLooked<N>(f: Frame<N>, top: bool, done: set<N>, reported: set<(N, N)>) {
    forall i {:trigger f.deps[i]} :: 0 <= i < f.at && i < |f.deps| ==>
      f.deps[i] in done || (f.node, f.deps[i]) in reported || (!top && i == f.at - 1)
  }

  ghost predicate LookedAt<N>(stack: seq<Frame<N>>, done: set<N>, reported: set<(N, N)>) {
    forall k {:trigger stack[k]} :: 0 <= k < |stack| ==> FrameLooked(stack[k], k == |stack| - 1, done, reported)
  }

  ghost predicate Settled<N>(succ: Succ<N>, before: seq<N>, u: N, reported: set<(N, N)>) {
    u in succ && forall v :: v in succ[u] ==> v in before || (u, v) in reported
  }

  /** Every successor of a finished node comes before it in the order or was reported. */
  ghost predicate OrderOk<N>(succ: Succ<N>, order: seq<N>, reported: set<(N, N)>) {
    && Distinct(order)
    && (forall i {:trigger order[i]} :: 0 <= i < |order| ==> Settled(succ, order[..i], order[i], reported))
  }

  /** Only edges that lie on a cycle are reported. */
  ghost predicate ReportsOk<N(!new)>(succ: Succ<N>, reported: set<(N, N)>) {
    forall e {:trigger e in reported} :: e in reported ==> Edge(succ, e.0, e.1) && Reaches(succ, e.1, e.0)
  }

  ghost predicate Visited<N(!new)>(succ: Succ<N>, stack: seq<Frame<N>>, done: set<N>, order: seq<N>) {
    && (forall v :: v in done <==> v in order)
    && (forall v {:trigger v in succ} :: v in succ <==> v in done || OnStack(stack, v))
  }

  ghost predicate Inv<N(!new)>(succ: Succ<N>, stack: seq<Frame<N>>, done: set<N>, order: seq<N>,
                               reported: set<(N, N)>) {
    && StackOk(succ, stack, done) && LookedAt(stack, done, reported)
    && OrderOk(succ, order, reported) && ReportsOk(succ, reported)
    && Visited(succ, stack, done, order)
  }

  // ---------------------------------------------------------------- the steps

  /** The node at the top of the stack stands where a newly pushed node must hang. */
  ghost predicate Hangs<N>(stack: seq<Frame<N>>, node: N) {
    |stack| > 0 ==> var top := stack[|stack| - 1]; 0 < top.at <= |top.deps| && top.deps[top.at - 1] == node
  }

  lemma PushStack<N(!new)>(succ: Succ<N>, stack: seq<Frame<N>>, done: set<N>, node: N, all: set<N>, deps: seq<N>)
    requires StackOk(succ, stack, done) && node !in succ && node !in done && Hangs(stack, node)
    requires (forall v :: v in deps ==> v in all) && (forall v :: v in all ==> v in deps || v in done)
    ensures StackOk(succ[node := all], stack + [Frame(node, deps, 0)], done)
  {
    var succ', stack' := succ[node := all], stack + [Frame(node, deps, 0)];
    forall k | 0 <= k < |stack'| ensures FrameOk(succ', stack'[k], done) {
      if k < |stack| {
        assert FrameOk(succ, stack[k], done);
      }
    }
    forall k | 0 <= k < |stack'| - 1 ensures Linked(stack'[k], stack'[k + 1]) {
      if k < |stack| - 1 {
        assert Linked(stack[k], stack[k + 1]);
      }
    }
    forall j, k | 0 <= j < k < |stack'| ensures stack'[j].node != stack'[k].node {
      assert FrameOk(succ, stack[j], done);
    }
  }

  lemma ReportsStand<N(!new)>(succ: Succ<N>, reported: set<(N, N)>, node: N, all: set<N>)
    requires ReportsOk(succ, reported) && node !in succ
    ensures ReportsOk(succ[node := all], reported)
  {
    var succ' := succ[node := all];
    forall e {:trigger e in reported} | e in reported ensures Edge(succ', e.0, e.1) && Reaches(succ', e.1, e.0) {
      var w :| IsWalk(succ, w) && w[0] == e.1 && w[|w| - 1] == e.0;
      forall i | 0 <= i < |w| - 1 ensures Edge(succ', w[i], w[i + 1]) {
        assert Edge(succ, w[i], w[i + 1]);
      }
      assert IsWalk(succ', w);
    }
  }

  lemma PushVisited<N(!new)>(succ: Succ<N>, stack: seq<Frame<N>>, done: set<N>, order: seq<N>, f: Frame<N>, all: set<N>)
    requires Visited(succ, stack, done, order)
    ensures Visited(succ[f.node := all], stack + [f], done, order)
  {
    var succ', stack' := succ[f.node := all], stack + [f];
    forall v {:trigger v in succ'} ensures v in succ' <==> v in done || OnStack(stack', v) {
      assert stack'[|stack|] == f;
      if OnStack(stack, v) {
        var k :| 0 <= k < |stack| && stack[k].node == v;
        assert stack'[k].node == v;
      }
    }
  }

  /** A walk starts: the stack is empty and the node was not seen before. */
  lemma StartKeeps<N(!new)>(succ: Succ<N>, stack: seq<Frame<N>>, done: set<N>, order: seq<N>, reported: set<(N, N)>,
                            node: N, all: set<N>, deps: seq<N>)
    requires Inv(succ, stack, done, order, reported) && stack == [] && node !in succ
    requires (forall v :: v in deps ==> v in all) && (forall v :: v in all ==> v in deps || v in done)
    ensures Inv(succ[node := all], stack + [Frame(node, deps, 0)], done, order, reported)
  {
    PushStack(succ, stack, done, node, all, deps);
    ReportsStand(succ, reported, node, all);
    PushVisited(succ, stack, done, order, Frame(node, deps, 0), all);
    SettledStands(succ, order, reported, node, all);
  }

  /** The stack with the top frame one successor further on. */
  function Advanced<N>(stack: seq<Frame<N>>): seq<Frame<N>>
    requires |stack| > 0
  {
    var top := stack[|stack| - 1];
    stack[..|stack| - 1] + [top.(at := top.at + 1)]
  }

  /** Looking at one more successor, whatever is then done about it. */
  lemma AdvanceStack<N(!new)>(succ: Succ<N>, stack: seq<Frame<N>>, done: set<N>)
    requires |stack| > 0 && stack[|stack| - 1].at < |stack[|stack| - 1].deps|
    requires StackOk(succ, stack, done)
    ensures StackOk(succ, Advanced(stack), done)
  {
    var stack' := Advanced(stack);
    forall k | 0 <= k < |stack'| ensures FrameOk(succ, stack'[k], done) {
      assert FrameOk(succ, stack[k], done);
    }
    forall k | 0 <= k < |stack'| - 1 ensures Linked(stack'[k], stack'[k + 1]) {
      assert Linked(stack[k], stack[k + 1]);
    }
    forall j, k | 0 <= j < k < |stack'| ensures stack'[j].node != stack'[k].node {
      assert stack[j].node != stack[k].node;
    }
  }

  /** Two stacks of the same nodes hold the same nodes. */
  lemma SameOnStack<N(!new)>(stack: seq<Frame<N>>, other: seq<Frame<N>>, v: N)
    requires |stack| == |other| && forall k :: 0 <= k < |stack| ==> stack[k].node == other[k].node
    ensures OnStack(stack, v) <==> OnStack(other, v)
  {
    if OnStack(stack, v) {
      var k :| 0 <= k < |stack| && stack[k].node == v;
      assert other[k].node == v;
    }
    if OnStack(other, v) {
      var k :| 0 <= k < |stack| && other[k].node == v;
      assert stack[k].node == v;
    }
  }

  lemma AdvanceVisited<N(!new)>(succ: Succ<N>, stack: seq<Frame<N>>, done: set<N>, order: seq<N>)
    requires |stack| > 0 && Visited(succ, stack, done, order)
    ensures Visited(succ, Advanced(stack), done, order)
  {
    forall v {:trigger v in succ} ensures v in succ <==> v in done || OnStack(Advanced(stack), v) {
      SameOnStack(stack, Advanced(stack), v);
    }
  }

  /** The successor is finished already. */
  lemma SkipKeeps<N(!new)>(succ: Succ<N>, stack: seq<Frame<N>>, done: set<N>, order: seq<N>, reported: set<(N, N)>)
    requires Inv(succ, stack, done, order, reported)
    requires |stack| > 0 && stack[|stack| - 1].at < |stack[|stack| - 1].deps|
    requires stack[|stack| - 1].deps[stack[|stack| - 1].at] in done
    ensures Inv(succ, Advanced(stack), done, order, reported)
  {
    AdvanceStack(succ, stack, done);
    AdvanceVisited(succ, stack, done, order);
    TopLooked(stack, done, reported);
  }

  /** With its last look accounted for, the top frame is looked at in full, and the others as before. */
  lemma TopLooked<N(!new)>(stack: seq<Frame<N>>, done: set<N>, reported: set<(N, N)>)
    requires |stack| > 0 && stack[|stack| - 1].at < |stack[|stack| - 1].deps|
    requires forall k {:trigger stack[k]} :: 0 <= k < |stack| ==>
             FrameLooked(stack[k], k == |stack| - 1, done, reported)
    requires var top := stack[|stack| - 1];
             top.deps[top.at] in done || (top.node, top.deps[top.at]) in reported
    ensures LookedAt(Advanced(stack), done, reported)
  {
    var stack' := Advanced(stack);
    forall k {:trigger stack'[k]} | 0 <= k < |stack'|
      ensures FrameLooked(stack'[k], k == |stack'| - 1, done, reported)
    {
      assert FrameLooked(stack[k], k == |stack| - 1, done, reported);
    }
  }

  lemma StackEdge<N(!new)>(succ: Succ<N>, stack: seq<Frame<N>>, done: set<N>, k: nat)
    requires StackOk(succ, stack, done) && k + 1 < |stack|
    ensures Edge(succ, stack[k].node, stack[k + 1].node)
  {
    assert Linked(stack[k], stack[k + 1]);
    assert FrameOk(succ, stack[k], done);
    assert stack[k].deps[stack[k].at - 1] in stack[k].deps;
  }

  /** From a node on the stack to any node above it leads a walk: the stack itself. */
  lemma {:induction false} StackWalk<N(!new)>(succ: Succ<N>, stack: seq<Frame<N>>, done: set<N>, j: nat, k: nat)
    returns (w: seq<N>)
    requires StackOk(succ, stack, done) && j <= k < |stack|
    ensures IsWalk(succ, w) && w[0] == stack[j].node && w[|w| - 1] == stack[k].node
    decreases k - j
  {
    if j == k {
      w := [stack[j].node];
    } else {
      var lower := StackWalk(succ, stack, done, j, k - 1);
      StackEdge(succ, stack, done, k - 1);
      w := lower + [stack[k].node];
      forall i | 0 <= i < |w| - 1 ensures Edge(succ, w[i], w[i + 1]) {
        if i < |lower| - 1 {
          assert Edge(succ, lower[i], lower[i + 1]);
        }
      }
    }
  }

  /** Pushing the node that the top frame looks at next leaves the frames below looked at. */
  lemma DescendLooked<N(!new)>(stack: seq<Frame<N>>, done: set<N>, reported: set<(N, N)>, f: Frame<N>)
    requires |stack| > 0 && stack[|stack| - 1].at < |stack[|stack| - 1].deps| && f.at == 0
    requires LookedAt(stack, done, reported)
    ensures LookedAt(Advanced(stack) + [f], done, reported)
  {
    var stack' := Advanced(stack) + [f];
    forall k {:trigger stack'[k]} | 0 <= k < |stack'|
      ensures FrameLooked(stack'[k], k == |stack'| - 1, done, reported)
    {
      if k < |stack| {
        assert FrameLooked(stack[k], k == |stack| - 1, done, reported);
      }
    }
  }

  /** The successor was not seen before: it goes on the stack. */
  lemma DescendKeeps<N(!new)>(succ: Succ<N>, stack: seq<Frame<N>>, done: set<N>, order: seq<N>, reported: set<(N, N)>,
                              node: N, all: set<N>, deps: seq<N>)
    requires Inv(succ, stack, done, order, reported) && node !in succ
    requires |stack| > 0 && stack[|stack| - 1].at < |stack[|stack| - 1].deps|
    requires stack[|stack| - 1].deps[stack[|stack| - 1].at] == node
    requires (forall v :: v in deps ==> v in all) && (forall v :: v in all ==> v in deps || v in done)
    ensures Inv(succ[node := all], Advanced(stack) + [Frame(node, deps, 0)], done, order, reported)
  {
    AdvanceStack(succ, stack, done);
    AdvanceVisited(succ, stack, done, order);
    PushStack(succ, Advanced(stack), done, node, all, deps);
    DescendLooked(stack, done, reported, Frame(node, deps, 0));
    ReportsStand(succ, reported, node, all);
    PushVisited(succ, Advanced(stack), done, order, Frame(node, deps, 0), all);
    SettledStands(succ, order, reported, node, all);
  }

  lemma SettledStands<N(!new)>(succ: Succ<N>, order: seq<N>, reported: set<(N, N)>, node: N, all: set<N>)
    requires OrderOk(succ, order, reported) && node !in succ
    ensures OrderOk(succ[node := all], order, reported)
  {
    forall i {:trigger order[i]} | 0 <= i < |order| ensures Settled(succ[node := all], order[..i], order[i], reported) {
      assert Settled(succ, order[..i], order[i], reported);
    }
  }

  lemma MoreReportedLooks<N>(stack: seq<Frame<N>>, done: set<N>, reported: set<(N, N)>, e: (N, N))
    requires LookedAt(stack, done, reported)
    ensures LookedAt(stack, done, reported + {e})
  {
    forall k {:trigger stack[k]} | 0 <= k < |stack|
      ensures FrameLooked(stack[k], k == |stack| - 1, done, reported + {e})
    {
      assert FrameLooked(stack[k], k == |stack| - 1, done, reported);
    }
  }

  lemma MoreReportedOrder<N(!new)>(succ: Succ<N>, order: seq<N>, reported: set<(N, N)>, e: (N, N))
    requires OrderOk(succ, order, reported)
    ensures OrderOk(succ, order, reported + {e})
  {
    forall i {:trigger order[i]} | 0 <= i < |order| ensures Settled(succ, order[..i], order[i], reported + {e}) {
      assert Settled(succ, order[..i], order[i], reported);
    }
  }

  /** The successor is open: the edge closes a cycle and is reported. */
  lemma ReportKeeps<N(!new)>(succ: Succ<N>, stack: seq<Frame<N>>, done: set<N>, order: seq<N>, reported: set<(N, N)>)
    requires Inv(succ, stack, done, order, reported)
    requires |stack| > 0 && stack[|stack| - 1].at < |stack[|stack| - 1].deps|
    requires OnStack(stack, stack[|stack| - 1].deps[stack[|stack| - 1].at])
    ensures var top := stack[|stack| - 1];
            Inv(succ, Advanced(stack), done, order, reported + {(top.node, top.deps[top.at])})
  {
    var e := (stack[|stack| - 1].node, stack[|stack| - 1].deps[stack[|stack| - 1].at]);
    OpenCloses(succ, stack, done);
    AdvanceStack(succ, stack, done);
    AdvanceVisited(succ, stack, done, order);
    MoreReportedLooks(stack, done, reported, e);
    TopLooked(stack, done, reported + {e});
    MoreReportedOrder(succ, order, reported, e);
  }

  /** An open successor of the top is below it on the stack, so the edge to it closes a cycle. */
  lemma OpenCloses<N(!new)>(succ: Succ<N>, stack: seq<Frame<N>>, done: set<N>)
    requires StackOk(succ, stack, done) && |stack| > 0 && stack[|stack| - 1].at < |stack[|stack| - 1].deps|
    requires OnStack(stack, stack[|stack| - 1].deps[stack[|stack| - 1].at])
    ensures var top := stack[|stack| - 1];
            Edge(succ, top.node, top.deps[top.at]) && Reaches(succ, top.deps[top.at], top.node)
  {
    var top := stack[|stack| - 1];
    var dep := top.deps[top.at];
    assert FrameOk(succ, top, done);
    var j :| 0 <= j < |stack| && stack[j].node == dep;
    var w := StackWalk(succ, stack, done, j, |stack| - 1);
    assert dep in top.deps;
  }

  lemma PopStack<N(!new)>(succ: Succ<N>, stack: seq<Frame<N>>, done: set<N>, reported: set<(N, N)>)
    requires |stack| > 0 && StackOk(succ, stack, done) && LookedAt(stack, done, reported)
    ensures var stack', done' := stack[..|stack| - 1], done + {stack[|stack| - 1].node};
            StackOk(succ, stack', done') && LookedAt(stack', done', reported)
  {
    var last := |stack| - 1;
    var stack', done' := stack[..last], done + {stack[last].node};
    forall k | 0 <= k < |stack'| ensures FrameOk(succ, stack'[k], done') {
      assert FrameOk(succ, stack[k], done) && stack[k].node != stack[last].node;
    }
    forall k | 0 <= k < |stack'| - 1 ensures Linked(stack'[k], stack'[k + 1]) {
      assert Linked(stack[k], stack[k + 1]);
    }
    forall k {:trigger stack'[k]} | 0 <= k < |stack'|
      ensures FrameLooked(stack'[k], k == |stack'| - 1, done', reported)
    {
      assert FrameLooked(stack[k], k == last, done, reported);
      if k == last - 1 {
        assert Linked(stack[k], stack[k + 1]);
      }
    }
  }

  lemma PopOrder<N(!new)>(succ: Succ<N>, order: seq<N>, reported: set<(N, N)>, node: N)
    requires OrderOk(succ, order, reported) && node !in order && Settled(succ, order, node, reported)
    ensures OrderOk(succ, order + [node], reported)
  {
    var order' := order + [node];
    forall i {:trigger order'[i]} | 0 <= i < |order'| ensures Settled(succ, order'[..i], order'[i], reported) {
      if i < |order| {
        assert Settled(succ, order[..i], order[i], reported);
        assert order'[..i] == order[..i];
      } else {
        assert order'[..i] == order;
      }
    }
  }

  /** Every successor was looked at: the node is finished. */
  lemma PopKeeps<N(!new)>(succ: Succ<N>, stack: seq<Frame<N>>, done: set<N>, order: seq<N>, reported: set<(N, N)>)
    requires Inv(succ, stack, done, order, reported)
    requires |stack| > 0 && stack[|stack| - 1].at == |stack[|stack| - 1].deps|
    ensures var node := stack[|stack| - 1].node;
            Inv(succ, stack[..|stack| - 1], done + {node}, order + [node], reported)
  {
    var last := |stack| - 1;
    var top := stack[last];
    assert FrameOk(succ, top, done) && FrameLooked(top, true, done, reported);
    PopStack(succ, stack, done, reported);
    PopOrder(succ, order, reported, top.node);
    forall v {:trigger v in succ} ensures v in succ <==> v in done + {top.node} || OnStack(stack[..last], v) {
      if OnStack(stack, v) {
        var k :| 0 <= k < |stack| && stack[k].node == v;
        if k < last {
          assert stack[..last][k].node == v;
        }
      }
      if OnStack(stack[..last], v) {
        var k :| 0 <= k < last && stack[..last][k].node == v;
        assert stack[k].node == v;
      }
    }
  }

  // ---------------------------------------------------------------- what the finished order says

  /** The place of a node in an order that lists it. */
  ghost function Place<N>(order: seq<N>, u: N): (i: nat)
    requires u in order
    ensures i < |order| && order[i] == u
  {
    var i :| 0 <= i < |order| && order[i] == u;
    i
  }

  /** An edge that was not reported leads to an earlier place. */
  lemma EdgeGoesBack<N(!new)>(succ: Succ<N>, order: seq<N>, reported: set<(N, N)>, u: N, v: N)
    requires OrderOk(succ, order, reported) && (forall x :: x in succ ==> x in order)
    requires Edge(succ, u, v) && (u, v) !in reported
    ensures v in order && u in order && Place(order, v) < Place(order, u)
  {
    var i := Place(order, u);
    assert Settled(succ, order[..i], order[i], reported);
    var j :| 0 <= j < i && order[..i][j] == v;
    assert order[j] == v;
  }

  lemma {:induction false} WalkGoesBack<N(!new)>(succ: Succ<N>, order: seq<N>, reported: set<(N, N)>, w: seq<N>)
    requires OrderOk(succ, order, reported) && (forall x :: x in succ ==> x in order)
    requires |w| > 1 && IsWalk(succ, w)
    requires forall i :: 0 <= i < |w| - 1 ==> (w[i], w[i + 1]) !in reported
    ensures w[0] in order && w[|w| - 1] in order && Place(order, w[|w| - 1]) < Place(order, w[0])
  {
    assert Edge(succ, w[0], w[0 + 1]) && (w[0], w[0 + 1]) !in reported;
    EdgeGoesBack(succ, order, reported, w[0], w[1]);
    if |w| > 2 {
      var rest := w[1..];
      forall i | 0 <= i < |rest| - 1 ensures Edge(succ, rest[i], rest[i + 1]) && (rest[i], rest[i + 1]) !in reported {
        assert Edge(succ, w[i + 1], w[i + 1 + 1]) && (w[i + 1], w[i + 1 + 1]) !in reported;
      }
      WalkGoesBack(succ, order, reported, rest);
    }
  }

  /** Every cycle of the graph has an edge among those reported. */
  lemma EveryCycleReported<N(!new)>(succ: Succ<N>, order: seq<N>, reported: set<(N, N)>, w: seq<N>)
    requires OrderOk(succ, order, reported) && (forall x :: x in succ ==> x in order)
    requires IsCycle(succ, w)
    ensures exists i :: 0 <= i < |w| - 1 && (w[i], w[i + 1]) in reported
  {
    if forall i :: 0 <= i < |w| - 1 ==> (w[i], w[i + 1]) !in reported {
      WalkGoesBack(succ, order, reported, w);
    }
  }

  /** Cycles are reported if and only if there are any. */
  lemma ReportedIffCyclic<N(!new)>(succ: Succ<N>, order: seq<N>, reported: set<(N, N)>)
    requires OrderOk(succ, order, reported) && (forall x :: x in succ ==> x in order)
    requires ReportsOk(succ, reported)
    ensures reported != {} <==> Cyclic(succ)
  {
    if reported != {} {
      var e :| e in reported;
      var w :| IsWalk(succ, w) && w[0] == e.1 && w[|w| - 1] == e.0;
      var c := w + [e.1];
      forall i | 0 <= i < |c| - 1 ensures Edge(succ, c[i], c[i + 1]) {
        if i < |w| - 1 {
          assert Edge(succ, w[i], w[i + 1]);
        }
      }
      assert IsCycle(succ, c);
    }
    if Cyclic(succ) {
      var w :| IsCycle(succ, w);
      EveryCycleReported(succ, order, reported, w);
    }
  }
}
