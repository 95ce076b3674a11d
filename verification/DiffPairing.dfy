/**
 * How the diff pairs members that share a name, and how it finds renames among what is left: the
 * k-th of a name with the k-th of that name, and the greedy matching, which no matching beats.
 */
module DiffPairing {
  import opened Common

  // ---------------------------------------------------------------- pairing by name and occurrence

  /** Where the name stands among the first n, ascending. */
  function Positions(names: seq<string>, n: nat, name: string): seq<nat>
    requires n <= |names|
  {
    if n == 0 then [] else Positions(names, n - 1, name) + (if names[n - 1] == name then [n - 1] else [])
  }

  /** The i-th of xs goes with the one of ys that has its name and its occurrence. */
  function Partner(xs: seq<string>, ys: seq<string>, i: nat): Option<nat>
    requires i < |xs|
  {
    var occurrence, candidates := |Positions(xs, i, xs[i])|, Positions(ys, |ys|, xs[i]);
    if occurrence < |candidates| then Some(candidates[occurrence]) else None
  }

  /** The k-th position holds the name, and k earlier ones do. */
  lemma {:induction false} PositionAt(names: seq<string>, n: nat, name: string, k: nat)
    requires n <= |names| && k < |Positions(names, n, name)|
    ensures Positions(names, n, name)[k] < n && names[Positions(names, n, name)[k]] == name
    ensures |Positions(names, Positions(names, n, name)[k], name)| == k
    decreases n
  {
    if k < |Positions(names, n - 1, name)| {
      PositionAt(names, n - 1, name, k);
    }
  }

  /** Every place that holds the name is a position: the one its occurrence says. */
  lemma {:induction false} PositionOf(names: seq<string>, n: nat, i: nat)
    requires i < n <= |names|
    ensures |Positions(names, i, names[i])| < |Positions(names, n, names[i])|
    ensures Positions(names, n, names[i])[|Positions(names, i, names[i])|] == i
    decreases n
  {
    if i < n - 1 {
      PositionOf(names, n - 1, i);
    }
  }

  /** Partners have one name, and each is the other's. */
  lemma PartnerSymmetric(xs: seq<string>, ys: seq<string>, i: nat)
    requires i < |xs| && Partner(xs, ys, i).Some?
    ensures var j := Partner(xs, ys, i).value;
            j < |ys| && ys[j] == xs[i] && Partner(ys, xs, j) == Some(i)
  {
    var occurrence := |Positions(xs, i, xs[i])|;
    PositionAt(ys, |ys|, xs[i], occurrence);
    PositionOf(xs, |xs|, i);
  }

  /** The places before the i-th that hold its name. */
  ghost function Earlier(names: seq<string>, i: nat): set<nat>
    requires i < |names|
  {
    set k | 0 <= k < i && names[k] == names[i]
  }

  /** The two have one name, and as many of it before them. */
  ghost predicate Mates(xs: seq<string>, ys: seq<string>, i: nat, j: nat) {
    i < |xs| && j < |ys| && xs[i] == ys[j] && |Earlier(xs, i)| == |Earlier(ys, j)|
  }

  ghost predicate HasMate(xs: seq<string>, ys: seq<string>, i: nat) { exists j: nat :: Mates(xs, ys, i, j) }

  lemma {:induction false} PositionsCount(names: seq<string>, n: nat, name: string)
    requires n <= |names|
    ensures |Positions(names, n, name)| == |set k | 0 <= k < n && names[k] == name|
  {
    var before, upTo := set k | 0 <= k < n - 1 && names[k] == name, set k | 0 <= k < n && names[k] == name;
    if n > 0 {
      PositionsCount(names, n - 1, name);
      assert upTo == before + (if names[n - 1] == name then {n - 1} else {});
    } else {
      assert upTo == {};
    }
  }

  /** The partner of a member is the one of its name with as many before it, when there is one. */
  lemma PartnerIff(xs: seq<string>, ys: seq<string>, i: nat, j: nat)
    requires i < |xs|
    ensures Partner(xs, ys, i) == Some(j) <==> Mates(xs, ys, i, j)
  {
    PositionsCount(xs, i, xs[i]);
    if Partner(xs, ys, i) == Some(j) {
      PositionAt(ys, |ys|, xs[i], |Positions(xs, i, xs[i])|);
      PositionsCount(ys, j, xs[i]);
    }
    if Mates(xs, ys, i, j) {
      PositionsCount(ys, j, ys[j]);
      PositionOf(ys, |ys|, j);
    }
  }

  /** Those without a partner are those that nothing mates. */
  lemma UnpairedIff(xs: seq<string>, ys: seq<string>, i: nat)
    ensures i in Unpaired(xs, ys) <==> i < |xs| && !HasMate(xs, ys, i)
  {
    NonesAre(Partners(xs, ys), i);
    if i < |xs| {
      if Partner(xs, ys, i).Some? {
        PartnerIff(xs, ys, i, Partner(xs, ys, i).value);
      } else {
        forall j: nat ensures !Mates(xs, ys, i, j) {
          PartnerIff(xs, ys, i, j);
        }
      }
    }
  }

  lemma AllMated(xs: seq<string>, ys: seq<string>)
    ensures Unpaired(xs, ys) == [] <==> forall i: nat :: i < |xs| ==> HasMate(xs, ys, i)
  {
    forall i: nat ensures i in Unpaired(xs, ys) <==> i < |xs| && !HasMate(xs, ys, i) {
      UnpairedIff(xs, ys, i);
    }
    if Unpaired(xs, ys) != [] {
      assert Unpaired(xs, ys)[0] in Unpaired(xs, ys);
    }
  }

  /** Members of one name pair in order. */
  lemma PartnersInOrder(xs: seq<string>, ys: seq<string>, i: nat, k: nat)
    requires i < k < |xs| && xs[i] == xs[k] && Partner(xs, ys, k).Some?
    ensures Partner(xs, ys, i).Some? && Partner(xs, ys, i).value < Partner(xs, ys, k).value
  {
    PositionOf(xs, k, i);
    PositionsAscend(ys, |ys|, xs[i], |Positions(xs, i, xs[i])|, |Positions(xs, k, xs[i])|);
  }

  lemma {:induction false} PositionsAscend(names: seq<string>, n: nat, name: string, j: nat, k: nat)
    requires n <= |names| && j < k < |Positions(names, n, name)|
    ensures Positions(names, n, name)[j] < Positions(names, n, name)[k]
    decreases n
  {
    if k < |Positions(names, n - 1, name)| {
      PositionsAscend(names, n - 1, name, j, k);
    } else {
      PositionAt(names, n - 1, name, j);
    }
  }

  /** A member is its own partner in its own list. */
  lemma SelfPartner(xs: seq<string>, i: nat)
    requires i < |xs|
    ensures Partner(xs, xs, i) == Some(i)
  {
    PositionOf(xs, |xs|, i);
  }

  // ---------------------------------------------------------------- conservation

  /** The partner of each. */
  function Partners(xs: seq<string>, ys: seq<string>): (ps: seq<Option<nat>>)
    ensures |ps| == |xs|
  {
    seq(|xs|, i requires 0 <= i < |xs| => Partner(xs, ys, i))
  }

  /** The places that hold nothing, ascending. */
  function Nones(ps: seq<Option<nat>>): (u: seq<nat>)
    ensures forall k :: 0 <= k < |u| ==> u[k] < |ps|
  {
    if ps == [] then [] else
    Nones(ps[..|ps| - 1]) + (if ps[|ps| - 1].None? then [|ps| - 1] else [])
  }

  /** Those without a partner. */
  function Unpaired(xs: seq<string>, ys: seq<string>): (u: seq<nat>)
    ensures forall k :: 0 <= k < |u| ==> u[k] < |xs|
  {
    Nones(Partners(xs, ys))
  }

  ghost function Somes(ps: seq<Option<nat>>): set<nat> { set i | 0 <= i < |ps| && ps[i].Some? }

  lemma {:induction false} NonesCount(ps: seq<Option<nat>>)
    ensures |Nones(ps)| + |Somes(ps)| == |ps|
  {
    if ps == [] {
      assert Somes(ps) == {};
    } else {
      var n := |ps| - 1;
      NonesCount(ps[..n]);
      SomesMore(ps);
    }
  }

  lemma SomesMore(ps: seq<Option<nat>>)
    requires ps != []
    ensures var n := |ps| - 1; |Somes(ps)| == |Somes(ps[..n])| + (if ps[n].Some? then 1 else 0)
  {
    var n := |ps| - 1;
    assert Somes(ps) == Somes(ps[..n]) + (if ps[n].Some? then {n} else {});
  }

  lemma {:induction false} NonesAre(ps: seq<Option<nat>>, i: nat)
    ensures i in Nones(ps) <==> i < |ps| && ps[i].None?
  {
    if ps != [] {
      NonesAre(ps[..|ps| - 1], i);
    }
  }

  lemma {:induction false} InjectionCount(a: set<nat>, b: set<nat>, f: map<nat, nat>)
    requires f.Keys == a && (forall x :: x in a ==> f[x] in b)
    requires forall x, y :: x in a && y in a && f[x] == f[y] ==> x == y
    ensures |a| <= |b|
    decreases a
  {
    if a != {} {
      var x :| x in a;
      InjectionCount(a - {x}, b - {f[x]}, map y | y in a && y != x :: f[y]);
      assert |a - {x}| == |a| - 1 && |b - {f[x]}| == |b| - 1;
    }
  }

  lemma PairedAtMost(xs: seq<string>, ys: seq<string>)
    ensures |Somes(Partners(xs, ys))| <= |Somes(Partners(ys, xs))|
  {
    var ps, qs := Partners(xs, ys), Partners(ys, xs);
    var a, b := Somes(ps), Somes(qs);
    var f: map<nat, nat> := map i | i in a :: ps[i].value;
    forall i | i in a ensures f[i] in b && qs[f[i]] == Some(i) {
      PartnerSymmetric(xs, ys, i);
    }
    InjectionCount(a, b, f);
  }

  /** Pairs are counted alike from both sides: nothing is lost and nothing is counted twice. */
  lemma PairsConserved(xs: seq<string>, ys: seq<string>)
    ensures |xs| - |Unpaired(xs, ys)| == |ys| - |Unpaired(ys, xs)|
  {
    NonesCount(Partners(xs, ys));
    NonesCount(Partners(ys, xs));
    PairedAtMost(xs, ys);
    PairedAtMost(ys, xs);
  }

  // ---------------------------------------------------------------- renames

  /** The first of the keys not taken that equals the key. */
  function FirstFree<K(==)>(added: seq<K>, key: K, taken: set<nat>, from: nat): (at: Option<nat>)
    requires from <= |added|
    ensures at.Some? ==> from <= at.value < |added| && at.value !in taken && added[at.value] == key
    ensures at.Some? ==> forall i :: from <= i < at.value ==> i in taken || added[i] != key
    ensures at.None? ==> forall i :: from <= i < |added| ==> i in taken || added[i] != key
    decreases |added| - from
  {
    if from == |added| then None
    else if from !in taken && added[from] == key then Some(from)
    else FirstFree(added, key, taken, from + 1)
  }

  function Taken(matches: seq<Option<nat>>): set<nat> { set m | m in matches && m.Some? :: m.value }

  /** Each of the first n removed takes the first added key of its own that is left. */
  function Greedy<K(==)>(removed: seq<K>, added: seq<K>, n: nat): (matches: seq<Option<nat>>)
    requires n <= |removed|
    ensures |matches| == n
  {
    if n == 0 then [] else
    var before := Greedy(removed, added, n - 1);
    before + [FirstFree(added, removed[n - 1], Taken(before), 0)]
  }

  function Hits(matches: seq<Option<nat>>): nat {
    if matches == [] then 0 else Hits(matches[..|matches| - 1]) + (if matches[|matches| - 1].Some? then 1 else 0)
  }

  /** The keys among the first n that are not taken. */
  ghost function Left<K>(keys: seq<K>, taken: set<nat>, n: nat): multiset<K>
    requires n <= |keys|
  {
    if n == 0 then multiset{} else
    Left(keys, taken, n - 1) + (if n - 1 in taken then multiset{} else multiset{keys[n - 1]})
  }

  lemma {:induction false} LeftNone<K>(keys: seq<K>, n: nat)
    requires n <= |keys|
    ensures Left(keys, {}, n) == multiset(keys[..n])
  {
    if n > 0 {
      LeftNone(keys, n - 1);
      assert keys[..n] == keys[..n - 1] + [keys[n - 1]];
    }
  }

  lemma {:induction false} LeftIn<K>(keys: seq<K>, taken: set<nat>, n: nat, key: K)
    requires n <= |keys|
    ensures key in Left(keys, taken, n) <==> exists i :: 0 <= i < n && i !in taken && keys[i] == key
  {
    if n > 0 {
      LeftIn(keys, taken, n - 1, key);
      var before, last := Left(keys, taken, n - 1), if n - 1 in taken then multiset{} else multiset{keys[n - 1]};
      assert Left(keys, taken, n) == before + last;
      assert key in before + last <==> key in before || key in last;
    }
  }

  lemma {:induction false} LeftBeyond<K>(keys: seq<K>, taken: set<nat>, n: nat, i: nat)
    requires n <= |keys| && n <= i
    ensures Left(keys, taken, n) == Left(keys, taken + {i}, n)
  {
    if n > 0 {
      LeftBeyond(keys, taken, n - 1, i);
      assert n - 1 in taken <==> n - 1 in taken + {i};
    }
  }

  lemma {:induction false} LeftTake<K>(keys: seq<K>, taken: set<nat>, n: nat, i: nat)
    requires n <= |keys| && i < n && i !in taken
    ensures Left(keys, taken, n) == Left(keys, taken + {i}, n) + multiset{keys[i]}
  {
    if i == n - 1 {
      LeftBeyond(keys, taken, n - 1, i);
    } else {
      LeftTake(keys, taken, n - 1, i);
      assert n - 1 in taken <==> n - 1 in taken + {i};
    }
  }

  /** Taking the first free key of a kind takes one of that kind, if there is one left. */
  lemma LeftStep<K>(added: seq<K>, taken: set<nat>, key: K, hit: Option<nat>)
    requires hit == FirstFree(added, key, taken, 0)
    ensures var left := Left(added, taken, |added|);
            && (hit.None? ==> key !in left)
            && (hit.Some? ==> left == Left(added, taken + {hit.value}, |added|) + multiset{key})
  {
    if hit.Some? {
      LeftTake(added, taken, |added|, hit.value);
    } else {
      LeftIn(added, taken, |added|, key);
    }
  }

  lemma LeavesStep<K>(a: multiset<K>, r: multiset<K>, key: K, left: multiset<K>, after: multiset<K>, hit: bool)
    requires left == a - r
    requires if hit then left == after + multiset{key} else key !in left && after == left
    ensures after == a - (r + multiset{key}) && |after| + (if hit then 1 else 0) == |left|
  {
    var all := a - (r + multiset{key});
    forall x ensures after[x] == all[x] {
      assert left[x] == (a - r)[x];
      assert hit ==> left[x] == (after + multiset{key})[x];
    }
    assert after == all;
  }

  /** What the greedy pass leaves is what is left when each key takes what it can. */
  ghost predicate Leaves<K>(removed: seq<K>, added: seq<K>, n: nat, matches: seq<Option<nat>>)
    requires n <= |removed|
  {
    && Left(added, Taken(matches), |added|) == multiset(added) - multiset(removed[..n])
    && Hits(matches) + |Left(added, Taken(matches), |added|)| == |added|
  }

  lemma LeavesNone<K>(removed: seq<K>, added: seq<K>)
    ensures Leaves(removed, added, 0, [])
  {
    assert Taken([]) == {};
    LeftNone(added, |added|);
    assert added[..|added|] == added;
  }

  lemma LeavesMore<K>(removed: seq<K>, added: seq<K>, n: nat, before: seq<Option<nat>>, hit: Option<nat>)
    requires 0 < n <= |removed| && Leaves(removed, added, n - 1, before)
    requires hit == FirstFree(added, removed[n - 1], Taken(before), 0)
    ensures Leaves(removed, added, n, before + [hit])
  {
    var taken := Taken(before);
    TakenMore(before, hit);
    LeftStep(added, taken, removed[n - 1], hit);
    assert taken + (if hit.Some? then {hit.value} else {}) == if hit.Some? then taken + {hit.value} else taken;
    HitsMore(before, hit);
    PrefixMore(removed, n);
    LeavesStep(multiset(added), multiset(removed[..n - 1]), removed[n - 1],
               Left(added, taken, |added|), Left(added, Taken(before + [hit]), |added|), hit.Some?);
  }

  lemma HitsMore(matches: seq<Option<nat>>, m: Option<nat>)
    ensures Hits(matches + [m]) == Hits(matches) + (if m.Some? then 1 else 0)
  {
    assert (matches + [m])[..|matches|] == matches;
  }

  lemma PrefixMore<K>(keys: seq<K>, n: nat)
    requires 0 < n <= |keys|
    ensures multiset(keys[..n]) == multiset(keys[..n - 1]) + multiset{keys[n - 1]}
  {
    assert keys[..n] == keys[..n - 1] + [keys[n - 1]];
  }

  lemma {:induction false} GreedyLeaves<K>(removed: seq<K>, added: seq<K>, n: nat)
    requires n <= |removed|
    ensures Leaves(removed, added, n, Greedy(removed, added, n))
  {
    if n == 0 {
      LeavesNone(removed, added);
    } else {
      GreedyLeaves(removed, added, n - 1);
      var before := Greedy(removed, added, n - 1);
      LeavesMore(removed, added, n, before, FirstFree(added, removed[n - 1], Taken(before), 0));
    }
  }

  lemma TakenMore(matches: seq<Option<nat>>, m: Option<nat>)
    ensures Taken(matches + [m]) == Taken(matches) + (if m.Some? then {m.value} else {})
  {
    assert m in matches + [m];
  }

  /** The greedy pass finds as many renames as the two sides have keys in common. */
  lemma GreedyFinds<K>(removed: seq<K>, added: seq<K>)
    ensures Hits(Greedy(removed, added, |removed|)) == |multiset(removed) * multiset(added)|
  {
    GreedyLeaves(removed, added, |removed|);
    assert removed[..|removed|] == removed;
    assert multiset(removed) * multiset(added) == multiset(added) * multiset(removed);
  }

  /** A one-to-one matching of removed with added on equal keys. */
  ghost predicate IsMatching<K>(removed: seq<K>, added: seq<K>, left: seq<nat>, right: seq<nat>) {
    && |left| == |right| && Distinct(left) && Distinct(right)
    && InRange(removed, left) && InRange(added, right)
    && forall i {:trigger left[i]} :: 0 <= i < |left| ==> removed[left[i]] == added[right[i]]
  }

  ghost predicate InRange<K>(keys: seq<K>, at: seq<nat>) { forall i :: 0 <= i < |at| ==> at[i] < |keys| }

  ghost function Picked<K>(keys: seq<K>, at: seq<nat>): multiset<K>
    requires InRange(keys, at)
  {
    if at == [] then multiset{} else Picked(keys, at[..|at| - 1]) + multiset{keys[at[|at| - 1]]}
  }

  ghost function Elements(at: seq<nat>): set<nat> { set i | i in at }

  lemma {:induction false} PickedLeft<K>(keys: seq<K>, at: seq<nat>)
    requires InRange(keys, at) && Distinct(at)
    ensures Picked(keys, at) + Left(keys, Elements(at), |keys|) == multiset(keys) && |Picked(keys, at)| == |at|
    decreases |at|
  {
    if at == [] {
      assert Elements(at) == {};
      LeftNone(keys, |keys|);
      assert keys[..|keys|] == keys;
    } else {
      var init, last := at[..|at| - 1], at[|at| - 1];
      PickedLeft(keys, init);
      assert last !in Elements(init);
      assert at == init + [last];
      PickedMore(keys, init, last);
    }
  }

  /** One more position picked is one less left. */
  lemma PickedMore<K>(keys: seq<K>, init: seq<nat>, last: nat)
    requires InRange(keys, init) && last < |keys| && last !in Elements(init)
    ensures Picked(keys, init + [last]) == Picked(keys, init) + multiset{keys[last]}
    ensures Left(keys, Elements(init), |keys|) == Left(keys, Elements(init + [last]), |keys|) + multiset{keys[last]}
  {
    LeftTake(keys, Elements(init), |keys|, last);
    ElementsMore(init, last);
    assert (init + [last])[..|init|] == init;
  }

  lemma ElementsMore(at: seq<nat>, last: nat)
    ensures Elements(at + [last]) == Elements(at) + {last}
  {
    assert last in at + [last];
  }

  /** No one-to-one matching finds more. */
  lemma NoMatchingBeats<K>(removed: seq<K>, added: seq<K>, left: seq<nat>, right: seq<nat>)
    requires IsMatching(removed, added, left, right)
    ensures |left| <= |multiset(removed) * multiset(added)|
  {
    PickedLeft(removed, left);
    PickedLeft(added, right);
    PickedSame(removed, added, left, right);
    Within(Picked(removed, left), multiset(removed), multiset(added));
  }

  lemma Within<K>(m: multiset<K>, a: multiset<K>, b: multiset<K>)
    requires m <= a && m <= b
    ensures |m| <= |a * b|
  {
    assert a * b == m + (a * b - m);
  }

  lemma {:induction false} PickedSame<K>(a: seq<K>, b: seq<K>, left: seq<nat>, right: seq<nat>)
    requires |left| == |right| && InRange(a, left) && InRange(b, right)
    requires forall i {:trigger left[i]} :: 0 <= i < |left| ==> a[left[i]] == b[right[i]]
    ensures Picked(a, left) == Picked(b, right)
    decreases |left|
  {
    if left != [] {
      var n := |left| - 1;
      forall i {:trigger left[..n][i]} | 0 <= i < n ensures a[left[..n][i]] == b[right[..n][i]] {
        assert left[..n][i] == left[i];
      }
      PickedSame(a, b, left[..n], right[..n]);
    }
  }

  /** The greedy matching is as large as any one-to-one matching on equal keys. */
  lemma GreedyIsMaximum<K>(removed: seq<K>, added: seq<K>, left: seq<nat>, right: seq<nat>)
    requires IsMatching(removed, added, left, right)
    ensures |left| <= Hits(Greedy(removed, added, |removed|))
  {
    NoMatchingBeats(removed, added, left, right);
    GreedyFinds(removed, added);
  }

  /** And it is itself one: on equal keys, no added member taken twice. */
  lemma {:induction false} GreedyOneToOne<K>(removed: seq<K>, added: seq<K>, n: nat)
    requires n <= |removed|
    ensures OneToOne(removed, added, Greedy(removed, added, n))
  {
    if n > 0 {
      GreedyOneToOne(removed, added, n - 1);
      var before := Greedy(removed, added, n - 1);
      OneToOneMore(removed, added, before, FirstFree(added, removed[n - 1], Taken(before), 0));
    }
  }

  lemma OneToOneMore<K>(removed: seq<K>, added: seq<K>, before: seq<Option<nat>>, hit: Option<nat>)
    requires OneToOne(removed, added, before) && |before| < |removed|
    requires hit == FirstFree(added, removed[|before|], Taken(before), 0)
    ensures OneToOne(removed, added, before + [hit])
  {
    forall j | 0 <= j < |before| && before[j].Some? ensures before[j] != hit {
      assert before[j] in before && before[j].value in Taken(before);
    }
  }

  /**
   * Each takes the first key of its own that is left: what it passes over, and all of its key when it finds none,
   * was taken by earlier ones.
   */
  ghost predicate TakesFirst<K>(removed: seq<K>, added: seq<K>, matches: seq<Option<nat>>) {
    |matches| <= |removed|
    && forall k, j: nat :: 0 <= k < |matches| && Passes(removed, added, matches, k, j) ==> TakenBefore(matches, k, j)
  }

  /** The j-th has the key, and the k-th did not take it, nor one in front of it. */
  ghost predicate Passes<K>(removed: seq<K>, added: seq<K>, matches: seq<Option<nat>>, k: nat, j: nat)
    requires k < |matches| <= |removed|
  {
    j < |added| && added[j] == removed[k] && (matches[k].Some? ==> j < matches[k].value)
  }

  ghost predicate TakenBefore(matches: seq<Option<nat>>, k: nat, j: nat)
    requires k <= |matches|
  {
    exists i :: 0 <= i < k && matches[i] == Some(j)
  }

  lemma {:induction false} GreedyTakesFirst<K>(removed: seq<K>, added: seq<K>, n: nat)
    requires n <= |removed|
    ensures TakesFirst(removed, added, Greedy(removed, added, n))
  {
    if n > 0 {
      GreedyTakesFirst(removed, added, n - 1);
      var before := Greedy(removed, added, n - 1);
      TakesFirstMore(removed, added, before, FirstFree(added, removed[n - 1], Taken(before), 0));
    }
  }

  lemma TakesFirstMore<K>(removed: seq<K>, added: seq<K>, before: seq<Option<nat>>, hit: Option<nat>)
    requires TakesFirst(removed, added, before) && |before| < |removed|
    requires hit == FirstFree(added, removed[|before|], Taken(before), 0)
    ensures TakesFirst(removed, added, before + [hit])
  {
    var matches := before + [hit];
    forall k, j: nat | 0 <= k < |matches| && Passes(removed, added, matches, k, j)
      ensures TakenBefore(matches, k, j)
    {
      if k < |before| {
        assert Passes(removed, added, before, k, j);
        var i :| 0 <= i < k && before[i] == Some(j);
        assert matches[i] == Some(j);
      } else {
        assert Some(j) in before;
        var i :| 0 <= i < |before| && before[i] == Some(j);
        assert matches[i] == Some(j);
      }
    }
  }

  lemma {:induction false} NonesAscend(ps: seq<Option<nat>>)
    ensures forall i, j :: 0 <= i < j < |Nones(ps)| ==> Nones(ps)[i] < Nones(ps)[j]
  {
    if ps != [] {
      NonesAscend(ps[..|ps| - 1]);
    }
  }

  ghost predicate OneToOne<K>(removed: seq<K>, added: seq<K>, matches: seq<Option<nat>>) {
    && |matches| <= |removed|
    && (forall k {:trigger matches[k]} :: 0 <= k < |matches| && matches[k].Some? ==>
          matches[k].value < |added| && added[matches[k].value] == removed[k])
    && (forall j, k {:trigger matches[j], matches[k]} :: 0 <= j < k < |matches| && matches[j].Some? ==>
        matches[j] != matches[k])
  }
}
