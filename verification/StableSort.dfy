/** A stable sort, and why there is only one: order and the runs of equal keys determine the result. */
module StableSort {

  ghost predicate TotalPreorder<T(!new)>(le: (T, T) -> bool) {
    && (forall x, y :: le(x, y) || le(y, x))
    && (forall x, y, z :: le(x, y) && le(y, z) ==> le(x, z))
  }

  ghost predicate Sorted<T>(s: seq<T>, le: (T, T) -> bool) {
    forall i, j :: 0 <= i < j < |s| ==> le(s[i], s[j])
  }

  /** x behind everything it does not come before. */
  function Insert<T>(x: T, s: seq<T>, le: (T, T) -> bool): seq<T> {
    if s == [] || le(s[|s| - 1], x) then s + [x]
    else Insert(x, s[..|s| - 1], le) + [s[|s| - 1]]
  }

  function Sort<T>(s: seq<T>, le: (T, T) -> bool): seq<T> {
    if s == [] then [] else Insert(s[|s| - 1], Sort(s[..|s| - 1], le), le)
  }

  function Filter<T>(s: seq<T>, keep: T -> bool): seq<T> {
    if s == [] then [] else Filter(s[..|s| - 1], keep) + (if keep(s[|s| - 1]) then [s[|s| - 1]] else [])
  }

  /** The elements whose key ties with x's. */
  function Ties<T>(le: (T, T) -> bool, x: T): T -> bool { y => le(x, y) && le(y, x) }

  lemma {:induction false} InsertSorted<T(!new)>(x: T, s: seq<T>, le: (T, T) -> bool)
    requires TotalPreorder(le) && Sorted(s, le)
    ensures Sorted(Insert(x, s, le), le) && multiset(Insert(x, s, le)) == multiset(s) + multiset{x}
  {
    if s != [] && !le(s[|s| - 1], x) {
      var last := |s| - 1;
      assert s == s[..last] + [s[last]];
      InsertSorted(x, s[..last], le);
      SortedBelow(x, s[..last], Insert(x, s[..last], le), s[last], le);
    } else if s != [] {
      SortedBehind(s, x, le);
    }
  }

  /** What comes after the last comes after all. */
  lemma SortedBehind<T(!new)>(s: seq<T>, x: T, le: (T, T) -> bool)
    requires TotalPreorder(le) && Sorted(s, le) && s != [] && le(s[|s| - 1], x)
    ensures Sorted(s + [x], le)
  {
    forall i | 0 <= i < |s| ensures le(s[i], x) {
      assert i == |s| - 1 || le(s[i], s[|s| - 1]);
    }
  }

  /** An element behind all of the others and the new one stays behind them. */
  lemma SortedBelow<T(!new)>(x: T, s: seq<T>, r: seq<T>, last: T, le: (T, T) -> bool)
    requires TotalPreorder(le) && Sorted(s + [last], le) && !le(last, x)
    requires Sorted(r, le) && multiset(r) == multiset(s) + multiset{x}
    ensures Sorted(r + [last], le)
  {
    forall i | 0 <= i < |r| ensures le(r[i], last) {
      assert r[i] in multiset(r);
      if r[i] in s {
        var k :| 0 <= k < |s| && s[k] == r[i];
        assert le((s + [last])[k], (s + [last])[|s|]);
      }
    }
  }

  lemma {:induction false} SortSorted<T(!new)>(s: seq<T>, le: (T, T) -> bool)
    requires TotalPreorder(le)
    ensures Sorted(Sort(s, le), le) && multiset(Sort(s, le)) == multiset(s)
  {
    if s != [] {
      assert s == s[..|s| - 1] + [s[|s| - 1]];
      SortSorted(s[..|s| - 1], le);
      InsertSorted(s[|s| - 1], Sort(s[..|s| - 1], le), le);
    }
  }

  lemma {:induction false} FilterConcat<T>(s: seq<T>, t: seq<T>, keep: T -> bool)
    ensures Filter(s + t, keep) == Filter(s, keep) + Filter(t, keep)
  {
    if t == [] {
      assert s + t == s;
    } else {
      FilterConcat(s, t[..|t| - 1], keep);
      assert (s + t)[..|s + t| - 1] == s + t[..|t| - 1];
    }
  }

  /** Elements that tie keep their order. */
  lemma {:induction false} InsertStable<T(!new)>(x: T, s: seq<T>, le: (T, T) -> bool, key: T)
    requires TotalPreorder(le)
    ensures Filter(Insert(x, s, le), Ties(le, key)) == Filter(s + [x], Ties(le, key))
  {
    var tie := Ties(le, key);
    assert (s + [x])[..|s|] == s;
    if s != [] && !le(s[|s| - 1], x) {
      var init, last := s[..|s| - 1], s[|s| - 1];
      InsertStable(x, init, le, key);
      assert (init + [x])[..|init|] == init;
      var r := Insert(x, init, le);
      assert (r + [last])[..|r|] == r;
      assert !(tie(x) && tie(last));
    }
  }

  lemma {:induction false} SortStable<T(!new)>(s: seq<T>, le: (T, T) -> bool, key: T)
    requires TotalPreorder(le)
    ensures Filter(Sort(s, le), Ties(le, key)) == Filter(s, Ties(le, key))
  {
    if s != [] {
      var init, last := s[..|s| - 1], s[|s| - 1];
      SortStable(init, le, key);
      InsertStable(last, Sort(init, le), le, key);
      var r := Sort(init, le);
      assert (r + [last])[..|r|] == r;
    }
  }

  lemma {:induction false} InFilter<T>(s: seq<T>, keep: T -> bool, x: T)
    ensures x in Filter(s, keep) <==> x in s && keep(x)
  {
    if s != [] {
      InFilter(s[..|s| - 1], keep, x);
      assert s == s[..|s| - 1] + [s[|s| - 1]];
    }
  }

  ghost predicate SameRuns<T(!new)>(s: seq<T>, t: seq<T>, le: (T, T) -> bool) {
    forall key {:trigger Ties(le, key)} :: Filter(s, Ties(le, key)) == Filter(t, Ties(le, key))
  }

  lemma LastTies<T(!new)>(s: seq<T>, t: seq<T>, le: (T, T) -> bool)
    requires TotalPreorder(le) && Sorted(s, le) && Sorted(t, le) && SameRuns(s, t, le) && s != []
    ensures t != [] && s[|s| - 1] == t[|t| - 1]
  {
    var x := s[|s| - 1];
    var tie := Ties(le, x);
    assert tie(x);
    assert Filter(s, tie) == Filter(t, tie);
    InFilter(t, tie, x);
    InFilter(s, tie, x);
    var y := t[|t| - 1];
    var i :| 0 <= i < |t| && t[i] == x;
    assert le(x, y) by { assert i == |t| - 1 || le(t[i], t[|t| - 1]); }
    assert le(y, x) by {
      var tieY := Ties(le, y);
      assert tieY(y);
      assert Filter(s, tieY) == Filter(t, tieY);
      InFilter(t, tieY, y);
      InFilter(s, tieY, y);
      var j :| 0 <= j < |s| && s[j] == y;
      assert j == |s| - 1 || le(s[j], s[|s| - 1]);
    }
    var f, g := Filter(s, tie), Filter(t, tie);
    assert f[|f| - 1] == x;
    assert g[|g| - 1] == y;
  }

  lemma DropLast<T>(s: seq<T>, t: seq<T>, keep: T -> bool)
    requires s != [] && t != [] && s[|s| - 1] == t[|t| - 1] && Filter(s, keep) == Filter(t, keep)
    ensures Filter(s[..|s| - 1], keep) == Filter(t[..|t| - 1], keep)
  {
    var x, tail := s[|s| - 1], if keep(s[|s| - 1]) then [s[|s| - 1]] else [];
    assert Filter(s, keep) == Filter(s[..|s| - 1], keep) + tail;
    assert Filter(t, keep) == Filter(t[..|t| - 1], keep) + tail;
    SameFront(Filter(s[..|s| - 1], keep), Filter(t[..|t| - 1], keep), tail);
  }

  lemma SameFront<T>(f: seq<T>, g: seq<T>, tail: seq<T>)
    requires f + tail == g + tail
    ensures f == g
  {
    assert |f| == |g|;
    assert f == (f + tail)[..|f|];
    assert g == (g + tail)[..|f|];
  }

  /** Two sorted sequences in which every run of ties is the same are the same. */
  lemma {:induction false} SortedUnique<T(!new)>(s: seq<T>, t: seq<T>, le: (T, T) -> bool)
    requires TotalPreorder(le) && Sorted(s, le) && Sorted(t, le) && SameRuns(s, t, le)
    ensures s == t
    decreases |s|
  {
    if s == [] {
      if t != [] {
        LastTies(t, s, le);
      }
    } else {
      LastTies(s, t, le);
      var s', t' := s[..|s| - 1], t[..|t| - 1];
      forall key {:trigger Ties(le, key)} ensures Filter(s', Ties(le, key)) == Filter(t', Ties(le, key)) {
        assert Filter(s, Ties(le, key)) == Filter(t, Ties(le, key));
        DropLast(s, t, Ties(le, key));
      }
      SortedUnique(s', t', le);
      assert s == s' + [s[|s| - 1]] && t == t' + [t[|t| - 1]];
    }
  }

  /** What a stable sort returns depends only on the runs of ties of what it is given. */
  lemma SortDependsOnRuns<T(!new)>(s: seq<T>, t: seq<T>, le: (T, T) -> bool)
    requires TotalPreorder(le) && SameRuns(s, t, le)
    ensures Sort(s, le) == Sort(t, le)
  {
    SortSorted(s, le);
    SortSorted(t, le);
    forall key {:trigger Ties(le, key)}
      ensures Filter(Sort(s, le), Ties(le, key)) == Filter(Sort(t, le), Ties(le, key))
    {
      SortStable(s, le, key);
      SortStable(t, le, key);
    }
    SortedUnique(Sort(s, le), Sort(t, le), le);
  }
}
