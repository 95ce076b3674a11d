/** The order of strings by their bytes, and what sorting by it settles. */
module StringOrder {
  import opened Common
  import opened StableSort

  predicate StrLe(a: string, b: string) {
    a == [] || (b != [] && (a[0] < b[0] || (a[0] == b[0] && StrLe(a[1..], b[1..]))))
  }

  /** At the first place where they differ, a has the smaller character. */
  ghost predicate Smaller(a: string, b: string, i: nat) {
    i < |a| && i < |b| && a[..i] == b[..i] && a[i] < b[i]
  }

  /** One string comes before another if and only if it begins it, or is smaller where they first differ. */
  lemma {:induction false} StrLeIff(a: string, b: string)
    ensures StrLe(a, b) <==> a <= b || exists i: nat :: Smaller(a, b, i)
  {
    if a != [] && b != [] {
      StrLeIff(a[1..], b[1..]);
      if a[0] == b[0] {
        assert a == [a[0]] + a[1..] && b == [b[0]] + b[1..];
        if i: nat :| Smaller(a[1..], b[1..], i) {
          assert a[..i + 1] == [a[0]] + a[1..][..i] && b[..i + 1] == [b[0]] + b[1..][..i];
          assert Smaller(a, b, i + 1);
        }
        if i: nat :| Smaller(a, b, i) {
          assert a[1..][..i - 1] == a[..i][1..] && b[1..][..i - 1] == b[..i][1..];
          assert Smaller(a[1..], b[1..], i - 1);
        }
      } else if a[0] < b[0] {
        assert Smaller(a, b, 0);
      } else {
        forall i: nat ensures !Smaller(a, b, i) {
          if 0 < i < |a| && i < |b| {
            assert a[..i][0] == a[0] && b[..i][0] == b[0];
          }
        }
      }
    }
  }

  lemma {:induction false} StrTotal(a: string, b: string)
    ensures StrLe(a, b) || StrLe(b, a)
  {
    if a != [] && b != [] {
      StrTotal(a[1..], b[1..]);
    }
  }

  lemma {:induction false} StrTransitive(a: string, b: string, c: string)
    requires StrLe(a, b) && StrLe(b, c)
    ensures StrLe(a, c)
  {
    if a != [] && a[0] == b[0] && b[0] == c[0] {
      StrTransitive(a[1..], b[1..], c[1..]);
    }
  }

  lemma {:induction false} StrAntisymmetric(a: string, b: string)
    requires StrLe(a, b) && StrLe(b, a)
    ensures a == b
  {
    if a != [] {
      StrAntisymmetric(a[1..], b[1..]);
      assert a == [a[0]] + a[1..] && b == [b[0]] + b[1..];
    }
  }

  lemma StrOrder()
    ensures TotalPreorder(StrLe)
  {
    forall x, y ensures StrLe(x, y) || StrLe(y, x) {
      StrTotal(x, y);
    }
    forall x, y, z | StrLe(x, y) && StrLe(y, z) ensures StrLe(x, z) {
      StrTransitive(x, y, z);
    }
  }

  // ---------------------------------------------------------------- sequences without ties

  /** No two elements tie. */
  ghost predicate Apart<T(!new)>(s: seq<T>, le: (T, T) -> bool) {
    forall i, j :: 0 <= i < j < |s| ==> !(le(s[i], s[j]) && le(s[j], s[i]))
  }

  predicate TieBy<T>(le: (T, T) -> bool, a: T, b: T) { le(a, b) && le(b, a) }

  lemma ApartMore<T(!new)>(front: seq<T>, last: T, le: (T, T) -> bool)
    requires Apart(front, le) && forall x :: x in front ==> !TieBy(le, x, last)
    ensures Apart(front + [last], le)
  {
    assert forall i :: 0 <= i < |front| ==> !TieBy(le, front[i], last);
  }

  ghost predicate SameElements<T(!new)>(s: seq<T>, t: seq<T>) { forall x :: x in s <==> x in t }

  lemma {:induction false} FilterNone<T(!new)>(s: seq<T>, keep: T -> bool)
    requires forall x :: x in s ==> !keep(x)
    ensures Filter(s, keep) == []
  {
    if s != [] {
      FilterNone(s[..|s| - 1], keep);
    }
  }

  lemma {:induction false} FilterOne<T(!new)>(s: seq<T>, le: (T, T) -> bool, key: T, x: T)
    requires TotalPreorder(le) && Apart(s, le) && x in s && Ties(le, key)(x)
    ensures Filter(s, Ties(le, key)) == [x]
  {
    var keep, init, last := Ties(le, key), s[..|s| - 1], s[|s| - 1];
    if last == x {
      forall y | y in init ensures !keep(y) {
        var i :| 0 <= i < |init| && init[i] == y;
        assert s[i] == y && !(le(s[i], s[|s| - 1]) && le(s[|s| - 1], s[i]));
      }
      FilterNone(init, keep);
    } else {
      var i :| 0 <= i < |s| && s[i] == x;
      assert init[i] == x && !(le(s[i], s[|s| - 1]) && le(s[|s| - 1], s[i]));
      FilterOne(init, le, key, x);
      assert !keep(last);
    }
  }

  /** Among elements that do not tie, a run holds what is there, in whatever order it came. */
  lemma ApartRuns<T(!new)>(s: seq<T>, t: seq<T>, le: (T, T) -> bool, key: T)
    requires TotalPreorder(le) && Apart(s, le) && Apart(t, le) && SameElements(s, t)
    ensures Filter(s, Ties(le, key)) == Filter(t, Ties(le, key))
  {
    var keep := Ties(le, key);
    if exists x :: x in s && keep(x) {
      var x :| x in s && keep(x);
      FilterOne(s, le, key, x);
      FilterOne(t, le, key, x);
    } else {
      FilterNone(s, keep);
      FilterNone(t, keep);
    }
  }

  // ---------------------------------------------------------------- hash order

  /** One order in which a hash container may yield its keys. */
  ghost predicate Enumerates(order: seq<string>, keys: set<string>) {
    Distinct(order) && forall k :: k in order <==> k in keys
  }

  lemma DistinctApart(order: seq<string>)
    requires Distinct(order)
    ensures Apart(order, StrLe)
  {
    forall i, j | 0 <= i < j < |order| ensures !(StrLe(order[i], order[j]) && StrLe(order[j], order[i])) {
      if StrLe(order[i], order[j]) && StrLe(order[j], order[i]) {
        StrAntisymmetric(order[i], order[j]);
      }
    }
  }

  /** Sorted, the keys stand in one order whatever the container yielded. */
  lemma SortedKeysOne(s: seq<string>, t: seq<string>, keys: set<string>)
    requires Enumerates(s, keys) && Enumerates(t, keys)
    ensures Sort(s, StrLe) == Sort(t, StrLe)
  {
    StrOrder();
    DistinctApart(s);
    DistinctApart(t);
    forall key {:trigger Ties(StrLe, key)} ensures Filter(s, Ties(StrLe, key)) == Filter(t, Ties(StrLe, key)) {
      ApartRuns(s, t, StrLe, key);
    }
    SortDependsOnRuns(s, t, StrLe);
  }

  lemma SortedKeysAre(order: seq<string>, keys: set<string>)
    requires Enumerates(order, keys)
    ensures Enumerates(Sort(order, StrLe), keys)
  {
    StrOrder();
    SortSorted(order, StrLe);
    var s := Sort(order, StrLe);
    forall k ensures k in s <==> k in order {
      assert k in multiset(s) <==> k in multiset(order);
    }
    forall i, j | 0 <= i < j < |s| ensures s[i] != s[j] {
      OnceInDistinct(order, s[i]);
      if s[i] == s[j] {
        TwiceCounted(s, i, j);
      }
    }
  }

  lemma {:induction false} OnceInDistinct(s: seq<string>, x: string)
    requires Distinct(s)
    ensures multiset(s)[x] <= 1
  {
    if s != [] {
      OnceInDistinct(s[..|s| - 1], x);
      assert s == s[..|s| - 1] + [s[|s| - 1]];
      if x == s[|s| - 1] {
        assert x !in s[..|s| - 1];
      }
    }
  }

  lemma TwiceCounted(s: seq<string>, i: nat, j: nat)
    requires i < j < |s| && s[i] == s[j]
    ensures multiset(s)[s[i]] >= 2
  {
    assert s == s[..i] + [s[i]] + s[i + 1..j] + [s[j]] + s[j + 1..];
  }

  // ---------------------------------------------------------------- sums

  function SumBy(weight: string -> nat, s: seq<string>): nat {
    if s == [] then 0 else SumBy(weight, s[..|s| - 1]) + weight(s[|s| - 1])
  }

  lemma {:induction false} SumConcat(weight: string -> nat, s: seq<string>, t: seq<string>)
    ensures SumBy(weight, s + t) == SumBy(weight, s) + SumBy(weight, t)
  {
    if t == [] {
      assert s + t == s;
    } else {
      SumConcat(weight, s, t[..|t| - 1]);
      assert (s + t)[..|s + t| - 1] == s + t[..|t| - 1];
    }
  }

  lemma SumWithout(weight: string -> nat, t: seq<string>, i: nat)
    requires i < |t|
    ensures SumBy(weight, t) == SumBy(weight, t[..i] + t[i + 1..]) + weight(t[i])
  {
    var a, x, b := t[..i], t[i], t[i + 1..];
    SumThree(weight, a, x, b);
    SplitAt(t, i);
  }

  lemma SplitAt(t: seq<string>, i: nat)
    requires i < |t|
    ensures t[..i] + [t[i]] + t[i + 1..] == t
  {
  }

  lemma SumThree(weight: string -> nat, a: seq<string>, x: string, b: seq<string>)
    ensures SumBy(weight, a + [x] + b) == SumBy(weight, a + b) + weight(x)
  {
    SumConcat(weight, a + [x], b);
    SumConcat(weight, a, b);
    assert (a + [x])[..|a|] == a;
  }

  lemma EnumeratesWithout(t: seq<string>, i: nat, keys: set<string>)
    requires Enumerates(t, keys) && i < |t|
    ensures Enumerates(t[..i] + t[i + 1..], keys - {t[i]})
  {
    var rest := t[..i] + t[i + 1..];
    forall k ensures k in rest <==> k in keys - {t[i]} {
      if k in keys - {t[i]} {
        var j :| 0 <= j < |t| && t[j] == k;
        assert rest[if j < i then j else j - 1] == k;
      }
    }
  }

  lemma NothingEnumerates(t: seq<string>, keys: set<string>)
    requires Enumerates(t, keys) && keys == {}
    ensures t == []
  {
    var first := (t + [""])[0];
    assert first !in keys;
    assert t == [] || first in t;
  }

  /** A sum over the keys does not depend on the order they come in. */
  lemma {:induction false} SumOneWay(weight: string -> nat, s: seq<string>, t: seq<string>, keys: set<string>)
    requires Enumerates(s, keys) && Enumerates(t, keys)
    ensures SumBy(weight, s) == SumBy(weight, t)
    decreases |s|
  {
    if s == [] {
      NothingEnumerates(t, keys);
    } else {
      var n := |s| - 1;
      assert s[n] in keys;
      var i :| 0 <= i < |t| && t[i] == s[n];
      SumWithout(weight, t, i);
      EnumeratesWithout(t, i, keys);
      EnumeratesWithout(s, n, keys);
      assert s[..n] + s[n + 1..] == s[..n];
      SumOneWay(weight, s[..n], t[..i] + t[i + 1..], keys - {s[n]});
    }
  }
}
