/**
 * What a memory reader shows of an address space: a byte at some addresses, nothing at the
 * others. Every reader of the program promises the longest readable run from an address.
 */
module ByteMap {
  import opened Common

  type View = nat -> Option<byte>

  /** What the view shows at an address: the name under which a proof looks an address up. */
  function At(view: View, a: nat): Option<byte> { view(a) }

  /** The view shows exactly the bytes s from address `at` on. */
  ghost predicate Shows(view: View, at: nat, s: seq<byte>) {
    forall a: nat {:trigger At(view, a)} :: at <= a < at + |s| ==> At(view, a) == Some(s[a - at])
  }

  /** s is what a reader should deliver for n bytes at `at`: cut short only by an unreadable byte. */
  ghost predicate IsLongestPrefix(view: View, at: nat, n: nat, s: seq<byte>) {
    |s| <= n && Shows(view, at, s) && (|s| < n ==> view(at + |s|).None?)
  }

  lemma {:induction false} PrefixExists(view: View, at: nat, n: nat) returns (r: seq<byte>)
    ensures IsLongestPrefix(view, at, n, r)
    decreases n
  {
    if n == 0 || view(at).None? {
      r := [];
    } else {
      r := PrefixExists(view, at + 1, n - 1);
      r := [view(at).value] + r;
    }
  }

  /** The bytes from `at` on, up to n of them, stopping at the first address that shows nothing. */
  ghost function LongestPrefix(view: View, at: nat, n: nat): (r: seq<byte>)
    ensures IsLongestPrefix(view, at, n, r)
  {
    assert exists r :: IsLongestPrefix(view, at, n, r) by {
      var r := PrefixExists(view, at, n);
    }
    var r :| IsLongestPrefix(view, at, n, r);
    r
  }

  /** There is only one such answer. */
  lemma PrefixUnique(view: View, at: nat, n: nat, s: seq<byte>)
    requires IsLongestPrefix(view, at, n, s)
    ensures s == LongestPrefix(view, at, n)
  {
    var r := LongestPrefix(view, at, n);
    var shorter := Min(|r|, |s|);
    var gap := At(view, at + shorter);
    assert |r| == |s|;
    forall i | 0 <= i < |r| ensures r[i] == s[i] {
      var same := At(view, at + i);
      assert same == Some(r[i]);
    }
  }

  lemma ShowsConcat(view: View, at: nat, s: seq<byte>, t: seq<byte>)
    requires Shows(view, at, s) && Shows(view, at + |s|, t)
    ensures Shows(view, at, s + t)
  {
    forall a: nat {:trigger At(view, a)} | at <= a < at + |s + t| ensures At(view, a) == Some((s + t)[a - at]) {
      if a >= at + |s| {
        assert At(view, a) == Some(t[a - (at + |s|)]);
      }
    }
  }

  /** A read that came back complete can be continued by a second read; a short one is final. */
  lemma PrefixSplit(view: View, at: nat, m: nat, n: nat)
    ensures var first := LongestPrefix(view, at, m);
            LongestPrefix(view, at, m + n) ==
            if |first| == m then first + LongestPrefix(view, at + m, n) else first
  {
    var first := LongestPrefix(view, at, m);
    if |first| == m {
      var rest := LongestPrefix(view, at + m, n);
      ShowsConcat(view, at, first, rest);
      assert at + |first + rest| == at + m + |rest|;
      PrefixUnique(view, at, m + n, first + rest);
    } else {
      PrefixUnique(view, at, m + n, first);
    }
  }

  /** A read assembled from its first part and, when that was complete, the rest. */
  lemma PrefixAssemble(view: View, at: nat, m: nat, size: nat, first: seq<byte>, rest: seq<byte>, out: seq<byte>)
    requires m <= size && first == LongestPrefix(view, at, m)
    requires |first| == m ==> rest == LongestPrefix(view, at + m, size - m)
    requires out == if |first| == m then first + rest else first
    ensures out == LongestPrefix(view, at, size)
  {
    PrefixSplit(view, at, m, size - m);
  }

  /** Two views that agree on a window read alike inside it. */
  lemma PrefixAgree(v: View, w: View, at: nat, n: nat)
    requires forall a: nat {:trigger v(a)} {:trigger w(a)} :: at <= a < at + n ==> v(a) == w(a)
    ensures LongestPrefix(v, at, n) == LongestPrefix(w, at, n)
  {
    var r := LongestPrefix(v, at, n);
    forall a: nat {:trigger At(w, a)} | at <= a < at + |r| ensures At(w, a) == Some(r[a - at]) {
      assert At(v, a) == Some(r[a - at]);
    }
    PrefixUnique(w, at, n, r);
  }

  /** A view that hides bytes but never changes one reads a prefix of what the full view reads. */
  lemma PrefixOfWider(narrow: View, wide: View, at: nat, n: nat)
    requires forall a: nat {:trigger narrow(a)} {:trigger wide(a)} :: narrow(a).Some? ==> wide(a) == narrow(a)
    ensures LongestPrefix(narrow, at, n) <= LongestPrefix(wide, at, n)
  {
    var s, r := LongestPrefix(narrow, at, n), LongestPrefix(wide, at, n);
    var gap := At(narrow, at + |r|);
    assert |s| <= |r|;
    forall i | 0 <= i < |s| ensures s[i] == r[i] {
      var same := At(narrow, at + i);
      var wider := At(wide, at + i);
      assert same == Some(s[i]);
    }
  }
}
