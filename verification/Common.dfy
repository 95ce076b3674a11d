/** Small types shared by every component of the model. */
module Common {

  datatype Option<+T> = None | Some(value: T)

  type byte = b: int | 0 <= b < 256

  function Min(a: int, b: int): int { if a < b then a else b }

  function Max(a: int, b: int): int { if a < b then b else a }

  /** No two positions of s hold the same value. */
  ghost predicate Distinct<T>(s: seq<T>) {
    forall i, j :: 0 <= i < j < |s| ==> s[i] != s[j]
  }

  lemma DistinctMore<T>(s: seq<T>, t: seq<T>)
    requires Distinct(s) && |t| <= 1 && forall i :: 0 <= i < |s| ==> s[i] !in t
    ensures Distinct(s + t)
  {
    forall i, j | 0 <= i < j < |s + t| ensures (s + t)[i] != (s + t)[j] {
      if j == |s| {
        assert (s + t)[j] == t[0];
      }
    }
  }

  /** s with the elements from `at` on overwritten by t: what copying into a buffer does. */
  function Spliced<T>(s: seq<T>, at: nat, t: seq<T>): (r: seq<T>)
    requires at + |t| <= |s|
    ensures |r| == |s|
  {
    s[..at] + t + s[at + |t|..]
  }

  lemma SplicedAt<T>(s: seq<T>, at: nat, t: seq<T>, k: nat)
    requires at + |t| <= |s| && k < |s|
    ensures Spliced(s, at, t)[k] == if at <= k < at + |t| then t[k - at] else s[k]
  {
  }

  /** One more element copied. */
  lemma SplicedNext<T>(s: seq<T>, at: nat, t: seq<T>, n: nat)
    requires n < |t| && at + |t| <= |s|
    ensures Spliced(s, at, t[..n])[at + n := t[n]] == Spliced(s, at, t[..n + 1])
  {
    assert t[..n + 1] == t[..n] + [t[n]];
  }

  lemma SplicedNothing<T>(s: seq<T>, at: nat)
    requires at <= |s|
    ensures Spliced(s, at, []) == s
  {
    assert s[..at] + [] + s[at..] == s;
  }

  /** Copying a second chunk behind the first. */
  lemma SplicedOn<T>(before: seq<T>, out: seq<T>, was: seq<T>, chunk: seq<T>, now: seq<T>)
    requires |out| + |chunk| <= |before|
    requires was == Spliced(before, 0, out) && now == Spliced(was, |out|, chunk)
    ensures now == Spliced(before, 0, out + chunk)
  {
    assert before[..0] + out == out && was[..0] == [] && was[..|out|] == out;
    assert before[|out|..][|chunk|..] == before[|out| + |chunk|..];
  }

  lemma SliceOfSlice<T>(s: seq<T>, a: nat, b: nat, i: nat, j: nat)
    requires a <= b <= |s| && i <= j <= b - a
    ensures s[a..b][i..j] == s[a + i..a + j]
  {
    var left, right := s[a..b][i..j], s[a + i..a + j];
    assert |left| == |right|;
    forall k | 0 <= k < |left| ensures left[k] == right[k] {
      assert left[k] == s[a..b][i + k];
    }
  }

  function Sum(s: seq<int>): int {
    if s == [] then 0 else s[0] + Sum(s[1..])
  }
}
