/** Readers that answer in turns: each turn delivers some bytes, and says whether to go on. */
module Piecewise {
  import opened Common
  import opened ByteMap

  /** One turn of a read. */
  datatype Turn = Turn(bytes: seq<byte>, more: bool)

  type Reader = (nat, nat) -> Turn

  /** A turn delivers no more than was asked, and something when it goes on. */
  ghost predicate Progresses(turn: Reader) {
    forall at: nat, n: nat {:trigger turn(at, n)} :: n > 0 ==>
        |turn(at, n).bytes| <= n && (turn(at, n).more ==> |turn(at, n).bytes| > 0)
  }

  /** What the turns deliver together. */
  ghost function Turned(turn: Reader, at: nat, n: nat): (s: seq<byte>)
    requires Progresses(turn)
    ensures |s| <= n
    decreases n
  {
    if n == 0 then [] else
    var t := turn(at, n);
    if t.more then t.bytes + Turned(turn, at + |t.bytes|, n - |t.bytes|) else t.bytes
  }

  /** Every turn delivers what the view shows. */
  ghost predicate Truthful(turn: Reader, view: View) {
    forall at: nat, n: nat {:trigger turn(at, n)} :: n > 0 ==> Shows(view, at, turn(at, n).bytes)
  }

  /** A turn is the last one only when nothing more was asked, or nothing more is shown. */
  ghost predicate Thorough(turn: Reader, view: View) {
    forall at: nat, n: nat {:trigger turn(at, n)} :: n > 0 && !turn(at, n).more && |turn(at, n).bytes| < n ==>
        At(view, at + |turn(at, n).bytes|).None?
  }

  lemma {:induction false} TurnedShows(turn: Reader, view: View, at: nat, n: nat)
    requires Progresses(turn) && Truthful(turn, view)
    ensures Shows(view, at, Turned(turn, at, n))
    decreases n
  {
    if n > 0 {
      var t := turn(at, n);
      if t.more {
        var rest := Turned(turn, at + |t.bytes|, n - |t.bytes|);
        TurnedShows(turn, view, at + |t.bytes|, n - |t.bytes|);
        ShowsConcat(view, at, t.bytes, rest);
      }
    }
  }

  lemma {:induction false} TurnedStops(turn: Reader, view: View, at: nat, n: nat)
    requires Progresses(turn) && Thorough(turn, view)
    ensures var s := Turned(turn, at, n); |s| < n ==> At(view, at + |s|).None?
    decreases n
  {
    if n > 0 {
      var t := turn(at, n);
      if t.more {
        var rest := Turned(turn, at + |t.bytes|, n - |t.bytes|);
        TurnedStops(turn, view, at + |t.bytes|, n - |t.bytes|);
        assert |t.bytes + rest| == |t.bytes| + |rest|;
      }
    }
  }

  /** Truthful and thorough turns deliver exactly the longest prefix shown. */
  lemma TurnedIsLongest(turn: Reader, view: View, at: nat, n: nat)
    requires Progresses(turn) && Truthful(turn, view) && Thorough(turn, view)
    ensures Turned(turn, at, n) == LongestPrefix(view, at, n)
  {
    TurnedShows(turn, view, at, n);
    TurnedStops(turn, view, at, n);
    var s := Turned(turn, at, n);
    var stop := At(view, at + |s|);
    PrefixUnique(view, at, n, s);
  }

  /** Reading a and then b bytes reads what reading a + b does, when the first read is complete. */
  lemma TurnedSplits(turn: Reader, view: View, at: nat, a: nat, b: nat)
    requires Progresses(turn) && Truthful(turn, view) && Thorough(turn, view)
    ensures var first := Turned(turn, at, a);
            Turned(turn, at, a + b) == if |first| == a then first + Turned(turn, at + a, b) else first
  {
    TurnedIsLongest(turn, view, at, a);
    TurnedIsLongest(turn, view, at + a, b);
    TurnedIsLongest(turn, view, at, a + b);
    PrefixSplit(view, at, a, b);
  }

  /** A read stands after the bytes `done`: with the turns still to come, if any, they are the whole. */
  ghost predicate Along(turn: Reader, at: nat, n: nat, done: seq<byte>, more: bool)
    requires Progresses(turn)
  {
    |done| <= n && Turned(turn, at, n) == done + (if more then Turned(turn, at + |done|, n - |done|) else [])
  }

  lemma AlongStarts(turn: Reader, at: nat, n: nat)
    requires Progresses(turn)
    ensures Along(turn, at, n, [], true)
  {
    assert [] + Turned(turn, at, n) == Turned(turn, at, n);
  }

  lemma AlongEnds(turn: Reader, at: nat, n: nat, done: seq<byte>, more: bool)
    requires Progresses(turn) && Along(turn, at, n, done, more) && (|done| == n || !more)
    ensures Turned(turn, at, n) == done
  {
    assert done + [] == done;
  }

  lemma AlongStep(turn: Reader, at: nat, n: nat, done: seq<byte>)
    requires Progresses(turn) && |done| < n && Along(turn, at, n, done, true)
    ensures var t := turn(at + |done|, n - |done|); Along(turn, at, n, done + t.bytes, t.more)
  {
    var t := turn(at + |done|, n - |done|);
    if t.more {
      var rest := Turned(turn, at + |done| + |t.bytes|, n - |done| - |t.bytes|);
      assert done + (t.bytes + rest) == done + t.bytes + rest;
      assert at + |done + t.bytes| == at + |done| + |t.bytes|;
    } else {
      assert done + t.bytes + [] == done + t.bytes;
    }
  }

  /** One more turn, copied behind what the buffer holds already. */
  lemma TurnTaken(turn: Reader, at: nat, n: nat, done: seq<byte>, t: Turn, start: seq<byte>, was: seq<byte>,
                  now: seq<byte>)
    requires Progresses(turn) && |done| < n <= |start| && Along(turn, at, n, done, true)
    requires t == turn(at + |done|, n - |done|) && |t.bytes| <= n - |done|
    requires was == Spliced(start, 0, done) && now == Spliced(was, |done|, t.bytes)
    ensures |done + t.bytes| <= n && now == Spliced(start, 0, done + t.bytes)
    ensures Along(turn, at, n, done + t.bytes, t.more) && (t.more ==> |t.bytes| > 0)
  {
    AlongStep(turn, at, n, done);
    SplicedOn(start, done, was, t.bytes, now);
  }
}
