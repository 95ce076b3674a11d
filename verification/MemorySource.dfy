/**
 * The provider every reader sits on (IMemorySource): a 64-bit address space that may be read at
 * any address, comes back short at the first unreadable byte, and may be written.
 */
module MemorySource {
  import opened Common
  import opened ByteMap

  const SPACE: nat := 0x1_0000_0000_0000_0000

  /** The readable bytes of the target at one moment, by address below SPACE. */
  type Memory = map<nat, byte>

  /** 64-bit address arithmetic: the address an unbounded sum stands for. */
  function Wrap(a: nat): (r: nat)
    ensures r < SPACE
  {
    if a < SPACE then a else Wrap(a - SPACE)
  }

  lemma WrapStep(a: nat, k: nat)
    requires Wrap(a) + k < SPACE
    ensures Wrap(a + k) == Wrap(a) + k
  {
    if a >= SPACE {
      WrapStep(a - SPACE, k);
      assert Wrap(a + k) == Wrap(a - SPACE + k);
    }
  }

  /** The bytes at the wrapped addresses. */
  function MemView(m: Memory): View {
    (a: nat) => if Wrap(a) in m then Some(m[Wrap(a)]) else None
  }

  /** What the provider itself answers when asked for n bytes. */
  ghost function InnerRead(m: Memory, at: nat, n: nat): seq<byte> {
    LongestPrefix(MemView(m), at, n)
  }

  /** Memory after a write of `data` at `at`. */
  function Written(m: Memory, at: nat, data: seq<byte>): Memory
    requires at + |data| <= SPACE
  {
    map a | a in m.Keys + (set i {:trigger data[i - at]} | at <= i < at + |data|) ::
      if at <= a < at + |data| then data[a - at] else m[a]
  }

  /** What an address holds. */
  function Byte(m: Memory, a: nat): Option<byte> { if a in m then Some(m[a]) else None }

  /** From `before` to `after` the data came to stand at `at`, and no other address changed or came or went. */
  ghost predicate Puts(before: Memory, after: Memory, at: nat, data: seq<byte>) {
    && (forall i :: 0 <= i < |data| ==> at + i in after && after[at + i] == data[i])
    && (forall a: nat {:trigger Byte(after, a)} :: !(at <= a < at + |data|) ==> Byte(after, a) == Byte(before, a))
  }

  lemma WrittenByte(m: Memory, at: nat, data: seq<byte>, a: nat)
    requires at + |data| <= SPACE
    ensures Byte(Written(m, at, data), a) == if at <= a < at + |data| then Some(data[a - at]) else Byte(m, a)
  {
    if at <= a < at + |data| {
      assert data[a - at] in data;
    }
  }

  lemma WrittenPuts(m: Memory, at: nat, data: seq<byte>)
    requires at + |data| <= SPACE
    ensures Puts(m, Written(m, at, data), at, data)
  {
    forall i | 0 <= i < |data|
      ensures at + i in Written(m, at, data) && Written(m, at, data)[at + i] == data[i]
    {
      WrittenByte(m, at, data, at + i);
    }
    forall a: nat {:trigger Byte(m, a)} | !(at <= a < at + |data|)
      ensures Byte(Written(m, at, data), a) == Byte(m, a)
    {
      WrittenByte(m, at, data, a);
    }
  }

  /** A byte that can be read, behind some that were, is the answer's next. */
  lemma NextReadable(m: Memory, at: nat, n: nat, got: nat)
    requires got < n && got <= |InnerRead(m, at, n)| && Wrap(at + got) in m
    ensures got < |InnerRead(m, at, n)| && InnerRead(m, at, n)[got] == m[Wrap(at + got)]
  {
    var shown := At(MemView(m), at + got);
  }

  /** At the first that cannot be read the answer ends. */
  lemma NoneReadable(m: Memory, at: nat, n: nat, got: nat)
    requires got <= n && got <= |InnerRead(m, at, n)| && (got == n || Wrap(at + got) !in m)
    ensures got == |InnerRead(m, at, n)|
  {
    var stop := At(MemView(m), at + got);
  }

  class Provider {
    var mem: Memory

    constructor (m: Memory)
      ensures mem == m
    {
      mem := m;
    }

    /** Copies what is readable into dest from index `into`, and says how much that was. */
    method Read(at: nat, dest: array<byte>, into: nat, n: nat) returns (got: nat)
      requires into + n <= dest.Length
      modifies dest
      ensures got == |InnerRead(mem, at, n)|
      ensures dest[..] == Spliced(old(dest[..]), into, InnerRead(mem, at, n))
    {
      ghost var want := InnerRead(mem, at, n);
      got := 0;
      while got < n && Wrap(at + got) in mem
        invariant got <= |want|
        invariant dest[..] == Spliced(old(dest[..]), into, want[..got])
      {
        NextReadable(mem, at, n, got);
        SplicedNext(old(dest[..]), into, want, got);
        dest[into + got] := mem[Wrap(at + got)];
        got := got + 1;
      }
      NoneReadable(mem, at, n, got);
    }

    /** Whether the target takes the write is its own business; a refused write changes nothing. */
    method Write(at: nat, data: seq<byte>, accept: bool) returns (ok: bool)
      modifies this
      ensures ok == (accept && at + |data| <= SPACE)
      ensures mem == if at + |data| <= SPACE && ok then Written(old(mem), at, data) else old(mem)
      ensures Puts(old(mem), mem, at, if ok then data else [])
    {
      ok := accept && at + |data| <= SPACE;
      if ok {
        WrittenPuts(mem, at, data);
        mem := Written(mem, at, data);
      }
    }
  }
}
