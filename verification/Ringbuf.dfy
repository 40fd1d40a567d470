/** The bounded first-in first-out queue that the ring buffer is to be. */
module Fifo {
  function Min(a: nat, b: nat): (r: nat)
    ensures r <= a && r <= b && (r == a || r == b)
  {
    if a < b then a else b
  }

  /** The longest prefix of `bytes` that fits beside `q`. */
  function Fitting(q: seq<char>, capacity: nat, bytes: seq<char>): (r: seq<char>)
    requires |q| <= capacity
    ensures r <= bytes && |q| + |r| <= capacity && (r == bytes || |q| + |r| == capacity)
  {
    bytes[..Min(|bytes|, capacity - |q|)]
  }

  datatype Op = Write(bytes: seq<char>) | Read(n: nat)

  /** The queue after `op`. */
  function After(q: seq<char>, capacity: nat, op: Op): (r: seq<char>)
    requires |q| <= capacity
    ensures |r| <= capacity
  {
    match op
    case Write(bytes) => q + Fitting(q, capacity, bytes)
    case Read(n) => q[Min(n, |q|)..]
  }

  function Run(q: seq<char>, capacity: nat, ops: seq<Op>): (r: seq<char>)
    requires |q| <= capacity
    ensures |r| <= capacity
    decreases |ops|
  {
    if ops == [] then q else Run(After(q, capacity, ops[0]), capacity, ops[1..])
  }

  /** What `op` puts into the queue. */
  function In(q: seq<char>, capacity: nat, op: Op): seq<char>
    requires |q| <= capacity
  {
    match op case Write(bytes) => Fitting(q, capacity, bytes) case Read(_) => []
  }

  /** What `op` returns. */
  function Out(q: seq<char>, op: Op): seq<char> {
    match op case Write(_) => [] case Read(n) => q[..Min(n, |q|)]
  }

  function Accepted(q: seq<char>, capacity: nat, ops: seq<Op>): seq<char>
    requires |q| <= capacity
    decreases |ops|
  {
    if ops == [] then [] else In(q, capacity, ops[0]) + Accepted(After(q, capacity, ops[0]), capacity, ops[1..])
  }

  function Delivered(q: seq<char>, capacity: nat, ops: seq<Op>): seq<char>
    requires |q| <= capacity
    decreases |ops|
  {
    if ops == [] then [] else Out(q, ops[0]) + Delivered(After(q, capacity, ops[0]), capacity, ops[1..])
  }

  /** No byte is lost, duplicated or reordered in any run. */
  lemma {:induction false} Conservation(q: seq<char>, capacity: nat, ops: seq<Op>)
    requires |q| <= capacity
    ensures q + Accepted(q, capacity, ops) == Delivered(q, capacity, ops) + Run(q, capacity, ops)
    decreases |ops|
  {
    if ops != [] {
      var next := After(q, capacity, ops[0]);
      Conservation(next, capacity, ops[1..]);
      assert q + In(q, capacity, ops[0]) == Out(q, ops[0]) + next;
      Exchange(q, In(q, capacity, ops[0]), Out(q, ops[0]), next, Accepted(next, capacity, ops[1..]),
               Delivered(next, capacity, ops[1..]), Run(next, capacity, ops[1..]));
    }
  }

  lemma Exchange<T>(a: seq<T>, b: seq<T>, c: seq<T>, d: seq<T>, e: seq<T>, f: seq<T>, g: seq<T>)
    requires a + b == c + d && d + e == f + g
    ensures a + (b + e) == (c + f) + g
  {
    assert a + (b + e) == (a + b) + e;
    assert (c + d) + e == c + (d + e);
    assert c + (f + g) == (c + f) + g;
  }
}

/** The ring buffer over a caller's array.  `rd` is the slot read last, `wr` the
    slot written next; `rd == wr` means full, so one slot always stays unused. */
module Ringbuf {
  import opened Fifo

  const SIZE_T: nat := 0x1_0000_0000_0000_0000

  /** The unread bytes, oldest first. */
  function Content(d: seq<char>, rd: nat, wr: nat): seq<char>
    requires rd < |d| && wr < |d|
  {
    if rd < wr then d[rd + 1..wr] else d[rd + 1..] + d[..wr]
  }

  /** `ringbuf_left`: unsigned arithmetic, wrapping at the width of `size_t`. */
  function Left(rd: nat, wr: nat, size: nat): (r: nat)
    ensures r < SIZE_T
  {
    ((rd - wr) % SIZE_T + if rd < wr then size else 0) % SIZE_T
  }

  /** The index behind `i` in a ring of `n` slots. */
  function Succ(i: nat, n: nat): (r: nat)
    requires 0 < n
    ensures r < n
  {
    (i + 1) % n
  }

  lemma NextIndex(i: nat, n: nat)
    requires i < n
    ensures Succ(i, n) == if i + 1 == n then 0 else i + 1
  {
    if i + 1 < n { ModSmall(i + 1, n); }
  }

  lemma ModSmall(i: nat, n: nat)
    requires i < n
    ensures i % n == i
  {
  }

  lemma ModNegative(x: int, n: nat)
    requires 0 < -x < n
    ensures x % n == x + n
  {
    assert x == (-1) * n + (x + n);
  }

  /** The wrapping subtraction still yields the number of free slots. */
  lemma LeftIsFree(d: seq<char>, rd: nat, wr: nat)
    requires rd < |d| && wr < |d| < SIZE_T
    ensures Left(rd, wr, |d|) == (rd - wr) % |d|
    ensures |Content(d, rd, wr)| + Left(rd, wr, |d|) == |d| - 1
  {
    if rd < wr {
      ModNegative(rd - wr, |d|);
    } else {
      ModSmall(rd - wr, |d|);
    }
  }

  lemma ContentPush(d: seq<char>, rd: nat, wr: nat, b: char)
    requires rd < |d| && wr < |d| && rd != wr
    ensures Content(d[wr := b], rd, Succ(wr, |d|)) == Content(d, rd, wr) + [b]
  {
    hide Succ;
    NextIndex(wr, |d|);
  }

  lemma ContentPop(d: seq<char>, rd: nat, wr: nat)
    requires rd < |d| && wr < |d| && Succ(rd, |d|) != wr
    ensures Content(d, rd, wr) == [d[Succ(rd, |d|)]] + Content(d, Succ(rd, |d|), wr)
  {
    hide Succ;
    NextIndex(rd, |d|);
    if rd + 1 == |d| {
      assert d[..wr] == [d[0]] + d[1..wr];
    } else if rd < wr {
      assert d[rd + 1..wr] == [d[rd + 1]] + d[rd + 2..wr];
    } else {
      assert d[rd + 1..] + d[..wr] == [d[rd + 1]] + (d[rd + 2..] + d[..wr]);
    }
  }

  lemma EmptyAndFull(d: seq<char>, rd: nat, wr: nat)
    requires rd < |d| && wr < |d|
    ensures Succ(rd, |d|) == wr <==> Content(d, rd, wr) == []
    ensures wr == rd <==> |Content(d, rd, wr)| == |d| - 1
  {
    hide Succ;
    NextIndex(rd, |d|);
  }

  class Ring {
    var rd: nat
    var wr: nat
    const size: nat
    const data: array<char>

    ghost predicate Valid()
      reads this
    {
      rd < size && wr < size && size == data.Length && size < SIZE_T
    }

    ghost function Contents(): (q: seq<char>)
      reads this, data
      requires Valid()
    {
      Content(data[..], rd, wr)
    }

    constructor (buffer: array<char>, n: nat)
      requires 0 < n == buffer.Length < SIZE_T
      ensures Valid() && data == buffer && size == n && Contents() == []
    {
      rd := n - 1;
      wr := 0;
      data := buffer;
      size := n;
    }

    /** Removes the longest available prefix of at most `n` bytes. */
    method Read(dst: array<char>, n: nat) returns (i: nat)
      requires Valid() && n <= dst.Length && dst != data
      modifies `rd, dst
      ensures Valid()
      ensures i == Min(n, |old(Contents())|) && dst[..i] == old(Contents())[..i]
      ensures dst[i..] == old(dst[i..])
      ensures Contents() == After(old(Contents()), size - 1, Fifo.Read(n))
    {
      hide Content, Succ;
      i := 0;
      ghost var q := Contents();
      while i < n && Succ(rd, size) != wr
        invariant Valid() && i <= n && i <= |q|
        invariant Contents() == q[i..] && dst[..i] == q[..i]
        invariant dst[i..] == old(dst[i..])
      {
        ContentPop(data[..], rd, wr);
        rd := Succ(rd, size);
        dst[i] := data[rd];
        assert dst[i + 1..] == old(dst[i + 1..]);
        i := i + 1;
      }
      EmptyAndFull(data[..], rd, wr);
    }

    /** Appends the longest prefix of `src[..n]` that fits. */
    method Write(src: array<char>, n: nat) returns (i: nat)
      requires Valid() && n <= src.Length && src != data
      modifies `wr, data
      ensures Valid()
      ensures i == |Fitting(old(Contents()), size - 1, src[..n])|
      ensures Contents() == After(old(Contents()), size - 1, Fifo.Write(src[..n]))
    {
      hide Content, Succ;
      i := 0;
      ghost var q, bytes := Contents(), src[..n];
      LeftIsFree(data[..], rd, wr);
      while i < n && wr != rd
        invariant Valid() && i <= n && bytes == src[..n]
        invariant Contents() == q + bytes[..i] && |q| + i <= size - 1
      {
        EmptyAndFull(data[..], rd, wr);
        ContentPush(data[..], rd, wr, src[i]);
        ghost var before := data[..];
        data[wr] := src[i];
        assert data[..] == before[wr := src[i]];
        wr := Succ(wr, size);
        LeftIsFree(data[..], rd, wr);
        assert q + bytes[..i + 1] == q + bytes[..i] + [bytes[i]];
        i := i + 1;
      }
      EmptyAndFull(data[..], rd, wr);
    }

    method LeftOver() returns (r: nat)
      requires Valid()
      ensures r == size - 1 - |Contents()|
    {
      LeftIsFree(data[..], rd, wr);
      r := Left(rd, wr, size);
    }

    method Contains() returns (r: nat)
      requires Valid()
      ensures r == |Contents()|
    {
      var left := LeftOver();
      r := size - left - 1;
    }

    method Empty() returns (r: int)
      requires Valid()
      ensures r == if Contents() == [] then 1 else 0
    {
      EmptyAndFull(data[..], rd, wr);
      r := if Succ(rd, size) != wr then 0 else 1;
    }

    method Full() returns (r: int)
      requires Valid()
      ensures r == if |Contents()| == size - 1 then 1 else 0
    {
      EmptyAndFull(data[..], rd, wr);
      r := if wr == rd then 1 else 0;
    }

    /** Bytes written to an empty ring that fit come back unchanged, wherever
        in the array the ring happens to stand. */
    method RoundTrip(src: array<char>, dst: array<char>, n: nat)
      requires Valid() && Contents() == [] && n <= src.Length && n <= dst.Length && n < size
      requires src != data && dst != data && src != dst
      modifies this, data, dst
      ensures dst[..n] == old(src[..n])
      ensures Valid() && Contents() == []
    {
      var w := Write(src, n);
      var r := Read(dst, n);
    }
  }
}
