/** The ring buffer shared by one reading and one writing thread without a lock.
    Every load and every store of a shared variable is a step of its own. */
module RingSteps {
  import opened Seqs
  import Ringbuf

  /** Where `ringbuf_read` stands; `a` is a register holding a loaded index. */
  datatype ReaderPc =
    | RIdle
    | RLoop            // test i < n
    | RLoadRd          // load rd for the second half of the test
    | RLoadWr(a: nat)  // load wr, compare
    | RLoadRd2         // load rd for the increment
    | RStoreRd(a: nat) // publish the new rd
    | RLoadRd3         // load rd for the copy
    | RCopy(a: nat)    // load data[a] and store it for the caller

  /** Where `ringbuf_write` stands. */
  datatype WriterPc =
    | WIdle
    | WLoop
    | WLoadWr
    | WLoadRd(a: nat)
    | WLoadWr2
    | WStore(a: nat)   // store the byte into data[a]
    | WLoadWr3
    | WPublish(a: nat) // store the new wr

  datatype State = State(
    size: nat, rd: nat, wr: nat, data: seq<char>,
    rpc: ReaderPc, n: nat, got: seq<char>, finished: seq<seq<char>>,
    wpc: WriterPc, src: seq<char>, i: nat, written: seq<seq<char>>)

  datatype Act = ReadCall(n: nat) | ReadStep | WriteCall(src: seq<char>) | WriteStep

  ghost predicate Shape(s: State) {
    && 0 < s.size == |s.data| && s.rd < s.size && s.wr < s.size
    && s.i <= |s.src| && (s.wpc.WIdle? ==> s.i == 0) && (!s.wpc.WIdle? && !s.wpc.WLoop? ==> s.i < |s.src|)
    && (s.rpc.RCopy? ==> s.rpc.a < s.size) && (s.wpc.WStore? ==> s.wpc.a < s.size)
  }

  predicate Enabled(s: State, act: Act) {
    match act
    case ReadCall(_) => s.rpc.RIdle?
    case ReadStep => !s.rpc.RIdle?
    case WriteCall(_) => s.wpc.WIdle?
    case WriteStep => !s.wpc.WIdle?
  }

  /** A call of `ringbuf_read` ends and returns what it copied. */
  function ReadReturns(s: State): State {
    s.(rpc := RIdle, finished := s.finished + [s.got], got := [])
  }

  /** A call of `ringbuf_write` ends, having stored a prefix of its bytes. */
  function WriteReturns(s: State): State
    requires s.i <= |s.src|
  {
    s.(wpc := WIdle, written := s.written + [s.src[..s.i]], src := [], i := 0)
  }

  function ReaderStep(s: State): State
    requires 0 < s.size == |s.data| && (s.rpc.RCopy? ==> s.rpc.a < s.size)
  {
    match s.rpc
    case RIdle => s
    case RLoop => if |s.got| < s.n then s.(rpc := RLoadRd) else ReadReturns(s)
    case RLoadRd => s.(rpc := RLoadWr(s.rd))
    case RLoadWr(a) => if Ringbuf.Succ(a, s.size) != s.wr then s.(rpc := RLoadRd2) else ReadReturns(s)
    case RLoadRd2 => s.(rpc := RStoreRd(s.rd))
    case RStoreRd(a) => s.(rpc := RLoadRd3, rd := Ringbuf.Succ(a, s.size))
    case RLoadRd3 => s.(rpc := RCopy(s.rd))
    case RCopy(a) => s.(rpc := RLoop, got := s.got + [s.data[a]])
  }

  function WriterStep(s: State): State
    requires Shape(s)
  {
    match s.wpc
    case WIdle => s
    case WLoop => if s.i < |s.src| then s.(wpc := WLoadWr) else WriteReturns(s)
    case WLoadWr => s.(wpc := WLoadRd(s.wr))
    case WLoadRd(a) => if a != s.rd then s.(wpc := WLoadWr2) else WriteReturns(s)
    case WLoadWr2 => s.(wpc := WStore(s.wr))
    case WStore(a) => s.(wpc := WLoadWr3, data := s.data[a := s.src[s.i]])
    case WLoadWr3 => s.(wpc := WPublish(s.wr))
    case WPublish(a) => s.(wpc := WLoop, wr := Ringbuf.Succ(a, s.size), i := s.i + 1)
  }

  function Next(s: State, act: Act): State
    requires Shape(s)
  {
    match act
    case ReadCall(n) => s.(rpc := RLoop, n := n)
    case ReadStep => ReaderStep(s)
    case WriteCall(src) => s.(wpc := WLoop, src := src)
    case WriteStep => WriterStep(s)
  }

  /** Fresh from `ringbuf_init`. */
  function Start(data: seq<char>): State
    requires data != []
  {
    State(|data|, |data| - 1, 0, data, RIdle, 0, [], [], WIdle, [], 0, [])
  }

  /** `acts` leads from `s` to `t`: any interleaving of the two threads. */
  ghost predicate Runs(s: State, acts: seq<Act>, t: State)
    decreases |acts|
  {
    if acts == [] then s == t
    else Shape(s) && Enabled(s, acts[0]) && Runs(Next(s, acts[0]), acts[1..], t)
  }

  /** All bytes the reader has copied out so far, over all its calls. */
  function Taken(s: State): seq<char> {
    Flatten(s.finished) + s.got
  }

  /** All bytes the writer has made visible so far, over all its calls. */
  function Accepted(s: State): seq<char>
    requires s.i <= |s.src|
  {
    Flatten(s.written) + s.src[..s.i]
  }

  /** The reader has published the slot it is about to copy. */
  predicate Copying(s: State) {
    s.rpc.RLoadRd3? || s.rpc.RCopy?
  }

  /** How often `rd` has moved. */
  function Claimed(s: State): nat {
    |Taken(s)| + if Copying(s) then 1 else 0
  }

  /** The slot of the `k`-th byte ever: slots are used round and round. */
  function Slot(k: nat, size: nat): (r: nat)
    requires 0 < size
    ensures r < size
  {
    if k < size then k else Slot(k - size, size)
  }

  ghost predicate ReaderInv(s: State, c: nat, w: nat) {
    && (s.rpc.RLoadWr? || s.rpc.RStoreRd? || s.rpc.RCopy? ==> s.rpc.a == s.rd)
    && (s.rpc.RLoadRd2? || s.rpc.RStoreRd? ==> c < w)
  }

  ghost predicate WriterInv(s: State, c: nat, w: nat)
    requires Shape(s)
  {
    && (s.wpc.WLoadRd? || s.wpc.WStore? || s.wpc.WPublish? ==> s.wpc.a == s.wr)
    && (s.wpc.WLoadWr2? || s.wpc.WStore? || s.wpc.WLoadWr3? || s.wpc.WPublish? ==> w - c < s.size - 1)
    && (s.wpc.WLoadWr3? || s.wpc.WPublish? ==> s.data[s.wr] == s.src[s.i])
  }

  ghost predicate Stored(data: seq<char>, acc: seq<char>, from: nat) {
    data != [] && forall k | from <= k < |acc| :: data[Slot(k, |data|)] == acc[k]
  }

  ghost predicate Inv'(s: State, t: seq<char>, acc: seq<char>, c: nat)
    requires Shape(s)
  {
    && s.rd == Slot(c + s.size - 1, s.size) && s.wr == Slot(|acc|, s.size)
    && |t| <= c <= |acc| <= c + s.size - 1
    && t <= acc && Stored(s.data, acc, |t|)
    && ReaderInv(s, c, |acc|) && WriterInv(s, c, |acc|)
  }

  ghost predicate Inv(s: State) {
    Shape(s) && Inv'(s, Taken(s), Accepted(s), Claimed(s))
  }

  // ----- slots

  lemma {:induction false} SlotNext(k: nat, n: nat)
    requires 0 < n
    ensures Slot(k + 1, n) == Ringbuf.Succ(Slot(k, n), n)
  {
    if k < n {
      Ringbuf.NextIndex(k, n);
      assert Slot(k + 1, n) == if k + 1 < n then k + 1 else Slot(0, n);
    } else {
      SlotNext(k - n, n);
    }
  }

  lemma SlotWraps(k: nat, n: nat)
    requires 0 < n
    ensures Slot(k + n, n) == Slot(k, n)
  {
  }

  /** Fewer than `n` consecutive bytes fall into different slots. */
  lemma {:induction false} SlotsDiffer(k: nat, m: nat, n: nat)
    requires k < m < k + n
    ensures Slot(k, n) != Slot(m, n)
  {
    if k >= n {
      SlotsDiffer(k - n, m - n, n);
    } else if m >= n {
      assert Slot(m, n) == m - n;
    }
  }

  // ----- the invariant

  lemma StartInv(data: seq<char>)
    requires data != []
    ensures Inv(Start(data))
  {
  }

  /** Only the copy changes what the reader has taken. */
  lemma ReaderLogs(s: State)
    requires Shape(s)
    ensures Taken(ReaderStep(s)) == Taken(s) + if s.rpc.RCopy? then [s.data[s.rpc.a]] else []
    ensures Accepted(ReaderStep(s)) == Accepted(s)
  {
    FlattenSnoc(s.finished, s.got);
    assert s.rpc.RCopy? ==> Taken(ReaderStep(s)) == Taken(s) + [s.data[s.rpc.a]];
  }

  /** Only the publishing store changes what the writer has accepted. */
  lemma WriterLogs(s: State)
    requires Shape(s)
    ensures Accepted(WriterStep(s)) == Accepted(s) + if s.wpc.WPublish? then [s.src[s.i]] else []
    ensures Taken(WriterStep(s)) == Taken(s)
  {
    FlattenSnoc(s.written, s.src[..s.i]);
    if s.wpc.WPublish? {
      assert Accepted(WriterStep(s)) == Accepted(s) + [s.src[s.i]];
    }
  }

  lemma ReaderKeepsInv(s: State)
    requires Inv(s) && !s.rpc.RIdle?
    ensures Inv(ReaderStep(s))
  {
    if s.rpc.RCopy? {
      ReaderCopies(s);
    } else if s.rpc.RStoreRd? {
      ReaderPublishes(s);
    } else {
      ReaderTests(s);
    }
  }

  lemma ReaderTests(s: State)
    requires Inv(s) && !s.rpc.RIdle? && !s.rpc.RCopy? && !s.rpc.RStoreRd?
    ensures Inv(ReaderStep(s))
  {
    hide Taken, Accepted, Slot, Ringbuf.Succ, Stored;
    ReaderLogs(s);
    SlotNext(Claimed(s) + s.size - 1, s.size);
    SlotWraps(Claimed(s), s.size);
  }

  lemma ReaderPublishes(s: State)
    requires Inv(s) && s.rpc.RStoreRd?
    ensures Inv(ReaderStep(s))
  {
    hide Taken, Accepted, Slot, Ringbuf.Succ, Stored;
    ReaderLogs(s);
    SlotNext(Claimed(s) + s.size - 1, s.size);
  }

  lemma ReaderCopies(s: State)
    requires Inv(s) && s.rpc.RCopy?
    ensures Inv(ReaderStep(s))
  {
    hide Taken, Accepted, Slot, Ringbuf.Succ;
    ReaderLogs(s);
    SlotWraps(|Taken(s)|, s.size);
  }

  lemma WriterKeepsInv(s: State)
    requires Inv(s) && !s.wpc.WIdle?
    ensures Inv(WriterStep(s))
  {
    hide Taken, Accepted, Slot, Ringbuf.Succ;
    WriterLogs(s);
    var t, acc := Taken(s), Accepted(s);
    SlotNext(|acc|, s.size);
    if s.wpc.WStore? {
      forall k | |t| <= k < |acc| ensures Slot(k, s.size) != s.wr {
        SlotsDiffer(k, |acc|, s.size);
      }
    }
  }

  lemma NextKeepsInv(s: State, act: Act)
    requires Inv(s) && Enabled(s, act)
    ensures Inv(Next(s, act))
  {
    match act
    case ReadCall(n) => assert Taken(Next(s, act)) == Taken(s);
    case ReadStep => ReaderKeepsInv(s);
    case WriteCall(src) => assert Accepted(Next(s, act)) == Accepted(s) by { assert s.src[..0] == src[..0]; }
    case WriteStep => WriterKeepsInv(s);
  }

  lemma {:induction false} RunKeepsInv(s: State, acts: seq<Act>, t: State)
    requires Inv(s) && Runs(s, acts, t)
    ensures Inv(t)
    decreases |acts|
  {
    if acts != [] {
      NextKeepsInv(s, acts[0]);
      RunKeepsInv(Next(s, acts[0]), acts[1..], t);
    }
  }

  // ----- what every interleaving guarantees

  /** Whatever the interleaving: the reads, one after the other, return a prefix
      of the bytes the writes accepted, in order. */
  lemma ReadsArePrefix(data: seq<char>, acts: seq<Act>, t: State)
    requires data != [] && Runs(Start(data), acts, t)
    ensures Shape(t) && Taken(t) <= Accepted(t)
    ensures |Accepted(t)| - |Taken(t)| <= |data|
  {
    StartInv(data);
    RunKeepsInv(Start(data), acts, t);
    RunKeepsSize(Start(data), acts, t);
  }

  lemma {:induction false} RunKeepsSize(s: State, acts: seq<Act>, t: State)
    requires Runs(s, acts, t)
    ensures t.size == s.size
    decreases |acts|
  {
    if acts != [] {
      RunKeepsSize(Next(s, acts[0]), acts[1..], t);
    }
  }

  /** The writer never stores into a slot whose byte is still to be read: not
      into an unread one, and not into the one the reader has published in `rd`
      but not copied yet. */
  lemma StoresMissUnread(data: seq<char>, acts: seq<Act>, t: State, k: nat)
    requires data != [] && Runs(Start(data), acts, t)
    requires t.wpc.WStore? && Shape(t)
    requires |Taken(t)| <= k < |Accepted(t)|
    ensures t.wpc.a != Slot(k, t.size)
    ensures Copying(t) ==> t.wpc.a != t.rd && t.rd == Slot(|Taken(t)|, t.size)
  {
    StartInv(data);
    RunKeepsInv(Start(data), acts, t);
    SlotsDiffer(k, |Accepted(t)|, t.size);
    if Copying(t) {
      SlotWraps(|Taken(t)|, t.size);
      SlotsDiffer(|Taken(t)|, |Accepted(t)|, t.size);
    }
  }

  /** While no copy is under way the array holds, in the sense of the sequential
      class, exactly the bytes accepted and not yet read. */
  lemma ContentIsUnread(data: seq<char>, acts: seq<Act>, t: State)
    requires data != [] && Runs(Start(data), acts, t) && !Copying(t)
    ensures Inv(t) && Ringbuf.Content(t.data, t.rd, t.wr) == Accepted(t)[|Taken(t)|..]
  {
    StartInv(data);
    RunKeepsInv(Start(data), acts, t);
    ContentFrom(t.data, Accepted(t), |Taken(t)|);
  }

  /** What the index behind the last byte read points at. */
  lemma NextRead(c: nat, n: nat)
    requires 0 < n
    ensures Ringbuf.Succ(Slot(c + n - 1, n), n) == Slot(c, n)
  {
    hide Slot, Ringbuf.Succ;
    SlotNext(c + n - 1, n);
    SlotWraps(c, n);
  }

  lemma StoredNext(d: seq<char>, acc: seq<char>, c: nat)
    requires Stored(d, acc, c) && c < |acc|
    ensures d[Slot(c, |d|)] == acc[c] && Stored(d, acc, c + 1)
  {
    hide Slot;
  }

  /** `c` bytes read and no more accepted: nothing is unread. */
  lemma ContentOfNone(d: seq<char>, c: nat)
    requires d != []
    ensures Ringbuf.Content(d, Slot(c + |d| - 1, |d|), Slot(c, |d|)) == []
  {
    hide Ringbuf.Content, Slot;
    NextRead(c, |d|);
    Ringbuf.EmptyAndFull(d, Slot(c + |d| - 1, |d|), Slot(c, |d|));
  }

  /** `c` bytes read and more accepted: the next one is in front. */
  lemma ContentOfMore(d: seq<char>, c: nat, w: nat)
    requires d != [] && c < w <= c + |d| - 1
    ensures Ringbuf.Content(d, Slot(c + |d| - 1, |d|), Slot(w, |d|))
         == [d[Slot(c, |d|)]] + Ringbuf.Content(d, Slot(c + |d|, |d|), Slot(w, |d|))
  {
    hide Ringbuf.Content, Slot;
    NextRead(c, |d|);
    SlotWraps(c, |d|);
    SlotsDiffer(c, w, |d|);
    Ringbuf.ContentPop(d, Slot(c + |d| - 1, |d|), Slot(w, |d|));
  }

  lemma {:induction false} ContentFrom(d: seq<char>, acc: seq<char>, c: nat)
    requires d != [] && c <= |acc| <= c + |d| - 1 && Stored(d, acc, c)
    ensures Ringbuf.Content(d, Slot(c + |d| - 1, |d|), Slot(|acc|, |d|)) == acc[c..]
    decreases |acc| - c
  {
    hide Ringbuf.Content, Slot, Stored;
    if c == |acc| {
      ContentOfNone(d, c);
    } else {
      StoredNext(d, acc, c);
      ContentOfMore(d, c, |acc|);
      ContentFrom(d, acc, c + 1);
      assert acc[c..] == [acc[c]] + acc[c + 1..];
    }
  }
}
