/** What a single call of the shared ring achieves amid any steps of the other thread:
    it ends, and it stops early only if it has seen the ring empty, or full. */
module RingCalls {
  import opened RingSteps
  import opened Seqs
  import Fifo
  import Ringbuf

  /** What the call under way was asked for, read off the run. */
  function Asked(acts: seq<Act>): nat {
    if acts == [] then 0
    else if acts[|acts| - 1].ReadCall? then acts[|acts| - 1].n
    else Asked(acts[..|acts| - 1])
  }

  function Given(acts: seq<Act>): seq<char> {
    if acts == [] then []
    else if acts[|acts| - 1].WriteCall? then acts[|acts| - 1].src
    else Given(acts[..|acts| - 1])
  }

  /** A call has no more bytes than it was asked for, and starts with none. */
  predicate CallOk(s: State) {
    && (s.rpc.RIdle? ==> s.got == [])
    && (!s.rpc.RIdle? ==> |s.got| <= s.n) && (!s.rpc.RIdle? && !s.rpc.RLoop? ==> |s.got| < s.n)
  }

  ghost predicate Inv(s: State) {
    RingSteps.Inv(s) && CallOk(s)
  }

  lemma StepKeepsInv(s: State, act: Act)
    requires Inv(s) && Enabled(s, act)
    ensures Inv(Next(s, act))
  {
    hide RingSteps.Inv, Next, CallOk;
    ShapeOf(s);
    NextKeepsInv(s, act);
    StepKeepsCall(s, act);
  }

  lemma ShapeOf(s: State)
    requires RingSteps.Inv(s)
    ensures Shape(s)
  {
  }

  lemma StepKeepsCall(s: State, act: Act)
    requires Shape(s) && CallOk(s) && Enabled(s, act)
    ensures CallOk(Next(s, act))
  {
  }

  lemma {:induction false} RunsSnoc(s: State, front: seq<Act>, act: Act, t: State) returns (m: State)
    requires Runs(s, front + [act], t)
    ensures Runs(s, front, m) && Shape(m) && Enabled(m, act) && t == Next(m, act)
    decreases |front|
  {
    var acts := front + [act];
    if front == [] {
      m := s;
      assert acts[1..] == [];
    } else {
      assert acts[1..] == front[1..] + [act];
      m := RunsSnoc(Next(s, front[0]), front[1..], act, t);
    }
  }

  /** In every run from the start the registers hold what the calls were given. */
  lemma {:induction false} CallsOfRun(data: seq<char>, acts: seq<Act>, t: State)
    requires data != [] && Runs(Start(data), acts, t)
    ensures Inv(t) && (!t.rpc.RIdle? ==> t.n == Asked(acts)) && (!t.wpc.WIdle? ==> t.src == Given(acts))
    decreases |acts|
  {
    hide RingSteps.Inv, Runs;
    if acts == [] {
      assert t == Start(data) by { RunsNone(Start(data), t); }
      StartInv(data);
    } else {
      var front, act := acts[..|acts| - 1], acts[|acts| - 1];
      assert front + [act] == acts;
      var m := RunsSnoc(Start(data), front, act, t);
      CallsOfRun(data, front, m);
      StepKeepsInv(m, act);
    }
  }

  lemma RunsNone(s: State, t: State)
    requires Runs(s, [], t)
    ensures s == t
  {
  }

  // ----- where a call stops

  /** Equal slots of two positions less than a round apart are one position. */
  lemma SameSlot(k: nat, m: nat, n: nat)
    requires 0 < n && k <= m < k + n && Slot(k, n) == Slot(m, n)
    ensures k == m
  {
    if k < m { SlotsDiffer(k, m, n); }
  }

  /** A step ends a read only if the call has all its bytes, or if it is the load of
      `wr` and everything accepted so far has been taken. */
  lemma ReadStops(s: State)
    requires Inv(s) && !s.rpc.RIdle? && ReaderStep(s).rpc.RIdle?
    ensures |s.got| <= s.n && (|s.got| < s.n ==> s.rpc.RLoadWr? && Taken(s) == Accepted(s))
    ensures ReaderStep(s).finished == s.finished + [s.got]
  {
    hide Taken, Accepted, Slot;
    if s.rpc.RLoadWr? {
      var c, w := |Taken(s)|, |Accepted(s)|;
      NextRead(c, s.size);
      SameSlot(c, w, s.size);
    }
  }

  /** A step ends a write only if the call has stored all its bytes, or if it is the
      load of `rd` and the ring holds size - 1 bytes that no reader has claimed. */
  lemma WriteStops(s: State)
    requires Inv(s) && !s.wpc.WIdle? && WriterStep(s).wpc.WIdle?
    ensures s.i < |s.src| ==> s.wpc.WLoadRd? && |Accepted(s)| - Claimed(s) == s.size - 1
    ensures WriterStep(s).written == s.written + [s.src[..s.i]]
  {
    hide Taken, Accepted, Claimed, Slot;
    if s.wpc.WLoadRd? {
      SameSlot(|Accepted(s)|, Claimed(s) + s.size - 1, s.size);
    }
  }

  /** In every interleaving: a read returns at most the bytes asked for, and fewer only
      if at its last step, a load of `wr`, all accepted bytes had been taken. */
  lemma ReadReturnsAll(data: seq<char>, acts: seq<Act>, t: State)
    requires data != [] && Runs(Start(data), acts + [ReadStep], t) && t.rpc.RIdle?
    ensures t.finished != []
    ensures var got := t.finished[|t.finished| - 1];
            && |got| <= Asked(acts) && Shape(t) && |got| <= |Taken(t)| && got == Taken(t)[|Taken(t)| - |got|..]
            && (|got| < Asked(acts) ==> Taken(t) == Accepted(t))
  {
    var m := RunsSnoc(Start(data), acts, ReadStep, t);
    CallsOfRun(data, acts, m);
    ReadStops(m);
    ReaderLogs(m);
    FlattenSnoc(m.finished, m.got);
    assert Taken(t) == Flatten(m.finished) + m.got;
  }

  /** And a write takes all its bytes, or those that fit: it stops before only if at its
      last step, a load of `rd`, the ring was full. */
  lemma WriteAcceptsAll(data: seq<char>, acts: seq<Act>, t: State)
    requires data != [] && Runs(Start(data), acts + [WriteStep], t) && t.wpc.WIdle?
    ensures t.written != [] && Shape(t)
    ensures var put := t.written[|t.written| - 1];
            && put <= Given(acts) && (put != Given(acts) ==> |Accepted(t)| - Claimed(t) == |data| - 1)
  {
    var m := RunsSnoc(Start(data), acts, WriteStep, t);
    CallsOfRun(data, acts, m);
    WriteStops(m);
    WriterLogs(m);
    RunKeepsSize(Start(data), acts, m);
  }

  // ----- every call ends

  /** How many more steps a read can take, whatever the writer does. */
  function ReadSteps(s: State): nat
    requires CallOk(s)
  {
    match s.rpc
    case RIdle => 0
    case RLoop => 7 * (s.n - |s.got|) + 1
    case RLoadRd => 7 * (s.n - |s.got|)
    case RLoadWr(_) => 7 * (s.n - |s.got|) - 1
    case RLoadRd2 => 7 * (s.n - |s.got|) - 2
    case RStoreRd(_) => 7 * (s.n - |s.got|) - 3
    case RLoadRd3 => 7 * (s.n - |s.got|) - 4
    case RCopy(_) => 7 * (s.n - |s.got|) - 5
  }

  function WriteSteps(s: State): nat
    requires Shape(s)
  {
    match s.wpc
    case WIdle => 0
    case WLoop => 7 * (|s.src| - s.i) + 1
    case WLoadWr => 7 * (|s.src| - s.i)
    case WLoadRd(_) => 7 * (|s.src| - s.i) - 1
    case WLoadWr2 => 7 * (|s.src| - s.i) - 2
    case WStore(_) => 7 * (|s.src| - s.i) - 3
    case WLoadWr3 => 7 * (|s.src| - s.i) - 4
    case WPublish(_) => 7 * (|s.src| - s.i) - 5
  }

  function Count(acts: seq<Act>, act: Act): nat {
    if acts == [] then 0 else (if acts[0] == act then 1 else 0) + Count(acts[1..], act)
  }

  lemma StepsDrop(s: State, act: Act)
    requires Inv(s) && Enabled(s, act) && Inv(Next(s, act))
    ensures !act.ReadCall? ==> ReadSteps(Next(s, act)) + (if act == ReadStep then 1 else 0) <= ReadSteps(s)
    ensures !act.WriteCall? ==> WriteSteps(Next(s, act)) + (if act == WriteStep then 1 else 0) <= WriteSteps(s)
  {
    hide Inv, ReaderStep, WriterStep, ReadSteps, WriteSteps;
    InvShape(s);
    InvShape(Next(s, act));
    match act
    case ReadCall(n) => OthersStay(s, act);
    case ReadStep => ReadStepsDrop(s);
    case WriteCall(src) => OthersStay(s, act);
    case WriteStep => WriteStepsDrop(s);
  }

  lemma ReadStepsDrop(s: State)
    requires Shape(s) && CallOk(s) && CallOk(ReaderStep(s)) && Shape(ReaderStep(s)) && !s.rpc.RIdle?
    ensures ReadSteps(ReaderStep(s)) < ReadSteps(s) && WriteSteps(ReaderStep(s)) == WriteSteps(s)
  {
  }

  lemma WriteStepsDrop(s: State)
    requires Shape(s) && CallOk(s) && CallOk(WriterStep(s)) && Shape(WriterStep(s)) && !s.wpc.WIdle?
    ensures WriteSteps(WriterStep(s)) < WriteSteps(s) && ReadSteps(WriterStep(s)) == ReadSteps(s)
  {
  }

  lemma OthersStay(s: State, act: Act)
    requires Shape(s) && CallOk(s) && Enabled(s, act) && CallOk(Next(s, act)) && Shape(Next(s, act))
    ensures act.ReadCall? ==> WriteSteps(Next(s, act)) == WriteSteps(s)
    ensures act.WriteCall? ==> ReadSteps(Next(s, act)) == ReadSteps(s)
  {
  }

  /** Neither thread waits for the other: a call that takes as many steps of its own as
      it has left is over, whatever the other thread does in between. */
  lemma {:induction false} CallsEnd(s: State, acts: seq<Act>, t: State)
    requires Inv(s) && Runs(s, acts, t)
    ensures (forall n :: ReadCall(n) !in acts) ==> Count(acts, ReadStep) <= ReadSteps(s)
    ensures (forall src :: WriteCall(src) !in acts) ==> Count(acts, WriteStep) <= WriteSteps(s)
    decreases |acts|
  {
    hide Inv, ReadSteps, WriteSteps, Next;
    InvShape(s);
    if acts != [] {
      StepKeepsInv(s, acts[0]);
      StepsDrop(s, acts[0]);
      CallsEnd(Next(s, acts[0]), acts[1..], t);
      assert acts == [acts[0]] + acts[1..];
    }
  }

  lemma InvShape(s: State)
    requires Inv(s)
    ensures Shape(s) && CallOk(s)
  {
  }

  // ----- a call by itself

  predicate Only(acts: seq<Act>, act: Act) {
    forall i | 0 <= i < |acts| :: acts[i] == act
  }

  /** What the reader alone makes of a call under way. */
  lemma {:induction false} ReaderAlone(s: State, acts: seq<Act>, t: State)
    requires Inv(s) && !s.rpc.RIdle? && Only(acts, ReadStep) && Runs(s, acts, t) && t.rpc.RIdle?
    ensures Inv(t) && Accepted(t) == Accepted(s)
    ensures |t.finished| == |s.finished| + 1 && t.finished[..|s.finished|] == s.finished
    ensures var got := t.finished[|s.finished|];
            && Taken(t) == Flatten(s.finished) + got && |got| <= s.n && (|got| < s.n ==> Taken(t) == Accepted(t))
    decreases |acts|
  {
    hide RingSteps.Inv, Accepted, Taken;
    var s1 := Next(s, acts[0]);
    assert Shape(s) && acts[0] == ReadStep;
    StepKeepsInv(s, ReadStep);
    ReaderLogs(s);
    if s1.rpc.RIdle? {
      assert acts[1..] == [] by { IdleStops(s1, acts[1..], t); }
      ReadStops(s);
      TakenIs(s);
    } else {
      ReaderAlone(s1, acts[1..], t);
    }
  }

  lemma TakenIs(s: State)
    ensures Taken(s) == Flatten(s.finished) + s.got
  {
  }

  lemma IdleStops(s: State, acts: seq<Act>, t: State)
    requires s.rpc.RIdle? && Only(acts, ReadStep) && Runs(s, acts, t)
    ensures acts == []
  {
  }

  /** A read with no step of the writer in between returns the first bytes of the
      content, as many as it asks for or as there are. */
  lemma ReadAlone(s: State, n: nat, acts: seq<Act>, t: State)
    requires Inv(s) && s.rpc.RIdle? && Only(acts, ReadStep) && Runs(s, [ReadCall(n)] + acts, t) && t.rpc.RIdle?
    ensures var content := Ringbuf.Content(s.data, s.rd, s.wr);
            t.finished == s.finished + [content[..Fifo.Min(n, |content|)]]
  {
    hide RingSteps.Inv, Taken, Accepted, Claimed;
    var s1, all := Next(s, ReadCall(n)), [ReadCall(n)] + acts;
    assert all[1..] == acts;
    StepKeepsInv(s, ReadCall(n));
    ReaderAlone(s1, acts, t);
    ContentIs(s);
    InvShape(t);
    TakenIs(s);
    TakenWithin(t);
    var content, got := Ringbuf.Content(s.data, s.rd, s.wr), t.finished[|s.finished|];
    assert s.got == [] && Taken(s) + [] == Taken(s);
    CallLogs(s, n);
    assert Accepted(t) == Taken(s) + content;
    assert Taken(t) == Taken(s) + got;
    FrontOf(Taken(s), got, content);
    if |got| < n { assert got == content; }
    assert t.finished == s.finished + [got];
  }

  lemma CallLogs(s: State, n: nat)
    requires Shape(s)
    ensures Accepted(Next(s, ReadCall(n))) == Accepted(s) && Taken(Next(s, ReadCall(n))) == Taken(s)
  {
  }

  lemma TakenWithin(t: State)
    requires Inv(t)
    ensures Taken(t) <= Accepted(t)
  {
  }

  lemma ContentIs(s: State)
    requires Inv(s) && !Copying(s)
    ensures |Taken(s)| <= |Accepted(s)| && Accepted(s) == Taken(s) + Ringbuf.Content(s.data, s.rd, s.wr)
  {
    ContentFrom(s.data, Accepted(s), |Taken(s)|);
  }

  lemma FrontOf(a: seq<char>, b: seq<char>, c: seq<char>)
    requires a + b <= a + c
    ensures |b| <= |c| && b == c[..|b|]
  {
    assert b == (a + b)[|a|..] && c == (a + c)[|a|..];
  }

  /** What the writer alone makes of a call under way. */
  lemma {:induction false} WriterAlone(s: State, acts: seq<Act>, t: State)
    requires Inv(s) && !s.wpc.WIdle? && Only(acts, WriteStep) && Runs(s, acts, t) && t.wpc.WIdle?
    ensures Inv(t) && Taken(t) == Taken(s) && Claimed(t) == Claimed(s) && t.size == s.size
    ensures |t.written| == |s.written| + 1 && t.written[..|s.written|] == s.written
    ensures var put := t.written[|s.written|];
            && Accepted(t) == Flatten(s.written) + put && put <= s.src
            && (put != s.src ==> |Accepted(t)| - Claimed(t) == t.size - 1)
    decreases |acts|
  {
    hide RingSteps.Inv, Accepted, Taken;
    var s1 := Next(s, acts[0]);
    assert Shape(s) && acts[0] == WriteStep;
    StepKeepsInv(s, WriteStep);
    WriterLogs(s);
    WriterKeepsReader(s);
    if s1.wpc.WIdle? {
      assert acts[1..] == [] by { WriteIdleStops(s1, acts[1..], t); }
      WriteStops(s);
      AcceptedIs(s);
    } else {
      WriterAlone(s1, acts[1..], t);
    }
  }

  lemma WriterKeepsReader(s: State)
    requires Shape(s) && !s.wpc.WIdle?
    ensures var t := WriterStep(s);
            t.size == s.size && t.rpc == s.rpc && (!t.wpc.WIdle? ==> t.src == s.src && t.written == s.written)
  {
  }

  lemma AcceptedIs(s: State)
    requires Shape(s)
    ensures Accepted(s) == Flatten(s.written) + s.src[..s.i]
  {
  }

  lemma WriteIdleStops(s: State, acts: seq<Act>, t: State)
    requires s.wpc.WIdle? && Only(acts, WriteStep) && Runs(s, acts, t)
    ensures acts == []
  {
  }

  /** A write with no step of the reader in between accepts the first of its bytes, as
      many as fit beside the content. */
  lemma WriteAlone(s: State, src: seq<char>, acts: seq<Act>, t: State)
    requires Inv(s) && s.wpc.WIdle? && !Copying(s)
    requires Only(acts, WriteStep) && Runs(s, [WriteCall(src)] + acts, t) && t.wpc.WIdle?
    ensures var content := Ringbuf.Content(s.data, s.rd, s.wr);
            && |content| <= s.size - 1
            && t.written == s.written + [Fifo.Fitting(content, s.size - 1, src)]
  {
    hide RingSteps.Inv, Taken, Accepted, Ringbuf.Content, Shape, CallOk;
    var s1, all := Next(s, WriteCall(src)), [WriteCall(src)] + acts;
    assert all[1..] == acts;
    InvShape(s);
    StepKeepsInv(s, WriteCall(src));
    WriterAlone(s1, acts, t);
    ContentIs(s);
    AcceptedIs(s);
    RoomIs(s);
    RoomIs(t);
    InvShape(t);
    assert s.src[..0] == [] && Accepted(s) == Flatten(s.written) + [];
    var content, put := Ringbuf.Content(s.data, s.rd, s.wr), t.written[|s.written|];
    WriteCallLogs(s, src);
    assert |Accepted(t)| == |Accepted(s)| + |put| && |content| == |Accepted(s)| - Claimed(s);
    assert put == src[..|put|];
    assert t.written == s.written + [put];
  }

  lemma WriteCallLogs(s: State, src: seq<char>)
    requires Shape(s) && s.wpc.WIdle?
    ensures Claimed(Next(s, WriteCall(src))) == Claimed(s) && (!Copying(s) ==> Claimed(s) == |Taken(s)|)
  {
  }

  lemma RoomIs(s: State)
    requires Inv(s)
    ensures |Accepted(s)| - Claimed(s) <= s.size - 1
  {
  }

  // ----- and it can always be run to its end

  lemma {:induction false} ReadOn(s: State) returns (acts: seq<Act>, t: State)
    requires Inv(s)
    ensures Only(acts, ReadStep) && Runs(s, acts, t) && t.rpc.RIdle?
    decreases ReadSteps(s)
  {
    InvShape(s);
    if s.rpc.RIdle? {
      acts, t := [], s;
    } else {
      StepKeepsInv(s, ReadStep);
      StepsDrop(s, ReadStep);
      var more;
      more, t := ReadOn(Next(s, ReadStep));
      acts := [ReadStep] + more;
      assert acts[1..] == more;
    }
  }

  lemma {:induction false} WriteOn(s: State) returns (acts: seq<Act>, t: State)
    requires Inv(s)
    ensures Only(acts, WriteStep) && Runs(s, acts, t) && t.wpc.WIdle?
    decreases WriteSteps(s)
  {
    InvShape(s);
    if s.wpc.WIdle? {
      acts, t := [], s;
    } else {
      StepKeepsInv(s, WriteStep);
      StepsDrop(s, WriteStep);
      var more;
      more, t := WriteOn(Next(s, WriteStep));
      acts := [WriteStep] + more;
      assert acts[1..] == more;
    }
  }

  /** A read by itself comes to its end, and returns what `ReadAlone` says. */
  lemma ReadByItself(s: State, n: nat) returns (acts: seq<Act>, t: State)
    requires Inv(s) && s.rpc.RIdle?
    ensures Only(acts, ReadStep) && Runs(s, [ReadCall(n)] + acts, t) && t.rpc.RIdle?
    ensures var content := Ringbuf.Content(s.data, s.rd, s.wr);
            t.finished == s.finished + [content[..Fifo.Min(n, |content|)]]
  {
    hide RingSteps.Inv;
    InvShape(s);
    StepKeepsInv(s, ReadCall(n));
    acts, t := ReadOn(Next(s, ReadCall(n)));
    assert ([ReadCall(n)] + acts)[1..] == acts;
    ReadAlone(s, n, acts, t);
  }

  /** So does a write. */
  lemma WriteByItself(s: State, src: seq<char>) returns (acts: seq<Act>, t: State)
    requires Inv(s) && s.wpc.WIdle? && !Copying(s)
    ensures Only(acts, WriteStep) && Runs(s, [WriteCall(src)] + acts, t) && t.wpc.WIdle?
    ensures var content := Ringbuf.Content(s.data, s.rd, s.wr);
            && |content| <= s.size - 1
            && t.written == s.written + [Fifo.Fitting(content, s.size - 1, src)]
  {
    hide RingSteps.Inv;
    InvShape(s);
    StepKeepsInv(s, WriteCall(src));
    acts, t := WriteOn(Next(s, WriteCall(src)));
    assert ([WriteCall(src)] + acts)[1..] == acts;
    WriteAlone(s, src, acts, t);
  }
}
