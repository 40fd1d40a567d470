/** Whole sessions: any series of calls on the objects is a run of the machine. */
module NetSession {
  import opened NetSpec
  import opened NetObjects
  import opened NetStack
  import opened NetCalls
  import FsTree
  import NetLinks
  import NetRuns
  import Numerals
  import Seqs

  /** What the application does next: a call, with the data if it sends and with the
      answers to its commands, or something else while the reader thread delivers
      events. */
  datatype Act = Call(call: Event, data: seq<char>, rounds: seq<Round>) | Meanwhile(during: seq<Event>)

  predicate IsCall(e: Event) {
    !Async(e) && !e.Reply?
  }

  /** The number that names a new node fits into eight places. */
  predicate NameFits(s: State, e: Event) {
    match e
    case Socket(_, _) => s.counter < Numerals.WORD / 2 - 1 && |Numerals.Digits(s.counter + 1, 10)| < 8
    case Accept(fd) => 0 < fd ==> fd < Numerals.WORD / 2 - 1 && |Numerals.Digits(fd + 1, 10)| < 8
    case _ => true
  }

  ghost predicate Allowed(s: State, act: Act) {
    match act
    case Call(e, _, rounds) => Ok(s) && IsCall(e) && Enabled(s, e) && NameFits(s, e) && Answered(Step(s, e), rounds)
    case Meanwhile(during) => Deliverable(s, during)
  }

  ghost function Outcome(s: State, act: Act): (State, Ret)
    requires Allowed(s, act)
  {
    match act
    case Call(e, _, rounds) => Finish(Step(s, e), rounds)
    case Meanwhile(during) => (Delivered(s, during), Quiet)
  }

  /** The steps of the machine behind one act. */
  ghost function Steps(s: State, act: Act): seq<Event>
    requires Allowed(s, act)
  {
    match act
    case Call(e, _, rounds) => [e] + Played(Step(s, e), rounds)
    case Meanwhile(during) => during
  }

  ghost predicate AllAllowed(s: State, acts: seq<Act>)
    decreases |acts|
  {
    acts != [] ==> Allowed(s, acts[0]) && AllAllowed(Outcome(s, acts[0]).0, acts[1..])
  }

  /** The results of a series of acts. */
  ghost function Results(s: State, acts: seq<Act>): seq<Ret>
    requires AllAllowed(s, acts)
    decreases |acts|
  {
    if acts == [] then [] else [Outcome(s, acts[0]).1] + Results(Outcome(s, acts[0]).0, acts[1..])
  }

  ghost function Trace(s: State, acts: seq<Act>): seq<Event>
    requires AllAllowed(s, acts)
    decreases |acts|
  {
    if acts == [] then [] else Steps(s, acts[0]) + Trace(Outcome(s, acts[0]).0, acts[1..])
  }

  lemma ActIsRun(s: State, act: Act)
    requires Allowed(s, act)
    ensures NetRuns.Runs(s, Steps(s, act), Outcome(s, act).0)
  {
    hide Step, Ok;
    match act
    case Call(e, _, rounds) => CallIsRun(s, e, rounds);
    case Meanwhile(during) =>
      assert NetRuns.Runs(Delivered(s, during), [], Delivered(s, during));
      DeliveredRuns(s, during, [], Delivered(s, during));
      assert during + [] == during;
  }

  /** One act on the objects. */
  method Perform(net: Stack, act: Act) returns (r: Ret)
    requires net.Coupled() && NetLinks.Inv(net.st) && Allowed(net.st, act)
    modifies net.Repr()
    ensures net.Coupled() && NetLinks.Inv(net.st) && net.Grows()
    ensures (net.st, r) == Outcome(old(net.st), act)
  {
    hide Stack.Coupled, NetLinks.Inv, Stack.Objects, Step, Deliverable, Delivered, Ok;
    match act {
      case Meanwhile(during) =>
        net.Deliver(during);
        r := Quiet;
      case Call(e, data, rounds) =>
        r := PerformCall(net, e, data, rounds);
    }
  }

  method PerformCall(net: Stack, e: Event, data: seq<char>, rounds: seq<Round>) returns (r: Ret)
    requires net.Coupled() && NetLinks.Inv(net.st) && Allowed(net.st, Call(e, data, rounds))
    modifies net.Repr()
    ensures net.Coupled() && NetLinks.Inv(net.st) && net.Grows()
    ensures (net.st, r) == Finish(Step(old(net.st), e), rounds)
  {
    hide Stack.Coupled, NetLinks.Inv, Stack.Objects, Deliverable, Delivered, Ok, Step, Answered, Stack.Grows;
    net.CounterIs();
    EndsAtOnce(net.st, e);
    var id;
    match e {
      case Socket(kind, domain) => id := BosSocket(net, kind, domain); r := Code(id);
      case Connect(fd, a, addrLen) => id := BosConnect(net, fd, a, addrLen, rounds); r := Code(id);
      case Bind(fd, a, addrLen) => id := BosBind(net, fd, a, addrLen); r := Code(id);
      case Listen(fd, backlog) => id := BosListen(net, fd, backlog, rounds); r := Code(id);
      case Accept(fd) =>
        var addr;
        id, addr := BosAccept(net, fd);
        r := Code(id);
      case SendTo(fd, size, to, addrLen) =>
        var wire;
        id, wire := BosSendTo(net, fd, data, size, to, addrLen, rounds);
        r := Code(id);
      case RecvFrom(fd, n) => r := Receive(net, fd, n);
      case Close(fd) => id := BosClose(net, fd, rounds); r := Code(id);
      case _ =>
    }
  }

  /** These calls do not wait. */
  lemma EndsAtOnce(s: State, e: Event)
    requires Ok(s) && Enabled(s, e) && (e.Accept? ==> 0 < e.fd)
    ensures e.Socket? || e.Bind? || e.Accept? || e.RecvFrom? ==> Step(s, e).1 != Waits
  {
    hide Bounded, Assign, Take;
  }

  /** `bos_recvfrom` into an array of its own. */
  method Receive(net: Stack, fd: int, n: nat) returns (r: Ret)
    requires net.Coupled() && NetLinks.Inv(net.st) && Ok(net.st) && Enabled(net.st, RecvFrom(fd, n))
    modifies net.Objects()
    ensures net.Coupled() && NetLinks.Inv(net.st) && net.Grows()
    ensures (net.st, r) == Step(old(net.st), RecvFrom(fd, n))
  {
    hide Stack.Coupled, NetLinks.Inv, Stack.Objects, Step, Ok;
    net.PartsAllocated();
    FsTree.NodesAllocated(net.fs.forest);
    var data := new char[n];
    var k, sender := BosRecvFrom(net, fd, data, n);
    r := if k < 0 then Code(k) else Bytes(data[..k], sender);
  }

  /** A series of acts, one after the other. */
  method Session(net: Stack, acts: seq<Act>) returns (results: seq<Ret>)
    requires net.Coupled() && NetLinks.Inv(net.st) && AllAllowed(net.st, acts)
    modifies net.Repr()
    ensures net.Coupled() && NetLinks.Inv(net.st) && net.Grows()
    ensures results == Results(old(net.st), acts)
    ensures NetRuns.Runs(old(net.st), Trace(old(net.st), acts), net.st)
    decreases |acts|
  {
    hide Stack.Coupled, NetLinks.Inv, Stack.Objects, Stack.Repr, Allowed, Outcome, Steps;
    results := [];
    if acts != [] {
      ghost var s := net.st;
      ActIsRun(s, acts[0]);
      var r := Perform(net, acts[0]);
      ghost var t := net.st;
      var more := Session(net, acts[1..]);
      results := [r] + more;
      NetRuns.RunsOn(s, Steps(s, acts[0]), t, Trace(t, acts[1..]), net.st);
    }
  }

  /** From nothing but unused devices: the stack is set up, the acts are done, and for
      every socket what was received is a prefix of what arrived. */
  method FromStart(devs: seq<Netdev>, acts: seq<Act>) returns (net: Stack, results: seq<Ret>)
    requires Seqs.NoDup(devs) && forall i, j | 0 <= i < j < |devs| :: devs[i].links != devs[j].links
    requires forall i | 0 <= i < |devs| :: Unused(devs[i])
    requires AllAllowed(StartOf(devs), acts)
    modifies Gear(devs)
    ensures fresh(net) && net.Coupled() && results == Results(StartOf(devs), acts)
    ensures NetRuns.Runs(StartOf(devs), Trace(StartOf(devs), acts), net.st)
    ensures forall k: nat ::
              NetRuns.Returned(StartOf(devs), Trace(StartOf(devs), acts), k)
              <= NetRuns.Arrived(StartOf(devs), Trace(StartOf(devs), acts), k)
  {
    hide Stack.Coupled, NetLinks.Inv, Stack.Objects, Stack.Repr, Gear, AllAllowed, Results, Trace;
    ghost var s := StartOf(devs);
    NetLinks.InitialInv(s);
    net := new Stack(devs);
    results := Session(net, acts);
    forall k: nat ensures NetRuns.Returned(s, Trace(s, acts), k) <= NetRuns.Arrived(s, Trace(s, acts), k) {
      NetRuns.ReturnedIsPrefix(s, Trace(s, acts), net.st, k);
    }
  }
}
