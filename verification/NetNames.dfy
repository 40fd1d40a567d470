/** The names of socket nodes.  `bos_socket` takes them from a counter, `bos_accept`
    from the number of the listener's descriptor, so they may repeat; here is when. */
module NetNames {
  import opened NetSpec
  import opened Options
  import opened NetLinks
  import opened NetRuns
  import Inet
  import Numerals

  /** `e` is an accept on `fd` that hands out a descriptor. */
  predicate Accepts(s: State, e: Event, fd: int)
    requires Ok(s) && Enabled(s, e)
  {
    e == Accept(fd) && Step(s, e).1 != Code(-1)
  }

  /** Some accept on `fd` in the run handed out a descriptor. */
  ghost predicate AcceptedOn(s: State, es: seq<Event>, fd: int)
    decreases |es|
  {
    es != [] && Possible(s, es[0]) && (Accepts(s, es[0], fd) || AcceptedOn(After(s, es[0]), es[1..], fd))
  }

  /** How often a run calls `bos_socket`. */
  function Opened(es: seq<Event>): nat {
    if es == [] then 0 else (if es[0].Socket? then 1 else 0) + Opened(es[1..])
  }

  lemma StepNames(s: State, e: Event, v: nat)
    requires Ok(s) && Enabled(s, e)
    ensures After(s, e).counter == s.counter + if e.Socket? then 1 else 0
    ensures v in After(s, e).names <==> v in s.names || (e.Socket? && v == s.counter + 1) || Accepts(s, e, v - 1)
    ensures s.names <= After(s, e).names
  {
    hide Bounded, Arrive, Take;
    if e.Connect? || e.Bind? || e.SendTo? {
      hide Step;
      CallKeepsNames(s, e);
    }
  }

  lemma CallKeepsNames(s: State, e: Event)
    requires Ok(s) && Enabled(s, e) && (e.Connect? || e.Bind? || e.SendTo?)
    ensures After(s, e).names == s.names && After(s, e).counter == s.counter
  {
    hide Assign, Bounded, FindLink;
    match e
    case Connect(fd, a, addrLen) => if KnownFd(s, fd) { AssignFacts(s, SockOf(s, fd), a, addrLen); }
    case Bind(fd, a, addrLen) => AssignFacts(s, SockOf(s, fd), a, addrLen);
    case SendTo(fd, _, to, addrLen) =>
      if Live(s, fd) && to.Some? { AssignFacts(s, SockOf(s, fd), to.value, addrLen); }
  }

  /** Which numbers are names after a run. */
  lemma {:induction false} NamesOfRun(s: State, es: seq<Event>, t: State, v: nat)
    requires Inv(s) && Runs(s, es, t)
    ensures t.counter == s.counter + Opened(es) && s.names <= t.names
    ensures v in t.names <==> v in s.names || s.counter < v <= t.counter || AcceptedOn(s, es, v - 1)
    decreases |es|
  {
    hide Step, Ok, Tidy, Accepts;
    if es != [] {
      InvIsOk(s);
      StepNames(s, es[0], v);
      StepKeepsInv(s, es[0]);
      NamesOfRun(After(s, es[0]), es[1..], t, v);
    }
  }

  /** An accept on `fd` that succeeds gives a name that is taken exactly when there
      were at least `fd + 1` calls of `bos_socket`, or an accept on `fd` before. */
  lemma AcceptRepeats(start: State, es: seq<Event>, s: State, fd: int)
    requires Initial(start) && Runs(start, es, s)
    requires Enabled(s, Accept(fd)) && Inv(s) && Accepts(s, Accept(fd), fd)
    ensures After(s, Accept(fd)).names == s.names + [fd + 1]
    ensures fd + 1 in s.names <==> fd + 1 <= Opened(es) || AcceptedOn(start, es, fd)
  {
    InitialInv(start);
    NamesOfRun(start, es, s, fd + 1);
  }

  /** A name from `bos_socket` is taken exactly when an accept succeeded on the
      descriptor whose number is that of the calls of `bos_socket` before. */
  lemma SocketRepeats(start: State, es: seq<Event>, s: State, kind: SockKind, domain: int)
    requires Initial(start) && Runs(start, es, s)
    requires Enabled(s, Event.Socket(kind, domain)) && Inv(s)
    ensures After(s, Event.Socket(kind, domain)).names == s.names + [Opened(es) + 1]
    ensures Opened(es) + 1 in s.names <==> AcceptedOn(start, es, Opened(es))
  {
    InitialInv(start);
    NamesOfRun(start, es, s, Opened(es) + 1);
  }

  /** Nodes of different numbers have different names. */
  lemma NamesTell(v: nat, w: nat)
    ensures Numerals.Digits(v, 10) == Numerals.Digits(w, 10) <==> v == w
  {
    Numerals.ValueOfDigits(v, 10);
    Numerals.ValueOfDigits(w, 10);
  }

  /** A listener on the first device, and two connections for it. */
  function TwoArrivals(a: SockAddr, from: SockAddr): seq<Event> {
    [Event.Socket(Stream, AF_INET)] + [Bind(1, a, Inet.ADDR_LEN)] + [Listen(1, 0)] + [Reply(true)]
    + [Accepted(0, 0, from)] + [Accepted(0, 1, from)]
  }

  /** A listener for descriptor 1 with the waiting clients `cs`. */
  ghost predicate Listening(s: State, cs: seq<SockId>) {
    && Inv(s) && s.busy == Idle && Live(s, 1) && SockOf(s, 1) == 0 && s.names == [1]
    && s.socks[0].kind == Stream && s.socks[0].dev == Some(0) && s.socks[0].clients == cs
    && s.devs != [] && s.devs[0].server == Some(0)
  }

  lemma StartsListening(s: State, a: SockAddr) returns (t: State)
    requires Initial(s) && s.devs != [] && Matches(s.devs[0], a, Inet.ADDR_LEN)
    ensures Listening(t, []) && |t.socks| == 1 && t.nodes == [Some(0)] && t.fds == [0]
    ensures t.devs[0].links == s.devs[0].links && Matches(t.devs[0], a, Inet.ADDR_LEN)
    ensures Runs(s, [Event.Socket(Stream, AF_INET)] + [Bind(1, a, Inet.ADDR_LEN)] + [Listen(1, 0)] + [Reply(true)], t)
  {
    hide Tidy, Refers, Bounded, Runs;
    InitialInv(s);
    var e1, e2, e3, e4 := Event.Socket(Stream, AF_INET), Bind(1, a, Inet.ADDR_LEN), Listen(1, 0), Reply(true);
    EmptyRun(s);
    RunSnoc(s, [], s, e1);
    var s1 := After(s, e1);
    assert s1 == s.(socks := [NetSpec.NewSock(Stream, SockAddr(AF_INET, 0, 0))], nodes := [Some(0)], names := [1],
                    fds := [0],
                    counter := 1);
    RunSnoc(s, [] + [e1], s1, e2);
    var s2 := After(s1, e2);
    assert s2 == s1.(socks := [s1.socks[0].(dev := Some(0), addr := a)]);
    RunSnoc(s, [] + [e1] + [e2], s2, e3);
    var s3 := After(s2, e3);
    assert s3 == s2.(busy := InListen(0, 0));
    RunSnoc(s, [] + [e1] + [e2] + [e3], s3, e4);
    t := After(s3, e4);
    assert [] + [e1] == [e1];
  }

  lemma EmptyRun(s: State)
    ensures Runs(s, [], s)
  {
  }

  /** One more connection waits. */
  lemma OneArrives(s: State, cs: seq<SockId>, link: nat, from: SockAddr) returns (t: State)
    requires Listening(s, cs) && link < NLINKS
    ensures Enabled(s, Accepted(0, link, from)) && t == After(s, Accepted(0, link, from))
    ensures Listening(t, cs + [|s.socks|])
  {
    hide Tidy, Bounded;
    StepKeepsInv(s, Accepted(0, link, from));
    t := After(s, Accepted(0, link, from));
  }

  /** Two accepts on one listener give the same name twice. */
  lemma TwoAccepts(s: State, fd: int)
    requires Inv(s) && s.busy == Idle && Live(s, fd)
    requires s.socks[SockOf(s, fd)].kind == Stream && s.socks[SockOf(s, fd)].dev.Some?
    requires |s.socks[SockOf(s, fd)].clients| >= 2
    ensures var t := After(s, Accept(fd));
            && Inv(t) && Enabled(t, Accept(fd)) && Inv(After(t, Accept(fd)))
            && After(t, Accept(fd)).names == s.names + [fd + 1, fd + 1]
  {
    AcceptGoesOn(s, fd);
    AcceptGoesOn(After(s, Accept(fd)), fd);
  }

  lemma AcceptGoesOn(s: State, fd: int)
    requires Inv(s) && s.busy == Idle && Live(s, fd)
    requires s.socks[SockOf(s, fd)].kind == Stream && s.socks[SockOf(s, fd)].dev.Some?
    requires |s.socks[SockOf(s, fd)].clients| >= 1
    ensures var t, k := After(s, Accept(fd)), SockOf(s, fd);
            && Inv(t) && t.busy == Idle && Live(t, fd) && SockOf(t, fd) == k && t.names == s.names + [fd + 1]
            && t.socks[k].kind == Stream && t.socks[k].dev.Some? && t.socks[k].clients == s.socks[k].clients[1..]
  {
    hide Tidy, Bounded;
    StepKeepsInv(s, Accept(fd));
    assert ClientAt(s, SockOf(s, fd), 0, s.socks[SockOf(s, fd)].clients[0]);
  }

  /** Both are accepted, and their nodes have the same name. */
  lemma TwoAcceptsOneName(s: State, a: SockAddr, from: SockAddr)
    requires Initial(s) && s.devs != [] && Matches(s.devs[0], a, Inet.ADDR_LEN)
    ensures exists t :: Runs(s, TwoArrivals(a, from) + [Accept(1)] + [Accept(1)], t) && t.names == [1, 2, 2]
  {
    var t := StartsListening(s, a);
    var es := [Event.Socket(Stream, AF_INET)] + [Bind(1, a, Inet.ADDR_LEN)] + [Listen(1, 0)] + [Reply(true)];
    hide Step, Tidy, Ok, Runs;
    var t1 := OneArrives(t, [], 0, from);
    RunSnoc(s, es, t, Accepted(0, 0, from));
    var t2 := OneArrives(t1, [] + [|t.socks|], 1, from);
    RunSnoc(s, es + [Accepted(0, 0, from)], t1, Accepted(0, 1, from));
    TwoAccepts(t2, 1);
    RunSnoc(s, TwoArrivals(a, from), t2, Accept(1));
    RunSnoc(s, TwoArrivals(a, from) + [Accept(1)], After(t2, Accept(1)), Accept(1));
  }
}
