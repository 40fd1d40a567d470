/** What whole calls achieve, whatever events come while they wait. */
module NetLaws {
  import opened NetSpec
  import opened Options
  import opened NetLinks
  import opened NetRuns
  import Fifo
  import Inet

  // ----- descriptors for new sockets

  /** No descriptor of `s` leads to socket `k`. */
  ghost predicate Unnamed(s: State, k: SockId) {
    forall fd | KnownFd(s, fd) && Live(s, fd) :: SockOf(s, fd) != k
  }

  /** `bos_socket` returns a descriptor of its own, for an empty socket that no
      other descriptor leads to. */
  lemma SocketOpens(s: State, kind: SockKind, domain: int)
    requires Inv(s) && Enabled(s, Event.Socket(kind, domain))
    ensures var (t, r) := Step(s, Event.Socket(kind, domain));
            && r.Code? && !KnownFd(s, r.code) && Live(t, r.code)
            && var k := SockOf(t, r.code);
               Unnamed(s, k) && t.socks[k].kind == kind && Readable(t, k) == [] && !HasDev(t, k)
  {
    hide Tidy;
    StepKeepsInv(s, Event.Socket(kind, domain));
  }

  /** `bos_accept` returns a descriptor of its own, for a socket that waited, that
      no other descriptor leads to and that now has the listener's device. */
  lemma AcceptOpens(s: State, fd: int)
    requires Inv(s) && Enabled(s, Accept(fd))
    ensures var (t, r) := Step(s, Accept(fd));
            && r.Code? && (r.code < 0 ==> t == s)
            && (r.code >= 0 ==>
                  && !KnownFd(s, r.code) && Live(t, r.code)
                  && var k, cl := SockOf(s, fd), SockOf(t, r.code);
                     && Clients(s, k) == [cl] + Clients(t, k) && Unnamed(s, cl)
                     && !HasDev(s, cl) && t.socks[cl] == s.socks[cl].(dev := s.socks[k].dev))
  {
    var k := SockOf(s, fd);
    var (t, r) := Step(s, Accept(fd));
    if r.code >= 0 {
      var cl := s.socks[k].clients[0];
      assert ClientAt(s, k, 0, cl) && NodeAt(s, NodeOf(s, fd), k);
      assert cl != k;
      forall g | KnownFd(s, g) && Live(s, g) ensures SockOf(s, g) != cl {
        assert NodeAt(s, NodeOf(s, g), SockOf(s, g));
      }
    }
  }

  // ----- the queue of a listening socket

  /** The sockets that wait to be accepted from `k`. */
  function Clients(s: State, k: SockId): seq<SockId> {
    if k < |s.socks| then s.socks[k].clients else []
  }

  /** A connection: its socket and the address of the other side. */
  datatype Peer = Peer(sock: SockId, from: SockAddr)

  function PeerOf(s: State, c: SockId): Peer {
    Peer(c, if c < |s.socks| then s.socks[c].addr else SockAddr(AF_INET, 0, 0))
  }

  /** The connections that wait at `k`. */
  function Queue(s: State, k: SockId): (r: seq<Peer>)
    ensures |r| == |Clients(s, k)| && forall i | 0 <= i < |r| :: r[i] == PeerOf(s, Clients(s, k)[i])
  {
    seq(|Clients(s, k)|, i requires 0 <= i < |Clients(s, k)| => PeerOf(s, Clients(s, k)[i]))
  }

  /** The connection an event adds to the queue of `k`. */
  function JoinedBy(s: State, e: Event, k: SockId): seq<Peer>
    requires Ok(s) && Enabled(s, e)
  {
    if e.Accepted? && s.devs[e.dev].server == Some(k) then [Peer(|s.socks|, e.from)] else []
  }

  /** The socket behind the descriptor that an accept on `k` returned, and the address
      that it told. */
  function HandedBy(s: State, e: Event, k: SockId): seq<Peer>
    requires Ok(s) && Enabled(s, e)
  {
    if e.Accept? && SockOf(s, e.fd) == k && Step(s, e).1.Code? && Live(After(s, e), Step(s, e).1.code)
    then [PeerOf(After(s, e), SockOf(After(s, e), Step(s, e).1.code))] else []
  }

  ghost function Joined(s: State, es: seq<Event>, k: SockId): seq<Peer>
    decreases |es|
  {
    if es == [] || !Possible(s, es[0]) then []
    else JoinedBy(s, es[0], k) + Joined(After(s, es[0]), es[1..], k)
  }

  ghost function Handed(s: State, es: seq<Event>, k: SockId): seq<Peer>
    decreases |es|
  {
    if es == [] || !Possible(s, es[0]) then []
    else HandedBy(s, es[0], k) + Handed(After(s, es[0]), es[1..], k)
  }

  lemma StepQueues(s: State, e: Event, k: SockId)
    requires Inv(s) && Enabled(s, e)
    ensures Queue(s, k) + JoinedBy(s, e, k) == HandedBy(s, e, k) + Queue(After(s, e), k)
  {
    hide Step, Inv, Ok, Queue;
    if e.Accept? {
      AcceptQueues(s, e.fd, k);
    } else {
      EventClients(s, e, k);
      EventPeers(s, e, k);
    }
  }

  lemma EventPeers(s: State, e: Event, k: SockId)
    requires Inv(s) && Enabled(s, e) && !e.Accept?
    requires var more := JoinedBy(s, e, k);
             Clients(After(s, e), k) == Clients(s, k) + if more == [] then [] else [more[0].sock]
    ensures Queue(After(s, e), k) == Queue(s, k) + JoinedBy(s, e, k)
  {
    hide Step, Inv, Ok;
    InvIsOk(s);
    var t, cs := After(s, e), Clients(s, k);
    forall i | 0 <= i < |cs| ensures PeerOf(t, cs[i]) == PeerOf(s, cs[i]) {
      WaitingKeepsAddr(s, e, k, i);
    }
    if e.Accepted? { NewKeepsAddr(s, e.dev, e.link, e.from); }
  }

  /** The address of a waiting connection is not touched. */
  lemma WaitingKeepsAddr(s: State, e: Event, k: SockId, i: nat)
    requires Inv(s) && Enabled(s, e) && i < |Clients(s, k)|
    ensures PeerOf(After(s, e), Clients(s, k)[i]) == PeerOf(s, Clients(s, k)[i])
  {
    var c := Clients(s, k)[i];
    assert ClientAt(s, k, i, c);
    if e.Connect? || e.Bind? || e.SendTo? {
      hide Step, Tidy, Bounded;
      CallsKeepAddr(s, e, c);
    } else {
      hide Tidy, Arrive, Take, FindLink;
      match e
      case Received(d, link, data, from) => ArriveFacts(s.socks[s.devs[d].links[link].value], data, from);
      case RecvFrom(fd, n) => if Live(s, fd) { TakeFacts(s.socks[SockOf(s, fd)], n); }
      case _ =>
    }
  }

  /** A call changes the address of no socket but its own. */
  lemma CallsKeepAddr(s: State, e: Event, c: SockId)
    requires Inv(s) && Enabled(s, e) && (e.Connect? || e.Bind? || e.SendTo?)
    requires exists q, i: nat :: ClientAt(s, q, i, c)
    ensures PeerOf(After(s, e), c) == PeerOf(s, c)
  {
    var q, i: nat :| ClientAt(s, q, i, c);
    hide Assign, Bounded, FindLink;
    if Live(s, e.fd) {
      var k := SockOf(s, e.fd);
      assert NodeAt(s, NodeOf(s, e.fd), k);
      match e
      case Connect(_, a, addrLen) => AssignFacts(s, k, a, addrLen);
      case Bind(_, a, addrLen) => AssignFacts(s, k, a, addrLen);
      case SendTo(_, _, to, addrLen) => if to.Some? { AssignFacts(s, k, to.value, addrLen); }
    }
  }

  lemma NewKeepsAddr(s: State, d: nat, l: nat, from: SockAddr)
    requires Ok(s) && Enabled(s, Accepted(d, l, from))
    ensures s.devs[d].server.Some? ==> PeerOf(After(s, Accepted(d, l, from)), |s.socks|) == Peer(|s.socks|, from)
  {
    hide Bounded;
  }

  lemma EventClients(s: State, e: Event, k: SockId)
    requires Inv(s) && Enabled(s, e) && !e.Accept?
    ensures var more := JoinedBy(s, e, k);
            Clients(After(s, e), k) == Clients(s, k) + if more == [] then [] else [more[0].sock]
  {
    if e.Connect? || e.Bind? || e.SendTo? {
      hide Step, Tidy, Bounded;
      OthersQueue(s, e, k);
    } else {
      hide Tidy, Arrive, Take, FindLink;
      match e
      case Received(d, link, data, from) => ArriveFacts(s.socks[s.devs[d].links[link].value], data, from);
      case RecvFrom(fd, n) => if Live(s, fd) { TakeFacts(s.socks[SockOf(s, fd)], n); }
      case _ =>
    }
  }

  lemma OthersQueue(s: State, e: Event, k: SockId)
    requires Inv(s) && Enabled(s, e) && (e.Connect? || e.Bind? || e.SendTo?)
    ensures Clients(After(s, e), k) == Clients(s, k)
  {
    hide Assign, Tidy, Bounded, FindLink;
    match e
    case Connect(fd, a, addrLen) => if KnownFd(s, fd) { AssignFacts(s, SockOf(s, fd), a, addrLen); }
    case Bind(fd, a, addrLen) => AssignFacts(s, SockOf(s, fd), a, addrLen);
    case SendTo(fd, _, to, addrLen) =>
      if Live(s, fd) && to.Some? { AssignFacts(s, SockOf(s, fd), to.value, addrLen); }
  }

  lemma AcceptQueues(s: State, fd: int, k: SockId)
    requires Inv(s) && Enabled(s, Accept(fd))
    ensures Queue(s, k) == HandedBy(s, Accept(fd), k) + Queue(After(s, Accept(fd)), k)
  {
    hide Step, Inv, Ok, HandedBy, PeerOf;
    InvIsOk(s);
    AcceptClients(s, fd, k);
    var t, cs := After(s, Accept(fd)), Clients(s, k);
    var more := HandedBy(s, Accept(fd), k);
    forall i | 0 <= i < |cs| ensures PeerOf(t, cs[i]) == PeerOf(s, cs[i]) {
      WaitingKeepsAddr(s, Accept(fd), k, i);
    }
    assert more != [] ==> more[0] == PeerOf(t, cs[0]);
  }

  lemma AcceptClients(s: State, fd: int, k: SockId)
    requires Inv(s) && Enabled(s, Accept(fd))
    ensures var more := HandedBy(s, Accept(fd), k);
            && Clients(s, k) == (if more == [] then [] else [more[0].sock]) + Clients(After(s, Accept(fd)), k)
            && (more != [] ==> more == [PeerOf(After(s, Accept(fd)), Clients(s, k)[0])])
  {
    AcceptOpens(s, fd);
    hide Tidy, Bounded;
    var r := Step(s, Accept(fd)).1;
    if r.code < 0 {
      assert !Live(s, r.code);
    }
  }

  /** Connections are accepted in the order in which they came, none twice and none left
      out, and each is told with the address it came from: over any run, those handed out
      by `bos_accept` on `k`, followed by those that wait, are those that waited before
      followed by those that came. */
  lemma {:induction false} AcceptedInOrder(s: State, es: seq<Event>, t: State, k: SockId)
    requires Inv(s) && Runs(s, es, t)
    ensures Queue(s, k) + Joined(s, es, k) == Handed(s, es, k) + Queue(t, k)
    decreases |es|
  {
    hide Step, Tidy, Ok, JoinedBy, HandedBy, Queue;
    if es != [] {
      var e, s1 := es[0], After(s, es[0]);
      StepKeepsInv(s, e);
      StepQueues(s, e, k);
      AcceptedInOrder(s1, es[1..], t, k);
      Fifo.Exchange(Queue(s, k), JoinedBy(s, e, k), HandedBy(s, e, k), Queue(s1, k),
                    Joined(s1, es[1..], k), Handed(s1, es[1..], k), Queue(t, k));
    }
  }

  // ----- calls that wait

  /** What the reader thread's events leave alone: the devices' addresses, the
      sockets' devices, and links of old sockets, but for losing some. */
  ghost predicate Calm(s: State, t: State) {
    && |t.devs| == |s.devs| && |s.socks| <= |t.socks| && t.busy == s.busy
    && (forall d | 0 <= d < |s.devs| :: SameDevice(s.devs[d], t.devs[d]))
    && (forall k | 0 <= k < |s.socks| :: t.socks[k].dev == s.socks[k].dev)
    && (forall d: nat, l: nat, k: SockId :: At(t, d, l, k) && k < |s.socks| ==> At(s, d, l, k))
  }

  predicate SameDevice(x: Dev, y: Dev) {
    x.domain == y.domain && x.ip == y.ip && x.netmask == y.netmask && x.server == y.server
  }

  lemma AsyncIsCalm(s: State, e: Event)
    requires Ok(s) && Async(e) && Enabled(s, e)
    ensures Calm(s, After(s, e))
  {
    hide Arrive;
    match e
    case Received(d, link, data, from) => ArriveFacts(s.socks[s.devs[d].links[link].value], data, from);
    case _ =>
  }

  lemma {:induction false} DeliveredIsCalm(s: State, during: seq<Event>)
    requires Deliverable(s, during)
    ensures Calm(s, Delivered(s, during))
    decreases |during|
  {
    hide Step, Ok;
    if during != [] {
      AsyncIsCalm(s, during[0]);
      DeliveredIsCalm(After(s, during[0]), during[1..]);
    }
  }

  /** A `bos_connect` that returns 0 was made on an unbound socket and leaves it
      bound to a device that matches the address, and linked there. */
  lemma ConnectLinks(s: State, fd: int, a: SockAddr, addrLen: nat, rounds: seq<Round>)
    requires Inv(s) && Enabled(s, Connect(fd, a, addrLen)) && Answered(Step(s, Connect(fd, a, addrLen)), rounds)
    requires Finish(Step(s, Connect(fd, a, addrLen)), rounds).1 == Code(0)
    ensures KnownFd(s, fd)
    ensures var t, k := Finish(Step(s, Connect(fd, a, addrLen)), rounds).0, SockOf(s, fd);
            && !HasDev(s, k) && HasDev(t, k) && t.socks[k].dev.value < |t.devs|
            && Matches(t.devs[t.socks[k].dev.value], a, addrLen)
            && exists l :: At(t, t.socks[k].dev.value, l, k)
  {
    hide Tidy, Bounded, FindLink, Deliverable, Delivered;
    var k := SockOf(s, fd);
    var w := After(s, Connect(fd, a, addrLen));
    DeliveredIsCalm(w, rounds[0].during);
    var u := Delivered(w, rounds[0].during);
    var d, l := w.busy.dev, w.busy.link;
    assert SameDevice(w.devs[d], u.devs[d]);
    assert At(Finish((w, Waits), rounds).0, d, l, k);
  }

  /** A `bos_close` that returns 0 on a bound socket leaves a listener without its
      place as server, and any other socket without a link. */
  lemma CloseUnlinks(s: State, fd: int, rounds: seq<Round>)
    requires Inv(s) && Enabled(s, Close(fd)) && Answered(Step(s, Close(fd)), rounds)
    requires Live(s, fd) && HasDev(s, SockOf(s, fd))
    requires Finish(Step(s, Close(fd)), rounds).1 == Code(0)
    ensures var t, k := Finish(Step(s, Close(fd)), rounds).0, SockOf(s, fd);
            var d := s.socks[k].dev.value;
            d < |s.devs| == |t.devs|
            &&
               if s.devs[d].server == Some(k) then t.devs[d].server == None
               else forall d2: nat, l2: nat :: !At(t, d2, l2, k)
  {
    hide Bounded, FindLink, Deliverable, Delivered;
    var k, w := SockOf(s, fd), After(s, Close(fd));
    DeliveredIsCalm(w, rounds[0].during);
    var u, t := Delivered(w, rounds[0].during), Finish(Step(s, Close(fd)), rounds).0;
    if w.busy.InClose? {
      var d, l := w.busy.dev, w.busy.link;
      assert At(s, d, l, k);
      assert forall d2, l2 :: At(w, d2, l2, k) <==> At(s, d2, l2, k);
      assert forall d2, l2 :: At(t, d2, l2, k) ==> At(u, d2, l2, k) && !(d2 == d && l2 == l);
    }
  }

  // ----- a byte is lost

  /** A stream is opened and connected, and a frame comes for it. */
  function LongFrame(a: SockAddr, from: SockAddr, data: seq<char>): seq<Event> {
    [Event.Socket(Stream, AF_INET), Connect(1, a, Inet.ADDR_LEN), Reply(true), Received(0, 0, data, from)]
  }

  /** Of a frame longer than the buffer only the front arrives. */
  lemma LongFrameLoses(s: State, a: SockAddr, from: SockAddr, data: seq<char>)
    requires Initial(s) && s.devs != [] && Matches(s.devs[0], a, Inet.ADDR_LEN) && |data| >= RING
    ensures exists t :: Runs(s, LongFrame(a, from, data), t)
    ensures Routed(s, LongFrame(a, from, data), 0) == data
            && Arrived(s, LongFrame(a, from, data), 0) == data[..RING - 1]
  {
    hide Step, Tidy, Ok, Runs, Arrived, Routed;
    var e1, e2, e3, e4 := Event.Socket(Stream, AF_INET), Connect(1, a, Inet.ADDR_LEN), Reply(true),
        Received(0, 0, data, from);
    var s1, s2, s3 := Connected(s, Stream, a);
    InvIsOk(s);
    InvIsOk(s1);
    InvIsOk(s2);
    LastFrame(s3, e4, 0);
    OneFirst(s2, e3, [e4], After(s3, e4), 0);
    OneFirst(s1, e2, [e3] + [e4], After(s3, e4), 0);
    OneFirst(s, e1, [e2] + ([e3] + [e4]), After(s3, e4), 0);
    assert LongFrame(a, from, data) == [e1] + ([e2] + ([e3] + [e4]));
  }

  /** A step in front of a run that is no frame. */
  lemma OneFirst(s: State, e: Event, es: seq<Event>, t: State, k: SockId)
    requires Ok(s) && Enabled(s, e) && !e.Received? && Runs(After(s, e), es, t)
    ensures Runs(s, [e] + es, t)
    ensures Arrived(s, [e] + es, k) == Arrived(After(s, e), es, k)
    ensures Routed(s, [e] + es, k) == Routed(After(s, e), es, k)
  {
    hide Step, Ok;
    var all := [e] + es;
    assert all[1..] == es && all[0] == e;
    assert [] + Arrived(After(s, e), es, k) == Arrived(After(s, e), es, k);
    assert [] + Routed(After(s, e), es, k) == Routed(After(s, e), es, k);
  }

  /** A run of nothing but a frame for an empty stream. */
  lemma LastFrame(s: State, e: Event, k: SockId)
    requires Inv(s) && e.Received? && At(s, e.dev, e.link, k) && |e.data| >= RING
    requires k < |s.socks| && s.socks[k].kind == Stream && s.socks[k].queue == []
    ensures Enabled(s, e) && Runs(s, [e], After(s, e))
    ensures Routed(s, [e], k) == e.data && Arrived(s, [e], k) == e.data[..RING - 1]
  {
    hide Step, Tidy;
    var t := After(s, e);
    assert [e][1..] == [] && Runs(t, [], t);
    assert Arrived(t, [], k) == [] && Routed(t, [], k) == [];
    assert e.data + [] == e.data && e.data[..RING - 1] + [] == e.data[..RING - 1];
  }

  lemma Connected(s: State, kind: SockKind, a: SockAddr) returns (s1: State, s2: State, s3: State)
    requires Initial(s) && s.devs != [] && Matches(s.devs[0], a, Inet.ADDR_LEN)
    ensures Inv(s) && Enabled(s, Event.Socket(kind, AF_INET)) && s1 == After(s, Event.Socket(kind, AF_INET))
    ensures Inv(s1) && Enabled(s1, Connect(1, a, Inet.ADDR_LEN)) && s2 == After(s1, Connect(1, a, Inet.ADDR_LEN))
    ensures Inv(s2) && Enabled(s2, Reply(true)) && s3 == After(s2, Reply(true))
    ensures Inv(s3) && At(s3, 0, 0, 0) && s3.socks != [] && s3.socks[0].kind == kind
    ensures s3.socks[0].queue == [] && s3.socks[0].dgrams == [] && NodeAt(s3, 0, 0)
  {
    hide Tidy, Refers, Bounded;
    InitialInv(s);
    StepKeepsInv(s, Event.Socket(kind, AF_INET));
    s1 := After(s, Event.Socket(kind, AF_INET));
    assert s1 == s.(socks := [NetSpec.NewSock(kind, SockAddr(AF_INET, 0, 0))], nodes := [Some(0)], names := [1],
                    fds := [0],
                    counter := 1);
    StepKeepsInv(s1, Connect(1, a, Inet.ADDR_LEN));
    s2 := After(s1, Connect(1, a, Inet.ADDR_LEN));
    assert s2 == s1.(socks := [s1.socks[0].(dev := Some(0), addr := a)], busy := InConnect(0, 0, 0));
    StepKeepsInv(s2, Reply(true));
    s3 := After(s2, Reply(true));
  }
}
