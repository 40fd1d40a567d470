/** Who occupies which link, and which node refers to which socket, in every
    reachable state. */
module NetLinks {
  import opened NetSpec
  import opened Options

  /** Device `d` holds socket `k` at link `l`. */
  predicate At(s: State, d: nat, l: nat, k: SockId) {
    d < |s.devs| && l < |s.devs[d].links| && s.devs[d].links[l] == Some(k)
  }

  predicate NodeAt(s: State, i: nat, k: SockId) {
    i < |s.nodes| && s.nodes[i] == Some(k)
  }

  /** `c` waits to be accepted from socket `q`. */
  predicate ClientAt(s: State, q: nat, i: nat, c: SockId) {
    q < |s.socks| && i < |s.socks[q].clients| && s.socks[q].clients[i] == c
  }

  predicate HasDev(s: State, k: SockId) {
    k < |s.socks| && s.socks[k].dev.Some?
  }

  ghost predicate LinksUnique(s: State) {
    forall d1, l1, d2, l2, k :: At(s, d1, l1, k) && At(s, d2, l2, k) ==> d1 == d2 && l1 == l2
  }

  ghost predicate NodesUnique(s: State) {
    forall i, j, k :: NodeAt(s, i, k) && NodeAt(s, j, k) ==> i == j
  }

  ghost predicate ClientsUnique(s: State) {
    forall q1, i1, q2, i2, c :: ClientAt(s, q1, i1, c) && ClientAt(s, q2, i2, c) ==> q1 == q2 && i1 == i2
  }

  /** A socket that waits to be accepted has neither a device nor a node. */
  ghost predicate ClientsBare(s: State) {
    && (forall q, i, c :: ClientAt(s, q, i, c) ==> !HasDev(s, c))
    && (forall q, i, c, j :: ClientAt(s, q, i, c) ==> !NodeAt(s, j, c))
  }

  /** A linked socket that a descriptor can name cannot be connected again. */
  ghost predicate LinkedBound(s: State) {
    forall d, l, k, i :: At(s, d, l, k) && NodeAt(s, i, k) ==> HasDev(s, k)
  }

  /** The socket of a connect under way is bound and not linked yet. */
  ghost predicate ConnectOk(s: State) {
    s.busy.InConnect? ==> HasDev(s, s.busy.sock) && forall d, l :: !At(s, d, l, s.busy.sock)
  }

  ghost predicate Tidy(s: State) {
    && LinksUnique(s) && NodesUnique(s) && ClientsUnique(s)
    && ClientsBare(s) && LinkedBound(s) && ConnectOk(s)
  }

  ghost predicate Inv(s: State) {
    Ok(s) && Tidy(s)
  }

  lemma InvIsOk(s: State)
    requires Inv(s)
    ensures Ok(s) && Refers(s)
  {
  }

  /** Nothing but devices, no socket yet. */
  ghost predicate Initial(s: State) {
    && s.socks == [] && s.nodes == [] && s.names == [] && s.fds == [] && s.counter == 0 && s.busy == Idle
    && forall d | 0 <= d < |s.devs| :: s.devs[d].links == Unlinked() && s.devs[d].server == None
  }

  lemma InitialInv(s: State)
    requires Initial(s)
    ensures Inv(s)
  {
  }

  // ----- the tables stay consistent

  lemma AssignFacts(s: State, k: SockId, a: SockAddr, addrLen: nat)
    requires k < |s.socks|
    ensures Assign(s, k, a, addrLen).0 == s.(socks := Assign(s, k, a, addrLen).0.socks)
    ensures |Assign(s, k, a, addrLen).0.socks| == |s.socks|
    ensures forall j | 0 <= j < |s.socks| && j != k :: Assign(s, k, a, addrLen).0.socks[j] == s.socks[j]
    ensures var t := Assign(s, k, a, addrLen).0;
            if Assign(s, k, a, addrLen).1 then
              t.socks[k] == s.socks[k].(dev := t.socks[k].dev, addr := a) && t.socks[k].dev.Some?
              && DevOk(s, t.socks[k].dev)
            else t == s
  {
  }

  lemma AssignKeepsOk(s: State, k: SockId, a: SockAddr, addrLen: nat)
    requires Ok(s) && k < |s.socks|
    ensures Ok(Assign(s, k, a, addrLen).0)
  {
    hide Assign;
    AssignFacts(s, k, a, addrLen);
  }

  lemma TakeFacts(sock: Sock, n: nat)
    requires DgramsOk(sock.dgrams)
    ensures var t := Take(sock, n).0;
            t == sock.(queue := t.queue, dgrams := t.dgrams) && |t.queue| <= |sock.queue| && DgramsOk(t.dgrams)
  {
  }

  lemma ArriveFacts(sock: Sock, data: seq<char>, from: SockAddr)
    requires DgramsOk(sock.dgrams) && |sock.queue| <= RING - 1
    ensures var t := Arrive(sock, data, from);
            t == sock.(queue := t.queue, dgrams := t.dgrams) && |t.queue| <= RING - 1 && DgramsOk(t.dgrams)
  {
  }

  lemma NowBusyOk(s: State, busy: Busy)
    requires Ok(s) && BusyOk(s.(busy := busy))
    requires (busy.InConnect? ==> busy.sock < |s.socks|) && (busy.InListen? ==> busy.sock < |s.socks|)
    ensures Ok(s.(busy := busy))
  {
  }

  lemma ConnectKeepsOk(s: State, fd: int, a: SockAddr, addrLen: nat)
    requires Ok(s) && Enabled(s, Connect(fd, a, addrLen))
    ensures Ok(After(s, Connect(fd, a, addrLen)))
  {
    if KnownFd(s, fd) {
      hide Assign, FindLink, Ok;
      var k := SockOf(s, fd);
      AssignFacts(s, k, a, addrLen);
      AssignKeepsOk(s, k, a, addrLen);
      var t := After(s, Connect(fd, a, addrLen));
      if t.busy.InConnect? { NowBusyOk(Assign(s, k, a, addrLen).0, t.busy); }
    }
  }

  lemma SendToKeepsOk(s: State, fd: int, size: nat, to: Option<SockAddr>, addrLen: nat)
    requires Ok(s) && Enabled(s, SendTo(fd, size, to, addrLen))
    ensures Ok(After(s, SendTo(fd, size, to, addrLen)))
  {
    if Live(s, fd) {
      hide Assign, FindLink, Ok;
      var k := SockOf(s, fd);
      if to.Some? {
        AssignFacts(s, k, to.value, addrLen);
        AssignKeepsOk(s, k, to.value, addrLen);
        NowBusyOk(Assign(s, k, to.value, addrLen).0, InSend(size, false));
      }
      NowBusyOk(s, InSend(size, false));
    }
  }

  lemma CallKeepsOk(s: State, e: Event)
    requires Ok(s) && Enabled(s, e) && (e.Bind? || e.Listen? || e.Close?)
    ensures Ok(After(s, e))
  {
    match e
    case Bind(fd, a, addrLen) => AssignKeepsOk(s, SockOf(s, fd), a, addrLen);
    case Listen(_, _) => if After(s, e) != s { NowBusyOk(s, After(s, e).busy); }
    case Close(_) => if After(s, e) != s { NowBusyOk(s, After(s, e).busy); }
  }

  lemma RecvFromKeepsOk(s: State, fd: int, n: nat)
    requires Ok(s) && Enabled(s, RecvFrom(fd, n))
    ensures Ok(After(s, RecvFrom(fd, n)))
  {
    hide Take;
    if Live(s, fd) { TakeFacts(s.socks[SockOf(s, fd)], n); }
  }

  lemma ReceivedKeepsOk(s: State, d: nat, link: nat, data: seq<char>, from: SockAddr)
    requires Ok(s) && Enabled(s, Received(d, link, data, from))
    ensures Ok(After(s, Received(d, link, data, from)))
  {
    hide Arrive;
    ArriveFacts(s.socks[s.devs[d].links[link].value], data, from);
  }

  lemma SocketKeepsOk(s: State, kind: SockKind, domain: int)
    requires Ok(s) && Enabled(s, Socket(kind, domain))
    ensures Ok(After(s, Socket(kind, domain)))
  {
  }

  lemma AcceptKeepsOk(s: State, fd: int)
    requires Ok(s) && Enabled(s, Accept(fd))
    ensures Ok(After(s, Accept(fd)))
  {
  }

  lemma AcceptedKeepsOk(s: State, d: nat, link: nat, from: SockAddr)
    requires Ok(s) && Enabled(s, Accepted(d, link, from))
    ensures Ok(After(s, Accepted(d, link, from)))
  {
  }

  lemma ReplyKeepsOk(s: State, ok: bool)
    requires Ok(s) && Enabled(s, Reply(ok))
    ensures Ok(After(s, Reply(ok)))
  {
  }

  lemma ClosedKeepsOk(s: State, d: nat, link: nat)
    requires Ok(s) && Enabled(s, Closed(d, link))
    ensures Ok(After(s, Closed(d, link)))
  {
    hide Bounded, FindLink;
    var t := After(s, Closed(d, link));
    assert Bounded(t) by { BoundedSame(s, t); }
  }

  lemma BoundedSame(s: State, t: State)
    requires Bounded(s) && t.socks == s.socks
    ensures Bounded(t)
  {
  }

  lemma StepKeepsOk(s: State, e: Event)
    requires Ok(s) && Enabled(s, e)
    ensures Ok(After(s, e))
  {
    hide Step, Ok;
    match e
    case Socket(kind, domain) => SocketKeepsOk(s, kind, domain);
    case Connect(fd, a, addrLen) => ConnectKeepsOk(s, fd, a, addrLen);
    case Bind(_, _, _) => CallKeepsOk(s, e);
    case Listen(_, _) => CallKeepsOk(s, e);
    case Accept(fd) => AcceptKeepsOk(s, fd);
    case SendTo(fd, size, to, addrLen) => SendToKeepsOk(s, fd, size, to, addrLen);
    case RecvFrom(fd, n) => RecvFromKeepsOk(s, fd, n);
    case Close(_) => CallKeepsOk(s, e);
    case Reply(ok) => ReplyKeepsOk(s, ok);
    case Received(d, link, data, from) => ReceivedKeepsOk(s, d, link, data, from);
    case Accepted(d, link, from) => AcceptedKeepsOk(s, d, link, from);
    case Closed(d, link) => ClosedKeepsOk(s, d, link);
  }

  // ----- links, nodes and clients stay tidy

  lemma Within(s: State)
    requires Ok(s)
    ensures forall d: nat, l: nat, k: SockId :: At(s, d, l, k) ==> k < |s.socks|
    ensures forall i: nat, k: SockId :: NodeAt(s, i, k) ==> k < |s.socks|
    ensures forall q: nat, i: nat, c: SockId :: ClientAt(s, q, i, c) ==> c < |s.socks|
  {
  }

  /** A step that leaves links, nodes and client lists alone and gives devices only
      to sockets with a node. */
  lemma Untouched(s: State, t: State)
    requires Tidy(s)
    requires |t.devs| == |s.devs| && forall d | 0 <= d < |s.devs| :: t.devs[d].links == s.devs[d].links
    requires t.nodes == s.nodes && |t.socks| == |s.socks|
    requires forall k | 0 <= k < |s.socks| :: t.socks[k].clients == s.socks[k].clients
    requires forall k :: HasDev(s, k) ==> HasDev(t, k)
    requires forall k :: HasDev(t, k) && !HasDev(s, k) ==> exists i :: NodeAt(s, i, k)
    requires t.busy.InConnect? ==> HasDev(t, t.busy.sock) && forall d, l :: !At(s, d, l, t.busy.sock)
    ensures Tidy(t)
  {
    assert forall d, l, k :: At(t, d, l, k) <==> At(s, d, l, k);
    assert forall i, k :: NodeAt(t, i, k) <==> NodeAt(s, i, k);
    assert forall q, i, c :: ClientAt(t, q, i, c) <==> ClientAt(s, q, i, c);
  }

  /** After `assign_netdev` on a socket with a node. */
  lemma Assigned(s: State, i: nat, k: SockId, a: SockAddr, addrLen: nat)
    requires Tidy(s) && s.busy.Idle? && NodeAt(s, i, k) && k < |s.socks|
    ensures Tidy(Assign(s, k, a, addrLen).0)
  {
    hide Assign;
    AssignFacts(s, k, a, addrLen);
    Untouched(s, Assign(s, k, a, addrLen).0);
  }

  /** Waiting for a reply other than to a connect. */
  lemma NowBusy(s: State, busy: Busy)
    requires Tidy(s) && !busy.InConnect?
    ensures Tidy(s.(busy := busy))
  {
    Untouched(s, s.(busy := busy));
  }

  lemma ConnectTidy(s: State, fd: int, a: SockAddr, addrLen: nat)
    requires Inv(s) && Enabled(s, Connect(fd, a, addrLen))
    ensures Tidy(After(s, Connect(fd, a, addrLen)))
  {
    if KnownFd(s, fd) {
      hide Assign, Refers, Bounded, FindLink;
      var k := SockOf(s, fd);
      assert NodeAt(s, NodeOf(s, fd), k);
      AssignFacts(s, k, a, addrLen);
      Untouched(s, After(s, Connect(fd, a, addrLen)));
    }
  }

  lemma SendToTidy(s: State, fd: int, size: nat, to: Option<SockAddr>, addrLen: nat)
    requires Inv(s) && Enabled(s, SendTo(fd, size, to, addrLen))
    ensures Tidy(After(s, SendTo(fd, size, to, addrLen)))
  {
    if Live(s, fd) {
      hide Assign, Refers, Bounded, FindLink, Tidy;
      var k := SockOf(s, fd);
      assert NodeAt(s, NodeOf(s, fd), k);
      if to.Some? {
        Assigned(s, NodeOf(s, fd), k, to.value, addrLen);
        NowBusy(Assign(s, k, to.value, addrLen).0, InSend(size, false));
      }
      NowBusy(s, InSend(size, false));
    }
  }

  lemma CallTidy(s: State, e: Event)
    requires Inv(s) && Enabled(s, e) && (e.Bind? || e.Listen? || e.Close?)
    ensures Tidy(After(s, e))
  {
    hide Assign, Bounded, FindLink, Tidy;
    match e
    case Bind(fd, a, addrLen) =>
      assert NodeAt(s, NodeOf(s, fd), SockOf(s, fd));
      Assigned(s, NodeOf(s, fd), SockOf(s, fd), a, addrLen);
    case Listen(_, _) => if After(s, e) != s { NowBusy(s, After(s, e).busy); }
    case Close(_) => if After(s, e) != s { NowBusy(s, After(s, e).busy); }
  }

  lemma BufferTidy(s: State, e: Event)
    requires Inv(s) && Enabled(s, e) && (e.RecvFrom? || e.Received?)
    ensures Tidy(After(s, e))
  {
    if e.RecvFrom? {
      hide Take;
      if Live(s, e.fd) { TakeFacts(s.socks[SockOf(s, e.fd)], e.n); }
      Untouched(s, After(s, e));
    } else {
      hide Arrive;
      ArriveFacts(s.socks[s.devs[e.dev].links[e.link].value], e.data, e.from);
      Untouched(s, After(s, e));
    }
  }

  lemma SocketTidy(s: State, kind: SockKind, domain: int)
    requires Inv(s) && Enabled(s, Socket(kind, domain))
    ensures Tidy(After(s, Socket(kind, domain)))
  {
    Within(s);
    hide Refers, Bounded;
    var t := After(s, Socket(kind, domain));
    assert forall d, l, k :: At(t, d, l, k) <==> At(s, d, l, k);
    assert forall i, k :: NodeAt(t, i, k) <==> NodeAt(s, i, k) || (i == |s.nodes| && k == |s.socks|);
    assert forall q, i, c :: ClientAt(t, q, i, c) <==> ClientAt(s, q, i, c);
  }

  lemma AcceptTidy(s: State, fd: int)
    requires Inv(s) && Enabled(s, Accept(fd))
    ensures Tidy(After(s, Accept(fd)))
  {
    var t, k := After(s, Accept(fd)), SockOf(s, fd);
    if t != s {
      var cl := s.socks[k].clients[0];
      assert ClientAt(s, k, 0, cl) && NodeAt(s, NodeOf(s, fd), k);
      assert cl != k;
      assert t.socks == s.socks[cl := s.socks[cl].(dev := s.socks[k].dev)]
                               [k := s.socks[k].(clients := s.socks[k].clients[1..])];
      hide Refers, Bounded, Step;
      assert forall d, l, x :: At(t, d, l, x) <==> At(s, d, l, x);
      assert forall i, x :: NodeAt(t, i, x) <==> NodeAt(s, i, x) || (i == |s.nodes| && x == cl);
      assert forall q, i: nat, c :: ClientAt(t, q, i, c) <==> ClientAt(s, q, if q == k then i + 1 else i, c);
    }
  }

  lemma ReplyTidy(s: State, ok: bool)
    requires Inv(s) && Enabled(s, Reply(ok))
    ensures Tidy(After(s, Reply(ok)))
  {
    var t := After(s, Reply(ok));
    assert forall i, x :: NodeAt(t, i, x) <==> NodeAt(s, i, x);
    assert forall q, i, c :: ClientAt(t, q, i, c) <==> ClientAt(s, q, i, c);
    if ok && s.busy.InConnect? {
      var InConnect(dev, link, k) := s.busy;
      hide Refers, Bounded;
      assert forall d, l, x :: At(t, d, l, x) <==> if d == dev && l == link then x == k else At(s, d, l, x);
    } else {
      hide Refers, Bounded;
      assert forall d, l, x :: At(t, d, l, x) ==> At(s, d, l, x);
    }
  }

  lemma AcceptedTidy(s: State, d: nat, link: nat, from: SockAddr)
    requires Inv(s) && Enabled(s, Accepted(d, link, from))
    ensures Tidy(After(s, Accepted(d, link, from)))
  {
    var t, n := After(s, Accepted(d, link, from)), |s.socks|;
    if t != s {
      var k := s.devs[d].server.value;
      Within(s);
      assert k < n;
      hide Refers, Bounded;
      assert forall d', l, x :: At(t, d', l, x) <==> if d' == d && l == link then x == n else At(s, d', l, x);
      assert forall i, x :: NodeAt(t, i, x) <==> NodeAt(s, i, x);
      assert forall q, i, c :: ClientAt(t, q, i, c) <==>
               ClientAt(s, q, i, c) || (q == k && i == |s.socks[k].clients| && c == n);
    }
  }

  lemma ClosedTidy(s: State, d: nat, link: nat)
    requires Inv(s) && Enabled(s, Closed(d, link))
    ensures Tidy(After(s, Closed(d, link)))
  {
    hide Refers, Bounded;
    var t := After(s, Closed(d, link));
    assert forall d', l, x :: At(t, d', l, x) ==> At(s, d', l, x);
    assert forall i, x :: NodeAt(t, i, x) ==> NodeAt(s, i, x);
    assert forall q, i, c :: ClientAt(t, q, i, c) <==> ClientAt(s, q, i, c);
  }

  lemma StepKeepsInv(s: State, e: Event)
    requires Inv(s) && Enabled(s, e)
    ensures Inv(After(s, e))
  {
    hide Step, Refers, Bounded, Tidy;
    StepKeepsOk(s, e);
    match e
    case Socket(kind, domain) => SocketTidy(s, kind, domain);
    case Connect(fd, a, addrLen) => ConnectTidy(s, fd, a, addrLen);
    case Bind(_, _, _) => CallTidy(s, e);
    case Listen(_, _) => CallTidy(s, e);
    case Accept(fd) => AcceptTidy(s, fd);
    case SendTo(fd, size, to, addrLen) => SendToTidy(s, fd, size, to, addrLen);
    case RecvFrom(_, _) => BufferTidy(s, e);
    case Close(_) => CallTidy(s, e);
    case Reply(ok) => ReplyTidy(s, ok);
    case Received(_, _, _, _) => BufferTidy(s, e);
    case Accepted(d, link, from) => AcceptedTidy(s, d, link, from);
    case Closed(d, link) => ClosedTidy(s, d, link);
  }
}
