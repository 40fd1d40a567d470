/** Which bytes the application can still get, and which are lost for good. */
module NetLoss {
  import opened NetSpec
  import opened Options
  import opened NetLinks
  import opened NetRuns
  import NetLaws
  import Fifo
  import Inet

  // ----- who can be reached

  /** Some node still has the socket. */
  ghost predicate Named(s: State, k: SockId) {
    exists j: nat :: NodeAt(s, j, k)
  }

  /** Or it waits to be accepted from a socket that has a node. */
  ghost predicate Reachable(s: State, k: SockId) {
    Named(s, k) || exists q: SockId, i: nat :: ClientAt(s, q, i, k) && Named(s, q)
  }

  /** The socket exists, and no call can ever name it. */
  ghost predicate Out(s: State, k: SockId) {
    k < |s.socks| && !Reachable(s, k)
  }

  predicate Listens(s: State, q: SockId) {
    q < |s.socks| && s.socks[q].kind == Stream && s.socks[q].dev.Some?
  }

  /** Every node has its descriptor, and whoever has clients or serves can accept. */
  ghost predicate Plumbed(s: State) {
    && |s.fds| == |s.nodes| && (forall i | 0 <= i < |s.fds| :: s.fds[i] == i)
    && (forall q, i, c :: ClientAt(s, q, i, c) ==> Listens(s, q))
    && (forall d | 0 <= d < |s.devs| && s.devs[d].server.Some? :: Listens(s, s.devs[d].server.value))
    && (s.busy.InListen? ==> Listens(s, s.busy.sock))
  }

  lemma InitialPlumbed(s: State)
    requires Initial(s)
    ensures Plumbed(s)
  {
  }

  lemma StepKeepsPlumbed(s: State, e: Event)
    requires Inv(s) && Enabled(s, e) && Plumbed(s)
    ensures Plumbed(After(s, e))
  {
    hide Step, Plumbed, Inv;
    if e.Connect? || e.Bind? || e.SendTo? {
      AssigningKeepsPlumbed(s, e);
    } else if e.Accept? {
      AcceptKeepsPlumbed(s, e.fd);
    } else if e.Socket? {
      SocketKeepsPlumbed(s, e.kind, e.domain);
    } else if e.RecvFrom? || e.Received? {
      BytesKeepPlumbed(s, e);
    } else {
      OtherKeepsPlumbed(s, e);
    }
  }

  /** What a step has to leave alone for that. */
  lemma PlumbedStays(s: State, t: State)
    requires Plumbed(s) && t.fds == s.fds && |t.nodes| == |s.nodes|
    requires forall q :: Listens(s, q) ==> Listens(t, q)
    requires forall q, i, c :: ClientAt(t, q, i, c) ==> ClientAt(s, q, i, c) || Listens(s, q)
    requires forall d | 0 <= d < |t.devs| && t.devs[d].server.Some? :: Listens(s, t.devs[d].server.value)
    requires t.busy.InListen? ==> Listens(s, t.busy.sock)
    ensures Plumbed(t)
  {
  }

  lemma AssigningKeepsPlumbed(s: State, e: Event)
    requires Inv(s) && Enabled(s, e) && Plumbed(s) && (e.Connect? || e.Bind? || e.SendTo?)
    ensures Plumbed(After(s, e))
  {
    hide Assign, Tidy, Bounded, FindLink, Plumbed;
    if Live(s, e.fd) {
      match e
      case Connect(fd, a, addrLen) => AssignFacts(s, SockOf(s, fd), a, addrLen);
      case Bind(fd, a, addrLen) => AssignFacts(s, SockOf(s, fd), a, addrLen);
      case SendTo(fd, _, to, addrLen) => if to.Some? { AssignFacts(s, SockOf(s, fd), to.value, addrLen); }
    }
    ServersListen(s);
    PlumbedStays(s, After(s, e));
  }

  lemma ServersListen(s: State)
    requires Plumbed(s)
    ensures forall d | 0 <= d < |s.devs| && s.devs[d].server.Some? :: Listens(s, s.devs[d].server.value)
    ensures s.busy.InListen? ==> Listens(s, s.busy.sock)
  {
  }

  lemma AcceptKeepsPlumbed(s: State, fd: int)
    requires Inv(s) && Enabled(s, Accept(fd)) && Plumbed(s)
    ensures Plumbed(After(s, Accept(fd)))
  {
    hide Tidy, Bounded;
    var t := After(s, Accept(fd));
    assert forall q :: Listens(s, q) ==> Listens(t, q);
    assert forall q, i: nat, c :: ClientAt(t, q, i, c) ==> ClientAt(s, q, i, c) || ClientAt(s, q, i + 1, c);
    forall q: SockId, i: nat, c: SockId | ClientAt(t, q, i, c) ensures Listens(t, q) {
      assert ClientAt(s, q, i, c) || ClientAt(s, q, i + 1, c);
    }
    assert t.devs == s.devs && t.busy == s.busy;
    assert |t.fds| == |t.nodes| && forall i | 0 <= i < |t.fds| :: t.fds[i] == i;
  }

  lemma SocketKeepsPlumbed(s: State, kind: SockKind, domain: int)
    requires Inv(s) && Enabled(s, Event.Socket(kind, domain)) && Plumbed(s)
    ensures Plumbed(After(s, Event.Socket(kind, domain)))
  {
    hide Tidy, Bounded;
    var t := After(s, Event.Socket(kind, domain));
    assert forall q :: Listens(s, q) ==> Listens(t, q);
    assert forall q, i, c :: ClientAt(t, q, i, c) ==> ClientAt(s, q, i, c);
  }

  lemma BytesKeepPlumbed(s: State, e: Event)
    requires Inv(s) && Enabled(s, e) && Plumbed(s) && (e.RecvFrom? || e.Received?)
    ensures Plumbed(After(s, e))
  {
    hide Tidy, Arrive, Take;
    match e {
      case Received(d, link, data, from) => ArriveFacts(s.socks[s.devs[d].links[link].value], data, from);
      case RecvFrom(fd, n) => if Live(s, fd) { TakeFacts(s.socks[SockOf(s, fd)], n); }
    }
    hide Plumbed, Bounded;
    ServersListen(s);
    PlumbedStays(s, After(s, e));
  }

  lemma OtherKeepsPlumbed(s: State, e: Event)
    requires Inv(s) && Enabled(s, e) && Plumbed(s)
    requires e.Listen? || e.Close? || e.Reply? || e.Accepted? || e.Closed?
    ensures Plumbed(After(s, e))
  {
    hide Tidy, Bounded, FindLink;
    PlumbedStays(s, After(s, e));
  }

  // ----- when a socket gets out of reach

  /** The step after which no call can name the socket any more: a close notice for it
      or for the listener at which it waits, or a connection for a listener that has
      lost its own node. */
  ghost predicate CutsOff(s: State, e: Event, k: SockId) {
    match e
    case Closed(d, l) =>
      exists x: SockId :: At(s, d, l, x) && Named(s, x) && (x == k || exists i: nat :: ClientAt(s, x, i, k))
    case Accepted(d, l, _) =>
      d < |s.devs| && k == |s.socks| && s.devs[d].server.Some? && !Named(s, s.devs[d].server.value)
    case _ => false
  }

  /** Names and clients stay as they are. */
  predicate SameNames(s: State, t: State) {
    t.nodes == s.nodes && |t.socks| == |s.socks|
    && forall q | 0 <= q < |s.socks| :: t.socks[q].clients == s.socks[q].clients
  }

  lemma SameReach(s: State, t: State, k: SockId)
    requires SameNames(s, t)
    ensures Out(t, k) <==> Out(s, k)
  {
    assert forall j: nat, x: SockId :: NodeAt(t, j, x) <==> NodeAt(s, j, x);
    assert forall q: SockId, i: nat, c: SockId :: ClientAt(t, q, i, c) <==> ClientAt(s, q, i, c);
    assert forall x :: Named(t, x) <==> Named(s, x);
  }

  lemma OthersKeepNames(s: State, e: Event)
    requires Ok(s) && Enabled(s, e) && !e.Socket? && !e.Accept? && !e.Accepted? && !e.Closed?
    ensures SameNames(s, After(s, e))
  {
    if e.Connect? || e.Bind? || e.SendTo? {
      hide Assign, Bounded, FindLink;
      if Live(s, e.fd) {
        match e
        case Connect(fd, a, addrLen) => AssignFacts(s, SockOf(s, fd), a, addrLen);
        case Bind(fd, a, addrLen) => AssignFacts(s, SockOf(s, fd), a, addrLen);
        case SendTo(fd, _, to, addrLen) => if to.Some? { AssignFacts(s, SockOf(s, fd), to.value, addrLen); }
      }
    } else if e.RecvFrom? {
      hide Take;
      if Live(s, e.fd) { TakeFacts(s.socks[SockOf(s, e.fd)], e.n); }
    } else if e.Received? {
      hide Arrive;
      ArriveFacts(s.socks[s.devs[e.dev].links[e.link].value], e.data, e.from);
    }
  }

  lemma SocketReach(s: State, kind: SockKind, domain: int, k: SockId)
    requires Inv(s) && Enabled(s, Event.Socket(kind, domain))
    ensures Out(After(s, Event.Socket(kind, domain)), k) <==> Out(s, k)
  {
    NetLinks.Within(s);
    hide Tidy, Bounded;
    var t := After(s, Event.Socket(kind, domain));
    assert NodeAt(t, |s.nodes|, |s.socks|);
    assert forall j: nat, x: SockId :: NodeAt(t, j, x) <==> NodeAt(s, j, x) || (j == |s.nodes| && x == |s.socks|);
    assert forall q: SockId, i: nat, c: SockId :: ClientAt(t, q, i, c) <==> ClientAt(s, q, i, c);
    assert forall x :: Named(t, x) <==> Named(s, x) || x == |s.socks|;
    assert forall i: nat, c: SockId :: !ClientAt(s, |s.socks|, i, c);
  }

  lemma AcceptReach(s: State, fd: int, k: SockId)
    requires Inv(s) && Plumbed(s) && Enabled(s, Accept(fd))
    ensures Out(After(s, Accept(fd)), k) <==> Out(s, k)
  {
    var t, q := After(s, Accept(fd)), SockOf(s, fd);
    assert NodeAt(s, NodeOf(s, fd), q);
    NetLaws.AcceptOpens(s, fd);
    if t != s {
      var cl := s.socks[q].clients[0];
      assert ClientAt(s, q, 0, cl);
      assert cl != q;
      hide Tidy, Bounded, Refers;
      assert NodeAt(t, |s.nodes|, cl);
      assert forall j: nat, x: SockId :: NodeAt(t, j, x) <==> NodeAt(s, j, x) || (j == |s.nodes| && x == cl);
      assert forall x :: Named(t, x) <==> Named(s, x) || x == cl;
      assert forall i: nat, c: SockId :: !ClientAt(s, cl, i, c);
      forall p: SockId, i: nat, c: SockId
        ensures ClientAt(t, p, i, c) <==> ClientAt(s, p, if p == q then i + 1 else i, c)
      {
      }
      if Reachable(s, k) && !Named(s, k) && k != cl {
        var p: SockId, i: nat :| ClientAt(s, p, i, k) && Named(s, p);
        assert ClientAt(t, p, if p == q then i - 1 else i, k);
      }
    }
  }

  lemma AcceptedReach(s: State, d: nat, l: nat, from: SockAddr, k: SockId)
    requires Inv(s) && Plumbed(s) && Enabled(s, Accepted(d, l, from))
    ensures Out(After(s, Accepted(d, l, from)), k) <==> Out(s, k) || CutsOff(s, Accepted(d, l, from), k)
  {
    var t, n := After(s, Accepted(d, l, from)), |s.socks|;
    if t != s {
      NetLinks.Within(s);
      var q := s.devs[d].server.value;
      hide Tidy, Bounded, Refers;
      assert forall j: nat, x: SockId :: NodeAt(t, j, x) <==> NodeAt(s, j, x);
      assert forall x :: Named(t, x) <==> Named(s, x);
      assert ClientAt(t, q, |s.socks[q].clients|, n);
      assert forall p: SockId, i: nat, c: SockId ::
          ClientAt(t, p, i, c) <==> ClientAt(s, p, i, c) || (p == q && i == |s.socks[q].clients| && c == n);
    }
  }

  lemma ClosedReach(s: State, d: nat, l: nat, k: SockId)
    requires Inv(s) && Enabled(s, Closed(d, l))
    ensures Out(After(s, Closed(d, l)), k) <==> Out(s, k) || CutsOff(s, Closed(d, l), k)
  {
    NetLinks.Within(s);
    var t, x := After(s, Closed(d, l)), s.devs[d].links[l];
    var i := FindLink(s.nodes, x);
    assert forall q: SockId, i: nat, c: SockId :: ClientAt(t, q, i, c) <==> ClientAt(s, q, i, c);
    if x.Some? && i >= 0 {
      assert NodeAt(s, i, x.value) && At(s, d, l, x.value);
      assert forall j: nat, y: SockId :: NodeAt(t, j, y) <==> NodeAt(s, j, y) && y != x.value;
      assert forall y :: Named(t, y) <==> Named(s, y) && y != x.value;
    } else {
      assert forall j: nat, y: SockId :: NodeAt(t, j, y) <==> NodeAt(s, j, y);
      assert forall y :: Named(t, y) <==> Named(s, y);
    }
  }

  /** A socket gets out of reach in exactly these steps, and never comes back. */
  lemma OutByStep(s: State, e: Event, k: SockId)
    requires Inv(s) && Plumbed(s) && Enabled(s, e)
    ensures Out(After(s, e), k) <==> Out(s, k) || CutsOff(s, e, k)
  {
    hide Step, Plumbed, Out, Ok, Tidy;
    match e
    case Socket(kind, domain) => SocketReach(s, kind, domain, k);
    case Accept(fd) => AcceptReach(s, fd, k);
    case Accepted(d, l, from) => AcceptedReach(s, d, l, from, k);
    case Closed(d, l) => ClosedReach(s, d, l, k);
    case _ =>
      InvIsOk(s);
      OthersKeepNames(s, e);
      SameReach(s, After(s, e), k);
  }

  // ----- what can be read then, and before

  /** Nothing is returned from a socket that is out of reach. */
  lemma {:induction false} OutStays(s: State, es: seq<Event>, t: State, k: SockId)
    requires Inv(s) && Plumbed(s) && Out(s, k) && Runs(s, es, t)
    ensures Inv(t) && Out(t, k) && Returned(s, es, k) == [] && Readable(t, k) == Readable(s, k) + Arrived(s, es, k)
    decreases |es|
  {
    hide Step, Plumbed, Ok, Tidy, Out, OutOf, InOf, Readable;
    if es == [] {
      assert Readable(s, k) + [] == Readable(s, k);
    } else {
      var s1 := After(s, es[0]);
      InvIsOk(s);
      OutByStep(s, es[0], k);
      StepKeepsInv(s, es[0]);
      StepKeepsPlumbed(s, es[0]);
      StepConserves(s, es[0], k);
      OutReturnsNothing(s, es[0], k);
      OutStays(s1, es[1..], t, k);
      assert [] + Readable(s1, k) == Readable(s1, k);
      assert (Readable(s, k) + InOf(s, es[0], k)) + Arrived(s1, es[1..], k)
          == Readable(s, k) + (InOf(s, es[0], k) + Arrived(s1, es[1..], k));
    }
  }

  lemma OutReturnsNothing(s: State, e: Event, k: SockId)
    requires Ok(s) && Enabled(s, e) && Out(s, k)
    ensures OutOf(s, e, k) == []
  {
    hide Step;
    if e.RecvFrom? && Live(s, e.fd) { LiveIsNamed(s, e.fd); }
  }

  lemma LiveIsNamed(s: State, fd: int)
    requires Live(s, fd)
    ensures Named(s, SockOf(s, fd))
  {
    assert NodeAt(s, NodeOf(s, fd), SockOf(s, fd));
  }

  /** No frames. */
  predicate NoFrames(es: seq<Event>) {
    forall e | e in es :: !e.Received?
  }

  /** A step that is no frame in front of a run of none. */
  lemma ConsRun(s: State, e: Event, es: seq<Event>, t: State, k: SockId)
    requires Ok(s) && Enabled(s, e) && !e.Received? && NoFrames(es) && Runs(After(s, e), es, t)
    ensures Runs(s, [e] + es, t) && NoFrames([e] + es)
    ensures Returned(s, [e] + es, k) == OutOf(s, e, k) + Returned(After(s, e), es, k)
  {
    hide Step, Ok, OutOf;
    var all := [e] + es;
    assert all[0] == e && all[1..] == es;
  }

  /** Reading on until nothing is left. */
  lemma {:induction false} Drain(s: State, j: nat, k: SockId) returns (es: seq<Event>, t: State)
    requires Inv(s) && Plumbed(s) && s.busy == Idle && NodeAt(s, j, k)
    ensures Runs(s, es, t) && NoFrames(es) && Returned(s, es, k) == Readable(s, k)
    decreases if k < |s.socks| then |s.socks[k].dgrams| else 0
  {
    NetLinks.Within(s);
    var sock := s.socks[k];
    if sock.kind == Stream {
      DrainOnce(s, j, k, |sock.queue|);
      es, t := [], After(s, RecvFrom(j + 1, |sock.queue|));
      ConsRun(s, RecvFrom(j + 1, |sock.queue|), es, t, k);
      es := [RecvFrom(j + 1, |sock.queue|)] + es;
      TakeAll(sock);
      assert OutOf(s, RecvFrom(j + 1, |sock.queue|), k) + [] == OutOf(s, RecvFrom(j + 1, |sock.queue|), k);
    } else if sock.dgrams == [] {
      es, t := [], s;
    } else {
      var n := |sock.dgrams[0].data|;
      var e := RecvFrom(j + 1, n);
      DrainOnce(s, j, k, n);
      TakeFirst(sock);
      var s1 := After(s, e);
      hide Step, Plumbed, Tidy, Ok, Take, Runs, Returned, Readable, OutOf;
      es, t := Drain(s1, j, k);
      ConsRun(s, e, es, t, k);
      es := [e] + es;
    }
  }

  /** One read through the node's descriptor. */
  lemma DrainOnce(s: State, j: nat, k: SockId, n: nat)
    requires Inv(s) && Plumbed(s) && s.busy == Idle && NodeAt(s, j, k) && k < |s.socks|
    ensures Enabled(s, RecvFrom(j + 1, n)) && Ok(s)
    ensures var e := RecvFrom(j + 1, n); var s1 := After(s, e);
            && Inv(s1) && Plumbed(s1) && s1.busy == Idle && NodeAt(s1, j, k)
            && k < |s1.socks| && s1.socks[k] == Take(s.socks[k], n).0 && OutOf(s, e, k) == Take(s.socks[k], n).1
            && Readable(s, k) == OutOf(s, e, k) + Readable(s1, k)
  {
    hide Take, Tidy;
    var e := RecvFrom(j + 1, n);
    StepKeepsInv(s, e);
    StepKeepsPlumbed(s, e);
    StepConserves(s, e, k);
    assert Readable(s, k) + [] == Readable(s, k);
  }

  lemma TakeAll(sock: Sock)
    requires DgramsOk(sock.dgrams) && sock.kind == Stream
    ensures Take(sock, |sock.queue|).1 == sock.queue
  {
  }

  lemma TakeFirst(sock: Sock)
    requires DgramsOk(sock.dgrams) && sock.kind == Dgram && sock.dgrams != []
    ensures Take(sock, |sock.dgrams[0].data|).0.dgrams == sock.dgrams[1..]
  {
  }

  /** Accepting until the socket has a node. */
  lemma {:induction false} AcceptUntil(s: State, q: SockId, i: nat, j: nat, k: SockId)
    returns (es: seq<Event>, t: State, m: nat)
    requires Inv(s) && Plumbed(s) && s.busy == Idle && NodeAt(s, j, q) && ClientAt(s, q, i, k)
    ensures Runs(s, es, t) && NoFrames(es) && Returned(s, es, k) == []
    ensures Inv(t) && Plumbed(t) && t.busy == Idle && NodeAt(t, m, k) && Readable(t, k) == Readable(s, k)
    decreases i
  {
    AcceptOnce(s, q, i, j, k);
    var e := Accept(j + 1);
    var s1 := After(s, e);
    hide Step, Plumbed, Tidy, Ok, Returned, Readable, OutOf, NodeAt, ClientAt;
    if i == 0 {
      es, t, m := [], s1, |s.nodes|;
    } else {
      es, t, m := AcceptUntil(s1, q, i - 1, j, k);
    }
    ConsRun(s, e, es, t, k);
    if i == 0 { NothingFrom(s1, k); }
    assert [] + Returned(s1, es, k) == Returned(s1, es, k);
    es := [e] + es;
  }

  lemma NothingFrom(s: State, k: SockId)
    ensures Runs(s, [], s) && Returned(s, [], k) == []
  {
  }

  lemma AcceptOnce(s: State, q: SockId, i: nat, j: nat, k: SockId)
    requires Inv(s) && Plumbed(s) && s.busy == Idle && NodeAt(s, j, q) && ClientAt(s, q, i, k)
    ensures Enabled(s, Accept(j + 1)) && Ok(s)
    ensures var e := Accept(j + 1); var s1 := After(s, e);
            && Inv(s1) && Plumbed(s1) && s1.busy == Idle && NodeAt(s1, j, q) && OutOf(s, e, k) == []
            && (if i == 0 then NodeAt(s1, |s.nodes|, k) else ClientAt(s1, q, i - 1, k))
            && Readable(s1, k) == Readable(s, k)
  {
    NetLinks.Within(s);
    hide Tidy, Bounded;
    var e := Accept(j + 1);
    NetLaws.AcceptOpens(s, j + 1);
    StepKeepsInv(s, e);
    StepKeepsPlumbed(s, e);
    StepConserves(s, e, k);
    assert SockOf(s, j + 1) == q && Listens(s, q);
    assert [] + Readable(After(s, e), k) == Readable(After(s, e), k) && Readable(s, k) + [] == Readable(s, k);
    NotOwnClient(s, q, j);
  }

  lemma NotOwnClient(s: State, q: SockId, j: nat)
    requires Inv(s) && NodeAt(s, j, q)
    ensures forall p: SockId, i: nat :: !ClientAt(s, p, i, q)
  {
  }

  /** Whatever command is under way may fail. */
  lemma GetIdle(s: State, k: SockId) returns (es: seq<Event>, t: State)
    requires Inv(s) && Plumbed(s) && Reachable(s, k)
    ensures Runs(s, es, t) && NoFrames(es) && Returned(s, es, k) == []
    ensures Inv(t) && Plumbed(t) && t.busy == Idle && Reachable(t, k) && Readable(t, k) == Readable(s, k)
  {
    if s.busy == Idle {
      es, t := [], s;
    } else {
      t := After(s, Reply(false));
      assert t == s.(busy := Idle);
      StepKeepsInv(s, Reply(false));
      StepKeepsPlumbed(s, Reply(false));
      hide Step, Plumbed, Tidy;
      NothingFrom(t, k);
      ConsRun(s, Reply(false), [], t, k);
      es := [Reply(false)] + [];
      ReachSame(s, t, k);
    }
  }

  lemma ReachSame(s: State, t: State, k: SockId)
    requires t == s.(busy := t.busy) && Reachable(s, k) && Ok(s) && Ok(t)
    ensures Reachable(t, k) && Readable(t, k) == Readable(s, k)
  {
    assert forall j: nat, x: SockId :: NodeAt(t, j, x) <==> NodeAt(s, j, x);
    assert forall q: SockId, i: nat, c: SockId :: ClientAt(t, q, i, c) <==> ClientAt(s, q, i, c);
    assert forall x :: Named(t, x) <==> Named(s, x);
  }

  /** What is readable at a socket within reach can be got, without another frame. */
  lemma CanGetAll(s: State, k: SockId) returns (es: seq<Event>, t: State)
    requires Inv(s) && Plumbed(s) && Reachable(s, k)
    ensures Runs(s, es, t) && NoFrames(es) && Returned(s, es, k) == Readable(s, k)
  {
    var es1, t1 := GetIdle(s, k);
    hide Plumbed, Tidy, Ok, Returned, Readable, Runs;
    if Named(t1, k) {
      var j: nat :| NodeAt(t1, j, k);
      var es2, t2 := Drain(t1, j, k);
      RunsTogether(s, es1, t1, es2, t2, k);
      es, t := es1 + es2, t2;
    } else {
      var q: SockId, i: nat :| ClientAt(t1, q, i, k) && Named(t1, q);
      var j: nat :| NodeAt(t1, j, q);
      var es2, t2, m := AcceptUntil(t1, q, i, j, k);
      var es3, t3 := Drain(t2, m, k);
      RunsTogether(s, es1, t1, es2, t2, k);
      RunsTogether(s, es1 + es2, t2, es3, t3, k);
      es, t := es1 + es2 + es3, t3;
    }
  }

  lemma {:induction false} RunsTogether(s: State, es: seq<Event>, t: State, fs: seq<Event>, u: State, k: SockId)
    requires Runs(s, es, t) && Runs(t, fs, u)
    ensures Runs(s, es + fs, u) && Returned(s, es + fs, k) == Returned(s, es, k) + Returned(t, fs, k)
    decreases |es|
  {
    hide Step, Ok, OutOf;
    RunsOn(s, es, t, fs, u);
    if es == [] {
      assert es + fs == fs && [] + Returned(t, fs, k) == Returned(t, fs, k);
    } else {
      assert (es + fs)[0] == es[0] && (es + fs)[1..] == es[1..] + fs;
      RunsTogether(After(s, es[0]), es[1..], t, fs, u, k);
      var first, more, last := OutOf(s, es[0], k), Returned(After(s, es[0]), es[1..], k), Returned(t, fs, k);
      assert first + (more + last) == (first + more) + last;
    }
  }

  // ----- nothing lost

  /** Of all that was sent to the socket in the run, the application has received the
      front and can still get the rest. */
  ghost predicate AllGettable(s: State, es: seq<Event>, t: State, k: SockId) {
    exists fs: seq<Event>, u: State ::
      Runs(t, fs, u) && NoFrames(fs) && Returned(s, es, k) + Returned(t, fs, k) == Routed(s, es, k)
  }

  /** Nothing is lost exactly if every frame found room and the socket is still within
      reach, or else was read to the end. */
  lemma NothingLost(start: State, es: seq<Event>, t: State, k: SockId)
    requires Initial(start) && Runs(start, es, t)
    ensures Inv(t)
    ensures AllGettable(start, es, t, k) <==> AlwaysFits(start, es, k) && (Out(t, k) ==> Readable(t, k) == [])
  {
    InitialInv(start);
    InitialPlumbed(start);
    Conservation(start, es, t, k);
    RunKeepsPlumbed(start, es, t);
    NoLossWhenFitting(start, es, k);
    assert [] + Arrived(start, es, k) == Arrived(start, es, k);
    hide Plumbed, Tidy, Ok, Runs, Returned, Arrived, Routed, AlwaysFits, Readable;
    if AllGettable(start, es, t, k) {
      var fs: seq<Event>, u: State :|
        Runs(t, fs, u) && NoFrames(fs) && Returned(start, es, k) + Returned(t, fs, k) == Routed(start, es, k);
      GetsAtMost(t, fs, u, k);
      Exhausts(Returned(start, es, k), Readable(t, k), Arrived(start, es, k), Returned(t, fs, k), Routed(start, es, k));
      if Out(t, k) { OutStays(t, fs, u, k); }
    }
    if AlwaysFits(start, es, k) && (Out(t, k) ==> Readable(t, k) == []) {
      if Readable(t, k) == [] {
        NothingFrom(t, k);
        assert Runs(t, [], t) && NoFrames([]) && Returned(start, es, k) + Returned(t, [], k) == Routed(start, es, k);
      } else {
        OnlyOfSockets(t, k);
        var fs, u := CanGetAll(t, k);
      }
    }
  }

  lemma OnlyOfSockets(s: State, k: SockId)
    requires Ok(s) && Readable(s, k) != []
    ensures k < |s.socks|
  {
  }

  /** A prefix that is as long as the whole is the whole. */
  lemma Exhausts<T>(got: seq<T>, left: seq<T>, arrived: seq<T>, more: seq<T>, sent: seq<T>)
    requires arrived == got + left && more <= left && got + more == sent && |arrived| <= |sent|
    ensures more == left && arrived == sent
  {
  }

  /** Without frames no more than what is readable is returned. */
  lemma GetsAtMost(s: State, es: seq<Event>, t: State, k: SockId)
    requires Inv(s) && Runs(s, es, t) && NoFrames(es)
    ensures Returned(s, es, k) <= Readable(s, k)
  {
    hide Step, Tidy, Ok;
    Conservation(s, es, t, k);
    NothingArrives(s, es, k);
    assert Readable(s, k) + [] == Readable(s, k);
  }

  lemma {:induction false} NothingArrives(s: State, es: seq<Event>, k: SockId)
    requires NoFrames(es)
    ensures Arrived(s, es, k) == []
    decreases |es|
  {
    hide Step, Ok;
    if es != [] && Possible(s, es[0]) {
      NothingArrives(After(s, es[0]), es[1..], k);
    }
  }

  lemma {:induction false} RunKeepsPlumbed(s: State, es: seq<Event>, t: State)
    requires Inv(s) && Plumbed(s) && Runs(s, es, t)
    ensures Inv(t) && Plumbed(t)
    decreases |es|
  {
    hide Step, Tidy, Ok, Plumbed;
    if es != [] {
      InvIsOk(s);
      StepKeepsInv(s, es[0]);
      StepKeepsPlumbed(s, es[0]);
      RunKeepsPlumbed(After(s, es[0]), es[1..], t);
    }
  }

  // ----- what is lost

  /** The bytes that a run puts out of reach: those readable at the step that cuts the
      socket off, and those that arrive after it. */
  ghost function Lost(s: State, es: seq<Event>, k: SockId): seq<char>
    decreases |es|
  {
    if es == [] || !Possible(s, es[0]) then []
    else if CutsOff(s, es[0], k) then Readable(s, k) + Arrived(After(s, es[0]), es[1..], k)
    else Lost(After(s, es[0]), es[1..], k)
  }

  lemma {:induction false} LostIsOut(s: State, es: seq<Event>, t: State, k: SockId)
    requires Inv(s) && Plumbed(s) && Runs(s, es, t) && !Out(s, k)
    ensures Inv(t) && Lost(s, es, k) == if Out(t, k) then Readable(t, k) else []
    decreases |es|
  {
    hide Step, Plumbed, Ok, Tidy, Out, CutsOff, Readable, InOf, OutOf;
    if es != [] {
      var e, s1 := es[0], After(s, es[0]);
      InvIsOk(s);
      StepKeepsInv(s, e);
      StepKeepsPlumbed(s, e);
      OutByStep(s, e, k);
      if CutsOff(s, e, k) {
        OutStays(s1, es[1..], t, k);
        CutKeepsBytes(s, e, k);
      } else {
        LostIsOut(s1, es[1..], t, k);
      }
    }
  }

  lemma CutKeepsBytes(s: State, e: Event, k: SockId)
    requires Inv(s) && Enabled(s, e) && CutsOff(s, e, k)
    ensures Ok(After(s, e)) && Readable(After(s, e), k) == Readable(s, k)
  {
    StepConserves(s, e, k);
    hide Step, Tidy, Ok, Readable;
    assert [] + Readable(After(s, e), k) == Readable(After(s, e), k) && Readable(s, k) + [] == Readable(s, k);
  }

  /** Nothing is lost exactly if every frame found room and, should the socket be cut
      off, nothing was unread then and nothing came after. */
  lemma LostAtTheCut(start: State, es: seq<Event>, t: State, k: SockId)
    requires Initial(start) && Runs(start, es, t)
    ensures AllGettable(start, es, t, k) <==> AlwaysFits(start, es, k) && Lost(start, es, k) == []
  {
    InitialInv(start);
    InitialPlumbed(start);
    NothingLost(start, es, t, k);
    LostIsOut(start, es, t, k);
  }

  // ----- a close notice

  /** Out of reach and at no link, now and later. */
  ghost predicate Adrift(s: State, k: SockId) {
    Out(s, k) && !(s.busy.InConnect? && s.busy.sock == k) && forall d: nat, l: nat :: !At(s, d, l, k)
  }

  lemma AdriftStays(s: State, e: Event, k: SockId)
    requires Inv(s) && Plumbed(s) && Enabled(s, e) && Adrift(s, k)
    ensures Adrift(After(s, e), k) && InOf(s, e, k) == []
  {
    OutByStep(s, e, k);
    hide Plumbed, Tidy, Bounded, Out;
    if e.Connect? || e.Bind? || e.SendTo? {
      hide Step;
      AssigningKeepsAdrift(s, e, k);
    } else if e.RecvFrom? || e.Received? {
      hide Step;
      InvIsOk(s);
      BytesKeepLinks(s, e);
      assert forall d: nat, l: nat :: At(After(s, e), d, l, k) <==> At(s, d, l, k);
    } else {
      OthersKeepAdrift(s, e, k);
    }
  }

  lemma BytesKeepLinks(s: State, e: Event)
    requires Ok(s) && Enabled(s, e) && (e.RecvFrom? || e.Received?)
    ensures After(s, e).devs == s.devs && After(s, e).busy == s.busy
  {
    hide Take, Arrive;
  }

  lemma AssigningKeepsAdrift(s: State, e: Event, k: SockId)
    requires Inv(s) && Enabled(s, e) && Adrift(s, k) && (e.Connect? || e.Bind? || e.SendTo?)
    ensures var t := After(s, e);
            !(t.busy.InConnect? && t.busy.sock == k) && forall d: nat, l: nat :: !At(t, d, l, k)
  {
    hide Assign, Tidy, Bounded, FindLink;
    if Live(s, e.fd) {
      assert NodeAt(s, NodeOf(s, e.fd), SockOf(s, e.fd));
      match e
      case Connect(fd, a, addrLen) => AssignFacts(s, SockOf(s, fd), a, addrLen);
      case Bind(fd, a, addrLen) => AssignFacts(s, SockOf(s, fd), a, addrLen);
      case SendTo(fd, _, to, addrLen) => if to.Some? { AssignFacts(s, SockOf(s, fd), to.value, addrLen); }
    }
    assert forall d: nat, l: nat :: At(After(s, e), d, l, k) <==> At(s, d, l, k);
  }

  lemma OthersKeepAdrift(s: State, e: Event, k: SockId)
    requires Inv(s) && Enabled(s, e) && Adrift(s, k)
    requires !e.Connect? && !e.Bind? && !e.SendTo? && !e.RecvFrom? && !e.Received?
    ensures var t := After(s, e);
            !(t.busy.InConnect? && t.busy.sock == k) && forall d: nat, l: nat :: !At(t, d, l, k)
  {
    hide Tidy, Bounded, FindLink;
    assert k < |s.socks|;
    assert forall d: nat, l: nat :: At(After(s, e), d, l, k) ==> At(s, d, l, k);
  }

  /** A close notice for a socket with a node: nothing more is returned, nothing more
      arrives, and what was readable remains, for nobody. */
  lemma ClosedLoses(s: State, d: nat, l: nat, k: SockId, j: nat, es: seq<Event>, t: State)
    requires Inv(s) && Plumbed(s) && At(s, d, l, k) && NodeAt(s, j, k) && Runs(After(s, Closed(d, l)), es, t)
    ensures var s1 := After(s, Closed(d, l));
            Inv(t) && Out(t, k) && Returned(s1, es, k) == [] && Arrived(s1, es, k) == []
            && Readable(t, k) == Readable(s, k)
  {
    var e, s1 := Closed(d, l), After(s, Closed(d, l));
    NetLinks.Within(s);
    assert Named(s, k);
    OutByStep(s, e, k);
    CutKeepsBytes(s, e, k);
    StepKeepsInv(s, e);
    StepKeepsPlumbed(s, e);
    UnlinkedThen(s, d, l, k);
    hide Step, Plumbed, Tidy, Ok, Readable, Out;
    AdriftGetsNothing(s1, es, t, k);
    OutStays(s1, es, t, k);
    assert Readable(s1, k) + [] == Readable(s1, k);
  }

  lemma UnlinkedThen(s: State, d: nat, l: nat, k: SockId)
    requires Inv(s) && At(s, d, l, k)
    ensures var t := After(s, Closed(d, l));
            !(t.busy.InConnect? && t.busy.sock == k) && forall d2: nat, l2: nat :: !At(t, d2, l2, k)
  {
    hide Bounded;
    assert forall d2: nat, l2: nat :: At(After(s, Closed(d, l)), d2, l2, k) ==>
             At(s, d2, l2, k) && !(d2 == d && l2 == l);
  }

  lemma {:induction false} AdriftGetsNothing(s: State, es: seq<Event>, t: State, k: SockId)
    requires Inv(s) && Plumbed(s) && Adrift(s, k) && Runs(s, es, t)
    ensures Arrived(s, es, k) == []
    decreases |es|
  {
    hide Step, Plumbed, Tidy, Ok, Adrift, InOf;
    if es != [] {
      InvIsOk(s);
      AdriftStays(s, es[0], k);
      StepKeepsInv(s, es[0]);
      StepKeepsPlumbed(s, es[0]);
      AdriftGetsNothing(After(s, es[0]), es[1..], t, k);
    }
  }

  /** A socket of either kind is connected, a frame that fits comes for it, and then
      the close notice. */
  function ClosedEarly(kind: SockKind, a: SockAddr, from: SockAddr, data: seq<char>): seq<Event> {
    [Event.Socket(kind, AF_INET)]
    + ([Connect(1, a, Inet.ADDR_LEN)] + ([Reply(true)] + ([Received(0, 0, data, from)] + [Closed(0, 0)])))
  }

  /** All of the frame found room, and all of it is lost. */
  lemma ClosedEarlyLoses(s: State, kind: SockKind, a: SockAddr, from: SockAddr, data: seq<char>)
    requires Initial(s) && s.devs != [] && Matches(s.devs[0], a, Inet.ADDR_LEN) && 0 < |data| < RING
    ensures var es := ClosedEarly(kind, a, from, data);
            exists t :: Runs(s, es, t) && AlwaysFits(s, es, 0) && Routed(s, es, 0) == data && Out(t, 0)
                        && Lost(s, es, 0) == data && !AllGettable(s, es, t, 0)
  {
    hide Step, Plumbed, Tidy, Ok, Runs, Lost, AlwaysFits, Routed, CutsOff, AllGettable;
    var e1, e2, e3 := Event.Socket(kind, AF_INET), Connect(1, a, Inet.ADDR_LEN), Reply(true);
    var e4, e5 := Received(0, 0, data, from), Closed(0, 0);
    var s1, s2, s3 := NetLaws.Connected(s, kind, a);
    InvIsOk(s);
    InvIsOk(s1);
    InvIsOk(s2);
    var t := FrameThenClosed(s3, data, from);
    OneMore(s2, e3, [e4] + [e5], t);
    OneMore(s1, e2, [e3] + ([e4] + [e5]), t);
    OneMore(s, e1, [e2] + ([e3] + ([e4] + [e5])), t);
    LostAtTheCut(s, ClosedEarly(kind, a, from, data), t, 0);
  }

  lemma OneMore(s: State, e: Event, es: seq<Event>, t: State)
    requires Ok(s) && Enabled(s, e) && (e.Socket? || e.Connect? || e.Reply?) && Runs(After(s, e), es, t)
    ensures Runs(s, [e] + es, t) && Lost(s, [e] + es, 0) == Lost(After(s, e), es, 0)
    ensures AlwaysFits(s, [e] + es, 0) <==> AlwaysFits(After(s, e), es, 0)
    ensures Routed(s, [e] + es, 0) == Routed(After(s, e), es, 0)
  {
    hide Step, Ok, Readable;
    var all := [e] + es;
    assert all[0] == e && all[1..] == es;
    assert [] + Routed(After(s, e), es, 0) == Routed(After(s, e), es, 0);
  }

  lemma FrameThenClosed(s: State, data: seq<char>, from: SockAddr) returns (t: State)
    requires Inv(s) && At(s, 0, 0, 0) && NodeAt(s, 0, 0) && s.socks != []
    requires s.socks[0].queue == [] && s.socks[0].dgrams == [] && |data| < RING
    ensures var es := [Received(0, 0, data, from)] + [Closed(0, 0)];
            Runs(s, es, t) && AlwaysFits(s, es, 0) && Routed(s, es, 0) == data && Lost(s, es, 0) == data && Out(t, 0)
  {
    var e4, e5 := Received(0, 0, data, from), Closed(0, 0);
    var s4 := After(s, e4);
    t := After(s4, e5);
    StepKeepsInv(s, e4);
    StepKeepsInv(s4, e5);
    NetLinks.Within(s4);
    ArrivesWhole(s, data, from);
    ClosedReach(s4, 0, 0, 0);
    assert Named(s4, 0) && CutsOff(s4, e5, 0);
    CutKeepsBytes(s4, e5, 0);
    hide Step, Tidy, Ok, Readable, CutsOff;
    EndsWithClose(s, e4, e5, t);
  }

  lemma ArrivesWhole(s: State, data: seq<char>, from: SockAddr)
    requires Inv(s) && At(s, 0, 0, 0) && NodeAt(s, 0, 0) && s.socks != []
    requires s.socks[0].queue == [] && s.socks[0].dgrams == [] && |data| < RING
    ensures var t := After(s, Received(0, 0, data, from));
            At(t, 0, 0, 0) && NodeAt(t, 0, 0) && Ok(t) && Readable(t, 0) == data
  {
    hide Tidy;
    StepKeepsOk(s, Received(0, 0, data, from));
    StepConserves(s, Received(0, 0, data, from), 0);
    assert Readable(s, 0) == [] && [] + data == data && data[..|data|] == data;
    var t := After(s, Received(0, 0, data, from));
    assert [] + Readable(t, 0) == Readable(t, 0);
  }

  lemma EndsWithClose(s: State, e4: Event, e5: Event, t: State)
    requires Ok(s) && e4.Received? && Enabled(s, e4) && At(s, e4.dev, e4.link, 0) && s.socks != []
             && s.socks[0].queue == []
    requires |e4.data| < RING && Ok(After(s, e4)) && e5.Closed? && Enabled(After(s, e4), e5)
             && t == After(After(s, e4), e5)
    requires CutsOff(After(s, e4), e5, 0) && !CutsOff(s, e4, 0) && Readable(After(s, e4), 0) == e4.data
    ensures var es := [e4] + [e5];
            Runs(s, es, t) && AlwaysFits(s, es, 0) && Routed(s, es, 0) == e4.data && Lost(s, es, 0) == e4.data
  {
    hide Step, Ok, CutsOff, Readable;
    var es, s4 := [e4] + [e5], After(s, e4);
    assert es[0] == e4 && es[1..] == [e5] && [e5][0] == e5 && [e5][1..] == [];
    assert Runs(t, [], t) && Runs(s4, [e5], t);
    assert AlwaysFits(t, [], 0) && AlwaysFits(s4, [e5], 0);
    assert Routed(t, [], 0) == [] && Routed(s4, [e5], 0) == [];
    assert Arrived(t, [], 0) == [] && Lost(s4, [e5], 0) == e4.data;
    assert e4.data + [] == e4.data;
  }
}
