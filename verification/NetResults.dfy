/** When each call goes on, what it returns and what it leaves, read off the state
    before it and the answers it gets. */
module NetResults {
  import opened NetSpec
  import opened Options
  import opened NetLinks
  import opened NetRuns
  import opened NetLaws
  import Inet

  // ----- devices and links

  /** The device has the domain and the network of the address. */
  predicate Suits(d: Dev, a: SockAddr, addrLen: nat) {
    && d.domain == a.domain && addrLen == 12
    && (a.ip == 0 || Inet.And(d.ip, d.netmask) == Inet.And(a.ip, d.netmask))
  }

  predicate FirstSuits(s: State, a: SockAddr, addrLen: nat, d: nat) {
    d < |s.devs| && Suits(s.devs[d], a, addrLen) && forall j | 0 <= j < d :: !Suits(s.devs[j], a, addrLen)
  }

  predicate FirstFree(s: State, d: nat, l: nat) {
    d < |s.devs| && l < |s.devs[d].links| && s.devs[d].links[l] == None
    && forall j | 0 <= j < l :: s.devs[d].links[j] != None
  }

  /** The socket with a device and an address of its own. */
  function BoundTo(s: State, k: SockId, d: nat, a: SockAddr): State
    requires k < |s.socks|
  {
    s.(socks := s.socks[k := s.socks[k].(dev := Some(d), addr := a)])
  }

  lemma AssignMeans(s: State, k: SockId, a: SockAddr, addrLen: nat)
    requires k < |s.socks|
    ensures Assign(s, k, a, addrLen).1 <==> exists d: nat :: FirstSuits(s, a, addrLen, d)
    ensures Assign(s, k, a, addrLen).1 ==>
              exists d: nat :: FirstSuits(s, a, addrLen, d) && Assign(s, k, a, addrLen).0 == BoundTo(s, k, d, a)
    ensures !Assign(s, k, a, addrLen).1 ==> Assign(s, k, a, addrLen).0 == s
  {
    var i := FindDev(s.devs, a, addrLen);
    if i >= 0 {
      assert FirstSuits(s, a, addrLen, i) || addrLen != 12;
    }
  }

  lemma OneFirst(s: State, a: SockAddr, addrLen: nat, d: nat, e: nat)
    requires FirstSuits(s, a, addrLen, d) && FirstSuits(s, a, addrLen, e)
    ensures d == e
  {
  }

  // ----- bind

  /** 0 exactly if a device suits, and then the socket belongs to the first of them. */
  lemma BindReports(s: State, fd: int, a: SockAddr, addrLen: nat)
    requires Inv(s) && Enabled(s, Bind(fd, a, addrLen))
    ensures var (t, r) := Step(s, Bind(fd, a, addrLen));
            && (r == Code(0) || r == Code(-1))
            && (r == Code(0) <==> exists d: nat :: FirstSuits(s, a, addrLen, d))
            && (r == Code(0) ==> exists d: nat :: FirstSuits(s, a, addrLen, d) && t == BoundTo(s, SockOf(s, fd), d, a))
            && (r == Code(-1) ==> t == s)
  {
    hide Assign, FirstSuits, Bounded, Tidy;
    AssignMeans(s, SockOf(s, fd), a, addrLen);
  }

  // ----- connect

  /** Goes on exactly if the socket is unbound and the first device that suits has a
      free link, and then with the first of them; else -1.  The device stays with the
      socket even when it has no link. */
  lemma ConnectGoesOn(s: State, fd: int, a: SockAddr, addrLen: nat)
    requires Inv(s) && Enabled(s, Connect(fd, a, addrLen))
    ensures var (t, r) := Step(s, Connect(fd, a, addrLen));
            if KnownFd(s, fd) && !HasDev(s, SockOf(s, fd)) && exists d: nat :: FirstSuits(s, a, addrLen, d) then
              exists d: nat :: FirstSuits(s, a, addrLen, d) &&
                var b := BoundTo(s, SockOf(s, fd), d, a);
                if exists l: nat :: FirstFree(s, d, l) then
                  r == Waits && exists l: nat :: FirstFree(s, d, l) && t == b.(busy := InConnect(d, l, SockOf(s, fd)))
                else t == b && r == Code(-1)
            else t == s && r == Code(-1)
  {
    hide Assign, FirstSuits, Bounded, Tidy, FindLink, FirstFree;
    if KnownFd(s, fd) {
      var k := SockOf(s, fd);
      AssignMeans(s, k, a, addrLen);
      if !HasDev(s, k) && Assign(s, k, a, addrLen).1 {
        var d: nat :| FirstSuits(s, a, addrLen, d) && Assign(s, k, a, addrLen).0 == BoundTo(s, k, d, a);
        SuitsInRange(s, a, addrLen, d);
        FreeMeans(s, d);
      }
    }
  }

  lemma SuitsInRange(s: State, a: SockAddr, addrLen: nat, d: nat)
    requires FirstSuits(s, a, addrLen, d)
    ensures d < |s.devs|
  {
  }

  lemma FreeMeans(s: State, d: nat)
    requires d < |s.devs|
    ensures var l := FindLink(s.devs[d].links, None);
            if l < 0 then !exists m: nat :: FirstFree(s, d, m) else FirstFree(s, d, l)
  {
  }

  /** Returns 0 exactly if it goes on and the answer is good, and then the link that was
      free is the socket's; a bad answer changes nothing more. */
  lemma ConnectReports(s: State, fd: int, a: SockAddr, addrLen: nat, rounds: seq<Round>)
    requires Inv(s) && Enabled(s, Connect(fd, a, addrLen)) && Answered(Step(s, Connect(fd, a, addrLen)), rounds)
    ensures var (w, r) := Step(s, Connect(fd, a, addrLen));
            var (t, q) := Finish((w, r), rounds);
            && (q == Code(0) || q == Code(-1)) && (q == Code(0) <==> r == Waits && rounds[0].ok)
            && (r != Waits ==> t == w)
            && (r == Waits ==>
                  var u := Delivered(w, rounds[0].during);
                  w.busy.InConnect? && var InConnect(d, l, k) := w.busy;
                  && d < |u.devs| && l < |u.devs[d].links|
                  && t == if rounds[0].ok
                          then u.(busy := Idle, devs := u.devs[d := u.devs[d].(links := u.devs[d].links[l := Some(k)])])
                          else u.(busy := Idle))
  {
    hide Tidy, Step, Ok, FirstSuits, FirstFree, Deliverable, Delivered;
    InvIsOk(s);
    ConnectGoesOn(s, fd, a, addrLen);
    var w := Step(s, Connect(fd, a, addrLen));
    if w.1 == Waits {
      DeliveredIsCalm(w.0, rounds[0].during);
      ConnectAnswered(Delivered(w.0, rounds[0].during), rounds[0].ok);
    }
  }

  lemma ConnectAnswered(u: State, ok: bool)
    requires Ok(u) && u.busy.InConnect?
    ensures var InConnect(d, l, k) := u.busy;
            && d < |u.devs| && l < |u.devs[d].links|
            && Step(u, Reply(ok)) == if ok
              then (u.(busy := Idle, devs := u.devs[d := u.devs[d].(links := u.devs[d].links[l := Some(k)])]), Code(0))
              else (u.(busy := Idle), Code(-1))
  {
    hide Bounded;
  }

  // ----- listen

  /** Goes on exactly for a bound stream without a backlog whose device has no server. */
  lemma ListenGoesOn(s: State, fd: int, backlog: int)
    requires Inv(s) && Enabled(s, Listen(fd, backlog))
    ensures var (t, r) := Step(s, Listen(fd, backlog)); var k := SockOf(s, fd);
            if s.socks[k].kind == Stream && backlog == 0
               && exists d: nat :: d < |s.devs| && s.socks[k].dev == Some(d) && s.devs[d].server == None
            then r == Waits && t == s.(busy := InListen(s.socks[k].dev.value, k))
            else r == Code(-1) && t == s
  {
    hide Tidy, Bounded;
    assert s.socks[SockOf(s, fd)].dev.Some? ==> s.socks[SockOf(s, fd)].dev.value < |s.devs|;
  }

  /** Returns 0 exactly if it goes on and the answer is good, and then the socket serves. */
  lemma ListenReports(s: State, fd: int, backlog: int, rounds: seq<Round>)
    requires Inv(s) && Enabled(s, Listen(fd, backlog)) && Answered(Step(s, Listen(fd, backlog)), rounds)
    ensures var (w, r) := Step(s, Listen(fd, backlog));
            var (t, q) := Finish((w, r), rounds);
            && (q == Code(0) || q == Code(-1)) && (q == Code(0) <==> r == Waits && rounds[0].ok)
            && (r != Waits ==> t == s)
            && (r == Waits ==>
                  var u := Delivered(w, rounds[0].during);
                  w.busy.InListen? && var InListen(d, k) := w.busy;
                  && d < |u.devs|
                  && t == if rounds[0].ok then u.(busy := Idle, devs := u.devs[d := u.devs[d].(server := Some(k))])
                          else u.(busy := Idle))
  {
    hide Tidy, Bounded, FindLink, Deliverable, Delivered;
    ListenGoesOn(s, fd, backlog);
    var w := Step(s, Listen(fd, backlog));
    if w.1 == Waits { DeliveredIsCalm(w.0, rounds[0].during); }
  }

  // ----- accept

  /** Hands out a client exactly for a bound stream at which one waits; else -1. */
  lemma AcceptReports(s: State, fd: int)
    requires Inv(s) && Enabled(s, Accept(fd))
    ensures var (t, r) := Step(s, Accept(fd)); var k := SockOf(s, fd);
            if s.socks[k].kind == Stream && HasDev(s, k) && s.socks[k].clients != []
            then && r == Code(|s.fds| + 1) && t.fds == s.fds + [|s.nodes|]
                 && t.nodes == s.nodes + [Some(s.socks[k].clients[0])]
            else r == Code(-1) && t == s
  {
    hide Tidy, Bounded;
  }

  // ----- close

  /** -1 without a descriptor; 0 without a socket or a device; else it goes on exactly if
      the socket serves or has a link at its device. */
  lemma CloseGoesOn(s: State, fd: int)
    requires Inv(s) && Enabled(s, Close(fd))
    ensures var (t, r) := Step(s, Close(fd));
            if !KnownFd(s, fd) then t == s && r == Code(-1)
            else if !Live(s, fd) || !HasDev(s, SockOf(s, fd)) then t == s && r == Code(0)
            else
              var k := SockOf(s, fd); var d := s.socks[k].dev.value;
              && d < |s.devs|
              && if s.devs[d].server == Some(k) then r == Waits && t == s.(busy := InCloseServer(d))
                 else if exists l: nat :: At(s, d, l, k) then
                   r == Waits && exists l: nat :: At(s, d, l, k) && t == s.(busy := InClose(d, l))
                 else r == Code(-1) && t == s
  {
    hide Tidy, Bounded, FindLink;
    if Live(s, fd) && HasDev(s, SockOf(s, fd)) {
      var k := SockOf(s, fd);
      LinkMeans(s, s.socks[k].dev.value, k);
    }
  }

  lemma LinkMeans(s: State, d: nat, k: SockId)
    requires d < |s.devs|
    ensures var l := FindLink(s.devs[d].links, Some(k));
            if l < 0 then !exists m: nat :: At(s, d, m, k) else At(s, d, l, k)
  {
  }

  /** Returns 0 exactly if there was nothing to close, or it goes on and the answer is
      good, and then the place as server or the link is given up. */
  lemma CloseReports(s: State, fd: int, rounds: seq<Round>)
    requires Inv(s) && Enabled(s, Close(fd)) && Answered(Step(s, Close(fd)), rounds)
    ensures var (w, r) := Step(s, Close(fd));
            var (t, q) := Finish((w, r), rounds);
            && (q == Code(0) || q == Code(-1))
            && (q == Code(0) <==>
                  KnownFd(s, fd) && (!Live(s, fd) || !HasDev(s, SockOf(s, fd)) || (r == Waits && rounds[0].ok)))
            && (r != Waits ==> t == s)
            && (r == Waits ==>
                  var u := Delivered(w, rounds[0].during);
                  if !rounds[0].ok then t == u.(busy := Idle)
                  else if w.busy.InCloseServer? then
                    var d := w.busy.dev;
                    d < |u.devs| && t == u.(busy := Idle, devs := u.devs[d := u.devs[d].(server := None)])
                  else
                    w.busy.InClose? && var InClose(d, l) := w.busy;
                    && d < |u.devs| && l < |u.devs[d].links|
                    && t == u.(busy := Idle, devs := u.devs[d := u.devs[d].(links := u.devs[d].links[l := None])]))
  {
    hide Tidy, Bounded, FindLink, Deliverable, Delivered;
    CloseGoesOn(s, fd);
    var w := Step(s, Close(fd));
    if w.1 == Waits { DeliveredIsCalm(w.0, rounds[0].during); }
  }

  // ----- receive

  /** A read returns the first bytes of a stream, as many as are asked for or are there;
      of a datagram socket what is left of the first datagram, up to as many, and who
      sent it; -1 without a socket. */
  lemma RecvReports(s: State, fd: int, n: nat)
    requires Inv(s) && Enabled(s, RecvFrom(fd, n))
    ensures var (t, r) := Step(s, RecvFrom(fd, n));
            if !Live(s, fd) then t == s && r == Code(-1)
            else
              var sock := s.socks[SockOf(s, fd)];
              && DgramsOk(sock.dgrams)
              && var left := if sock.kind == Stream then sock.queue
                             else if sock.dgrams == [] then [] else sock.dgrams[0].data[sock.dgrams[0].idx..];
                 var m := if n < |left| then n else |left|;
                 && r == Bytes(left[..m],
                               if sock.kind == Dgram && sock.dgrams != [] then Some(sock.dgrams[0].from) else None)
                 && (sock.kind == Stream ==> Readable(s, SockOf(s, fd)) == left)
                 && t == s.(socks := s.socks[SockOf(s, fd) :=
                       if sock.kind == Stream then sock.(queue := left[m..])
                       else if sock.dgrams == [] then sock
                       else if m == |left| then sock.(dgrams := sock.dgrams[1..])
                       else sock.(dgrams := sock.dgrams[0 := sock.dgrams[0].(idx := sock.dgrams[0].idx + m)])])
  {
    hide Tidy, Refers;
  }

  // ----- send

  /** Device `d` is the one a send goes through: of a stream its own, and no address may
      be given; of a datagram socket the first that suits a given address, or its own. */
  predicate SendsThrough(s: State, fd: int, to: Option<SockAddr>, addrLen: nat, d: nat) {
    Live(s, fd) &&
    var sock := s.socks[SockOf(s, fd)];
    if sock.kind == Dgram && to.Some? then FirstSuits(s, to.value, addrLen, d)
    else to.None? && sock.dev == Some(d)
  }

  /** A send goes on exactly if there is something to send and the socket has a link at
      that device. */
  lemma SendGoesOn(s: State, fd: int, size: nat, to: Option<SockAddr>, addrLen: nat)
    requires Inv(s) && Enabled(s, SendTo(fd, size, to, addrLen))
    ensures var (t, r) := Step(s, SendTo(fd, size, to, addrLen));
            if !exists d: nat :: SendsThrough(s, fd, to, addrLen, d) then t == s && r == Code(-1)
            else
              exists d: nat :: SendsThrough(s, fd, to, addrLen, d) &&
                var k := SockOf(s, fd);
                var b := if to.Some? then BoundTo(s, k, d, to.value) else s;
                if size == 0 then t == b && r == Code(0)
                else if exists l: nat :: At(s, d, l, k) then t == b.(busy := InSend(size, false)) && r == Waits
                else t == b && r == Code(-1)
  {
    hide Tidy, Bounded, FindLink, Assign, FirstSuits;
    if Live(s, fd) {
      var k := SockOf(s, fd);
      var sock := s.socks[k];
      if sock.kind == Dgram && to.Some? {
        AssignMeans(s, k, to.value, addrLen);
        if Assign(s, k, to.value, addrLen).1 {
          var d: nat :| FirstSuits(s, to.value, addrLen, d)
                        && Assign(s, k, to.value, addrLen).0 == BoundTo(s, k, d, to.value);
          SuitsInRange(s, to.value, addrLen, d);
          LinkMeans(s, d, k);
          assert SendsThrough(s, fd, to, addrLen, d);
        }
      } else if to.None? && sock.dev.Some? {
        LinkMeans(s, sock.dev.value, k);
        assert SendsThrough(s, fd, to, addrLen, sock.dev.value);
      }
    }
  }

  /** A send returns its size or -1; the size exactly if it has a device, and, unless it
      is of nothing, a link there and both commands were answered well. */
  lemma SendReports(s: State, fd: int, size: nat, to: Option<SockAddr>, addrLen: nat, rounds: seq<Round>)
    requires Inv(s) && Enabled(s, SendTo(fd, size, to, addrLen))
    requires Answered(Step(s, SendTo(fd, size, to, addrLen)), rounds)
    ensures var r := Finish(Step(s, SendTo(fd, size, to, addrLen)), rounds).1;
            && (r == Code(size) || r == Code(-1))
            && (r == Code(size) <==>
                  exists d: nat :: SendsThrough(s, fd, to, addrLen, d)
                    && (size > 0 ==> (exists l: nat :: At(s, d, l, SockOf(s, fd)))
                                     && |rounds| >= 2 && rounds[0].ok && rounds[1].ok))
  {
    hide Tidy, Step, Deliverable, Delivered, SendsThrough;
    SendGoesOn(s, fd, size, to, addrLen);
    var w := Step(s, SendTo(fd, size, to, addrLen));
    forall d: nat, e: nat | SendsThrough(s, fd, to, addrLen, d) && SendsThrough(s, fd, to, addrLen, e) ensures d == e {
      OneWay(s, fd, to, addrLen, d, e);
    }
    if w.1 == Waits { SendFinishes(w.0, size, rounds); }
  }

  /** The second command follows a good answer to the first; what the events in between
      do stays, and the answers change nothing else. */
  lemma SendFinishes(w: State, size: nat, rounds: seq<Round>)
    requires w.busy == InSend(size, false) && Answered((w, Waits), rounds)
    ensures var (t, r) := Finish((w, Waits), rounds);
            var u := Delivered(w, rounds[0].during);
            if !rounds[0].ok then t == u.(busy := Idle) && r == Code(-1)
            else
              && |rounds| >= 2 && Deliverable(u.(busy := InSend(size, true)), rounds[1].during)
              && t == Delivered(u.(busy := InSend(size, true)), rounds[1].during).(busy := Idle)
              && r == Code(if rounds[1].ok then size else -1)
  {
    hide Step, Deliverable, Delivered;
    DeliveredIsCalm(w, rounds[0].during);
    SendAnswered(Delivered(w, rounds[0].during), size, rounds);
  }

  lemma OneWay(s: State, fd: int, to: Option<SockAddr>, addrLen: nat, d: nat, e: nat)
    requires SendsThrough(s, fd, to, addrLen, d) && SendsThrough(s, fd, to, addrLen, e)
    ensures d == e
  {
  }

  lemma SendAnswered(u: State, size: nat, rounds: seq<Round>)
    requires Ok(u) && u.busy == InSend(size, false) && rounds != []
    requires Answered(Step(u, Reply(rounds[0].ok)), rounds[1..])
    ensures var (t, r) := Finish(Step(u, Reply(rounds[0].ok)), rounds[1..]);
            if !rounds[0].ok then t == u.(busy := Idle) && r == Code(-1)
            else
              && |rounds| >= 2 && Deliverable(u.(busy := InSend(size, true)), rounds[1].during)
              && t == Delivered(u.(busy := InSend(size, true)), rounds[1].during).(busy := Idle)
              && r == Code(if rounds[1].ok then size else -1)
  {
    hide Deliverable, Delivered, Refers, Bounded;
    if rounds[0].ok {
      DeliveredIsCalm(u.(busy := InSend(size, true)), rounds[1].during);
    }
  }

  // ----- events

  /** A frame goes to the socket at its link: to its datagrams whole, with its sender, or
      to its stream as far as there is room. */
  lemma ReceivedMeans(s: State, d: nat, l: nat, data: seq<char>, from: SockAddr)
    requires Inv(s) && Enabled(s, Received(d, l, data, from))
    ensures exists k: SockId :: At(s, d, l, k) && k < |s.socks| &&
              var sock := s.socks[k];
              var room := if |sock.queue| < 31 then 31 - |sock.queue| else 0;
              After(s, Received(d, l, data, from)) == s.(socks := s.socks[k :=
                if sock.kind == Dgram then sock.(dgrams := sock.dgrams + [Datagram(data, 0, from)])
                else sock.(queue := sock.queue + if |data| < room then data else data[..room])])
  {
    hide Tidy;
    var k := s.devs[d].links[l].value;
    assert At(s, d, l, k);
  }

  /** A connection is dropped without a server; else a new socket with the address of the
      peer is at the link and waits at the server, and nothing else changes. */
  lemma AcceptedMeans(s: State, d: nat, l: nat, from: SockAddr)
    requires Inv(s) && Enabled(s, Accepted(d, l, from))
    ensures var t, n := After(s, Accepted(d, l, from)), |s.socks|;
            match s.devs[d].server
            case None => t == s
            case Some(q) =>
              && q < n
              && t == s.(socks := s.socks[q := s.socks[q].(clients := s.socks[q].clients + [n])]
                                  + [Sock(Stream, None, [], [], [], from)],
                         devs := s.devs[d := s.devs[d].(links := s.devs[d].links[l := Some(n)])])
  {
    hide Tidy, Bounded;
  }

  /** A close notice empties its link and takes the socket that was there from its node,
      if it has one, and changes nothing else. */
  lemma ClosedMeans(s: State, d: nat, l: nat)
    requires Inv(s) && Enabled(s, Closed(d, l))
    ensures var t := After(s, Closed(d, l));
            && t == s.(nodes := t.nodes, devs := s.devs[d := s.devs[d].(links := s.devs[d].links[l := None])])
            && |t.nodes| == |s.nodes|
            && forall j | 0 <= j < |s.nodes| ::
                 t.nodes[j] == if s.nodes[j].Some? && At(s, d, l, s.nodes[j].value) then None else s.nodes[j]
  {
    hide Bounded;
    var x := s.devs[d].links[l];
    var i := FindLink(s.nodes, x);
    if x.Some? {
      forall j | 0 <= j < |s.nodes| && s.nodes[j] == x ensures j == i {
        assert NodeAt(s, j, x.value) && NodeAt(s, i, x.value);
      }
    }
  }

  /** `bos_socket` gives a new descriptor for a new, empty, unbound socket. */
  lemma SocketMeans(s: State, kind: SockKind, domain: int)
    requires Inv(s) && Enabled(s, Event.Socket(kind, domain))
    ensures var (t, r) := Step(s, Event.Socket(kind, domain));
            && r == Code(|s.fds| + 1)
            && t == s.(socks := s.socks + [Sock(kind, None, [], [], [], SockAddr(domain, 0, 0))],
                       nodes := s.nodes + [Some(|s.socks|)], names := s.names + [s.counter + 1],
                       fds := s.fds + [|s.nodes|], counter := s.counter + 1)
  {
  }
}
