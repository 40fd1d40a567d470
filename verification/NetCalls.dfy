/** The socket calls on the objects: what each one does when the module answers its
    commands in a given way while the reader thread delivers events. */
module NetCalls {
  import opened NetSpec
  import opened Options
  import opened NetObjects
  import opened NetStack
  import Framing
  import FsTree
  import NetLinks
  import NetRuns
  import Numerals

  /** What the answers add to a run. */
  ghost function Played(r: (State, Ret), rounds: seq<Round>): seq<Event>
    requires Answered(r, rounds)
    decreases |rounds|
  {
    if r.1 != Waits then []
    else
      var reply := Reply(rounds[0].ok);
      rounds[0].during + [reply] + Played(Step(Delivered(r.0, rounds[0].during), reply), rounds[1..])
  }

  lemma {:induction false} DeliveredRuns(s: State, during: seq<Event>, es: seq<Event>, t: State)
    requires Deliverable(s, during) && NetRuns.Runs(Delivered(s, during), es, t)
    ensures NetRuns.Runs(s, during + es, t)
    decreases |during|
  {
    hide Step, Ok;
    if during == [] {
      assert during + es == es;
    } else {
      DeliveredRuns(After(s, during[0]), during[1..], es, t);
      assert (during + es)[1..] == during[1..] + es;
    }
  }

  lemma {:induction false} AnswersRun(r: (State, Ret), rounds: seq<Round>)
    requires Answered(r, rounds)
    ensures NetRuns.Runs(r.0, Played(r, rounds), Finish(r, rounds).0) && Finish(r, rounds).1 != Waits
    decreases |rounds|
  {
    hide Step, Ok;
    if r.1 == Waits {
      var t, reply := Delivered(r.0, rounds[0].during), Reply(rounds[0].ok);
      var next := Step(t, reply);
      AnswersRun(next, rounds[1..]);
      var rest := Played(next, rounds[1..]);
      assert ([reply] + rest)[1..] == rest;
      DeliveredRuns(r.0, rounds[0].during, [reply] + rest, Finish(r, rounds).0);
      assert rounds[0].during + [reply] + rest == rounds[0].during + ([reply] + rest);
    }
  }

  /** A whole call, with all that happens while it waits, is a run of the machine. */
  lemma CallIsRun(s: State, e: Event, rounds: seq<Round>)
    requires Ok(s) && Enabled(s, e) && Answered(Step(s, e), rounds)
    ensures NetRuns.Runs(s, [e] + Played(Step(s, e), rounds), Finish(Step(s, e), rounds).0)
    ensures Finish(Step(s, e), rounds).1 != Waits
  {
    hide Step, Ok;
    AnswersRun(Step(s, e), rounds);
    var rest := Played(Step(s, e), rounds);
    assert ([e] + rest)[1..] == rest;
  }

  /** Announces a command and waits; the reader thread delivers events meanwhile. */
  method Command(net: Stack, rounds: seq<Round>) returns (ok: bool)
    requires net.Coupled() && NetLinks.Inv(net.st) && Answered((net.st, Waits), rounds)
    modifies net.Objects()
    ensures net.Coupled() && NetLinks.Inv(net.st) && rounds != [] && ok == rounds[0].ok
    ensures net.st.busy == old(net.st).busy && net.Grows() && unchanged(net.fs, net.root`childs, net`fdId)
    ensures Ok(net.st) && Enabled(net.st, Reply(ok)) && Answered(Step(net.st, Reply(ok)), rounds[1..])
    ensures Finish((old(net.st), Waits), rounds) == Finish(Step(net.st, Reply(ok)), rounds[1..])
    ensures NetLinks.Inv(After(net.st, Reply(ok)))
    ensures forall x | x in net.Objects() :: x in old(net.Objects()) || fresh(x)
  {
    hide Step, NetLinks.Inv, Stack.Coupled, Stack.Objects;
    net.Deliver(rounds[0].during);
    ok := rounds[0].ok;
    NetLinks.StepKeepsInv(net.st, Reply(ok));
  }

  /** What a reply does, as the driver does it. */
  lemma ReplyMeans(s: State, ok: bool)
    requires Ok(s) && Enabled(s, Reply(ok))
    ensures BusyOk(s) && Refers(s)
    ensures !ok ==> Step(s, Reply(ok)) == (s.(busy := Idle), Code(-1))
    ensures ok ==>
              match s.busy
              case InConnect(d, link, k) => Step(s, Reply(ok)) == (SetLink(s.(busy := Idle), d, link, Some(k)), Code(0))
              case InListen(d, k) =>
                Step(s, Reply(ok)) == (s.(busy := Idle, devs := s.devs[d := s.devs[d].(server := Some(k))]), Code(0))
              case InClose(d, link) => Step(s, Reply(ok)) == (SetLink(s.(busy := Idle), d, link, None), Code(0))
              case InCloseServer(d) =>
                Step(s, Reply(ok)) == (s.(busy := Idle, devs := s.devs[d := s.devs[d].(server := None)]), Code(0))
              case InSend(size, announced) =>
                Step(s, Reply(ok)) == if announced then (s.(busy := Idle), Code(size))
                                      else (s.(busy := InSend(size, true)), Waits)
              case _ => true
  {
  }

  // ----- the driver

  /** `connect` of esp01.c. */
  method EspConnect(net: Stack, sock: Socket, rounds: seq<Round>, ghost k: SockId) returns (r: int)
    requires net.Coupled() && Refers(net.st) && Bound(net.st, k) && k < |net.socks| && net.socks[k] == sock
    requires NetLinks.Inv(DeviceConnect(net.st, k).0) && Answered(DeviceConnect(net.st, k), rounds)
    modifies net.Objects()
    ensures net.Coupled() && NetLinks.Inv(net.st) && net.Grows() && unchanged(net.fs, net.root`childs, net`fdId)
    ensures (net.st, Code(r)) == Finish(DeviceConnect(old(net.st), k), rounds)
  {
    hide Step, SetLink, Refers, Stack.Coupled, NetLinks.Inv, Stack.Objects, Stack.Repr, FindLink, Deliverable,
         Delivered;
    ghost var d := net.st.socks[k].dev.value;
    var dev := net.DevOf(sock, k);
    var link := net.LinkOf(dev, null, d, None);
    if link < 0 {
      return -1;
    }
    r := EspOccupy(net, dev, sock, link, rounds, d, k);
  }

  /** The command of `connect` for a free link. */
  method EspOccupy(net: Stack, dev: Netdev, sock: Socket, link: nat, rounds: seq<Round>, ghost d: nat,
                   ghost k: SockId) returns (r: int)
    requires net.Coupled() && d < |net.devLst| && net.devLst[d] == dev && k < |net.socks| && net.socks[k] == sock
    requires link < dev.links.Length
    requires var w := net.st.(busy := InConnect(d, link, k)); NetLinks.Inv(w) && Answered((w, Waits), rounds)
    modifies net.Objects()
    ensures net.Coupled() && NetLinks.Inv(net.st) && net.Grows() && unchanged(net.fs, net.root`childs, net`fdId)
    ensures (net.st, Code(r)) == Finish((old(net.st).(busy := InConnect(d, link, k)), Waits), rounds)
  {
    hide Step, SetLink, Refers, Stack.Coupled, NetLinks.Inv, Stack.Objects, Stack.Repr, Deliverable, Delivered;
    net.SetBusy(InConnect(d, link, k));
    var ok := Command(net, rounds);
    ReplyMeans(net.st, ok);
    net.SetBusy(Idle);
    if !ok {
      return -1;
    }
    net.PutLink(dev, link, sock, d, Some(k));
    return 0;
  }

  /** `listen` of esp01.c. */
  method EspListen(net: Stack, sock: Socket, backlog: int, rounds: seq<Round>, ghost k: SockId) returns (r: int)
    requires net.Coupled() && Refers(net.st) && Bound(net.st, k) && k < |net.socks| && net.socks[k] == sock
    requires NetLinks.Inv(DeviceListen(net.st, k, backlog).0) && Answered(DeviceListen(net.st, k, backlog), rounds)
    modifies net.Objects()
    ensures net.Coupled() && NetLinks.Inv(net.st) && net.Grows() && unchanged(net.fs, net.root`childs, net`fdId)
    ensures (net.st, Code(r)) == Finish(DeviceListen(old(net.st), k, backlog), rounds)
  {
    hide Step, SetLink, Refers, Stack.Coupled, NetLinks.Inv, Stack.Objects, Stack.Repr, Deliverable, Delivered;
    ghost var d := net.st.socks[k].dev.value;
    var dev := net.DevOf(sock, k);
    if backlog != 0 {
      return -1;
    }
    var free := net.ServerFree(dev, d);
    if !free {
      return -1;
    }
    r := EspStartServer(net, dev, sock, rounds, d, k);
  }

  /** The command of `listen`. */
  method EspStartServer(net: Stack, dev: Netdev, sock: Socket, rounds: seq<Round>, ghost d: nat, ghost k: SockId)
      returns (r: int)
    requires net.Coupled() && d < |net.devLst| && net.devLst[d] == dev && k < |net.socks| && net.socks[k] == sock
    requires var w := net.st.(busy := InListen(d, k)); NetLinks.Inv(w) && Answered((w, Waits), rounds)
    modifies net.Objects()
    ensures net.Coupled() && NetLinks.Inv(net.st) && net.Grows() && unchanged(net.fs, net.root`childs, net`fdId)
    ensures (net.st, Code(r)) == Finish((old(net.st).(busy := InListen(d, k)), Waits), rounds)
  {
    hide Step, SetLink, Refers, Stack.Coupled, NetLinks.Inv, Stack.Objects, Stack.Repr, Deliverable, Delivered;
    net.SetBusy(InListen(d, k));
    var ok := Command(net, rounds);
    ReplyMeans(net.st, ok);
    net.SetBusy(Idle);
    if !ok {
      return -1;
    }
    net.PutServer(dev, sock, d, Some(k));
    return 0;
  }

  /** `close` of esp01.c. */
  method EspClose(net: Stack, sock: Socket, rounds: seq<Round>, ghost k: SockId) returns (r: int)
    requires net.Coupled() && Refers(net.st) && Bound(net.st, k) && k < |net.socks| && net.socks[k] == sock
    requires NetLinks.Inv(DeviceClose(net.st, k).0) && Answered(DeviceClose(net.st, k), rounds)
    modifies net.Objects()
    ensures net.Coupled() && NetLinks.Inv(net.st) && net.Grows() && unchanged(net.fs, net.root`childs, net`fdId)
    ensures (net.st, Code(r)) == Finish(DeviceClose(old(net.st), k), rounds)
  {
    hide Step, SetLink, Refers, Stack.Coupled, NetLinks.Inv, Stack.Objects, Stack.Repr, FindLink, Answered, Finish;
    ghost var d := net.st.socks[k].dev.value;
    var dev := net.DevOf(sock, k);
    var serves := net.Serves(dev, sock, d, k);
    if serves {
      r := EspStopServer(net, dev, rounds, d);
    } else {
      r := EspUnlink(net, dev, sock, rounds, d, k);
    }
  }

  method EspStopServer(net: Stack, dev: Netdev, rounds: seq<Round>, ghost d: nat) returns (r: int)
    requires net.Coupled() && d < |net.devLst| && net.devLst[d] == dev
    requires var w := net.st.(busy := InCloseServer(d)); NetLinks.Inv(w) && Answered((w, Waits), rounds)
    modifies net.Objects()
    ensures net.Coupled() && NetLinks.Inv(net.st) && net.Grows() && unchanged(net.fs, net.root`childs, net`fdId)
    ensures (net.st, Code(r)) == Finish((old(net.st).(busy := InCloseServer(d)), Waits), rounds)
  {
    hide Step, SetLink, Refers, Stack.Coupled, NetLinks.Inv, Stack.Objects, Stack.Repr, Deliverable, Delivered;
    net.SetBusy(InCloseServer(d));
    var ok := Command(net, rounds);
    ReplyMeans(net.st, ok);
    net.SetBusy(Idle);
    if !ok {
      return -1;
    }
    net.PutServer(dev, null, d, None);
    return 0;
  }

  method EspUnlink(net: Stack, dev: Netdev, sock: Socket, rounds: seq<Round>, ghost d: nat, ghost k: SockId)
      returns (r: int)
    requires net.Coupled() && Refers(net.st) && d < |net.devLst| && net.devLst[d] == dev && d < |net.st.devs|
    requires k < |net.socks| && net.socks[k] == sock
    requires NetLinks.Inv(Unlinking(net.st, d, k).0) && Answered(Unlinking(net.st, d, k), rounds)
    modifies net.Objects()
    ensures net.Coupled() && NetLinks.Inv(net.st) && net.Grows() && unchanged(net.fs, net.root`childs, net`fdId)
    ensures (net.st, Code(r)) == Finish(Unlinking(old(net.st), d, k), rounds)
  {
    hide Step, SetLink, Refers, Stack.Coupled, NetLinks.Inv, Stack.Objects, Stack.Repr, FindLink, Deliverable,
         Delivered;
    var link := net.LinkOf(dev, sock, d, Some(k));
    if link < 0 {
      return -1;
    }
    net.SetBusy(InClose(d, link));
    var ok := Command(net, rounds);
    ReplyMeans(net.st, ok);
    net.SetBusy(Idle);
    if !ok {
      return -1;
    }
    net.PutLink(dev, link, null, d, None);
    return 0;
  }

  /** `send` of esp01.c: the announcement and then the data are commands. */
  method EspSend(net: Stack, sock: Socket, data: seq<char>, size: nat, rounds: seq<Round>, ghost k: SockId)
    returns (r: int, wire: seq<char>)
    requires net.Coupled() && Refers(net.st) && Bound(net.st, k) && k < |net.socks| && net.socks[k] == sock
    requires NetLinks.Inv(DeviceSend(net.st, k, size).0) && Answered(DeviceSend(net.st, k, size), rounds)
    modifies net.Objects()
    ensures net.Coupled() && NetLinks.Inv(net.st) && net.Grows() && unchanged(net.fs, net.root`childs, net`fdId)
    ensures (net.st, Code(r)) == Finish(DeviceSend(old(net.st), k, size), rounds)
    ensures wire == if DeviceSend(old(net.st), k, size).1 == Waits && rounds[0].ok then Framing.CStr(data) else []
  {
    hide Step, SetLink, Refers, Stack.Coupled, NetLinks.Inv, Stack.Objects, Stack.Repr, FindLink, Deliverable,
         Delivered;
    if size == 0 {
      return 0, [];
    }
    ghost var d := net.st.socks[k].dev.value;
    var dev := net.DevOf(sock, k);
    var link := net.LinkOf(dev, sock, d, Some(k));
    if link < 0 {
      return -1, [];
    }
    net.SetBusy(InSend(size, false));
    r, wire := EspSendBoth(net, data, size, rounds);
  }

  /** The two commands of `send`. */
  method EspSendBoth(net: Stack, data: seq<char>, size: nat, rounds: seq<Round>) returns (r: int, wire: seq<char>)
    requires net.Coupled() && NetLinks.Inv(net.st) && net.st.busy == InSend(size, false)
    requires Answered((net.st, Waits), rounds)
    modifies net.Objects()
    ensures net.Coupled() && NetLinks.Inv(net.st) && net.Grows() && unchanged(net.fs, net.root`childs, net`fdId)
    ensures (net.st, Code(r)) == Finish((old(net.st), Waits), rounds)
    ensures wire == if rounds[0].ok then Framing.CStr(data) else []
  {
    hide Step, SetLink, Refers, Stack.Coupled, NetLinks.Inv, Stack.Objects, Stack.Repr, FindLink, Deliverable,
         Delivered;
    var ok := Command(net, rounds);
    ReplyMeans(net.st, ok);
    if !ok {
      net.SetBusy(Idle);
      return -1, [];
    }
    net.SetBusy(InSend(size, true));
    wire := Framing.CStr(data);
    r := EspSendData(net, size, rounds[1..]);
  }

  /** The second command of `send`. */
  method EspSendData(net: Stack, size: nat, rounds: seq<Round>) returns (r: int)
    requires net.Coupled() && NetLinks.Inv(net.st) && net.st.busy == InSend(size, true)
    requires Answered((net.st, Waits), rounds)
    modifies net.Objects()
    ensures net.Coupled() && NetLinks.Inv(net.st) && net.Grows() && unchanged(net.fs, net.root`childs, net`fdId)
    ensures (net.st, Code(r)) == Finish((old(net.st), Waits), rounds)
  {
    hide Step, SetLink, Refers, Stack.Coupled, NetLinks.Inv, Stack.Objects, Stack.Repr, Deliverable, Delivered;
    var sent := Command(net, rounds);
    ReplyMeans(net.st, sent);
    net.SetBusy(Idle);
    return if sent then size else -1;
  }

  // ----- the calls

  /** `itoa` into the eight places for a node's name. */
  method NameOf(v: nat) returns (name: seq<char>)
    requires v < Numerals.WORD / 2 && |Numerals.Digits(v, 10)| < 8
    ensures name == Numerals.Digits(v, 10)
  {
    hide Numerals.Digits;
    var buf := new char[8];
    var ok := Numerals.Itoa(v, 10, buf, 8);
    var n := 0;
    Numerals.DecimalsOnly(v);
    while buf[n] != '\0'
      invariant n <= |Numerals.Digits(v, 10)| && buf[..n] == Numerals.Digits(v, 10)[..n]
      decreases 8 - n
    {
      n := n + 1;
    }
    name := buf[..n];
  }

  /** A node with the name `v`, and a descriptor for it. */
  method NewNode(net: Stack, sock: Socket, v: nat, ghost k: SockId) returns (id: int)
    requires net.Coupled() && k < |net.socks| && k < |net.st.socks| && net.socks[k] == sock
    requires v < Numerals.WORD / 2 && |Numerals.Digits(v, 10)| < 8
    modifies net`st, net.fs, net.root`childs, net.root`first, net.root.childs`prev, net.root.childs`next
    ensures net.Coupled() && (net.st, Code(id)) == NewFd(old(net.st), k, v) && net.Grows()
  {
    hide Stack.Coupled, Stack.Objects, Stack.Repr;
    FsTree.NodesAllocated(net.fs.forest);
    var name := NameOf(v);
    var node := net.AddNode(sock, name, k, v);
    id := net.AddDesc(node);
  }

  method BosSocket(net: Stack, kind: SockKind, domain: int) returns (id: int)
    requires net.Coupled() && NetLinks.Inv(net.st) && Enabled(net.st, Event.Socket(kind, domain))
    requires net.fdId < Numerals.WORD / 2 - 1 && |Numerals.Digits(net.fdId + 1, 10)| < 8
    modifies net.Objects(), net.fs, net.root`childs, net.root`first
    ensures net.Coupled() && NetLinks.Inv(net.st) && net.Grows() && net.fdId == old(net.fdId) + 1
    ensures (net.st, Code(id)) == Step(old(net.st), Event.Socket(kind, domain))
  {
    hide Stack.Coupled, NetLinks.Inv, Stack.Objects, Stack.Repr;
    NetLinks.StepKeepsInv(net.st, Event.Socket(kind, domain));
    NetLinks.InvIsOk(net.st);
    var sock := net.NewSocket(kind, SockAddr(domain, 0, 0));
    net.CounterIs();
    net.CountUp();
    id := NewNode(net, sock, net.fdId, |net.st.socks| - 1);
  }

  method BosConnect(net: Stack, fd: int, a: SockAddr, addrLen: nat, rounds: seq<Round>) returns (r: int)
    requires net.Coupled() && NetLinks.Inv(net.st) && Enabled(net.st, Connect(fd, a, addrLen))
    requires Answered(Step(net.st, Connect(fd, a, addrLen)), rounds)
    modifies net.Objects()
    ensures net.Coupled() && NetLinks.Inv(net.st) && net.Grows() && net.fdId == old(net.fdId)
    ensures (net.st, Code(r)) == Finish(Step(old(net.st), Connect(fd, a, addrLen)), rounds)
  {
    hide Stack.Coupled, NetLinks.Inv, Stack.Objects, Stack.Repr, Assign, DeviceConnect, Refers, Bounded;
    NetLinks.StepKeepsInv(net.st, Connect(fd, a, addrLen));
    NetLinks.InvIsOk(net.st);
    var desc, sock := net.Acquire(fd);
    if desc == null {
      return -1;
    }
    ghost var k := SockOf(net.st, fd);
    net.SockFacts(k);
    if sock.dev != null {
      return -1;
    }
    NetLinks.AssignFacts(net.st, k, a, addrLen);
    NetLinks.AssignKeepsOk(net.st, k, a, addrLen);
    var found := net.AssignNetdev(sock, a, addrLen, k);
    if !found {
      return -1;
    }
    r := EspConnect(net, sock, rounds, k);
  }

  method BosBind(net: Stack, fd: int, a: SockAddr, addrLen: nat) returns (r: int)
    requires net.Coupled() && NetLinks.Inv(net.st) && Enabled(net.st, Bind(fd, a, addrLen))
    modifies net.Objects()
    ensures net.Coupled() && NetLinks.Inv(net.st) && net.Grows() && net.fdId == old(net.fdId)
    ensures (net.st, Code(r)) == Step(old(net.st), Bind(fd, a, addrLen))
  {
    hide Stack.Coupled, NetLinks.Inv, Stack.Objects, Stack.Repr, Assign, Refers, Bounded;
    NetLinks.StepKeepsInv(net.st, Bind(fd, a, addrLen));
    NetLinks.InvIsOk(net.st);
    var desc, sock := net.Acquire(fd);
    var found := net.AssignNetdev(sock, a, addrLen, SockOf(net.st, fd));
    return if found then 0 else -1;
  }

  method BosListen(net: Stack, fd: int, backlog: int, rounds: seq<Round>) returns (r: int)
    requires net.Coupled() && NetLinks.Inv(net.st) && Enabled(net.st, Listen(fd, backlog))
    requires Answered(Step(net.st, Listen(fd, backlog)), rounds)
    modifies net.Objects()
    ensures net.Coupled() && NetLinks.Inv(net.st) && net.Grows() && net.fdId == old(net.fdId)
    ensures (net.st, Code(r)) == Finish(Step(old(net.st), Listen(fd, backlog)), rounds)
  {
    hide Stack.Coupled, NetLinks.Inv, Stack.Objects, Stack.Repr, DeviceListen;
    NetLinks.StepKeepsInv(net.st, Listen(fd, backlog));
    NetLinks.InvIsOk(net.st);
    var desc, sock := net.Acquire(fd);
    ghost var k := SockOf(net.st, fd);
    net.SockFacts(k);
    if sock.kind != Stream || sock.dev == null {
      return -1;
    }
    r := EspListen(net, sock, backlog, rounds, k);
  }

  /** `wire` is what the driver writes as data: up to a terminator, whatever `size` says. */
  method BosSendTo(net: Stack, fd: int, data: seq<char>, size: nat, to: Option<SockAddr>, addrLen: nat,
                   rounds: seq<Round>)
    returns (r: int, wire: seq<char>)
    requires net.Coupled() && NetLinks.Inv(net.st) && Enabled(net.st, SendTo(fd, size, to, addrLen))
    requires Answered(Step(net.st, SendTo(fd, size, to, addrLen)), rounds)
    modifies net.Objects()
    ensures net.Coupled() && NetLinks.Inv(net.st) && net.Grows() && net.fdId == old(net.fdId)
    ensures (net.st, Code(r)) == Finish(Step(old(net.st), SendTo(fd, size, to, addrLen)), rounds)
    ensures wire == if Step(old(net.st), SendTo(fd, size, to, addrLen)).1 == Waits && rounds[0].ok
                    then Framing.CStr(data) else []
  {
    hide Stack.Coupled, NetLinks.Inv, Stack.Objects, Stack.Repr, Assign, DeviceSend, Refers, Bounded;
    NetLinks.StepKeepsInv(net.st, SendTo(fd, size, to, addrLen));
    NetLinks.InvIsOk(net.st);
    var desc, sock := net.Acquire(fd);
    if sock == null {
      return -1, [];
    }
    ghost var k := SockOf(net.st, fd);
    net.SockFacts(k);
    if sock.kind == Stream {
      if sock.dev == null || to.Some? {
        return -1, [];
      }
    } else if to.Some? {
      NetLinks.AssignFacts(net.st, k, to.value, addrLen);
      NetLinks.AssignKeepsOk(net.st, k, to.value, addrLen);
      var found := net.AssignNetdev(sock, to.value, addrLen, k);
      if !found {
        return -1, [];
      }
    } else if sock.dev == null {
      return -1, [];
    }
    r, wire := EspSend(net, sock, data, size, rounds, k);
  }

  /** The bytes go to `data`, which is no socket's buffer. */
  method BosRecvFrom(net: Stack, fd: int, data: array<char>, n: nat) returns (r: int, sender: Option<SockAddr>)
    requires net.Coupled() && NetLinks.Inv(net.st) && Enabled(net.st, RecvFrom(fd, n))
    requires n <= data.Length && data !in net.Objects()
    modifies net.Objects(), data
    ensures net.Coupled() && NetLinks.Inv(net.st) && net.Grows() && net.fdId == old(net.fdId) && r <= n
    ensures (net.st, if r < 0 then Code(r) else Bytes(data[..r], sender)) == Step(old(net.st), RecvFrom(fd, n))
    ensures data[if r < 0 then 0 else r..] == old(data[if r < 0 then 0 else r..])
  {
    hide Stack.Coupled, NetLinks.Inv, Stack.Objects, Stack.Repr, Take, Refers;
    NetLinks.StepKeepsInv(net.st, RecvFrom(fd, n));
    NetLinks.InvIsOk(net.st);
    var desc, sock := net.Acquire(fd);
    if sock == null {
      return -1, None;
    }
    net.SockFacts(SockOf(net.st, fd));
    net.BuffersInside(data);
    r, sender := net.TakeBytes(sock, data, n, SockOf(net.st, fd));
  }

  /** Takes the first client that waits at `sock`. */
  method NextClient(net: Stack, sock: Socket, ghost k: SockId) returns (cl: Socket)
    requires net.Coupled() && Bound(net.st, k) && k < |net.socks| && net.socks[k] == sock && sock.clients != []
    modifies net.Objects()
    ensures net.Coupled() && k < |old(net.st).socks|
    ensures old(net.st).socks[k].clients != [] && old(net.st).socks[k].clients[0] < |old(net.st).socks|
    ensures net.st == Dequeued(old(net.st), k) && net.socks == old(net.socks)
            && unchanged(net.fs, net.root`childs, net`fdId)
    ensures old(net.st).socks[k].clients[0] < |net.socks| && cl == net.socks[old(net.st).socks[k].clients[0]]
  {
    hide Stack.Coupled, Stack.Objects, Stack.Repr;
    net.SockFacts(k);
    cl := sock.clients[0];
    ghost var c, d := net.st.socks[k].clients[0], net.st.socks[k].dev.value;
    net.SockFacts(c);
    var dev := net.DevOf(sock, k);
    net.PutDev(cl, dev, cl.addr, c, d);
    net.SockFacts(k);
    net.PutClients(sock, sock.clients[1..], k, net.st.socks[k].clients[1..]);
  }

  /** How an accept ends, and for whom. */
  lemma AcceptMeans(s: State, fd: int)
    requires Ok(s) && Enabled(s, Accept(fd))
    ensures var k := SockOf(s, fd);
            if s.socks[k].kind != Stream || s.socks[k].dev.None? || s.socks[k].clients == []
            then Step(s, Accept(fd)) == (s, Code(-1))
            else && s.socks[k].clients[0] < |s.socks|
                 && var c := s.socks[k].clients[0];
                    && Step(s, Accept(fd)) == NewFd(Dequeued(s, k), c, fd + 1)
                    && Step(s, Accept(fd)).1 == Code(|s.fds| + 1)
                    && var t := After(s, Accept(fd));
                       && Live(t, |s.fds| + 1) && SockOf(t, |s.fds| + 1) == c && t.socks[c].addr == s.socks[c].addr
                       && |Dequeued(s, k).socks| == |s.socks| && Dequeued(s, k).socks[c].addr == s.socks[c].addr
  {
    hide Bounded;
  }

  /** The name comes from the caller's descriptor number, which hides the counter. */
  method BosAccept(net: Stack, fd: int) returns (r: int, addr: SockAddr)
    requires net.Coupled() && NetLinks.Inv(net.st) && Enabled(net.st, Accept(fd))
    requires fd < Numerals.WORD / 2 - 1 && |Numerals.Digits(fd + 1, 10)| < 8
    modifies net.Objects(), net.fs, net.root`childs, net.root`first
    ensures net.Coupled() && NetLinks.Inv(net.st) && net.Grows() && net.fdId == old(net.fdId)
    ensures (net.st, Code(r)) == Step(old(net.st), Accept(fd))
    ensures r >= 0 ==> Live(net.st, r) && addr == net.st.socks[SockOf(net.st, r)].addr
  {
    hide Stack.Coupled, NetLinks.Inv, Stack.Objects, Stack.Repr, Dequeued, Bounded, Refers, Step, NewFd;
    NetLinks.StepKeepsInv(net.st, Accept(fd));
    NetLinks.InvIsOk(net.st);
    AcceptMeans(net.st, fd);
    var desc, sock := net.Acquire(fd);
    ghost var s, k := net.st, SockOf(net.st, fd);
    net.SockFacts(k);
    if sock.kind != Stream || sock.dev == null || sock.clients == [] {
      return -1, SockAddr(AF_INET, 0, 0);
    }
    var cl := NextClient(net, sock, k);
    ghost var c := s.socks[k].clients[0];
    net.SockFacts(c);
    addr := cl.addr;
    r := NewNode(net, cl, fd + 1, c);
  }

  lemma AnswersKeepFds(s: State, k: SockId, rounds: seq<Round>)
    requires Bound(s, k) && NetLinks.Inv(DeviceClose(s, k).0) && Answered(DeviceClose(s, k), rounds)
    ensures s.fds <= Finish(DeviceClose(s, k), rounds).0.fds
  {
    hide NetLinks.Inv;
    AnswersRun(DeviceClose(s, k), rounds);
    NetRuns.DescriptorsStay(DeviceClose(s, k).0, Played(DeviceClose(s, k), rounds),
                            Finish(DeviceClose(s, k), rounds).0);
  }

  /** Destroying the node fails, for the descriptor still counts: both stay. */
  method BosClose(net: Stack, fd: int, rounds: seq<Round>) returns (r: int)
    requires net.Coupled() && NetLinks.Inv(net.st) && Enabled(net.st, Close(fd))
    requires Answered(Step(net.st, Close(fd)), rounds)
    modifies net.Objects(), net.fs, FsTree.Nodes(net.fs.forest)
    ensures net.Coupled() && NetLinks.Inv(net.st) && net.Grows() && net.fdId == old(net.fdId)
    ensures (net.st, Code(r)) == Finish(Step(old(net.st), Close(fd)), rounds)
  {
    hide Stack.Coupled, NetLinks.Inv, Stack.Objects, Stack.Repr, DeviceClose, Refers;
    NetLinks.StepKeepsInv(net.st, Close(fd));
    NetLinks.InvIsOk(net.st);
    var desc, sock := net.Acquire(fd);
    if desc == null {
      return -1;
    }
    var node := desc.node;
    if sock == null {
      return 0;
    }
    ghost var k := SockOf(net.st, fd);
    net.SockFacts(k);
    if sock.dev == null {
      return 0;
    }
    ghost var j := NodeOf(net.st, fd);
    AnswersKeepFds(net.st, k, rounds);
    r := EspClose(net, sock, rounds, k);
    if r == 0 {
      assert net.st.fds[fd - 1] == j;
      var q := net.DestroyNode(node, j);
    }
  }
}
