/** The socket layer and the link tables as one state and its steps: the calls of
    the application, cut where they wait for the module's reply to a command, and
    the asynchronous events from the reader thread. */
module NetSpec {
  import Fifo
  import Inet
  import opened Options

  type SockId = nat

  datatype SockKind = Stream | Dgram

  datatype SockAddr = SockAddr(domain: int, ip: Inet.Addr, port: nat)

  /** A queued datagram; `idx` bytes of it have been read. */
  datatype Datagram = Datagram(data: seq<char>, idx: nat, from: SockAddr)

  datatype Sock = Sock(
    kind: SockKind, dev: Option<nat>, queue: seq<char>, dgrams: seq<Datagram>,
    clients: seq<SockId>, addr: SockAddr)

  /** A network device with its link table and its listening socket. */
  datatype Dev = Dev(domain: int, ip: Inet.Addr, netmask: Inet.Addr,
                     links: seq<Option<SockId>>, server: Option<SockId>)

  /** What the application thread waits for. */
  datatype Busy =
    | Idle
    | InConnect(dev: nat, link: nat, sock: SockId)
    | InListen(dev: nat, sock: SockId)
    | InSend(size: nat, announced: bool)
    | InClose(dev: nat, link: nat)
    | InCloseServer(dev: nat)

  /** `nodes` are the socket nodes in order of creation, each with its data
      pointer, and `names` the numbers they are named by; `counter` is the static
      from which `bos_socket` takes them.  Descriptor `id` refers to node
      `fds[id - 1]`. */
  datatype State = State(
    socks: seq<Sock>, devs: seq<Dev>, nodes: seq<Option<SockId>>, names: seq<nat>,
    fds: seq<nat>, counter: nat, busy: Busy)

  datatype Event =
    | Socket(kind: SockKind, domain: int)
    | Connect(fd: int, addr: SockAddr, addrLen: nat)
    | Bind(fd: int, addr: SockAddr, addrLen: nat)
    | Listen(fd: int, backlog: int)
    | Accept(fd: int)
    | SendTo(fd: int, size: nat, to: Option<SockAddr>, addrLen: nat)
    | RecvFrom(fd: int, n: nat)
    | Close(fd: int)
    | Reply(ok: bool)
    | Received(dev: nat, link: nat, data: seq<char>, from: SockAddr)
    | Accepted(dev: nat, link: nat, from: SockAddr)
    | Closed(dev: nat, link: nat)

  /** How an event ends: a call returns a code, or bytes and who sent them, or waits
      for a reply. */
  datatype Ret = Code(code: int) | Bytes(bytes: seq<char>, sender: Option<SockAddr>) | Waits | Quiet

  const NLINKS: nat := 5
  const RING: nat := 32
  const AF_INET: int := 0

  /** An empty link table. */
  function Unlinked(): (r: seq<Option<SockId>>)
    ensures |r| == NLINKS && forall i | 0 <= i < NLINKS :: r[i] == None
  {
    [None, None, None, None, None]
  }

  predicate SameBytes(x: Sock, y: Sock) {
    x.kind == y.kind && x.queue == y.queue && x.dgrams == y.dgrams
  }

  // ----- the parts of a step

  /** `get_link_id`: the first link that holds `x`, or -1. */
  function FindLink(links: seq<Option<SockId>>, x: Option<SockId>): (i: int)
    ensures -1 <= i < |links|
    ensures i >= 0 ==> links[i] == x && forall j | 0 <= j < i :: links[j] != x
    ensures i == -1 ==> x !in links
  {
    if links == [] then -1
    else if links[0] == x then 0
    else
      var i := FindLink(links[1..], x);
      assert links == [links[0]] + links[1..];
      if i < 0 then -1 else i + 1
  }

  predicate Matches(d: Dev, a: SockAddr, addrLen: nat) {
    d.domain == a.domain && Inet.MatchAddr(d.ip, d.netmask, a.ip, addrLen)
  }

  /** The device `assign_netdev` picks: the first that matches, or none. */
  function FindDev(devs: seq<Dev>, a: SockAddr, addrLen: nat): (i: int)
    ensures -1 <= i < |devs|
    ensures i >= 0 ==> Matches(devs[i], a, addrLen) && forall j | 0 <= j < i :: !Matches(devs[j], a, addrLen)
    ensures i == -1 ==> forall j | 0 <= j < |devs| :: !Matches(devs[j], a, addrLen)
  {
    if devs == [] then -1
    else if Matches(devs[0], a, addrLen) then 0
    else
      var i := FindDev(devs[1..], a, addrLen);
      assert forall j | 0 < j < |devs| :: devs[j] == devs[1..][j - 1];
      if i < 0 then -1 else i + 1
  }

  function NewSock(kind: SockKind, addr: SockAddr): Sock {
    Sock(kind, None, [], [], [], addr)
  }

  function NodeOf(s: State, fd: int): nat
    requires 0 < fd <= |s.fds|
  {
    s.fds[fd - 1]
  }

  predicate KnownFd(s: State, fd: int) {
    0 < fd <= |s.fds|
  }

  /** The descriptor's node still has its socket. */
  predicate Live(s: State, fd: int) {
    KnownFd(s, fd) && NodeOf(s, fd) < |s.nodes| && s.nodes[NodeOf(s, fd)].Some?
    && s.nodes[NodeOf(s, fd)].value < |s.socks|
  }

  function SockOf(s: State, fd: int): SockId
    requires Live(s, fd)
  {
    s.nodes[NodeOf(s, fd)].value
  }

  function SetSock(s: State, k: SockId, sock: Sock): State
    requires k < |s.socks|
  {
    s.(socks := s.socks[k := sock])
  }

  function SetLink(s: State, dev: nat, link: nat, x: Option<SockId>): State
    requires dev < |s.devs| && link < |s.devs[dev].links|
  {
    s.(devs := s.devs[dev := s.devs[dev].(links := s.devs[dev].links[link := x])])
  }

  /** `assign_netdev`. */
  function Assign(s: State, k: SockId, a: SockAddr, addrLen: nat): (r: (State, bool))
    requires k < |s.socks|
  {
    var d := if addrLen == Inet.ADDR_LEN then FindDev(s.devs, a, addrLen) else -1;
    if d < 0 then (s, false) else (SetSock(s, k, s.socks[k].(dev := Some(d), addr := a)), true)
  }

  /** A node named `v` and a descriptor for socket `k`; the descriptor's id is returned. */
  function NewFd(s: State, k: SockId, v: nat): (State, Ret) {
    (s.(nodes := s.nodes + [Some(k)], names := s.names + [v], fds := s.fds + [|s.nodes|]), Code(|s.fds| + 1))
  }

  predicate KnownSocks(s: State, ks: seq<SockId>) {
    forall i | 0 <= i < |ks| :: ks[i] < |s.socks|
  }

  predicate DevOk(s: State, d: Option<nat>) {
    d.Some? ==> d.value < |s.devs|
  }

  // ----- the calls

  function ConnectStep(s: State, fd: int, a: SockAddr, addrLen: nat): (State, Ret)
    requires KnownFd(s, fd) ==> Live(s, fd)
  {
    if !KnownFd(s, fd) then (s, Code(-1)) else
    var k := SockOf(s, fd);
    if s.socks[k].dev.Some? then (s, Code(-1)) else
    var (s1, found) := Assign(s, k, a, addrLen);
    if !found then (s, Code(-1)) else DeviceConnect(s1, k)
  }

  predicate Bound(s: State, k: SockId) {
    k < |s.socks| && s.socks[k].dev.Some? && s.socks[k].dev.value < |s.devs|
  }

  function DeviceConnect(s: State, k: SockId): (State, Ret)
    requires Bound(s, k)
  {
    var d := s.socks[k].dev.value;
    var link := FindLink(s.devs[d].links, None);
    if link < 0 then (s, Code(-1)) else (s.(busy := InConnect(d, link, k)), Waits)
  }

  function ListenStep(s: State, fd: int, backlog: int): (State, Ret)
    requires Live(s, fd) && DevOk(s, s.socks[SockOf(s, fd)].dev)
  {
    var k := SockOf(s, fd);
    if s.socks[k].kind != Stream || s.socks[k].dev.None? then (s, Code(-1)) else DeviceListen(s, k, backlog)
  }

  function DeviceListen(s: State, k: SockId, backlog: int): (State, Ret)
    requires Bound(s, k)
  {
    var d := s.socks[k].dev.value;
    if backlog != 0 || s.devs[d].server.Some? then (s, Code(-1)) else (s.(busy := InListen(d, k)), Waits)
  }

  function AcceptStep(s: State, fd: int): (State, Ret)
    requires Live(s, fd) && KnownSocks(s, s.socks[SockOf(s, fd)].clients)
  {
    var k := SockOf(s, fd);
    var sock := s.socks[k];
    if sock.kind != Stream || sock.dev.None? || sock.clients == [] then (s, Code(-1)) else
    NewFd(Dequeued(s, k), sock.clients[0], fd + 1)
  }

  /** The first waiting client leaves the queue and gets the device. */
  function Dequeued(s: State, k: SockId): State
    requires k < |s.socks| && s.socks[k].clients != [] && s.socks[k].clients[0] < |s.socks|
  {
    var cl := s.socks[k].clients[0];
    var s1 := SetSock(s, cl, s.socks[cl].(dev := s.socks[k].dev));
    SetSock(s1, k, s1.socks[k].(clients := s1.socks[k].clients[1..]))
  }

  function SendToStep(s: State, fd: int, size: nat, to: Option<SockAddr>, addrLen: nat): (State, Ret)
    requires KnownFd(s, fd) && (Live(s, fd) ==> DevOk(s, s.socks[SockOf(s, fd)].dev))
  {
    if !Live(s, fd) then (s, Code(-1)) else
    var k := SockOf(s, fd);
    if s.socks[k].kind == Stream then
      if s.socks[k].dev.None? || to.Some? then (s, Code(-1)) else DeviceSend(s, k, size)
    else if to.Some? then
      var (s1, found) := Assign(s, k, to.value, addrLen);
      if !found then (s, Code(-1)) else DeviceSend(s1, k, size)
    else if s.socks[k].dev.None? then (s, Code(-1))
    else DeviceSend(s, k, size)
  }

  function DeviceSend(s: State, k: SockId, size: nat): (State, Ret)
    requires Bound(s, k)
  {
    if size == 0 then (s, Code(0))
    else if FindLink(s.devs[s.socks[k].dev.value].links, Some(k)) < 0 then (s, Code(-1))
    else (s.(busy := InSend(size, false)), Waits)
  }

  predicate DgramsOk(dgrams: seq<Datagram>) {
    forall i | 0 <= i < |dgrams| :: dgrams[i].idx <= |dgrams[i].data|
  }

  /** Reading from a socket: what remains, and the bytes returned. */
  function Take(sock: Sock, n: nat): (Sock, seq<char>)
    requires DgramsOk(sock.dgrams)
  {
    if sock.kind == Stream then
      var m := Fifo.Min(n, |sock.queue|);
      (sock.(queue := sock.queue[m..]), sock.queue[..m])
    else if sock.dgrams == [] then (sock, [])
    else
      var d := sock.dgrams[0];
      var m := Fifo.Min(n, |d.data| - d.idx);
      var d1 := d.(idx := d.idx + m);
      (sock.(dgrams := if d1.idx == |d.data| then sock.dgrams[1..] else sock.dgrams[0 := d1]),
       d.data[d.idx..d.idx + m])
  }

  /** Who sent what comes next, as far as the socket knows. */
  function Sender(sock: Sock): Option<SockAddr> {
    if sock.kind == Dgram && sock.dgrams != [] then Some(sock.dgrams[0].from) else None
  }

  function RecvFromStep(s: State, fd: int, n: nat): (State, Ret)
    requires KnownFd(s, fd)
    requires Live(s, fd) ==> DgramsOk(s.socks[SockOf(s, fd)].dgrams)
  {
    if !Live(s, fd) then (s, Code(-1)) else
    var (sock, bytes) := Take(s.socks[SockOf(s, fd)], n);
    (SetSock(s, SockOf(s, fd), sock), Bytes(bytes, Sender(s.socks[SockOf(s, fd)])))
  }

  /** `bos_close`; the node stays, for its descriptor still counts. */
  function CloseStep(s: State, fd: int): (State, Ret)
    requires Live(s, fd) ==> DevOk(s, s.socks[SockOf(s, fd)].dev)
  {
    if !KnownFd(s, fd) then (s, Code(-1))
    else if !Live(s, fd) then (s, Code(0))
    else
      var k := SockOf(s, fd);
      if s.socks[k].dev.None? then (s, Code(0)) else DeviceClose(s, k)
  }

  function DeviceClose(s: State, k: SockId): (State, Ret)
    requires Bound(s, k)
  {
    var d := s.socks[k].dev.value;
    if s.devs[d].server == Some(k) then (s.(busy := InCloseServer(d)), Waits) else Unlinking(s, d, k)
  }

  function Unlinking(s: State, d: nat, k: SockId): (State, Ret)
    requires d < |s.devs|
  {
    var link := FindLink(s.devs[d].links, Some(k));
    if link < 0 then (s, Code(-1)) else (s.(busy := InClose(d, link)), Waits)
  }

  function ReplyStep(s: State, ok: bool): (State, Ret)
    requires BusyOk(s)
  {
    var idle := s.(busy := Idle);
    if !ok then (idle, Code(-1)) else
    match s.busy
    case Idle => (s, Quiet)
    case InConnect(d, link, k) => (SetLink(idle, d, link, Some(k)), Code(0))
    case InListen(d, k) => (idle.(devs := idle.devs[d := idle.devs[d].(server := Some(k))]), Code(0))
    case InSend(size, announced) => if announced then (idle, Code(size)) else (s.(busy := InSend(size, true)), Waits)
    case InClose(d, link) => (SetLink(idle, d, link, None), Code(0))
    case InCloseServer(d) => (idle.(devs := idle.devs[d := idle.devs[d].(server := None)]), Code(0))
  }

  predicate BusyOk(s: State) {
    match s.busy
    case InConnect(d, link, k) => d < |s.devs| && link < |s.devs[d].links|
    case InListen(d, _) => d < |s.devs|
    case InClose(d, link) => d < |s.devs| && link < |s.devs[d].links|
    case InCloseServer(d) => d < |s.devs|
    case _ => true
  }

  // ----- the asynchronous events

  function Arrive(sock: Sock, data: seq<char>, from: SockAddr): Sock
    requires sock.kind == Stream ==> |sock.queue| <= RING - 1
  {
    if sock.kind == Dgram then sock.(dgrams := sock.dgrams + [Datagram(data, 0, from)])
    else sock.(queue := sock.queue + Fifo.Fitting(sock.queue, RING - 1, data))
  }

  function AcceptedStep(s: State, d: nat, link: nat, from: SockAddr): State
    requires d < |s.devs| && link < |s.devs[d].links|
    requires s.devs[d].server.Some? ==> s.devs[d].server.value < |s.socks|
  {
    if s.devs[d].server.None? then s else
    var k, fresh_ := s.devs[d].server.value, |s.socks|;
    var server := s.socks[k].(clients := s.socks[k].clients + [fresh_]);
    SetLink(s.(socks := s.socks[k := server] + [NewSock(Stream, from)]), d, link, Some(fresh_))
  }

  /** `netdev_sock_disconnect`: the first node with that data pointer loses it. */
  function Disconnect(nodes: seq<Option<SockId>>, x: Option<SockId>): seq<Option<SockId>> {
    var i := FindLink(nodes, x);
    if i < 0 then nodes else nodes[i := None]
  }

  function ClosedStep(s: State, d: nat, link: nat): State
    requires d < |s.devs| && link < |s.devs[d].links|
  {
    SetLink(s, d, link, None).(nodes := Disconnect(s.nodes, s.devs[d].links[link]))
  }

  // ----- what every state satisfies

  /** The tables refer to what exists. */
  ghost predicate Refers(s: State) {
    && (forall d | 0 <= d < |s.devs| :: |s.devs[d].links| == NLINKS
          && (forall i | 0 <= i < NLINKS :: s.devs[d].links[i].Some? ==> s.devs[d].links[i].value < |s.socks|)
          && (s.devs[d].server.Some? ==> s.devs[d].server.value < |s.socks|))
    && (forall k | 0 <= k < |s.socks| :: DevOk(s, s.socks[k].dev) && KnownSocks(s, s.socks[k].clients))
    && (forall i | 0 <= i < |s.nodes| :: s.nodes[i].Some? ==> s.nodes[i].value < |s.socks|)
    && (forall i | 0 <= i < |s.fds| :: s.fds[i] < |s.nodes|) && |s.names| == |s.nodes|
    && BusyOk(s) && (s.busy.InConnect? ==> s.busy.sock < |s.socks|) && (s.busy.InListen? ==> s.busy.sock < |s.socks|)
  }

  /** The buffers are within their bounds. */
  ghost predicate Bounded(s: State) {
    forall k | 0 <= k < |s.socks| ::
      |s.socks[k].queue| <= RING - 1 && DgramsOk(s.socks[k].dgrams)
  }

  ghost predicate Ok(s: State) {
    Refers(s) && Bounded(s)
  }

  /** What the source demands of its callers: a call needs the application thread
      and, but for bos_connect and bos_close, a descriptor that exists; the calls
      that do not check need its socket as well.  A frame needs a live link. */
  predicate Enabled(s: State, e: Event) {
    match e
    case Socket(_, domain) => s.busy.Idle? && domain == AF_INET
    case Connect(fd, _, _) => s.busy.Idle? && (KnownFd(s, fd) ==> Live(s, fd))
    case Bind(fd, _, _) => s.busy.Idle? && Live(s, fd)
    case Listen(fd, _) => s.busy.Idle? && Live(s, fd)
    case Accept(fd) => s.busy.Idle? && Live(s, fd)
    case SendTo(fd, _, _, _) => s.busy.Idle? && KnownFd(s, fd)
    case RecvFrom(fd, _) => s.busy.Idle? && KnownFd(s, fd)
    case Close(fd) => s.busy.Idle?
    case Reply(_) => !s.busy.Idle?
    case Received(d, link, _, _) => d < |s.devs| && link < |s.devs[d].links| && s.devs[d].links[link].Some?
    case Accepted(d, link, _) => d < |s.devs| && link < |s.devs[d].links|
    case Closed(d, link) => d < |s.devs| && link < |s.devs[d].links|
  }

  function Step(s: State, e: Event): (State, Ret)
    requires Ok(s) && Enabled(s, e)
  {
    match e
    case Socket(kind, domain) =>
      NewFd(s.(socks := s.socks + [NewSock(kind, SockAddr(domain, 0, 0))], counter := s.counter + 1),
            |s.socks|, s.counter + 1)
    case Connect(fd, a, addrLen) => ConnectStep(s, fd, a, addrLen)
    case Bind(fd, a, addrLen) =>
      var (s1, found) := Assign(s, SockOf(s, fd), a, addrLen);
      (s1, Code(if found then 0 else -1))
    case Listen(fd, backlog) => ListenStep(s, fd, backlog)
    case Accept(fd) => AcceptStep(s, fd)
    case SendTo(fd, size, to, addrLen) => SendToStep(s, fd, size, to, addrLen)
    case RecvFrom(fd, n) => RecvFromStep(s, fd, n)
    case Close(fd) => CloseStep(s, fd)
    case Reply(ok) => ReplyStep(s, ok)
    case Received(d, link, data, from) =>
      var k := s.devs[d].links[link].value;
      (SetSock(s, k, Arrive(s.socks[k], data, from)), Quiet)
    case Accepted(d, link, from) => (AcceptedStep(s, d, link, from), Quiet)
    case Closed(d, link) => (ClosedStep(s, d, link), Quiet)
  }

  function After(s: State, e: Event): State
    requires Ok(s) && Enabled(s, e)
  {
    Step(s, e).0
  }

  // ----- events while the application waits

  predicate Async(e: Event) {
    e.Received? || e.Accepted? || e.Closed?
  }

  /** The driver can deliver `es`, one after the other. */
  ghost predicate Deliverable(s: State, es: seq<Event>)
    decreases |es|
  {
    es != [] ==> Ok(s) && Async(es[0]) && Enabled(s, es[0]) && Deliverable(After(s, es[0]), es[1..])
  }

  ghost function Delivered(s: State, es: seq<Event>): State
    requires Deliverable(s, es)
    decreases |es|
  {
    if es == [] then s else Delivered(After(s, es[0]), es[1..])
  }

  // ----- whole calls

  /** One command: the events while it waits, and how the module answers. */
  datatype Round = Round(during: seq<Event>, ok: bool)

  /** A call that has come to `r` gets the replies it waits for. */
  ghost predicate Answered(r: (State, Ret), rounds: seq<Round>)
    decreases |rounds|
  {
    r.1 == Waits ==>
      && rounds != [] && Deliverable(r.0, rounds[0].during)
      && var t, reply := Delivered(r.0, rounds[0].during), Reply(rounds[0].ok);
         Ok(t) && Enabled(t, reply) && Answered(Step(t, reply), rounds[1..])
  }

  /** How it ends. */
  ghost function Finish(r: (State, Ret), rounds: seq<Round>): (State, Ret)
    requires Answered(r, rounds)
    decreases |rounds|
  {
    if r.1 != Waits then r
    else Finish(Step(Delivered(r.0, rounds[0].during), Reply(rounds[0].ok)), rounds[1..])
  }
}
