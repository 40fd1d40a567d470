/** The objects of the socket layer: sockets, devices, nodes and descriptors.  `st`
    is what they stand for and `Coupled` ties it to them.  Here are the single
    assignments, the searches and the callbacks of the driver; the calls of the
    application are in `NetCalls`. */
module NetStack {
  import opened Seqs
  import opened NetSpec
  import opened Options
  import opened NetObjects
  import NetLinks
  import Inet
  import Numerals
  import opened FsNode
  import opened FsTree
  import Fs
  import FsShape
  import Ringbuf

  /** Different objects have different buffers and tables. */
  ghost predicate Apart(socks: seq<Socket>, devs: seq<Netdev>)
  {
    && NoDup(socks) && NoDup(devs)
    && (forall i, j | 0 <= i < j < |devs| :: devs[i].links != devs[j].links)
    && (forall i, j | 0 <= i < j < |socks| && socks[i].stream != null && socks[j].stream != null ::
          socks[i].stream != socks[j].stream && socks[i].stream.data != socks[j].stream.data)
  }

  ghost predicate BytesAre(socks: seq<Socket>, vs: seq<Sock>)
    reads socks`dgrams, set x | x in socks && x.stream != null :: x.stream,
          set x | x in socks && x.stream != null :: x.stream.data
  {
    |socks| == |vs| && forall i | 0 <= i < |socks| :: socks[i].HoldsBytes(vs[i])
  }

  ghost predicate PointersAre(socks: seq<Socket>, vs: seq<Sock>, devs: seq<Netdev>)
    reads socks`addr, socks`dev, socks`clients
  {
    |socks| == |vs| && forall i | 0 <= i < |socks| :: socks[i].Points(vs[i], socks, devs)
  }

  predicate SamePointers(x: Sock, y: Sock) {
    x.addr == y.addr && x.dev == y.dev && x.clients == y.clients
  }

  lemma PointersStay(socks: seq<Socket>, vs: seq<Sock>, ws: seq<Sock>, devs: seq<Netdev>)
    requires PointersAre(socks, vs, devs) && |vs| == |ws|
    requires forall i | 0 <= i < |vs| :: SamePointers(vs[i], ws[i])
    ensures PointersAre(socks, ws, devs)
  {
  }

  ghost predicate DevsAre(devs: seq<Netdev>, ws: seq<Dev>, socks: seq<Socket>)
    reads devs, set y | y in devs :: y.links
  {
    |devs| == |ws| && forall i | 0 <= i < |devs| :: DevIs(devs[i], ws[i], socks)
  }

  ghost predicate DevIs(y: Netdev, w: Dev, socks: seq<Socket>)
    reads y, y.links
  {
    && y.domain == w.domain && y.ip == w.ip && y.netmask == w.netmask
    && y.links.Length == |w.links| && y.server == Deref(socks, w.server)
    && forall i | 0 <= i < |w.links| :: y.links[i] == Deref(socks, w.links[i])
  }

  /** Below the root there is the "." link and then one node per socket node. */
  ghost predicate NodesAre(root: Node, nodes: seq<Option<SockId>>, socks: seq<Socket>)
    reads root, root.childs
  {
    && |root.childs| == |nodes| + 1 && root.childs[0].data == root
    && forall j | 0 <= j < |nodes| :: root.childs[j + 1].data == Deref(socks, nodes[j])
  }

  /** The socket nodes are named by their numbers. */
  ghost predicate NamesAre(root: Node, names: seq<nat>)
    reads root, root.childs
  {
    |root.childs| == |names| + 1 && forall j | 0 <= j < |names| ::
        root.childs[j + 1].name == Numerals.Digits(names[j], 10)
  }

  ghost predicate FdsAre(fs: Fs.FileSystem, fds: seq<nat>, root: Node)
    reads fs, root
  {
    && |fs.fdLst| == |fds| == fs.lastId
    && forall i | 0 <= i < |fds| ::
         fds[i] + 1 < |root.childs| && fs.fdLst[i].id == i + 1 && fs.fdLst[i].node == root.childs[fds[i] + 1]
  }

  ghost predicate FsIs(fs: Fs.FileSystem, root: Node, netfsId: int)
    reads fs, Nodes(fs.forest), root
  {
    && fs.Valid() && root in Nodes(fs.forest) && 0 <= netfsId < |fs.fsLst|
    && forall n | n in root.childs :: n in Nodes(fs.forest) && n.parent == root
  }

  /** Everything but the sockets: the link tables, the nodes and the descriptors. */
  ghost predicate TablesAre(devs: seq<Netdev>, fs: Fs.FileSystem, root: Node, netfsId: int, socks: seq<Socket>,
                            s: State)
    reads devs, set y | y in devs :: y.links
    reads fs, Nodes(fs.forest), root, root.childs
  {
    && DevsAre(devs, s.devs, socks) && NodesAre(root, s.nodes, socks) && NamesAre(root, s.names)
    && FdsAre(fs, s.fds, root) && FsIs(fs, root, netfsId)
  }

  /** The tables do not look at what a state says about sockets or calls. */
  lemma TablesStay(devs: seq<Netdev>, fs: Fs.FileSystem, root: Node, netfsId: int, socks: seq<Socket>, s: State,
                   t: State)
    requires TablesAre(devs, fs, root, netfsId, socks, s) && t.devs == s.devs && t.nodes == s.nodes
             && t.names == s.names && t.fds == s.fds
    ensures TablesAre(devs, fs, root, netfsId, socks, t)
  {
  }

  function FreshDev(d: Netdev): (w: Dev)
    ensures w.links == Unlinked() && w.server == None
  {
    Dev(d.domain, d.ip, d.netmask, Unlinked(), None)
  }

  /** Where the machine starts with these devices. */
  ghost function StartOf(devs: seq<Netdev>): (s: State)
    ensures NetLinks.Initial(s)
  {
    State([], seq(|devs|, i requires 0 <= i < |devs| => FreshDev(devs[i])), [], [], [], 0, Idle)
  }

  ghost predicate Unused(d: Netdev)
    reads d, d.links
  {
    d.server == null && d.links.Length == NLINKS && forall i | 0 <= i < NLINKS :: d.links[i] == null
  }

  lemma FreshDevs(devs: seq<Netdev>)
    requires forall i | 0 <= i < |devs| :: Unused(devs[i])
    ensures forall i | 0 <= i < |devs| :: DevIs(devs[i], FreshDev(devs[i]), [])
  {
  }

  ghost function Parts(childs: seq<Node>, socks: seq<Socket>, devs: seq<Netdev>): set<object> {
    (set n | n in childs) + (set x | x in socks) + Buffers(socks) + Gear(devs)
  }

  /** The devices and their link arrays. */
  ghost function Gear(devs: seq<Netdev>): set<object> {
    var own: set<object>, arrays: set<object> := set y | y in devs, set y: Netdev | y in devs :: y.links;
    own + arrays
  }

  ghost function Buffers(socks: seq<Socket>): set<object> {
    if socks == [] then {} else socks[0].Buffer() + Buffers(socks[1..])
  }

  lemma {:induction false} BufferIn(socks: seq<Socket>, k: nat)
    requires k < |socks|
    ensures socks[k].Buffer() <= Buffers(socks)
  {
    if k > 0 { BufferIn(socks[1..], k - 1); }
  }

  lemma {:induction false} BuffersSnoc(socks: seq<Socket>, x: Socket)
    ensures Buffers(socks + [x]) == Buffers(socks) + x.Buffer()
  {
    if socks == [] {
      assert Buffers([x]) == x.Buffer() + Buffers([]);
    } else {
      assert (socks + [x])[1..] == socks[1..] + [x];
      BuffersSnoc(socks[1..], x);
    }
  }

  /** What is part of the stack is allocated, so a new array is not. */
  lemma {:induction false} BuffersAllocated(socks: seq<Socket>)
    ensures forall x | x in Buffers(socks) :: allocated(x)
  {
    if socks != [] {
      BuffersAllocated(socks[1..]);
      forall x | x in socks[0].Buffer() ensures allocated(x) {
        var ring: Ringbuf.Ring := socks[0].stream;
        assert allocated(ring) && allocated(ring.data);
      }
    }
  }

  lemma PartsGrow(childs: seq<Node>, socks: seq<Socket>, devs: seq<Netdev>, x: Socket)
    ensures Parts(childs, socks + [x], devs) == Parts(childs, socks, devs) + {x} + x.Buffer()
  {
    BuffersSnoc(socks, x);
  }

  /** What a step on one link or one socket may write to. */
  lemma PartsHave(childs: seq<Node>, socks: seq<Socket>, devs: seq<Netdev>)
    ensures forall k | 0 <= k < |socks| ::
              socks[k] in Parts(childs, socks, devs) && socks[k].Buffer() <= Parts(childs, socks, devs)
    ensures forall d | 0 <= d < |devs| ::
              devs[d] in Parts(childs, socks, devs) && devs[d].links in Parts(childs, socks, devs)
    ensures forall j | 0 <= j < |childs| :: childs[j] in Parts(childs, socks, devs)
  {
    forall k | 0 <= k < |socks| ensures socks[k].Buffer() <= Buffers(socks) {
      BufferIn(socks, k);
    }
  }

  lemma TablesGrow(devs: seq<Netdev>, fs: Fs.FileSystem, root: Node, netfsId: int, socks: seq<Socket>, n: Socket,
                   s: State, t: State)
    requires TablesAre(devs, fs, root, netfsId, socks, s) && Refers(s) && |socks| == |s.socks|
    requires t.devs == s.devs && t.nodes == s.nodes && t.names == s.names && t.fds == s.fds
    ensures TablesAre(devs, fs, root, netfsId, socks + [n], t)
  {
    forall i | 0 <= i < |devs| ensures DevIs(devs[i], s.devs[i], socks + [n]) {
      assert DevIs(devs[i], s.devs[i], socks);
    }
  }

  lemma PointersGrow(socks: seq<Socket>, vs: seq<Sock>, devs: seq<Netdev>, n: Socket, v: Sock)
    requires PointersAre(socks, vs, devs)
    requires n.addr == v.addr && n.dev == null && v.dev == None && n.clients == [] && v.clients == []
    ensures PointersAre(socks + [n], vs + [v], devs)
  {
    forall i | 0 <= i < |socks| ensures (socks + [n])[i].Points((vs + [v])[i], socks + [n], devs) {
      assert socks[i].Points(vs[i], socks, devs);
    }
  }

  lemma LinkHolds(devs: seq<Netdev>, ws: seq<Dev>, socks: seq<Socket>, d: nat, link: nat)
    requires DevsAre(devs, ws, socks) && d < |ws| && link < |ws[d].links|
    ensures d < |devs| && link < devs[d].links.Length && devs[d].links[link] == Deref(socks, ws[d].links[link])
  {
    assert DevIs(devs[d], ws[d], socks);
  }

  lemma TablesLink(devs: seq<Netdev>, fs: Fs.FileSystem, root: Node, netfsId: int, socks: seq<Socket>, s: State,
                   d: nat, link: nat)
    requires TablesAre(devs, fs, root, netfsId, socks, s) && d < |s.devs| && link < |s.devs[d].links|
    ensures d < |devs| && link < devs[d].links.Length && devs[d].links[link] == Deref(socks, s.devs[d].links[link])
  {
    LinkHolds(devs, s.devs, socks, d, link);
  }

  /** A device and an address for socket `k`, on the pointers. */
  method PointAt(sock: Socket, dev: Netdev, a: SockAddr,
                 ghost socks: seq<Socket>, ghost devs: seq<Netdev>, ghost vs: seq<Sock>, ghost k: nat, ghost d: nat)
    requires Apart(socks, devs) && PointersAre(socks, vs, devs) && k < |socks| && socks[k] == sock
    requires d < |devs| && devs[d] == dev
    modifies sock`dev, sock`addr
    ensures PointersAre(socks, vs[k := vs[k].(dev := Some(d), addr := a)], devs) && sock.dev == dev
  {
    sock.dev := dev;
    sock.addr := a;
  }

  /** A frame for socket `k`, on the buffers. */
  method EnqueueAt(sock: Socket, data: seq<char>, from: SockAddr,
                   ghost socks: seq<Socket>, ghost devs: seq<Netdev>, ghost vs: seq<Sock>, ghost k: nat)
    requires Apart(socks, devs) && BytesAre(socks, vs) && k < |socks| && socks[k] == sock && |vs[k].queue| <= RING - 1
    modifies sock`dgrams, sock.Buffer()
    ensures Apart(socks, devs) && BytesAre(socks, vs[k := Arrive(vs[k], data, from)])
  {
    hide Arrive;
    sock.Enqueue(data, from, vs[k]);
  }

  lemma BufferBounds(s: State, d: nat, link: nat)
    requires Ok(s) && d < |s.devs| && link < |s.devs[d].links| && s.devs[d].links[link].Some?
    ensures var k := s.devs[d].links[link].value;
            k < |s.socks| && |s.socks[k].queue| <= RING - 1 && DgramsOk(s.socks[k].dgrams)
  {
  }

  class Stack {
    const fs: Fs.FileSystem
    const netfsId: int
    const root: Node
    const devLst: seq<Netdev>
    var fdId: nat    // the counter behind the names of socket nodes
    ghost var socks: seq<Socket>
    ghost var st: State

    /** The objects are what `st` says. */
    ghost predicate Coupled()
      reads `st, `socks, `fdId, fs, Nodes(fs.forest), root, root.childs,
            socks, set x | x in socks && x.stream != null :: x.stream,
            set x | x in socks && x.stream != null :: x.stream.data,
            devLst, set y | y in devLst :: y.links
    {
      && Apart(socks, devLst) && BytesAre(socks, st.socks) && PointersAre(socks, st.socks, devLst)
      && TablesAre(devLst, fs, root, netfsId, socks, st) && fdId == st.counter
    }

    lemma Open()
      requires Coupled()
      ensures Apart(socks, devLst) && BytesAre(socks, st.socks) && PointersAre(socks, st.socks, devLst)
      ensures TablesAre(devLst, fs, root, netfsId, socks, st)
      ensures |socks| == |st.socks| && |devLst| == |st.devs| && fdId == st.counter
    {
    }

    lemma Seal()
      requires Apart(socks, devLst) && BytesAre(socks, st.socks) && PointersAre(socks, st.socks, devLst)
      requires TablesAre(devLst, fs, root, netfsId, socks, st) && fdId == st.counter
      ensures Coupled()
    {
    }

    lemma SockFacts(k: SockId)
      requires Coupled() && k < |socks|
      ensures k < |st.socks| && socks[k].kind == st.socks[k].kind && (socks[k].dev == null <==> st.socks[k].dev.None?)
      ensures socks[k].dev != null ==> Bound(st, k)
      ensures socks[k].addr == st.socks[k].addr && |socks[k].clients| == |st.socks[k].clients|
      ensures forall i | 0 <= i < |socks[k].clients| ::
                st.socks[k].clients[i] < |socks| && socks[k].clients[i] == socks[st.socks[k].clients[i]]
    {
      hide Apart, TablesAre;
      Open();
      assert socks[k].HoldsBytes(st.socks[k]) && socks[k].Points(st.socks[k], socks, devLst);
    }

    /** All objects a call may write to. */
    ghost function Objects(): (r: set<object>)
      reads `socks, root`childs
      ensures this in r && Parts(root.childs, socks, devLst) <= r
      ensures forall k | 0 <= k < |socks| :: socks[k] in r && socks[k].Buffer() <= r
      ensures forall d | 0 <= d < |devLst| :: devLst[d] in r && devLst[d].links in r
      ensures forall j | 0 <= j < |root.childs| :: root.childs[j] in r
    {
      PartsHave(root.childs, socks, devLst);
      {this} + Parts(root.childs, socks, devLst)
    }

    /** Everything the stack is made of. */
    ghost function Repr(): set<object>
      reads `socks, root`childs, fs`forest
    {
      Objects() + {fs, root} + set n | n in Nodes(fs.forest)
    }

    /** Nothing joins the stack but new objects. */
    twostate predicate Grows()
      reads `socks, root`childs, fs`forest
    {
      old(socks) <= socks && forall x | x in Repr() :: x in old(Repr()) || fresh(x)
    }

    lemma PartsAllocated()
      ensures forall x | x in Objects() :: allocated(x)
    {
      BuffersAllocated(socks);
    }

    lemma BuffersInside(dst: array<char>)
      requires dst !in Objects()
      ensures forall x | x in socks && x.stream != null :: x.stream.data != dst
    {
    }

    lemma CounterIs()
      requires Coupled()
      ensures fdId == st.counter
    {
    }

    /** `netdev_init`, and the registration of the devices. */
    constructor (devs: seq<Netdev>)
      requires NoDup(devs) && (forall i, j | 0 <= i < j < |devs| :: devs[i].links != devs[j].links)
      requires forall i | 0 <= i < |devs| :: Unused(devs[i])
      ensures Coupled() && st == StartOf(devs) && devLst == devs && fdId == 0 && socks == []
      ensures forall x | x in Repr() :: x in Gear(devs) || fresh(x)
    {
      hide NetLinks.Inv, Unlinked, DevIs, FreshDev, FsIs, Fs.FileSystem.Valid, Nodes, Gear;
      var f, id, r := InitFs();
      fs, netfsId, root, devLst := f, id, r, devs;
      fdId, socks := 0, [];
      st := StartOf(devs);
      new;
      FreshDevs(devs);
    }

    // ----- single assignments, and what they do to the state

    /** `netdev_sock_alloc`, and its address. */
    method NewSocket(kind: SockKind, addr: SockAddr) returns (sock: Socket)
      requires Coupled() && Refers(st)
      modifies `st, `socks
      ensures Coupled() && socks == old(socks) + [sock] && |socks| == |st.socks| && sock.kind == kind
              && fresh({sock} + sock.Buffer())
      ensures st == old(st).(socks := old(st).socks + [NetSpec.NewSock(kind, addr)])
      ensures forall x | x in Repr() :: x in old(Repr()) || fresh(x)
    {
      hide Coupled, TablesAre, PointersAre, Refers, Parts, Nodes;
      Open();
      NodesAllocated(fs.forest);
      sock := new Socket(kind, addr);
      ghost var v := NetSpec.NewSock(kind, addr);
      ghost var t := st.(socks := st.socks + [v]);
      assert PointersAre(socks, st.socks, devLst);
      assert TablesAre(devLst, fs, root, netfsId, socks, st);
      PointersGrow(socks, st.socks, devLst, sock, v);
      TablesGrow(devLst, fs, root, netfsId, socks, sock, st, t);
      AddBytes(socks, devLst, st.socks, sock, v);
      PartsGrow(root.childs, socks, devLst, sock);
      st, socks := t, socks + [sock];
      Seal();
    }

    /** `fd_id++`. */
    method CountUp()
      requires Coupled()
      modifies `st, `fdId
      ensures Coupled() && st == old(st).(counter := old(st).counter + 1) && fdId == old(fdId) + 1
    {
      hide Coupled, BytesAre, PointersAre, TablesAre, Apart;
      Open();
      NodesAllocated(fs.forest);
      TablesStay(devLst, fs, root, netfsId, socks, st, st.(counter := st.counter + 1));
      fdId := fdId + 1;
      st := st.(counter := st.counter + 1);
      assert TablesAre(devLst, fs, root, netfsId, socks, st);
      Seal();
    }

    method PutLink(dev: Netdev, link: nat, sock: Socket?, ghost d: nat, ghost x: Option<SockId>)
      requires Coupled() && d < |devLst| && devLst[d] == dev && d < |st.devs| && link < |st.devs[d].links|
      requires sock == Deref(socks, x) && link < dev.links.Length
      modifies `st, dev.links
      ensures Coupled() && st == SetLink(old(st), d, link, x)
    {
      hide Coupled, BytesAre, PointersAre, NodesAre, NamesAre, FdsAre, FsIs;
      Open();
      NodesAllocated(fs.forest);
      dev.links[link] := sock;
      st := SetLink(st, d, link, x);
      assert DevsAre(devLst, st.devs, socks);
      Seal();
    }

    method PutServer(dev: Netdev, sock: Socket?, ghost d: nat, ghost x: Option<SockId>)
      requires Coupled() && d < |devLst| && devLst[d] == dev && d < |st.devs| && sock == Deref(socks, x)
      modifies `st, dev`server
      ensures Coupled() && st == old(st).(devs := old(st).devs[d := old(st).devs[d].(server := x)])
    {
      hide Coupled, BytesAre, PointersAre, NodesAre, NamesAre, FdsAre, FsIs;
      Open();
      NodesAllocated(fs.forest);
      dev.server := sock;
      st := st.(devs := st.devs[d := st.devs[d].(server := x)]);
      assert DevsAre(devLst, st.devs, socks);
      Seal();
    }

    method PutClients(sock: Socket, clients: seq<Socket>, ghost k: SockId, ghost ids: seq<SockId>)
      requires Coupled() && k < |socks| && k < |st.socks| && socks[k] == sock && |clients| == |ids|
      requires forall i | 0 <= i < |ids| :: ids[i] < |socks| && clients[i] == socks[ids[i]]
      modifies `st, sock`clients
      ensures Coupled() && st == SetSock(old(st), k, old(st).socks[k].(clients := ids))
    {
      hide Coupled, BytesAre, TablesAre;
      Open();
      NodesAllocated(fs.forest);
      ghost var t := SetSock(st, k, st.socks[k].(clients := ids));
      TablesStay(devLst, fs, root, netfsId, socks, st, t);
      BytesStay(socks, st.socks, t.socks);
      sock.clients := clients;
      st := t;
      assert PointersAre(socks, st.socks, devLst);
      Seal();
    }

    method PutDev(sock: Socket, dev: Netdev, a: SockAddr, ghost k: SockId, ghost d: nat)
      requires Coupled() && k < |socks| && k < |st.socks| && socks[k] == sock && d < |devLst| && devLst[d] == dev
      modifies `st, sock`dev, sock`addr
      ensures Coupled() && st == SetSock(old(st), k, old(st).socks[k].(dev := Some(d), addr := a)) && sock.dev == dev
    {
      hide Coupled, BytesAre, TablesAre, PointersAre, Apart;
      Open();
      NodesAllocated(fs.forest);
      ghost var t := SetSock(st, k, st.socks[k].(dev := Some(d), addr := a));
      TablesStay(devLst, fs, root, netfsId, socks, st, t);
      BytesStay(socks, st.socks, t.socks);
      PointAt(sock, dev, a, socks, devLst, st.socks, k, d);
      st := t;
      assert TablesAre(devLst, fs, root, netfsId, socks, st) && BytesAre(socks, st.socks);
      Seal();
    }

    /** `node->data = 0x0`. */
    method DropData(node: Node, ghost j: nat)
      requires Coupled() && j < |st.nodes| && j + 1 < |root.childs| && root.childs[j + 1] == node && node != root
      modifies `st, node`data
      ensures Coupled() && st == old(st).(nodes := old(st).nodes[j := None])
    {
      hide Coupled, BytesAre, PointersAre, DevsAre, Fs.FileSystem.Valid;
      Open();
      NodesAllocated(fs.forest);
      ghost var t := st.(nodes := st.nodes[j := None]);
      ChildrenDiffer(fs, root, netfsId);
      node.data := null;
      st := t;
      assert FsIs(fs, root, netfsId);
      assert DevsAre(devLst, st.devs, socks);
      assert FdsAre(fs, st.fds, root);
      assert NodesAre(root, st.nodes, socks);
      assert NamesAre(root, st.names);
      assert BytesAre(socks, st.socks);
      assert PointersAre(socks, st.socks, devLst);
      Seal();
    }

    /** A frame for socket `k`. */
    method PutBytes(sock: Socket, data: seq<char>, from: SockAddr, ghost k: SockId)
      requires Coupled() && k < |socks| && k < |st.socks| && socks[k] == sock
      requires |st.socks[k].queue| <= RING - 1 && DgramsOk(st.socks[k].dgrams)
      modifies `st, sock`dgrams, sock.Buffer()
      ensures Coupled() && st == SetSock(old(st), k, Arrive(old(st).socks[k], data, from))
    {
      hide Coupled, Apart, BytesAre, TablesAre, PointersAre, Arrive;
      Open();
      ghost var t := SetSock(st, k, Arrive(st.socks[k], data, from));
      NetLinks.ArriveFacts(st.socks[k], data, from);
      NodesAllocated(fs.forest);
      TablesStay(devLst, fs, root, netfsId, socks, st, t);
      PointersStay(socks, st.socks, t.socks, devLst);
      EnqueueAt(sock, data, from, socks, devLst, st.socks, k);
      st := t;
      assert TablesAre(devLst, fs, root, netfsId, socks, st);
      assert PointersAre(socks, st.socks, devLst);
      Seal();
    }

    /** A read of socket `k`. */
    method TakeBytes(sock: Socket, dst: array<char>, n: nat, ghost k: SockId) returns (r: nat, sender: Option<SockAddr>)
      requires Coupled() && k < |socks| && k < |st.socks| && socks[k] == sock && DgramsOk(st.socks[k].dgrams)
      requires n <= dst.Length && forall x | x in socks && x.stream != null :: x.stream.data != dst
      modifies `st, sock`dgrams, sock.Buffer(), dst
      ensures Coupled() && st == SetSock(old(st), k, Take(old(st).socks[k], n).0)
      ensures r == |Take(old(st).socks[k], n).1| <= n && dst[..r] == Take(old(st).socks[k], n).1
      ensures dst[r..] == old(dst[r..]) && sender == Sender(old(st).socks[k])
    {
      hide Coupled, Apart, BytesAre, TablesAre, PointersAre, Take;
      Open();
      ghost var t := SetSock(st, k, Take(st.socks[k], n).0);
      NetLinks.TakeFacts(st.socks[k], n);
      NodesAllocated(fs.forest);
      TablesStay(devLst, fs, root, netfsId, socks, st, t);
      PointersStay(socks, st.socks, t.socks, devLst);
      r, sender := DequeueAt(sock, dst, n, socks, devLst, st.socks, k);
      st := t;
      assert TablesAre(devLst, fs, root, netfsId, socks, st);
      assert PointersAre(socks, st.socks, devLst);
      Seal();
    }

    /** `fs_node_create` below the root for socket `k`. */
    method AddNode(sock: Socket, name: seq<char>, ghost k: SockId, ghost v: nat) returns (node: Node)
      requires Coupled() && k < |socks| && k < |st.socks| && socks[k] == sock && |name| < Fs.NAME_MAX
      requires name == Numerals.Digits(v, 10)
      modifies `st, fs`forest, fs`roots, root`childs, root`first, root.childs`prev, root.childs`next
      ensures Coupled() && st == old(st).(nodes := old(st).nodes + [Some(k)], names := old(st).names + [v])
      ensures root.childs == old(root.childs) + [node] && fresh(node)
      ensures |root.childs| == |st.nodes| + 1
      ensures forall x | x in Repr() :: x in old(Repr()) || fresh(x)
    {
      hide Coupled, BytesAre, PointersAre, DevsAre, Fs.FileSystem.Valid, FsShape.AddLeaf, Nodes, Apart;
      Open();
      NodesAllocated(fs.forest);
      assert fs.fsLst[netfsId].id == netfsId by { TypesKnown(fs, netfsId); }
      var n := fs.NodeCreate(root, name, Reg, sock, netfsId);
      node := n;
      st := st.(nodes := st.nodes + [Some(k)], names := st.names + [v]);
      assert FsIs(fs, root, netfsId);
      assert NodesAre(root, st.nodes, socks);
      assert NamesAre(root, st.names);
      assert DevsAre(devLst, st.devs, socks);
      assert BytesAre(socks, st.socks);
      assert PointersAre(socks, st.socks, devLst);
      Seal();
    }

    /** `fs_fd_alloc` for the newest node. */
    method AddDesc(node: Node) returns (id: int)
      requires Coupled() && st.nodes != [] && |root.childs| == |st.nodes| + 1 && node == root.childs[|st.nodes|]
      modifies `st, fs`fdLst, fs`lastId, fs`issued, node`refCnt
      ensures Coupled() && st == old(st).(fds := old(st).fds + [|old(st).nodes| - 1]) && id == |st.fds|
    {
      hide Coupled, BytesAre, PointersAre, DevsAre, Fs.FileSystem.Valid, Nodes, Apart;
      Open();
      NodesAllocated(fs.forest);
      ChildrenDiffer(fs, root, netfsId);
      var fd := fs.FdAlloc(node, 0xc, 0);
      id := fd.id;
      st := st.(fds := st.fds + [|st.nodes| - 1]);
      assert FsIs(fs, root, netfsId);
      assert NodesAre(root, st.nodes, socks);
      assert NamesAre(root, st.names);
      assert FdsAre(fs, st.fds, root);
      assert DevsAre(devLst, st.devs, socks);
      assert BytesAre(socks, st.socks);
      assert PointersAre(socks, st.socks, devLst);
      Seal();
    }

    /** `fs_node_destroy` on a node with a descriptor fails and changes nothing. */
    method DestroyNode(node: Node, ghost j: nat) returns (r: int)
      requires Coupled() && j + 1 < |root.childs| && node == root.childs[j + 1] && j in st.fds
      modifies fs`forest, Nodes(fs.forest)`childs, Nodes(fs.forest)`parent
      modifies Nodes(fs.forest)`first, Nodes(fs.forest)`prev, Nodes(fs.forest)`next
      ensures Coupled() && r == -1 && fs.forest == old(fs.forest) && root.childs == old(root.childs)
    {
      hide Coupled, BytesAre, PointersAre, DevsAre, FdsAre, NodesAre, NamesAre, FsIs, Apart;
      Open();
      FsIsAllocated(fs, root, netfsId);
      r := DestroyPinned(fs, root, netfsId, node, j, st.fds, st.nodes, st.names, socks);
      assert DevsAre(devLst, st.devs, socks);
      assert BytesAre(socks, st.socks);
      assert PointersAre(socks, st.socks, devLst);
      Seal();
    }

    /** The application starts or stops to wait. */
    ghost method SetBusy(busy: Busy)
      requires Coupled()
      modifies `st
      ensures Coupled() && st == old(st).(busy := busy)
    {
      hide Coupled, BytesAre, PointersAre, TablesAre, Apart;
      Open();
      NodesAllocated(fs.forest);
      TablesStay(devLst, fs, root, netfsId, socks, st, st.(busy := busy));
      st := st.(busy := busy);
      assert TablesAre(devLst, fs, root, netfsId, socks, st);
      Seal();
    }

    /** `fs_fd_acquire`, and the data pointer of the node behind it. */
    method Acquire(id: int) returns (fd: Fs.Desc?, sock: Socket?)
      requires Coupled() && Refers(st)
      ensures Coupled() && (fd == null <==> !KnownFd(st, id))
      ensures fd != null ==> NodeOf(st, id) + 1 < |root.childs| && fd.node == root.childs[NodeOf(st, id) + 1]
      ensures fd != null ==> NodeOf(st, id) < |st.nodes| && sock == Deref(socks, st.nodes[NodeOf(st, id)])
      ensures fd != null ==> fd.node.data == sock
      ensures sock != null <==> Live(st, id)
      ensures sock != null ==> SockOf(st, id) < |socks| && sock == socks[SockOf(st, id)]
    {
      hide BytesAre, PointersAre, DevsAre, Fs.FileSystem.Valid;
      Open();
      AcquireMeans(fs, st.fds, root, id);
      NodesAllocated(fs.forest);
      fd := fs.FdAcquire(id);
      if fd == null {
        sock := null;
      } else {
        ghost var j := NodeOf(st, id);
        assert fd.node == root.childs[j + 1] && fd.node.data == Deref(socks, st.nodes[j]);
        sock := fd.node.data as Socket?;
      }
    }

    /** `sock->dev`. */
    method DevOf(sock: Socket, ghost k: SockId) returns (dev: Netdev)
      requires Coupled() && Bound(st, k) && k < |socks| && socks[k] == sock
      ensures Coupled()
      ensures var d := st.socks[k].dev.value; d < |devLst| && devLst[d] == dev && sock.dev == dev
    {
      hide BytesAre, TablesAre;
      PointersOf(socks, st.socks, devLst, k);
      dev := sock.dev;
    }

    /** `esp->tcp_server == 0x0`. */
    method ServerFree(dev: Netdev, ghost d: nat) returns (free: bool)
      requires Coupled() && Refers(st) && d < |devLst| && devLst[d] == dev && d < |st.devs|
      ensures Coupled() && (free <==> st.devs[d].server.None?)
    {
      hide BytesAre, PointersAre, NodesAre, NamesAre, FdsAre, FsIs;
      TablesServer(devLst, fs, root, netfsId, socks, st, d);
      Open();
      ServerKnown(st, d);
      return dev.server == null;
    }

    /** `sock == esp->tcp_server`. */
    method Serves(dev: Netdev, sock: Socket, ghost d: nat, ghost k: SockId) returns (serves: bool)
      requires Coupled() && Refers(st) && d < |devLst| && devLst[d] == dev && d < |st.devs|
      requires k < |socks| && socks[k] == sock
      ensures Coupled() && (serves <==> st.devs[d].server == Some(k))
    {
      hide BytesAre, PointersAre, NodesAre, NamesAre, FdsAre, FsIs;
      TablesServer(devLst, fs, root, netfsId, socks, st, d);
      ServerKnown(st, d);
      return dev.server == sock;
    }

    // ----- searches

    /** `get_link_id` finds the link that the state says. */
    method LinkOf(dev: Netdev, sock: Socket?, ghost d: nat, ghost x: Option<SockId>) returns (link: int)
      requires Coupled() && Refers(st) && d < |devLst| && devLst[d] == dev && d < |st.devs|
      requires sock == Deref(socks, x) && (x.Some? ==> x.value < |socks|)
      ensures Coupled() && link == FindLink(st.devs[d].links, x) && link < dev.links.Length == |st.devs[d].links|
    {
      hide BytesAre, PointersAre, NodesAre, NamesAre, FdsAre, FsIs, FindLink;
      Open();
      NodesAllocated(fs.forest);
      link := dev.GetLinkId(sock);
      assert DevIs(dev, st.devs[d], socks);
      LinkSearch(socks, st.devs[d].links, dev.links[..], x, link);
    }

    /** `assign_netdev`. */
    method AssignNetdev(sock: Socket, a: SockAddr, addrLen: nat, ghost k: SockId) returns (found: bool)
      requires Coupled() && k < |socks| && k < |st.socks| && socks[k] == sock
      modifies `st, sock`dev, sock`addr
      ensures Coupled() && (st, found) == Assign(old(st), k, a, addrLen)
      ensures found ==> sock.dev != null
    {
      hide Coupled, Apart, BytesAre, PointersAre, NodesAre, NamesAre, FdsAre, FsIs, FindDev, Inet.MatchAddr;
      if addrLen != Inet.ADDR_LEN {
        return false;
      }
      Open();
      var i := 0;
      while i < |devLst|
        invariant i <= |devLst| && forall j | 0 <= j < i :: !Matches(st.devs[j], a, addrLen)
      {
        assert DevIs(devLst[i], st.devs[i], socks);
        if devLst[i].domain == a.domain && Inet.MatchAddr(devLst[i].ip, devLst[i].netmask, a.ip, addrLen) {
          DevSearch(st.devs, a, addrLen, i);
          PutDev(sock, devLst[i], a, k, i);
          return true;
        }
        i := i + 1;
      }
      DevSearch(st.devs, a, addrLen, -1);
      return false;
    }

    // ----- the callbacks of the driver

    /** `recv` of esp01.c: a frame for the socket at `dev.links[link]`. */
    method Recv(dev: Netdev, link: nat, data: seq<char>, from: SockAddr, ghost d: nat)
      requires Coupled() && NetLinks.Inv(st) && d < |devLst| && devLst[d] == dev
               && Enabled(st, Received(d, link, data, from))
      modifies Objects()
      ensures Coupled() && NetLinks.Inv(st) && st == After(old(st), Received(d, link, data, from))
      ensures Objects() == old(Objects()) && socks == old(socks) && unchanged(fs, root`childs, `fdId)
    {
      hide Coupled, TablesAre, NetLinks.Inv, NetSpec.Ok, Arrive, Parts;
      PartsHave(root.childs, socks, devLst);
      Open();
      assert Ok(st) by { NetLinks.InvIsOk(st); }
      TablesLink(devLst, fs, root, netfsId, socks, st, d, link);
      BufferBounds(st, d, link);
      NetLinks.StepKeepsInv(st, Received(d, link, data, from));
      ghost var k := st.devs[d].links[link].value;
      var sock := dev.links[link];
      ghost var t := After(st, Received(d, link, data, from));
      assert t == SetSock(st, k, Arrive(st.socks[k], data, from));
      hide Step;
      PutBytes(sock, data, from, k);
    }

    /** `accept` of esp01.c: a new socket at the link, waiting at the server. */
    method AcceptEvent(dev: Netdev, link: nat, from: SockAddr, ghost d: nat)
      requires Coupled() && NetLinks.Inv(st) && d < |devLst| && devLst[d] == dev && Enabled(st, Accepted(d, link, from))
      modifies Objects()
      ensures Coupled() && NetLinks.Inv(st) && st == After(old(st), Accepted(d, link, from))
      ensures (forall x | x in Objects() :: x in old(Objects()) || fresh(x)) && old(socks) <= socks
              && unchanged(fs, root`childs, `fdId)
    {
      hide Coupled, TablesAre, PointersAre, BytesAre, Apart, NetLinks.Inv, Refers, Bounded, Parts, Step;
      PartsHave(root.childs, socks, devLst);
      Open();
      assert Ok(st) by { NetLinks.InvIsOk(st); }
      NetLinks.StepKeepsInv(st, Accepted(d, link, from));
      AcceptedAs(st, d, link, from);
      TablesServer(devLst, fs, root, netfsId, socks, st, d);
      ServerKnown(st, d);
      if dev.server == null {
        return;
      }
      ghost var k, s, n := st.devs[d].server.value, st, |st.socks|;
      PointersOf(socks, st.socks, devLst, k);
      var server := dev.server;
      var sock := NewSocket(Stream, from);
      PartsGrow(root.childs, old(socks), devLst, sock);
      assert Deref(socks, Some(n)) == sock;
      PutLink(dev, link, sock, d, Some(n));
      Open();
      PutClients(server, server.clients + [sock], k, s.socks[k].clients + [n]);
    }

    /** `netdev_sock_disconnect`: the first node with that data pointer loses it;
        no such node, nothing happens. */
    method SockDisconnect(sock: Socket?, ghost x: Option<SockId>)
      requires Coupled() && Refers(st) && sock == Deref(socks, x) && (x.Some? ==> x.value < |socks|)
      modifies `st, root.childs`data
      ensures Coupled() && st == old(st).(nodes := Disconnect(old(st).nodes, x))
    {
      hide DevsAre, PointersAre, BytesAre, Fs.FileSystem.Valid, FindLink;
      Open();
      ChildrenDiffer(fs, root, netfsId);
      var node := root.first;
      ghost var i := 0;
      while node != null && node.data != sock
        invariant i <= |root.childs| && node == if i < |root.childs| then root.childs[i] else null
        invariant forall j | 0 <= j < i :: root.childs[j].data != sock
        decreases |root.childs| - i
      {
        node := node.next;
        i := i + 1;
      }
      NodeSearch(socks, root, st.nodes, x, i);
      if node != null {
        DropData(node, i - 1);
      }
    }

    /** `closed` of esp01.c. */
    method ClosedEvent(dev: Netdev, link: nat, ghost d: nat)
      requires Coupled() && NetLinks.Inv(st) && d < |devLst| && devLst[d] == dev && Enabled(st, Closed(d, link))
      modifies Objects()
      ensures Coupled() && NetLinks.Inv(st) && st == After(old(st), Closed(d, link))
      ensures Objects() == old(Objects()) && socks == old(socks) && unchanged(fs, root`childs, `fdId)
    {
      hide Coupled, TablesAre, PointersAre, BytesAre, Apart, NetLinks.Inv, Refers, Bounded, Parts, Disconnect;
      PartsHave(root.childs, socks, devLst);
      Open();
      assert Ok(st) by { NetLinks.InvIsOk(st); }
      NetLinks.StepKeepsInv(st, Closed(d, link));
      TablesLink(devLst, fs, root, netfsId, socks, st, d, link);
      LinkKnown(st, d, link);
      UnlinkKeeps(st, d, link);
      ghost var x := st.devs[d].links[link];
      var sock := dev.links[link];
      PutLink(dev, link, null, d, None);
      SockDisconnect(sock, x);
    }

    /** The reader thread calls back for one event. */
    method DeliverOne(e: Event)
      requires Coupled() && NetLinks.Inv(st) && Ok(st) && Async(e) && Enabled(st, e)
      modifies Objects()
      ensures Coupled() && NetLinks.Inv(st) && st == After(old(st), e)
      ensures (forall x | x in Objects() :: x in old(Objects()) || fresh(x)) && old(socks) <= socks
              && unchanged(fs, root`childs, `fdId)
    {
      hide Coupled, NetLinks.Inv, Step, Parts;
      AsyncFacts(st, e);
      Open();
      match e {
        case Received(d, link, data, from) => Recv(devLst[d], link, data, from, d);
        case Accepted(d, link, from) => AcceptEvent(devLst[d], link, from, d);
        case Closed(d, link) => ClosedEvent(devLst[d], link, d);
        case _ =>
      }
    }

    /** While a command waits for its reply the reader thread delivers events. */
    method Deliver(during: seq<Event>)
      requires Coupled() && NetLinks.Inv(st) && Deliverable(st, during)
      modifies Objects()
      ensures Coupled() && NetLinks.Inv(st) && st == Delivered(old(st), during)
      ensures forall x | x in Objects() :: x in old(Objects()) || fresh(x)
      ensures old(socks) <= socks && st.busy == old(st).busy && unchanged(fs, root`childs, `fdId)
      decreases |during|
    {
      hide Coupled, NetLinks.Inv, Step, Parts, Objects;
      if during != [] {
        AsyncFacts(st, during[0]);
        DeliverOne(during[0]);
        Deliver(during[1..]);
      }
    }
  }

  /** An asynchronous event is for a known device and leaves the waiting call alone. */
  lemma AsyncFacts(s: State, e: Event)
    requires Ok(s) && Async(e) && Enabled(s, e)
    ensures After(s, e).busy == s.busy
    ensures match e
            case Received(d, _, _, _) => d < |s.devs|
            case Accepted(d, _, _) => d < |s.devs|
            case Closed(d, _) => d < |s.devs|
            case _ => false
  {
  }

  lemma LinkKnown(s: State, d: nat, link: nat)
    requires Refers(s) && d < |s.devs| && link < |s.devs[d].links|
    ensures s.devs[d].links[link].Some? ==> s.devs[d].links[link].value < |s.socks|
  {
  }

  lemma UnlinkKeeps(s: State, d: nat, link: nat)
    requires Refers(s) && d < |s.devs| && link < |s.devs[d].links|
    ensures Refers(SetLink(s, d, link, None))
  {
  }

  lemma NodeSearch(socks: seq<Socket>, root: Node, nodes: seq<Option<SockId>>, x: Option<SockId>, i: nat)
    requires NodesAre(root, nodes, socks) && NoDup(socks) && (x.Some? ==> x.value < |socks|)
    requires forall j | 0 <= j < |nodes| && nodes[j].Some? :: nodes[j].value < |socks|
    requires i <= |root.childs| && forall j | 0 <= j < i :: root.childs[j].data != Deref(socks, x)
    requires i < |root.childs| ==> root.childs[i].data == Deref(socks, x)
    ensures if i < |root.childs| then i > 0 && FindLink(nodes, x) == i - 1 else FindLink(nodes, x) == -1
  {
    hide FindLink;
    var n := FindLink(nodes, x);
    assert forall j | 0 <= j < |nodes| :: nodes[j] == x <==> root.childs[j + 1].data == Deref(socks, x);
    assert n >= 0 ==> nodes[n] == x;
    if i < |root.childs| {
      assert i > 0;
      assert nodes[i - 1] == x;
    }
  }

  lemma ServerKnown(s: State, d: nat)
    requires Refers(s) && d < |s.devs|
    ensures s.devs[d].server.Some? ==> s.devs[d].server.value < |s.socks|
    ensures |s.devs[d].links| == NLINKS
  {
  }

  /** The three assignments of `accept` make up its step. */
  lemma AcceptedAs(s: State, d: nat, link: nat, from: SockAddr)
    requires Ok(s) && Enabled(s, Accepted(d, link, from))
    ensures s.devs[d].server.Some? ==> s.devs[d].server.value < |s.socks|
    ensures s.devs[d].server.Some? ==>
              var k, n := s.devs[d].server.value, |s.socks|;
              var s1 := SetLink(s.(socks := s.socks + [NetSpec.NewSock(Stream, from)]), d, link, Some(n));
              After(s, Accepted(d, link, from)) == SetSock(s1, k, s1.socks[k].(clients := s.socks[k].clients + [n]))
    ensures s.devs[d].server.None? ==> After(s, Accepted(d, link, from)) == s
  {
    if s.devs[d].server.Some? {
      var k, n := s.devs[d].server.value, NetSpec.NewSock(Stream, from);
      var v := s.socks[k].(clients := s.socks[k].clients + [|s.socks|]);
      assert (s.socks + [n])[k := v] == s.socks[k := v] + [n];
    }
  }

  lemma PointersOf(socks: seq<Socket>, vs: seq<Sock>, devs: seq<Netdev>, k: nat)
    requires PointersAre(socks, vs, devs) && k < |socks|
    ensures socks[k].Points(vs[k], socks, devs)
  {
  }

  lemma TablesServer(devs: seq<Netdev>, fs: Fs.FileSystem, root: Node, netfsId: int, socks: seq<Socket>, s: State,
                     d: nat)
    requires TablesAre(devs, fs, root, netfsId, socks, s) && d < |s.devs|
    ensures d < |devs| && devs[d].server == Deref(socks, s.devs[d].server) && devs[d].links.Length == |s.devs[d].links|
  {
    assert DevIs(devs[d], s.devs[d], socks);
  }

  lemma LinkSearch(socks: seq<Socket>, ws: seq<Option<SockId>>, links: seq<Socket?>, x: Option<SockId>, r: int)
    requires NoDup(socks) && |ws| == |links| && (x.Some? ==> x.value < |socks|)
    requires forall i | 0 <= i < |ws| :: links[i] == Deref(socks, ws[i]) && (ws[i].Some? ==> ws[i].value < |socks|)
    requires -1 <= r < |links|
    requires r >= 0 ==> links[r] == Deref(socks, x) && forall j | 0 <= j < r :: links[j] != Deref(socks, x)
    requires r == -1 ==> forall j | 0 <= j < |links| :: links[j] != Deref(socks, x)
    ensures FindLink(ws, x) == r
  {
    hide FindLink;
    var i := FindLink(ws, x);
    assert forall j | 0 <= j < |ws| :: ws[j] == x <==> links[j] == Deref(socks, x);
    assert i >= 0 ==> ws[i] == x;
    assert r >= 0 ==> ws[r] == x && x in ws;
  }

  lemma DevSearch(ws: seq<Dev>, a: SockAddr, addrLen: nat, r: int)
    requires -1 <= r < |ws|
    requires r >= 0 ==> Matches(ws[r], a, addrLen) && forall j | 0 <= j < r :: !Matches(ws[j], a, addrLen)
    requires r == -1 ==> forall j | 0 <= j < |ws| :: !Matches(ws[j], a, addrLen)
    ensures FindDev(ws, a, addrLen) == r
  {
    hide FindDev;
    var i := FindDev(ws, a, addrLen);
    assert i >= 0 ==> Matches(ws[i], a, addrLen);
  }

  /** The ids in use are exactly 1 up to the number of descriptors. */
  lemma AcquireMeans(fs: Fs.FileSystem, fds: seq<nat>, root: Node, id: int)
    requires fs.Valid() && FdsAre(fs, fds, root)
    ensures id in fs.issued && fs.issued[id] in fs.fdLst <==> 0 < id <= |fds|
    ensures 0 < id <= |fds| ==> fs.issued[id] == fs.fdLst[id - 1]
  {
    if 0 < id <= |fds| {
      assert fs.fdLst[id - 1] in fs.fdLst && fs.fdLst[id - 1].id == id;
    }
  }

  /** A node that a descriptor refers to has a positive counter. */
  lemma Counted(fs: Fs.FileSystem, fds: seq<nat>, root: Node, netfsId: int, j: nat)
    requires FsIs(fs, root, netfsId) && FdsAre(fs, fds, root) && j in fds
    ensures root.childs[j + 1] in Nodes(fs.forest) && root.childs[j + 1].refCnt > 0
  {
    hide Fs.FileSystem.TreeOk, Fs.FileSystem.ListsOk, Fs.FileSystem.DescsOk, Fs.FileSystem.TypesOk, Fs.Refs, Nodes;
    var i :| 0 <= i < |fds| && fds[i] == j;
    assert fs.fdLst[i] in fs.fdLst;
    Fs.RefsZero(fs.fdLst, root.childs[j + 1]);
  }

  lemma FsIsAllocated(fs: Fs.FileSystem, root: Node, netfsId: int)
    requires FsIs(fs, root, netfsId)
    ensures forall n | n in Nodes(fs.forest) :: allocated(n)
  {
    NodesAllocated(fs.forest);
  }

  /** Destroying a node with a descriptor fails and leaves the tree alone. */
  method DestroyPinned(fs: Fs.FileSystem, root: Node, netfsId: int, node: Node, ghost j: nat,
                       ghost fds: seq<nat>, ghost nodes: seq<Option<SockId>>, ghost names: seq<nat>,
                       ghost socks: seq<Socket>) returns (r: int)
    requires FsIs(fs, root, netfsId) && FdsAre(fs, fds, root) && NodesAre(root, nodes, socks) && NamesAre(root, names)
    requires j in fds && j + 1 < |root.childs| && node == root.childs[j + 1]
    modifies fs`forest, Nodes(fs.forest)`childs, Nodes(fs.forest)`parent
    modifies Nodes(fs.forest)`first, Nodes(fs.forest)`prev, Nodes(fs.forest)`next
    ensures FsIs(fs, root, netfsId) && FdsAre(fs, fds, root) && NodesAre(root, nodes, socks) && NamesAre(root, names)
    ensures r == -1 && root.childs == old(root.childs) && fs.forest == old(fs.forest)
  {
    hide Fs.FileSystem.Valid, Nodes, Below, FsShape.Cut, FsShape.Freed, FsShape.KidsOf;
    NodesAllocated(fs.forest);
    Counted(fs, fds, root, netfsId, j);
    ghost var l := FsShape.LinksOf(Nodes(fs.forest));
    r := fs.NodeDestroy(node);
    assert forall n | n in Nodes(fs.forest) :: n.childs == l.childs[n] && n.parent == l.parent[n];
  }

  lemma TypesKnown(fs: Fs.FileSystem, id: int)
    requires fs.Valid() && 0 <= id < |fs.fsLst|
    ensures fs.fsLst[id].id == id
  {
  }

  /** A read of socket `k`, on the buffers. */
  method DequeueAt(sock: Socket, dst: array<char>, n: nat,
                   ghost socks: seq<Socket>, ghost devs: seq<Netdev>, ghost vs: seq<Sock>, ghost k: nat)
    returns (r: nat, sender: Option<SockAddr>)
    requires Apart(socks, devs) && BytesAre(socks, vs) && k < |socks| && socks[k] == sock && DgramsOk(vs[k].dgrams)
    requires n <= dst.Length && forall x | x in socks && x.stream != null :: x.stream.data != dst
    modifies sock`dgrams, sock.Buffer(), dst
    ensures Apart(socks, devs) && BytesAre(socks, vs[k := Take(vs[k], n).0])
    ensures r == |Take(vs[k], n).1| <= n && dst[..r] == Take(vs[k], n).1 && dst[r..] == old(dst[r..])
    ensures sender == Sender(vs[k])
  {
    hide Take;
    r, sender := sock.Dequeue(dst, n, vs[k]);
  }

  /** The children of the root are different nodes, and none is the root. */
  lemma ChildrenDiffer(fs: Fs.FileSystem, root: Node, netfsId: int)
    requires FsIs(fs, root, netfsId)
    ensures NoDup(root.childs) && root !in root.childs && Strung(root)
  {
    FsShape.RepNode(fs.forest, fs.roots, null, root);
    FsShape.KidsNodes(fs.forest, root);
    RepLength(FsShape.KidsOf(fs.forest, root), root.childs, root);
  }

  lemma BytesStay(socks: seq<Socket>, vs: seq<Sock>, ws: seq<Sock>)
    requires BytesAre(socks, vs) && |vs| == |ws|
    requires forall i | 0 <= i < |vs| :: SameBytes(vs[i], ws[i])
    ensures BytesAre(socks, ws)
  {
    forall i | 0 <= i < |socks| ensures socks[i].HoldsBytes(ws[i]) {
      assert socks[i].HoldsBytes(vs[i]);
    }
  }

  /** A new socket shares nothing with the others. */
  lemma AddBytes(socks: seq<Socket>, devs: seq<Netdev>, vs: seq<Sock>, n: Socket, v: Sock)
    requires Apart(socks, devs) && BytesAre(socks, vs) && n !in socks && n.HoldsBytes(v)
    requires n.stream != null ==> forall x | x in socks && x.stream != null ::
               x.stream != n.stream && x.stream.data != n.stream.data
    ensures Apart(socks + [n], devs) && BytesAre(socks + [n], vs + [v])
  {
  }

  method InitFs() returns (f: Fs.FileSystem, id: int, r: Node)
    ensures fresh(f) && fresh(Nodes(f.forest)) && FsIs(f, r, id)
    ensures r in Nodes(f.forest) && forall n | n in r.childs :: n in Nodes(f.forest)
    ensures f.fdLst == [] && f.lastId == 0 && |r.childs| == 1 && r.childs[0].data == r
  {
    hide FsShape.AddLeaf, Fs.FileSystem.Valid;
    f := new Fs.FileSystem();
    id := f.Register(Fs.Ops(true, true), false);
    assert f.fsLst[0].id == id;
    r := f.NodeCreate(null, "socket", Dir, null, id);
  }
}
