/** Sockets and devices as objects that point at each other, and what it means
    that they are what a state of `NetSpec` says. */
module NetObjects {
  import opened NetSpec
  import opened Options
  import Fifo
  import Inet
  import Ringbuf

  /** `netdev_t` with the link table of its `esp_t`. */
  class Netdev {
    const domain: int
    const ip: Inet.Addr
    const netmask: Inet.Addr
    const links: array<Socket?>
    var server: Socket?

    constructor (domain: int, ip: Inet.Addr, netmask: Inet.Addr)
      ensures this.domain == domain && this.ip == ip && this.netmask == netmask && server == null
      ensures fresh(links) && links.Length == NLINKS && forall i | 0 <= i < NLINKS :: links[i] == null
    {
      this.domain, this.ip, this.netmask, server := domain, ip, netmask, null;
      links := new Socket?[NLINKS](_ => null);
    }

    /** `get_link_id`. */
    method GetLinkId(sock: Socket?) returns (r: int)
      ensures -1 <= r < links.Length
      ensures r >= 0 ==> links[r] == sock && forall j | 0 <= j < r :: links[j] != sock
      ensures r == -1 ==> forall j | 0 <= j < links.Length :: links[j] != sock
    {
      var i := 0;
      while i < links.Length
        invariant i <= links.Length && forall j | 0 <= j < i :: links[j] != sock
      {
        if links[i] == sock {
          return i;
        }
        i := i + 1;
      }
      return -1;
    }
  }

  class Socket {
    const kind: SockKind
    var dev: Netdev?
    const stream: Ringbuf.Ring?
    var dgrams: seq<Datagram>
    var clients: seq<Socket>
    var addr: SockAddr

    /** `netdev_sock_alloc`. */
    constructor (kind: SockKind, addr: SockAddr)
      ensures this.kind == kind && dev == null && dgrams == [] && clients == [] && this.addr == addr
      ensures kind == Stream ==> stream != null && fresh(stream) && fresh(stream.data) && stream.Valid()
      ensures kind == Stream ==> stream.size == RING && stream.Contents() == []
      ensures kind == Dgram ==> stream == null
    {
      this.kind, this.addr := kind, addr;
      dev, dgrams, clients := null, [], [];
      if kind == Stream {
        var data := new char[RING];
        stream := new Ringbuf.Ring(data, RING);
      } else {
        stream := null;
      }
    }

    /** The ring and its array, if it has one. */
    ghost function Buffer(): set<object> {
      if stream == null then {} else var ring: Ringbuf.Ring := stream; {ring, ring.data}
    }

    /** The buffers are what `v` says. */
    ghost predicate HoldsBytes(v: Sock)
      reads `dgrams, stream, if stream == null then {} else {stream.data}
    {
      && kind == v.kind && dgrams == v.dgrams
      && (if kind == Stream then stream != null && stream.Valid() && stream.size == RING && stream.Contents() == v.queue
          else stream == null && v.queue == [])
    }

    /** The pointers and the address are what `v` says. */
    ghost predicate Points(v: Sock, socks: seq<Socket>, devs: seq<Netdev>)
      reads `addr, `dev, `clients
    {
      && addr == v.addr && dev == DerefDev(devs, v.dev) && (v.dev.Some? ==> v.dev.value < |devs|)
      && |clients| == |v.clients|
      && forall i | 0 <= i < |v.clients| :: v.clients[i] < |socks| && clients[i] == socks[v.clients[i]]
    }

    /** `recv` of esp01.c from the socket on: queue a datagram, or what fits. */
    method Enqueue(data: seq<char>, from: SockAddr, ghost v: Sock)
      requires HoldsBytes(v) && |v.queue| <= RING - 1
      modifies `dgrams, Buffer()
      ensures HoldsBytes(Arrive(v, data, from))
    {
      if kind == Dgram {
        dgrams := dgrams + [Datagram(data, 0, from)];
      } else {
        var src := new char[|data|](i requires 0 <= i < |data| => data[i]);
        assert src[..] == data;
        var w := stream.Write(src, |data|);
      }
    }

    /** `bos_recvfrom` from the socket on: the bytes go to `dst`, and the sender of a
        datagram is told. */
    method Dequeue(dst: array<char>, n: nat, ghost v: Sock) returns (r: nat, sender: Option<SockAddr>)
      requires HoldsBytes(v) && DgramsOk(v.dgrams) && n <= dst.Length && (stream != null ==> dst != stream.data)
      modifies `dgrams, (if stream == null then {} else {stream})`rd, dst
      ensures HoldsBytes(Take(v, n).0)
      ensures r == |Take(v, n).1| <= n && dst[..r] == Take(v, n).1 && dst[r..] == old(dst[r..])
      ensures sender == Sender(v)
    {
      sender := None;
      if kind == Dgram {
        if dgrams == [] {
          return 0, None;
        }
        var d := dgrams[0];
        sender := Some(d.from);
        r := Fifo.Min(n, |d.data| - d.idx);
        forall i | 0 <= i < r {
          dst[i] := d.data[d.idx + i];
        }
        d := d.(idx := d.idx + r);
        dgrams := if d.idx == |d.data| then dgrams[1..] else dgrams[0 := d];
      } else {
        r := stream.Read(dst, n);
      }
    }
  }

  function DerefDev(devs: seq<Netdev>, x: Option<nat>): Netdev? {
    if x.Some? && x.value < |devs| then devs[x.value] else null
  }

  function Deref(socks: seq<Socket>, x: Option<SockId>): Socket? {
    if x.Some? && x.value < |socks| then socks[x.value] else null
  }
}
