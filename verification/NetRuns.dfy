/** What holds over whole runs of calls and asynchronous events. */
module NetRuns {
  import opened NetSpec
  import opened Options
  import opened NetLinks
  import Fifo

  /** `es` leads from `s` to `t`, every step being possible. */
  ghost predicate Runs(s: State, es: seq<Event>, t: State)
    decreases |es|
  {
    if es == [] then s == t
    else Ok(s) && Enabled(s, es[0]) && Runs(After(s, es[0]), es[1..], t)
  }

  lemma {:induction false} RunKeepsInv(s: State, es: seq<Event>, t: State)
    requires Inv(s) && Runs(s, es, t)
    ensures Inv(t)
    decreases |es|
  {
    hide Step, Ok, Tidy;
    if es != [] {
      StepKeepsInv(s, es[0]);
      RunKeepsInv(After(s, es[0]), es[1..], t);
    }
  }

  /** A run goes on with any step that is possible. */
  lemma {:induction false} RunSnoc(s: State, es: seq<Event>, t: State, e: Event)
    requires Runs(s, es, t) && Inv(t) && Enabled(t, e)
    ensures Runs(s, es + [e], After(t, e)) && Inv(After(t, e))
    decreases |es|
  {
    hide Step, Ok, Tidy;
    StepKeepsInv(t, e);
    if es == [] {
      assert ([] + [e])[1..] == [];
      InvIsOk(s);
    } else {
      assert (es + [e])[1..] == es[1..] + [e];
      RunSnoc(After(s, es[0]), es[1..], t, e);
    }
  }

  /** Two runs, one after the other. */
  lemma {:induction false} RunsOn(s: State, es: seq<Event>, t: State, fs: seq<Event>, u: State)
    requires Runs(s, es, t) && Runs(t, fs, u)
    ensures Runs(s, es + fs, u)
    decreases |es|
  {
    hide Step, Ok;
    if es == [] {
      assert es + fs == fs;
    } else {
      assert (es + fs)[1..] == es[1..] + fs;
      RunsOn(After(s, es[0]), es[1..], t, fs, u);
    }
  }

  // ----- links

  /** In every reachable state a socket occupies at most one link over all
      devices, and `get_link_id` finds it: the link that send and close act on is
      the only one that holds the socket. */
  lemma LinkIsUnique(start: State, es: seq<Event>, s: State, d: nat, l: nat, k: SockId)
    requires Initial(start) && Runs(start, es, s) && At(s, d, l, k)
    ensures FindLink(s.devs[d].links, Some(k)) == l
    ensures forall d2: nat, l2: nat :: At(s, d2, l2, k) ==> d2 == d && l2 == l
  {
    InitialInv(start);
    RunKeepsInv(start, es, s);
    var i := FindLink(s.devs[d].links, Some(k));
    assert At(s, d, i, k);
  }

  /** A socket has at most one node, and while it waits to be accepted none. */
  lemma NodeIsUnique(start: State, es: seq<Event>, s: State, i: nat, j: nat, k: SockId)
    requires Initial(start) && Runs(start, es, s) && NodeAt(s, i, k) && NodeAt(s, j, k)
    ensures i == j
    ensures forall q: nat, c: nat :: !ClientAt(s, q, c, k)
  {
    InitialInv(start);
    RunKeepsInv(start, es, s);
  }

  // ----- disconnection

  /** `closed` on a link empties it and takes the socket from its one node;
      nothing else changes, and a second `closed` changes nothing at all. */
  lemma ClosedDisconnects(s: State, d: nat, l: nat, k: SockId, j: nat)
    requires Inv(s) && At(s, d, l, k) && NodeAt(s, j, k)
    ensures var t := After(s, Closed(d, l));
            && t.nodes == s.nodes[j := None] && t.socks == s.socks && t.fds == s.fds && t.busy == s.busy
            && t.devs == s.devs[d := s.devs[d].(links := s.devs[d].links[l := None])]
            && Inv(t) && After(t, Closed(d, l)) == t
  {
    var i := FindLink(s.nodes, Some(k));
    assert NodeAt(s, i, k);
    var t := After(s, Closed(d, l));
    StepKeepsInv(s, Closed(d, l));
    var n := FindLink(t.nodes, None);
    assert t.devs[d].links[l] == None;
    assert t.nodes[j] == None && n >= 0;
    assert t.nodes[n := None] == t.nodes;
    assert t.devs[d].links[l := None] == t.devs[d].links;
    assert t.devs[d := t.devs[d]] == t.devs;
  }

  /** Nodes and descriptors are never given up, and a node without socket stays so. */
  lemma StepKeepsNodes(s: State, e: Event)
    requires Inv(s) && Enabled(s, e)
    ensures s.fds <= After(s, e).fds && |s.nodes| <= |After(s, e).nodes|
    ensures forall j | 0 <= j < |s.nodes| && s.nodes[j] == None :: After(s, e).nodes[j] == None
  {
    if e.Connect? || e.Bind? || e.SendTo? { hide Assign; CallKeepsTables(s, e); }
  }

  lemma CallKeepsTables(s: State, e: Event)
    requires Inv(s) && Enabled(s, e) && (e.Connect? || e.Bind? || e.SendTo?)
    ensures After(s, e).nodes == s.nodes && After(s, e).fds == s.fds
    ensures forall k | 0 <= k < |s.socks| :: k < |After(s, e).socks| && SameBytes(s.socks[k], After(s, e).socks[k])
    ensures |After(s, e).socks| == |s.socks|
  {
    hide Assign, Tidy, Bounded, FindLink;
    if Live(s, e.fd) {
      var k := SockOf(s, e.fd);
      match e
      case Connect(_, a, addrLen) => AssignFacts(s, k, a, addrLen);
      case Bind(_, a, addrLen) => AssignFacts(s, k, a, addrLen);
      case SendTo(_, _, to, addrLen) => if to.Some? { AssignFacts(s, k, to.value, addrLen); }
    }
  }

  /** Once a node has lost its socket, every later send and receive through any of
      its descriptors fails, whatever happens in between. */
  lemma {:induction false} DisconnectedForGood(s: State, es: seq<Event>, t: State, j: nat, e: Event)
    requires Inv(s) && Runs(s, es, t) && j < |s.nodes| && s.nodes[j] == None
    requires e.SendTo? || e.RecvFrom?
    requires Enabled(t, e) && NodeOf(t, e.fd) == j
    ensures Inv(t) && Step(t, e) == (t, Code(-1))
    decreases |es|
  {
    if es == [] {
      assert !Live(t, e.fd);
    } else {
      hide Step, Tidy;
      StepKeepsNodes(s, es[0]);
      StepKeepsInv(s, es[0]);
      DisconnectedForGood(After(s, es[0]), es[1..], t, j, e);
    }
  }

  /** Descriptors stay what they are: ids are never taken back or given twice. */
  lemma {:induction false} DescriptorsStay(s: State, es: seq<Event>, t: State)
    requires Inv(s) && Runs(s, es, t)
    ensures s.fds <= t.fds && |s.nodes| <= |t.nodes|
    decreases |es|
  {
    hide Step, Tidy;
    if es != [] {
      StepKeepsNodes(s, es[0]);
      StepKeepsInv(s, es[0]);
      DescriptorsStay(After(s, es[0]), es[1..], t);
    }
  }

  // ----- the bytes

  /** The bytes of the datagrams that have not been read. */
  function Unread(dgrams: seq<Datagram>): seq<char>
    requires DgramsOk(dgrams)
  {
    if dgrams == [] then [] else dgrams[0].data[dgrams[0].idx..] + Unread(dgrams[1..])
  }

  /** What the application can still read from a socket. */
  function Pending(sock: Sock): seq<char>
    requires DgramsOk(sock.dgrams)
  {
    if sock.kind == Stream then sock.queue else Unread(sock.dgrams)
  }

  function Readable(s: State, k: SockId): seq<char>
    requires Ok(s)
  {
    if k < |s.socks| then Pending(s.socks[k]) else []
  }

  /** What a frame adds to a socket: all of a datagram, of a stream what fits. */
  function Fits(sock: Sock, data: seq<char>): seq<char>
    requires |sock.queue| <= RING - 1
  {
    if sock.kind == Stream then Fifo.Fitting(sock.queue, RING - 1, data) else data
  }

  /** What a step puts into socket `k`. */
  function InOf(s: State, e: Event, k: SockId): seq<char>
    requires Ok(s) && Enabled(s, e)
  {
    if e.Received? && At(s, e.dev, e.link, k) then Fits(s.socks[k], e.data) else []
  }

  /** What a step returns from socket `k`. */
  function OutOf(s: State, e: Event, k: SockId): seq<char>
    requires Ok(s) && Enabled(s, e)
  {
    if e.RecvFrom? && Live(s, e.fd) && SockOf(s, e.fd) == k && Step(s, e).1.Bytes? then Step(s, e).1.bytes else []
  }

  /** Over a run: the bytes of the frames routed to `k`, as far as they fitted. */
  ghost function Arrived(s: State, es: seq<Event>, k: SockId): seq<char>
    decreases |es|
  {
    if es == [] || !Possible(s, es[0]) then []
    else InOf(s, es[0], k) + Arrived(After(s, es[0]), es[1..], k)
  }

  /** Over a run: the bytes `bos_recvfrom` returned from `k`. */
  ghost function Returned(s: State, es: seq<Event>, k: SockId): seq<char>
    decreases |es|
  {
    if es == [] || !Possible(s, es[0]) then []
    else OutOf(s, es[0], k) + Returned(After(s, es[0]), es[1..], k)
  }

  ghost predicate Possible(s: State, e: Event) {
    Ok(s) && Enabled(s, e)
  }

  lemma {:induction false} UnreadSnoc(dgrams: seq<Datagram>, d: Datagram)
    requires DgramsOk(dgrams) && d.idx == 0
    ensures DgramsOk(dgrams + [d]) && Unread(dgrams + [d]) == Unread(dgrams) + d.data
  {
    if dgrams == [] {
      assert [d][1..] == [] && d.data[0..] == d.data;
      assert Unread([d]) == d.data[0..] + Unread([]);
    } else {
      assert (dgrams + [d])[1..] == dgrams[1..] + [d];
      assert (dgrams + [d])[0] == dgrams[0];
      UnreadSnoc(dgrams[1..], d);
    }
  }

  /** Arrival appends to what can be read. */
  lemma ArriveAppends(sock: Sock, data: seq<char>, from: SockAddr)
    requires DgramsOk(sock.dgrams) && |sock.queue| <= RING - 1
    ensures DgramsOk(Arrive(sock, data, from).dgrams)
    ensures Pending(Arrive(sock, data, from)) == Pending(sock) + Fits(sock, data)
  {
    if sock.kind == Dgram { UnreadSnoc(sock.dgrams, Datagram(data, 0, from)); }
  }

  /** A read returns the front of what can be read, from a single datagram, and
      leaves the rest; the datagram goes exactly when it is read to its end. */
  lemma TakeSplits(sock: Sock, n: nat)
    requires DgramsOk(sock.dgrams)
    ensures var (rest, bytes) := Take(sock, n);
            DgramsOk(rest.dgrams) && rest.kind == sock.kind && Pending(sock) == bytes + Pending(rest) && |bytes| <= n
    ensures sock.kind == Stream ==> |Take(sock, n).1| == if n < |Pending(sock)| then n else |Pending(sock)|
    ensures sock.kind == Dgram && sock.dgrams != [] ==>
              var d, (rest, bytes) := sock.dgrams[0], Take(sock, n);
              && bytes <= d.data[d.idx..] && (|bytes| == n || bytes == d.data[d.idx..])
              && (if bytes == d.data[d.idx..] then rest.dgrams == sock.dgrams[1..]
                  else rest.dgrams == [d.(idx := d.idx + |bytes|)] + sock.dgrams[1..])
  {
    var (rest, bytes) := Take(sock, n);
    if sock.kind == Stream {
      assert sock.queue == bytes + rest.queue;
    } else if sock.dgrams != [] {
      var d := sock.dgrams[0];
      var m := Fifo.Min(n, |d.data| - d.idx);
      var tail := Unread(sock.dgrams[1..]);
      assert d.data[d.idx..] == d.data[d.idx..d.idx + m] + d.data[d.idx + m..];
      if d.idx + m == |d.data| {
        assert d.data[d.idx + m..] == [];
        assert bytes == d.data[d.idx..];
      } else {
        assert rest.dgrams[1..] == sock.dgrams[1..];
        assert |bytes| == m == n;
        assert |bytes| < |d.data[d.idx..]|;
        assert Unread(rest.dgrams) == d.data[d.idx + m..] + tail;
      }
    }
  }

  /** What a frame loses on a stream is exactly what exceeds the free space. */
  lemma LossIsExcess(sock: Sock, data: seq<char>)
    requires sock.kind == Stream && |sock.queue| <= RING - 1
    ensures Fits(sock, data) <= data
    ensures var left := RING - 1 - |sock.queue|;
            |data| - |Fits(sock, data)| == if |data| > left then |data| - left else 0
  {
  }

  /** One step: what was readable and what came equals what was returned and what
      is readable now. */
  lemma StepConserves(s: State, e: Event, k: SockId)
    requires Inv(s) && Enabled(s, e)
    ensures Ok(After(s, e))
    ensures Readable(s, k) + InOf(s, e, k) == OutOf(s, e, k) + Readable(After(s, e), k)
  {
    hide Tidy, Take, Arrive, Pending;
    StepKeepsOk(s, e);
    if e.Received? {
      var i := s.devs[e.dev].links[e.link].value;
      ArriveAppends(s.socks[i], e.data, e.from);
      assert At(s, e.dev, e.link, k) <==> i == k;
    } else if e.RecvFrom? {
      if Live(s, e.fd) { TakeSplits(s.socks[SockOf(s, e.fd)], e.n); }
    } else {
      hide Step;
      OthersKeepBytes(s, e, k);
      PendingSame(s, After(s, e), k);
    }
  }

  lemma PendingSame(s: State, t: State, k: SockId)
    requires Ok(s) && Ok(t)
    requires k < |s.socks| ==> k < |t.socks| && SameBytes(s.socks[k], t.socks[k])
    requires |s.socks| <= k < |t.socks| ==> t.socks[k].queue == [] && t.socks[k].dgrams == []
    ensures Readable(t, k) == Readable(s, k)
  {
  }

  /** No other step touches the bytes of any socket. */
  lemma OthersKeepBytes(s: State, e: Event, k: SockId)
    requires Inv(s) && Enabled(s, e) && !e.Received? && !e.RecvFrom?
    ensures k < |s.socks| ==> k < |After(s, e).socks| && SameBytes(s.socks[k], After(s, e).socks[k])
    ensures |s.socks| <= k < |After(s, e).socks| ==>
              After(s, e).socks[k].queue == [] && After(s, e).socks[k].dgrams == []
  {
    hide Tidy, Bounded;
    if e.Connect? || e.Bind? || e.SendTo? {
      hide Step;
      CallKeepsTables(s, e);
    }
  }

  /** Over any run and for any socket, stream or datagram: the bytes returned,
      followed by those still readable, are those readable before followed by those
      that arrived and fitted, in order.  What happens to other sockets adds and
      removes nothing. */
  lemma {:induction false} Conservation(s: State, es: seq<Event>, t: State, k: SockId)
    requires Inv(s) && Runs(s, es, t)
    ensures Inv(t) && Readable(s, k) + Arrived(s, es, k) == Returned(s, es, k) + Readable(t, k)
    decreases |es|
  {
    hide Step, Tidy, Ok, InOf, OutOf, Pending;
    if es != [] {
      var e, s1 := es[0], After(s, es[0]);
      StepKeepsInv(s, e);
      StepConserves(s, e, k);
      Conservation(s1, es[1..], t, k);
      Fifo.Exchange(Readable(s, k), InOf(s, e, k), OutOf(s, e, k), Readable(s1, k),
                    Arrived(s1, es[1..], k), Returned(s1, es[1..], k), Readable(t, k));
    }
  }

  /** From the start: what the application has received is a prefix of what arrived. */
  lemma ReturnedIsPrefix(start: State, es: seq<Event>, t: State, k: SockId)
    requires Initial(start) && Runs(start, es, t)
    ensures Returned(start, es, k) <= Arrived(start, es, k)
  {
    InitialInv(start);
    Conservation(start, es, t, k);
    assert [] + Arrived(start, es, k) == Arrived(start, es, k);
  }

  /** The payloads of the frames routed to `k`, whole. */
  ghost function Routed(s: State, es: seq<Event>, k: SockId): seq<char>
    decreases |es|
  {
    if es == [] || !Possible(s, es[0]) then []
    else (if es[0].Received? && At(s, es[0].dev, es[0].link, k) then es[0].data else [])
         + Routed(After(s, es[0]), es[1..], k)
  }

  /** Every frame for `k` meets enough free space, as far as it is a stream. */
  ghost predicate AlwaysFits(s: State, es: seq<Event>, k: SockId)
    decreases |es|
  {
    es != [] && Possible(s, es[0]) ==>
      && (es[0].Received? && At(s, es[0].dev, es[0].link, k) && s.socks[k].kind == Stream ==>
            |es[0].data| <= RING - 1 - |s.socks[k].queue|)
      && AlwaysFits(After(s, es[0]), es[1..], k)
  }

  /** Nothing is lost exactly when the frames always fit; of datagrams nothing is ever. */
  lemma {:induction false} NoLossWhenFitting(s: State, es: seq<Event>, k: SockId)
    ensures |Arrived(s, es, k)| <= |Routed(s, es, k)|
    ensures Arrived(s, es, k) == Routed(s, es, k) <==> AlwaysFits(s, es, k)
    decreases |es|
  {
    hide Step;
    if es != [] && Possible(s, es[0]) {
      var s1, more := After(s, es[0]), es[1..];
      NoLossWhenFitting(s1, more, k);
      if es[0].Received? && At(s, es[0].dev, es[0].link, k) {
        FitsAll(s.socks[k], es[0].data);
        SameStart(Fits(s.socks[k], es[0].data), Arrived(s1, more, k), es[0].data, Routed(s1, more, k));
      } else {
        assert [] + Arrived(s1, more, k) == Arrived(s1, more, k) && [] + Routed(s1, more, k) == Routed(s1, more, k);
      }
    }
  }

  lemma FitsAll(sock: Sock, data: seq<char>)
    requires |sock.queue| <= RING - 1
    ensures Fits(sock, data) <= data
    ensures Fits(sock, data) == data <==> (sock.kind == Stream ==> |data| <= RING - 1 - |sock.queue|)
  {
  }

  lemma SameStart<T>(a: seq<T>, b: seq<T>, c: seq<T>, d: seq<T>)
    requires a <= c && |b| <= |d|
    ensures a + b == c + d <==> a == c && b == d
  {
    if a + b == c + d {
      assert |a| == |c|;
      assert b == (a + b)[|a|..] && d == (c + d)[|c|..];
    }
  }
}
