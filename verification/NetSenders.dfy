/** Who sent the bytes that a datagram socket returns: every byte is told with the sender
    of the frame that brought it. */
module NetSenders {
  import opened NetSpec
  import opened Options
  import opened NetLinks
  import opened NetRuns
  import Fifo

  /** A byte and who sent it; of a stream nobody is told. */
  datatype Byte = Byte(value: char, sender: Option<SockAddr>)

  function Mark(bytes: seq<char>, sender: Option<SockAddr>): (r: seq<Byte>)
    ensures |r| == |bytes| && forall i | 0 <= i < |r| :: r[i] == Byte(bytes[i], sender)
  {
    seq(|bytes|, i requires 0 <= i < |bytes| => Byte(bytes[i], sender))
  }

  function Unread(dgrams: seq<Datagram>): seq<Byte>
    requires DgramsOk(dgrams)
  {
    if dgrams == [] then []
    else Mark(dgrams[0].data[dgrams[0].idx..], Some(dgrams[0].from)) + Unread(dgrams[1..])
  }

  function Pending(sock: Sock): seq<Byte>
    requires DgramsOk(sock.dgrams)
  {
    if sock.kind == Stream then Mark(sock.queue, None) else Unread(sock.dgrams)
  }

  function Readable(s: State, k: SockId): seq<Byte>
    requires Ok(s)
  {
    if k < |s.socks| then Pending(s.socks[k]) else []
  }

  /** What a step brings into socket `k`, and from whom. */
  function InOf(s: State, e: Event, k: SockId): seq<Byte>
    requires Ok(s) && Enabled(s, e)
  {
    if e.Received? && At(s, e.dev, e.link, k)
    then Mark(Fits(s.socks[k], e.data), if s.socks[k].kind == Dgram then Some(e.from) else None) else []
  }

  /** What a step returns from socket `k`, and whom it tells as the sender. */
  function OutOf(s: State, e: Event, k: SockId): seq<Byte>
    requires Ok(s) && Enabled(s, e)
  {
    if e.RecvFrom? && Live(s, e.fd) && SockOf(s, e.fd) == k && Step(s, e).1.Bytes?
    then Mark(Step(s, e).1.bytes, Step(s, e).1.sender) else []
  }

  ghost function Arrived(s: State, es: seq<Event>, k: SockId): seq<Byte>
    decreases |es|
  {
    if es == [] || !Possible(s, es[0]) then []
    else InOf(s, es[0], k) + Arrived(After(s, es[0]), es[1..], k)
  }

  ghost function Returned(s: State, es: seq<Event>, k: SockId): seq<Byte>
    decreases |es|
  {
    if es == [] || !Possible(s, es[0]) then []
    else OutOf(s, es[0], k) + Returned(After(s, es[0]), es[1..], k)
  }

  lemma {:induction false} UnreadSnoc(dgrams: seq<Datagram>, d: Datagram)
    requires DgramsOk(dgrams) && d.idx == 0
    ensures DgramsOk(dgrams + [d]) && Unread(dgrams + [d]) == Unread(dgrams) + Mark(d.data, Some(d.from))
  {
    if dgrams == [] {
      assert [d][1..] == [] && d.data[0..] == d.data;
      assert Unread([d]) == Mark(d.data[0..], Some(d.from)) + Unread([]);
    } else {
      assert (dgrams + [d])[1..] == dgrams[1..] + [d];
      assert (dgrams + [d])[0] == dgrams[0];
      UnreadSnoc(dgrams[1..], d);
    }
  }

  lemma MarkBoth(a: seq<char>, b: seq<char>, sender: Option<SockAddr>)
    ensures Mark(a + b, sender) == Mark(a, sender) + Mark(b, sender)
  {
  }

  lemma ArriveAppends(sock: Sock, data: seq<char>, from: SockAddr)
    requires DgramsOk(sock.dgrams) && |sock.queue| <= RING - 1
    ensures DgramsOk(Arrive(sock, data, from).dgrams)
    ensures Pending(Arrive(sock, data, from))
         == Pending(sock) + Mark(Fits(sock, data), if sock.kind == Dgram then Some(from) else None)
  {
    if sock.kind == Dgram {
      UnreadSnoc(sock.dgrams, Datagram(data, 0, from));
    } else {
      MarkBoth(sock.queue, Fits(sock, data), None);
    }
  }

  lemma TakeSplits(sock: Sock, n: nat)
    requires DgramsOk(sock.dgrams)
    ensures var (rest, bytes) := Take(sock, n);
            DgramsOk(rest.dgrams) && Pending(sock) == Mark(bytes, Sender(sock)) + Pending(rest)
  {
    var (rest, bytes) := Take(sock, n);
    if sock.kind == Stream {
      assert sock.queue == bytes + rest.queue;
      MarkBoth(bytes, rest.queue, None);
    } else if sock.dgrams != [] {
      var d := sock.dgrams[0];
      var m := Fifo.Min(n, |d.data| - d.idx);
      MarkBoth(d.data[d.idx..d.idx + m], d.data[d.idx + m..], Some(d.from));
      assert d.data[d.idx..] == d.data[d.idx..d.idx + m] + d.data[d.idx + m..];
      if d.idx + m == |d.data| {
        assert d.data[d.idx + m..] == [];
      } else {
        assert rest.dgrams[1..] == sock.dgrams[1..];
      }
    }
  }

  lemma StepConserves(s: State, e: Event, k: SockId)
    requires Inv(s) && Enabled(s, e)
    ensures Ok(After(s, e))
    ensures Readable(s, k) + InOf(s, e, k) == OutOf(s, e, k) + Readable(After(s, e), k)
  {
    hide Tidy, Take, Arrive, Pending;
    StepKeepsOk(s, e);
    if e.Received? {
      var i := s.devs[e.dev].links[e.link].value;
      ArriveAppends(s.socks[i], e.data, e.from);
      assert At(s, e.dev, e.link, k) <==> i == k;
    } else if e.RecvFrom? {
      if Live(s, e.fd) { TakeSplits(s.socks[SockOf(s, e.fd)], e.n); }
    } else {
      hide Step;
      OthersKeepBytes(s, e, k);
      PendingSame(s, After(s, e), k);
    }
  }

  lemma PendingSame(s: State, t: State, k: SockId)
    requires Ok(s) && Ok(t)
    requires k < |s.socks| ==> k < |t.socks| && SameBytes(s.socks[k], t.socks[k])
    requires |s.socks| <= k < |t.socks| ==> t.socks[k].queue == [] && t.socks[k].dgrams == []
    ensures Readable(t, k) == Readable(s, k)
  {
  }

  /** Over any run and for any socket: the bytes returned, each with the sender told,
      followed by those still to be read, are those that were there followed by those
      that arrived, each with who sent it. */
  lemma {:induction false} Conservation(s: State, es: seq<Event>, t: State, k: SockId)
    requires Inv(s) && Runs(s, es, t)
    ensures Inv(t) && Readable(s, k) + Arrived(s, es, k) == Returned(s, es, k) + Readable(t, k)
    decreases |es|
  {
    hide Step, Tidy, Ok, InOf, OutOf, Pending;
    if es != [] {
      var e, s1 := es[0], After(s, es[0]);
      StepKeepsInv(s, e);
      StepConserves(s, e, k);
      Conservation(s1, es[1..], t, k);
      Fifo.Exchange(Readable(s, k), InOf(s, e, k), OutOf(s, e, k), Readable(s1, k),
                    Arrived(s1, es[1..], k), Returned(s1, es[1..], k), Readable(t, k));
    }
  }

  /** From the start: the bytes and their senders are a prefix of those that arrived. */
  lemma SendersAreTold(start: State, es: seq<Event>, t: State, k: SockId)
    requires Initial(start) && Runs(start, es, t)
    ensures Returned(start, es, k) <= Arrived(start, es, k)
  {
    InitialInv(start);
    Conservation(start, es, t, k);
    assert [] + Arrived(start, es, k) == Arrived(start, es, k);
  }
}
