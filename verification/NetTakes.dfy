/** Calls that take the link of another socket: a link that is to be closed or occupied
    may be given to a new connection while the command waits for its answer. */
module NetTakes {
  import opened NetSpec
  import opened Options
  import opened NetLinks
  import opened NetRuns
  import opened NetLaws
  import EndToEnd
  import Inet
  import NetNames

  // ----- what events make of a link

  datatype Fate = Kept | Emptied | Given

  /** What one event makes of link `l` of device `d`. */
  function Touch(e: Event, d: nat, l: nat, serving: bool): Fate {
    match e
    case Closed(dev, link) => if dev == d && link == l then Emptied else Kept
    case Accepted(dev, link, _) => if dev == d && link == l && serving then Given else Kept
    case _ => Kept
  }

  /** What a series of events makes of it: the last one that touches it decides. */
  function FateOf(es: seq<Event>, d: nat, l: nat, serving: bool): Fate {
    if es == [] then Kept
    else
      var later := FateOf(es[1..], d, l, serving);
      if later != Kept then later else Touch(es[0], d, l, serving)
  }

  /** A connection came for the link at place `i`, and no close notice after it. */
  ghost predicate LastCame(es: seq<Event>, i: nat, d: nat, l: nat) {
    && i < |es| && es[i].Accepted? && es[i].dev == d && es[i].link == l
    && Closed(d, l) !in es[i + 1..]
  }

  /** Given means: a connection came for the link, and no close notice after it. */
  lemma {:induction false} GivenMeans(es: seq<Event>, d: nat, l: nat, serving: bool)
    ensures FateOf(es, d, l, serving) == Given <==> serving && exists i: nat :: LastCame(es, i, d, l)
  {
    if FateOf(es, d, l, serving) == Given { LastOf(es, d, l, serving); }
    if i: nat :| LastCame(es, i, d, l) && serving { GivenByLast(es, i, d, l); }
  }

  lemma {:induction false} LastOf(es: seq<Event>, d: nat, l: nat, serving: bool)
    requires FateOf(es, d, l, serving) == Given
    ensures serving && exists i: nat :: LastCame(es, i, d, l)
  {
    var rest := es[1..];
    if FateOf(rest, d, l, serving) == Given {
      LastOf(rest, d, l, serving);
      var i: nat :| LastCame(rest, i, d, l);
      assert es[i + 1 + 1..] == rest[i + 1..] && LastCame(es, i + 1, d, l);
    } else {
      NoNoticeLater(rest, d, l, serving);
      assert LastCame(es, 0, d, l);
    }
  }

  lemma {:induction false} GivenByLast(es: seq<Event>, i: nat, d: nat, l: nat)
    requires LastCame(es, i, d, l)
    ensures FateOf(es, d, l, true) == Given
  {
    if i == 0 {
      NoNoticeLater(es[1..], d, l, true);
    } else {
      assert es[1..][i..] == es[i + 1..];
      GivenByLast(es[1..], i - 1, d, l);
    }
  }

  /** Without a close notice for it no link is emptied, and with one it is not kept. */
  lemma {:induction false} NoNoticeLater(es: seq<Event>, d: nat, l: nat, serving: bool)
    ensures Closed(d, l) !in es ==> FateOf(es, d, l, serving) != Emptied
    ensures Closed(d, l) in es ==> FateOf(es, d, l, serving) != Kept
  {
    if es != [] {
      NoNoticeLater(es[1..], d, l, serving);
      assert es == [es[0]] + es[1..];
    }
  }

  lemma TouchMeans(s: State, e: Event, d: nat, l: nat)
    requires Ok(s) && Async(e) && Enabled(s, e) && d < |s.devs| && l < |s.devs[d].links|
    ensures var t, fate := After(s, e), Touch(e, d, l, s.devs[d].server.Some?);
            && d < |t.devs| && l < |t.devs[d].links| && t.devs[d].server == s.devs[d].server
            && t.devs[d].links[l] == match fate
                                     case Kept => s.devs[d].links[l]
                                     case Emptied => None
                                     case Given => Some(|s.socks|)
  {
    hide Arrive, Bounded, FindLink;
  }

  /** What is at the link when the answer comes. */
  lemma {:induction false} FateMeans(s: State, during: seq<Event>, d: nat, l: nat)
    requires Deliverable(s, during) && d < |s.devs| && l < |s.devs[d].links|
    ensures var u, fate := Delivered(s, during), FateOf(during, d, l, s.devs[d].server.Some?);
            && d < |u.devs| && l < |u.devs[d].links|
            && match fate
               case Kept => u.devs[d].links[l] == s.devs[d].links[l]
               case Emptied => u.devs[d].links[l] == None
               case Given => u.devs[d].links[l].Some? && u.devs[d].links[l].value >= |s.socks|
    decreases |during|
  {
    hide Step, Ok, Touch;
    if during != [] {
      TouchMeans(s, during[0], d, l);
      AsyncIsCalm(s, during[0]);
      FateMeans(After(s, during[0]), during[1..], d, l);
    }
  }

  // ----- whole calls

  /** From `u` to `t` some socket other than `k` has lost its link. */
  ghost predicate Takes(u: State, t: State, k: SockId) {
    exists x: SockId, d: nat, l: nat :: x != k && At(u, d, l, x) && !At(t, d, l, x)
  }

  /** A close that returns 0 takes another socket's link exactly if, while it waited, the
      last connection for its link was not followed by a close notice. */
  lemma CloseTakes(s: State, fd: int, rounds: seq<Round>)
    requires Inv(s) && Enabled(s, Close(fd)) && Answered(Step(s, Close(fd)), rounds)
    requires Live(s, fd) && HasDev(s, SockOf(s, fd))
    requires Finish(Step(s, Close(fd)), rounds).1 == Code(0)
    ensures var k := SockOf(s, fd); var d := s.socks[k].dev.value;
            var u, t := Delivered(After(s, Close(fd)), rounds[0].during), Finish(Step(s, Close(fd)), rounds).0;
            && d < |s.devs|
            && (s.devs[d].server == Some(k) ==> !Takes(u, t, k))
            && (s.devs[d].server != Some(k) ==>
                  exists l :: At(s, d, l, k)
                       && (Takes(u, t, k) <==> FateOf(rounds[0].during, d, l, s.devs[d].server.Some?) == Given))
  {
    hide Bounded, FindLink, Deliverable, Delivered, FateOf;
    var k, w := SockOf(s, fd), After(s, Close(fd));
    var u, t := Delivered(w, rounds[0].during), Finish(Step(s, Close(fd)), rounds).0;
    DeliveredIsCalm(w, rounds[0].during);
    if w.busy.InClose? {
      var d, l := w.busy.dev, w.busy.link;
      assert At(s, d, l, k);
      FateMeans(w, rounds[0].during, d, l);
      LinkGoes(u, t, d, l, None, k);
    } else {
      assert forall d2: nat, l2: nat, x: SockId :: At(t, d2, l2, x) <==> At(u, d2, l2, x);
    }
  }

  /** A connect that goes on has picked a free link of a device. */
  lemma ConnectStarts(s: State, fd: int, a: SockAddr, addrLen: nat)
    requires Ok(s) && Enabled(s, Connect(fd, a, addrLen))
    ensures var (w, r) := Step(s, Connect(fd, a, addrLen));
            if r == Waits then
              && KnownFd(s, fd) && w.busy.InConnect? && w.busy.sock == SockOf(s, fd) && w.devs == s.devs
              && |w.socks| == |s.socks| && w.busy.dev < |s.devs| && w.busy.link < |s.devs[w.busy.dev].links|
              && s.devs[w.busy.dev].links[w.busy.link] == None
            else r == Code(-1)
  {
    hide Bounded, Assign, FindLink;
    if KnownFd(s, fd) { AssignFacts(s, SockOf(s, fd), a, addrLen); }
  }

  /** A connect that returns 0 takes another socket's link exactly if the same happened
      to the link that was free when it began. */
  lemma ConnectTakes(s: State, fd: int, a: SockAddr, addrLen: nat, rounds: seq<Round>)
    requires Inv(s) && Enabled(s, Connect(fd, a, addrLen)) && Answered(Step(s, Connect(fd, a, addrLen)), rounds)
    requires Finish(Step(s, Connect(fd, a, addrLen)), rounds).1 == Code(0)
    ensures KnownFd(s, fd)
    ensures var w := After(s, Connect(fd, a, addrLen)); var k := SockOf(s, fd);
            var u, t := Delivered(w, rounds[0].during), Finish(Step(s, Connect(fd, a, addrLen)), rounds).0;
            && w.busy.InConnect? && w.busy.dev < |s.devs| && w.busy.link < |s.devs[w.busy.dev].links|
            && var d, l := w.busy.dev, w.busy.link;
               && s.devs[d].links[l] == None && At(t, d, l, k)
               && (Takes(u, t, k) <==> FateOf(rounds[0].during, d, l, s.devs[d].server.Some?) == Given)
  {
    hide Step, Tidy, Ok, Deliverable, Delivered, FateOf, Takes;
    InvIsOk(s);
    ConnectStarts(s, fd, a, addrLen);
    var w := After(s, Connect(fd, a, addrLen));
    DeliveredIsCalm(w, rounds[0].during);
    var d, l := w.busy.dev, w.busy.link;
    FateMeans(w, rounds[0].during, d, l);
    var u := Delivered(w, rounds[0].during);
    ConnectAnswered(u, rounds);
    LinkGoes(u, Finish((w, Waits), rounds).0, d, l, Some(SockOf(s, fd)), SockOf(s, fd));
  }

  lemma ConnectAnswered(u: State, rounds: seq<Round>)
    requires Ok(u) && u.busy.InConnect? && rounds != [] && Answered(Step(u, Reply(rounds[0].ok)), rounds[1..])
    requires Finish(Step(u, Reply(rounds[0].ok)), rounds[1..]).1 == Code(0)
    ensures u.busy.dev < |u.devs| && u.busy.link < |u.devs[u.busy.dev].links|
    ensures var t := Finish(Step(u, Reply(rounds[0].ok)), rounds[1..]).0;
            t == SetLink(u.(busy := Idle), u.busy.dev, u.busy.link, Some(u.busy.sock))
            && At(t, u.busy.dev, u.busy.link, u.busy.sock)
  {
    hide Bounded, Deliverable, Delivered;
  }

  /** One link is written: who else loses a link is who was there. */
  lemma LinkGoes(u: State, t: State, d: nat, l: nat, y: Option<SockId>, k: SockId)
    requires d < |u.devs| && l < |u.devs[d].links| && t == SetLink(u.(busy := Idle), d, l, y)
             && (y == None || y == Some(k))
    ensures Takes(u, t, k) <==> u.devs[d].links[l].Some? && u.devs[d].links[l].value != k
  {
    assert forall d2: nat, l2: nat, x: SockId ::
        At(t, d2, l2, x) <==> if d2 == d && l2 == l then y == Some(x) else At(u, d2, l2, x);
    if u.devs[d].links[l].Some? && u.devs[d].links[l].value != k {
      assert At(u, d, l, u.devs[d].links[l].value) && !At(t, d, l, u.devs[d].links[l].value);
    }
  }

  // ----- such runs from the start

  /** A listener on the first device, and a connection on its first link accepted. */
  function Served(a: SockAddr, from: SockAddr): seq<Event> {
    [Event.Socket(Stream, AF_INET)] + [Bind(1, a, Inet.ADDR_LEN)] + [Listen(1, 0)] + [Reply(true)]
    + [Accepted(0, 0, from)] + [Accept(1)]
  }

  /** Socket 0 listens, socket 1 has descriptor 2 and the first link. */
  ghost predicate Serving(s: State) {
    && Inv(s) && s.busy == Idle && |s.socks| == 2 && At(s, 0, 0, 1) && NodeAt(s, 1, 1)
    && s.devs[0].server == Some(0) && Live(s, 2) && SockOf(s, 2) == 1 && s.socks[1].dev == Some(0)
  }

  lemma ServedIsServing(s: State, a: SockAddr, from: SockAddr) returns (t: State)
    requires Initial(s) && s.devs != [] && Matches(s.devs[0], a, Inet.ADDR_LEN)
    ensures Runs(s, Served(a, from), t) && Serving(t)
  {
    hide Runs;
    var s4 := NetNames.StartsListening(s, a);
    var es := [Event.Socket(Stream, AF_INET)] + [Bind(1, a, Inet.ADDR_LEN)] + [Listen(1, 0)] + [Reply(true)];
    var s5 := NetNames.OneArrives(s4, [], 0, from);
    RunSnoc(s, es, s4, Accepted(0, 0, from));
    RunSnoc(s, es + [Accepted(0, 0, from)], s5, Accept(1));
    t := AcceptServes(s4, from);
  }

  lemma AcceptServes(s: State, from: SockAddr) returns (t: State)
    requires NetNames.Listening(s, []) && |s.socks| == 1 && s.nodes == [Some(0)] && s.fds == [0]
    requires Enabled(s, Accepted(0, 0, from)) && Inv(After(s, Accepted(0, 0, from)))
    requires Enabled(After(s, Accepted(0, 0, from)), Accept(1))
    ensures t == After(After(s, Accepted(0, 0, from)), Accept(1)) && Serving(t)
  {
    hide Tidy, Bounded;
    var s5 := After(s, Accepted(0, 0, from));
    StepKeepsInv(s5, Accept(1));
    t := After(s5, Accept(1));
  }

  /** A second connection on the link: the first socket keeps its node and descriptor
      but has no link any more. */
  lemma OverwritingRun(s: State, a: SockAddr, from: SockAddr)
    requires Initial(s) && s.devs != [] && Matches(s.devs[0], a, Inet.ADDR_LEN)
    ensures exists t, u :: Runs(s, Served(a, from), t) && Runs(s, Served(a, from) + [Accepted(0, 0, from)], u)
                        && At(t, 0, 0, 1) && Live(t, 2) && SockOf(t, 2) == 1
                        && At(u, 0, 0, 2) && Live(u, 2) && SockOf(u, 2) == 1
                        && forall d, l :: !At(u, d, l, 1)
  {
    hide Step, Tidy, Bounded, Runs;
    var t := ServedIsServing(s, a, from);
    RunSnoc(s, Served(a, from), t, Accepted(0, 0, from));
    EndToEnd.ConnectionOverwrites(t, 0, 0, from, 1);
  }

  /** The same connection while `bos_close` waits for its answer: the call returns 0
      and the new socket, which waits to be accepted, has no link. */
  lemma ClosingRun(s: State, a: SockAddr, from: SockAddr)
    requires Initial(s) && s.devs != [] && Matches(s.devs[0], a, Inet.ADDR_LEN)
    ensures exists u :: Runs(s, Served(a, from) + [Close(2)] + [Accepted(0, 0, from)], u) && At(u, 0, 0, 2)
                     && Inv(u) && Enabled(u, Reply(true)) && Step(u, Reply(true)).1 == Code(0)
                     && Runs(s, Served(a, from) + [Close(2)] + [Accepted(0, 0, from)] + [Reply(true)],
                             After(u, Reply(true)))
                     && forall d, l :: !At(After(u, Reply(true)), d, l, 2)
  {
    hide Step, Tidy, Bounded, Runs;
    var t := ServedIsServing(s, a, from);
    var t1, u := ClosingServed(t, from);
    RunSnoc(s, Served(a, from), t, Close(2));
    RunSnoc(s, Served(a, from) + [Close(2)], t1, Accepted(0, 0, from));
    RunSnoc(s, Served(a, from) + [Close(2)] + [Accepted(0, 0, from)], u, Reply(true));
  }

  lemma ClosingServed(s: State, from: SockAddr) returns (t: State, u: State)
    requires Serving(s)
    ensures Enabled(s, Close(2)) && t == After(s, Close(2)) && Inv(t)
    ensures Enabled(t, Accepted(0, 0, from)) && u == After(t, Accepted(0, 0, from)) && Inv(u)
    ensures At(u, 0, 0, 2) && Enabled(u, Reply(true)) && Step(u, Reply(true)).1 == Code(0)
    ensures forall d, l :: !At(After(u, Reply(true)), d, l, 2)
  {
    hide Bounded;
    StepKeepsInv(s, Close(2));
    t := After(s, Close(2));
    assert t == s.(busy := InClose(0, 0));
    StepKeepsInv(t, Accepted(0, 0, from));
    u := After(t, Accepted(0, 0, from));
    StepKeepsInv(u, Reply(true));
  }

  /** A listener, a second stream and its connect. */
  function Connecting(a: SockAddr): seq<Event> {
    [Event.Socket(Stream, AF_INET)] + [Bind(1, a, Inet.ADDR_LEN)] + [Listen(1, 0)] + [Reply(true)]
    + [Event.Socket(Stream, AF_INET)] + [Connect(2, a, Inet.ADDR_LEN)]
  }

  /** A connection on the free link while `bos_connect` waits for its answer. */
  lemma ConnectingRun(s: State, a: SockAddr, from: SockAddr)
    requires Initial(s) && s.devs != [] && Matches(s.devs[0], a, Inet.ADDR_LEN)
    ensures exists u :: Runs(s, Connecting(a) + [Accepted(0, 0, from)], u) && At(u, 0, 0, 2)
                     && Inv(u) && Enabled(u, Reply(true)) && Step(u, Reply(true)).1 == Code(0)
                     && Runs(s, Connecting(a) + [Accepted(0, 0, from)] + [Reply(true)], After(u, Reply(true)))
                     && forall d, l :: !At(After(u, Reply(true)), d, l, 2)
  {
    hide Step, Tidy, Bounded, Runs;
    var s4 := NetNames.StartsListening(s, a);
    var es := [Event.Socket(Stream, AF_INET)] + [Bind(1, a, Inet.ADDR_LEN)] + [Listen(1, 0)] + [Reply(true)];
    var s5, s6 := ConnectWaits(s4, a);
    RunSnoc(s, es, s4, Event.Socket(Stream, AF_INET));
    RunSnoc(s, es + [Event.Socket(Stream, AF_INET)], s5, Connect(2, a, Inet.ADDR_LEN));
    var u := ConnectingAnswered(s6, from);
    RunSnoc(s, Connecting(a), s6, Accepted(0, 0, from));
    RunSnoc(s, Connecting(a) + [Accepted(0, 0, from)], u, Reply(true));
  }

  lemma ConnectWaits(s: State, a: SockAddr) returns (t: State, u: State)
    requires NetNames.Listening(s, []) && |s.socks| == 1 && s.nodes == [Some(0)] && s.fds == [0]
    requires s.devs[0].links == Unlinked() && Matches(s.devs[0], a, Inet.ADDR_LEN)
    ensures Enabled(s, Event.Socket(Stream, AF_INET)) && t == After(s, Event.Socket(Stream, AF_INET)) && Inv(t)
    ensures Enabled(t, Connect(2, a, Inet.ADDR_LEN)) && u == After(t, Connect(2, a, Inet.ADDR_LEN)) && Inv(u)
    ensures |u.socks| == 2 && u.busy == InConnect(0, 0, 1) && u.devs == s.devs
  {
    hide Tidy, Bounded;
    StepKeepsInv(s, Event.Socket(Stream, AF_INET));
    t := After(s, Event.Socket(Stream, AF_INET));
    StepKeepsInv(t, Connect(2, a, Inet.ADDR_LEN));
    u := After(t, Connect(2, a, Inet.ADDR_LEN));
  }

  lemma ConnectingAnswered(s: State, from: SockAddr) returns (u: State)
    requires Inv(s) && |s.socks| == 2 && s.busy == InConnect(0, 0, 1) && s.devs != [] && s.devs[0].server == Some(0)
    ensures Enabled(s, Accepted(0, 0, from)) && u == After(s, Accepted(0, 0, from)) && Inv(u)
    ensures At(u, 0, 0, 2) && Enabled(u, Reply(true)) && Step(u, Reply(true)).1 == Code(0)
    ensures forall d, l :: !At(After(u, Reply(true)), d, l, 2)
  {
    hide Bounded;
    StepKeepsInv(s, Accepted(0, 0, from));
    u := After(s, Accepted(0, 0, from));
    StepKeepsInv(u, Reply(true));
  }
}
