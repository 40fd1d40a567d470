/** From the bytes on a device's wire to the bytes the application receives. */
module EndToEnd {
  import opened NetSpec
  import opened NetLinks
  import opened NetRuns
  import Framing

  /** The callbacks the reader thread of device `d` makes for what it dispatches.
      A new connection is announced apart from the wire, after the status query. */
  function Callbacks(d: nat, es: seq<Framing.Event>): seq<Event> {
    if es == [] then [] else Callback(d, es[0]) + Callbacks(d, es[1..])
  }

  function Callback(d: nat, e: Framing.Event): seq<Event> {
    match e
    case Received(link, data, addr, port) =>
      if link < 0 then [] else [Received(d, link, data, SockAddr(AF_INET, addr, port))]
    case Closed(link) => if link < 0 then [] else [Closed(d, link)]
    case _ => []
  }

  /** What device `d` has to tell of the items: every frame with its link, payload and
      sender, and every close notice with its link. */
  function Told(d: nat, items: seq<Framing.Item>): seq<Event> {
    if items == [] then []
    else
      (match items[0]
       case Frame(link, data, addr, port) => [Received(d, link, data, SockAddr(AF_INET, addr, port))]
       case CloseNote(link) => [Closed(d, link)]
       case _ => [])
      + Told(d, items[1..])
  }

  /** The callbacks are exactly these, in order. */
  lemma {:induction false} CallbacksTell(items: seq<Framing.Item>, d: nat)
    ensures Callbacks(d, Framing.YieldAll(items)) == Told(d, items)
  {
    if items != [] {
      var more := Framing.YieldAll(items[1..]);
      assert ([Framing.Yield(items[0])] + more)[1..] == more;
      CallbacksTell(items[1..], d);
    }
  }

  /** The callbacks the wire of device `d` accounts for. */
  predicate OffWire(e: Event, d: nat) {
    (e.Received? || e.Closed?) && e.dev == d
  }

  /** These callbacks in a run; calls, connections and other devices come between. */
  function FromWire(es: seq<Event>, d: nat): seq<Event> {
    if es == [] then [] else (if OffWire(es[0], d) then [es[0]] else []) + FromWire(es[1..], d)
  }

  /** The payloads of the frames for link `l`, one after the other. */
  function Payloads(items: seq<Framing.Item>, l: nat): seq<char> {
    if items == [] then []
    else (if items[0].Frame? && items[0].link == l then items[0].data else []) + Payloads(items[1..], l)
  }

  function Sent(es: seq<Event>, d: nat, l: nat): seq<char> {
    if es == [] then []
    else (if es[0].Received? && es[0].dev == d && es[0].link == l then es[0].data else []) + Sent(es[1..], d, l)
  }

  predicate AllRenderable(items: seq<Framing.Item>) {
    forall item | item in items :: Framing.Renderable(item)
  }

  lemma {:induction false} SentFromWire(es: seq<Event>, d: nat, l: nat)
    ensures Sent(FromWire(es, d), d, l) == Sent(es, d, l)
  {
    if es != [] {
      SentFromWire(es[1..], d, l);
      var rest := FromWire(es[1..], d);
      assert [] + rest == rest && ([es[0]] + rest)[1..] == rest;
      assert [] + Sent(es[1..], d, l) == Sent(es[1..], d, l);
    }
  }

  /** The payloads among them. */
  lemma {:induction false} ToldSends(items: seq<Framing.Item>, d: nat, l: nat)
    ensures Sent(Told(d, items), d, l) == Payloads(items, l)
  {
    if items != [] {
      ToldSends(items[1..], d, l);
      var all, rest := Told(d, items), Told(d, items[1..]);
      assert [] + rest == rest && (items[0].Frame? || items[0].CloseNote? ==> all[1..] == rest);
      assert [] + Payloads(items[1..], l) == Payloads(items[1..], l);
    }
  }

  // ----- who keeps its link

  /** The steps that take away what is at link `l` of device `d`. */
  predicate Disturbs(s: State, e: Event, d: nat, l: nat) {
    match e
    case Closed(dev, link) => dev == d && link == l
    case Accepted(dev, link, _) => dev == d && link == l && d < |s.devs| && s.devs[d].server.Some?
    case Reply(ok) => ok && Claimed(s.busy, d, l)
    case _ => false
  }

  /** A command is under way that will close or occupy link `l` of device `d`. */
  predicate Claimed(busy: Busy, d: nat, l: nat) {
    match busy
    case InConnect(dev, link, _) => dev == d && link == l
    case InClose(dev, link) => dev == d && link == l
    case _ => false
  }

  /** A socket loses its link in exactly these steps. */
  lemma LinkStays(s: State, e: Event, d: nat, l: nat, k: SockId)
    requires Inv(s) && Enabled(s, e) && At(s, d, l, k)
    ensures At(After(s, e), d, l, k) <==> !Disturbs(s, e, d, l)
  {
    if e.Connect? || e.Bind? || e.SendTo? {
      hide Step;
      AssigningStays(s, e, d, l, k);
    } else {
      hide Bounded, FindLink, Take, Arrive;
    }
  }

  lemma AssigningStays(s: State, e: Event, d: nat, l: nat, k: SockId)
    requires Ok(s) && Enabled(s, e) && At(s, d, l, k)
    requires e.Connect? || e.Bind? || e.SendTo?
    ensures At(After(s, e), d, l, k)
    ensures Claimed(After(s, e).busy, d, l) ==> Claimed(s.busy, d, l)
  {
    hide Bounded, Assign, FindLink;
    match e
    case Connect(fd, a, addrLen) => if KnownFd(s, fd) { AssignFacts(s, SockOf(s, fd), a, addrLen); }
    case Bind(fd, a, addrLen) => AssignFacts(s, SockOf(s, fd), a, addrLen);
    case SendTo(fd, _, to, addrLen) =>
      if Live(s, fd) && to.Some? { AssignFacts(s, SockOf(s, fd), to.value, addrLen); }
  }

  /** A connection on an occupied link: the socket that was there is at no link any
      more, but every node keeps its socket. */
  lemma ConnectionOverwrites(s: State, d: nat, l: nat, from: SockAddr, k: SockId)
    requires Inv(s) && Enabled(s, Accepted(d, l, from)) && At(s, d, l, k) && s.devs[d].server.Some?
    ensures var t := After(s, Accepted(d, l, from));
            && t.nodes == s.nodes && t.fds == s.fds && At(t, d, l, |s.socks|)
            && forall d2: nat, l2: nat :: !At(t, d2, l2, k)
  {
    hide Bounded;
    var t := After(s, Accepted(d, l, from));
    assert forall d2: nat, l2: nat, x :: At(t, d2, l2, x) ==>
             At(s, d2, l2, x) || (d2 == d && l2 == l && x == |s.socks|);
  }

  /** No step of the run takes away what is at the link. */
  ghost predicate Keeps(s: State, es: seq<Event>, d: nat, l: nat)
    decreases |es|
  {
    es != [] && Possible(s, es[0]) ==> !Disturbs(s, es[0], d, l) && Keeps(After(s, es[0]), es[1..], d, l)
  }

  /** The socket is at the link all the time. */
  ghost predicate Stays(s: State, es: seq<Event>, d: nat, l: nat, k: SockId)
    decreases |es|
  {
    At(s, d, l, k) && (es != [] && Possible(s, es[0]) ==> Stays(After(s, es[0]), es[1..], d, l, k))
  }

  lemma {:induction false} StaysIffKept(s: State, es: seq<Event>, d: nat, l: nat, k: SockId)
    requires Inv(s) && At(s, d, l, k)
    ensures Stays(s, es, d, l, k) <==> Keeps(s, es, d, l)
    decreases |es|
  {
    hide Step, Ok, Disturbs, Tidy;
    if es != [] && Possible(s, es[0]) {
      LinkStays(s, es[0], d, l, k);
      StepKeepsInv(s, es[0]);
      if At(After(s, es[0]), d, l, k) { StaysIffKept(After(s, es[0]), es[1..], d, l, k); }
    }
  }

  /** What the application and the network must not do, so that socket `k` keeps its
      link: close it through one of its descriptors, have the module close its link,
      or accept a connection on it. */
  predicate Touches(s: State, e: Event, d: nat, l: nat, k: SockId) {
    match e
    case Close(fd) => Live(s, fd) && SockOf(s, fd) == k
    case Closed(dev, link) => dev == d && link == l
    case Accepted(dev, link, _) => dev == d && link == l && d < |s.devs| && s.devs[d].server.Some?
    case _ => false
  }

  ghost predicate Spares(s: State, es: seq<Event>, d: nat, l: nat, k: SockId)
    decreases |es|
  {
    es != [] && Possible(s, es[0]) ==> !Touches(s, es[0], d, l, k) && Spares(After(s, es[0]), es[1..], d, l, k)
  }

  lemma SparedStep(s: State, e: Event, d: nat, l: nat, k: SockId)
    requires Inv(s) && Enabled(s, e) && At(s, d, l, k) && !Claimed(s.busy, d, l) && !Touches(s, e, d, l, k)
    ensures !Disturbs(s, e, d, l) && !Claimed(After(s, e).busy, d, l)
  {
    if e.Connect? || e.Bind? || e.SendTo? {
      hide Step;
      AssigningStays(s, e, d, l, k);
    } else {
      hide Bounded, Tidy, Take, Arrive;
    }
  }

  /** Then it keeps it, whatever happens to other sockets and links. */
  lemma {:induction false} SparedKeeps(s: State, es: seq<Event>, d: nat, l: nat, k: SockId)
    requires Inv(s) && At(s, d, l, k) && !Claimed(s.busy, d, l) && Spares(s, es, d, l, k)
    ensures Keeps(s, es, d, l)
    decreases |es|
  {
    hide Step, Ok, Disturbs, Touches, Claimed, Tidy;
    if es != [] && Possible(s, es[0]) {
      SparedStep(s, es[0], d, l, k);
      LinkStays(s, es[0], d, l, k);
      StepKeepsInv(s, es[0]);
      SparedKeeps(After(s, es[0]), es[1..], d, l, k);
    }
  }

  // ----- the whole way

  /** While a socket keeps its link, exactly the frames for that link reach it. */
  lemma {:induction false} RoutedIsSent(s: State, es: seq<Event>, t: State, d: nat, l: nat, k: SockId)
    requires Inv(s) && Runs(s, es, t) && At(s, d, l, k) && Keeps(s, es, d, l)
    ensures Routed(s, es, k) == Sent(es, d, l) && At(t, d, l, k)
    decreases |es|
  {
    hide Step, Ok, Disturbs;
    if es != [] {
      InvIsOk(s);
      LinkStays(s, es[0], d, l, k);
      StepKeepsInv(s, es[0]);
      RoutedIsSent(After(s, es[0]), es[1..], t, d, l, k);
      assert es[0].Received? && At(s, es[0].dev, es[0].link, k) ==> es[0].dev == d && es[0].link == l;
    }
  }

  /** Rendered onto a wire, lines, frames and notices come out of the reader thread as
      callbacks for exactly the frames and close notices, with the payloads for every
      link in order. */
  lemma WireToCallbacks(items: seq<Framing.Item>, d: nat, l: nat)
    requires AllRenderable(items)
    ensures Callbacks(d, Framing.Dispatch([], Framing.RenderAll(items))) == Told(d, items)
    ensures Sent(Told(d, items), d, l) == Payloads(items, l)
  {
    hide Framing.Dispatch;
    Framing.RoundTrip(items, []);
    Framing.EndOfWire([]);
    assert Framing.RenderAll(items) + [] == Framing.RenderAll(items);
    assert Framing.YieldAll(items) + [] == Framing.YieldAll(items);
    CallbacksTell(items, d);
    ToldSends(items, d, l);
  }

  /** A socket that keeps its link reads the payloads sent to that link, in order,
      apart from what it has not read yet, if they found room; and if not, a prefix
      of what did. */
  lemma LinkToApplication(s: State, es: seq<Event>, t: State, d: nat, l: nat, k: SockId)
    requires Inv(s) && Runs(s, es, t) && At(s, d, l, k) && Keeps(s, es, d, l)
    ensures Inv(t) && At(t, d, l, k) && Returned(s, es, k) <= Readable(s, k) + Arrived(s, es, k)
    ensures AlwaysFits(s, es, k) <==> Readable(s, k) + Sent(es, d, l) == Returned(s, es, k) + Readable(t, k)
  {
    hide Step, Ok, Tidy;
    RoutedIsSent(s, es, t, d, l, k);
    Conservation(s, es, t, k);
    NoLossWhenFitting(s, es, k);
    if Readable(s, k) + Sent(es, d, l) == Readable(s, k) + Arrived(s, es, k) {
      SameTail(Readable(s, k), Sent(es, d, l), Arrived(s, es, k));
    }
  }

  lemma SameTail<T>(a: seq<T>, b: seq<T>, c: seq<T>)
    requires a + b == a + c
    ensures b == c
  {
    assert b == (a + b)[|a|..] && c == (a + c)[|a|..];
  }

  /** The whole way: lines, frames and close notices are rendered onto the wire of
      device `d`, and its reader thread makes the callbacks in the midst of any calls,
      any connections and any events of other devices.  Socket `k` keeps its link `l`.
      Then the application reads exactly the payloads for `l`, in order, apart from
      what is still to be read, if and only if they always found room. */
  lemma WireToApplication(s: State, es: seq<Event>, t: State, d: nat, l: nat, k: SockId, items: seq<Framing.Item>)
    requires Inv(s) && Runs(s, es, t) && At(s, d, l, k) && Keeps(s, es, d, l)
    requires AllRenderable(items) && FromWire(es, d) == Callbacks(d, Framing.Dispatch([], Framing.RenderAll(items)))
    ensures Inv(t) && At(t, d, l, k) && Returned(s, es, k) <= Readable(s, k) + Arrived(s, es, k)
    ensures AlwaysFits(s, es, k) <==> Readable(s, k) + Payloads(items, l) == Returned(s, es, k) + Readable(t, k)
  {
    hide Framing.Dispatch, Framing.RenderAll, AllRenderable, Callbacks, Step, Ok, Tidy, Returned, Arrived, Readable,
         AlwaysFits;
    WireToCallbacks(items, d, l);
    SentFromWire(es, d, l);
    LinkToApplication(s, es, t, d, l, k);
  }
}
