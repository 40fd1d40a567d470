/** Where the answers to commands come from: the bytes on the wire go through the
    framing to the response check of the handshake and to the callbacks alike. */
module Replies {
  import opened NetSpec
  import opened Options
  import opened NetStack
  import EndToEnd
  import Framing
  import Handshake
  import NetLinks

  /** The lines that reach the response check. */
  function Lines(es: seq<Framing.Event>): seq<seq<char>> {
    if es == [] then [] else (if es[0].Line? then [es[0].text] else []) + Lines(es[1..])
  }

  /** What a command that waits for `response` gets from the events of device `d`. */
  function HeardFrom(d: nat, response: Option<seq<char>>, es: seq<Framing.Event>): Round {
    Round(EndToEnd.Callbacks(d, es), Handshake.LastVerdict(response, Lines(es)) == Handshake.Ok)
  }

  /** And from the bytes that come in while it waits. */
  function Heard(d: nat, response: Option<seq<char>>, input: seq<char>): Round {
    HeardFrom(d, response, Framing.Dispatch([], input))
  }

  /** Whatever the threads do in between: if the lines of the command's window are those
      the framing makes of `input`, then the result that `serial_cmd_wait` returns is
      the answer with which the network machine goes on. */
  lemma HandshakeHears(d: nat, acts: seq<Handshake.Act>, code: int, input: seq<char>)
    requires Handshake.Run(acts + [Handshake.Return(code)]).Some?
    requires Handshake.Window(acts) == Lines(Framing.Dispatch([], input))
    ensures (code == 0) == Heard(d, Handshake.Asked(acts), input).ok && (code == 0 || code == -1)
    ensures Handshake.Decided(Handshake.Asked(acts), Lines(Framing.Dispatch([], input)), code)
  {
    hide Handshake.Run, Framing.Dispatch;
    Handshake.ReturnsLastVerdict(acts, code);
    HeardMeans(d, Handshake.Asked(acts), input);
    Handshake.LastDecides(Handshake.Asked(acts), Handshake.Window(acts));
  }

  /** The answer is good exactly if the last line that starts with what is wanted or
      with "ERROR" starts with what is wanted. */
  lemma HeardMeans(d: nat, response: Option<seq<char>>, input: seq<char>)
    ensures Heard(d, response, input).ok <==>
              Handshake.Decided(response, Lines(Framing.Dispatch([], input)), 0)
  {
    hide Framing.Dispatch, Handshake.Decided;
    Handshake.LastDecides(response, Lines(Framing.Dispatch([], input)));
  }

  /** The reader is handed exactly the lines of the whole wire so far: then the result is
      decided by a stretch of them, and by no line before or after. */
  lemma ResultOnWire(acts: seq<Handshake.Act>, code: int, input: seq<char>)
    requires Handshake.Run(acts + [Handshake.Return(code)]).Some?
    requires Handshake.Arrivals(acts) <= Lines(Framing.Dispatch([], input))
    ensures exists i: nat, j: nat | i <= j <= |Lines(Framing.Dispatch([], input))| ::
              var window := Lines(Framing.Dispatch([], input))[i..j];
              && window == Handshake.Window(acts)
              && Handshake.Decided(Handshake.Asked(acts), window, code)
  {
    var i, j := Handshake.ResultFromLines(acts, code, Lines(Framing.Dispatch([], input)));
  }

  /** No line among the items is an answer to a command that waits for `response`. */
  predicate Unanswered(response: Option<seq<char>>, items: seq<Framing.Item>) {
    forall item | item in items && item.Text? ::
      !(Handshake.Want(response) <= item.text + "\n") && !("ERROR" <= item.text + "\n")
  }

  lemma {:induction false} UnansweredLines(response: Option<seq<char>>, items: seq<Framing.Item>)
    requires Unanswered(response, items)
    ensures forall text | text in Lines(Framing.YieldAll(items)) :: !Handshake.Answers(response, text)
  {
    if items != [] {
      var more := Framing.YieldAll(items[1..]);
      assert ([Framing.Yield(items[0])] + more)[1..] == more;
      UnansweredLines(response, items[1..]);
    }
  }

  lemma {:induction false} YieldSnoc(items: seq<Framing.Item>, item: Framing.Item)
    ensures Framing.YieldAll(items + [item]) == Framing.YieldAll(items) + [Framing.Yield(item)]
  {
    if items == [] {
      assert [item][1..] == [] && [] + [item] == [item];
    } else {
      assert (items + [item])[1..] == items[1..] + [item];
      YieldSnoc(items[1..], item);
    }
  }

  lemma {:induction false} LinesSnoc(es: seq<Framing.Event>, text: seq<char>)
    ensures Lines(es + [Framing.Line(text)]) == Lines(es) + [text]
  {
    var all := es + [Framing.Line(text)];
    if es == [] {
      assert all[1..] == [] && Lines(all) == [text] + Lines([]);
    } else {
      assert all[0] == es[0] && all[1..] == es[1..] + [Framing.Line(text)];
      LinesSnoc(es[1..], text);
      assert Lines(all) == (if es[0].Line? then [es[0].text] else []) + (Lines(es[1..]) + [text]);
    }
  }

  lemma {:induction false} CallbacksSnoc(d: nat, es: seq<Framing.Event>, text: seq<char>)
    ensures EndToEnd.Callbacks(d, es + [Framing.Line(text)]) == EndToEnd.Callbacks(d, es)
  {
    if es == [] {
      assert [Framing.Line(text)][1..] == [];
    } else {
      assert (es + [Framing.Line(text)])[1..] == es[1..] + [Framing.Line(text)];
      CallbacksSnoc(d, es[1..], text);
    }
  }

  /** Frames, close notices and lines that answer nothing, and then the answer: the
      command hears the answer, and the callbacks are those of the items before. */
  lemma AnswerIsHeard(d: nat, response: Option<seq<char>>, items: seq<Framing.Item>, answer: seq<char>)
    requires EndToEnd.AllRenderable(items + [Framing.Text(answer)]) && Unanswered(response, items)
    requires Handshake.Want(response) <= answer + "\n" || "ERROR" <= answer + "\n"
    ensures var round := Heard(d, response, Framing.RenderAll(items + [Framing.Text(answer)]));
            && round.during == EndToEnd.Told(d, items)
            && (round.ok <==> Handshake.Want(response) <= answer + "\n")
  {
    hide Framing.Dispatch, Framing.Renderable, Framing.RenderAll, Handshake.Verdict;
    Handshake.VerdictMeans(response, answer + "\n");
    var all, es, line := items + [Framing.Text(answer)], Framing.YieldAll(items), answer + "\n";
    Framing.RoundTrip(all, []);
    Framing.EndOfWire([]);
    assert Framing.RenderAll(all) + [] == Framing.RenderAll(all);
    assert Framing.YieldAll(all) + [] == Framing.YieldAll(all);
    YieldSnoc(items, Framing.Text(answer));
    LinesSnoc(es, line);
    CallbacksSnoc(d, es, line);
    EndToEnd.CallbacksTell(items, d);
    var lines := Lines(es) + [line];
    assert lines[..|lines| - 1] == Lines(es) && lines[|lines| - 1] == line;
  }

  /** A command over the wire: the reader thread works on the bytes that come in, calls
      back into the stack, and its lines decide the answer. */
  method CommandOverWire(net: Stack, d: nat, response: Option<seq<char>>, input: seq<char>, ghost more: seq<Round>)
    returns (ok: bool)
    requires net.Coupled() && NetLinks.Inv(net.st) && Answered((net.st, Waits), [Heard(d, response, input)] + more)
    modifies net.Objects()
    ensures net.Coupled() && NetLinks.Inv(net.st) && ok == Heard(d, response, input).ok
    ensures ok <==> Handshake.Decided(response, Lines(Framing.Dispatch([], input)), 0)
    ensures net.st == Delivered(old(net.st), Heard(d, response, input).during)
  {
    hide Stack.Coupled, NetLinks.Inv, Stack.Objects, Framing.Dispatch, Step;
    FsTree.NodesAllocated(net.fs.forest);
    net.PartsAllocated();
    var events := Framing.ReadThread(input);
    var round := HeardFrom(d, response, events);
    assert ([round] + more)[0] == round;
    net.Deliver(round.during);
    HeardMeans(d, response, input);
    ok := round.ok;
  }
}
