/** Commands and their responses: one calling thread and the reader thread share
    `result` and `response` under a mutex and meet at a condition variable.
    Every lock, access, wait and signal is a step of its own. */
module Handshake {
  import opened Options

  datatype Result = Inval | Ok | Err
  datatype Owner = Nobody | Caller | Reader

  /** Where `serial_cmd_start`, `serial_cmd_send` and `serial_cmd_wait` stand. */
  datatype CallerPc =
    | CIdle
    | CLocking                 // in pthread_mutex_lock
    | CReset                   // about to store result
    | CArm                     // about to store response
    | CSending                 // writing the command, mutex held
    | CBlocked                 // in pthread_cond_wait, mutex released
    | CWoken                   // signalled, re-acquiring the mutex
    | CFetch                   // about to load result
    | CUnlock(r: Result)       // about to unlock and return

  /** Where `parse_line` stands in its response check. */
  datatype ReaderPc =
    | RIdle
    | RLocking(text: seq<char>)
    | RClassify(text: seq<char>)
    | RStore(r: Result)
    | RSignal
    | RUnlock

  datatype State = State(
    owner: Owner, result: Result, response: Option<seq<char>>,
    caller: CallerPc, wanted: Option<seq<char>>, reader: ReaderPc)

  datatype Act =
    | Start(response: Option<seq<char>>)
    | Lock
    | Reset
    | Arm
    | Send(bytes: seq<char>)
    | Block
    | Relock
    | Fetch
    | Return(code: int)
    | LineArrives(text: seq<char>)
    | LineLock
    | Classify(text: seq<char>)
    | Store
    | Signal
    | LineUnlock

  /** What a line means when `response` is expected; null stands for "OK". */
  function Verdict(response: Option<seq<char>>, text: seq<char>): Result {
    if response.None? && "OK" <= text then Ok
    else if response.Some? && response.value <= text then Ok
    else if "ERROR" <= text then Err
    else Inval
  }

  function Code(r: Result): int {
    match r case Ok => 0 case Err => -1 case Inval => 1
  }

  /** Statics start zeroed: `result` as RES_OK, `response` as null. */
  const INIT: State := State(Nobody, Ok, None, CIdle, None, RIdle)

  predicate Enabled(s: State, act: Act) {
    match act
    case Start(_) => s.caller == CIdle
    case Lock => s.caller == CLocking && s.owner == Nobody
    case Reset => s.caller == CReset
    case Arm => s.caller == CArm
    case Send(_) => s.caller == CSending
    case Block => s.caller == CSending
    case Relock => s.caller == CWoken && s.owner == Nobody
    case Fetch => s.caller == CFetch
    case Return(code) => s.caller.CUnlock? && code == Code(s.caller.r)
    case LineArrives(_) => s.reader == RIdle
    case LineLock => s.reader.RLocking? && s.owner == Nobody
    case Classify(text) => s.reader == RClassify(text)
    case Store => s.reader.RStore?
    case Signal => s.reader == RSignal
    case LineUnlock => s.reader == RUnlock
  }

  function Next(s: State, act: Act): State
    requires Enabled(s, act)
  {
    match act
    case Start(response) => s.(caller := CLocking, wanted := response)
    case Lock => s.(caller := CReset, owner := Caller)
    case Reset => s.(caller := CArm, result := Inval)
    case Arm => s.(caller := CSending, response := s.wanted)
    case Send(_) => s
    case Block => s.(caller := CBlocked, owner := Nobody)
    case Relock => s.(caller := CFetch, owner := Caller)
    case Fetch => s.(caller := CUnlock(s.result))
    case Return(_) => s.(caller := CIdle, owner := Nobody)
    case LineArrives(text) => s.(reader := RLocking(text))
    case LineLock => s.(reader := RClassify(s.reader.text), owner := Reader)
    case Classify(text) =>
      var r := Verdict(s.response, text);
      s.(reader := if r != Inval then RStore(r) else RUnlock)
    case Store => s.(result := s.reader.r, reader := RSignal)
    case Signal => s.(caller := if s.caller == CBlocked then CWoken else s.caller, reader := RUnlock)
    case LineUnlock => s.(reader := RIdle, owner := Nobody)
  }

  /** The state after a run, if every step of it was possible. */
  function Run(acts: seq<Act>): Option<State> {
    if acts == [] then Some(INIT) else
    var before, act := Run(acts[..|acts| - 1]), acts[|acts| - 1];
    if before.Some? && Enabled(before.value, act) then Some(Next(before.value, act)) else None
  }

  // ----- what a run says, read off its steps alone

  /** The response the last command asked for. */
  function Asked(acts: seq<Act>): Option<seq<char>> {
    if acts == [] then None
    else if acts[|acts| - 1].Start? then acts[|acts| - 1].response
    else Asked(acts[..|acts| - 1])
  }

  /** The lines classified since the caller last released the mutex in its wait. */
  function Window(acts: seq<Act>): seq<seq<char>> {
    if acts == [] || acts[|acts| - 1].Block? then []
    else Window(acts[..|acts| - 1]) + if acts[|acts| - 1].Classify? then [acts[|acts| - 1].text] else []
  }

  /** The verdict of the last line that has one. */
  function LastVerdict(response: Option<seq<char>>, lines: seq<seq<char>>): Result {
    if lines == [] then Inval
    else
      var r := Verdict(response, lines[|lines| - 1]);
      if r != Inval then r else LastVerdict(response, lines[..|lines| - 1])
  }

  /** What a good answer starts with. */
  function Want(response: Option<seq<char>>): seq<char> {
    if response.None? then "OK" else response.value
  }

  /** A line that ends the wait. */
  predicate Answers(response: Option<seq<char>>, text: seq<char>) {
    Want(response) <= text || "ERROR" <= text
  }

  /** The last of the lines that starts with what is wanted or with "ERROR" decides:
      0 if it starts with what is wanted, -1 if not. */
  ghost predicate Decided(response: Option<seq<char>>, lines: seq<seq<char>>, code: int) {
    exists i: nat :: DecidedAt(response, lines, code, i)
  }

  ghost predicate DecidedAt(response: Option<seq<char>>, lines: seq<seq<char>>, code: int, i: nat) {
    && i < |lines| && (Want(response) <= lines[i] || "ERROR" <= lines[i])
    && (forall j | i < j < |lines| :: !(Want(response) <= lines[j]) && !("ERROR" <= lines[j]))
    && code == if Want(response) <= lines[i] then 0 else -1
  }

  lemma VerdictMeans(response: Option<seq<char>>, text: seq<char>)
    ensures Verdict(response, text) == if Want(response) <= text then Ok else if "ERROR" <= text then Err else Inval
  {
  }

  /** There is a verdict exactly if some line decides, and it is that line's. */
  lemma {:induction false} LastDecides(response: Option<seq<char>>, lines: seq<seq<char>>)
    ensures Decided(response, lines, 0) <==> LastVerdict(response, lines) == Ok
    ensures Decided(response, lines, -1) <==> LastVerdict(response, lines) == Err
  {
    hide Verdict, Want;
    if lines != [] {
      var front, last := lines[..|lines| - 1], lines[|lines| - 1];
      VerdictMeans(response, last);
      LastDecides(response, front);
      if Answers(response, last) {
        LastAnswers(response, lines);
      } else {
        FrontDecides(response, front, last, 0);
        FrontDecides(response, front, last, -1);
        assert front + [last] == lines;
      }
    }
  }

  lemma LastAnswers(response: Option<seq<char>>, lines: seq<seq<char>>)
    requires lines != [] && Answers(response, lines[|lines| - 1])
    ensures Decided(response, lines, 0) <==> Want(response) <= lines[|lines| - 1]
    ensures Decided(response, lines, -1) <==> !(Want(response) <= lines[|lines| - 1])
  {
    hide Want;
    var n, code := |lines| - 1, if Want(response) <= lines[|lines| - 1] then 0 else -1;
    assert DecidedAt(response, lines, code, n);
    assert forall c, i: nat :: DecidedAt(response, lines, c, i) ==> i == n;
  }

  lemma FrontDecides(response: Option<seq<char>>, front: seq<seq<char>>, last: seq<char>, code: int)
    requires !Answers(response, last)
    ensures Decided(response, front + [last], code) <==> Decided(response, front, code)
  {
    hide DecidedAt;
    forall i: nat ensures DecidedAt(response, front + [last], code, i) <==> DecidedAt(response, front, code, i) {
      FrontDecidesAt(response, front, last, code, i);
    }
  }

  lemma FrontDecidesAt(response: Option<seq<char>>, front: seq<seq<char>>, last: seq<char>, code: int, i: nat)
    requires !Answers(response, last)
    ensures DecidedAt(response, front + [last], code, i) <==> DecidedAt(response, front, code, i)
  {
    hide Want;
    var lines := front + [last];
    assert lines[|front|] == last && forall j | 0 <= j < |front| :: lines[j] == front[j];
    if i < |front| && Answers(response, front[i]) {
      assert (forall j | i < j < |front| :: !Answers(response, front[j]))
        <==> (forall j | i < j < |lines| :: !Answers(response, lines[j]));
    }
  }

  function Seen(acts: seq<Act>): Result {
    LastVerdict(Asked(acts), Window(acts))
  }

  // ----- the invariant

  predicate CallerOwns(s: State) {
    s.caller in {CReset, CArm, CSending, CFetch} || s.caller.CUnlock?
  }

  predicate ReaderOwns(s: State) {
    s.reader.RClassify? || s.reader.RStore? || s.reader.RSignal? || s.reader.RUnlock?
  }

  /** The caller is between releasing the mutex in its wait and returning. */
  predicate InWindow(s: State) {
    s.caller in {CBlocked, CWoken, CFetch} || s.caller.CUnlock?
  }

  ghost predicate Inv(s: State, asked: Option<seq<char>>, seen: Result) {
    && (s.owner == Caller <==> CallerOwns(s)) && (s.owner == Reader <==> ReaderOwns(s))
    && (s.caller != CIdle ==> s.wanted == asked)
    && (s.caller == CSending ==> s.response == asked && s.result == Inval)
    && (s.caller == CArm ==> s.result == Inval)
    && (s.reader.RStore? ==> s.reader.r != Inval)
    && (InWindow(s) ==>
          && s.response == asked
          && seen == (if s.reader.RStore? then s.reader.r else s.result)
          && (s.caller == CBlocked && !s.reader.RStore? && !s.reader.RSignal? ==> seen == Inval)
          && (s.caller != CBlocked || s.reader.RSignal? ==> s.result != Inval)
          && (s.caller.CUnlock? ==> s.caller.r == seen))
  }

  /** What a step makes of the response asked for and of the verdict seen. */
  predicate Records(act: Act, asked: Option<seq<char>>, seen: Result, asked2: Option<seq<char>>, seen2: Result) {
    && asked2 == (if act.Start? then act.response else asked)
    && match act
       case Start(_) => true
       case Block => seen2 == Inval
       case Classify(text) => seen2 == if Verdict(asked2, text) != Inval then Verdict(asked2, text) else seen
       case _ => seen2 == seen
  }

  lemma CallerKeepsInv(s: State, act: Act, asked: Option<seq<char>>, seen: Result, asked2: Option<seq<char>>,
                       seen2: Result)
    requires Inv(s, asked, seen) && Enabled(s, act) && Records(act, asked, seen, asked2, seen2)
    requires !act.LineArrives? && !act.LineLock? && !act.Classify? && !act.Store? && !act.Signal? && !act.LineUnlock?
    ensures Inv(Next(s, act), asked2, seen2)
  {
    hide Verdict;
  }

  lemma ReaderKeepsInv(s: State, act: Act, asked: Option<seq<char>>, seen: Result, asked2: Option<seq<char>>,
                       seen2: Result)
    requires Inv(s, asked, seen) && Enabled(s, act) && Records(act, asked, seen, asked2, seen2)
    requires act.LineArrives? || act.LineLock? || act.Classify? || act.Store? || act.Signal? || act.LineUnlock?
    ensures Inv(Next(s, act), asked2, seen2)
  {
    hide Verdict;
  }

  /** How the records of a run follow from those of the run without its last step. */
  lemma RecordsOfRun(front: seq<Act>, act: Act)
    ensures Records(act, Asked(front), Seen(front), Asked(front + [act]), Seen(front + [act]))
  {
    hide Verdict;
    var acts := front + [act];
    assert acts[..|acts| - 1] == front;
    if act.Classify? {
      assert (Window(front) + [act.text])[..|Window(front)|] == Window(front);
    } else if !act.Block? {
      assert Window(acts) == Window(front);
    }
  }

  lemma {:induction false} RunKeepsInv(acts: seq<Act>)
    requires Run(acts).Some?
    ensures Inv(Run(acts).value, Asked(acts), Seen(acts))
  {
    hide Inv, Records, Seen, Asked;
    if acts == [] {
      InitInv();
    } else {
      var front, act := acts[..|acts| - 1], acts[|acts| - 1];
      var s := Run(front).value;
      RunKeepsInv(front);
      RecordsOfRun(front, act);
      assert front + [act] == acts;
      if act.LineArrives? || act.LineLock? || act.Classify? || act.Store? || act.Signal? || act.LineUnlock? {
        ReaderKeepsInv(s, act, Asked(front), Seen(front), Asked(acts), Seen(acts));
      } else {
        CallerKeepsInv(s, act, Asked(front), Seen(front), Asked(acts), Seen(acts));
      }
    }
  }

  lemma InitInv()
    ensures Inv(INIT, Asked([]), Seen([]))
  {
  }

  // ----- the guarantees

  /** `serial_cmd_wait` returns what the last line decides that was classified in its
      own window and answers, and there is one: never a result left from before. */
  lemma ReturnsLastVerdict(acts: seq<Act>, code: int)
    requires Run(acts + [Return(code)]).Some?
    ensures Decided(Asked(acts), Window(acts), code)
  {
    hide Verdict, Decided;
    assert (acts + [Return(code)])[..|acts|] == acts;
    RunKeepsInv(acts);
    LastDecides(Asked(acts), Window(acts));
  }

  /** From taking the mutex in `serial_cmd_start` until the wait releases it, no
      line is classified, stored or signalled. */
  lemma {:induction false} QuietWhileSending(before: seq<Act>, during: seq<Act>)
    requires Run(before + [Lock] + during).Some? && Block !in during
    ensures forall act | act in during :: !act.Classify? && !act.Store? && !act.Signal? && !act.LineLock?
    ensures Run(before + [Lock] + during).value.caller in {CReset, CArm, CSending}
    decreases |during|
  {
    var all := before + [Lock] + during;
    if during == [] {
      assert all[..|all| - 1] == before && all[|all| - 1] == Lock;
    } else {
      var front, act := during[..|during| - 1], during[|during| - 1];
      assert all[..|all| - 1] == before + [Lock] + front && all[|all| - 1] == act;
      assert Block !in front;
      QuietWhileSending(before, front);
      RunKeepsInv(before + [Lock] + front);
      forall a | a in during ensures !a.Classify? && !a.Store? && !a.Signal? && !a.LineLock? {
        assert a in front || a == act;
      }
    }
  }

  /** No wakeup is lost: while the caller sleeps and the reader is outside its
      critical section, no line of the window starts with what is wanted or "ERROR". */
  lemma NoWakeupLost(acts: seq<Act>)
    requires Run(acts).Some? && Run(acts).value.caller == CBlocked
    requires !ReaderOwns(Run(acts).value)
    ensures forall text | text in Window(acts) :: !(Want(Asked(acts)) <= text) && !("ERROR" <= text)
  {
    RunKeepsInv(acts);
    InvalMeansNone(Asked(acts), Window(acts));
  }

  lemma {:induction false} InvalMeansNone(response: Option<seq<char>>, lines: seq<seq<char>>)
    ensures LastVerdict(response, lines) == Inval <==> forall text | text in lines :: !Answers(response, text)
  {
    hide Verdict, Want;
    if lines != [] {
      var front, last := lines[..|lines| - 1], lines[|lines| - 1];
      VerdictMeans(response, last);
      InvalMeansNone(response, front);
      assert front + [last] == lines && last in lines;
      assert forall text :: text in lines <==> text in front || text == last;
    }
  }

  /** While a caller sleeps, a line is stored and signalled exactly if it starts with
      what is wanted or with "ERROR", and the signal at its end wakes the caller. */
  lemma MatchingLineWakes(acts: seq<Act>, text: seq<char>)
    requires Run(acts + [Classify(text)]).Some?
    requires Run(acts).Some? && Run(acts).value.caller == CBlocked
    ensures Run(acts + [Classify(text)] + [Store] + [Signal]).Some?
            <==> Want(Asked(acts)) <= text || "ERROR" <= text
    ensures Run(acts + [Classify(text)] + [LineUnlock]).Some?
            <==> !(Want(Asked(acts)) <= text) && !("ERROR" <= text)
    ensures Want(Asked(acts)) <= text || "ERROR" <= text ==>
              Run(acts + [Classify(text)] + [Store] + [Signal]).value.caller == CWoken
  {
    hide Verdict, Run;
    SleeperAwaits(acts);
    VerdictMeans(Asked(acts), text);
    RunOneMore(acts, Classify(text));
    RunOneMore(acts + [Classify(text)], Store);
    RunOneMore(acts + [Classify(text)], LineUnlock);
    RunOneMore(acts + [Classify(text)] + [Store], Signal);
  }

  lemma SleeperAwaits(acts: seq<Act>)
    requires Run(acts).Some? && Run(acts).value.caller == CBlocked
    ensures Run(acts).value.response == Asked(acts)
  {
    RunKeepsInv(acts);
  }

  lemma RunOneMore(acts: seq<Act>, act: Act)
    ensures Run(acts + [act]).Some? <==> Run(acts).Some? && Enabled(Run(acts).value, act)
    ensures Run(acts + [act]).Some? ==> Run(acts + [act]).value == Next(Run(acts).value, act)
  {
    hide Verdict;
    assert (acts + [act])[..|acts|] == acts;
  }

  /** At most one of the two threads is in its critical section. */
  lemma MutualExclusion(acts: seq<Act>)
    requires Run(acts).Some?
    ensures !(CallerOwns(Run(acts).value) && ReaderOwns(Run(acts).value))
  {
    RunKeepsInv(acts);
  }

  // ----- the lines behind a window

  /** The lines handed to the reader's response check. */
  function Arrivals(acts: seq<Act>): seq<seq<char>> {
    if acts == [] then []
    else Arrivals(acts[..|acts| - 1]) + if acts[|acts| - 1].LineArrives? then [acts[|acts| - 1].text] else []
  }

  function Classified(acts: seq<Act>): seq<seq<char>> {
    if acts == [] then []
    else Classified(acts[..|acts| - 1]) + if acts[|acts| - 1].Classify? then [acts[|acts| - 1].text] else []
  }

  /** The line that has arrived and is not classified yet. */
  function Underway(s: State): seq<seq<char>> {
    if s.reader.RLocking? || s.reader.RClassify? then [s.reader.text] else []
  }

  lemma {:induction false} ClassifiedInOrder(acts: seq<Act>)
    requires Run(acts).Some?
    ensures Arrivals(acts) == Classified(acts) + Underway(Run(acts).value)
  {
    if acts != [] {
      ClassifiedInOrder(acts[..|acts| - 1]);
    }
  }

  lemma {:induction false} WindowIsEnd(acts: seq<Act>)
    ensures |Window(acts)| <= |Classified(acts)|
    ensures Window(acts) == Classified(acts)[|Classified(acts)| - |Window(acts)|..]
  {
    if acts != [] && !acts[|acts| - 1].Block? {
      WindowIsEnd(acts[..|acts| - 1]);
    }
  }

  /** If the reader gets its lines from `lines`, then the result of a command is decided
      by a stretch of consecutive ones: those of its own window. */
  lemma ResultFromLines(acts: seq<Act>, code: int, lines: seq<seq<char>>) returns (i: nat, j: nat)
    requires Run(acts + [Return(code)]).Some? && Arrivals(acts) <= lines
    ensures i <= j <= |lines| && Window(acts) == lines[i..j]
    ensures Decided(Asked(acts), lines[i..j], code)
  {
    hide Decided;
    assert (acts + [Return(code)])[..|acts|] == acts;
    ReturnsLastVerdict(acts, code);
    ClassifiedInOrder(acts);
    WindowIsEnd(acts);
    j := |Classified(acts)|;
    i := j - |Window(acts)|;
    assert Classified(acts) == lines[..j];
  }
}
