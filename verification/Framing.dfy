/** What the serial reader thread makes of the bytes on the wire.  `Dispatch` is
    the meaning: it looks at nothing but the bytes received since the last
    dispatch.  The thread itself works in one line buffer that is never cleared. */
module Framing {
  import opened Numerals
  import opened Inet
  import Fifo

  datatype Event =
    | Received(link: int, data: seq<char>, addr: Addr, port: nat)
    | Connected(link: int)
    | Closed(link: int)
    | Line(text: seq<char>)

  const LINE_MAX: nat := 63   // the buffer of 64 keeps one place for the terminator
  const SIZE_T: nat := 0x1_0000_0000_0000_0000
  const PORTS: nat := 0x1_0000
  const LINK_ID: nat := 5     // room for the text of a link number
  const INT_MAX: nat := 0x7FFF_FFFF   // what `atoi` can return

  /** What of the bytes since the last dispatch is in the line buffer. */
  function Stored(bytes: seq<char>): seq<char> {
    bytes[..Fifo.Min(|bytes|, LINE_MAX)]
  }

  predicate StartsFrame(bytes: seq<char>) {
    |bytes| >= 4 && bytes[..4] == "+IPD"
  }

  predicate EndsConnect(line: seq<char>) {
    |line| >= 9 && line[|line| - 9..|line| - 1] == ",CONNECT"
  }

  predicate EndsClosed(line: seq<char>) {
    |line| >= 8 && line[|line| - 8..|line| - 1] == ",CLOSED"
  }

  /** A C string: the characters in front of the terminator. */
  function CStr(s: seq<char>): seq<char> {
    if s == [] || s[0] == '\0' then [] else [s[0]] + CStr(s[1..])
  }

  /** Walks back from `from` to a comma, or to the start. */
  function LastComma(s: seq<char>, from: nat): (p: nat)
    requires from < |s|
    ensures p <= from
  {
    if s[from] == ',' || from == 0 then from else LastComma(s, from - 1)
  }

  function FirstComma(s: seq<char>): (p: nat)
    ensures p <= |s| && ',' !in s[..p] && (p < |s| ==> s[p] == ',')
  {
    if s == [] || s[0] == ',' then 0 else 1 + FirstComma(s[1..])
  }

  /** A field cut off: its text, where its comma was, and the buffer with that
      comma overwritten by a terminator. */
  datatype Piece = Piece(text: seq<char>, p: nat, buffer: seq<char>)

  function CutOff(l: seq<char>, from: nat): (c: Piece)
    requires from < |l|
    ensures c.p <= from && |c.buffer| == |l|
  {
    var p := LastComma(l, from);
    Piece(CStr(l[p + 1..]), p, l[p := '\0'])
  }

  datatype Header = Header(link: int, size: nat, addr: Addr, port: nat)

  /** The fields of "+IPD,link,size,ip,port:", cut off from the end. */
  function Fields(line: seq<char>): Header {
    var port := CutOff(line + ['\0'], |line|);
    var addr := CutOff(port.buffer, port.p);
    var size := CutOff(addr.buffer, addr.p);
    var link := CutOff(size.buffer, size.p);
    Header(Atoi(link.text), Atoi(size.text) % SIZE_T, Parse(addr.text), Atoi(port.text) % PORTS)
  }

  /** How many of the bytes after a frame header belong to the frame. */
  function PayloadSize(line: seq<char>, rest: seq<char>): (n: nat)
    ensures n <= |rest|
  {
    Fifo.Min(Fields(line).size, |rest|)
  }

  function FrameEvent(line: seq<char>, rest: seq<char>): Event {
    var h := Fields(line);
    Received(h.link, rest[..PayloadSize(line, rest)], h.addr, h.port)
  }

  function LineEvent(line: seq<char>): Event {
    var first := CStr(line[..FirstComma(line)]);
    if EndsConnect(line) then Connected(Atoi(first[..Fifo.Min(|first|, LINK_ID)]))
    else if EndsClosed(line) then Closed(Atoi(first))
    else Line(line)
  }

  /** The events for `input` when `bytes` came since the last dispatch. */
  function Dispatch(bytes: seq<char>, input: seq<char>): seq<Event>
    decreases |input|
  {
    if input == [] then [] else
    var all, rest := bytes + [input[0]], input[1..];
    if input[0] == ':' && StartsFrame(all) then
      [FrameEvent(Stored(all), rest)] + Dispatch([], rest[PayloadSize(Stored(all), rest)..])
    else if input[0] == '\n' then
      [LineEvent(Stored(all))] + Dispatch([], rest)
    else
      Dispatch(all, rest)
  }

  // ----- rendering

  datatype Item =
    | Text(text: seq<char>)
    | Frame(link: nat, data: seq<char>, addr: Addr, port: nat)
    | OpenNote(link: nat)
    | CloseNote(link: nat)

  function HeaderText(link: nat, size: nat, addr: Addr, port: nat): seq<char> {
    "+IPD," + Digits(link, 10) + "," + Digits(size, 10) + "," + Inet.Text(addr) + "," + Digits(port, 10) + ":"
  }

  function Render(item: Item): seq<char> {
    match item
    case Text(t) => t + "\n"
    case Frame(link, data, addr, port) => HeaderText(link, |data|, addr, port) + data
    case OpenNote(link) => Digits(link, 10) + ",CONNECT\n"
    case CloseNote(link) => Digits(link, 10) + ",CLOSED\n"
  }

  function RenderAll(items: seq<Item>): seq<char> {
    if items == [] then [] else Render(items[0]) + RenderAll(items[1..])
  }

  /** The lines that reach the response check as themselves. */
  predicate Plain(t: seq<char>) {
    && !(StartsFrame(t) && ':' in t)
    && !EndsConnect(t + "\n") && !EndsClosed(t + "\n")
  }

  predicate Renderable(item: Item) {
    match item
    case Text(t) => |t| < LINE_MAX && '\n' !in t && Plain(t)
    case Frame(link, data, addr, port) =>
      |HeaderText(link, |data|, addr, port)| <= LINE_MAX && link <= INT_MAX && |data| <= INT_MAX && port < PORTS
    case OpenNote(link) => link < 10_000
    case CloseNote(link) => link <= INT_MAX
  }

  function Yield(item: Item): Event {
    match item
    case Text(t) => Line(t + "\n")
    case Frame(link, data, addr, port) => Received(link, data, addr, port)
    case OpenNote(link) => Connected(link)
    case CloseNote(link) => Closed(link)
  }

  function YieldAll(items: seq<Item>): seq<Event> {
    if items == [] then [] else [Yield(items[0])] + YieldAll(items[1..])
  }

  // ----- scanning

  /** Bytes that end nothing only pile up. */
  lemma {:induction false} Scan(bytes: seq<char>, s: seq<char>, rest: seq<char>)
    requires forall i | 0 <= i < |s| :: s[i] != '\n' && (s[i] == ':' ==> !StartsFrame(bytes + s[..i + 1]))
    ensures Dispatch(bytes, s + rest) == Dispatch(bytes + s, rest)
    decreases |s|
  {
    if s == [] {
      assert s + rest == rest && bytes + s == bytes;
    } else {
      var b := bytes + [s[0]];
      assert (s + rest)[1..] == s[1..] + rest && b + s[1..] == bytes + s;
      assert b == bytes + s[..1];
      forall i | 0 <= i < |s| - 1 && s[1..][i] == ':' ensures !StartsFrame(b + s[1..][..i + 1]) {
        assert b + s[1..][..i + 1] == bytes + s[..i + 2];
      }
      Scan(b, s[1..], rest);
    }
  }

  lemma ScanFromStart(s: seq<char>, rest: seq<char>)
    requires '\n' !in s && (StartsFrame(s) ==> ':' !in s)
    ensures Dispatch([], s + rest) == Dispatch(s, rest)
  {
    forall i | 0 <= i < |s| ensures s[i] == ':' ==> !StartsFrame([] + s[..i + 1]) {
      StartsEarly(s, i + 1);
      assert [] + s[..i + 1] == s[..i + 1];
    }
    Scan([], s, rest);
    assert [] + s == s;
  }

  lemma StartsEarly(s: seq<char>, n: nat)
    requires n <= |s|
    ensures StartsFrame(s[..n]) ==> StartsFrame(s)
  {
    if n >= 4 { assert s[..n][..4] == s[..4]; }
  }

  lemma StartsWithPlus(s: seq<char>)
    ensures StartsFrame(s) ==> s[0] == '+'
  {
    if StartsFrame(s) { assert s[..4][0] == s[0]; }
  }

  /** A line is dispatched at its newline, cut to the buffer. */
  lemma LineDispatch(t: seq<char>, rest: seq<char>)
    requires '\n' !in t && !(StartsFrame(t) && ':' in t)
    ensures Dispatch([], t + "\n" + rest) == [LineEvent(Stored(t + "\n"))] + Dispatch([], rest)
  {
    hide LineEvent;
    ScanFromStart(t, "\n" + rest);
    assert t + "\n" + rest == t + ("\n" + rest);
    assert ("\n" + rest)[1..] == rest;
    assert t + ["\n"[0]] == t + "\n";
  }

  /** A header is dispatched at its first colon, with the payload behind it. */
  lemma FrameDispatch(h: seq<char>, rest: seq<char>)
    requires StartsFrame(h) && '\n' !in h && ':' !in h
    ensures var line := Stored(h + ":");
            Dispatch([], h + ":" + rest) == [FrameEvent(line, rest)] + Dispatch([], rest[PayloadSize(line, rest)..])
  {
    hide FrameEvent, PayloadSize, LineEvent;
    ScanFromStart(h, ":" + rest);
    assert h + ":" + rest == h + (":" + rest);
    DispatchColon(h, rest);
  }

  lemma DispatchColon(h: seq<char>, rest: seq<char>)
    requires StartsFrame(h)
    ensures var line := Stored(h + ":");
            Dispatch(h, ":" + rest) == [FrameEvent(line, rest)] + Dispatch([], rest[PayloadSize(line, rest)..])
  {
    hide FrameEvent, PayloadSize, LineEvent;
    assert (":" + rest)[1..] == rest;
    assert h + [(":" + rest)[0]] == h + ":";
    StartsEarly(h + ":", |h|);
    assert (h + ":")[..|h|] == h;
  }

  // ----- cutting the header

  /** One field is cut off: walk back to the comma in front of it. */
  lemma CutField(s: seq<char>, from: nat, x: seq<char>, y: seq<char>, z: seq<char>)
    requires ',' !in y && '\0' !in y
    requires s == x + "," + y + "\0" + z && from == |x| + 1 + |y|
    ensures CutOff(s, from) == Piece(y, |x|, x + "\0" + (y + "\0" + z))
  {
    WalkBack(s, |x|, from);
    assert s[|x| + 1..] == y + ("\0" + z);
    CStrOf(y, "\0" + z);
    assert s[|x| := '\0'] == x + "\0" + (y + "\0" + z);
  }

  lemma {:induction false} WalkBack(s: seq<char>, p: nat, from: nat)
    requires p <= from < |s| && s[p] == ','
    requires forall i | p < i <= from :: s[i] != ','
    ensures LastComma(s, from) == p
  {
    if p < from { WalkBack(s, p, from - 1); }
  }

  lemma {:induction false} CStrOf(y: seq<char>, rest: seq<char>)
    requires '\0' !in y && (rest == [] || rest[0] == '\0')
    ensures CStr(y + rest) == y
  {
    if y == [] {
      assert y + rest == rest;
    } else {
      assert (y + rest)[1..] == y[1..] + rest;
      CStrOf(y[1..], rest);
    }
  }

  /** A string is the first `n` characters exactly if the terminator comes right behind
      them: data that holds one, or lacks one, is not sent as announced. */
  lemma {:induction false} SentAsAnnounced(data: seq<char>, n: nat)
    requires n <= |data|
    ensures CStr(data) == data[..n] <==> '\0' !in data[..n] && (n < |data| ==> data[n] == '\0')
  {
    if data == [] {
    } else if data[0] == '\0' {
      assert n > 0 ==> data[..n][0] == '\0';
    } else if n > 0 {
      SentAsAnnounced(data[1..], n - 1);
      var front, rest := data[..n], data[1..][..n - 1];
      assert front == [data[0]] + rest;
      assert CStr(data) == [data[0]] + CStr(data[1..]);
      assert CStr(data) == front <==> CStr(data[1..]) == rest by { SameHead(data[0], CStr(data[1..]), rest); }
    }
  }

  lemma SameHead(c: char, s: seq<char>, t: seq<char>)
    ensures [c] + s == [c] + t <==> s == t
  {
    assert ([c] + s)[1..] == s && ([c] + t)[1..] == t;
  }

  /** Characters of numerals and dotted addresses. */
  predicate Clean(s: seq<char>) {
    forall c | c in s :: IsDecimal(c) || c == '.'
  }

  lemma CleanNumber(u: nat)
    ensures Clean(Digits(u, 10))
  {
    DecimalsOnly(u);
  }

  lemma CleanAddress(a: Addr)
    ensures Clean(Inet.Text(a))
  {
    hide Digits;
    CleanNumber(Octet(a, 3));
    CleanNumber(Octet(a, 2));
    CleanNumber(Octet(a, 1));
    CleanNumber(Octet(a, 0));
  }

  lemma ReadNumber(u: nat)
    ensures Atoi(Digits(u, 10)) == u && Atoi(Digits(u, 10) + ":") == u
  {
    AtoiOfDigits(u, []);
    AtoiOfDigits(u, ":");
    assert Digits(u, 10) + [] == Digits(u, 10);
  }

  lemma ReadAddress(a: Addr)
    ensures Parse(Inet.Text(a)) == a
  {
    TextWidth(a);
    RoundTripInSixteen(a, 16);
    assert Printed(a, 16) == Inet.Text(a);
  }

  /** Four fields are cut off one after the other. */
  lemma CutAll(h: seq<char>, l: seq<char>, n: seq<char>, a: seq<char>, p: seq<char>)
    requires ',' !in l && ',' !in n && ',' !in a && ',' !in p
    requires '\0' !in l && '\0' !in n && '\0' !in a && '\0' !in p
    ensures Fields(h + "," + l + "," + n + "," + a + "," + p)
         == Header(Atoi(l), Atoi(n) % SIZE_T, Parse(a), Atoi(p) % PORTS)
  {
    hide CutOff, Atoi, Parse;
    var x2 := h + "," + l;
    var x1 := x2 + "," + n;
    var x0 := x1 + "," + a;
    var line := x0 + "," + p;
    var z1 := p + "\0" + "";
    var z2 := a + "\0" + z1;
    var z3 := n + "\0" + z2;
    var start := line + ['\0'];
    assert start == x0 + "," + p + "\0" + "";
    CutField(start, |line|, x0, p, "");
    var c0 := CutOff(start, |line|);
    CutField(c0.buffer, c0.p, x1, a, z1);
    var c1 := CutOff(c0.buffer, c0.p);
    CutField(c1.buffer, c1.p, x2, n, z2);
    var c2 := CutOff(c1.buffer, c1.p);
    CutField(c2.buffer, c2.p, h, l, z3);
  }

  /** The fields of a rendered header are read back. */
  lemma FieldsOfHeader(link: nat, size: nat, addr: Addr, port: nat)
    requires link <= INT_MAX && size <= INT_MAX && port < PORTS
    ensures Fields(HeaderText(link, size, addr, port)) == Header(link, size, addr, port)
  {
    hide Digits, Inet.Text, Atoi, Parse, Fields;
    var l, n, a, p := Digits(link, 10), Digits(size, 10), Inet.Text(addr), Digits(port, 10) + ":";
    CleanNumber(link);
    CleanNumber(size);
    CleanNumber(port);
    CleanAddress(addr);
    ReadNumber(link);
    ReadNumber(size);
    ReadNumber(port);
    ReadAddress(addr);
    CutAll("+IPD", l, n, a, p);
    assert HeaderText(link, size, addr, port) == "+IPD" + "," + l + "," + n + "," + a + "," + p;
  }

  // ----- the round trip

  lemma HeaderDispatch(link: nat, size: nat, addr: Addr, port: nat, rest: seq<char>)
    requires |HeaderText(link, size, addr, port)| <= LINE_MAX
    ensures var header := HeaderText(link, size, addr, port);
            Dispatch([], header + rest) == [FrameEvent(header, rest)] + Dispatch([], rest[PayloadSize(header, rest)..])
  {
    hide Digits, Inet.Text, FrameEvent, PayloadSize, Dispatch;
    var header := HeaderText(link, size, addr, port);
    var h := header[..|header| - 1];
    CleanNumber(link);
    CleanNumber(size);
    CleanNumber(port);
    CleanAddress(addr);
    assert header == h + ":";
    assert h == "+IPD," + Digits(link, 10) + "," + Digits(size, 10) + "," + Inet.Text(addr) + "," + Digits(port, 10);
    FrameDispatch(h, rest);
    assert Stored(h + ":") == h + ":";
  }

  /** A header announces its payload: of what follows, that many bytes belong to the
      frame, or all when the wire ends before. */
  lemma AnnouncedFrame(link: nat, size: nat, addr: Addr, port: nat, rest: seq<char>)
    requires |HeaderText(link, size, addr, port)| <= 63 && link <= INT_MAX && size <= INT_MAX && port < PORTS
    ensures var n := if size < |rest| then size else |rest|;
            Dispatch([], HeaderText(link, size, addr, port) + rest)
            == [Received(link, rest[..n], addr, port)] + Dispatch([], rest[n..])
  {
    hide HeaderText, Fields, Dispatch;
    HeaderDispatch(link, size, addr, port, rest);
    FieldsOfHeader(link, size, addr, port);
  }

  lemma FrameRoundTrip(link: nat, data: seq<char>, addr: Addr, port: nat, rest: seq<char>)
    requires Renderable(Frame(link, data, addr, port))
    ensures Dispatch([], Render(Frame(link, data, addr, port)) + rest)
         == [Received(link, data, addr, port)] + Dispatch([], rest)
  {
    hide Dispatch, HeaderText;
    AnnouncedFrame(link, |data|, addr, port, data + rest);
    assert HeaderText(link, |data|, addr, port) + (data + rest) == Render(Frame(link, data, addr, port)) + rest;
    assert (data + rest)[..|data|] == data && (data + rest)[|data|..] == rest;
  }

  predicate EndsWith(s: seq<char>, end: seq<char>) {
    |end| <= |s| && s[|s| - |end|..] == end
  }

  /** What a line is dispatched as that is no frame: of a line of 63 characters or more
      the first 62 decide, for the check looks at what is in front of the last one. */
  lemma LineMeans(t: seq<char>, rest: seq<char>)
    requires '\n' !in t && !("+IPD" <= t && ':' in t)
    ensures var es := Dispatch([], t + "\n" + rest);
            var u := if |t| < 63 then t else t[..62];
            && es != [] && es[1..] == Dispatch([], rest)
            && (es[0].Connected? <==> EndsWith(u, ",CONNECT"))
            && (es[0].Closed? <==> EndsWith(u, ",CLOSED"))
            && (es[0].Line? <==> !EndsWith(u, ",CONNECT") && !EndsWith(u, ",CLOSED"))
            && (es[0].Line? ==> es[0].text == if |t| < 63 then t + "\n" else t[..63])
  {
    hide Dispatch;
    var u, line := if |t| < 63 then t else t[..62], if |t| < 63 then t + "\n" else t[..63];
    StartsLike(t);
    LineDispatch(t, rest);
    assert Stored(t + "\n") == line && line[..|line| - 1] == u;
    EndsLike(line, u);
    assert ([LineEvent(line)] + Dispatch([], rest))[1..] == Dispatch([], rest);
  }

  lemma StartsLike(t: seq<char>)
    ensures StartsFrame(t) <==> "+IPD" <= t
  {
  }

  lemma EndsLike(line: seq<char>, u: seq<char>)
    requires line != [] && u == line[..|line| - 1]
    ensures EndsConnect(line) <==> EndsWith(u, ",CONNECT")
    ensures EndsClosed(line) <==> EndsWith(u, ",CLOSED")
    ensures !(EndsConnect(line) && EndsClosed(line))
  {
    hide EndsWith, EndsConnect, EndsClosed;
    EndsSame(line, u, ",CONNECT");
    EndsSame(line, u, ",CLOSED");
    NotBoth(line);
  }

  lemma EndsSame(line: seq<char>, u: seq<char>, word: seq<char>)
    requires line != [] && u == line[..|line| - 1] && (word == ",CONNECT" || word == ",CLOSED")
    ensures EndsWith(u, word) <==> if word == ",CONNECT" then EndsConnect(line) else EndsClosed(line)
  {
    var n := |word|;
    if |u| >= n { assert u[|u| - n..] == line[|line| - n - 1..|line| - 1]; }
  }

  lemma NotBoth(line: seq<char>)
    ensures !(EndsConnect(line) && EndsClosed(line))
  {
    var n := |line|;
    if EndsConnect(line) { assert line[n - 9..n - 1][7] == line[n - 2]; }
    if EndsClosed(line) { assert line[n - 8..n - 1][6] == line[n - 2]; }
  }

  /** A line is dispatched as itself exactly when it fits the buffer and is plain. */
  lemma TextRoundTrip(t: seq<char>, rest: seq<char>)
    requires '\n' !in t
    ensures Dispatch([], t + "\n" + rest) == [Line(t + "\n")] + Dispatch([], rest) <==> |t| < LINE_MAX && Plain(t)
  {
    if StartsFrame(t) && ':' in t {
      FrameCutsIn(t, rest);
    } else {
      hide Dispatch;
      LineDispatch(t, rest);
      var line, more := t + "\n", Dispatch([], rest);
      assert |t| < LINE_MAX ==> Stored(line) == line;
      assert |t| >= LINE_MAX ==> |Stored(line)| < |line|;
      assert ([LineEvent(Stored(line))] + more)[0] == LineEvent(Stored(line)) && ([Line(line)] + more)[0] == Line(line);
    }
  }

  /** A line that looks like a frame is dispatched as one, at its first colon. */
  lemma FrameCutsIn(t: seq<char>, rest: seq<char>)
    requires "+IPD" <= t && ':' in t && '\n' !in t
    ensures Dispatch([], t + "\n" + rest) != [] && Dispatch([], t + "\n" + rest)[0].Received?
  {
    var k := FirstColon(t);
    var h, tail := t[..k], t[k + 1..] + "\n" + rest;
    assert t[..4][0] == '+' && t[..4][1] == 'I' && t[..4][2] == 'P' && t[..4][3] == 'D';
    assert k >= 4 && h[..4] == t[..4];
    assert t + "\n" + rest == h + ":" + tail;
    FrameDispatch(h, tail);
  }

  lemma {:induction false} FirstColon(t: seq<char>) returns (k: nat)
    requires ':' in t
    ensures k < |t| && t[k] == ':' && ':' !in t[..k]
  {
    if t[0] == ':' {
      k := 0;
    } else {
      var j := FirstColon(t[1..]);
      k := j + 1;
      assert t[..k] == [t[0]] + t[1..][..j];
    }
  }

  lemma IntWidth(u: nat)
    requires u <= INT_MAX
    ensures |Digits(u, 10)| <= 10
  {
    assert Pow(10, 5) == 100_000 && Pow(10, 10) == 10_000_000_000;
    DigitCount(u, 10, 10);
  }

  /** A number and a word behind a comma, as the module reports on its links. */
  lemma NoteDispatch(link: nat, word: seq<char>, rest: seq<char>)
    requires link <= INT_MAX && |word| <= 50 && '\n' !in word
    ensures Dispatch([], Digits(link, 10) + word + "\n" + rest)
         == [LineEvent(Digits(link, 10) + word + "\n")] + Dispatch([], rest)
  {
    hide Digits, Dispatch, LineEvent;
    var t := Digits(link, 10) + word;
    DecimalsOnly(link);
    IntWidth(link);
    StartsWithPlus(t);
    assert t[0] == Digits(link, 10)[0] && IsDecimal(t[0]);
    LineDispatch(t, rest);
    assert Stored(t + "\n") == t + "\n";
  }

  lemma OpenRoundTrip(link: nat, rest: seq<char>)
    requires Renderable(OpenNote(link))
    ensures Dispatch([], Render(OpenNote(link)) + rest) == [Connected(link)] + Dispatch([], rest)
  {
    hide Digits, Dispatch, LineEvent;
    NoteDispatch(link, ",CONNECT", rest);
    assert Render(OpenNote(link)) == Digits(link, 10) + ",CONNECT" + "\n";
    NoteLine(link, ",CONNECT");
    var line := Digits(link, 10) + ",CONNECT" + "\n";
    EndsLike(line, line[..|line| - 1]);
  }

  lemma CloseRoundTrip(link: nat, rest: seq<char>)
    requires Renderable(CloseNote(link))
    ensures Dispatch([], Render(CloseNote(link)) + rest) == [Closed(link)] + Dispatch([], rest)
  {
    hide Digits, Dispatch, LineEvent;
    NoteDispatch(link, ",CLOSED", rest);
    assert Render(CloseNote(link)) == Digits(link, 10) + ",CLOSED" + "\n";
    NoteLine(link, ",CLOSED");
  }

  /** The number of such a line is read back; of a connection up to four digits. */
  lemma NoteLine(link: nat, word: seq<char>)
    requires word == ",CLOSED" || (word == ",CONNECT" && link < 10_000)
    ensures LineEvent(Digits(link, 10) + word + "\n") == if word == ",CLOSED" then Closed(link) else Connected(link)
  {
    hide Digits, Atoi;
    var d := Digits(link, 10);
    var line := d + word + "\n";
    CleanNumber(link);
    EndsLike(line, d + word);
    assert line[..|line| - 1] == d + word && EndsWith(d + word, word);
    FirstCommaAt(d, word + "\n");
    assert line == d + (word + "\n") && line[..|d|] == d;
    CStrOf(d, []);
    assert d + [] == d;
    ReadNumber(link);
    if link < 10_000 {
      assert Pow(10, 2) == 100 && Pow(10, 4) == 10_000;
      DigitCount(link, 10, 4);
      assert d[..|d|] == d;
    }
  }

  lemma {:induction false} FirstCommaAt(d: seq<char>, rest: seq<char>)
    requires ',' !in d && rest != [] && rest[0] == ','
    ensures FirstComma(d + rest) == |d|
  {
    if d == [] {
      assert d + rest == rest;
    } else {
      assert (d + rest)[1..] == d[1..] + rest;
      FirstCommaAt(d[1..], rest);
    }
  }

  /** Dispatching undoes rendering, whatever bytes the payloads hold and
      whatever follows on the wire. */
  lemma {:induction false} RoundTrip(items: seq<Item>, rest: seq<char>)
    requires forall item | item in items :: Renderable(item)
    ensures Dispatch([], RenderAll(items) + rest) == YieldAll(items) + Dispatch([], rest)
  {
    hide Dispatch, Render, Renderable;
    if items == [] {
      assert RenderAll(items) + rest == rest;
    } else {
      var tail := RenderAll(items[1..]) + rest;
      RoundTrip(items[1..], rest);
      assert RenderAll(items) + rest == Render(items[0]) + tail;
      OneRoundTrip(items[0], tail);
    }
  }

  lemma OneRoundTrip(item: Item, rest: seq<char>)
    requires Renderable(item)
    ensures Dispatch([], Render(item) + rest) == [Yield(item)] + Dispatch([], rest)
  {
    hide Dispatch;
    match item
    case Text(t) => TextRoundTrip(t, rest);
    case Frame(link, data, addr, port) => FrameRoundTrip(link, data, addr, port, rest);
    case OpenNote(link) => OpenRoundTrip(link, rest);
    case CloseNote(link) => CloseRoundTrip(link, rest);
  }

  /** Every frame of the device fits: a one-digit link and as many bytes as `atoi` can tell. */
  lemma DeviceFramesFit(link: nat, data: seq<char>, addr: Addr, port: nat)
    requires link < 10 && |data| <= INT_MAX && port < PORTS
    ensures Renderable(Frame(link, data, addr, port))
  {
    hide Digits, Inet.Text;
    TextWidth(addr);
    assert Pow(10, 1) == 10 && Pow(10, 5) == 100_000;
    DigitCount(link, 10, 1);
    IntWidth(|data|);
    DigitCount(port, 10, 5);
  }

  // ----- the thread at work in its buffer

  lemma {:induction false} CStrEnds(s: seq<char>, stale: seq<char>)
    requires '\0' in s
    ensures CStr(s + stale) == CStr(s)
  {
    if s[0] != '\0' {
      assert (s + stale)[1..] == s[1..] + stale;
      CStrEnds(s[1..], stale);
    }
  }

  /** The string that starts at `line[from]`, ended by the terminator at `len`. */
  lemma StringAt(buffer: seq<char>, l: seq<char>, from: nat)
    requires l <= buffer && l != [] && l[|l| - 1] == '\0' && from < |l|
    ensures CStr(buffer[from..]) == CStr(l[from..])
  {
    assert l[from..][|l| - 1 - from] == '\0';
    assert buffer[from..] == l[from..] + buffer[|l|..];
    CStrEnds(l[from..], buffer[|l|..]);
  }

  /** `while(line[len] != ',' && len > 0) len--`. */
  method WalkToComma(line: array<char>, len: nat, ghost l: seq<char>) returns (p: nat)
    requires len < |l| <= line.Length && line[..|l|] == l
    ensures p == LastComma(l, len)
  {
    p := len;
    while line[p] != ',' && p > 0
      invariant p <= len && LastComma(l, p) == LastComma(l, len)
      decreases p
    {
      p := p - 1;
    }
  }

  /** Walks to the comma, takes the string behind it and cuts it off. */
  method CutBack(line: array<char>, len: nat, ghost l: seq<char>) returns (p: nat, text: seq<char>)
    requires len + 1 < |l| <= line.Length || (len < |l| <= line.Length && l[len] != ',' && len > 0)
    requires line[..|l|] == l && l[|l| - 1] == '\0'
    modifies line
    ensures Piece(text, p, line[..|l|]) == CutOff(l, len) && p + 1 < |l| && line[|l| - 1] == '\0'
  {
    hide CStr;
    p := WalkToComma(line, len, l);
    StringAt(line[..], l, p + 1);
    text := CStr(line[p + 1..]);
    line[p] := '\0';
  }

  /** Reads up to `n` bytes; fewer only when the wire ends. */
  method ReadPayload(wire: seq<char>, n: nat) returns (s: seq<char>, rest: seq<char>)
    ensures s == wire[..Fifo.Min(n, |wire|)] && rest == wire[Fifo.Min(n, |wire|)..]
  {
    var i := 0;
    s, rest := [], wire;
    while i < n && rest != []
      invariant i <= n && i <= |wire| && s == wire[..i] && rest == wire[i..]
      decreases n - i
    {
      s, rest, i := s + [rest[0]], rest[1..], i + 1;
    }
  }

  /** Takes the header apart in the buffer and reads the payload off the wire. */
  method Recv(line: array<char>, len: nat, wire: seq<char>) returns (event: Event, rest: seq<char>)
    requires 0 < len < line.Length && line[len] == '\0'
    modifies line
    ensures event == FrameEvent(old(line[..len]), wire)
    ensures rest == wire[PayloadSize(old(line[..len]), wire)..]
  {
    var h := ParseHeader(line, len);
    var s;
    s, rest := ReadPayload(wire, h.size);
    event := Received(h.link, s, h.addr, h.port);
  }

  method ParseHeader(line: array<char>, len: nat) returns (h: Header)
    requires 0 < len < line.Length && line[len] == '\0'
    modifies line
    ensures h == Fields(old(line[..len]))
  {
    hide CStr, LastComma, Atoi, Parse;
    ghost var n := len + 1;
    ghost var l0 := line[..len] + ['\0'];
    assert line[..n] == l0;
    var p0, portText := CutBack(line, len, l0);
    var p1, addrText := CutBack(line, p0, line[..n]);
    var p2, sizeText := CutBack(line, p1, line[..n]);
    var p3 := WalkToComma(line, p2, line[..n]);
    StringAt(line[..], line[..n], p3 + 1);
    var addr := InetAddr(addrText);
    h := Header(Atoi(CStr(line[p3 + 1..])), Atoi(sizeText) % SIZE_T, addr, Atoi(portText) % PORTS);
  }

  /** The loop of `closed` and of `accept`: the text in front of the first comma. */
  method CutAtComma(line: array<char>, len: nat) returns (text: seq<char>)
    requires len < line.Length && line[len] == '\0'
    modifies line
    ensures text == CStr(old(line[..FirstComma(line[..len])]))
  {
    ghost var l := line[..len];
    var i := 0;
    while line[i] != ',' && i < len
      invariant i <= len && FirstComma(l) == i + FirstComma(l[i..])
      decreases len - i
    {
      assert l[i..][1..] == l[i + 1..];
      i := i + 1;
    }
    line[i] := '\0';
    assert line[..i] == l[..i];
    CutAt(line[..], i);
    text := CStr(line[..]);
  }

  /** `closed`: the number in front of the first comma. */
  method ParseClosed(line: array<char>, len: nat) returns (link: int)
    requires len < line.Length && line[len] == '\0'
    modifies line
    ensures link == Atoi(CStr(old(line[..FirstComma(line[..len])])))
  {
    var text := CutAtComma(line, len);
    link := Atoi(text);
  }

  /** `accept`, up to the query: the same number, from a copy of five characters. */
  method ParseConnect(line: array<char>, len: nat) returns (link: int)
    requires len < line.Length && line[len] == '\0'
    modifies line
    ensures var first := CStr(old(line[..FirstComma(line[..len])]));
            link == Atoi(first[..Fifo.Min(|first|, LINK_ID)])
  {
    var text := CutAtComma(line, len);
    link := Atoi(text[..Fifo.Min(|text|, LINK_ID)]);
  }

  lemma {:induction false} CutAt(s: seq<char>, p: nat)
    requires p < |s| && s[p] == '\0'
    ensures CStr(s) == CStr(s[..p])
  {
    if p > 0 {
      assert s[1..][..p - 1] == s[..p][1..];
      CutAt(s[1..], p - 1);
    }
  }

  /** `parse_line`, up to the response check and the CIPSTATUS query. */
  method ParseLine(line: array<char>, len: nat) returns (event: Event)
    requires len < line.Length && line[len] == '\0'
    modifies line
    ensures event == LineEvent(old(line[..len]))
  {
    hide CStr, Atoi;
    ghost var l := line[..len];
    if len >= 9 && line[len - 9..len - 1] == ",CONNECT" {
      assert l[len - 9..len - 1] == line[len - 9..len - 1];
      assert line[..FirstComma(l)] == l[..FirstComma(l)];
      var link := ParseConnect(line, len);
      return Connected(link);
    }
    assert len >= 9 ==> l[len - 9..len - 1] == line[len - 9..len - 1];
    if len >= 8 && line[len - 8..len - 1] == ",CLOSED" {
      assert l[len - 8..len - 1] == line[len - 8..len - 1];
      assert line[..FirstComma(l)] == l[..FirstComma(l)];
      var link := ParseClosed(line, len);
      return Closed(link);
    }
    assert len >= 8 ==> l[len - 8..len - 1] == line[len - 8..len - 1];
    return Line(line[..len]);
  }

  /** `strncmp(line, "+IPD", 4) == 0` reads four characters, however many of them
      are left over from earlier lines. */
  predicate LooksLikeFrame(buffer: seq<char>)
    requires |buffer| == 64
  {
    buffer[..4] == "+IPD"
  }

  /** At a colon, leftovers cannot complete the "+IPD": the colon itself stands
      in the way unless four newer characters precede it. */
  lemma LeftoversDoNotMatter(buffer: seq<char>, all: seq<char>)
    requires |buffer| == 64 && all != [] && all[|all| - 1] == ':' && Stored(all) <= buffer
    ensures LooksLikeFrame(buffer) <==> StartsFrame(all)
  {
    if |all| < 4 {
      assert buffer[..4][|all| - 1] == ':';
    } else {
      assert buffer[..4] == Stored(all)[..4] == all[..4];
    }
  }

  /** What one more byte does to the line buffer. */
  lemma StoredNext(bytes: seq<char>, c: char)
    ensures |Stored(bytes)| <= LINE_MAX && |Stored([])| == 0
    ensures Stored(bytes + [c]) == if |Stored(bytes)| < LINE_MAX then Stored(bytes) + [c] else Stored(bytes)
    ensures |Stored(bytes + [c])| > 0
  {
  }

  /** What one byte of the input does. */
  lemma DispatchNext(bytes: seq<char>, input: seq<char>)
    requires input != []
    ensures var all, rest := bytes + [input[0]], input[1..];
            Dispatch(bytes, input) ==
              if input[0] == ':' && StartsFrame(all) then
                [FrameEvent(Stored(all), rest)] + Dispatch([], rest[PayloadSize(Stored(all), rest)..])
              else if input[0] == '\n' then [LineEvent(Stored(all))] + Dispatch([], rest)
              else Dispatch(all, rest)
  {
  }

  /** One event more dispatched, and one less to come. */
  lemma Moved(events: seq<Event>, e: Event, more: seq<Event>)
    ensures events + ([e] + more) == (events + [e]) + more
  {
  }

  /** The reader thread until the wire is exhausted.  A new array holds arbitrary
      characters and is never cleared, yet only the input decides what is
      dispatched. */
  method ReadThread(input: seq<char>) returns (events: seq<Event>)
    ensures events == Dispatch([], input)
  {
    hide FrameEvent, PayloadSize, LineEvent, Dispatch, Stored, StartsFrame;
    var line, i, wire := new char[64], 0, input;
    ghost var bytes := [];
    events := [];
    StoredNext([], ' ');
    while wire != []
      invariant line.Length == 64 && i == |Stored(bytes)| <= LINE_MAX && line[..i] == Stored(bytes)
      invariant events + Dispatch(bytes, wire) == Dispatch([], input)
      decreases |wire|
    {
      DispatchNext(bytes, wire);
      var c := wire[0];
      wire := wire[1..];
      ghost var all := bytes + [c];
      StoredNext(bytes, c);
      if i + 1 < 64 {
        line[i] := c;
        i := i + 1;
      }
      assert line[..i] == Stored(all);
      if c == ':' { LeftoversDoNotMatter(line[..], all); }
      if c == ':' && LooksLikeFrame(line[..]) {
        line[i] := '\0';
        var event, rest := Recv(line, i, wire);
        Moved(events, event, Dispatch([], rest));
        events, wire, i, bytes := events + [event], rest, 0, [];
      } else if c == '\n' {
        line[i] := '\0';
        var event := ParseLine(line, i);
        Moved(events, event, Dispatch([], wire));
        events, i, bytes := events + [event], 0, [];
      } else {
        bytes := all;
      }
    }
    EndOfWire(bytes);
  }

  lemma EndOfWire(bytes: seq<char>)
    ensures Dispatch(bytes, []) == []
  {
  }
}
