/** `Content-Length` framing of the Debug Adapter Protocol ("Base Protocol"): one reader, and writers
    on two threads that share a stream under a lock. */
module Framing {
  import opened Text

  const PREFIX: string := "Content-Length:"

  /** What `send_message` and `send_event_direct` put on the stream, piece by piece. */
  function Pieces(m: string): seq<string> {
    ["Content-Length: ", Decimal(|m|), "\r\n\r\n", m]
  }

  function Frame(m: string): string {
    "Content-Length: " + Decimal(|m|) + "\r\n\r\n" + m
  }

  function Frames(ms: seq<string>): string {
    if ms == [] then "" else Frame(ms[0]) + Frames(ms[1..])
  }

  // ---- reading ------------------------------------------------------------------

  /** `std::getline` on a stream that still holds `input`. */
  function Line(input: string): string { input[..Find(input, '\n', 0)] }

  function AfterLine(input: string): string {
    var n := Find(input, '\n', 0);
    if n < |input| then input[n + 1..] else ""
  }

  function Chomp(line: string): string {
    if line != "" && line[|line| - 1] == '\r' then line[..|line| - 1] else line
  }

  /** The length a header line sets; a malformed one leaves it as it was. */
  function LengthAfter(line: string, length: int): int {
    if StartsWith(line, PREFIX) && Stoi(line[15..]).Some? then Stoi(line[15..]).value else length
  }

  // After the headers: whether the blank line was found, the last length, and the rest of the stream.
  datatype Headers = Headers(complete: bool, length: int, rest: string)

  function ReadHeaders(input: string, length: int): Headers
    decreases |input|
  {
    if input == "" then Headers(false, length, "")
    else
      var line := Chomp(Line(input));
      if line == "" then Headers(true, length, AfterLine(input))
      else ReadHeaders(AfterLine(input), LengthAfter(line, length))
  }

  // A message and the rest of the stream.  The empty message also stands for every failure.
  datatype Received = Received(payload: string, rest: string)

  function ReadBody(h: Headers): Received {
    if !h.complete || h.length < 0 then Received("", h.rest)
    else if h.length > |h.rest| then Received("", "")
    else Received(h.rest[..h.length], h.rest[h.length..])
  }

  function Receive(input: string): Received {
    ReadBody(ReadHeaders(input, -1))
  }

  lemma {:induction false} RestShrinks(input: string, length: int)
    ensures |ReadHeaders(input, length).rest| <= |input|
    decreases |input|
  {
    if input != "" {
      RestShrinks(AfterLine(input), LengthAfter(Chomp(Line(input)), length));
    }
  }

  lemma ReceiveShrinks(input: string)
    ensures Receive(input).payload != "" ==> |Receive(input).rest| < |input|
  {
    RestShrinks(input, -1);
  }

  /** What a peer gets that keeps reading until `read_message` returns the empty string. */
  ghost function ReadAll(input: string): seq<string>
    decreases |input|
  {
    ReceiveShrinks(input);
    var r := Receive(input);
    if r.payload == "" then [] else [r.payload] + ReadAll(r.rest)
  }

  // ---- a session -------------------------------------------------------------------

  /** What a handler answers: a response, whose text depends on the sequence number put into it, or any
      other text, which is sent as it is. */
  datatype Reply = Response(render: nat -> string) | Verbatim(text: string)

  datatype Handled<+S> = Handled(state: S, reply: Reply)

  /** What a session does with a request: one that does not parse is answered by a fixed response, which is sent
      as it is; any other goes to its handler, and handlers may change the state they share. */
  datatype Dispatcher<!S> = Dispatcher(
    parses: string -> bool, malformed: string, handle: (S, string) -> Handled<S>)

  /** A session between two requests: the handlers' state and the next response number. */
  datatype Peer<+S> = Peer(state: S, next: nat)

  /** What is sent for one request; a response carries its number. */
  datatype Outgoing = Outgoing(text: string, number: Option<nat>)

  function Answer<S>(d: Dispatcher<S>, p: Peer<S>, request: string): Outgoing {
    if !d.parses(request) then Outgoing(d.malformed, None)
    else
      match d.handle(p.state, request).reply
      case Response(render) => Outgoing(render(p.next), Some(p.next))
      case Verbatim(text) => Outgoing(text, None)
  }

  function Answered<S>(d: Dispatcher<S>, p: Peer<S>, request: string): Peer<S> {
    Peer(if d.parses(request) then d.handle(p.state, request).state else p.state,
         if Answer(d, p, request).number.Some? then p.next + 1 else p.next)
  }

  /** An empty text is not sent. */
  function Texts(ss: seq<Outgoing>): seq<string> {
    if ss == [] then [] else Texts(ss[..|ss| - 1]) + NonEmpty(ss[|ss| - 1].text)
  }

  function NonEmpty(text: string): seq<string> { if text == "" then [] else [text] }

  /** The answers of a session to everything it reads. */
  ghost function Replies<S>(d: Dispatcher<S>, p: Peer<S>, input: string): seq<Outgoing>
    decreases |input|
  {
    ReceiveShrinks(input);
    var r := Receive(input);
    if r.payload == "" then []
    else [Answer(d, p, r.payload)] + Replies(d, Answered(d, p, r.payload), r.rest)
  }

  /** The session after everything it reads. */
  ghost function PeerAfter<S>(d: Dispatcher<S>, p: Peer<S>, input: string): Peer<S>
    decreases |input|
  {
    ReceiveShrinks(input);
    var r := Receive(input);
    if r.payload == "" then p else PeerAfter(d, Answered(d, p, r.payload), r.rest)
  }

  class Stream {
    var data: string

    constructor (data: string)
      ensures this.data == data
    {
      this.data := data;
    }
  }

  method ReadMessage(input: Stream) returns (payload: string)
    modifies input
    ensures Received(payload, input.data) == Receive(old(input.data))
  {
    var contentLength := -1;
    ghost var all := ReadHeaders(input.data, -1);
    var failed := true;
    while input.data != ""
      invariant failed && all == ReadHeaders(input.data, contentLength)
      decreases |input.data|
    {
      var line := Chomp(Line(input.data));
      input.data := AfterLine(input.data);
      if line == "" {
        failed := false;
        break;
      }
      if StartsWith(line, PREFIX) {
        var n := Stoi(line[15..]);
        if n.Some? {
          contentLength := n.value;
        }
      }
    }
    if failed || contentLength < 0 {
      return "";
    }
    if contentLength > |input.data| {
      input.data := "";
      return "";
    }
    payload := input.data[..contentLength];
    input.data := input.data[contentLength..];
  }

  method SendMessage(output: Stream, json: string)
    modifies output
    ensures output.data == old(output.data) + Frame(json)
  {
    output.data := output.data + "Content-Length: " + Decimal(|json|) + "\r\n\r\n" + json;
    assert output.data == old(output.data) + Frame(json);
  }

  class Session<S> {
    const dispatcher: Dispatcher<S>
    var state: S
    var responseSeq: nat

    ghost function Now(): Peer<S>
      reads this
    {
      Peer(state, responseSeq)
    }

    constructor (dispatcher: Dispatcher<S>, state: S)
      ensures this.dispatcher == dispatcher && Now() == Peer(state, 1)
    {
      this.dispatcher := dispatcher;
      this.state := state;
      this.responseSeq := 1;
    }

    /** Dispatches a request and puts the next number into the response. */
    method HandleMessage(request: string) returns (text: string)
      modifies this
      ensures text == Answer(dispatcher, old(Now()), request).text && Now() == Answered(dispatcher, old(Now()), request)
    {
      if !dispatcher.parses(request) {
        return dispatcher.malformed;
      }
      var handled := dispatcher.handle(state, request);
      state := handled.state;
      match handled.reply
      case Response(render) =>
        text := render(responseSeq);
        responseSeq := responseSeq + 1;
      case Verbatim(t) => text := t;
    }

    /** Reads one request and answers it; false when there is none. */
    method Serve(input: Stream, output: Stream) returns (more: bool)
      requires input != output
      modifies this, input, output
      ensures var r := Receive(old(input.data));
        && input.data == r.rest && (more <==> r.payload != "")
        && Now() == (if more then Answered(dispatcher, old(Now()), r.payload) else old(Now()))
        && output.data == old(output.data) +
             if more then Frames(NonEmpty(Answer(dispatcher, old(Now()), r.payload).text)) else ""
    {
      var request := ReadMessage(input);
      if request == "" {
        assert output.data + "" == output.data;
        return false;
      }
      var response := HandleMessage(request);
      if response != "" {
        SendMessage(output, response);
        OneFrame(response);
      }
      return true;
    }

    /** Answers what it reads until there is nothing left. */
    method Run(input: Stream, output: Stream)
      requires input != output
      modifies this, input, output
      ensures output.data == old(output.data) + Frames(Texts(Replies(dispatcher, old(Now()), old(input.data))))
      ensures Now() == PeerAfter(dispatcher, old(Now()), old(input.data))
    {
      ghost var p, before, all := Now(), output.data, input.data;
      ghost var sent: seq<Outgoing> := [];
      var more := true;
      while more
        invariant Progress(dispatcher, p, all, sent, Now(), if more then input.data else "")
        invariant output.data == before + Frames(Texts(sent))
        decreases more, |input.data|
      {
        ghost var now, rest := Now(), input.data;
        ReceiveShrinks(rest);
        more := Serve(input, output);
        ProgressNext(dispatcher, p, all, sent, now, rest);
        if more {
          ghost var answer := Answer(dispatcher, now, Receive(rest).payload);
          TextsNext(sent, answer);
          FramesAfter(before, Texts(sent), NonEmpty(answer.text));
          sent := sent + [answer];
        } else {
          assert before + Frames(Texts(sent)) + "" == before + Frames(Texts(sent));
        }
      }
      ProgressEnds(dispatcher, p, all, sent, Now());
    }
  }

  /** A session that began as `p` on the input `all` has sent `sent`, is now `now` and has still `rest` to read. */
  ghost predicate Progress<S>(d: Dispatcher<S>, p: Peer<S>, all: string, sent: seq<Outgoing>, now: Peer<S>, rest: string) {
    Replies(d, p, all) == sent + Replies(d, now, rest) && PeerAfter(d, p, all) == PeerAfter(d, now, rest)
  }

  lemma {:induction false} ProgressNext<S>(d: Dispatcher<S>, p: Peer<S>, all: string, sent: seq<Outgoing>, now: Peer<S>, rest: string)
    requires Progress(d, p, all, sent, now, rest)
    ensures var r := Receive(rest);
      if r.payload == "" then Progress(d, p, all, sent, now, "")
      else Progress(d, p, all, sent + [Answer(d, now, r.payload)], Answered(d, now, r.payload), r.rest)
  {
    var r := Receive(rest);
    RepliesStep(d, now, rest);
    RepliesStep(d, now, "");
    if r.payload != "" {
      Assoc(sent, [Answer(d, now, r.payload)], Replies(d, Answered(d, now, r.payload), r.rest));
    }
  }

  lemma {:induction false} ProgressEnds<S>(d: Dispatcher<S>, p: Peer<S>, all: string, sent: seq<Outgoing>, now: Peer<S>)
    requires Progress(d, p, all, sent, now, "")
    ensures Replies(d, p, all) == sent && PeerAfter(d, p, all) == now
  {
    RepliesStep(d, now, "");
    assert sent + [] == sent;
  }

  lemma {:induction false} TextsNext(ss: seq<Outgoing>, s: Outgoing)
    ensures Texts(ss + [s]) == Texts(ss) + NonEmpty(s.text)
  {
    assert (ss + [s])[..|ss|] == ss;
  }

  lemma {:induction false} TextsFirst(s: Outgoing, ss: seq<Outgoing>)
    ensures Texts([s] + ss) == NonEmpty(s.text) + Texts(ss)
    decreases |ss|
  {
    if ss == [] {
      assert [s] + ss == [] + [s];
      TextsNext([], s);
    } else {
      var init, last := ss[..|ss| - 1], ss[|ss| - 1];
      TextsFirst(s, init);
      assert [s] + ss == ([s] + init) + [last];
      TextsNext([s] + init, last);
      Assoc(NonEmpty(s.text), Texts(init), NonEmpty(last.text));
    }
  }

  lemma {:induction false} RepliesStep<S>(d: Dispatcher<S>, p: Peer<S>, input: string)
    ensures var r := Receive(input); var p' := Answered(d, p, r.payload);
      && Replies(d, p, input)
           == (if r.payload == "" then [] else [Answer(d, p, r.payload)] + Replies(d, p', r.rest))
      && PeerAfter(d, p, input) == (if r.payload == "" then p else PeerAfter(d, p', r.rest))
  {
  }

  lemma OneFrame(m: string)
    ensures Frames([m]) == Frame(m)
  {
    assert [m][1..] == [];
    assert Frame(m) + "" == Frame(m);
  }

  lemma {:induction false} FramesConcat(ms: seq<string>, ns: seq<string>)
    ensures Frames(ms + ns) == Frames(ms) + Frames(ns)
    decreases |ms|
  {
    if ms == [] {
      assert ms + ns == ns;
    } else {
      assert (ms + ns)[1..] == ms[1..] + ns;
      FramesConcat(ms[1..], ns);
      assert Frame(ms[0]) + (Frames(ms[1..]) + Frames(ns)) == (Frame(ms[0]) + Frames(ms[1..])) + Frames(ns);
    }
  }

  lemma FramesAfter(before: string, ms: seq<string>, ns: seq<string>)
    ensures before + Frames(ms + ns) == (before + Frames(ms)) + Frames(ns)
  {
    FramesConcat(ms, ns);
    Assoc(before, Frames(ms), Frames(ns));
  }

  // ---- reading back what was written ------------------------------------------------------

  lemma LineOf(line: string, tail: string)
    requires '\n' !in line
    ensures Line(line + "\n" + tail) == line && AfterLine(line + "\n" + tail) == tail
  {
    var s := line + "\n" + tail;
    assert s[|line|] == '\n';
    assert forall k :: 0 <= k < |line| ==> s[k] == line[k];
    assert Find(s, '\n', 0) == |line|;
  }

  lemma LastLine(line: string)
    requires '\n' !in line
    ensures Line(line) == line && AfterLine(line) == ""
  {
    assert Find(line, '\n', 0) == |line|;
  }

  function LengthLine(n: nat): string { PREFIX + (" " + Decimal(n)) }

  lemma LengthLineIsLine(n: nat)
    ensures '\n' !in LengthLine(n) && Chomp(LengthLine(n) + "\r") == LengthLine(n)
  {
    assert '\n' !in Decimal(n) && '\n' !in PREFIX;
    ChompReturn(LengthLine(n));
  }

  lemma LengthLineSets(n: nat, length: int)
    requires n <= INT_MAX
    ensures LengthAfter(LengthLine(n), length) == n
  {
    Tail(PREFIX, " " + Decimal(n));
    StoiDecimal(n, " ");
  }

  lemma Tail(a: string, b: string)
    ensures (a + b)[|a|..] == b && StartsWith(a + b, a)
  {
  }

  lemma ChompReturn(line: string)
    ensures Chomp(line + "\r") == line
  {
  }

  lemma BlankLine(length: int, tail: string)
    ensures ReadHeaders("\r\n" + tail, length) == Headers(true, length, tail)
  {
    assert "\r\n" + tail == "\r" + "\n" + tail;
    LineOf("\r", tail);
  }

  lemma HeaderLine(line: string, tail: string, length: int)
    requires line != "" && '\n' !in line
    ensures ReadHeaders(line + "\r\n" + tail, length) == ReadHeaders(tail, LengthAfter(line, length))
  {
    assert line + "\r\n" + tail == (line + "\r") + "\n" + tail;
    LineOf(line + "\r", tail);
    assert Chomp(line + "\r") == line;
  }

  lemma FrameParts(m: string)
    ensures Frame(m) == (LengthLine(|m|) + "\r\n") + ("\r\n" + m)
  {
  }

  lemma LengthHeader(n: nat, tail: string, length: int)
    requires n <= INT_MAX
    ensures ReadHeaders((LengthLine(n) + "\r\n") + tail, length) == ReadHeaders(tail, n)
  {
    LengthLineIsLine(n);
    LengthLineSets(n, length);
    HeaderLine(LengthLine(n), tail, length);
  }

  /** A whole frame is read as exactly its message, whatever its body holds and whatever follows. */
  lemma ReceiveFrame(m: string, rest: string)
    requires |m| <= INT_MAX
    ensures Receive(Frame(m) + rest) == Received(m, rest)
  {
    FrameParts(m);
    Assoc(LengthLine(|m|) + "\r\n", "\r\n" + m, rest);
    Assoc("\r\n", m, rest);
    LengthHeader(|m|, "\r\n" + (m + rest), -1);
    BlankLine(|m|, m + rest);
    assert (m + rest)[..|m|] == m && (m + rest)[|m|..] == rest;
  }

  /** Other headers before the length are skipped. */
  lemma OtherHeadersAreSkipped(line: string, input: string)
    requires line != "" && '\n' !in line && !StartsWith(line, PREFIX)
    ensures Receive(line + "\r\n" + input) == Receive(input)
  {
    HeaderLine(line, input, -1);
  }

  lemma BodyAfter(m: string, rest: string, input: string)
    requires ReadHeaders(input, -1) == Headers(true, |m|, m + rest)
    ensures Receive(input) == Received(m, rest)
  {
    assert (m + rest)[..|m|] == m && (m + rest)[|m|..] == rest;
  }

  /** Of several lengths the last one that can be read counts; an unreadable one changes nothing. */
  lemma {:induction false} LastLengthCounts(m: string, rest: string, earlier: nat, bad: string)
    requires |m| <= INT_MAX && '\n' !in bad && StartsWith(bad, PREFIX) && Stoi(bad[15..]).None?
    ensures Receive(LengthLine(earlier) + "\r\n" + (LengthLine(|m|) + "\r\n" + (bad + "\r\n" + ("\r\n" + (m + rest)))))
      == Received(m, rest)
  {
    var third := bad + "\r\n" + ("\r\n" + (m + rest));
    var second := LengthLine(|m|) + "\r\n" + third;
    LengthLineIsLine(earlier);
    HeaderLine(LengthLine(earlier), second, -1);
    LengthHeader(|m|, third, LengthAfter(LengthLine(earlier), -1));
    HeaderLine(bad, "\r\n" + (m + rest), |m|);
    BlankLine(|m|, m + rest);
    BodyAfter(m, rest, LengthLine(earlier) + "\r\n" + second);
  }

  lemma NewlineHeader(line: string, tail: string, length: int)
    requires line != "" && '\n' !in line && line[|line| - 1] != '\r'
    ensures ReadHeaders(line + "\n" + tail, length) == ReadHeaders(tail, LengthAfter(line, length))
  {
    LineOf(line, tail);
  }

  lemma NewlineBlank(length: int, tail: string)
    ensures ReadHeaders("\n" + tail, length) == Headers(true, length, tail)
  {
    assert "\n" + tail == "" + "\n" + tail;
    LineOf("", tail);
  }

  /** Lines may end with a newline alone. */
  lemma {:induction false} NewlinesSuffice(m: string, rest: string)
    requires |m| <= INT_MAX
    ensures Receive(LengthLine(|m|) + "\n" + ("\n" + (m + rest))) == Received(m, rest)
  {
    var line := LengthLine(|m|);
    LengthLineIsLine(|m|);
    LengthLineValue(|m|, -1);
    NewlineHeader(line, "\n" + (m + rest), -1);
    NewlineBlank(|m|, m + rest);
    BodyAfter(m, rest, line + "\n" + ("\n" + (m + rest)));
  }

  lemma LengthLineValue(n: nat, length: int)
    requires n <= INT_MAX
    ensures LengthAfter(LengthLine(n), length) == n && LengthLine(n)[|LengthLine(n)| - 1] != '\r'
  {
    Tail(PREFIX, " " + Decimal(n));
    StoiDecimal(n, " ");
    var d := Decimal(n);
    assert d[|d| - 1] in d && LengthLine(n)[|LengthLine(n)| - 1] == d[|d| - 1];
  }

  lemma UnfinishedLine(part: string)
    requires '\n' !in part && part != "\r"
    ensures Receive(part).payload == ""
  {
    if part != "" {
      LastLine(part);
      assert Chomp(part) != "";
      assert ReadHeaders(part, -1) == ReadHeaders("", LengthAfter(Chomp(part), -1));
    }
  }

  lemma UnfinishedBody(n: nat, tail: string)
    requires tail == "" || tail == "\r" || (StartsWith(tail, "\r\n") && |tail| < n + 2)
    ensures ReadBody(ReadHeaders(tail, n)).payload == ""
  {
    if tail == "\r" {
      LastLine("\r");
    } else if tail != "" {
      assert tail == "\r\n" + tail[2..];
      BlankLine(n, tail[2..]);
    }
  }

  lemma Cut(a: string, b: string, k: nat)
    requires k <= |a + b|
    ensures k <= |a| ==> (a + b)[..k] == a[..k]
    ensures k >= |a| ==> (a + b)[..k] == a + b[..k - |a|]
  {
  }

  lemma CutBlank(body: string, k: nat)
    requires k <= |body| && StartsWith(body, "\r\n")
    ensures body[..k] == "" || body[..k] == "\r" || StartsWith(body[..k], "\r\n")
  {
    if k == 1 {
      assert body[..2][0] == body[0];
    } else if k >= 2 {
      assert body[..k][..2] == body[..2];
    }
  }

  lemma CutInBody(n: nat, body: string, k: nat)
    requires n <= INT_MAX && k < n + 2 <= |body| && StartsWith(body, "\r\n")
    ensures Receive((LengthLine(n) + "\r\n") + body[..k]).payload == ""
  {
    LengthHeader(n, body[..k], -1);
    CutBlank(body, k);
    UnfinishedBody(n, body[..k]);
  }

  lemma CutInLine(line: string, rest: string, k: nat)
    requires line != "" && line[0] != '\r' && '\n' !in line && k <= |line| + 1
    ensures Receive(((line + "\r\n") + rest)[..k]).payload == ""
  {
    var part := ((line + "\r\n") + rest)[..k];
    assert part == (line + "\r")[..k];
    if k > 0 {
      assert part[0] == line[0];
    }
    UnfinishedLine(part);
  }

  /** No proper prefix of a frame is taken for a message. */
  lemma {:induction false} PartialFrameIsNoMessage(m: string, k: nat)
    requires |m| <= INT_MAX && k < |Frame(m)|
    ensures Receive(Frame(m)[..k]).payload == ""
  {
    var line := LengthLine(|m|);
    LengthLineIsLine(|m|);
    FrameParts(m);
    if k <= |line| + 1 {
      CutInLine(line, "\r\n" + m, k);
    } else {
      Cut(line + "\r\n", "\r\n" + m, k);
      CutInBody(|m|, "\r\n" + m, k - |line| - 2);
    }
  }

  predicate Sendable(m: string) { 0 < |m| <= INT_MAX }

  lemma ReadAllStep(input: string, m: string, rest: string)
    requires m != "" && Receive(input) == Received(m, rest)
    ensures ReadAll(input) == [m] + ReadAll(rest)
  {
  }

  lemma ReadAllStops(input: string)
    requires Receive(input).payload == ""
    ensures ReadAll(input) == []
  {
  }

  lemma {:induction false} FramesFirst(ms: seq<string>, rest: string)
    requires ms != []
    ensures Frames(ms) + rest == Frame(ms[0]) + (Frames(ms[1..]) + rest)
  {
    Assoc(Frame(ms[0]), Frames(ms[1..]), rest);
  }

  lemma {:induction false} ReadAllFirst(m: string, rest: string)
    requires Sendable(m)
    ensures ReadAll(Frame(m) + rest) == [m] + ReadAll(rest)
  {
    ReceiveFrame(m, rest);
    ReadAllStep(Frame(m) + rest, m, rest);
  }

  lemma HeadBack(ms: seq<string>, rest: seq<string>)
    requires ms != []
    ensures [ms[0]] + (ms[1..] + rest) == ms + rest
  {
  }

  lemma {:induction false} ReadAllAfter(ms: seq<string>, rest: string)
    requires forall m :: m in ms ==> Sendable(m)
    ensures ReadAll(Frames(ms) + rest) == ms + ReadAll(rest)
    decreases |ms|
  {
    if ms == [] {
      assert Frames(ms) + rest == rest && ms + ReadAll(rest) == ReadAll(rest);
    } else {
      assert ms[0] in ms;
      FramesFirst(ms, rest);
      ReadAllFirst(ms[0], Frames(ms[1..]) + rest);
      ReadAllAfter(ms[1..], rest);
      HeadBack(ms, ReadAll(rest));
    }
  }

  /** Reading a stream of frames, even one that is cut off inside the next frame, gives exactly the
      messages of the whole frames, in order. */
  lemma {:induction false} ReadAllFrames(ms: seq<string>, next: string, k: nat)
    requires (forall m :: m in ms ==> Sendable(m)) && |next| <= INT_MAX && k < |Frame(next)|
    ensures ReadAll(Frames(ms) + Frame(next)[..k]) == ms
  {
    ReadAllAfter(ms, Frame(next)[..k]);
    PartialFrameIsNoMessage(next, k);
    ReadAllStops(Frame(next)[..k]);
  }

  /** The messages before the first that cannot be sent. */
  ghost function SendablePrefix(ms: seq<string>): seq<string> {
    if ms == [] || !Sendable(ms[0]) then [] else [ms[0]] + SendablePrefix(ms[1..])
  }

  lemma {:induction false} AllSendable(ms: seq<string>)
    ensures SendablePrefix(ms) == ms <==> forall m :: m in ms ==> Sendable(m)
    decreases |ms|
  {
    if ms != [] {
      AllSendable(ms[1..]);
      assert ms == [ms[0]] + ms[1..];
      assert SendablePrefix(ms) == ms ==> SendablePrefix(ms)[1..] == ms[1..];
      assert ms[0] in ms;
    }
  }

  /** A message longer than INT_MAX announces a length that the reader cannot read. */
  lemma TooLongIsNoMessage(m: string, rest: string)
    requires |m| > INT_MAX
    ensures Receive(Frame(m) + rest).payload == ""
  {
    var line := LengthLine(|m|);
    FrameParts(m);
    Assoc(line + "\r\n", "\r\n" + m, rest);
    Assoc("\r\n", m, rest);
    LengthLineIsLine(|m|);
    LengthLineTooLong(|m|, -1);
    HeaderLine(line, "\r\n" + (m + rest), -1);
    BlankLine(-1, m + rest);
  }

  lemma LengthLineTooLong(n: nat, length: int)
    requires n > INT_MAX
    ensures LengthAfter(LengthLine(n), length) == length
  {
    Tail(PREFIX, " " + Decimal(n));
    ReadDecimal(n, " ");
  }

  lemma NotSendableIsNoMessage(m: string, rest: string)
    requires !Sendable(m)
    ensures Receive(Frame(m) + rest).payload == ""
  {
    if m == "" {
      ReceiveFrame(m, rest);
    } else {
      TooLongIsNoMessage(m, rest);
    }
  }

  /** Reading any frames gives the messages up to the first that cannot be sent. */
  lemma {:induction false} ReadAllIsSendablePrefix(ms: seq<string>)
    ensures ReadAll(Frames(ms)) == SendablePrefix(ms)
    decreases |ms|
  {
    if ms == [] {
      ReadAllStops("");
    } else if Sendable(ms[0]) {
      ReadAllFirst(ms[0], Frames(ms[1..]));
      ReadAllIsSendablePrefix(ms[1..]);
    } else {
      NotSendableIsNoMessage(ms[0], Frames(ms[1..]));
      ReadAllStops(Frames(ms));
    }
  }

  /** A stream of frames is read back as the messages written if and only if each of them has at least one
      character and at most INT_MAX. */
  lemma {:induction false} ReadBackIffSendable(ms: seq<string>)
    ensures ReadAll(Frames(ms)) == ms <==> forall m :: m in ms ==> Sendable(m)
  {
    ReadAllIsSendablePrefix(ms);
    AllSendable(ms);
  }

  /** The answers to a list of requests. */
  ghost function Answers<S>(d: Dispatcher<S>, p: Peer<S>, ms: seq<string>): seq<Outgoing>
    decreases |ms|
  {
    if ms == [] then [] else [Answer(d, p, ms[0])] + Answers(d, Answered(d, p, ms[0]), ms[1..])
  }

  /** A session answers the requests up to the first that cannot be sent, and nothing after it. */
  lemma {:induction false} RepliesToFrames<S>(d: Dispatcher<S>, p: Peer<S>, ms: seq<string>)
    ensures Replies(d, p, Frames(ms)) == Answers(d, p, SendablePrefix(ms))
    decreases |ms|
  {
    RepliesStep(d, p, Frames(ms));
    if ms != [] {
      if Sendable(ms[0]) {
        ReceiveFrame(ms[0], Frames(ms[1..]));
        RepliesToFrames(d, Answered(d, p, ms[0]), ms[1..]);
        assert ([ms[0]] + SendablePrefix(ms[1..]))[1..] == SendablePrefix(ms[1..]);
      } else {
        NotSendableIsNoMessage(ms[0], Frames(ms[1..]));
      }
    }
  }

  /** An empty message, wherever it is, ends the session: what comes before it is answered, and nothing
      after it. */
  lemma {:induction false} EmptyMessageEndsSession<S>(d: Dispatcher<S>, p: Peer<S>, pre: seq<string>, post: seq<string>)
    requires forall m :: m in pre ==> Sendable(m)
    ensures Replies(d, p, Frames(pre + [""] + post)) == Answers(d, p, pre)
  {
    RepliesToFrames(d, p, pre + [""] + post);
    PrefixEndsAtEmpty(pre, post);
  }

  lemma {:induction false} PrefixEndsAtEmpty(pre: seq<string>, post: seq<string>)
    requires forall m :: m in pre ==> Sendable(m)
    ensures SendablePrefix(pre + [""] + post) == pre
    decreases |pre|
  {
    if pre != [] {
      assert (pre + [""] + post)[1..] == pre[1..] + [""] + post;
      PrefixEndsAtEmpty(pre[1..], post);
      assert pre[0] in pre;
    }
  }

  lemma {:induction false} TextsAreNotEmpty(ss: seq<Outgoing>)
    ensures forall t :: t in Texts(ss) ==> t != ""
  {
    if ss != [] {
      TextsAreNotEmpty(ss[..|ss| - 1]);
    }
  }

  /** End to end: a client that sends requests that can be sent reads back exactly the answers, in order, if
      and only if no answer is longer than INT_MAX. */
  lemma {:induction false} ClientReadsResponses<S>(d: Dispatcher<S>, p: Peer<S>, ms: seq<string>)
    requires forall m :: m in ms ==> Sendable(m)
    ensures var answers := Texts(Answers(d, p, ms));
      ReadAll(Frames(Texts(Replies(d, p, Frames(ms))))) == answers
      <==> forall t :: t in answers ==> |t| <= INT_MAX
  {
    RepliesToFrames(d, p, ms);
    AllSendable(ms);
    ReadBackIffSendable(Texts(Answers(d, p, ms)));
    TextsAreNotEmpty(Answers(d, p, ms));
  }

  ghost function Numbers(ss: seq<Outgoing>): seq<nat> {
    if ss == [] then []
    else Numbers(ss[..|ss| - 1]) + if ss[|ss| - 1].number.Some? then [ss[|ss| - 1].number.value] else []
  }

  lemma {:induction false} NumbersFirst(s: Outgoing, ss: seq<Outgoing>)
    ensures Numbers([s] + ss) == (if s.number.Some? then [s.number.value] else []) + Numbers(ss)
    decreases |ss|
  {
    var all := [s] + ss;
    if ss == [] {
      assert all == [s] && all[..0] == [];
    } else {
      assert all[..|all| - 1] == [s] + ss[..|ss| - 1];
      NumbersFirst(s, ss[..|ss| - 1]);
    }
  }

  /** The responses of a session are numbered consecutively, in the order in which they are sent, whatever
      the handlers do and however many other texts are sent in between. */
  lemma {:induction false} ResponsesAreNumbered<S>(d: Dispatcher<S>, p: Peer<S>, input: string)
    ensures var numbers := Numbers(Replies(d, p, input));
      && (forall i :: 0 <= i < |numbers| ==> numbers[i] == p.next + i)
      && PeerAfter(d, p, input).next == p.next + |numbers|
    decreases |input|
  {
    var r := Receive(input);
    ReceiveShrinks(input);
    RepliesStep(d, p, input);
    if r.payload != "" {
      var p' := Answered(d, p, r.payload);
      ResponsesAreNumbered(d, p', r.rest);
      NumbersFirst(Answer(d, p, r.payload), Replies(d, p', r.rest));
    }
  }

  /** The handlers' state after some requests: those that do not parse are passed over. */
  ghost function StateAfter<S>(d: Dispatcher<S>, state: S, requests: seq<string>): S {
    if requests == [] then state
    else
      var before, request := StateAfter(d, state, requests[..|requests| - 1]), requests[|requests| - 1];
      if d.parses(request) then d.handle(before, request).state else before
  }

  /** How many of the requests are answered by a response that takes a number. */
  ghost function ResponsesTo<S>(d: Dispatcher<S>, state: S, requests: seq<string>): nat {
    if requests == [] then 0
    else
      var before, request := requests[..|requests| - 1], requests[|requests| - 1];
      ResponsesTo(d, state, before)
      + if d.parses(request) && d.handle(StateAfter(d, state, before), request).reply.Response? then 1 else 0
  }

  lemma {:induction false} AfterFirst<S>(d: Dispatcher<S>, p: Peer<S>, request: string, rest: seq<string>)
    ensures var p' := Answered(d, p, request);
      && StateAfter(d, p.state, [request] + rest) == StateAfter(d, p'.state, rest)
      && p.next + ResponsesTo(d, p.state, [request] + rest) == p'.next + ResponsesTo(d, p'.state, rest)
    decreases |rest|
  {
    var all := [request] + rest;
    assert StateAfter(d, p.state, []) == p.state;
    if rest == [] {
      assert all[..0] == [] && all[|all| - 1] == request;
    } else {
      assert all[..|all| - 1] == [request] + rest[..|rest| - 1];
      AfterFirst(d, p, request, rest[..|rest| - 1]);
    }
  }

  /** What is sent for a request in the state `state`, when the next number is `n`: the number that is recorded
      is the one the text was made with. */
  ghost predicate SentFor<S>(d: Dispatcher<S>, state: S, n: nat, request: string, o: Outgoing) {
    if !d.parses(request) then o.text == d.malformed && o.number == None
    else
      match d.handle(state, request).reply
      case Response(render) => o.text == render(n) && o.number == Some(n)
      case Verbatim(text) => o.text == text && o.number == None
  }

  ghost predicate SentInOrder<S>(d: Dispatcher<S>, p: Peer<S>, requests: seq<string>, sent: seq<Outgoing>) {
    && |sent| == |requests|
    && forall i {:trigger sent[i]} :: 0 <= i < |sent| ==>
         SentFor(d, StateAfter(d, p.state, requests[..i]), p.next + ResponsesTo(d, p.state, requests[..i]), requests[i], sent[i])
  }

  lemma {:induction false} SentFirst<S>(d: Dispatcher<S>, p: Peer<S>, request: string, rest: seq<string>, more: seq<Outgoing>)
    requires SentInOrder(d, Answered(d, p, request), rest, more)
    ensures SentInOrder(d, p, [request] + rest, [Answer(d, p, request)] + more)
  {
    var requests, sent := [request] + rest, [Answer(d, p, request)] + more;
    forall i {:trigger sent[i]} | 0 <= i < |sent|
      ensures SentFor(d, StateAfter(d, p.state, requests[..i]), p.next + ResponsesTo(d, p.state, requests[..i]), requests[i], sent[i])
    {
      if i == 0 {
        assert requests[..0] == [];
      } else {
        assert requests[..i] == [request] + rest[..i - 1] && requests[i] == rest[i - 1] && sent[i] == more[i - 1];
        AfterFirst(d, p, request, rest[..i - 1]);
      }
    }
  }

  /** Every request read is answered, in order: in the state that the requests before it have left, and a
      response with the number that follows those of the responses before it, in its text. */
  lemma {:induction false} RequestsAreAnswered<S>(d: Dispatcher<S>, p: Peer<S>, input: string)
    ensures var requests := ReadAll(input);
      && SentInOrder(d, p, requests, Replies(d, p, input))
      && PeerAfter(d, p, input) == Peer(StateAfter(d, p.state, requests), p.next + ResponsesTo(d, p.state, requests))
    decreases |input|
  {
    var r := Receive(input);
    ReceiveShrinks(input);
    RepliesStep(d, p, input);
    if r.payload == "" {
      ReadAllStops(input);
    } else {
      var p' := Answered(d, p, r.payload);
      ReadAllStep(input, r.payload, r.rest);
      RequestsAreAnswered(d, p', r.rest);
      SentFirst(d, p, r.payload, ReadAll(r.rest), Replies(d, p', r.rest));
      AfterFirst(d, p, r.payload, ReadAll(r.rest));
    }
  }

  /** Texts that are not empty are all sent, in order. */
  lemma {:induction false} NothingIsDropped(ss: seq<Outgoing>)
    requires forall i :: 0 <= i < |ss| ==> ss[i].text != ""
    ensures |Texts(ss)| == |ss| && forall i :: 0 <= i < |ss| ==> Texts(ss)[i] == ss[i].text
  {
    if ss != [] {
      NothingIsDropped(ss[..|ss| - 1]);
    }
  }

  /** Every request that parses is answered by a response, as the built-in handlers and the answer to an unknown
      command are. */
  ghost predicate AlwaysResponds<S(!new)>(d: Dispatcher<S>) {
    forall state: S, request: string {:trigger d.handle(state, request)} :: d.handle(state, request).reply.Response?
  }

  /** Every answer of a session carries a number if and only if every request it reads parses: the answer to a
      malformed one has none, and takes none. */
  lemma {:induction false} AllNumberedIff<S(!new)>(d: Dispatcher<S>, p: Peer<S>, input: string)
    requires AlwaysResponds(d)
    ensures (forall answer :: answer in Replies(d, p, input) ==> answer.number.Some?)
      <==> (forall request :: request in ReadAll(input) ==> d.parses(request))
    ensures |Replies(d, p, input)| == |ReadAll(input)|
    decreases |input|
  {
    var r := Receive(input);
    ReceiveShrinks(input);
    RepliesStep(d, p, input);
    if r.payload == "" {
      ReadAllStops(input);
    } else {
      var p', answer := Answered(d, p, r.payload), Answer(d, p, r.payload);
      ReadAllStep(input, r.payload, r.rest);
      AllNumberedIff(d, p', r.rest);
      AllInFirst(answer, Replies(d, p', r.rest), (o: Outgoing) => o.number.Some?);
      AllInFirst(r.payload, ReadAll(r.rest), d.parses);
    }
  }

  lemma {:induction false} AllInFirst<T(!new)>(first: T, rest: seq<T>, good: T -> bool)
    ensures (forall x :: x in [first] + rest ==> good(x)) <==> good(first) && forall x :: x in rest ==> good(x)
  {
    assert first in [first] + rest;
    forall x | x in rest ensures x in [first] + rest {
    }
  }
}

/** Responses and events on one stream: any number of threads, each writing its frames piece by piece
    while it holds the output lock. */
module SharedOutput {
  import opened Text
  import opened Framing

  datatype Sent = Sent(thread: nat, message: string)

  // `queues` holds what each thread has still to send; `written` counts the pieces the lock's holder
  // has written; `sent` and `posted` record the past.
  datatype State = State(
    output: string, holder: Option<nat>, written: nat,
    queues: seq<seq<string>>, sent: seq<Sent>, posted: seq<seq<string>>)

  datatype Action = Post(thread: nat, message: string) | Lock(thread: nat) | WritePiece | Unlock

  ghost function Initial(threads: nat): State {
    State("", None, 0, seq(threads, _ => []), [], seq(threads, _ => []))
  }

  ghost predicate Holds(s: State) {
    s.holder.Some? ==> s.holder.value < |s.queues| && s.queues[s.holder.value] != [] && s.written <= 4
  }

  ghost predicate Enabled(s: State, a: Action) {
    match a
    case Post(t, m) => t < |s.queues| && |s.posted| == |s.queues|
    case Lock(t) => s.holder.None? && t < |s.queues| && s.queues[t] != []
    case WritePiece => s.holder.Some? && Holds(s) && s.written < 4
    case Unlock => s.holder.Some? && Holds(s) && s.written == 4
  }

  ghost function Current(s: State): string
    requires s.holder.Some? && Holds(s)
  {
    s.queues[s.holder.value][0]
  }

  ghost function Perform(s: State, a: Action): State
    requires Enabled(s, a)
  {
    match a
    case Post(t, m) =>
      s.(queues := s.queues[t := s.queues[t] + [m]], posted := s.posted[t := s.posted[t] + [m]])
    case Lock(t) => s.(holder := Some(t), written := 0)
    case WritePiece => s.(output := s.output + Pieces(Current(s))[s.written], written := s.written + 1)
    case Unlock =>
      s.(holder := None, queues := s.queues[s.holder.value := s.queues[s.holder.value][1..]],
         sent := s.sent + [Sent(s.holder.value, Current(s))])
  }

  ghost function Messages(sent: seq<Sent>): seq<string> {
    seq(|sent|, i requires 0 <= i < |sent| => sent[i].message)
  }

  ghost function By(sent: seq<Sent>, t: nat): seq<string> {
    if sent == [] then []
    else By(sent[..|sent| - 1], t) + if sent[|sent| - 1].thread == t then [sent[|sent| - 1].message] else []
  }

  /** The first `n` pieces of a message, together. */
  ghost function Begun(m: string, n: nat): string
    requires n <= 4
  {
    if n == 0 then "" else Begun(m, n - 1) + Pieces(m)[n - 1]
  }

  ghost predicate Inv(s: State) {
    && Holds(s)
    && |s.posted| == |s.queues|
    && s.output == Frames(Messages(s.sent)) + (if s.holder.Some? then Begun(Current(s), s.written) else "")
    && (forall t :: 0 <= t < |s.queues| ==> s.posted[t] == By(s.sent, t) + s.queues[t])
  }

  lemma InitialInv(threads: nat)
    ensures Inv(Initial(threads))
  {
    assert Messages([]) == [];
  }

  lemma BegunAll(m: string)
    ensures Begun(m, 4) == Frame(m)
  {
    assert Begun(m, 1) == "Content-Length: ";
    assert Begun(m, 3) == "Content-Length: " + Decimal(|m|) + "\r\n\r\n";
  }

  lemma BegunIsPrefix(m: string, n: nat)
    requires n <= 4
    ensures |Begun(m, n)| <= |Frame(m)| && Begun(m, n) == Frame(m)[..|Begun(m, n)|]
    ensures n < 4 && m != "" ==> |Begun(m, n)| < |Frame(m)|
    decreases 4 - n
  {
    BegunAll(m);
    if n < 4 {
      BegunIsPrefix(m, n + 1);
      assert Begun(m, n + 1)[..|Begun(m, n)|] == Begun(m, n);
    }
  }

  lemma {:induction false} PostKeepsInv(s: State, t: nat, m: string)
    requires Inv(s) && Enabled(s, Post(t, m))
    ensures Inv(Perform(s, Post(t, m)))
  {
    var s' := Perform(s, Post(t, m));
    assert By(s.sent, t) + (s.queues[t] + [m]) == (By(s.sent, t) + s.queues[t]) + [m];
    assert s.holder.Some? ==> Current(s') == Current(s);
  }

  lemma {:induction false} ByNext(sent: seq<Sent>, e: Sent, t: nat)
    ensures By(sent + [e], t) == By(sent, t) + if e.thread == t then [e.message] else []
  {
    assert (sent + [e])[..|sent|] == sent;
  }

  /** The message that has been written moves from the queue to what its thread has sent. */
  lemma {:induction false} UnlockKeepsPosted(sent: seq<Sent>, queues: seq<seq<string>>, posted: seq<seq<string>>, t: nat, u: nat)
    requires |posted| == |queues| && t < |queues| && queues[t] != [] && u < |queues|
    requires posted[u] == By(sent, u) + queues[u]
    ensures posted[u] == By(sent + [Sent(t, queues[t][0])], u) + queues[t := queues[t][1..]][u]
  {
    ByNext(sent, Sent(t, queues[t][0]), u);
    if u == t {
      assert queues[t] == [queues[t][0]] + queues[t][1..];
      Assoc(By(sent, t), [queues[t][0]], queues[t][1..]);
    } else {
      assert By(sent, u) + [] == By(sent, u);
    }
  }

  lemma {:induction false} UnlockKeepsOutput(s: State)
    requires Inv(s) && Enabled(s, Unlock)
    ensures s.output == Frames(Messages(s.sent + [Sent(s.holder.value, Current(s))]))
  {
    var m := Current(s);
    BegunAll(m);
    assert Messages(s.sent + [Sent(s.holder.value, m)]) == Messages(s.sent) + [m];
    FramesConcat(Messages(s.sent), [m]);
    OneFrame(m);
  }

  lemma {:induction false} UnlockKeepsInv(s: State)
    requires Inv(s) && Enabled(s, Unlock)
    ensures Inv(Perform(s, Unlock))
  {
    var t := s.holder.value;
    UnlockKeepsOutput(s);
    forall u | 0 <= u < |s.queues| ensures s.posted[u] == By(Perform(s, Unlock).sent, u) + Perform(s, Unlock).queues[u] {
      UnlockKeepsPosted(s.sent, s.queues, s.posted, t, u);
    }
  }

  lemma {:induction false} WriteKeepsInv(s: State)
    requires Inv(s) && Enabled(s, WritePiece)
    ensures Inv(Perform(s, WritePiece))
  {
    Assoc(Frames(Messages(s.sent)), Begun(Current(s), s.written), Pieces(Current(s))[s.written]);
  }

  lemma {:induction false} LockKeepsInv(s: State, t: nat)
    requires Inv(s) && Enabled(s, Lock(t))
    ensures Inv(Perform(s, Lock(t)))
  {
    assert s.output + "" == s.output;
  }

  lemma {:induction false} ActionKeepsInv(s: State, a: Action)
    requires Inv(s) && Enabled(s, a)
    ensures Inv(Perform(s, a))
  {
    match a
    case Post(t, m) => PostKeepsInv(s, t, m);
    case Lock(t) => LockKeepsInv(s, t);
    case WritePiece => WriteKeepsInv(s);
    case Unlock => UnlockKeepsInv(s);
  }

  ghost predicate CanRun(s: State, acts: seq<Action>)
    decreases |acts|
  {
    acts == [] || (Enabled(s, acts[0]) && CanRun(Perform(s, acts[0]), acts[1..]))
  }

  ghost function After(s: State, acts: seq<Action>): State
    requires CanRun(s, acts)
    decreases |acts|
  {
    if acts == [] then s else After(Perform(s, acts[0]), acts[1..])
  }

  lemma {:induction false} RunKeepsInv(s: State, acts: seq<Action>)
    requires Inv(s) && CanRun(s, acts)
    ensures Inv(After(s, acts))
    decreases |acts|
  {
    if acts != [] {
      ActionKeepsInv(s, acts[0]);
      RunKeepsInv(Perform(s, acts[0]), acts[1..]);
    }
  }

  ghost predicate AllSendable(sent: seq<Sent>) {
    forall e :: e in sent ==> Sendable(e.message)
  }

  lemma MessagesSendable(sent: seq<Sent>)
    ensures AllSendable(sent) <==> forall m :: m in Messages(sent) ==> Sendable(m)
  {
    var ms := Messages(sent);
    if AllSendable(sent) {
      forall m | m in ms ensures Sendable(m) {
        var i :| 0 <= i < |ms| && ms[i] == m;
        assert sent[i] in sent;
      }
    } else {
      var e :| e in sent && !Sendable(e.message);
      var i :| 0 <= i < |sent| && sent[i] == e;
      assert ms[i] == e.message && ms[i] in ms;
    }
  }

  lemma {:induction false} ReadsWhileWriting(s: State)
    requires Inv(s) && AllSendable(s.sent) && s.holder.Some? && s.written < 4 && Sendable(Current(s))
    ensures ReadAll(s.output) == Messages(s.sent)
  {
    MessagesSendable(s.sent);
    BegunIsPrefix(Current(s), s.written);
    ReadAllFrames(Messages(s.sent), Current(s), |Begun(Current(s), s.written)|);
  }

  lemma {:induction false} ReadsAfterWriting(s: State)
    requires Inv(s) && s.holder.None?
    ensures ReadAll(s.output) == Messages(s.sent) <==> AllSendable(s.sent)
  {
    MessagesSendable(s.sent);
    assert s.output == Frames(Messages(s.sent));
    ReadBackIffSendable(Messages(s.sent));
  }

  /** In every interleaving a reader of the stream gets the messages sent, in the order the lock was held and
      never mixed: all of them exactly when each can be sent, and never one that is only partly written.
      No thread's messages are lost, repeated or reordered. */
  lemma {:induction false} ReaderSeesSentMessages(threads: nat, acts: seq<Action>)
    requires CanRun(Initial(threads), acts)
    ensures var s := After(Initial(threads), acts);
      && Holds(s)
      && (s.holder.None? ==> (ReadAll(s.output) == Messages(s.sent) <==> AllSendable(s.sent)))
      && (s.holder.Some? && s.written < 4 && AllSendable(s.sent) && Sendable(Current(s)) ==>
            ReadAll(s.output) == Messages(s.sent))
      && |s.posted| == |s.queues|
      && (forall t :: 0 <= t < |s.queues| ==> s.posted[t] == By(s.sent, t) + s.queues[t])
  {
    InitialInv(threads);
    RunKeepsInv(Initial(threads), acts);
    var s := After(Initial(threads), acts);
    if s.holder.None? {
      ReadsAfterWriting(s);
    } else if s.written < 4 && AllSendable(s.sent) && Sendable(Current(s)) {
      ReadsWhileWriting(s);
    }
  }
}
