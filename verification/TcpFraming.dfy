/** Messages over a byte stream, each behind its two-octet length (section 4.2.2 of RFC 1035):
    TcpStream::poll of client/src/tcp/tcp_stream.rs under every pattern of partial writes and
    reads. */
module TcpFraming {
  import opened Basics

  // ----- The stream that a list of messages should be -----

  /** The length as it is written: its low sixteen bits, most significant octet first. */
  function LengthOctets(n: nat): Bytes {
    [n / 256 % 256, n % 256]
  }

  function Frame(m: Bytes): Bytes {
    LengthOctets(|m|) + m
  }

  function Frames(ms: seq<Bytes>): Bytes {
    if ms == [] then [] else Frame(ms[0]) + Frames(ms[1..])
  }

  lemma {:induction false} FramesSnoc(ms: seq<Bytes>, m: Bytes)
    ensures Frames(ms + [m]) == Frames(ms) + Frame(m)
  {
    if ms == [] {
      assert ms + [m] == [m];
    } else {
      assert (ms + [m])[1..] == ms[1..] + [m];
      FramesSnoc(ms[1..], m);
    }
  }

  // ----- Writing -----

  datatype SendState =
    | Idle
    | LenBytes(pos: nat, length: Bytes, body: Bytes)
    | Body(pos: nat, body: Bytes)
    | Flushing

  /** The writing side: the state of the message being sent, the messages still queued, what the
      socket has taken, and whether a message for another peer killed the connection. */
  datatype Writer = Writer(state: SendState, queue: seq<Outgoing>, wire: Bytes, dead: bool)

  datatype Outgoing = Outgoing(bytes: Bytes, forPeer: bool)

  /** What the socket does when it is written to or flushed: nothing yet, or take some octets. */
  datatype Socket = Blocked | Took(n: nat)

  predicate ValidSend(s: SendState) {
    match s
    case LenBytes(pos, length, _) => |length| == 2 && pos <= 2
    case Body(pos, body) => pos <= |body|
    case _ => true
  }

  function Min(a: nat, b: nat): nat {
    if a <= b then a else b
  }

  /** One turn of the write loop while something is being sent. */
  function SendTurn(w: Writer, n: nat): Writer
    requires ValidSend(w.state)
  {
    match w.state
    case Idle => w
    case LenBytes(pos, length, body) =>
      var k := Min(n, |length| - pos);
      w.(wire := w.wire + length[pos..pos + k],
         state := if pos + k < |length| then LenBytes(pos + k, length, body) else Body(0, body))
    case Body(pos, body) =>
      var k := Min(n, |body| - pos);
      w.(wire := w.wire + body[pos..pos + k],
         state := if pos + k < |body| then Body(pos + k, body) else Flushing)
    case Flushing => w.(state := Idle)
  }

  /** One turn with nothing being sent: take the next message, unless it is for another peer. */
  function TakeTurn(w: Writer): Writer {
    if w.queue == [] then w
    else if !w.queue[0].forPeer then w.(queue := w.queue[1..], dead := true)
    else w.(state := LenBytes(0, LengthOctets(|w.queue[0].bytes|), w.queue[0].bytes), queue := w.queue[1..])
  }

  /** What of the current message the socket has not taken. */
  function Pending(s: SendState): Bytes
    requires ValidSend(s)
  {
    match s
    case Idle => []
    case LenBytes(pos, length, body) => length[pos..] + body
    case Body(pos, body) => body[pos..]
    case Flushing => []
  }

  function QueueFrames(q: seq<Outgoing>): Bytes {
    if q == [] then [] else Frame(q[0].bytes) + QueueFrames(q[1..])
  }

  /** Everything written and still to be written. */
  function Stream(w: Writer): Bytes
    requires ValidSend(w.state)
  {
    w.wire + Pending(w.state) + QueueFrames(w.queue)
  }

  /** Octets moved from what is pending to the wire leave the whole as it was. */
  lemma Moved(wire: Bytes, taken: Bytes, left: Bytes, tail: Bytes)
    ensures (wire + taken) + left + tail == wire + (taken + left) + tail
  {
  }

  /** Sending the next k octets of some text leaves the rest of it pending. */
  lemma Cut(text: Bytes, pos: nat, k: nat)
    requires pos + k <= |text|
    ensures text[pos..] == text[pos..pos + k] + text[pos + k..]
  {
  }

  lemma Sends(w: Writer, w': Writer, taken: Bytes, left: Bytes)
    requires ValidSend(w.state) && ValidSend(w'.state)
    requires w'.wire == w.wire + taken && w'.queue == w.queue
    requires Pending(w.state) == taken + left && Pending(w'.state) == left
    ensures Stream(w') == Stream(w) && w.wire <= w'.wire
  {
    Moved(w.wire, taken, left, QueueFrames(w.queue));
  }

  lemma SendConserves(w: Writer, n: nat)
    requires ValidSend(w.state)
    ensures ValidSend(SendTurn(w, n).state)
    ensures Stream(SendTurn(w, n)) == Stream(w) && w.wire <= SendTurn(w, n).wire
  {
    match w.state
    case LenBytes(_, _, _) => LengthConserves(w, n);
    case Body(_, _) => BodyConserves(w, n);
    case _ =>
  }

  lemma BodyConserves(w: Writer, n: nat)
    requires ValidSend(w.state) && w.state.Body?
    ensures ValidSend(SendTurn(w, n).state)
    ensures Stream(SendTurn(w, n)) == Stream(w) && w.wire <= SendTurn(w, n).wire
  {
    var Body(pos, body) := w.state;
    var k := Min(n, |body| - pos);
    Cut(body, pos, k);
    Sends(w, SendTurn(w, n), body[pos..pos + k], body[pos + k..]);
  }

  lemma LengthConserves(w: Writer, n: nat)
    requires ValidSend(w.state) && w.state.LenBytes?
    ensures ValidSend(SendTurn(w, n).state)
    ensures Stream(SendTurn(w, n)) == Stream(w) && w.wire <= SendTurn(w, n).wire
  {
    var LenBytes(pos, length, body) := w.state;
    var k := Min(n, |length| - pos);
    LengthTaken(w, SendTurn(w, n), pos, length, body, k);
  }

  lemma LengthTaken(w: Writer, w': Writer, pos: nat, length: Bytes, body: Bytes, k: nat)
    requires w.state == LenBytes(pos, length, body) && |length| == 2 && pos + k <= 2
    requires w' == w.(wire := w.wire + length[pos..pos + k],
                      state := if pos + k < 2 then LenBytes(pos + k, length, body) else Body(0, body))
    ensures ValidSend(w'.state) && Stream(w') == Stream(w) && w.wire <= w'.wire
  {
    PendingAfter(length, body, pos + k);
    PendingBefore(length, body, pos, k);
    Sends(w, w', length[pos..pos + k], length[pos + k..] + body);
  }

  lemma PendingBefore(length: Bytes, body: Bytes, pos: nat, k: nat)
    requires pos + k <= |length|
    ensures length[pos..] + body == length[pos..pos + k] + (length[pos + k..] + body)
  {
    Cut(length, pos, k);
  }

  /** What is pending once so much of the length is written. */
  lemma PendingAfter(length: Bytes, body: Bytes, pos: nat)
    requires pos <= |length| == 2
    ensures Pending(if pos < |length| then LenBytes(pos, length, body) else Body(0, body)) == length[pos..] + body
  {
    if pos == |length| {
      assert length[pos..] == [] && body[0..] == body;
    }
  }

  lemma TakeConserves(w: Writer)
    requires w.state.Idle?
    ensures ValidSend(TakeTurn(w).state)
    ensures !TakeTurn(w).dead ==> Stream(TakeTurn(w)) == Stream(w)
    ensures TakeTurn(w).wire == w.wire
  {
    if w.queue != [] && w.queue[0].forPeer {
      var m := w.queue[0].bytes;
      var len := LengthOctets(|m|);
      assert len[0..] == len;
      assert Pending(LenBytes(0, len, m)) == Frame(m);
      assert w.wire + [] == w.wire;
    }
  }

  /** What happens on the writing side: a message is queued, the loop turns, the socket blocks. */
  datatype WriteEvent = Submit(message: Outgoing) | Turn(socket: Socket)

  function WriteStep(w: Writer, e: WriteEvent): Writer
    requires ValidSend(w.state)
  {
    match e
    case Submit(m) => w.(queue := w.queue + [m])
    case Turn(s) =>
      if w.dead then w
      else if w.state.Idle? then TakeTurn(w)
      else if s.Blocked? then w
      else SendTurn(w, s.n)
  }

  function RunWrites(w: Writer, es: seq<WriteEvent>): Writer
    requires ValidSend(w.state)
    decreases |es|
  {
    if es == [] then w
    else
      StepConserves(w, es[0]);
      RunWrites(WriteStep(w, es[0]), es[1..])
  }

  function Submitted(es: seq<WriteEvent>): seq<Bytes> {
    if es == [] then []
    else (if es[0].Submit? then [es[0].message.bytes] else []) + Submitted(es[1..])
  }

  /** What an event adds to the stream. */
  function Submission(e: WriteEvent): Bytes {
    if e.Submit? then Frame(e.message.bytes) else []
  }

  lemma {:induction false} QueueSnoc(q: seq<Outgoing>, m: Outgoing)
    ensures QueueFrames(q + [m]) == QueueFrames(q) + Frame(m.bytes)
  {
    if q == [] {
      assert q + [m] == [m];
    } else {
      assert (q + [m])[1..] == q[1..] + [m];
      QueueSnoc(q[1..], m);
    }
  }

  lemma StepConserves(w: Writer, e: WriteEvent)
    requires ValidSend(w.state)
    ensures ValidSend(WriteStep(w, e).state)
    ensures w.wire <= WriteStep(w, e).wire && (w.dead ==> WriteStep(w, e).dead)
    ensures !WriteStep(w, e).dead ==>
              Stream(WriteStep(w, e)) == Stream(w) + Submission(e)
  {
    match e
    case Submit(m) =>
      QueueSnoc(w.queue, m);
    case Turn(s) =>
      assert Stream(w) + [] == Stream(w);
      if !w.dead && w.state.Idle? {
        TakeConserves(w);
      } else if !w.dead && s.Took? {
        SendConserves(w, s.n);
      }
  }

  /** Every pattern of partial writes keeps the stream: what the socket took, what is pending and
      what is queued are together the frames of everything submitted, in order. */
  lemma {:induction false} WritesConserve(w: Writer, es: seq<WriteEvent>)
    requires ValidSend(w.state)
    ensures ValidSend(RunWrites(w, es).state)
    ensures w.wire <= RunWrites(w, es).wire && (w.dead ==> RunWrites(w, es).dead)
    ensures !RunWrites(w, es).dead ==> Stream(RunWrites(w, es)) == Stream(w) + Frames(Submitted(es))
    decreases |es|
  {
    if es == [] {
      assert Stream(w) + [] == Stream(w);
    } else {
      StepConserves(w, es[0]);
      WritesConserve(WriteStep(w, es[0]), es[1..]);
      SubmittedFrames(es);
      Associate(Stream(w), Submission(es[0]), Frames(Submitted(es[1..])));
    }
  }

  lemma SubmittedFrames(es: seq<WriteEvent>)
    requires es != []
    ensures Frames(Submitted(es)) == Submission(es[0]) + Frames(Submitted(es[1..]))
  {
    var rest := Submitted(es[1..]);
    if es[0].Submit? {
      assert Submitted(es) == [es[0].message.bytes] + rest && Submitted(es)[1..] == rest;
    } else {
      assert Submitted(es) == rest && [] + Frames(rest) == Frames(rest);
    }
  }

  lemma Associate(a: Bytes, b: Bytes, c: Bytes)
    ensures (a + b) + c == a + (b + c)
  {
  }

  const FRESH_WRITER: Writer := Writer(Idle, [], [], false)

  lemma WireInStream(w: Writer)
    requires ValidSend(w.state)
    ensures w.wire <= Stream(w)
  {
    assert Stream(w) == w.wire + (Pending(w.state) + QueueFrames(w.queue));
  }

  /** Also on a connection that was given up, the wire holds no more than the stream. */
  lemma {:induction false} WireStaysInStream(w: Writer, es: seq<WriteEvent>)
    requires ValidSend(w.state)
    ensures RunWrites(w, es).wire <= Stream(w) + Frames(Submitted(es))
    decreases |es|
  {
    WireInStream(w);
    if es != [] {
      var w' := WriteStep(w, es[0]);
      StepConserves(w, es[0]);
      SubmittedFrames(es);
      if w'.dead {
        DeadWrites(w', es[1..]);
        DyingWrites(w, es[0]);
      } else {
        WireStaysInStream(w', es[1..]);
        Associate(Stream(w), Submission(es[0]), Frames(Submitted(es[1..])));
      }
    }
  }

  /** The turn that gives up writes nothing, and nothing is written after it. */
  lemma DyingWrites(w: Writer, e: WriteEvent)
    requires ValidSend(w.state) && WriteStep(w, e).dead
    ensures WriteStep(w, e).wire == w.wire
  {
  }

  lemma {:induction false} DeadWrites(w: Writer, es: seq<WriteEvent>)
    requires ValidSend(w.state) && w.dead
    ensures RunWrites(w, es).wire == w.wire
    decreases |es|
  {
    if es != [] {
      StepConserves(w, es[0]);
      DeadWrites(WriteStep(w, es[0]), es[1..]);
    }
  }

  /** From a fresh connection: what the peer has been sent is always a prefix of the frames of the
      messages submitted, and all of it once nothing is pending on a connection not given up. */
  lemma WireIsFrames(es: seq<WriteEvent>)
    ensures RunWrites(FRESH_WRITER, es).wire <= Frames(Submitted(es))
    ensures var w := RunWrites(FRESH_WRITER, es);
            !w.dead && w.state.Idle? && w.queue == [] ==> w.wire == Frames(Submitted(es))
  {
    WritesConserve(FRESH_WRITER, es);
    WireStaysInStream(FRESH_WRITER, es);
    var w := RunWrites(FRESH_WRITER, es);
    assert Stream(FRESH_WRITER) == [];
    assert [] + Frames(Submitted(es)) == Frames(Submitted(es));
    if !w.dead && w.state.Idle? && w.queue == [] {
      assert Stream(w) == w.wire;
    }
  }

  // ----- Everything is written in the end -----

  ghost predicate AllForPeer(q: seq<Outgoing>) {
    forall i :: 0 <= i < |q| ==> q[i].forPeer
  }

  /** Only a message for another peer ends the connection. */
  lemma {:induction false} DiesExactly(w: Writer, es: seq<WriteEvent>)
    requires ValidSend(w.state) && !w.dead && AllForPeer(w.queue)
    requires forall i :: 0 <= i < |es| && es[i].Submit? ==> es[i].message.forPeer
    ensures !RunWrites(w, es).dead
    decreases |es|
  {
    if es != [] {
      StepConserves(w, es[0]);
      assert forall i :: 0 <= i < |es[1..]| ==> es[1..][i] == es[i + 1];
      DiesExactly(WriteStep(w, es[0]), es[1..]);
    }
  }

  /** A message for another peer, once it is its turn, does. */
  lemma DiesOfOthers(w: Writer, s: Socket)
    requires ValidSend(w.state) && w.state.Idle? && w.queue != [] && !w.queue[0].forPeer
    ensures WriteStep(w, Turn(s)).dead && WriteStep(w, Turn(s)).wire == w.wire
  {
  }

  /** Turns left for a message being sent: one for each octet, one to flush, one to begin the body of an
      empty message. */
  ghost function TurnsLeft(s: SendState): nat
    requires ValidSend(s)
  {
    match s
    case Idle => 0
    case LenBytes(pos, length, body) => (2 - pos) + |body| + 4
    case Body(pos, body) => (|body| - pos) + 2
    case Flushing => 1
  }

  ghost function QueueTurns(q: seq<Outgoing>): nat {
    if q == [] then 0 else 7 + |q[0].bytes| + QueueTurns(q[1..])
  }

  ghost function Work(w: Writer): nat
    requires ValidSend(w.state)
  {
    TurnsLeft(w.state) + QueueTurns(w.queue)
  }

  /** While the socket takes at least one octet a turn, every turn gets closer to the end. */
  lemma TurnProgress(w: Writer, n: nat)
    requires ValidSend(w.state) && !w.dead && AllForPeer(w.queue) && n > 0 && Work(w) > 0
    ensures var w' := WriteStep(w, Turn(Took(n)));
            ValidSend(w'.state) && !w'.dead && AllForPeer(w'.queue) && Work(w') < Work(w)
  {
    StepConserves(w, Turn(Took(n)));
  }

  lemma WorkDone(w: Writer)
    requires ValidSend(w.state)
    ensures Work(w) == 0 <==> w.state.Idle? && w.queue == []
  {
  }

  /** Given as many such turns as there is work, everything queued is on the wire. */
  lemma {:induction false} DrainsOut(w: Writer, es: seq<WriteEvent>)
    requires ValidSend(w.state) && !w.dead && AllForPeer(w.queue) && |es| >= Work(w)
    requires forall i :: 0 <= i < |es| ==> es[i].Turn? && es[i].socket.Took? && es[i].socket.n > 0
    ensures var w' := RunWrites(w, es);
            !w'.dead && w'.state.Idle? && w'.queue == [] && w'.wire == Stream(w)
    decreases |es|
  {
    WorkDone(w);
    if es == [] {
      assert w.wire + [] + [] == w.wire;
    } else {
      var w1 := WriteStep(w, es[0]);
      StepConserves(w, es[0]);
      assert forall i :: 0 <= i < |es[1..]| ==> es[1..][i] == es[i + 1];
      if Work(w) > 0 {
        TurnProgress(w, es[0].socket.n);
      }
      DrainsOut(w1, es[1..]);
    }
  }

  // ----- What a stream holds -----

  /** How a stream ends: on the boundary of a frame, inside a length, or inside a message. */
  datatype End = Clean | InLength | InMessage

  datatype Parsed = Parsed(messages: seq<Bytes>, end: End)

  function LengthOf(a: Byte, b: Byte): nat {
    a * 256 + b
  }

  function Cons(m: Bytes, p: Parsed): Parsed {
    Parsed([m] + p.messages, p.end)
  }

  /** The messages of a whole stream, up to its end or to the first frame it breaks off in; an empty
      frame breaks it off, since reading nothing is taken for the end of the stream. */
  function Parse(s: Bytes): Parsed {
    if s == [] then Parsed([], Clean)
    else if |s| == 1 then Parsed([], InLength)
    else
      var len := LengthOf(s[0], s[1]);
      if len == 0 || |s| < 2 + len then Parsed([], InMessage)
      else Cons(s[2..2 + len], Parse(s[2 + len..]))
  }

  predicate Sendable(m: Bytes) {
    1 <= |m| <= 0xFFFF
  }

  /** A frame is the length of the message, high octet first, and the message. */
  lemma FrameIs(m: Bytes)
    requires |m| <= 0xFFFF
    ensures |Frame(m)| == 2 + |m| && WordAt(Frame(m), 0) == |m| && Frame(m)[2..] == m
  {
  }

  /** And is read as such: the first message of a stream is what follows its first two octets, as long as
      they say. */
  lemma FirstFrame(s: Bytes)
    requires |s| >= 2
    ensures if 0 < WordAt(s, 0) <= |s| - 2
            then Parse(s).messages != [] && Parse(s).messages[0] == s[2..2 + WordAt(s, 0)]
            else Parse(s).messages == []
  {
  }

  lemma LengthReads(n: nat)
    ensures LengthOf(LengthOctets(n)[0], LengthOctets(n)[1]) == n % 0x1_0000
  {
    var q := n / 256;
    assert n == 0x1_0000 * (q / 256) + (256 * (q % 256) + n % 256);
    LowBits(n, q / 256, 256 * (q % 256) + n % 256);
  }

  lemma LowBits(n: nat, high: nat, low: nat)
    requires n == 0x1_0000 * high + low && low < 0x1_0000
    ensures n % 0x1_0000 == low
  {
  }

  lemma FrameParts(m: Bytes, rest: Bytes, s: Bytes)
    requires s == Frame(m) + rest
    ensures |s| == 2 + |m| + |rest| && s[..2] == LengthOctets(|m|) && s[2..2 + |m|] == m && s[2 + |m|..] == rest
    ensures LengthOf(s[0], s[1]) == |m| % 0x1_0000
  {
    LengthReads(|m|);
  }

  lemma ParseFrame(m: Bytes, rest: Bytes)
    ensures Sendable(m) ==> Parse(Frame(m) + rest) == Cons(m, Parse(rest))
    ensures !Sendable(m) ==> Parse(Frame(m) + rest).messages == [] || Parse(Frame(m) + rest).messages[0] != m
  {
    var s := Frame(m) + rest;
    FrameParts(m, rest, s);
    var len := LengthOf(s[0], s[1]);
    ParseUnfolds(s, len);
    if Sendable(m) {
      assert len == |m|;
    } else {
      assert len == 0 || len != |m|;
    }
  }

  lemma ParseUnfolds(s: Bytes, len: nat)
    requires |s| >= 2 && len == LengthOf(s[0], s[1])
    ensures 0 < len <= |s| - 2 ==> Parse(s) == Cons(s[2..2 + len], Parse(s[2 + len..])) && |Parse(s).messages[0]| == len
    ensures !(0 < len <= |s| - 2) ==> Parse(s).messages == []
  {
  }

  /** The frames of some messages parse back to exactly those messages, ending cleanly, if and only
      if each has 1 to 65535 octets. */
  lemma {:induction false} FramesParse(ms: seq<Bytes>)
    ensures Parse(Frames(ms)) == Parsed(ms, Clean) <==> forall i :: 0 <= i < |ms| ==> Sendable(ms[i])
  {
    if ms != [] {
      FramesParse(ms[1..]);
      var p := Parse(Frames(ms[1..]));
      ParseFrame(ms[0], Frames(ms[1..]));
      ConsParsed(ms, p);
      assert (forall i :: 0 <= i < |ms| ==> Sendable(ms[i])) <==>
             Sendable(ms[0]) && forall i :: 0 <= i < |ms[1..]| ==> Sendable(ms[1..][i]) by {
        assert ms == [ms[0]] + ms[1..];
      }
    }
  }

  lemma ConsParsed(ms: seq<Bytes>, p: Parsed)
    requires ms != []
    ensures Cons(ms[0], p) == Parsed(ms, Clean) <==> p == Parsed(ms[1..], Clean)
  {
    assert Cons(ms[0], p).messages[1..] == p.messages;
    assert ms == [ms[0]] + ms[1..];
  }

  /** Of any stream: the messages parsed are whole frames at its start, and it ends cleanly exactly
      when it is those frames and nothing more. */
  lemma {:induction false} ParseIsFrames(s: Bytes)
    ensures Frames(Parse(s).messages) <= s
    ensures Parse(s).end == Clean <==> s == Frames(Parse(s).messages)
    decreases |s|
  {
    if |s| >= 2 {
      var len := LengthOf(s[0], s[1]);
      ParseUnfolds(s, len);
      if 0 < len <= |s| - 2 {
        var m, rest := s[2..2 + len], s[2 + len..];
        ParseIsFrames(rest);
        FrameAtStart(s, m, rest);
        assert Parse(s).messages[1..] == Parse(rest).messages;
        PrefixBehind(Frame(m), Frames(Parse(rest).messages), rest);
      }
    }
  }

  lemma FrameAtStart(s: Bytes, m: Bytes, rest: Bytes)
    requires |s| >= 2 + |m| && |m| == LengthOf(s[0], s[1]) && m == s[2..2 + |m|] && rest == s[2 + |m|..]
    ensures s == Frame(m) + rest
  {
    var a, b := s[0], s[1];
    assert |m| / 256 % 256 == a && |m| % 256 == b;
    assert s == [a, b] + m + rest;
  }

  lemma PrefixBehind(head: Bytes, a: Bytes, b: Bytes)
    ensures a <= b ==> head + a <= head + b
    ensures a == b <==> head + a == head + b
  {
    assert (head + a)[|head|..] == a && (head + b)[|head|..] == b;
  }

  /** A stream cut anywhere: what it holds are the first of the messages sent. */
  lemma {:induction false} CutParses(ms: seq<Bytes>, s: Bytes)
    requires (forall i :: 0 <= i < |ms| ==> Sendable(ms[i])) && s <= Frames(ms)
    ensures Parse(s).messages <= ms
    decreases |ms|
  {
    if ms != [] {
      var m := ms[0];
      if |s| < |Frame(m)| {
        CutInFrame(m, Frames(ms[1..]), s);
      } else {
        var rest := s[|Frame(m)|..];
        assert s == Frame(m) + rest && rest <= Frames(ms[1..]);
        ParseFrame(m, rest);
        CutParses(ms[1..], rest);
        assert ms == [m] + ms[1..];
      }
    }
  }

  lemma CutInFrame(m: Bytes, more: Bytes, s: Bytes)
    requires s <= Frame(m) + more && |s| < |Frame(m)| && Sendable(m)
    ensures Parse(s).messages == []
  {
    if |s| >= 2 {
      FrameParts(m, more, Frame(m) + more);
      assert s[0] == (Frame(m) + more)[0] && s[1] == (Frame(m) + more)[1];
      ParseUnfolds(s, LengthOf(s[0], s[1]));
    }
  }

  // ----- Reading -----

  datatype ReadState = RLen(pos: nat, bytes: Bytes) | RBody(pos: nat, bytes: Bytes)

  predicate ValidRead(s: ReadState) {
    match s
    case RLen(pos, bytes) => |bytes| == 2 && pos < 2
    case RBody(pos, bytes) => |bytes| <= 0xFFFF && (pos < |bytes| || pos == 0)
  }

  /** The reading side: its state, the octets not yet read, the messages delivered, and the end of
      the stream once it was met. */
  datatype Reader = Reader(state: ReadState, input: Bytes, delivered: seq<Bytes>, ended: Option<End>)

  /** read(&mut bytes[pos..]) returning the first k octets of the input. */
  function Fill(bytes: Bytes, pos: nat, data: Bytes): Bytes
    requires pos + |data| <= |bytes|
  {
    bytes[..pos] + data + bytes[pos + |data|..]
  }

  const START: ReadState := RLen(0, [0, 0])

  function Wanted(s: ReadState): nat
    requires ValidRead(s)
  {
    |s.bytes| - s.pos
  }

  /** How many octets one read returns, out of what the network is ready to give: at least one while
      there is input and room. */
  function Returned(r: Reader, ready: nat): nat
    requires ValidRead(r.state)
  {
    Min(if ready == 0 then 1 else ready, Min(Wanted(r.state), |r.input|))
  }

  /** One turn of the read loop. */
  function ReadTurn(r: Reader, ready: nat): Reader
    requires ValidRead(r.state)
  {
    var k := Returned(r, ready);
    if r.ended.Some? then r
    else match r.state
      case RLen(pos, bytes) =>
        if k == 0 then r.(ended := Some(if pos == 0 then Clean else InLength))
        else
          var filled := Fill(bytes, pos, r.input[..k]);
          r.(input := r.input[k..],
             state := if pos + k < 2 then RLen(pos + k, filled) else RBody(0, Zeros(LengthOf(filled[0], filled[1]))))
      case RBody(pos, bytes) =>
        if k == 0 then r.(ended := Some(InMessage))
        else
          var filled := Fill(bytes, pos, r.input[..k]);
          if pos + k < |bytes| then r.(input := r.input[k..], state := RBody(pos + k, filled))
          else r.(input := r.input[k..], state := START, delivered := r.delivered + [filled])
  }

  /** The octets of the frame being read that were read already. */
  function Held(s: ReadState): Bytes
    requires ValidRead(s)
  {
    match s
    case RLen(pos, bytes) => bytes[..pos]
    case RBody(pos, bytes) => LengthOctets(|bytes|) + bytes[..pos]
  }

  function Append(ms: seq<Bytes>, p: Parsed): Parsed {
    Parsed(ms + p.messages, p.end)
  }

  /** What will have been delivered in the end, and how the stream will have ended. */
  function Outlook(r: Reader): Parsed
    requires ValidRead(r.state)
  {
    if r.ended.Some? then Parsed(r.delivered, r.ended.value)
    else Append(r.delivered, Parse(Held(r.state) + r.input))
  }

  lemma FillHolds(bytes: Bytes, pos: nat, data: Bytes)
    requires pos + |data| <= |bytes|
    ensures |Fill(bytes, pos, data)| == |bytes| && Fill(bytes, pos, data)[..pos + |data|] == bytes[..pos] + data
  {
  }

  lemma LengthTurn(r: Reader, ready: nat)
    requires ValidRead(r.state) && r.ended.None? && r.state.RLen?
    ensures ValidRead(ReadTurn(r, ready).state) && Outlook(ReadTurn(r, ready)) == Outlook(r)
  {
    var k := Returned(r, ready);
    var bytes, pos := r.state.bytes, r.state.pos;
    if k == 0 {
      assert r.input == [] && bytes[..pos] + r.input == bytes[..pos];
      assert r.delivered + [] == r.delivered;
    } else {
      var filled := Fill(bytes, pos, r.input[..k]);
      FillHolds(bytes, pos, r.input[..k]);
      assert bytes[..pos] + r.input == filled[..pos + k] + r.input[k..];
      if pos + k == 2 {
        assert filled[..2] == LengthOctets(LengthOf(filled[0], filled[1]));
        assert Zeros(LengthOf(filled[0], filled[1]))[..0] == [];
        assert LengthOctets(LengthOf(filled[0], filled[1])) + [] == filled[..2];
      }
    }
  }

  lemma BodyTurn(r: Reader, ready: nat)
    requires ValidRead(r.state) && r.ended.None? && r.state.RBody?
    ensures ValidRead(ReadTurn(r, ready).state) && Outlook(ReadTurn(r, ready)) == Outlook(r)
  {
    var k := Returned(r, ready);
    var bytes, pos := r.state.bytes, r.state.pos;
    var len := LengthOctets(|bytes|);
    if k == 0 {
      BrokenBody(r);
    } else {
      var filled := Fill(bytes, pos, r.input[..k]);
      FillHolds(bytes, pos, r.input[..k]);
      assert len + bytes[..pos] + r.input == len + filled[..pos + k] + r.input[k..];
      if pos + k == |bytes| {
        assert filled[..|filled|] == filled;
        MessageRead(r.delivered, filled, r.input[k..]);
      }
    }
  }

  lemma MessageRead(delivered: seq<Bytes>, m: Bytes, rest: Bytes)
    requires Sendable(m)
    ensures var p := Parse(LengthOctets(|m|) + m + rest);
            delivered + p.messages == delivered + [m] + Parse([] + rest).messages && p.end == Parse([] + rest).end
  {
    ParseFrame(m, rest);
    assert [] + rest == rest;
  }

  lemma BrokenBody(r: Reader)
    requires ValidRead(r.state) && r.ended.None? && r.state.RBody?
    requires r.input == [] || r.state.bytes == []
    ensures Outlook(r) == Parsed(r.delivered, InMessage)
  {
    var s := Held(r.state) + r.input;
    assert s[0] == |r.state.bytes| / 256 && s[1] == |r.state.bytes| % 256;
    assert LengthOf(s[0], s[1]) == |r.state.bytes|;
    assert r.delivered + [] == r.delivered;
  }

  lemma TurnKeepsOutlook(r: Reader, ready: nat)
    requires ValidRead(r.state)
    ensures ValidRead(ReadTurn(r, ready).state) && Outlook(ReadTurn(r, ready)) == Outlook(r)
  {
    if r.ended.None? {
      if r.state.RLen? { LengthTurn(r, ready); } else { BodyTurn(r, ready); }
    }
  }

  function RunReads(r: Reader, chunks: seq<nat>): Reader
    requires ValidRead(r.state)
    decreases |chunks|
  {
    if chunks == [] then r
    else
      TurnKeepsOutlook(r, chunks[0]);
      RunReads(ReadTurn(r, chunks[0]), chunks[1..])
  }

  lemma {:induction false} ReadsKeepOutlook(r: Reader, chunks: seq<nat>)
    requires ValidRead(r.state)
    ensures ValidRead(RunReads(r, chunks).state) && Outlook(RunReads(r, chunks)) == Outlook(r)
    decreases |chunks|
  {
    if chunks != [] {
      TurnKeepsOutlook(r, chunks[0]);
      ReadsKeepOutlook(ReadTurn(r, chunks[0]), chunks[1..]);
    }
  }

  function FreshReader(s: Bytes): Reader {
    Reader(START, s, [], None)
  }

  /** However the network cuts the stream up, the messages delivered so far are the first ones of
      the stream, and when the reader meets its end it has delivered exactly the stream's messages
      and reports the stream's end. */
  lemma ReadsAnyChunking(s: Bytes, chunks: seq<nat>)
    ensures RunReads(FreshReader(s), chunks).delivered <= Parse(s).messages
    ensures RunReads(FreshReader(s), chunks).ended.Some? ==>
              Parsed(RunReads(FreshReader(s), chunks).delivered, RunReads(FreshReader(s), chunks).ended.value)
              == Parse(s)
  {
    var r := FreshReader(s);
    assert Held(START) + s == s;
    assert [] + Parse(s).messages == Parse(s).messages;
    ReadsKeepOutlook(r, chunks);
  }

  /** The reader gets to the end: one turn for every octet and one more are enough, whatever the
      chunks. */
  lemma {:induction false} ReadsEnd(r: Reader, chunks: seq<nat>)
    requires ValidRead(r.state) && |chunks| > |r.input|
    ensures RunReads(r, chunks).ended.Some?
    decreases |chunks|
  {
    TurnKeepsOutlook(r, chunks[0]);
    var r' := ReadTurn(r, chunks[0]);
    if r'.ended.Some? {
      EndedStays(r', chunks[1..]);
    } else {
      ReadsEnd(r', chunks[1..]);
    }
  }

  lemma {:induction false} EndedStays(r: Reader, chunks: seq<nat>)
    requires ValidRead(r.state) && r.ended.Some?
    ensures RunReads(r, chunks) == r
    decreases |chunks|
  {
    if chunks != [] { EndedStays(r, chunks[1..]); }
  }

  // ----- The stream polled in place -----

  lemma {:induction false} RunWritesSnoc(w: Writer, es: seq<WriteEvent>, e: WriteEvent)
    requires ValidSend(w.state)
    ensures ValidSend(RunWrites(w, es).state) && RunWrites(w, es + [e]) == WriteStep(RunWrites(w, es), e)
    decreases |es|
  {
    StepConserves(w, e);
    if es == [] {
      assert es + [e] == [e] && [e][1..] == [];
    } else {
      StepConserves(w, es[0]);
      assert (es + [e])[0] == es[0] && (es + [e])[1..] == es[1..] + [e];
      RunWritesSnoc(WriteStep(w, es[0]), es[1..], e);
    }
  }

  lemma {:induction false} RunReadsSnoc(r: Reader, chunks: seq<nat>, c: nat)
    requires ValidRead(r.state)
    ensures ValidRead(RunReads(r, chunks).state) && RunReads(r, chunks + [c]) == ReadTurn(RunReads(r, chunks), c)
    decreases |chunks|
  {
    TurnKeepsOutlook(r, c);
    if chunks == [] {
      assert chunks + [c] == [c] && [c][1..] == [];
    } else {
      TurnKeepsOutlook(r, chunks[0]);
      assert (chunks + [c])[0] == chunks[0] && (chunks + [c])[1..] == chunks[1..] + [c];
      RunReadsSnoc(ReadTurn(r, chunks[0]), chunks[1..], c);
    }
  }

  datatype Received = Message(bytes: Bytes) | EndOfStream | BrokenPipe | NotReady

  class TcpStream {
    var sendState: SendState
    var queue: seq<Outgoing>
    var wire: Bytes
    var dead: bool
    var readState: ReadState
    var input: Bytes
    var ended: Option<End>
    ghost var delivered: seq<Bytes>

    constructor (input: Bytes)
      ensures Valid() && Sending() == FRESH_WRITER && Receiving() == FreshReader(input)
    {
      sendState, queue, wire, dead := Idle, [], [], false;
      readState, this.input, ended, delivered := START, input, None, [];
    }

    ghost predicate Valid()
      reads this
    {
      ValidSend(sendState) && ValidRead(readState)
    }

    ghost function Sending(): Writer
      reads this
    {
      Writer(sendState, queue, wire, dead)
    }

    ghost function Receiving(): Reader
      reads this
    {
      Reader(readState, input, delivered, ended)
    }

    /** Write to the socket until it blocks or there is nothing left to send. */
    method PollSend(socket: seq<Socket>) returns (drained: bool, ghost turns: seq<WriteEvent>)
      requires Valid() && !dead
      modifies this`sendState, this`queue, this`wire, this`dead
      ensures Valid() && Sending() == RunWrites(old(Sending()), turns)
      ensures forall i :: 0 <= i < |turns| ==> turns[i].Turn?
      ensures drained ==> sendState.Idle? && queue == []
    {
      drained, turns := false, [];
      var i := 0;
      while true
        invariant Valid() && !dead && i <= |socket|
        invariant Sending() == RunWrites(old(Sending()), turns)
        invariant forall i :: 0 <= i < |turns| ==> turns[i].Turn?
        decreases |socket| - i, |queue|
      {
        if !sendState.Idle? {
          if i == |socket| || socket[i].Blocked? {
            return;
          }
          RunWritesSnoc(old(Sending()), turns, Turn(socket[i]));
          SendConserves(Sending(), socket[i].n);
          turns := turns + [Turn(socket[i])];
          WriteSome(socket[i].n);
          i := i + 1;
        } else if queue == [] {
          drained := true;
          return;
        } else {
          RunWritesSnoc(old(Sending()), turns, Turn(Blocked));
          turns := turns + [Turn(Blocked)];
          var next := queue[0];
          queue := queue[1..];
          if !next.forPeer {
            dead := true;
            return;
          }
          sendState := LenBytes(0, LengthOctets(|next.bytes|), next.bytes);
        }
      }
    }

    /** One write or flush, and the change of state after it. */
    method WriteSome(n: nat)
      requires Valid()
      modifies this`sendState, this`wire
      ensures Sending() == SendTurn(old(Sending()), n)
    {
      match sendState {
        case LenBytes(pos, length, body) =>
          var wrote := Min(n, |length| - pos);
          wire := wire + length[pos..pos + wrote];
          if pos + wrote < |length| {
            sendState := LenBytes(pos + wrote, length, body);
          } else {
            sendState := Body(0, body);
          }
        case Body(pos, body) =>
          var wrote := Min(n, |body| - pos);
          wire := wire + body[pos..pos + wrote];
          if pos + wrote < |body| {
            sendState := Body(pos + wrote, body);
          } else {
            sendState := Flushing;
          }
        case Flushing =>
          sendState := Idle;
        case Idle =>
      }
    }

    /** Read until a message is complete, the stream ends, or nothing more is ready. */
    method PollReceive(ready: seq<nat>) returns (result: Received, used: nat)
      requires Valid() && ended.None?
      modifies this`readState, this`input, this`ended, this`delivered
      ensures Valid() && used <= |ready| && Receiving() == RunReads(old(Receiving()), ready[..used])
      ensures result.Message? ==> delivered == old(delivered) + [result.bytes]
      ensures !result.Message? ==> delivered == old(delivered)
      ensures result.EndOfStream? <==> ended == Some(Clean)
      ensures result.BrokenPipe? <==> ended.Some? && ended.value != Clean
    {
      used := 0;
      while used < |ready|
        invariant Valid() && used <= |ready| && ended.None? && delivered == old(delivered)
        invariant Receiving() == RunReads(old(Receiving()), ready[..used])
      {
        RunReadsSnoc(old(Receiving()), ready[..used], ready[used]);
        assert ready[..used + 1] == ready[..used] + [ready[used]];
        TurnKeepsOutlook(Receiving(), ready[used]);
        var got := ReadSome(ready[used]);
        used := used + 1;
        if got.Some? {
          return Message(got.value), used;
        } else if ended.Some? {
          return if ended.value == Clean then EndOfStream else BrokenPipe, used;
        }
      }
      result := NotReady;
    }

    /** One read, and the change of state after it; the message it completed, if any. */
    method ReadSome(ready: nat) returns (got: Option<Bytes>)
      requires Valid() && ended.None?
      modifies this`readState, this`input, this`ended, this`delivered
      ensures Receiving() == ReadTurn(old(Receiving()), ready)
      ensures delivered == if got.Some? then old(delivered) + [got.value] else old(delivered)
      ensures got.Some? ==> ended.None?
    {
      got := None;
      var room := |readState.bytes| - readState.pos;
      var read := Min(if ready == 0 then 1 else ready, Min(room, |input|));
      match readState {
        case RLen(pos, bytes) =>
          if read == 0 {
            ended := Some(if pos == 0 then Clean else InLength);
            return;
          }
          var filled := Fill(bytes, pos, input[..read]);
          input := input[read..];
          if pos + read < |bytes| {
            readState := RLen(pos + read, filled);
          } else {
            readState := RBody(0, Zeros(LengthOf(filled[0], filled[1])));
          }
        case RBody(pos, bytes) =>
          if read == 0 {
            ended := Some(InMessage);
            return;
          }
          var filled := Fill(bytes, pos, input[..read]);
          input := input[read..];
          if pos + read < |bytes| {
            readState := RBody(pos + read, filled);
          } else {
            readState := START;
            delivered := delivered + [filled];
            got := Some(filled);
          }
      }
    }
  }

  /** End to end, for every run of the writer, every place s where its wire is cut, and every chunking
      of what arrived: the reader has delivered the first of the messages submitted, in order, and
      its end is clean exactly when the wire was cut on the boundary of a frame. */
  lemma CutConnection(es: seq<WriteEvent>, s: Bytes, chunks: seq<nat>)
    requires forall i :: 0 <= i < |Submitted(es)| ==> Sendable(Submitted(es)[i])
    requires s <= RunWrites(FRESH_WRITER, es).wire
    ensures var r := RunReads(FreshReader(s), chunks);
            && r.delivered <= Submitted(es)
            && (r.ended.Some? ==> (r.ended == Some(Clean) <==> s == Frames(r.delivered)))
            && (|chunks| > |s| ==> r.ended.Some?)
  {
    WireIsFrames(es);
    CutParses(Submitted(es), s);
    ParseIsFrames(s);
    ReadsAnyChunking(s, chunks);
    if |chunks| > |s| {
      ReadsEnd(FreshReader(s), chunks);
    }
  }

  /** When the writer has nothing left to send and the reader reads to the end, the messages arrive
      exactly, with a clean end. */
  lemma WriterToReader(es: seq<WriteEvent>, chunks: seq<nat>)
    requires forall i :: 0 <= i < |Submitted(es)| ==> Sendable(Submitted(es)[i])
    requires !RunWrites(FRESH_WRITER, es).dead
    requires RunWrites(FRESH_WRITER, es).state.Idle? && RunWrites(FRESH_WRITER, es).queue == []
    requires |chunks| > |RunWrites(FRESH_WRITER, es).wire|
    ensures var r := RunReads(FreshReader(RunWrites(FRESH_WRITER, es).wire), chunks);
            r.delivered == Submitted(es) && r.ended == Some(Clean)
  {
    var wire := RunWrites(FRESH_WRITER, es).wire;
    WireIsFrames(es);
    FramesParse(Submitted(es));
    ReadsEnd(FreshReader(wire), chunks);
    ReadsAnyChunking(wire, chunks);
  }
}
