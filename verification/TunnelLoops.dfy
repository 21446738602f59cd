/** The four copier loops as they are written, each shown to perform a run of the
    transition system and nothing else.

    The outside world is scripted: a script says what each read, write or receive will do,
    and an exhausted script fails, as a closed connection does. What the peer sends while a
    loop runs is on the wire (or in the stream) from the start; a loop that finds nothing
    there and has to give up sees a failed read, which the script can place anywhere. */
module TunnelLoops {
  import opened TunnelModel
  import opened TunnelSafety

  /** The reading side of stdin or of the target connection. */
  class Source {
    var stream: Stream
    var replies: seq<(nat, ReadEnd)>

    constructor (stream: Stream, replies: seq<(nat, ReadEnd)>)
      ensures this.stream == stream && this.replies == replies
    {
      this.stream, this.replies := stream, replies;
    }

    /** Fills a prefix of `buffer`; bytes may come together with the end of the stream. */
    method Read(buffer: array<byte>) returns (count: nat, end: ReadEnd)
      requires buffer.Length == BUFFER
      requires stream.taken <= |stream.sent|
      modifies this, buffer
      ensures CanRead(old(stream), count, end)
      ensures stream == old(stream).(taken := old(stream.taken) + count)
      ensures buffer[..count] == stream.sent[old(stream.taken)..stream.taken]
      ensures |replies| < |old(replies)| || end.EndError?
    {
      count, end := 0, EndError;
      if replies != [] {
        if CanRead(stream, replies[0].0, replies[0].1) {
          count, end := replies[0].0, replies[0].1;
        } else {
          end := More;
        }
        replies := replies[1..];
      }
      forall i | 0 <= i < count {
        buffer[i] := stream.sent[stream.taken + i];
      }
      stream := stream.(taken := stream.taken + count);
    }
  }

  /** One direction of the WebSocket connection, with its future at both ends. */
  class Wire {
    var log: seq<Frame>
    var got: nat
    var sends: seq<bool>
    var receives: seq<bool>

    constructor (log: seq<Frame>, got: nat, sends: seq<bool>, receives: seq<bool>)
      ensures this.log == log && this.got == got && this.sends == sends && this.receives == receives
    {
      this.log, this.got, this.sends, this.receives := log, got, sends, receives;
    }

    /** A message is on the wire as a whole or not at all. */
    method WriteMessage(f: Frame) returns (ok: bool)
      modifies this`log, this`sends
      ensures log == if ok then old(log) + [f] else old(log)
    {
      ok := sends != [] && sends[0];
      if sends != [] { sends := sends[1..]; }
      if ok { log := log + [f]; }
    }

    method ReadMessage() returns (ok: bool, f: Frame)
      modifies this`got, this`receives
      ensures ok ==> old(got) < |log| && f == log[old(got)] && got == old(got) + 1
      ensures !ok ==> got == old(got)
    {
      f := CloseFrame;
      ok := receives != [] && receives[0] && got < |log|;
      if receives != [] { receives := receives[1..]; }
      if ok { f, got := log[got], got + 1; }
    }
  }

  /** The writing side of the target connection or of stdout. */
  class ByteSink {
    var accepted: Bytes
    var fin: bool
    var replies: seq<(nat, bool)>
    var closes: seq<bool>

    constructor (replies: seq<(nat, bool)>, closes: seq<bool>)
      ensures accepted == [] && !fin && this.replies == replies && this.closes == closes
    {
      this.accepted, this.fin, this.replies, this.closes := [], false, replies, closes;
    }

    /** Takes some prefix, possibly empty, possibly together with an error. */
    method Write(payload: Bytes) returns (count: nat, failed: bool)
      modifies this`accepted, this`replies
      ensures count <= |payload|
      ensures accepted == old(accepted) + payload[..count]
    {
      count, failed := 0, true;
      if replies != [] {
        count, failed := if replies[0].0 <= |payload| then replies[0].0 else |payload|, replies[0].1;
        replies := replies[1..];
      }
      accepted := accepted + payload[..count];
    }

    method CloseWrite() returns (ok: bool)
      modifies this`fin, this`closes
      ensures fin == (old(fin) || ok)
    {
      ok := closes != [] && closes[0];
      if closes != [] { closes := closes[1..]; }
      if ok { fin := true; }
    }
  }

  // ---- Runs of one half ----

  function RunFront(h: ReadHalf, res: seq<ReaderEvent>, announcesEof: bool): ReadHalf {
    if res == [] then h
    else ReaderStep(RunFront(h, res[..|res| - 1], announcesEof), res[|res| - 1], announcesEof)
  }

  function RunBack(h: WriteHalf, wes: seq<WriterEvent>, strict: bool): WriteHalf {
    if wes == [] then h
    else WriterStep(RunBack(h, wes[..|wes| - 1], strict), wes[|wes| - 1], strict)
  }

  lemma FrontSnoc(h: ReadHalf, res: seq<ReaderEvent>, re: ReaderEvent, announcesEof: bool)
    ensures RunFront(h, res + [re], announcesEof) == ReaderStep(RunFront(h, res, announcesEof), re, announcesEof)
  {
  }

  lemma BackSnoc(h: WriteHalf, wes: seq<WriterEvent>, we: WriterEvent, strict: bool)
    ensures RunBack(h, wes + [we], strict) == WriterStep(RunBack(h, wes, strict), we, strict)
  {
  }

  // ---- The reading half ----

  /** One turn of either reading loop: a read, then the write of what was read. */
  method ReadAndPush(input: Source, conn: Wire, buffer: array<byte>, announcesEof: bool)
    returns (count: nat, end: ReadEnd, sent: bool)
    requires buffer.Length == BUFFER && input.stream.taken <= |input.stream.sent|
    modifies input, conn`log, conn`sends, buffer
    ensures CanRead(old(input.stream), count, end)
    ensures |input.replies| < |old(input.replies)| || end.EndError?
    ensures !sent ==> count > 0
    ensures var before := ReadHalf(old(input.stream), Reading, old(conn.log));
            var read := ReaderStep(before, ReadBytes(count, end), announcesEof);
            var after := ReaderStep(read, Push(sent), announcesEof);
            && read == ReadHalf(input.stream, Loaded(buffer[..count], end), old(conn.log))
            && after == ReadHalf(input.stream, after.reader, conn.log)
  {
    count, end := input.Read(buffer);
    sent := true;
    if count > 0 {
      sent := conn.WriteMessage(Binary(buffer[..count]));
    }
  }

  lemma {:induction false} FrontRunKeeps(h: ReadHalf, res: seq<ReaderEvent>, announcesEof: bool)
    requires FrontInv(h)
    ensures FrontInv(RunFront(h, res, announcesEof))
    ensures h.log <= RunFront(h, res, announcesEof).log
  {
    if res != [] {
      FrontRunKeeps(h, res[..|res| - 1], announcesEof);
      FrontKeeps(RunFront(h, res[..|res| - 1], announcesEof), res[|res| - 1], announcesEof);
    }
  }

  /** What a reading copier that has returned leaves behind. */
  lemma FrontReturns(h: ReadHalf, res: seq<ReaderEvent>, announcesEof: bool)
    requires FrontInv(h) && RunFront(h, res, announcesEof).reader.Finished?
    ensures var t := RunFront(h, res, announcesEof);
            && h.log <= t.log && t.source.taken <= |t.source.sent|
            && Payload(t.log) + t.reader.dropped == t.source.sent[..t.source.taken]
            && (!t.reader.outcome.Failed? ==> t.source.ended && Payload(t.log) == t.source.sent)
  {
    FrontRunKeeps(h, res, announcesEof);
    var t := RunFront(h, res, announcesEof);
    if !t.reader.outcome.Failed? {
      assert t.source.sent[..t.source.taken] == t.source.sent;
    }
  }

  /** copyTunnelInput. Everything read is on the wire or in the one chunk whose write
      failed; a nil result means all of stdin is on the wire, with the end-of-file message
      behind it. */
  method CopyTunnelInput(input: Source, conn: Wire)
    returns (outcome: Outcome, ghost dropped: Bytes, ghost res: seq<ReaderEvent>)
    requires FrontInv(ReadHalf(input.stream, Reading, conn.log))
    modifies input, conn`log, conn`sends
    ensures RunFront(ReadHalf(old(input.stream), Reading, old(conn.log)), res, true)
         == ReadHalf(input.stream, Finished(outcome, dropped), conn.log)
    ensures input.stream.taken <= |input.stream.sent| && old(conn.log) <= conn.log
    ensures Payload(conn.log) + dropped == input.stream.sent[..input.stream.taken]
    ensures outcome.Nil? ==> EndsWithEof(conn.log) && input.stream.ended && Payload(conn.log) == input.stream.sent
  {
    ghost var before := ReadHalf(input.stream, Reading, conn.log);
    res := [];
    outcome, dropped, res := InputLoop(input, conn);
    FrontReturns(before, res, true);
  }

  method InputLoop(input: Source, conn: Wire)
    returns (outcome: Outcome, ghost dropped: Bytes, ghost res: seq<ReaderEvent>)
    requires input.stream.taken <= |input.stream.sent|
    modifies input, conn`log, conn`sends
    ensures RunFront(ReadHalf(old(input.stream), Reading, old(conn.log)), res, true)
         == ReadHalf(input.stream, Finished(outcome, dropped), conn.log)
    ensures outcome.Nil? || outcome.Failed?
    ensures outcome.Nil? ==> EndsWithEof(conn.log)
  {
    ghost var before := ReadHalf(input.stream, Reading, conn.log);
    var buffer := new byte[BUFFER];
    res := [];
    while true
      invariant input.stream.taken <= |input.stream.sent|
      invariant RunFront(before, res, true) == ReadHalf(input.stream, Reading, conn.log)
      decreases |input.replies|
    {
      var count, end, sent := ReadAndPush(input, conn, buffer, true);
      FrontSnoc(before, res, ReadBytes(count, end), true);
      res := res + [ReadBytes(count, end)];
      FrontSnoc(before, res, Push(sent), true);
      res := res + [Push(sent)];
      if !sent {
        return Failed, buffer[..count], res;
      }
      if end.EndEof? {
        var ok := conn.WriteMessage(Text(TunnelEof));
        FrontSnoc(before, res, PushEof(ok), true);
        res := res + [PushEof(ok)];
        return if ok then Nil else Failed, [], res;
      }
      if end.EndError? {
        return Failed, [], res;
      }
    }
  }

  // ---- The writing half ----

  lemma AcceptMoves(h: WriteHalf, wes: seq<WriterEvent>, d: Bytes, rest: Bytes, n: nat, failed: bool, strict: bool)
    requires RunBack(h, wes, strict) == h.(delivered := d, writer := Writing(rest)) && n <= |rest|
    ensures RunBack(h, wes + [Accept(n, failed)], strict)
         == h.(delivered := d + rest[..n],
               writer := if failed || n == 0 then Stopped(Failed, rest[n..])
                         else if n == |rest| then Waiting else Writing(rest[n..]))
  {
  }

  lemma Resume<T>(a: seq<T>, payload: seq<T>, k: nat, n: nat)
    requires k + n <= |payload|
    ensures a + payload[..k] + payload[k..][..n] == a + payload[..k + n]
    ensures payload[k..][n..] == payload[k + n..]
    ensures a + payload[..k + n] + payload[k + n..] == a + payload
  {
  }

  /** writeAll and writeFull, which are the same loop: every byte of the payload reaches
      the sink in order, or the loop stops and says what is left. */
  method WriteAll(sink: ByteSink, payload: Bytes, ghost h: WriteHalf, ghost strict: bool)
    returns (outcome: Outcome, ghost dropped: Bytes, ghost wes: seq<WriterEvent>)
    requires h.writer == (if payload == [] then Waiting else Writing(payload)) && h.delivered == sink.accepted
    modifies sink`accepted, sink`replies
    ensures outcome.Nil? || outcome.Failed?
    ensures sink.accepted + dropped == old(sink.accepted) + payload && old(sink.accepted) <= sink.accepted
    ensures outcome.Nil? ==> dropped == []
    ensures RunBack(h, wes, strict)
         == h.(delivered := sink.accepted, writer := if outcome.Nil? then Waiting else Stopped(Failed, dropped))
  {
    var rest := payload;
    ghost var k: nat := 0;
    wes := [];
    while |rest| > 0
      invariant k <= |payload| && rest == payload[k..]
      invariant sink.accepted == old(sink.accepted) + payload[..k]
      invariant RunBack(h, wes, strict)
             == h.(delivered := sink.accepted, writer := if rest == [] then Waiting else Writing(rest))
      decreases |rest|
    {
      ghost var d := sink.accepted;
      var count, failed := sink.Write(rest);
      AcceptMoves(h, wes, d, rest, count, failed, strict);
      Resume(old(sink.accepted), payload, k, count);
      wes, k := wes + [Accept(count, failed)], k + count;
      if failed || count == 0 {
        return Failed, rest[count..], wes;
      }
      rest := rest[count..];
    }
    assert payload[..k] == payload;
    outcome, dropped := Nil, [];
  }

  lemma {:induction false} BackConcat(h: WriteHalf, a: seq<WriterEvent>, b: seq<WriterEvent>, strict: bool)
    ensures RunBack(h, a + b, strict) == RunBack(RunBack(h, a, strict), b, strict)
  {
    if b == [] {
      assert a + b == a;
    } else {
      assert (a + b)[..|a + b| - 1] == a + b[..|b| - 1];
      BackConcat(h, a, b[..|b| - 1], strict);
    }
  }

  /** One binary message taken by either writing loop. */
  method Deliver(sink: ByteSink, payload: Bytes, ghost before: WriteHalf, ghost sofar: seq<WriterEvent>,
                 ghost at: WriteHalf, ghost strict: bool)
    returns (outcome: Outcome, ghost dropped: Bytes, ghost wes: seq<WriterEvent>)
    requires RunBack(before, sofar, strict) == at && at.writer == Waiting && at.delivered == sink.accepted
    requires at.got < |at.log| && at.log[at.got] == Binary(payload) && |payload| <= READ_LIMIT
    modifies sink`accepted, sink`replies
    ensures outcome.Nil? || outcome.Failed?
    ensures sink.accepted + dropped == old(sink.accepted) + payload && old(sink.accepted) <= sink.accepted
    ensures outcome.Nil? ==> dropped == []
    ensures RunBack(before, wes, strict)
         == at.(got := at.got + 1, delivered := sink.accepted,
                writer := if outcome.Nil? then Waiting else Stopped(Failed, dropped))
  {
    BackSnoc(before, sofar, Receive, strict);
    wes := sofar + [Receive];
    ghost var more;
    ghost var h := at.(got := at.got + 1, writer := if payload == [] then Waiting else Writing(payload));
    outcome, dropped, more := WriteAll(sink, payload, h, strict);
    BackConcat(before, wes, more, strict);
    wes := wes + more;
  }

  /** One text message taken by the server's loop: only `tunnel-eof` is expected, and it
      half-closes the target. */
  method HalfClose(sink: ByteSink, control: Control, ghost before: WriteHalf, ghost sofar: seq<WriterEvent>,
                   ghost at: WriteHalf)
    returns (outcome: Outcome, ghost wes: seq<WriterEvent>)
    requires RunBack(before, sofar, true) == at && at.writer == Waiting && at.fin == sink.fin
    requires at.got < |at.log| && at.log[at.got] == Text(control)
    modifies sink`fin, sink`closes
    ensures outcome == Nil || outcome == Failed
    ensures outcome == Nil ==> control == TunnelEof
    ensures RunBack(before, wes, true)
         == at.(got := at.got + 1, fin := sink.fin, writer := if outcome.Nil? then Waiting else Stopped(Failed, []))
  {
    ghost var taken := WriterStep(at, Receive, true);
    BackSnoc(before, sofar, Receive, true);
    wes := sofar + [Receive];
    assert taken == at.(got := at.got + 1, writer := OnFrame(Text(control), true));
    if control != TunnelEof { return Failed, wes; }
    var closed := sink.CloseWrite();
    BackSnoc(before, wes, CloseWrite(closed), true);
    wes := wes + [CloseWrite(closed)];
    assert WriterStep(taken, CloseWrite(closed), true)
        == taken.(fin := sink.fin, writer := if closed then Waiting else Stopped(Failed, []));
    outcome := if closed then Nil else Failed;
  }

  lemma {:induction false} BackRunKeeps(h: WriteHalf, wes: seq<WriterEvent>, strict: bool)
    requires BackInv(h) && SmallFrames(h.log)
    ensures BackInv(RunBack(h, wes, strict)) && RunBack(h, wes, strict).log == h.log
  {
    if wes != [] {
      BackRunKeeps(h, wes[..|wes| - 1], strict);
      BackKeeps(RunBack(h, wes[..|wes| - 1], strict), wes[|wes| - 1], strict);
    }
  }

  /** The server's session: the target connection and the two counters it logs. */
  class TunnelSession {
    const inbound: Wire
    const outbound: Wire
    const targetIn: ByteSink
    const targetOut: Source
    var bytesIn: nat
    var bytesOut: nat

    constructor (inbound: Wire, outbound: Wire, targetIn: ByteSink, targetOut: Source)
      ensures this.inbound == inbound && this.outbound == outbound
      ensures this.targetIn == targetIn && this.targetOut == targetOut
      ensures bytesIn == bytesOut == 0
    {
      this.inbound, this.outbound, this.targetIn, this.targetOut := inbound, outbound, targetIn, targetOut;
      bytesIn, bytesOut := 0, 0;
    }

    /** Never returns nil; an end-of-file result means everything the target sent is on the
        wire. The counter advances by exactly the bytes put on the wire. */
    method CopyTargetToWebSocket()
      returns (outcome: Outcome, ghost dropped: Bytes, ghost res: seq<ReaderEvent>)
      requires FrontInv(ReadHalf(targetOut.stream, Reading, outbound.log))
      modifies this`bytesOut, targetOut, outbound`log, outbound`sends
      ensures RunFront(ReadHalf(old(targetOut.stream), Reading, old(outbound.log)), res, false)
           == ReadHalf(targetOut.stream, Finished(outcome, dropped), outbound.log)
      ensures outcome.Eof? || outcome.Failed?
      ensures targetOut.stream.taken <= |targetOut.stream.sent| && old(outbound.log) <= outbound.log
      ensures Payload(outbound.log) + dropped == targetOut.stream.sent[..targetOut.stream.taken]
      ensures outcome.Eof? ==> targetOut.stream.ended && Payload(outbound.log) == targetOut.stream.sent
      ensures bytesOut - old(bytesOut) == |Payload(outbound.log)| - |Payload(old(outbound.log))|
    {
      ghost var before := ReadHalf(targetOut.stream, Reading, outbound.log);
      outcome, dropped, res := OutputLoop();
      FrontReturns(before, res, false);
    }

    method OutputLoop()
      returns (outcome: Outcome, ghost dropped: Bytes, ghost res: seq<ReaderEvent>)
      requires targetOut.stream.taken <= |targetOut.stream.sent|
      modifies this`bytesOut, targetOut, outbound`log, outbound`sends
      ensures RunFront(ReadHalf(old(targetOut.stream), Reading, old(outbound.log)), res, false)
           == ReadHalf(targetOut.stream, Finished(outcome, dropped), outbound.log)
      ensures outcome.Eof? || outcome.Failed?
      ensures bytesOut - old(bytesOut) == |Payload(outbound.log)| - |Payload(old(outbound.log))|
    {
      ghost var before := ReadHalf(targetOut.stream, Reading, outbound.log);
      var buffer := new byte[BUFFER];
      res := [];
      while true
        invariant targetOut.stream.taken <= |targetOut.stream.sent|
        invariant RunFront(before, res, false) == ReadHalf(targetOut.stream, Reading, outbound.log)
        invariant bytesOut - old(bytesOut) == |Payload(outbound.log)| - |Payload(old(outbound.log))|
        decreases |targetOut.replies|
      {
        ghost var log := outbound.log;
        var count, end, sent := ReadAndPush(targetOut, outbound, buffer, false);
        FrontSnoc(before, res, ReadBytes(count, end), false);
        res := res + [ReadBytes(count, end)];
        FrontSnoc(before, res, Push(sent), false);
        res := res + [Push(sent)];
        if !sent {
          return Failed, buffer[..count], res;
        }
        if count > 0 { PayloadSnoc(log, Binary(buffer[..count])); }
        bytesOut := bytesOut + count;
        if !end.More? {
          return if end.EndEof? then Eof else Failed, [], res;
        }
      }
    }

    /** The server's writing loop. It returns only failures, or the closing frame of a peer
        that sends one; the target holds every byte of
        the messages taken, but for the unwritten rest of the last one, and is half-closed
        only by an end-of-file message. The counter never runs ahead of the target. */
    method CopyWebSocketToTarget()
      returns (outcome: Outcome, ghost dropped: Bytes, ghost wes: seq<WriterEvent>)
      requires var h := WriteHalf(inbound.log, inbound.got, Waiting, targetIn.accepted, targetIn.fin);
               BackInv(h) && SmallFrames(h.log)
      modifies this`bytesIn, inbound`got, inbound`receives, targetIn
      ensures var h := WriteHalf(inbound.log, old(inbound.got), Waiting, old(targetIn.accepted), old(targetIn.fin));
              RunBack(h, wes, true)
              == WriteHalf(inbound.log, inbound.got, Stopped(outcome, dropped), targetIn.accepted, targetIn.fin)
      ensures old(inbound.got) <= inbound.got <= |inbound.log|
      ensures targetIn.accepted + dropped == Payload(inbound.log[..inbound.got])
      ensures outcome.Failed? || outcome.SawClose?
      ensures outcome.SawClose? ==> dropped == [] && inbound.got > 0 && inbound.log[inbound.got - 1] == CloseFrame
      ensures CloseFrame !in inbound.log ==> outcome == Failed
      ensures bytesIn - old(bytesIn) <= |targetIn.accepted| - |old(targetIn.accepted)|
    {
      ghost var before := WriteHalf(inbound.log, inbound.got, Waiting, targetIn.accepted, targetIn.fin);
      outcome, dropped, wes := SinkLoop();
      BackRunKeeps(before, wes, true);
    }

    method SinkLoop()
      returns (outcome: Outcome, ghost dropped: Bytes, ghost wes: seq<WriterEvent>)
      requires SmallFrames(inbound.log)
      modifies this`bytesIn, inbound`got, inbound`receives, targetIn
      ensures var h := WriteHalf(inbound.log, old(inbound.got), Waiting, old(targetIn.accepted), old(targetIn.fin));
              RunBack(h, wes, true)
              == WriteHalf(inbound.log, inbound.got, Stopped(outcome, dropped), targetIn.accepted, targetIn.fin)
      ensures inbound.got >= old(inbound.got)
      ensures outcome.Failed? || outcome.SawClose?
      ensures outcome.SawClose? ==>
                dropped == [] && 0 < inbound.got <= |inbound.log| && inbound.log[inbound.got - 1] == CloseFrame
      ensures bytesIn - old(bytesIn) <= |targetIn.accepted| - |old(targetIn.accepted)|
    {
      ghost var before := WriteHalf(inbound.log, inbound.got, Waiting, targetIn.accepted, targetIn.fin);
      wes := [];
      while true
        invariant inbound.got >= old(inbound.got)
        invariant RunBack(before, wes, true)
               == WriteHalf(inbound.log, inbound.got, Waiting, targetIn.accepted, targetIn.fin)
        invariant bytesIn - old(bytesIn) <= |targetIn.accepted| - |old(targetIn.accepted)|
        decreases |inbound.log| - inbound.got
      {
        var ok, f := inbound.ReadMessage();
        if !ok {
          BackSnoc(before, wes, ReceiveFails, true);
          return Failed, [], wes + [ReceiveFails];
        }
        match f {
          case Binary(payload) =>
            assert |FrameBytes(f)| <= BUFFER;
            ghost var at := WriteHalf(inbound.log, inbound.got - 1, Waiting, targetIn.accepted, targetIn.fin);
            ghost var had := |targetIn.accepted| + |payload|;
            outcome, dropped, wes := Deliver(targetIn, payload, before, wes, at, true);
            assert |targetIn.accepted| + |dropped| == had;
            if outcome.Failed? { return; }
            bytesIn := bytesIn + |payload|;
          case Text(control) =>
            ghost var at := WriteHalf(inbound.log, inbound.got - 1, Waiting, targetIn.accepted, targetIn.fin);
            outcome, wes := HalfClose(targetIn, control, before, wes, at);
            if outcome.Failed? { return outcome, [], wes; }
          case CloseFrame =>
            BackSnoc(before, wes, Receive, true);
            return SawClose, [], wes + [Receive];
        }
      }
    }
  }

  /** copyTunnelOutput: stdout holds every byte of the messages taken, but for the unwritten
      rest of the last one. */
  method CopyTunnelOutput(conn: Wire, output: ByteSink)
    returns (outcome: Outcome, ghost dropped: Bytes, ghost wes: seq<WriterEvent>)
    requires var h := WriteHalf(conn.log, conn.got, Waiting, output.accepted, output.fin);
             BackInv(h) && SmallFrames(h.log)
    modifies conn`got, conn`receives, output
    ensures RunBack(WriteHalf(conn.log, old(conn.got), Waiting, old(output.accepted), output.fin), wes, false)
         == WriteHalf(conn.log, conn.got, Stopped(outcome, dropped), output.accepted, output.fin)
    ensures old(conn.got) <= conn.got <= |conn.log| && output.fin == old(output.fin)
    ensures output.accepted + dropped == Payload(conn.log[..conn.got])
    ensures outcome.Failed? || outcome.SawClose?
    ensures outcome.SawClose? ==> dropped == [] && conn.got > 0 && conn.log[conn.got - 1] == CloseFrame
  {
    ghost var before := WriteHalf(conn.log, conn.got, Waiting, output.accepted, output.fin);
    outcome, dropped, wes := DisplayLoop(conn, output);
    BackRunKeeps(before, wes, false);
  }

  method DisplayLoop(conn: Wire, output: ByteSink)
    returns (outcome: Outcome, ghost dropped: Bytes, ghost wes: seq<WriterEvent>)
    requires SmallFrames(conn.log)
    modifies conn`got, conn`receives, output
    ensures RunBack(WriteHalf(conn.log, old(conn.got), Waiting, old(output.accepted), output.fin), wes, false)
         == WriteHalf(conn.log, conn.got, Stopped(outcome, dropped), output.accepted, output.fin)
    ensures conn.got >= old(conn.got) && output.fin == old(output.fin)
    ensures outcome.Failed? || outcome.SawClose?
    ensures outcome.SawClose? ==> dropped == [] && 0 < conn.got <= |conn.log| && conn.log[conn.got - 1] == CloseFrame
  {
    ghost var before := WriteHalf(conn.log, conn.got, Waiting, output.accepted, output.fin);
    wes := [];
    while true
      invariant conn.got >= old(conn.got) && output.fin == old(output.fin)
      invariant RunBack(before, wes, false) == WriteHalf(conn.log, conn.got, Waiting, output.accepted, output.fin)
      decreases |conn.log| - conn.got
    {
      var ok, f := conn.ReadMessage();
      if !ok {
        BackSnoc(before, wes, ReceiveFails, false);
        return Failed, [], wes + [ReceiveFails];
      }
      match f {
        case Binary(payload) =>
          assert |FrameBytes(f)| <= BUFFER;
          ghost var at := WriteHalf(conn.log, conn.got - 1, Waiting, output.accepted, output.fin);
          outcome, dropped, wes := Deliver(output, payload, before, wes, at, false);
          if outcome.Failed? { return; }
        case Text(control) =>
          BackSnoc(before, wes, Receive, false);
          wes := wes + [Receive];
          if control == Undecodable || control == TunnelError {
            return Failed, [], wes;
          }
        case CloseFrame =>
          BackSnoc(before, wes, Receive, false);
          return SawClose, [], wes + [Receive];
      }
    }
  }

  // ---- A half-run is a run of the whole system ----

  function LiftFront(side: Side, res: seq<ReaderEvent>): seq<Event> {
    seq(|res|, i requires 0 <= i < |res| => FrontEvent(side, res[i]))
  }

  function LiftBack(side: Side, wes: seq<WriterEvent>): seq<Event> {
    seq(|wes|, i requires 0 <= i < |wes| => BackEvent(side, wes[i]))
  }

  function PipeOf(s: System, side: Side): Pipe {
    if side.Up? then s.up else s.down
  }

  function WithPipe(s: System, side: Side, p: Pipe): System {
    if side.Up? then s.(up := p) else s.(down := p)
  }

  predicate FrontRuns(s: System, side: Side) {
    if side.Up? then ClientCopiersRun(s) else ServerCopiersRun(s)
  }

  predicate BackRuns(s: System, side: Side) {
    if side.Up? then ServerCopiersRun(s) else ClientCopiersRun(s)
  }

  lemma FrontEventMoves(s: System, side: Side, h: ReadHalf, re: ReaderEvent)
    requires FrontRuns(s, side) && (side.Down? ==> !EndsWithClose(h.log))
    ensures Step(WithPipe(s, side, PipeOf(s, side).WithFront(h)), FrontEvent(side, re))
         == WithPipe(s, side, PipeOf(s, side).WithFront(ReaderStep(h, re, side.Up?)))
    ensures side.Down? ==> !EndsWithClose(ReaderStep(h, re, side.Up?).log)
  {
  }

  lemma BackEventMoves(s: System, side: Side, h: WriteHalf, we: WriterEvent)
    requires BackRuns(s, side) && h.log == PipeOf(s, side).log
    ensures Step(WithPipe(s, side, PipeOf(s, side).WithBack(h)), BackEvent(side, we))
         == WithPipe(s, side, PipeOf(s, side).WithBack(WriterStep(h, we, side.Up?)))
    ensures WriterStep(h, we, side.Up?).log == h.log
  {
  }

  lemma RunSnoc(s: System, es: seq<Event>, e: Event)
    ensures Run(s, es + [e]) == Step(Run(s, es), e)
  {
  }

  /** The run a reading loop performs moves its own half of its own pipe as the loop does,
      and nothing else in the system. */
  lemma {:induction false} FrontRunIsSystemRun(s: System, side: Side, res: seq<ReaderEvent>)
    requires FrontRuns(s, side) && (side.Down? ==> !EndsWithClose(s.down.log))
    ensures var h := RunFront(PipeOf(s, side).Front(), res, side.Up?);
            && (side.Down? ==> !EndsWithClose(h.log))
            && Run(s, LiftFront(side, res)) == WithPipe(s, side, PipeOf(s, side).WithFront(h))
  {
    if res == [] {
      assert LiftFront(side, res) == [];
    } else {
      var init, last := res[..|res| - 1], res[|res| - 1];
      FrontRunIsSystemRun(s, side, init);
      assert LiftFront(side, res) == LiftFront(side, init) + [FrontEvent(side, last)];
      RunSnoc(s, LiftFront(side, init), FrontEvent(side, last));
      FrontEventMoves(s, side, RunFront(PipeOf(s, side).Front(), init, side.Up?), last);
    }
  }

  lemma {:induction false} BackRunIsSystemRun(s: System, side: Side, wes: seq<WriterEvent>)
    requires BackRuns(s, side)
    ensures var h := RunBack(PipeOf(s, side).Back(), wes, side.Up?);
            && h.log == PipeOf(s, side).log
            && Run(s, LiftBack(side, wes)) == WithPipe(s, side, PipeOf(s, side).WithBack(h))
  {
    if wes == [] {
      assert LiftBack(side, wes) == [];
    } else {
      var init, last := wes[..|wes| - 1], wes[|wes| - 1];
      BackRunIsSystemRun(s, side, init);
      assert LiftBack(side, wes) == LiftBack(side, init) + [BackEvent(side, last)];
      RunSnoc(s, LiftBack(side, init), BackEvent(side, last));
      BackEventMoves(s, side, RunBack(PipeOf(s, side).Back(), init, side.Up?), last);
    }
  }
}
