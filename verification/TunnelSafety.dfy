/** What every reachable state of the tunnel satisfies. */
module TunnelSafety {
  import opened TunnelModel

  // ---- Payload of message runs ----

  lemma {:induction false} PayloadSplit(a: seq<Frame>, b: seq<Frame>)
    ensures Payload(a + b) == Payload(a) + Payload(b)
  {
    if b == [] {
      assert a + b == a;
    } else {
      assert (a + b)[..|a + b| - 1] == a + b[..|b| - 1];
      PayloadSplit(a, b[..|b| - 1]);
    }
  }

  lemma PayloadSnoc(log: seq<Frame>, f: Frame)
    ensures Payload(log + [f]) == Payload(log) + FrameBytes(f)
  {
  }

  lemma PayloadTake(log: seq<Frame>, n: nat)
    requires n < |log|
    ensures Payload(log[..n + 1]) == Payload(log[..n]) + FrameBytes(log[n])
  {
    assert log[..n + 1][..n] == log[..n];
  }

  // ---- Each half on its own ----

  ghost predicate SmallFrames(log: seq<Frame>) {
    forall i :: 0 <= i < |log| ==> |FrameBytes(log[i])| <= BUFFER
  }

  predicate AtEnd(source: Stream) {
    source.ended && source.taken == |source.sent|
  }

  /** Everything read is on the wire or still held, and an end-of-file result is honest. */
  ghost predicate FrontInv(h: ReadHalf) {
    && h.source.taken <= |h.source.sent|
    && SmallFrames(h.log)
    && Payload(h.log) + Held(h.reader) == h.source.sent[..h.source.taken]
    && (h.reader.Loaded? ==> |h.reader.chunk| <= BUFFER && (h.reader.end.EndEof? ==> AtEnd(h.source)))
    && (h.reader.SendingEof? ==> AtEnd(h.source))
    && (h.reader.Finished? && !h.reader.outcome.Failed? ==> AtEnd(h.source) && h.reader.dropped == [])
  }

  /** Everything taken off the wire is delivered or still unwritten. */
  ghost predicate BackInv(h: WriteHalf) {
    && h.got <= |h.log|
    && h.delivered + Unwritten(h.writer) == Payload(h.log[..h.got])
    && (h.writer.Writing? ==> h.writer.rest != [])
  }

  lemma ReadKeeps(h: ReadHalf, n: nat, end: ReadEnd, announcesEof: bool)
    requires FrontInv(h) && h.reader.Reading? && CanRead(h.source, n, end)
    ensures FrontInv(ReaderStep(h, ReadBytes(n, end), announcesEof))
  {
    var t := h.source.taken;
    assert h.source.sent[..t + n] == h.source.sent[..t] + h.source.sent[t..t + n];
  }

  lemma ChunkOnWire(h: ReadHalf, r: Reader)
    requires FrontInv(h) && h.reader.Loaded? && Held(r) == []
    ensures var log := h.log + [Binary(h.reader.chunk)];
            SmallFrames(log) && Payload(log) + Held(r) == h.source.sent[..h.source.taken]
  {
    PayloadSnoc(h.log, Binary(h.reader.chunk));
  }

  lemma PushKeeps(h: ReadHalf, ok: bool, announcesEof: bool)
    requires FrontInv(h) && h.reader.Loaded?
    ensures FrontInv(ReaderStep(h, Push(ok), announcesEof))
  {
    if h.reader.chunk != [] && ok { ChunkOnWire(h, AfterChunk(h.reader.end, announcesEof)); }
  }

  lemma PushEofKeeps(h: ReadHalf, ok: bool, announcesEof: bool)
    requires FrontInv(h) && h.reader.SendingEof?
    ensures FrontInv(ReaderStep(h, PushEof(ok), announcesEof))
  {
    if ok { ControlIsEmpty(h, Text(TunnelEof)); }
  }

  lemma FrontKeeps(h: ReadHalf, e: ReaderEvent, announcesEof: bool)
    requires FrontInv(h)
    ensures FrontInv(ReaderStep(h, e, announcesEof))
    ensures h.log <= ReaderStep(h, e, announcesEof).log
  {
    match e
    case ReadBytes(n, end) =>
      if h.reader.Reading? && CanRead(h.source, n, end) { ReadKeeps(h, n, end, announcesEof); }
    case Push(ok) =>
      if h.reader.Loaded? { PushKeeps(h, ok, announcesEof); }
    case PushEof(ok) =>
      if h.reader.SendingEof? { PushEofKeeps(h, ok, announcesEof); }
  }

  lemma ReceiveKeeps(h: WriteHalf, strict: bool)
    requires BackInv(h) && SmallFrames(h.log) && h.writer.Waiting? && h.got < |h.log|
    ensures BackInv(WriterStep(h, Receive, strict))
  {
    var f := h.log[h.got];
    PayloadTake(h.log, h.got);
    assert Unwritten(OnFrame(f, strict)) == FrameBytes(f);
    assert h.delivered + [] == h.delivered;
  }

  lemma SplitRest(d: Bytes, rest: Bytes, n: nat)
    requires n <= |rest|
    ensures (d + rest[..n]) + rest[n..] == d + rest
  {
    assert rest[..n] + rest[n..] == rest;
  }

  lemma AcceptKeeps(h: WriteHalf, n: nat, failed: bool, strict: bool)
    requires BackInv(h) && h.writer.Writing? && n <= |h.writer.rest|
    ensures BackInv(WriterStep(h, Accept(n, failed), strict))
  {
    var rest, h' := h.writer.rest, WriterStep(h, Accept(n, failed), strict);
    SplitRest(h.delivered, rest, n);
    assert h'.delivered == h.delivered + rest[..n];
    assert Unwritten(h'.writer) == rest[n..];
  }

  lemma BackKeeps(h: WriteHalf, e: WriterEvent, strict: bool)
    requires BackInv(h) && SmallFrames(h.log)
    ensures BackInv(WriterStep(h, e, strict))
  {
    match e
    case Receive => if h.writer.Waiting? && h.got < |h.log| { ReceiveKeeps(h, strict); }
    case Accept(n, failed) =>
      if h.writer.Writing? && n <= |h.writer.rest| { AcceptKeeps(h, n, failed, strict); }
    case _ =>
  }

  /** A longer log changes nothing for the half that reads it. */
  lemma BackKeepsUnderLongerLog(h: WriteHalf, log: seq<Frame>)
    requires BackInv(h) && h.log <= log
    ensures BackInv(h.(log := log))
  {
    assert log[..h.got] == h.log[..h.got];
  }

  // ---- The shape of the two message streams ----

  predicate EndsWithEof(log: seq<Frame>) {
    |log| > 0 && log[|log| - 1] == Text(TunnelEof)
  }

  /** A greeting, then binary messages only, then at most one closing marker. */
  ghost predicate Shaped(log: seq<Frame>, greeting: Control, marker: Frame) {
    && |log| > 0 && log[0] == Text(greeting)
    && (forall i :: 0 < i < |log| - 1 ==> log[i].Binary?)
    && (|log| > 1 ==> log[|log| - 1].Binary? || log[|log| - 1] == marker)
  }

  /** Which messages the client has sent, and where the server stands in them. */
  ghost predicate UpShape(s: System) {
    var p := s.up;
    && p.got <= |p.log|
    && (match s.client
        case Connecting => p.log == []
        case Refused => p.log == [] || p.log == [Text(TunnelConnect)]
        case Awaiting => p.log == [Text(TunnelConnect)]
        case _ => Shaped(p.log, TunnelConnect, Text(TunnelEof)))
    && (!ClientCopiersRun(s) ==> p.reader == Reading && p.source.taken == 0)
    && (!ServerCopiersRun(s) ==> p.writer == Waiting && p.delivered == [] && !p.fin && p.got <= 1)
    && (s.server.Greeting? ==> p.got == 0)
    && (ServerCopiersRun(s) ==> p.got >= 1)
    && (p.reader.Finished? ==> p.reader.outcome != Eof && p.reader.outcome != SawClose)
    && (EndsWithEof(p.log) <==> p.reader.Finished? && p.reader.outcome.Nil?)
    && (p.writer.HalfClosing? || p.fin ==> EndsWithEof(p.log) && p.got == |p.log|)
    && (p.writer.Stopped? ==> p.writer.outcome == Failed)
  }

  /** Which messages the server has sent, and where the client stands in them. */
  ghost predicate DownShape(s: System) {
    var p := s.down;
    && p.got <= |p.log|
    && (match s.server
        case Greeting => p.log == []
        case Rejected => p.log == [] || p.log == [Text(TunnelError)]
        case _ => Shaped(p.log, TunnelConnected, CloseFrame))
    && (!ServerCopiersRun(s) ==> p.reader == Reading && p.source.taken == 0)
    && (!ClientCopiersRun(s) ==> p.writer == Waiting && p.delivered == [])
    && !p.fin && !p.writer.HalfClosing? && !p.reader.SendingEof?
    && (s.client.Connecting? || s.client.Awaiting? ==> p.got == 0)
    && (ClientCopiersRun(s) ==> ServerCopiersRun(s) && p.got >= 1)
    && (p.reader.Finished? ==> p.reader.outcome == Eof || p.reader.outcome == Failed)
    && (EndsWithClose(p.log) ==> s.server.ServerEnding? && s.server.stage != Took && s.server.stage != TargetShut)
    && (p.writer.Stopped? ==> p.writer.outcome == SawClose || p.writer.outcome == Failed)
    && (p.writer.Stopped? && p.writer.outcome == SawClose ==> EndsWithClose(p.log) && p.got == |p.log|)
  }

  ghost predicate Bytewise(p: Pipe) {
    FrontInv(p.Front()) && BackInv(p.Back())
  }

  /** A report already made agrees with the copier that made it. */
  ghost predicate Genuine(s: System, r: Report) {
    && r.who in s.reported
    && match r.who
       case Input => s.up.reader.Finished? && r.outcome == s.up.reader.outcome != Nil
       case Sink => s.up.writer.Stopped? && r.outcome == s.up.writer.outcome
       case Output => s.down.reader.Finished? && r.outcome == s.down.reader.outcome
       case Display => s.down.writer.Stopped? && r.outcome == s.down.writer.outcome
  }

  function ServerTaken(s: System): seq<Report> {
    if s.server.ServerEnding? then [s.server.first] else []
  }

  function ClientTaken(s: System): seq<Report> {
    if s.client.ClientEnding? then [s.client.first] else []
  }

  /** The reports seen on one side: genuine, from that side, one per copier that reported. */
  ghost predicate Tally(s: System, all: seq<Report>, server: bool) {
    && (forall i :: 0 <= i < |all| ==> Genuine(s, all[i]) && OnServer(all[i].who) == server)
    && (forall i, j :: 0 <= i < j < |all| ==> all[i].who != all[j].who)
  }

  ghost predicate ReportInv(s: System) {
    && Tally(s, ServerTaken(s) + s.serverResults, true)
    && Tally(s, ClientTaken(s) + s.clientResults, false)
    && |ServerTaken(s) + s.serverResults| <= |s.reported * {Sink, Output}|
    && |ClientTaken(s) + s.clientResults| <= |s.reported * {Input, Display}|
  }

  ghost predicate Inv(s: System) {
    BytesInv(s) && UpShape(s) && DownShape(s) && ReportInv(s)
  }

  // ---- Every event keeps the invariants ----

  lemma SupplyKeeps(p: Pipe, bytes: Bytes)
    requires Bytewise(p)
    ensures Bytewise(SupplyTo(p, bytes))
  {
  }

  lemma FrontEventKeeps(p: Pipe, re: ReaderEvent, announcesEof: bool)
    requires Bytewise(p)
    ensures Bytewise(p.WithFront(ReaderStep(p.Front(), re, announcesEof)))
  {
    FrontKeeps(p.Front(), re, announcesEof);
    BackKeepsUnderLongerLog(p.Back(), ReaderStep(p.Front(), re, announcesEof).log);
  }

  /** A control message carries no bytes. */
  lemma ControlKeeps(p: Pipe, f: Frame)
    requires Bytewise(p) && !f.Binary?
    ensures Bytewise(p.(log := p.log + [f]))
  {
    ControlIsEmpty(p.Front(), f);
    BackKeepsUnderLongerLog(p.Back(), p.log + [f]);
    assert p.(log := p.log + [f]).Front() == p.Front().(log := p.log + [f]);
    assert p.(log := p.log + [f]).Back() == p.Back().(log := p.log + [f]);
  }

  lemma ControlIsEmpty(h: ReadHalf, f: Frame)
    requires FrontInv(h) && !f.Binary?
    ensures FrontInv(h.(log := h.log + [f]))
  {
    PayloadSnoc(h.log, f);
    assert Payload(h.log + [f]) == Payload(h.log);
  }

  lemma SkipKeeps(p: Pipe)
    requires Bytewise(p) && p.got < |p.log| && !p.log[p.got].Binary?
    ensures Bytewise(p.(got := p.got + 1))
  {
    PayloadTake(p.log, p.got);
  }

  predicate AtHandshake(e: Event) {
    e.ClientHello? || e.ServerGreet? || e.ServerGreetFails? || e.ClientAwait? || e.ClientAwaitFails?
  }

  function GreetReply(s: System, accepted: bool): Frame
    requires s.up.got < |s.up.log|
  {
    if s.up.log[s.up.got] == Text(TunnelConnect) && accepted then Text(TunnelConnected) else Text(TunnelError)
  }

  lemma GreetIs(s: System, accepted: bool, ok: bool)
    ensures var t := Step(s, ServerGreet(accepted, ok));
            if s.server.Greeting? && s.up.got < |s.up.log| then
              && t.up == s.up.(got := s.up.got + 1)
              && t.down == if ok then s.down.(log := s.down.log + [GreetReply(s, accepted)]) else s.down
            else t == s
  {
  }

  lemma BytesAtGreet(s: System, accepted: bool, ok: bool)
    requires Bytewise(s.up) && Bytewise(s.down) && UpShape(s)
    ensures Bytewise(Step(s, ServerGreet(accepted, ok)).up) && Bytewise(Step(s, ServerGreet(accepted, ok)).down)
  {
    GreetIs(s, accepted, ok);
    if s.server.Greeting? && s.up.got < |s.up.log| {
      SkipKeeps(s.up);
      ControlKeeps(s.down, GreetReply(s, accepted));
    }
  }

  lemma BytesAtAwait(s: System)
    requires Bytewise(s.down) && DownShape(s)
    ensures Bytewise(Step(s, ClientAwait).down) && Step(s, ClientAwait).up == s.up
  {
    if s.client.Awaiting? && s.down.got < |s.down.log| {
      SkipKeeps(s.down);
      assert Step(s, ClientAwait).down == s.down.(got := s.down.got + 1);
    }
  }

  lemma FrontEventIs(s: System, side: Side, re: ReaderEvent)
    ensures var t := Step(s, FrontEvent(side, re));
            && (t.up == s.up || t.up == s.up.WithFront(ReaderStep(s.up.Front(), re, true)))
            && (t.down == s.down || t.down == s.down.WithFront(ReaderStep(s.down.Front(), re, false)))
  {
  }

  lemma BytesAtFront(s: System, side: Side, re: ReaderEvent)
    requires Bytewise(s.up) && Bytewise(s.down)
    ensures Bytewise(Step(s, FrontEvent(side, re)).up) && Bytewise(Step(s, FrontEvent(side, re)).down)
  {
    FrontEventIs(s, side, re);
    FrontEventKeeps(s.up, re, true);
    FrontEventKeeps(s.down, re, false);
  }

  lemma BackEventKeeps(p: Pipe, we: WriterEvent, strict: bool)
    requires Bytewise(p)
    ensures Bytewise(p.WithBack(WriterStep(p.Back(), we, strict)))
  {
    BackKeeps(p.Back(), we, strict);
    var q := p.WithBack(WriterStep(p.Back(), we, strict));
    assert q.Front() == p.Front();
    assert q.Back() == WriterStep(p.Back(), we, strict);
  }

  lemma BackEventIs(s: System, side: Side, we: WriterEvent)
    ensures var t := Step(s, BackEvent(side, we));
            && (t.up == s.up || t.up == s.up.WithBack(WriterStep(s.up.Back(), we, true)))
            && (t.down == s.down || t.down == s.down.WithBack(WriterStep(s.down.Back(), we, false)))
  {
  }

  lemma BytesAtBack(s: System, side: Side, we: WriterEvent)
    requires Bytewise(s.up) && Bytewise(s.down)
    ensures Bytewise(Step(s, BackEvent(side, we)).up) && Bytewise(Step(s, BackEvent(side, we)).down)
  {
    BackEventIs(s, side, we);
    BackEventKeeps(s.up, we, true);
    BackEventKeeps(s.down, we, false);
  }

  lemma BytesAtSource(s: System, e: Event)
    requires e.Supply? || e.EndSource?
    requires Bytewise(s.up) && Bytewise(s.down)
    ensures Bytewise(Step(s, e).up) && Bytewise(Step(s, e).down)
  {
    if e.Supply? {
      SupplyKeeps(s.up, e.bytes);
      SupplyKeeps(s.down, e.bytes);
    }
  }

  lemma ControlEventIs(s: System, e: Event)
    requires e.ClientHello? || e.ServerSendClose?
    ensures var t := Step(s, e);
            && (t.up == s.up || t.up == s.up.(log := s.up.log + [Text(TunnelConnect)]))
            && (t.down == s.down || t.down == s.down.(log := s.down.log + [CloseFrame]))
  {
  }

  lemma BytesAtControl(s: System, e: Event)
    requires e.ClientHello? || e.ServerSendClose?
    requires Bytewise(s.up) && Bytewise(s.down)
    ensures Bytewise(Step(s, e).up) && Bytewise(Step(s, e).down)
  {
    ControlEventIs(s, e);
    ControlKeeps(s.up, Text(TunnelConnect));
    ControlKeeps(s.down, CloseFrame);
  }

  predicate MovesPipes(e: Event) {
    match e
    case ReportResult(_) | ServerGreetFails | ClientAwaitFails => false
    case ServerTake | ServerShutTarget | ServerShutConn | ClientTake => false
    case _ => true
  }

  lemma PipesUnmoved(s: System, e: Event)
    requires !MovesPipes(e)
    ensures Step(s, e).up == s.up && Step(s, e).down == s.down
  {
  }

  ghost predicate BytesInv(s: System) { Bytewise(s.up) && Bytewise(s.down) }

  lemma BytesKeep(s: System, e: Event)
    requires BytesInv(s) && UpShape(s) && DownShape(s)
    ensures BytesInv(Step(s, e))
  {
    if !MovesPipes(e) { PipesUnmoved(s, e); }
    else if e.Supply? || e.EndSource? { BytesAtSource(s, e); }
    else if e.FrontEvent? { BytesAtFront(s, e.side, e.reader); }
    else if e.BackEvent? { BytesAtBack(s, e.side, e.writer); }
    else if e.ServerGreet? { BytesAtGreet(s, e.accepted, e.ok); }
    else if e.ClientAwait? { BytesAtAwait(s); }
    else { BytesAtControl(s, e); }
  }

  /** One more message on a stream that has no closing marker yet. */
  lemma ShapedSnoc(log: seq<Frame>, f: Frame, greeting: Control, marker: Frame)
    requires Shaped(log, greeting, marker) && !marker.Binary? && (|log| > 1 ==> log[|log| - 1] != marker)
    requires f.Binary? || f == marker
    ensures Shaped(log + [f], greeting, marker)
  {
  }

  lemma UpShapeFront(s: System, re: ReaderEvent)
    requires UpShape(s)
    ensures UpShape(Step(s, FrontEvent(Up, re)))
  {
    if ClientCopiersRun(s) {
      var h := s.up.Front();
      var h' := ReaderStep(h, re, true);
      if h'.log != h.log {
        var f := h'.log[|h.log|];
        assert h'.log == h.log + [f];
        ShapedSnoc(h.log, f, TunnelConnect, Text(TunnelEof));
      }
    }
  }

  lemma UpShapeBack(s: System, we: WriterEvent)
    requires UpShape(s)
    ensures UpShape(Step(s, BackEvent(Up, we)))
  {
  }

  lemma UpShapeGreet(s: System, accepted: bool, ok: bool)
    requires UpShape(s)
    ensures UpShape(Step(s, ServerGreet(accepted, ok)))
  {
    GreetIs(s, accepted, ok);
  }

  lemma UpShapeClient(s: System, e: Event)
    requires e.ClientHello? || e.ClientAwait? || e.ClientAwaitFails?
    requires UpShape(s) && DownShape(s)
    ensures UpShape(Step(s, e))
  {
  }

  lemma UpShapeElsewhere(s: System, e: Event)
    requires UpShape(s)
    requires !AtHandshake(e) || e.ServerGreetFails?
    requires !(e.FrontEvent? && e.side.Up?) && !(e.BackEvent? && e.side.Up?)
    ensures UpShape(Step(s, e))
  {
  }

  lemma UpShapeKeeps(s: System, e: Event)
    requires UpShape(s) && DownShape(s)
    ensures UpShape(Step(s, e))
  {
    match e
    case ServerGreet(accepted, ok) => UpShapeGreet(s, accepted, ok);
    case ClientHello(_) | ClientAwait | ClientAwaitFails => UpShapeClient(s, e);
    case FrontEvent(Up, re) => UpShapeFront(s, re);
    case BackEvent(Up, we) => UpShapeBack(s, we);
    case _ => UpShapeElsewhere(s, e);
  }

  lemma DownShapeFront(s: System, re: ReaderEvent)
    requires DownShape(s)
    ensures DownShape(Step(s, FrontEvent(Down, re)))
  {
    if ServerCopiersRun(s) && !(re == Push(true) && EndsWithClose(s.down.log)) {
      var h := s.down.Front();
      var h' := ReaderStep(h, re, false);
      if h'.log != h.log {
        var f := h'.log[|h.log|];
        assert h'.log == h.log + [f];
        ShapedSnoc(h.log, f, TunnelConnected, CloseFrame);
      }
    }
  }

  lemma DownShapeClose(s: System, ok: bool)
    requires DownShape(s)
    ensures DownShape(Step(s, ServerSendClose(ok)))
  {
    if s.server.ServerEnding? && s.server.stage.TargetShut? {
      ShapedSnoc(s.down.log, CloseFrame, TunnelConnected, CloseFrame);
    }
  }

  lemma DownShapeBack(s: System, we: WriterEvent)
    requires DownShape(s)
    ensures DownShape(Step(s, BackEvent(Down, we)))
  {
  }

  lemma DownShapeGreet(s: System, accepted: bool, ok: bool)
    requires UpShape(s) && DownShape(s)
    ensures DownShape(Step(s, ServerGreet(accepted, ok)))
  {
    GreetIs(s, accepted, ok);
  }

  lemma DownShapeClient(s: System, e: Event)
    requires e.ClientHello? || e.ClientAwait? || e.ClientAwaitFails?
    requires UpShape(s) && DownShape(s)
    ensures DownShape(Step(s, e))
  {
  }

  lemma DownShapeElsewhere(s: System, e: Event)
    requires DownShape(s)
    requires (!AtHandshake(e) && !e.ServerSendClose?) || e.ServerGreetFails?
    requires !(e.FrontEvent? && e.side.Down?) && !(e.BackEvent? && e.side.Down?)
    ensures DownShape(Step(s, e))
  {
  }

  lemma DownShapeKeeps(s: System, e: Event)
    requires UpShape(s) && DownShape(s)
    ensures DownShape(Step(s, e))
  {
    match e
    case ServerGreet(accepted, ok) => DownShapeGreet(s, accepted, ok);
    case ClientHello(_) | ClientAwait | ClientAwaitFails => DownShapeClient(s, e);
    case FrontEvent(Down, re) => DownShapeFront(s, re);
    case BackEvent(Down, we) => DownShapeBack(s, we);
    case ServerSendClose(ok) => DownShapeClose(s, ok);
    case _ => DownShapeElsewhere(s, e);
  }

  /** No event un-finishes a copier or changes what it returned. */
  lemma ReportsStay(s: System, e: Event, r: Report)
    requires Genuine(s, r)
    ensures Genuine(Step(s, e), r)
  {
  }

  lemma TallyStays(s: System, e: Event, all: seq<Report>, server: bool)
    requires Tally(s, all, server)
    ensures Tally(Step(s, e), all, server)
  {
    forall i | 0 <= i < |all| ensures Genuine(Step(s, e), all[i]) { ReportsStay(s, e, all[i]); }
  }

  lemma TallyAdd(s: System, all: seq<Report>, r: Report, server: bool)
    requires Tally(s, all, server) && Genuine(s, r) && OnServer(r.who) == server
    requires forall i :: 0 <= i < |all| ==> all[i].who != r.who
    ensures Tally(s, all + [r], server)
  {
  }

  /** The reports already made are by other copiers than one yet to report. */
  lemma TallyOthers(s: System, all: seq<Report>, server: bool, who: Copier)
    requires Tally(s, all, server) && who !in s.reported
    ensures forall i :: 0 <= i < |all| ==> all[i].who != who
  {
  }

  lemma ReportTallies(s: System, who: Copier)
    requires ReportInv(s) && HasReport(s, who) && |Results(s, who)| < RESULT_CAPACITY
    ensures var t := Step(s, ReportResult(who));
            Tally(t, ServerTaken(t) + t.serverResults, true) && Tally(t, ClientTaken(t) + t.clientResults, false)
  {
    var t := Step(s, ReportResult(who));
    var r := Report(who, OutcomeOf(s, who));
    var here, there := ServerTaken(s) + s.serverResults, ClientTaken(s) + s.clientResults;
    TallyStays(s, ReportResult(who), here, true);
    TallyStays(s, ReportResult(who), there, false);
    TallyOthers(s, here, true, who);
    TallyOthers(s, there, false, who);
    if OnServer(who) {
      TallyAdd(t, here, r, true);
      assert ServerTaken(t) + t.serverResults == here + [r];
    } else {
      TallyAdd(t, there, r, false);
      assert ClientTaken(t) + t.clientResults == there + [r];
    }
  }

  lemma AddOne(reported: set<Copier>, who: Copier, mine: set<Copier>)
    requires who !in reported
    ensures |(reported + {who}) * mine| == |reported * mine| + (if who in mine then 1 else 0)
  {
    if who in mine {
      assert (reported + {who}) * mine == reported * mine + {who};
    } else {
      assert (reported + {who}) * mine == reported * mine;
    }
  }

  lemma ReportCounts(s: System, who: Copier)
    requires ReportInv(s) && HasReport(s, who) && |Results(s, who)| < RESULT_CAPACITY
    ensures var t := Step(s, ReportResult(who));
            && |ServerTaken(t) + t.serverResults| <= |t.reported * {Sink, Output}|
            && |ClientTaken(t) + t.clientResults| <= |t.reported * {Input, Display}|
  {
    AddOne(s.reported, who, {Sink, Output});
    AddOne(s.reported, who, {Input, Display});
    assert Step(s, ReportResult(who)).reported == s.reported + {who};
  }

  lemma ReportsUnmoved(s: System, e: Event)
    requires !e.ReportResult?
    ensures var t := Step(s, e);
            && t.reported == s.reported
            && ServerTaken(t) + t.serverResults == ServerTaken(s) + s.serverResults
            && ClientTaken(t) + t.clientResults == ClientTaken(s) + s.clientResults
  {
  }

  lemma ReportsKeepAt(s: System, who: Copier)
    requires ReportInv(s)
    ensures ReportInv(Step(s, ReportResult(who)))
  {
    if HasReport(s, who) && |Results(s, who)| < RESULT_CAPACITY {
      ReportTallies(s, who);
      ReportCounts(s, who);
    }
  }

  lemma ReportsKeep(s: System, e: Event)
    requires ReportInv(s)
    ensures ReportInv(Step(s, e))
  {
    if e.ReportResult? {
      ReportsKeepAt(s, e.who);
    } else {
      TallyStays(s, e, ServerTaken(s) + s.serverResults, true);
      TallyStays(s, e, ClientTaken(s) + s.clientResults, false);
      ReportsUnmoved(s, e);
    }
  }

  lemma {:induction false} Reachable(es: seq<Event>)
    ensures Inv(Run(Init(), es))
  {
    if es != [] {
      var before := Run(Init(), es[..|es| - 1]);
      Reachable(es[..|es| - 1]);
      BytesKeep(before, es[|es| - 1]);
      UpShapeKeeps(before, es[|es| - 1]);
      DownShapeKeeps(before, es[|es| - 1]);
      ReportsKeep(before, es[|es| - 1]);
    }
  }
}
