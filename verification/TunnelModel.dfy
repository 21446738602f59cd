/** The TCP-over-WebSocket tunnel as one transition system: the client's two copiers,
    the server's two copiers, the two ordered message streams between them, the
    handshake in front and the teardown behind.

    Every choice the environment makes (how many bytes a read returns, how many a write
    takes, whether an operation fails, which goroutine runs next) is an argument of an
    event, so a statement about `Run(Init(), es)` for all `es` is a statement about every
    reachable state. */
module TunnelModel {
  type byte = b: int | 0 <= b < 256
  type Bytes = seq<byte>

  const BUFFER: nat := 32 * 1024
  const READ_LIMIT: nat := 256 * 1024

  /** The `type` of a decoded text message, or the failure to decode it. */
  datatype Control =
    | TunnelConnect | TunnelConnected | TunnelEof | TunnelError | OtherType | Undecodable

  datatype Frame = Binary(payload: Bytes) | Text(control: Control) | CloseFrame

  function FrameBytes(f: Frame): Bytes {
    if f.Binary? then f.payload else []
  }

  /** The bytes carried by a run of messages, in order. */
  function Payload(frames: seq<Frame>): Bytes {
    if frames == [] then []
    else Payload(frames[..|frames| - 1]) + FrameBytes(frames[|frames| - 1])
  }

  /** A byte source: everything its owner has written so far, how much of that `Read`
      has handed out, and whether the owner has closed it. */
  datatype Stream = Stream(sent: Bytes, taken: nat, ended: bool)

  /** The error half of a `Read` result. */
  datatype ReadEnd = More | EndEof | EndError

  datatype Outcome = Nil | Eof | SawClose | Failed

  /** A copier that reads a byte source and writes messages. */
  datatype Reader =
    | Reading
    | Loaded(chunk: Bytes, end: ReadEnd)
    | SendingEof
    | Finished(outcome: Outcome, dropped: Bytes)

  /** A copier that reads messages and writes a byte sink. */
  datatype Writer =
    | Waiting
    | Writing(rest: Bytes)
    | HalfClosing
    | Stopped(outcome: Outcome, dropped: Bytes)

  // ---- One direction, reading half: copyTunnelInput and copyTargetToWebSocket ----

  datatype ReadHalf = ReadHalf(source: Stream, reader: Reader, log: seq<Frame>)

  datatype ReaderEvent =
    | ReadBytes(n: nat, end: ReadEnd)
    | Push(ok: bool)
    | PushEof(ok: bool)

  /** Bytes read from the source and not (yet) turned into a message. */
  function Held(r: Reader): Bytes {
    match r
    case Loaded(chunk, _) => chunk
    case Finished(_, dropped) => dropped
    case _ => []
  }

  predicate CanRead(source: Stream, n: nat, end: ReadEnd) {
    && n <= BUFFER
    && source.taken + n <= |source.sent|
    && (end.EndEof? ==> source.ended && source.taken + n == |source.sent|)
  }

  /** What follows a chunk once it is on the wire. Only the client's copier announces
      the end of its source with a message. */
  function AfterChunk(end: ReadEnd, announcesEof: bool): Reader {
    match end
    case More => Reading
    case EndEof => if announcesEof then SendingEof else Finished(Eof, [])
    case EndError => Finished(Failed, [])
  }

  function ReaderStep(h: ReadHalf, e: ReaderEvent, announcesEof: bool): ReadHalf {
    match e
    case ReadBytes(n, end) =>
      if h.reader.Reading? && CanRead(h.source, n, end) then
        var chunk := h.source.sent[h.source.taken..h.source.taken + n];
        h.(source := h.source.(taken := h.source.taken + n), reader := Loaded(chunk, end))
      else h
    case Push(ok) =>
      if !h.reader.Loaded? then h
      else if h.reader.chunk == [] then h.(reader := AfterChunk(h.reader.end, announcesEof))
      else if ok then
        h.(log := h.log + [Binary(h.reader.chunk)], reader := AfterChunk(h.reader.end, announcesEof))
      else h.(reader := Finished(Failed, h.reader.chunk))
    case PushEof(ok) =>
      if !h.reader.SendingEof? then h
      else if ok then h.(log := h.log + [Text(TunnelEof)], reader := Finished(Nil, []))
      else h.(reader := Finished(Failed, []))
  }

  // ---- One direction, writing half: copyWebSocketToTarget and copyTunnelOutput ----

  datatype WriteHalf = WriteHalf(log: seq<Frame>, got: nat, writer: Writer, delivered: Bytes, fin: bool)

  datatype WriterEvent =
    | Receive
    | ReceiveFails
    | Accept(n: nat, failed: bool)
    | CloseWrite(ok: bool)

  /** Bytes taken off the wire and not (yet) accepted by the sink. */
  function Unwritten(w: Writer): Bytes {
    match w
    case Writing(rest) => rest
    case Stopped(_, dropped) => dropped
    case _ => []
  }

  /** What a copier does with one message. The server's copier admits only binary data
      and `tunnel-eof`; the client's copier skips every text message but an error. */
  function OnFrame(f: Frame, strict: bool): Writer {
    match f
    case Binary(payload) =>
      if |payload| > READ_LIMIT then Stopped(Failed, payload)
      else if payload == [] then Waiting
      else Writing(payload)
    case Text(control) =>
      if strict then (if control.TunnelEof? then HalfClosing else Stopped(Failed, []))
      else if control.Undecodable? || control.TunnelError? then Stopped(Failed, [])
      else Waiting
    case CloseFrame => Stopped(SawClose, [])
  }

  function WriterStep(h: WriteHalf, e: WriterEvent, strict: bool): WriteHalf {
    match e
    case Receive =>
      if h.writer.Waiting? && h.got < |h.log| then
        h.(got := h.got + 1, writer := OnFrame(h.log[h.got], strict))
      else h
    case ReceiveFails =>
      if h.writer.Waiting? then h.(writer := Stopped(Failed, [])) else h
    case Accept(n, failed) =>
      if h.writer.Writing? && n <= |h.writer.rest| then
        var rest := h.writer.rest;
        h.(delivered := h.delivered + rest[..n],
           writer := if failed || n == 0 then Stopped(Failed, rest[n..])
                     else if n == |rest| then Waiting
                     else Writing(rest[n..]))
      else h
    case CloseWrite(ok) =>
      if !h.writer.HalfClosing? then h
      else if ok then h.(fin := true, writer := Waiting)
      else h.(writer := Stopped(Failed, []))
  }

  // ---- The whole tunnel ----

  /** One direction. `log` is every message ever put on the wire and `got` counts those
      taken off it, so `log[got..]` is in flight. */
  datatype Pipe = Pipe(source: Stream, reader: Reader, log: seq<Frame>,
                       got: nat, writer: Writer, delivered: Bytes, fin: bool)
  {
    function Front(): ReadHalf { ReadHalf(source, reader, log) }

    function Back(): WriteHalf { WriteHalf(log, got, writer, delivered, fin) }

    function WithFront(h: ReadHalf): Pipe {
      this.(source := h.source, reader := h.reader, log := h.log)
    }

    function WithBack(h: WriteHalf): Pipe {
      this.(got := h.got, writer := h.writer, delivered := h.delivered, fin := h.fin)
    }

    function InFlight(): seq<Frame>
      requires got <= |log|
    {
      log[got..]
    }
  }

  /** Up carries stdin to the target, Down carries the target's bytes to stdout. */
  datatype Side = Up | Down

  /** Input and Display are the client's copiers, Output and Sink the server's. */
  datatype Copier = Input | Sink | Output | Display

  datatype Report = Report(who: Copier, outcome: Outcome)

  datatype Stage = Took | TargetShut | CloseTried | ConnShut

  datatype ServerPhase = Greeting | Rejected | ServerRelaying | ServerEnding(first: Report, stage: Stage)

  datatype ClientPhase = Connecting | Awaiting | Refused | ClientRelaying | ClientEnding(first: Report)

  /** The connection the server dials. */
  datatype TargetConn = NotDialled | Open | Shut

  datatype System = System(
    up: Pipe, down: Pipe,
    server: ServerPhase, serverResults: seq<Report>, target: TargetConn,
    client: ClientPhase, clientResults: seq<Report>,
    reported: set<Copier>)

  datatype Event =
    | Supply(side: Side, bytes: Bytes)
    | EndSource(side: Side)
    | FrontEvent(side: Side, reader: ReaderEvent)
    | BackEvent(side: Side, writer: WriterEvent)
    | ReportResult(who: Copier)
    | ClientHello(ok: bool)
    | ServerGreet(accepted: bool, ok: bool)
    | ServerGreetFails
    | ClientAwait
    | ClientAwaitFails
    | ServerTake
    | ServerShutTarget
    | ServerSendClose(ok: bool)
    | ServerShutConn
    | ClientTake

  const RESULT_CAPACITY: nat := 2

  function EmptyPipe(): Pipe {
    Pipe(Stream([], 0, false), Reading, [], 0, Waiting, [], false)
  }

  function Init(): System {
    System(EmptyPipe(), EmptyPipe(), Greeting, [], NotDialled, Connecting, [], {})
  }

  predicate ServerCopiersRun(s: System) {
    s.server.ServerRelaying? || s.server.ServerEnding?
  }

  predicate ClientCopiersRun(s: System) {
    s.client.ClientRelaying? || s.client.ClientEnding?
  }

  /** What a copier that has returned will put on its side's result channel. The client
      keeps a nil result of the input copier to itself. */
  predicate HasReport(s: System, who: Copier) {
    && who !in s.reported
    && match who
       case Input => s.up.reader.Finished? && !s.up.reader.outcome.Nil?
       case Sink => s.up.writer.Stopped?
       case Output => s.down.reader.Finished?
       case Display => s.down.writer.Stopped?
  }

  function OutcomeOf(s: System, who: Copier): Outcome
    requires HasReport(s, who)
  {
    match who
    case Input => s.up.reader.outcome
    case Sink => s.up.writer.outcome
    case Output => s.down.reader.outcome
    case Display => s.down.writer.outcome
  }

  predicate OnServer(who: Copier) { who.Sink? || who.Output? }

  function Results(s: System, who: Copier): seq<Report> {
    if OnServer(who) then s.serverResults else s.clientResults
  }

  predicate EndsWithClose(log: seq<Frame>) {
    |log| > 0 && log[|log| - 1].CloseFrame?
  }

  function SupplyTo(p: Pipe, bytes: Bytes): Pipe {
    if p.source.ended then p else p.(source := p.source.(sent := p.source.sent + bytes))
  }

  function Step(s: System, e: Event): System {
    match e
    case Supply(side, bytes) =>
      if side.Up? then s.(up := SupplyTo(s.up, bytes)) else s.(down := SupplyTo(s.down, bytes))
    case EndSource(side) =>
      if side.Up? then s.(up := s.up.(source := s.up.source.(ended := true)))
      else s.(down := s.down.(source := s.down.source.(ended := true)))
    case FrontEvent(Up, re) =>
      if ClientCopiersRun(s) then s.(up := s.up.WithFront(ReaderStep(s.up.Front(), re, true))) else s
    case FrontEvent(Down, re) =>
      // Once a closing frame is out, every further data write on that connection fails.
      if ServerCopiersRun(s) && !(re == Push(true) && EndsWithClose(s.down.log)) then
        s.(down := s.down.WithFront(ReaderStep(s.down.Front(), re, false)))
      else s
    case BackEvent(Up, we) =>
      if ServerCopiersRun(s) then s.(up := s.up.WithBack(WriterStep(s.up.Back(), we, true))) else s
    case BackEvent(Down, we) =>
      if ClientCopiersRun(s) then s.(down := s.down.WithBack(WriterStep(s.down.Back(), we, false))) else s
    case ReportResult(who) =>
      if HasReport(s, who) && |Results(s, who)| < RESULT_CAPACITY then
        var r := Report(who, OutcomeOf(s, who));
        if OnServer(who) then s.(serverResults := s.serverResults + [r], reported := s.reported + {who})
        else s.(clientResults := s.clientResults + [r], reported := s.reported + {who})
      else s
    case ClientHello(ok) =>
      if !s.client.Connecting? then s
      else if ok then s.(up := s.up.(log := s.up.log + [Text(TunnelConnect)]), client := Awaiting)
      else s.(client := Refused)
    case ServerGreet(accepted, ok) =>
      if !(s.server.Greeting? && s.up.got < |s.up.log|) then s
      else
        var first := s.up.log[s.up.got];
        var t := s.(up := s.up.(got := s.up.got + 1));
        var reply := if first == Text(TunnelConnect) && accepted then TunnelConnected else TunnelError;
        var t' := if ok then t.(down := t.down.(log := t.down.log + [Text(reply)])) else t;
        // If the reply cannot be written, the server returns and leaves the target open.
        t'.(server := if reply.TunnelConnected? && ok then ServerRelaying else Rejected,
            target := if reply.TunnelConnected? then Open else NotDialled)
    case ServerGreetFails =>
      if s.server.Greeting? then s.(server := Rejected) else s
    case ClientAwait =>
      if !(s.client.Awaiting? && s.down.got < |s.down.log|) then s
      else
        var f := s.down.log[s.down.got];
        var t := s.(down := s.down.(got := s.down.got + 1));
        if f == Text(TunnelConnected) then t.(client := ClientRelaying)
        else if f == Text(TunnelError) || f.CloseFrame? then t.(client := Refused)
        else t
    case ClientAwaitFails =>
      if s.client.Awaiting? then s.(client := Refused) else s
    case ServerTake =>
      if s.server.ServerRelaying? && |s.serverResults| > 0 then
        s.(server := ServerEnding(s.serverResults[0], Took), serverResults := s.serverResults[1..])
      else s
    case ServerShutTarget =>
      if s.server.ServerEnding? && s.server.stage.Took? then
        s.(server := s.server.(stage := TargetShut), target := Shut)
      else s
    case ServerSendClose(ok) =>
      if s.server.ServerEnding? && s.server.stage.TargetShut? then
        var t := s.(server := s.server.(stage := CloseTried));
        if ok then t.(down := t.down.(log := t.down.log + [CloseFrame])) else t
      else s
    case ServerShutConn =>
      if s.server.ServerEnding? && s.server.stage.CloseTried? then
        s.(server := s.server.(stage := ConnShut))
      else s
    case ClientTake =>
      if s.client.ClientRelaying? && |s.clientResults| > 0 then
        s.(client := ClientEnding(s.clientResults[0]), clientResults := s.clientResults[1..])
      else s
  }

  /** The state after a run of events, from any state. */
  function Run(s: System, es: seq<Event>): System {
    if es == [] then s else Step(Run(s, es[..|es| - 1]), es[|es| - 1])
  }
}
