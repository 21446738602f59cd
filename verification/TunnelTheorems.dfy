/** The tunnel's promises, as statements about every run. */
module TunnelTheorems {
  import opened TunnelModel
  import opened TunnelSafety

  lemma PrefixTake<T>(a: seq<T>, c: seq<T>, n: nat)
    requires n <= |c| && a <= c[..n]
    ensures a <= c
  {
  }

  lemma Chain(a: Bytes, b: Bytes, c: Bytes, d: Bytes, ab: Bytes, abc: Bytes, all: Bytes)
    requires a + b == ab && ab + c == abc && abc + d == all
    ensures a + b + c + d == all && a <= all
  {
  }

  lemma PipeConserves(p: Pipe)
    requires Bytewise(p)
    ensures p.delivered + Unwritten(p.writer) + Payload(p.InFlight()) + Held(p.reader)
         == p.source.sent[..p.source.taken]
    ensures p.delivered <= p.source.sent
  {
    var read := p.source.sent[..p.source.taken];
    assert Payload(p.log[..p.got]) + Payload(p.InFlight()) == Payload(p.log) by {
      assert p.log == p.log[..p.got] + p.InFlight();
      PayloadSplit(p.log[..p.got], p.InFlight());
    }
    assert p.delivered + Unwritten(p.writer) == Payload(p.log[..p.got]);
    assert Payload(p.log) + Held(p.reader) == read;
    Chain(p.delivered, Unwritten(p.writer), Payload(p.InFlight()), Held(p.reader),
          Payload(p.log[..p.got]), Payload(p.log), read);
    PrefixTake(p.delivered, p.source.sent, p.source.taken);
  }

  /** In both directions and in every reachable state, teardown included: what the sink
      accepted, what its copier holds, what is in flight and what the reading copier holds
      are together exactly the bytes read, in order. */
  lemma {:induction false} NothingLostOrReordered(es: seq<Event>, side: Side)
    ensures var s := Run(Init(), es);
            var p := if side.Up? then s.up else s.down;
            && p.got <= |p.log| && p.source.taken <= |p.source.sent|
            && p.delivered + Unwritten(p.writer) + Payload(p.InFlight()) + Held(p.reader)
               == p.source.sent[..p.source.taken]
            && p.delivered <= p.source.sent
  {
    Reachable(es);
    var s := Run(Init(), es);
    PipeConserves(if side.Up? then s.up else s.down);
  }

  /** `tunnel-eof` is the last message of the client, so it is sent at most once, after
      every binary message; no message is ever near the receivers' size limit. */
  lemma {:induction false} EofComesLast(es: seq<Event>, i: nat)
    ensures var s := Run(Init(), es);
            && (i < |s.up.log| && s.up.log[i] == Text(TunnelEof) ==>
                && i == |s.up.log| - 1
                && Payload(s.up.log) == s.up.source.sent
                && s.up.source.ended)
            && (i < |s.up.log| ==> |FrameBytes(s.up.log[i])| <= BUFFER < READ_LIMIT)
            && (i < |s.down.log| ==> |FrameBytes(s.down.log[i])| <= BUFFER < READ_LIMIT)
  {
    Reachable(es);
    var s := Run(Init(), es);
    if i < |s.up.log| && s.up.log[i] == Text(TunnelEof) { MarkerIsLast(s, i); }
  }

  lemma MarkerIsLast(s: System, i: nat)
    requires UpShape(s) && FrontInv(s.up.Front())
    requires i < |s.up.log| && s.up.log[i] == Text(TunnelEof)
    ensures i == |s.up.log| - 1 && s.up.source.ended
    ensures Payload(s.up.log) == s.up.source.sent
  {
  }

  /** When the server has half-closed the target, the target holds exactly all of stdin,
      and no later event can write to it again. */
  lemma {:induction false} HalfCloseMeansAllOfStdin(es: seq<Event>, later: seq<Event>)
    ensures var s, t := Run(Init(), es), Run(Init(), es + later);
            s.up.fin ==>
              && s.up.source.ended && s.up.delivered == s.up.source.sent
              && t.up.fin && t.up.delivered == s.up.delivered
  {
    FinIsExact(es);
    FinIsExact(es + later);
    if Run(Init(), es).up.fin { FinStays(es, later); }
  }

  lemma {:induction false} FinIsExact(es: seq<Event>)
    ensures var s := Run(Init(), es);
            s.up.fin ==> && s.up.source.ended && s.up.delivered == s.up.source.sent
                         && s.up.got == |s.up.log| && !s.up.writer.Writing?
  {
    Reachable(es);
    var p := Run(Init(), es).up;
    if p.fin {
      PipeConserves(p);
      assert p.InFlight() == [];
      assert p.source.sent[..p.source.taken] == p.source.sent;
      assert |p.delivered| + |Unwritten(p.writer)| == |p.source.sent|;
      FinHoldsNothing(es);
    }
  }

  /** After the half-close the server's copier holds no bytes. */
  lemma {:induction false} FinHoldsNothing(es: seq<Event>)
    ensures var p := Run(Init(), es).up; p.fin ==> Unwritten(p.writer) == []
  {
    if es != [] {
      FinHoldsNothing(es[..|es| - 1]);
      Reachable(es[..|es| - 1]);
      Reachable(es);
      FinStepHoldsNothing(Run(Init(), es[..|es| - 1]), es[|es| - 1]);
    }
  }

  lemma FinStepHoldsNothing(s: System, e: Event)
    requires UpShape(s) && (s.up.fin ==> Unwritten(s.up.writer) == []) && BackInv(s.up.Back())
    ensures Step(s, e).up.fin ==> Unwritten(Step(s, e).up.writer) == []
    ensures s.up.fin ==> Step(s, e).up.fin && Step(s, e).up.delivered == s.up.delivered
  {
    if e.BackEvent? { FinBack(s, e); } else { FinElsewhere(s, e); }
  }

  lemma FinBack(s: System, e: Event)
    requires e.BackEvent?
    requires UpShape(s) && (s.up.fin ==> Unwritten(s.up.writer) == []) && BackInv(s.up.Back())
    ensures Step(s, e).up.fin ==> Unwritten(Step(s, e).up.writer) == []
    ensures s.up.fin ==> Step(s, e).up.fin && Step(s, e).up.delivered == s.up.delivered
  {
  }

  lemma FinElsewhere(s: System, e: Event)
    requires !e.BackEvent?
    ensures Step(s, e).up.fin == s.up.fin && Step(s, e).up.delivered == s.up.delivered
    ensures Unwritten(s.up.writer) == [] ==> Unwritten(Step(s, e).up.writer) == []
  {
  }

  lemma {:induction false} FinStays(es: seq<Event>, later: seq<Event>)
    requires Run(Init(), es).up.fin
    ensures Run(Init(), es + later).up.fin
    ensures Run(Init(), es + later).up.delivered == Run(Init(), es).up.delivered
  {
    if later == [] {
      assert es + later == es;
    } else {
      var init := later[..|later| - 1];
      FinStays(es, init);
      assert (es + later)[..|es + later| - 1] == es + init;
      Reachable(es + init);
      FinHoldsNothing(es + init);
      FinStepHoldsNothing(Run(Init(), es + init), later[|later| - 1]);
    }
  }

  predicate EndsServer(r: Report) {
    (r.who == Output && (r.outcome == Eof || r.outcome == Failed)) || (r.who == Sink && r.outcome == Failed)
  }

  predicate EndsClient(r: Report) {
    (r.who == Display && (r.outcome == SawClose || r.outcome == Failed)) || (r.who == Input && r.outcome == Failed)
  }

  /** The end of stdin ends neither relay. The first result of the server's relay is the end
      of the target's stream or a failure, also where it is the copier of stdin's that
      reported; the client's is the closing frame or a failure. A half-close is no result. */
  lemma {:induction false} StdinEndEndsNeitherRelay(es: seq<Event>)
    ensures var s := Run(Init(), es);
            && (s.server.ServerEnding? ==> EndsServer(s.server.first))
            && (s.client.ClientEnding? ==> EndsClient(s.client.first))
  {
    Reachable(es);
    ServerResult(Run(Init(), es));
    ClientResult(Run(Init(), es));
  }

  lemma ServerResult(s: System)
    requires UpShape(s) && DownShape(s) && ReportInv(s)
    ensures s.server.ServerEnding? ==> EndsServer(s.server.first)
  {
    if s.server.ServerEnding? { assert Genuine(s, (ServerTaken(s) + s.serverResults)[0]); }
  }

  lemma ClientResult(s: System)
    requires UpShape(s) && DownShape(s) && ReportInv(s)
    ensures s.client.ClientEnding? ==> EndsClient(s.client.first)
  {
    if s.client.ClientEnding? { assert Genuine(s, (ClientTaken(s) + s.clientResults)[0]); }
  }

  /** A copier with something to report always finds room on its side's channel. */
  lemma {:induction false} NoCopierBlocks(es: seq<Event>, who: Copier)
    ensures var s := Run(Init(), es); HasReport(s, who) ==> |Results(s, who)| < RESULT_CAPACITY
  {
    Reachable(es);
    RoomToReport(Run(Init(), es), who);
  }

  lemma RoomToReport(s: System, who: Copier)
    requires ReportInv(s)
    ensures HasReport(s, who) ==> |Results(s, who)| < RESULT_CAPACITY
  {
    if HasReport(s, who) {
      var mine := if OnServer(who) then {Sink, Output} else {Input, Display};
      assert s.reported * mine <= mine - {who};
      SubsetSize(s.reported * mine, mine - {who});
      assert |mine - {who}| == 1;
    }
  }

  lemma SubsetSize<T>(a: set<T>, b: set<T>)
    requires a <= b
    ensures |a| <= |b|
  {
    assert b == a + (b - a);
  }

  // ---- Completion ----

  /** Once the client has seen the closing frame, stdout and the bytes the server's copier
      still held are exactly what was read from the target. So stdout is complete if and
      only if the target's stream was read to its end and nothing was held back. */
  lemma {:induction false} ClosingFrameAccountsForAll(es: seq<Event>)
    ensures var s := Run(Init(), es);
            s.down.writer.Stopped? && s.down.writer.outcome == SawClose ==>
              && s.down.source.taken <= |s.down.source.sent|
              && s.down.delivered + Held(s.down.reader) == s.down.source.sent[..s.down.source.taken]
              && (s.down.delivered == s.down.source.sent <==>
                  s.down.source.taken == |s.down.source.sent| && Held(s.down.reader) == [])
  {
    Reachable(es);
    SawCloseDropsNothing(es);
    var s := Run(Init(), es);
    if s.down.writer.Stopped? && s.down.writer.outcome == SawClose { CloseAccounts(s); }
  }

  lemma CloseAccounts(s: System)
    requires Bytewise(s.down) && DownShape(s)
    requires s.down.writer == Stopped(SawClose, [])
    ensures s.down.delivered + Held(s.down.reader) == s.down.source.sent[..s.down.source.taken]
    ensures s.down.delivered == s.down.source.sent <==>
            s.down.source.taken == |s.down.source.sent| && Held(s.down.reader) == []
  {
    var p := s.down;
    var d, h, read := p.delivered, Held(p.reader), p.source.sent[..p.source.taken];
    assert p.log[..p.got] == p.log;
    assert p.delivered + [] == p.delivered;
    assert d + h == read;
    assert |d| + |h| == |read|;
    if h == [] { assert d + h == d; }
    if p.source.taken == |p.source.sent| { assert read == p.source.sent; }
  }

  predicate CloseDropsNothing(w: Writer) { w.Stopped? && w.outcome.SawClose? ==> w.dropped == [] }

  lemma SawCloseStep(s: System, e: Event)
    requires CloseDropsNothing(s.down.writer)
    ensures CloseDropsNothing(Step(s, e).down.writer)
  {
  }

  lemma {:induction false} SawCloseDropsNothing(es: seq<Event>)
    ensures CloseDropsNothing(Run(Init(), es).down.writer)
  {
    if es != [] {
      SawCloseDropsNothing(es[..|es| - 1]);
      SawCloseStep(Run(Init(), es[..|es| - 1]), es[|es| - 1]);
    }
  }

  /** If the server's first result is the target's end of file and the client returned
      because it saw the closing frame, stdout is everything the target sent. */
  lemma {:induction false} CleanCompletion(es: seq<Event>)
    ensures var s := Run(Init(), es);
            && s.server.ServerEnding? && s.server.first == Report(Output, Eof)
            && s.client.ClientEnding? && s.client.first == Report(Display, SawClose)
            ==> s.down.source.ended && s.down.delivered == s.down.source.sent
  {
    Reachable(es);
    ClosingFrameAccountsForAll(es);
    var s := Run(Init(), es);
    if && s.server.ServerEnding? && s.server.first == Report(Output, Eof)
       && s.client.ClientEnding? && s.client.first == Report(Display, SawClose) {
      assert Genuine(s, (ServerTaken(s) + s.serverResults)[0]);
      assert Genuine(s, (ClientTaken(s) + s.clientResults)[0]);
    }
  }

  /** An event in which no operation of a copier fails. */
  predicate Benign(e: Event) {
    match e
    case FrontEvent(_, ReadBytes(_, end)) => !end.EndError?
    case FrontEvent(_, Push(ok)) => ok
    case FrontEvent(_, PushEof(ok)) => ok
    case BackEvent(_, ReceiveFails) => false
    case BackEvent(_, Accept(n, failed)) => !failed && n > 0
    case BackEvent(_, CloseWrite(ok)) => ok
    case _ => true
  }

  predicate Healthy(s: System) {
    && (s.up.reader.Loaded? ==> !s.up.reader.end.EndError?)
    && (s.down.reader.Loaded? ==> !s.down.reader.end.EndError?)
    && (s.up.reader.Finished? ==> s.up.reader.outcome.Nil?)
    && (s.down.reader.Finished? ==> s.down.reader.outcome.Eof?)
    && !s.up.writer.Stopped?
    && (s.down.writer.Stopped? ==> s.down.writer.outcome.SawClose?)
  }

  lemma HealthyFront(s: System, e: Event)
    requires e.FrontEvent? && Healthy(s) && Benign(e) && DownShape(s)
    ensures Healthy(Step(s, e))
  {
  }

  lemma HealthyElsewhere(s: System, e: Event)
    requires !e.FrontEvent? && !e.BackEvent? && Healthy(s)
    ensures Healthy(Step(s, e))
  {
  }

  lemma HealthyStep(s: System, e: Event)
    requires Inv(s) && Healthy(s) && Benign(e)
    ensures Healthy(Step(s, e))
  {
    if e.FrontEvent? { HealthyFront(s, e); }
    else if e.BackEvent? { HealthyBack(s, e); }
    else { HealthyElsewhere(s, e); }
  }

  lemma HealthyBack(s: System, e: Event)
    requires e.BackEvent? && Healthy(s) && Benign(e)
    requires UpShape(s) && DownShape(s) && SmallFrames(s.up.log) && SmallFrames(s.down.log)
    ensures Healthy(Step(s, e))
  {
  }

  lemma {:induction false} BenignRunsAreHealthy(es: seq<Event>)
    requires forall i :: 0 <= i < |es| ==> Benign(es[i])
    ensures Healthy(Run(Init(), es))
  {
    if es != [] {
      BenignRunsAreHealthy(es[..|es| - 1]);
      Reachable(es[..|es| - 1]);
      HealthyStep(Run(Init(), es[..|es| - 1]), es[|es| - 1]);
    }
  }

  /** When nothing fails, only the target's end of file starts the teardown, and the client
      returns only with everything the target sent on stdout. */
  lemma {:induction false} BenignRunsComplete(es: seq<Event>)
    requires forall i :: 0 <= i < |es| ==> Benign(es[i])
    ensures var s := Run(Init(), es);
            && (s.server.ServerEnding? ==>
                && s.server.first == Report(Output, Eof)
                && s.down.source.ended && Payload(s.down.log) == s.down.source.sent)
            && (s.client.ClientEnding? ==>
                && s.client.first == Report(Display, SawClose)
                && s.server.ServerEnding? && s.down.source.ended && s.down.delivered == s.down.source.sent)
  {
    Reachable(es);
    BenignRunsAreHealthy(es);
    CleanCompletion(es);
    HealthyEnding(Run(Init(), es));
  }

  lemma HealthyEnding(s: System)
    requires Inv(s) && Healthy(s)
    ensures s.server.ServerEnding? ==>
              s.server.first == Report(Output, Eof) && s.down.source.ended && Payload(s.down.log) == s.down.source.sent
    ensures s.client.ClientEnding? ==> s.client.first == Report(Display, SawClose) && s.server.ServerEnding?
  {
    if s.server.ServerEnding? {
      assert Genuine(s, (ServerTaken(s) + s.serverResults)[0]);
      assert s.down.source.sent[..s.down.source.taken] == s.down.source.sent;
    }
    if s.client.ClientEnding? { assert Genuine(s, (ClientTaken(s) + s.clientResults)[0]); }
  }

  /** The hypothesis of CleanCompletion is needed: when the other copier of the server
      reports first, a chunk already read from the target can be lost. */
  lemma EarlyTeardownCanTruncate() returns (es: seq<Event>)
    ensures var s := Run(Init(), es);
            && s.client == ClientEnding(Report(Display, SawClose))
            && s.down.source.sent == [7] && s.down.delivered == []
  {
    var s3, s6, s10 := Greeted(), ChunkHeld(), ServerTornDown();
    var e3 := Follow([], Init(), [ClientHello(true), ServerGreet(true, true), ClientAwait]);
    GreetedRun();
    var e6 := Follow(e3, s3, [Supply(Down, [7]), FrontEvent(Down, ReadBytes(1, More)), BackEvent(Up, ReceiveFails)]);
    ChunkHeldRun();
    var e10 := Follow(e6, s6, [ReportResult(Sink), ServerTake, ServerShutTarget, ServerSendClose(true)]);
    ServerTornDownRun();
    es := Follow(e10, s10, [BackEvent(Down, Receive), ReportResult(Display), ClientTake]);
    ClientGoneRun();
  }

  function Greeted(): System {
    Init().(server := ServerRelaying, client := ClientRelaying, target := Open,
            up := EmptyPipe().(log := [Text(TunnelConnect)], got := 1),
            down := EmptyPipe().(log := [Text(TunnelConnected)], got := 1))
  }

  /** The target has sent one byte, which the server's copier holds, and the other copier failed. */
  function ChunkHeld(): System {
    var g := Greeted();
    g.(up := g.up.(writer := Stopped(Failed, [])),
       down := g.down.(source := Stream([7], 1, false), reader := Loaded([7], More)))
  }

  function ServerTornDown(): System {
    var g := ChunkHeld();
    g.(server := ServerEnding(Report(Sink, Failed), CloseTried), reported := {Sink}, target := Shut,
       down := g.down.(log := g.down.log + [CloseFrame]))
  }

  lemma GreetedRun()
    ensures Steps(Init(), [ClientHello(true), ServerGreet(true, true), ClientAwait]) == Greeted()
  {
    var s1 := Step(Init(), ClientHello(true));
    assert s1 == Init().(up := EmptyPipe().(log := [Text(TunnelConnect)]), client := Awaiting);
    assert Step(s1, ServerGreet(true, true))
        == s1.(server := ServerRelaying, target := Open, up := s1.up.(got := 1),
               down := EmptyPipe().(log := [Text(TunnelConnected)]));
  }

  lemma ChunkHeldRun()
    ensures Steps(Greeted(), [Supply(Down, [7]), FrontEvent(Down, ReadBytes(1, More)), BackEvent(Up, ReceiveFails)])
         == ChunkHeld()
  {
    var g := Greeted();
    var s1 := Step(g, Supply(Down, [7]));
    assert s1 == g.(down := g.down.(source := Stream([7], 0, false)));
    ReadsSeven(s1);
    var s2 := g.(down := g.down.(source := Stream([7], 1, false), reader := Loaded([7], More)));
    assert Step(s1, FrontEvent(Down, ReadBytes(1, More))) == s2;
    assert Step(s2, BackEvent(Up, ReceiveFails)) == ChunkHeld();
    StepsAre(g, Supply(Down, [7]), FrontEvent(Down, ReadBytes(1, More)), BackEvent(Up, ReceiveFails));
  }

  lemma StepsAre(s: System, a: Event, b: Event, c: Event)
    ensures Steps(s, [a, b, c]) == Step(Step(Step(s, a), b), c)
  {
    assert [a] + [b, c] == [a, b, c] && [b] + [c] == [b, c] && [c] + [] == [c];
    StepsCons(s, a, [b, c]);
    StepsCons(Step(s, a), b, [c]);
    StepsCons(Step(Step(s, a), b), c, []);
  }

  lemma StepsCons(s: System, e: Event, es: seq<Event>)
    ensures Steps(s, [e] + es) == Steps(Step(s, e), es)
  {
    assert ([e] + es)[1..] == es;
  }

  lemma ReadsSeven(s: System)
    requires s.down.source == Stream([7], 0, false) && s.down.reader == Reading && s.server.ServerRelaying?
    ensures Step(s, FrontEvent(Down, ReadBytes(1, More)))
         == s.(down := s.down.(source := Stream([7], 1, false), reader := Loaded([7], More)))
  {
    assert s.down.source.sent[0..1] == [7];
  }

  lemma ServerTornDownRun()
    ensures Steps(ChunkHeld(), [ReportResult(Sink), ServerTake, ServerShutTarget, ServerSendClose(true)])
         == ServerTornDown()
  {
    var g := ChunkHeld();
    var s1 := Step(g, ReportResult(Sink));
    assert s1 == g.(serverResults := [Report(Sink, Failed)], reported := {Sink});
    var s2 := Step(s1, ServerTake);
    assert s2 == g.(server := ServerEnding(Report(Sink, Failed), Took), reported := {Sink});
  }

  lemma ClientGoneRun()
    ensures var s := Steps(ServerTornDown(), [BackEvent(Down, Receive), ReportResult(Display), ClientTake]);
            && s.client == ClientEnding(Report(Display, SawClose))
            && s.down.source.sent == [7] && s.down.delivered == []
  {
    var g := ServerTornDown();
    var s1 := Step(g, BackEvent(Down, Receive));
    assert s1 == g.(down := g.down.(got := 2, writer := Stopped(SawClose, [])));
  }

  /** A run, first event first. */
  function Steps(s: System, es: seq<Event>): System
    decreases |es|
  {
    if es == [] then s else Steps(Step(s, es[0]), es[1..])
  }

  lemma {:induction false} Follow(before: seq<Event>, s: System, more: seq<Event>) returns (es: seq<Event>)
    requires Run(Init(), before) == s
    ensures Run(Init(), es) == Steps(s, more)
    decreases |more|
  {
    if more == [] { return before; }
    assert (before + [more[0]])[..|before|] == before;
    es := Follow(before + [more[0]], Step(s, more[0]), more[1..]);
  }

  // ---- The connection to the target ----

  predicate ServerGone(s: System) {
    s.server.Rejected? || (s.server.ServerEnding? && s.server.stage.ConnShut?)
  }

  predicate ReplyWritten(s: System) { s.down.log != [] && s.down.log[0] == Text(TunnelConnected) }

  predicate TargetInv(s: System) {
    match s.server
    case Greeting => s.target.NotDialled? && s.down.log == []
    case Rejected => !s.target.Shut? && !ReplyWritten(s)
    case ServerRelaying => s.target.Open? && ReplyWritten(s)
    case ServerEnding(_, stage) => s.target == (if stage.Took? then Open else Shut) && ReplyWritten(s)
  }

  lemma TargetStep(s: System, e: Event)
    requires TargetInv(s)
    ensures TargetInv(Step(s, e))
  {
    if e.FrontEvent? { LogGrows(s, e.side, e.reader); }
  }

  lemma LogGrows(s: System, side: Side, re: ReaderEvent)
    ensures var t := Step(s, FrontEvent(side, re));
            && s.down.log <= t.down.log && t.server == s.server && t.target == s.target
            && (!ServerCopiersRun(s) ==> t.down.log == s.down.log)
  {
  }

  lemma {:induction false} TargetRun(es: seq<Event>)
    ensures TargetInv(Run(Init(), es))
  {
    if es != [] {
      TargetRun(es[..|es| - 1]);
      TargetStep(Run(Init(), es[..|es| - 1]), es[|es| - 1]);
    }
  }

  /** When the server is done, a target it dialled is closed if and only if its reply to the
      client could be written; otherwise it stays open for good. */
  lemma {:induction false} TargetClosedExactly(es: seq<Event>)
    ensures var s := Run(Init(), es);
            ServerGone(s) && !s.target.NotDialled? ==> (s.target.Shut? <==> ReplyWritten(s))
  {
    TargetRun(es);
  }

  /** The run in which it stays open. */
  lemma UnwrittenReplyLeavesTargetOpen()
    ensures var s := Run(Init(), [ClientHello(true), ServerGreet(true, false)]);
            ServerGone(s) && s.target.Open?
  {
    var s1 := Step(Init(), ClientHello(true));
    assert [ClientHello(true), ServerGreet(true, false)][..1] == [ClientHello(true)];
    assert [ClientHello(true)][..0] == [];
    assert Run(Init(), [ClientHello(true)]) == s1;
    assert s1.up.log == [Text(TunnelConnect)];
  }

  // ---- The target's direction stays live ----

  lemma {:induction false} RunCons(s: System, e: Event, es: seq<Event>)
    ensures Run(s, [e] + es) == Run(Step(s, e), es)
  {
    if es == [] {
      assert [e] + es == [e] && [e][..0] == [];
    } else {
      var init, last := es[..|es| - 1], es[|es| - 1];
      assert [e] + es == ([e] + init) + [last];
      RunCons(s, e, init);
      RunLast(s, [e] + init, last);
    }
  }

  lemma RunLast(s: System, es: seq<Event>, e: Event)
    ensures Run(s, es + [e]) == Step(Run(s, es), e)
  {
    assert (es + [e])[..|es|] == es;
  }

  /** While both relays run and the target's direction has seen no failure, its copiers can
      carry everything the target has sent to stdout, whatever happened to stdin. */
  ghost predicate DownRuns(s: System) {
    && Inv(s)
    && s.server.ServerRelaying? && s.client.ClientRelaying?
    && !s.down.writer.Stopped?
    && (s.down.reader.Loaded? ==> !s.down.reader.end.EndError?)
    && (s.down.reader.Finished? ==> s.down.reader.outcome.Eof?)
  }

  /** The next event of a run that drains the target's direction. */
  function DrainStep(s: System): Event
    requires s.down.got <= |s.down.log|
  {
    var p := s.down;
    if p.writer.Writing? then BackEvent(Down, Accept(|p.writer.rest|, false))
    else if p.got < |p.log| then BackEvent(Down, Receive)
    else if p.reader.Loaded? then FrontEvent(Down, Push(true))
    else
      var left := |p.source.sent| - p.source.taken;
      var n: int := if left < BUFFER then left else BUFFER;
      FrontEvent(Down, ReadBytes(if n < 0 then 0 else n, More))
  }

  lemma DrainStepKeeps(s: System)
    requires DownRuns(s) && s.down.delivered != s.down.source.sent
    ensures DownRuns(Step(s, DrainStep(s)))
    ensures Step(s, DrainStep(s)).down.source.sent == s.down.source.sent
  {
    var e := DrainStep(s);
    BytesKeep(s, e);
    UpShapeKeeps(s, e);
    DownShapeKeeps(s, e);
    ReportsKeep(s, e);
    DrainStepMoves(s);
  }

  ghost predicate Moved(s: System, t: System) {
    && t.server == s.server && t.client == s.client
    && !t.down.writer.Stopped?
    && (t.down.reader.Loaded? ==> !t.down.reader.end.EndError?)
    && (t.down.reader.Finished? ==> t.down.reader.outcome.Eof?)
    && t.down.source.sent == s.down.source.sent
    && Work(t.down) < Work(s.down)
  }

  lemma DrainStepMoves(s: System)
    requires DownRuns(s) && s.down.delivered != s.down.source.sent
    ensures Moved(s, Step(s, DrainStep(s)))
  {
    var p := s.down;
    if p.writer.Writing? || p.got < |p.log| { DrainTakes(s); }
    else if p.reader.Loaded? { DrainPushes(s); }
    else { DrainReads(s); }
  }

  lemma DrainTakes(s: System)
    requires DownRuns(s) && (s.down.writer.Writing? || s.down.got < |s.down.log|)
    ensures Moved(s, Step(s, DrainStep(s)))
  {
  }

  lemma DrainPushes(s: System)
    requires DownRuns(s) && !s.down.writer.Writing? && s.down.got == |s.down.log| && s.down.reader.Loaded?
    ensures Moved(s, Step(s, DrainStep(s)))
  {
  }

  lemma DrainReads(s: System)
    requires DownRuns(s) && s.down.delivered != s.down.source.sent
    requires !s.down.writer.Writing? && s.down.got == |s.down.log| && !s.down.reader.Loaded?
    ensures Moved(s, Step(s, DrainStep(s)))
  {
    var p := s.down;
    PipeConserves(p);
    assert p.InFlight() == [];
    assert p.source.sent[..|p.source.sent|] == p.source.sent;
    assert p.source.taken < |p.source.sent|;
  }

  /** What is still to be done: each byte unread costs four steps, a chunk read three,
      a message in flight two, a message received one. */
  function Work(p: Pipe): int {
    4 * (|p.source.sent| - p.source.taken)
    + (if p.reader.Loaded? then 3 else 0)
    + 2 * (|p.log| - p.got)
    + (if p.writer.Writing? then 1 else 0)
  }

  lemma {:induction false} TargetDirectionStaysLive(s: System) returns (es: seq<Event>)
    requires DownRuns(s)
    ensures Run(s, es).down.delivered == s.down.source.sent
    ensures Run(s, es).server.ServerRelaying? && Run(s, es).client.ClientRelaying?
    decreases Work(s.down)
  {
    if s.down.delivered == s.down.source.sent {
      es := [];
    } else {
      DrainStepKeeps(s);
      DrainStepMoves(s);
      var more := TargetDirectionStaysLive(Step(s, DrainStep(s)));
      RunCons(s, DrainStep(s), more);
      es := [DrainStep(s)] + more;
    }
  }
}
