/** One terminal pane of the browser: its current socket, its retry timer and its ping
    interval, under events that may come from sockets and timers long given up. */
module BrowserPane {
  import opened Wrappers

  type SocketId = nat
  type TimerId = nat

  datatype State = Connecting | Connected | Reconnecting | Disconnected

  /** The message types that matter here. Everything else only paints. */
  datatype Message = ConnectedMsg | ErrorMsg | ClosedMsg | OtherMsg

  const MAX_RETRIES: nat := 5

  /** What the browser keeps for a pane besides its fields: the timers really pending (a
      handle outlives its timer), how many sockets and timers it has handed out, and the
      automatic attempts scheduled and made since the pane's `retry` was last reset. */
  datatype Browser = Browser(pendingRetries: set<TimerId>, pendingPings: set<TimerId>, sockets: nat, timers: nat,
                             delays: seq<nat>, fired: nat)

  /** The fields of a pane object. `live` says whether `sessions` still has it. */
  datatype Pane = Pane(
    live: bool, socket: Option<SocketId>, state: State, manual: bool, suppressReconnect: bool, retry: nat,
    retryTimer: Option<TimerId>, pingTimer: Option<TimerId>, browser: Browser)

  datatype Event =
    | Opened(socket: SocketId)
    | Received(socket: SocketId, message: Message)
    | Errored(socket: SocketId)
    | Closed(socket: SocketId)
    | TimerFires(timer: TimerId)
    | UserDisconnects
    | UserReconnects
    | Disposed

  /** Milliseconds before the n-th automatic attempt. */
  function Delay(retry: nat): nat
    requires retry >= 1
  {
    var doublings := if retry - 1 < 4 then retry - 1 else 4;
    var delay := 1000 * Pow2(doublings);
    if delay < 15000 then delay else 15000
  }

  function Pow2(n: nat): nat { if n == 0 then 1 else 2 * Pow2(n - 1) }

  function Handle(t: Option<TimerId>): set<TimerId> { if t.Some? then {t.value} else {} }

  function ClearTimeout(b: Browser, t: Option<TimerId>): Browser {
    b.(pendingRetries := b.pendingRetries - Handle(t))
  }

  function SetTimeout(b: Browser, delay: nat): Browser {
    b.(pendingRetries := b.pendingRetries + {b.timers}, timers := b.timers + 1, delays := b.delays + [delay])
  }

  function ClearInterval(b: Browser, t: Option<TimerId>): Browser {
    b.(pendingPings := b.pendingPings - Handle(t))
  }

  function SetInterval(b: Browser): Browser {
    b.(pendingPings := b.pendingPings + {b.timers}, timers := b.timers + 1)
  }

  function NewSocket(b: Browser): Browser { b.(sockets := b.sockets + 1) }

  function ResetCounts(b: Browser): Browser { b.(delays := [], fired := 0) }

  function ConnectSession(p: Pane): Pane {
    p.(manual := false, suppressReconnect := false,
       state := if p.retry != 0 then Reconnecting else Connecting,
       socket := Some(p.browser.sockets), browser := NewSocket(ClearTimeout(p.browser, p.retryTimer)))
  }

  function ScheduleReconnect(p: Pane): Pane {
    if p.retry >= MAX_RETRIES then p.(suppressReconnect := true, state := Disconnected)
    else
      p.(retry := p.retry + 1, state := Reconnecting,
         retryTimer := Some(p.browser.timers), browser := SetTimeout(p.browser, Delay(p.retry + 1)))
  }

  function OnMessage(p: Pane, message: Message): Pane {
    match message
    case ConnectedMsg =>
      p.(retry := 0, state := Connected, pingTimer := Some(p.browser.timers),
         browser := SetInterval(ClearInterval(ResetCounts(p.browser), p.pingTimer)))
    case ErrorMsg => p.(suppressReconnect := true, state := Disconnected)
    case ClosedMsg => p.(suppressReconnect := true, state := Disconnected)
    case OtherMsg => p
  }

  function OnClose(p: Pane): Pane {
    var q := p.(socket := None, pingTimer := None, browser := ClearInterval(p.browser, p.pingTimer));
    if !p.manual && !p.suppressReconnect && p.live then ScheduleReconnect(q) else q
  }

  function DisconnectSession(p: Pane): Pane {
    p.(manual := true, suppressReconnect := true, pingTimer := None, socket := None, state := Disconnected,
       browser := ClearInterval(ClearTimeout(p.browser, p.retryTimer), p.pingTimer))
  }

  function ReconnectSession(p: Pane): Pane {
    ConnectSession(p.(manual := false, suppressReconnect := false, retry := 0, browser := ResetCounts(p.browser)))
  }

  function OnTimer(p: Pane, timer: TimerId): Pane {
    ConnectSession(p.(browser := p.browser.(pendingRetries := p.browser.pendingRetries - {timer},
                                            fired := p.browser.fired + 1)))
  }

  function Step(p: Pane, e: Event): Pane {
    match e
    case Opened(_) => p
    case Received(socket, message) => if p.socket == Some(socket) then OnMessage(p, message) else p
    case Errored(socket) => if p.socket == Some(socket) then p.(state := Disconnected) else p
    case Closed(socket) => if p.socket == Some(socket) then OnClose(p) else p
    case TimerFires(timer) =>
      if timer in p.browser.pendingRetries then OnTimer(p, timer) else p
    case UserDisconnects => if p.live then DisconnectSession(p) else p
    case UserReconnects => if p.live then ReconnectSession(p) else p
    case Disposed => DisconnectSession(p).(live := false)
  }

  function Run(p: Pane, es: seq<Event>): Pane {
    if es == [] then p else Step(Run(p, es[..|es| - 1]), es[|es| - 1])
  }

  /** A pane as createPane leaves it: connecting on its first socket. */
  function NewPane(): Pane {
    ConnectSession(Pane(true, None, Connecting, false, false, 0, None, None, Browser({}, {}, 0, 0, [], 0)))
  }

  // ---- What every order of events keeps ----

  /** The back-off table of the reconnection loop. */
  const SCHEDULE: seq<nat> := [1000, 2000, 4000, 8000, 15000]

  ghost predicate CountsInv(p: Pane) {
    && p.retry <= MAX_RETRIES
    && p.browser.delays == SCHEDULE[..p.retry]
    && p.browser.fired + |p.browser.pendingRetries| <= p.retry
  }

  ghost predicate TimersInv(p: Pane) {
    && (p.retryTimer.Some? ==> p.retryTimer.value < p.browser.timers)
    && (p.pingTimer.Some? ==> p.pingTimer.value < p.browser.timers)
    && p.browser.pendingRetries <= Handle(p.retryTimer)
    && p.browser.pendingPings <= Handle(p.pingTimer)
    && (p.browser.pendingRetries != {} ==>
          p.socket.None? && p.state == Reconnecting && p.retry >= 1 && !p.manual && !p.suppressReconnect && p.live)
    && (p.socket.None? ==> p.browser.pendingPings == {})
  }

  ghost predicate PaneInv(p: Pane) {
    && CountsInv(p) && TimersInv(p)
    && (p.socket.Some? ==> p.socket.value < p.browser.sockets && !p.manual && p.live)
    && (p.manual ==> p.browser.pendingRetries == {} && p.state == Disconnected)
    && (!p.live ==> p.manual)
  }

  lemma DelayIsScheduled(n: nat)
    requires 1 <= n <= MAX_RETRIES
    ensures Delay(n) == SCHEDULE[n - 1]
  {
    assert Pow2(0) == 1 && Pow2(1) == 2 && Pow2(2) == 4;
    assert Pow2(3) == 8 && Pow2(4) == 16;
  }

  lemma ScheduleKeeps(p: Pane)
    requires CountsInv(p) && p.browser.pendingRetries == {}
    ensures CountsInv(ScheduleReconnect(p))
  {
    if p.retry < MAX_RETRIES {
      DelayIsScheduled(p.retry + 1);
      assert SCHEDULE[..p.retry + 1] == SCHEDULE[..p.retry] + [SCHEDULE[p.retry]];
    }
  }

  lemma CloseKeeps(p: Pane)
    requires PaneInv(p) && p.socket.Some?
    ensures PaneInv(OnClose(p))
  {
    assert p.browser.pendingRetries == {};
    ScheduleKeeps(p.(socket := None, pingTimer := None, browser := ClearInterval(p.browser, p.pingTimer)));
  }

  lemma MessageKeeps(p: Pane, message: Message)
    requires PaneInv(p) && p.socket.Some?
    ensures PaneInv(OnMessage(p, message))
  {
  }

  lemma TimerKeeps(p: Pane, timer: TimerId)
    requires PaneInv(p) && timer in p.browser.pendingRetries
    ensures PaneInv(OnTimer(p, timer))
  {
  }

  lemma DisconnectKeeps(p: Pane)
    requires PaneInv(p)
    ensures PaneInv(DisconnectSession(p))
    ensures DisconnectSession(p).browser.pendingRetries == {}
    ensures DisconnectSession(p).browser.pendingPings == {}
  {
  }

  lemma ReconnectKeeps(p: Pane)
    requires PaneInv(p) && p.live
    ensures PaneInv(ReconnectSession(p))
  {
  }

  lemma StepKeeps(p: Pane, e: Event)
    requires PaneInv(p)
    ensures PaneInv(Step(p, e))
  {
    match e
    case Received(socket, message) => if p.socket == Some(socket) { MessageKeeps(p, message); }
    case Closed(socket) => if p.socket == Some(socket) { CloseKeeps(p); }
    case TimerFires(timer) => if timer in p.browser.pendingRetries { TimerKeeps(p, timer); }
    case UserDisconnects => DisconnectKeeps(p);
    case UserReconnects => if p.live { ReconnectKeeps(p); }
    case Disposed => DisconnectKeeps(p);
    case _ =>
  }

  lemma {:induction false} RunKeeps(p: Pane, es: seq<Event>)
    requires PaneInv(p)
    ensures PaneInv(Run(p, es))
  {
    if es != [] {
      RunKeeps(p, es[..|es| - 1]);
      StepKeeps(Run(p, es[..|es| - 1]), es[|es| - 1]);
    }
  }

  lemma NewPaneInv()
    ensures PaneInv(NewPane())
  {
  }

  /** Over every order of events: one retry timer at most, and while it is pending the pane
      has no socket, shows `reconnecting` and is within its five attempts; the attempts
      since the last reset were scheduled after exactly the table's delays. */
  lemma {:induction false} ReconnectInvariant(es: seq<Event>)
    ensures var p := Run(NewPane(), es);
            && |p.browser.pendingRetries| <= 1 && |p.browser.pendingPings| <= 1
            && (p.browser.pendingRetries != {} ==>
                  && p.browser.pendingRetries == Handle(p.retryTimer)
                  && p.socket.None? && p.state == Reconnecting && 1 <= p.retry <= 5)
            && p.browser.fired <= p.retry == |p.browser.delays| <= 5
            && (forall i :: 0 <= i < |p.browser.delays| ==>
                  p.browser.delays[i] == [1000, 2000, 4000, 8000, 15000][i])
  {
    NewPaneInv();
    RunKeeps(NewPane(), es);
    var p := Run(NewPane(), es);
    AtMostOne(p.browser.pendingRetries, p.retryTimer);
    AtMostOne(p.browser.pendingPings, p.pingTimer);
  }

  lemma AtMostOne(s: set<TimerId>, t: Option<TimerId>)
    requires s <= Handle(t)
    ensures |s| <= 1 && (s == {} || s == Handle(t))
  {
    if s != {} { assert s == Handle(t); }
  }

  predicate Resets(p: Pane, e: Event) {
    (e.UserReconnects? && p.live) || (e.Received? && p.socket == Some(e.socket) && e.message.ConnectedMsg?)
  }

  /** Every scheduled attempt brings the pane closer to giving up, and nothing but a reset
      brings it back: 5 - retry is a measure of the attempts left. */
  lemma AttemptsRunOut(p: Pane, e: Event)
    requires PaneInv(p) && !Resets(p, e)
    ensures var q := Step(p, e);
            && 0 <= MAX_RETRIES - q.retry <= MAX_RETRIES - p.retry
            && (q.browser.delays != p.browser.delays ==> MAX_RETRIES - q.retry < MAX_RETRIES - p.retry)
            && (q.browser.fired != p.browser.fired ==> q.browser.pendingRetries < p.browser.pendingRetries)
  {
  }

  /** After a user's disconnect the pane creates no socket, whatever late events arrive,
      until the user reconnects it. */
  lemma {:induction false} DisconnectHolds(p: Pane, es: seq<Event>)
    requires PaneInv(p) && p.live
    requires forall i :: 0 <= i < |es| ==> !es[i].UserReconnects?
    ensures var q := Run(DisconnectSession(p), es);
            && q.browser.sockets == p.browser.sockets && q.socket.None? && q.manual
            && q.browser.pendingRetries == {} && q.state == Disconnected
  {
    DisconnectKeeps(p);
    if es != [] { DisconnectHolds(p, es[..|es| - 1]); }
  }

  // ---- When `connected` means a socket ----

  predicate Promise(p: Pane) { p.state == Connected ==> p.socket.Some? }

  /** A `connected` taken from the current socket while the flag that stops reconnection is
      set: the handler of `connected` leaves that flag as it is. */
  predicate ConnectsLate(p: Pane, e: Event) {
    e.Received? && p.socket == Some(e.socket) && e.message.ConnectedMsg? && p.suppressReconnect
  }

  ghost predicate NeverLate(es: seq<Event>) {
    forall k :: 0 <= k < |es| ==> !ConnectsLate(Run(NewPane(), es[..k]), es[k])
  }

  /** The promise holds all along the run, also if a socket closes at any point of it. */
  ghost predicate KeepsPromise(es: seq<Event>) {
    forall k :: 0 <= k <= |es| ==>
      Promise(Run(NewPane(), es[..k])) && forall socket :: Promise(Step(Run(NewPane(), es[..k]), Closed(socket)))
  }

  ghost predicate ConnectedInv(p: Pane) {
    p.state == Connected ==> p.socket.Some? && !p.suppressReconnect
  }

  lemma ConnectedStep(p: Pane, e: Event)
    requires PaneInv(p) && ConnectedInv(p) && !ConnectsLate(p, e)
    ensures ConnectedInv(Step(p, e))
  {
  }

  lemma {:induction false} ConnectedRun(es: seq<Event>)
    requires NeverLate(es)
    ensures PaneInv(Run(NewPane(), es)) && ConnectedInv(Run(NewPane(), es))
  {
    NewPaneInv();
    if es != [] {
      var init := es[..|es| - 1];
      assert forall k :: 0 <= k < |init| ==> init[k] == es[k] && init[..k] == es[..k];
      ConnectedRun(init);
      StepKeeps(Run(NewPane(), init), es[|es| - 1]);
      ConnectedStep(Run(NewPane(), init), es[|es| - 1]);
    }
  }

  lemma LateBreaks(p: Pane, e: Event)
    requires ConnectsLate(p, e)
    ensures !Promise(Step(Step(p, e), Closed(e.socket)))
  {
  }

  /** Exactly the runs without a late `connected` keep the promise. */
  lemma {:induction false} ConnectedMeansSocketExactly(es: seq<Event>)
    ensures KeepsPromise(es) <==> NeverLate(es)
  {
    if NeverLate(es) {
      forall k | 0 <= k <= |es|
        ensures Promise(Run(NewPane(), es[..k]))
        ensures forall socket :: Promise(Step(Run(NewPane(), es[..k]), Closed(socket)))
      {
        assert forall j :: 0 <= j < k ==> es[..k][j] == es[j] && es[..k][..j] == es[..j];
        ConnectedRun(es[..k]);
        forall socket ensures Promise(Step(Run(NewPane(), es[..k]), Closed(socket))) {
          ConnectedStep(Run(NewPane(), es[..k]), Closed(socket));
        }
      }
    }
    if k :| 0 <= k < |es| && ConnectsLate(Run(NewPane(), es[..k]), es[k]) {
      LateBreaks(Run(NewPane(), es[..k]), es[k]);
      assert es[..k + 1][..k] == es[..k];
      assert !Promise(Step(Run(NewPane(), es[..k + 1]), Closed(es[k].socket)));
    }
  }

  // ---- Servers whose `connected` is never late ----

  /** This event is a `connected` on the socket the other event's message came on. */
  predicate ConnectsOn(e: Event, other: Event) {
    e.Received? && e.message.ConnectedMsg? && other.Received? && other.socket == e.socket
  }

  predicate SoursOn(e: Event) {
    e.Received? && (e.message.ErrorMsg? || e.message.ClosedMsg?)
  }

  /** No `connected` follows an `error` or `closed` message on the same socket. A server that
      sends `connected` first and once keeps to this. */
  ghost predicate Disciplined(es: seq<Event>) {
    forall i, j :: 0 <= j < i < |es| && ConnectsOn(es[i], es[j]) ==> !SoursOn(es[j])
  }

  ghost predicate FirstAndOnce(es: seq<Event>) {
    forall i, j :: 0 <= j < i < |es| ==> !ConnectsOn(es[i], es[j])
  }

  lemma FirstAndOnceIsDisciplined(es: seq<Event>)
    requires FirstAndOnce(es)
    ensures Disciplined(es)
  {
  }

  /** The current socket has carried an error or closed message in this run. */
  ghost predicate Soured(p: Pane, es: seq<Event>) {
    exists j :: 0 <= j < |es| && SoursOn(es[j]) && p.socket == Some(es[j].socket)
  }

  lemma SouredLater(p: Pane, es: seq<Event>)
    requires es != [] && Soured(p, es[..|es| - 1])
    ensures Soured(p, es)
  {
  }

  /** Only a soured socket can be current while the flag is set. */
  lemma {:induction false} FlagMeansSoured(es: seq<Event>)
    ensures var p := Run(NewPane(), es); p.socket.Some? && p.suppressReconnect ==> Soured(p, es)
  {
    if es != [] {
      var init, e := es[..|es| - 1], es[|es| - 1];
      FlagMeansSoured(init);
      NewPaneInv();
      RunKeeps(NewPane(), init);
      var p := Run(NewPane(), init);
      if Soured(p, init) { SouredLater(p, es); }
      FlagStep(p, es);
    }
  }

  lemma FlagStep(p: Pane, es: seq<Event>)
    requires es != [] && PaneInv(p)
    requires p.socket.Some? && p.suppressReconnect ==> Soured(p, es)
    ensures var q := Step(p, es[|es| - 1]); q.socket.Some? && q.suppressReconnect ==> Soured(q, es)
  {
    var e := es[|es| - 1];
    if SoursOn(e) && p.socket == Some(e.socket) { assert Soured(p, es); }
  }

  lemma DisciplinedIsNeverLate(es: seq<Event>)
    requires Disciplined(es)
    ensures NeverLate(es)
  {
    forall k | 0 <= k < |es| ensures !ConnectsLate(Run(NewPane(), es[..k]), es[k]) {
      var p := Run(NewPane(), es[..k]);
      FlagMeansSoured(es[..k]);
      if Soured(p, es[..k]) {
        var j :| 0 <= j < |es[..k]| && SoursOn(es[..k][j]) && p.socket == Some(es[..k][j].socket);
        assert es[..k][j] == es[j];
        assert !ConnectsOn(es[k], es[j]);
      }
    }
  }

  /** With such a server, a pane that shows `connected` has a current socket. */
  lemma ConnectedHasSocket(es: seq<Event>)
    requires Disciplined(es)
    ensures Promise(Run(NewPane(), es))
  {
    DisciplinedIsNeverLate(es);
    ConnectedMeansSocketExactly(es);
    assert es[..|es|] == es;
  }

  /** Without that discipline it need not: the flag an error sets survives a late
      `connected`, and the close that follows changes the state no more. */
  lemma LateConnectedLeavesNoSocket()
    ensures var es := [Received(0, ErrorMsg), Received(0, ConnectedMsg), Closed(0)];
            !NeverLate(es) && !Promise(Run(NewPane(), es))
  {
    var es := [Received(0, ErrorMsg), Received(0, ConnectedMsg), Closed(0)];
    assert es[..2] == [Received(0, ErrorMsg), Received(0, ConnectedMsg)];
    assert es[..2][..1] == es[..1] == [Received(0, ErrorMsg)];
    assert es[..1][..0] == [];
    var p1 := Step(NewPane(), es[0]);
    assert Run(NewPane(), es[..1]) == p1;
    assert Run(NewPane(), es[..2]) == Step(p1, es[1]);
    assert ConnectsLate(Run(NewPane(), es[..1]), es[1]);
  }

  // ---- The object and its handlers, as they assign the fields ----

  class PaneSession {
    var live: bool
    var socket: Option<SocketId>
    var state: State
    var manual: bool
    var suppressReconnect: bool
    var retry: nat
    var retryTimer: Option<TimerId>
    var pingTimer: Option<TimerId>
    var browser: Browser

    ghost function View(): Pane
      reads this
    {
      Pane(live, socket, state, manual, suppressReconnect, retry, retryTimer, pingTimer, browser)
    }

    constructor ()
      ensures View() == NewPane()
    {
      live, socket, state, manual, suppressReconnect, retry := true, None, Connecting, false, false, 0;
      retryTimer, pingTimer, browser := None, None, Browser({}, {}, 0, 0, [], 0);
      new;
      Connect();
    }

    method Connect()
      modifies this
      ensures View() == ConnectSession(old(View()))
    {
      browser := ClearTimeout(browser, retryTimer);
      socket := None;
      manual := false;
      suppressReconnect := false;
      state := if retry != 0 then Reconnecting else Connecting;
      socket := Some(browser.sockets);
      browser := NewSocket(browser);
    }

    method ScheduleRetry()
      modifies this
      ensures View() == ScheduleReconnect(old(View()))
    {
      if retry >= MAX_RETRIES {
        suppressReconnect := true;
        state := Disconnected;
        return;
      }
      retry := retry + 1;
      var delay := Delay(retry);
      state := Reconnecting;
      retryTimer := Some(browser.timers);
      browser := SetTimeout(browser, delay);
    }

    method HandleMessage(from: SocketId, message: Message)
      modifies this
      ensures View() == Step(old(View()), Received(from, message))
    {
      if socket != Some(from) { return; }
      if message.ConnectedMsg? {
        retry := 0;
        browser := ResetCounts(browser);
        state := Connected;
        browser := ClearInterval(browser, pingTimer);
        pingTimer := Some(browser.timers);
        browser := SetInterval(browser);
      } else if message.ErrorMsg? || message.ClosedMsg? {
        suppressReconnect := true;
        state := Disconnected;
      }
    }

    method HandleError(from: SocketId)
      modifies this
      ensures View() == Step(old(View()), Errored(from))
    {
      if socket == Some(from) { state := Disconnected; }
    }

    method HandleClose(from: SocketId)
      modifies this
      ensures View() == Step(old(View()), Closed(from))
    {
      if socket != Some(from) { return; }
      socket := None;
      browser := ClearInterval(browser, pingTimer);
      pingTimer := None;
      if !manual && !suppressReconnect && live { ScheduleRetry(); }
    }

    method HandleTimer(timer: TimerId)
      modifies this
      ensures View() == Step(old(View()), TimerFires(timer))
    {
      if timer !in browser.pendingRetries { return; }
      browser := browser.(pendingRetries := browser.pendingRetries - {timer}, fired := browser.fired + 1);
      Connect();
    }

    method Disconnect()
      modifies this
      ensures View() == DisconnectSession(old(View()))
    {
      manual := true;
      suppressReconnect := true;
      browser := ClearTimeout(browser, retryTimer);
      browser := ClearInterval(browser, pingTimer);
      pingTimer := None;
      socket := None;
      state := Disconnected;
    }

    method Reconnect()
      modifies this
      ensures View() == ReconnectSession(old(View()))
    {
      manual := false;
      suppressReconnect := false;
      retry := 0;
      browser := ResetCounts(browser);
      Connect();
    }

    method Dispose()
      modifies this
      ensures View() == Step(old(View()), Disposed)
    {
      Disconnect();
      live := false;
    }
  }
}
