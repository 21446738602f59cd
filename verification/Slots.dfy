/** Slot reservation and release: any number of SSH and tunnel handlers around two shared
    counters, each taking one step at a time in any order.

    A handler's step is one statement of its goroutine; only `Load`, `CompareAndSwap` and
    `Add(-1)` touch a shared counter, and each of them is one step. */
module Slots {
  datatype Pool = Sessions | Tunnels

  /** Where a handler stands. `Loading`, `Deciding` and `Swapping` are the reservation loop;
      the rest up to `Deferring` is handleConnect, and `Cleaning`/`Releasing` the deferred
      cleanup (for a tunnel, the deferred `Add(-1)`). */
  datatype Pc =
    | AwaitingConnect | Loading | Deciding | Swapping | Won
    | Dialing | Storing | Handing | Replying | Deferring
    | Relaying | Cleaning | Releasing | Done

  /** How a handler came to its end. */
  datatype Exit = StillRunning | BadMessage | LimitRefused | DialFailed | ReplyFailed | NormalEnd

  /** `current` is the loop's local copy of the counter; `reserved` is the local flag of
      handleConnect, `connected` the session's atomic flag. The two counts record how often
      this handler raised and lowered its pool's counter. */
  datatype Handler = Handler(
    pool: Pool, pc: Pc, current: int, reserved: bool, connected: bool, exit: Exit,
    acquired: nat, released: nat)

  datatype State = State(sessionLimit: int, tunnelLimit: int, activeSessions: int, activeTunnels: int,
                         handlers: seq<Handler>)
  {
    function Active(pool: Pool): int {
      if pool.Sessions? then activeSessions else activeTunnels
    }

    function Limit(pool: Pool): int {
      if pool.Sessions? then sessionLimit else tunnelLimit
    }

    function WithActive(pool: Pool, n: int): State {
      if pool.Sessions? then this.(activeSessions := n) else this.(activeTunnels := n)
    }
  }

  datatype Event = Spawn(pool: Pool) | Act(i: nat, choice: bool)

  function NewHandler(pool: Pool): Handler {
    Handler(pool, if pool.Sessions? then AwaitingConnect else Loading, 0, false, false, StillRunning, 0, 0)
  }

  /** One statement of a handler, given its pool's counter: the handler after it and the
      counter after it. `choice` is what the outside world decides (a valid message, a
      successful dial, a successful write). */
  function Advance(h: Handler, active: int, limit: int, choice: bool): (Handler, int) {
    match h.pc
    case AwaitingConnect =>
      (if choice then h.(pc := Loading) else h.(pc := Cleaning, exit := BadMessage), active)
    case Loading => (h.(current := active, pc := Deciding), active)
    case Deciding =>
      (if h.current >= limit then
         h.(exit := LimitRefused, pc := if h.pool.Sessions? then Cleaning else Done)
       else h.(pc := Swapping), active)
    case Swapping =>
      if active == h.current then (h.(pc := Won, acquired := h.acquired + 1), active + 1)
      else (h.(pc := Loading), active)
    case Won =>
      (if h.pool.Sessions? then h.(reserved := true, pc := Dialing) else h.(pc := Relaying), active)
    case Dialing =>
      (if choice then h.(pc := Storing) else h.(pc := Deferring, exit := DialFailed), active)
    case Storing => (h.(connected := true, pc := Handing), active)
    case Handing => (h.(reserved := false, pc := Replying), active)
    case Replying =>
      (if choice then h.(pc := Deferring) else h.(pc := Deferring, exit := ReplyFailed), active)
    case Deferring =>
      // The deferred function of handleConnect; `reserved` goes out of scope with it.
      var next := if h.exit.StillRunning? then Relaying else Cleaning;
      if h.reserved then (h.(pc := next, reserved := false, released := h.released + 1), active - 1)
      else (h.(pc := next), active)
    case Relaying =>
      (h.(exit := NormalEnd, pc := if h.pool.Sessions? then Cleaning else Releasing), active)
    case Cleaning =>
      (h.(connected := false, pc := if h.connected then Releasing else Done), active)
    case Releasing => (h.(pc := Done, released := h.released + 1), active - 1)
    case Done => (h, active)
  }

  function Step(s: State, e: Event): State {
    match e
    case Spawn(pool) => s.(handlers := s.handlers + [NewHandler(pool)])
    case Act(i, choice) =>
      if i >= |s.handlers| then s
      else
        var h := s.handlers[i];
        var (h', n) := Advance(h, s.Active(h.pool), s.Limit(h.pool), choice);
        s.(handlers := s.handlers[i := h']).WithActive(h.pool, n)
  }

  function Run(s: State, es: seq<Event>): State {
    if es == [] then s else Step(Run(s, es[..|es| - 1]), es[|es| - 1])
  }

  function Init(sessionLimit: int, tunnelLimit: int): State {
    State(sessionLimit, tunnelLimit, 0, 0, [])
  }

  /** A handler owns a slot from its winning swap until its `Add(-1)`, whichever of the two
      flags stands for it in between. */
  predicate Holds(h: Handler) {
    h.pc.Won? || h.reserved || h.connected || h.pc.Releasing? || (h.pool.Tunnels? && h.pc.Relaying?)
  }

  function Held(h: Handler): nat { if Holds(h) then 1 else 0 }

  function Share(h: Handler, pool: Pool): nat { if h.pool == pool then Held(h) else 0 }

  /** How many handlers hold a slot of this pool. */
  function Holders(hs: seq<Handler>, pool: Pool): nat {
    if hs == [] then 0 else Holders(hs[..|hs| - 1], pool) + Share(hs[|hs| - 1], pool)
  }

  // ---- One handler on its own ----

  /** The flags, the counts and the exit path a program point allows. */
  ghost predicate HandlerInv(h: Handler) {
    && h.acquired <= 1
    && h.released <= h.acquired
    && h.acquired - h.released == Held(h)
    && (h.reserved <==> h.pc.Dialing? || h.pc.Storing? || h.pc.Handing? || (h.pc.Deferring? && h.exit.DialFailed?))
    && (h.connected <==> (h.pool.Sessions? &&
         (h.pc.Handing? || h.pc.Replying? || (h.pc.Deferring? && !h.exit.DialFailed?) || h.pc.Relaying?
          || (h.pc.Cleaning? && (h.exit.ReplyFailed? || h.exit.NormalEnd?)))))
    && (h.pool.Tunnels? ==> h.pc in {Loading, Deciding, Swapping, Won, Relaying, Releasing, Done})
    && (h.pc in {AwaitingConnect, Loading, Deciding, Swapping} ==> h.acquired == 0)
    && (h.exit.BadMessage? || h.exit.LimitRefused? ==> h.acquired == 0)
    && (h.pc in {Cleaning, Releasing, Done} <==> h.exit != StillRunning && !h.pc.Deferring?)
    && (h.pc.Deferring? ==> h.exit in {StillRunning, DialFailed, ReplyFailed})
    && (h.pc.Done? && h.exit in {DialFailed, ReplyFailed, NormalEnd} ==> h.acquired == 1)
    && (h.pc.Releasing? ==> h.exit in {ReplyFailed, NormalEnd})
    && (h.pc in {Won, Dialing, Storing, Handing, Replying, Deferring, Relaying} ==> h.acquired == 1)
    && (h.exit in {DialFailed, ReplyFailed, NormalEnd} ==> h.acquired == 1)
  }

  lemma AdvanceKeeps(h: Handler, active: int, limit: int, choice: bool)
    requires HandlerInv(h)
    ensures var (h', n) := Advance(h, active, limit, choice);
            && HandlerInv(h') && h'.pool == h.pool
            && n - active == Held(h') - Held(h)
            && (n > active ==> h.pc.Swapping? && n == h.current + 1)
            && (h'.pc.Swapping? ==> h'.current < limit)
  {
  }

  // ---- All handlers together ----

  lemma {:induction false} HoldersUpdate(hs: seq<Handler>, i: nat, h: Handler, pool: Pool)
    requires i < |hs|
    ensures Holders(hs[i := h], pool) - Holders(hs, pool) == Share(h, pool) - Share(hs[i], pool)
  {
    if i == |hs| - 1 {
      assert hs[i := h][..i] == hs[..i];
    } else {
      assert hs[i := h][..|hs| - 1] == hs[..|hs| - 1][i := h];
      HoldersUpdate(hs[..|hs| - 1], i, h, pool);
    }
  }

  lemma HoldersSnoc(hs: seq<Handler>, h: Handler, pool: Pool)
    ensures Holders(hs + [h], pool) == Holders(hs, pool) + Share(h, pool)
  {
  }

  function Max0(n: int): int { if n < 0 then 0 else n }

  ghost predicate Counted(s: State, pool: Pool) {
    && s.Active(pool) == Holders(s.handlers, pool)
    && s.Active(pool) <= Max0(s.Limit(pool))
  }

  ghost predicate EachHandler(s: State) {
    forall i :: 0 <= i < |s.handlers| ==>
      && HandlerInv(s.handlers[i])
      // The test before the swap is still good for the local copy.
      && (s.handlers[i].pc.Swapping? ==> s.handlers[i].current < s.Limit(s.handlers[i].pool))
  }

  ghost predicate Inv(s: State) {
    EachHandler(s) && Counted(s, Sessions) && Counted(s, Tunnels)
  }

  lemma SpawnIs(s: State, pool: Pool)
    ensures Step(s, Spawn(pool)) == s.(handlers := s.handlers + [NewHandler(pool)])
  {
  }

  lemma NewHandlerIs(pool: Pool)
    ensures var h := NewHandler(pool); HandlerInv(h) && !h.pc.Swapping? && Held(h) == 0
  {
  }

  lemma GrowKeeps(s: State, h: Handler)
    requires Inv(s) && HandlerInv(h) && !h.pc.Swapping? && Held(h) == 0
    ensures Inv(s.(handlers := s.handlers + [h]))
  {
    HoldersSnoc(s.handlers, h, Sessions);
    HoldersSnoc(s.handlers, h, Tunnels);
  }

  lemma SpawnKeeps(s: State, pool: Pool)
    requires Inv(s)
    ensures Inv(Step(s, Spawn(pool)))
  {
    SpawnIs(s, pool);
    NewHandlerIs(pool);
    GrowKeeps(s, NewHandler(pool));
  }

  lemma ActKeeps(s: State, i: nat, choice: bool)
    requires Inv(s)
    ensures Inv(Step(s, Act(i, choice)))
  {
    if i < |s.handlers| {
      var h := s.handlers[i];
      var (h', n) := Advance(h, s.Active(h.pool), s.Limit(h.pool), choice);
      AdvanceKeeps(h, s.Active(h.pool), s.Limit(h.pool), choice);
      HoldersUpdate(s.handlers, i, h', Sessions);
      HoldersUpdate(s.handlers, i, h', Tunnels);
    }
  }

  lemma StepKeeps(s: State, e: Event)
    requires Inv(s)
    ensures Inv(Step(s, e))
    ensures Step(s, e).sessionLimit == s.sessionLimit && Step(s, e).tunnelLimit == s.tunnelLimit
  {
    match e
    case Spawn(pool) => SpawnKeeps(s, pool);
    case Act(i, choice) => ActKeeps(s, i, choice);
  }

  lemma {:induction false} Reachable(sessionLimit: int, tunnelLimit: int, es: seq<Event>)
    ensures var s := Run(Init(sessionLimit, tunnelLimit), es);
            Inv(s) && s.sessionLimit == sessionLimit && s.tunnelLimit == tunnelLimit
  {
    if es != [] {
      Reachable(sessionLimit, tunnelLimit, es[..|es| - 1]);
      StepKeeps(Run(Init(sessionLimit, tunnelLimit), es[..|es| - 1]), es[|es| - 1]);
    }
  }

  // ---- The promises ----

  /** Each counter is the number of handlers holding a slot, and never leaves 0..limit. */
  lemma {:induction false} CountersAreExact(sessionLimit: int, tunnelLimit: int, es: seq<Event>, pool: Pool)
    ensures var s := Run(Init(sessionLimit, tunnelLimit), es);
            && s.Active(pool) == Holders(s.handlers, pool)
            && 0 <= s.Active(pool) <= Max0(if pool.Sessions? then sessionLimit else tunnelLimit)
  {
    Reachable(sessionLimit, tunnelLimit, es);
  }

  /** A finished handler has released exactly what it acquired: one slot if it got past the
      reservation, none if it did not. Whichever way it ended, at most one of the deferred
      release and the cleanup lowered the counter, and never neither after an acquisition. */
  lemma {:induction false} ReleasedExactlyOnce(sessionLimit: int, tunnelLimit: int, es: seq<Event>, i: nat)
    ensures var s := Run(Init(sessionLimit, tunnelLimit), es);
            i < |s.handlers| ==>
              var h := s.handlers[i];
              && h.released <= h.acquired <= 1
              && (h.pc.Done? ==>
                  && h.released == h.acquired
                  && (h.acquired == 1 <==> h.exit in {DialFailed, ReplyFailed, NormalEnd})
                  && (h.acquired == 0 <==> h.exit in {BadMessage, LimitRefused}))
              && (h.pc.Deferring? || h.pc.Cleaning? ==> !(h.reserved && h.connected))
              && (h.pc.Deferring? ==> h.reserved || h.connected)
  {
    Reachable(sessionLimit, tunnelLimit, es);
  }

  /** When every handler is done, both counters are back to zero. */
  lemma {:induction false} IdleMeansZero(hs: seq<Handler>, pool: Pool)
    requires forall i :: 0 <= i < |hs| ==> HandlerInv(hs[i]) && hs[i].pc.Done?
    ensures Holders(hs, pool) == 0
  {
    if hs != [] { IdleMeansZero(hs[..|hs| - 1], pool); }
  }

  lemma {:induction false} AllDoneMeansZero(sessionLimit: int, tunnelLimit: int, es: seq<Event>)
    ensures var s := Run(Init(sessionLimit, tunnelLimit), es);
            (forall i :: 0 <= i < |s.handlers| ==> s.handlers[i].pc.Done?) ==> s.activeSessions == 0 == s.activeTunnels
  {
    Reachable(sessionLimit, tunnelLimit, es);
    var s := Run(Init(sessionLimit, tunnelLimit), es);
    if forall i :: 0 <= i < |s.handlers| ==> s.handlers[i].pc.Done? {
      IdleMeansZero(s.handlers, Sessions);
      IdleMeansZero(s.handlers, Tunnels);
    }
  }

  // ---- What a handler's local copy of the counter says about the past ----

  /** The k-th event of the run is handler i's `Load`, and it read n. */
  ghost predicate LoadedAt(s0: State, es: seq<Event>, k: nat, i: nat, n: int) {
    && k < |es| && es[k].Act? && es[k].i == i
    && var s := Run(s0, es[..k]);
       && i < |s.handlers| && s.handlers[i].pc.Loading?
       && s.Active(s.handlers[i].pool) == n
  }

  /** The j-th event is another handler's and changed the counter of this pool. */
  ghost predicate ChangedBySomeoneElse(s0: State, es: seq<Event>, j: nat, i: nat, pool: Pool) {
    && j < |es| && es[j].Act? && es[j].i != i
    && Run(s0, es[..j]).Active(pool) != Run(s0, es[..j + 1]).Active(pool)
  }

  lemma LoadedEarlier(s0: State, es: seq<Event>, k: nat, i: nat, n: int)
    requires es != [] && LoadedAt(s0, es[..|es| - 1], k, i, n)
    ensures LoadedAt(s0, es, k, i, n)
  {
    assert es[..|es| - 1][..k] == es[..k];
  }

  /** After its k-th event handler i made no further `Load`: that one is its last. */
  ghost predicate NoLoadSince(s0: State, es: seq<Event>, k: nat, i: nat) {
    forall m :: k < m < |es| && es[m].Act? && es[m].i == i && i < |Run(s0, es[..m]).handlers| ==>
      !Run(s0, es[..m]).handlers[i].pc.Loading?
  }

  lemma NoLoadLater(s0: State, es: seq<Event>, k: nat, i: nat)
    requires es != [] && NoLoadSince(s0, es[..|es| - 1], k, i)
    requires var s, e := Run(s0, es[..|es| - 1]), es[|es| - 1];
             e.Act? && e.i == i && i < |s.handlers| ==> !s.handlers[i].pc.Loading?
    ensures NoLoadSince(s0, es, k, i)
  {
    var init := es[..|es| - 1];
    forall m | k < m < |es| && es[m].Act? && es[m].i == i && i < |Run(s0, es[..m]).handlers|
      ensures !Run(s0, es[..m]).handlers[i].pc.Loading?
    {
      if m < |init| { assert init[m] == es[m] && init[..m] == es[..m]; }
    }
  }

  lemma ChangedEarlier(s0: State, es: seq<Event>, j: nat, i: nat, pool: Pool)
    requires es != [] && ChangedBySomeoneElse(s0, es[..|es| - 1], j, i, pool)
    ensures ChangedBySomeoneElse(s0, es, j, i, pool)
  {
    assert es[..|es| - 1][..j] == es[..j];
    assert es[..|es| - 1][..j + 1] == es[..j + 1];
  }

  /** Past its `Load`, a handler keeps its local copy; it is refused only on a copy at the
      limit. */
  predicate CarriesCopy(h: Handler) { h.pc.Deciding? || h.pc.Swapping? || h.exit.LimitRefused? }

  lemma CopyStep(h: Handler, active: int, limit: int, choice: bool)
    requires HandlerInv(h)
    ensures var h' := Advance(h, active, limit, choice).0;
            CarriesCopy(h') ==>
              if h.pc.Loading? then h'.current == active && !h'.exit.LimitRefused?
              else && CarriesCopy(h) && h'.current == h.current
                   && (h'.exit.LimitRefused? ==> h.exit.LimitRefused? || h.current >= limit)
  {
  }

  /** The handler's state one event earlier. */
  lemma HandlerBefore(s: State, e: Event, i: nat)
    requires i < |Step(s, e).handlers|
    ensures i >= |s.handlers| ==> !CarriesCopy(Step(s, e).handlers[i])
    ensures i < |s.handlers| ==>
              var h, h' := s.handlers[i], Step(s, e).handlers[i];
              && h'.pool == h.pool
              && h' == if e.Act? && e.i == i then Advance(h, s.Active(h.pool), s.Limit(h.pool), e.choice).0 else h
  {
  }

  lemma HandlerIsSound(sl: int, tl: int, es: seq<Event>, i: nat)
    requires i < |Run(Init(sl, tl), es).handlers|
    ensures HandlerInv(Run(Init(sl, tl), es).handlers[i])
    ensures forall pool :: Run(Init(sl, tl), es).Limit(pool) == Init(sl, tl).Limit(pool)
  {
    Reachable(sl, tl, es);
  }

  /** A handler past its `Load` really made one, of the value it still carries, and it was
      its last. */
  lemma {:induction false} LocalCopyWasLoaded(sl: int, tl: int, es: seq<Event>, i: nat) returns (k: nat)
    requires var s := Run(Init(sl, tl), es); i < |s.handlers| && CarriesCopy(s.handlers[i])
    ensures LoadedAt(Init(sl, tl), es, k, i, Run(Init(sl, tl), es).handlers[i].current)
    ensures NoLoadSince(Init(sl, tl), es, k, i)
    ensures var h := Run(Init(sl, tl), es).handlers[i];
            h.exit.LimitRefused? ==> h.current >= Init(sl, tl).Limit(h.pool)
  {
    var init, e := es[..|es| - 1], es[|es| - 1];
    var before := Run(Init(sl, tl), init);
    HandlerBefore(before, e, i);
    var h := before.handlers[i];
    HandlerIsSound(sl, tl, init, i);
    if e.Act? && e.i == i {
      CopyStep(h, before.Active(h.pool), before.Limit(h.pool), e.choice);
    }
    if e.Act? && e.i == i && h.pc.Loading? {
      k := |es| - 1;
    } else {
      k := LocalCopyWasLoaded(sl, tl, init, i);
      LoadedEarlier(Init(sl, tl), es, k, i, h.current);
      NoLoadLater(Init(sl, tl), es, k, i);
    }
  }

  /** A handler is refused only if the counter was at its limit at an instant of its own
      call: the instant of its last `Load`. */
  lemma {:induction false} RefusedOnlyAtLimit(sessionLimit: int, tunnelLimit: int, es: seq<Event>, i: nat)
    returns (k: nat)
    requires var s := Run(Init(sessionLimit, tunnelLimit), es);
             i < |s.handlers| && s.handlers[i].exit.LimitRefused?
    ensures k < |es| && es[k].Act? && es[k].i == i
    ensures var s := Run(Init(sessionLimit, tunnelLimit), es[..k]);
            && i < |s.handlers| && s.handlers[i].pc.Loading?
            && s.Active(s.handlers[i].pool) >= s.Limit(s.handlers[i].pool)
    ensures NoLoadSince(Init(sessionLimit, tunnelLimit), es, k, i)
  {
    k := LocalCopyWasLoaded(sessionLimit, tunnelLimit, es, i);
    Reachable(sessionLimit, tunnelLimit, es[..k]);
    PoolStays(sessionLimit, tunnelLimit, es, k, i);
  }

  lemma {:induction false} PoolStays(sl: int, tl: int, es: seq<Event>, k: nat, i: nat)
    requires k <= |es| && i < |Run(Init(sl, tl), es[..k]).handlers|
    ensures var s := Run(Init(sl, tl), es);
            i < |s.handlers| && s.handlers[i].pool == Run(Init(sl, tl), es[..k]).handlers[i].pool
  {
    if k == |es| {
      assert es[..k] == es;
    } else {
      assert es[..|es| - 1][..k] == es[..k];
      PoolStays(sl, tl, es[..|es| - 1], k, i);
      HandlerBefore(Run(Init(sl, tl), es[..|es| - 1]), es[|es| - 1], i);
    }
  }

  predicate Stale(s: State, i: nat) {
    && i < |s.handlers| && s.handlers[i].pc in {Deciding, Swapping}
    && s.Active(s.handlers[i].pool) != s.handlers[i].current
  }

  /** A handler's own steps before its swap leave the counter alone. */
  lemma NotStaleByItself(s: State, i: nat, choice: bool)
    requires Stale(Step(s, Act(i, choice)), i)
    ensures Stale(s, i)
  {
  }

  /** Handler i's last `Load` read n, and another handler changed the counter after it. */
  ghost predicate Interfered(s0: State, es: seq<Event>, k: nat, j: nat, i: nat, n: int, pool: Pool) {
    LoadedAt(s0, es, k, i, n) && NoLoadSince(s0, es, k, i) && k < j && ChangedBySomeoneElse(s0, es, j, i, pool)
  }

  lemma InterferedLater(s0: State, es: seq<Event>, k: nat, j: nat, i: nat, n: int, pool: Pool)
    requires es != [] && Interfered(s0, es[..|es| - 1], k, j, i, n, pool)
    requires var s, e := Run(s0, es[..|es| - 1]), es[|es| - 1];
             e.Act? && e.i == i && i < |s.handlers| ==> !s.handlers[i].pc.Loading?
    ensures Interfered(s0, es, k, j, i, n, pool)
  {
    LoadedEarlier(s0, es, k, i, n);
    NoLoadLater(s0, es, k, i);
    ChangedEarlier(s0, es, j, i, pool);
  }

  lemma InterferedNow(s0: State, es: seq<Event>, k: nat, i: nat, n: int, pool: Pool)
    requires es != [] && LoadedAt(s0, es[..|es| - 1], k, i, n) && NoLoadSince(s0, es[..|es| - 1], k, i)
    requires es[|es| - 1].Act? && es[|es| - 1].i != i
    requires Run(s0, es[..|es| - 1]).Active(pool) != Run(s0, es).Active(pool)
    ensures Interfered(s0, es, k, |es| - 1, i, n, pool)
  {
    LoadedEarlier(s0, es, k, i, n);
    NoLoadLater(s0, es, k, i);
    assert es[..|es| - 1 + 1] == es;
  }

  /** A handler stale after the event was so before it, or the event made it so. */
  lemma StaleStep(s: State, e: Event, i: nat)
    requires Stale(Step(s, e), i) && EachHandler(s)
    ensures i < |s.handlers| && CarriesCopy(s.handlers[i]) && !(e.Act? && e.i == i && s.handlers[i].pc.Loading?)
    ensures Step(s, e).handlers[i].current == s.handlers[i].current
    ensures Step(s, e).handlers[i].pool == s.handlers[i].pool
    ensures !Stale(s, i) ==>
              e.Act? && e.i != i && s.Active(s.handlers[i].pool) != Step(s, e).Active(s.handlers[i].pool)
  {
    HandlerBefore(s, e, i);
    if e.Act? && e.i == i { NotStaleByItself(s, i, e.choice); }
    CopyUnmoved(s, e, i);
  }

  /** Since a handler's last `Load` the counter is as loaded unless someone else moved it. */
  lemma {:induction false} StaleOnlyByOthers(sl: int, tl: int, es: seq<Event>, i: nat) returns (k: nat, j: nat)
    requires Stale(Run(Init(sl, tl), es), i)
    ensures var h := Run(Init(sl, tl), es).handlers[i];
            Interfered(Init(sl, tl), es, k, j, i, h.current, h.pool)
  {
    var init, e := es[..|es| - 1], es[|es| - 1];
    var before := Run(Init(sl, tl), init);
    Reachable(sl, tl, init);
    StaleStep(before, e, i);
    var h := before.handlers[i];
    if Stale(before, i) {
      k, j := StaleOnlyByOthers(sl, tl, init, i);
      InterferedLater(Init(sl, tl), es, k, j, i, h.current, h.pool);
    } else {
      k := LocalCopyWasLoaded(sl, tl, init, i);
      j := |es| - 1;
      InterferedNow(Init(sl, tl), es, k, i, h.current, h.pool);
    }
  }

  lemma CopyUnmoved(s: State, e: Event, i: nat)
    requires i < |s.handlers| && CarriesCopy(s.handlers[i]) && HandlerInv(s.handlers[i])
    ensures Step(s, e).handlers[i].current == s.handlers[i].current
    ensures Step(s, e).handlers[i].pool == s.handlers[i].pool
  {
  }

  /** If a handler's compare-and-swap fails, another handler changed the counter between
      that handler's last `Load` and the failed swap. */
  lemma {:induction false} FailedSwapMeansInterference(sessionLimit: int, tunnelLimit: int, es: seq<Event>,
                                                         i: nat, choice: bool)
    returns (k: nat, j: nat)
    requires var s := Run(Init(sessionLimit, tunnelLimit), es);
             i < |s.handlers| && s.handlers[i].pc.Swapping?
             && Step(s, Act(i, choice)).handlers[i].pc.Loading?
    ensures var h := Run(Init(sessionLimit, tunnelLimit), es).handlers[i];
            Interfered(Init(sessionLimit, tunnelLimit), es, k, j, i, h.current, h.pool)
  {
    k, j := StaleOnlyByOthers(sessionLimit, tunnelLimit, es, i);
  }
}
