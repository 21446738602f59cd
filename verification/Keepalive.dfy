/** The tunnel's pings against its read deadline. Times and durations are in nanoseconds. */
module Keepalive {
  const SECOND: int := 1_000_000_000
  const MAX_INTERVAL: int := 20 * SECOND

  function PingInterval(timeout: int): int {
    if timeout <= 0 || timeout / 2 >= MAX_INTERVAL then MAX_INTERVAL
    else if timeout / 2 < SECOND then SECOND
    else timeout / 2
  }

  method TunnelPingInterval(timeout: int) returns (interval: int)
    ensures interval == PingInterval(timeout)
  {
    interval := 20 * SECOND;
    if timeout > 0 && timeout / 2 < interval { interval := timeout / 2; }
    if interval < SECOND { return SECOND; }
  }

  /** The interval lies between one and twenty seconds, and is at most half the timeout
      exactly for the timeouts of at least two seconds. */
  lemma IntervalBounds(timeout: int)
    ensures SECOND <= PingInterval(timeout) <= 20 * SECOND
    ensures 2 * PingInterval(timeout) <= timeout <==> timeout >= 2 * SECOND
    ensures timeout >= 2 * SECOND && PingInterval(timeout) < 20 * SECOND ==> timeout - 2 * PingInterval(timeout) <= 1
  {
  }

  // ---- An idle stretch of a session ----

  /** An idle stretch begins when the reader arms the deadline for the last time, at time 0.
      The ticker is somewhere in its period: its next tick comes at `phase`. */
  datatype Clock = Clock(timeout: int, rtt: int, phase: int)

  /** A pong for one of the stretch's pings, or a late one for a ping from before it. */
  datatype Event = Tick(at: int) | Pong(ping: nat, at: int) | LatePong(at: int) | Wait(at: int)

  datatype Link = Link(now: int, deadline: int, pings: nat, answered: set<nat>, expired: bool)

  ghost predicate ValidClock(c: Clock) {
    c.timeout > 0 && c.rtt >= 0 && 0 < c.phase <= PingInterval(c.timeout)
  }

  /** When the ticker ticks for the j-th time in this stretch. */
  function TickAt(c: Clock, j: nat): int {
    if j == 0 then c.phase - PingInterval(c.timeout) else TickAt(c, j - 1) + PingInterval(c.timeout)
  }

  function Start(c: Clock): Link { Link(0, c.timeout, 0, {}, false) }

  function Step(c: Clock, l: Link, e: Event): Link {
    if l.expired || e.at >= l.deadline then l.(now := e.at, expired := true)
    else
      match e
      case Tick(at) => l.(now := at, pings := l.pings + 1)
      case Pong(ping, at) => l.(now := at, deadline := at + c.timeout, answered := l.answered + {ping})
      case LatePong(at) => l.(now := at, deadline := at + c.timeout)
      case Wait(at) => l.(now := at)
  }

  function Run(c: Clock, es: seq<Event>): Link {
    if es == [] then Start(c) else Step(c, Run(c, es[..|es| - 1]), es[|es| - 1])
  }

  /** The event fits the clock: time does not go back, no tick is missed, and every ping is
      answered once, within the round trip, in any order. */
  ghost predicate Timely(c: Clock, l: Link, e: Event) {
    && l.now <= e.at <= TickAt(c, l.pings + 1)
    && (e.Tick? ==> e.at == TickAt(c, l.pings + 1))
    && (e.Pong? ==> 1 <= e.ping <= l.pings && e.ping !in l.answered)
    && forall j :: 1 <= j <= l.pings && j !in l.answered ==> e.at <= TickAt(c, j) + c.rtt
  }

  ghost predicate AllTimely(c: Clock, es: seq<Event>) {
    es == [] || (AllTimely(c, es[..|es| - 1]) && Timely(c, Run(c, es[..|es| - 1]), es[|es| - 1]))
  }

  ghost predicate Inv(c: Clock, l: Link) {
    && !l.expired
    && 0 <= l.now && TickAt(c, l.pings) <= l.now
    && c.timeout <= l.deadline <= l.now + c.timeout
    && (forall j :: j in l.answered ==> 1 <= j <= l.pings && TickAt(c, j) + c.timeout <= l.deadline)
  }

  lemma {:induction false} TicksRise(c: Clock, i: nat, j: nat)
    requires i <= j
    ensures TickAt(c, i) <= TickAt(c, j)
  {
    IntervalBounds(c.timeout);
    if i < j { TicksRise(c, i, j - 1); }
  }

  /** Up to the first ping still unanswered, the deadline has followed the answered ones. */
  lemma {:induction false} BeforeDeadline(c: Clock, l: Link, e: Event, m: nat)
    requires ValidClock(c) && c.rtt + PingInterval(c.timeout) < c.timeout
    requires Inv(c, l) && Timely(c, l, e) && m <= l.pings
    requires TickAt(c, m) + c.timeout <= l.deadline
    ensures e.at < l.deadline
    decreases l.pings - m
  {
    assert TickAt(c, m + 1) == TickAt(c, m) + PingInterval(c.timeout);
    if m < l.pings && m + 1 in l.answered { BeforeDeadline(c, l, e, m + 1); }
  }

  lemma StepKeeps(c: Clock, l: Link, e: Event)
    requires ValidClock(c) && c.rtt + PingInterval(c.timeout) < c.timeout
    requires Inv(c, l) && Timely(c, l, e)
    ensures Inv(c, Step(c, l, e))
  {
    BeforeDeadline(c, l, e, 0);
    if e.Pong? { TicksRise(c, e.ping, l.pings); }
  }

  lemma {:induction false} StaysAlive(c: Clock, es: seq<Event>)
    requires ValidClock(c) && c.rtt + PingInterval(c.timeout) < c.timeout && AllTimely(c, es)
    ensures Inv(c, Run(c, es))
  {
    if es != [] {
      StaysAlive(c, es[..|es| - 1]);
      StepKeeps(c, Run(c, es[..|es| - 1]), es[|es| - 1]);
    }
  }

  // ---- How much round trip is too much ----

  function Ticks(c: Clock, n: nat): seq<Event> {
    if n == 0 then [] else Ticks(c, n - 1) + [Tick(TickAt(c, n))]
  }

  /** A link that has seen n ticks and no pong. */
  function Silent(c: Clock, n: nat): Link {
    Link(if n == 0 then 0 else TickAt(c, n), c.timeout, n, {}, false)
  }

  lemma SilentTick(c: Clock, n: nat)
    requires ValidClock(c) && n > 0 && TickAt(c, n) < c.timeout <= TickAt(c, 1) + c.rtt
    ensures Timely(c, Silent(c, n - 1), Tick(TickAt(c, n)))
    ensures Step(c, Silent(c, n - 1), Tick(TickAt(c, n))) == Silent(c, n)
  {
    IntervalBounds(c.timeout);
    TicksRise(c, 1, n);
    TicksRise(c, n - 1, n);
    assert TickAt(c, 1) == c.phase;
    forall j | 1 <= j <= n - 1 ensures TickAt(c, n) <= TickAt(c, j) + c.rtt { TicksRise(c, 1, j); }
  }

  /** With no pong at all, the link ticks on until the deadline. */
  lemma {:induction false} SilentTicks(c: Clock, n: nat)
    requires ValidClock(c) && TickAt(c, n) < c.timeout <= TickAt(c, 1) + c.rtt
    ensures AllTimely(c, Ticks(c, n))
    ensures Run(c, Ticks(c, n)) == Silent(c, n)
  {
    if n > 0 {
      IntervalBounds(c.timeout);
      TicksRise(c, n - 1, n);
      SilentTicks(c, n - 1);
      SilentTick(c, n);
      assert Ticks(c, n)[..|Ticks(c, n)| - 1] == Ticks(c, n - 1);
    }
  }

  lemma {:induction false} TicksLength(c: Clock, n: nat)
    ensures |Ticks(c, n)| == n
  {
    if n > 0 { TicksLength(c, n - 1); }
  }

  lemma {:induction false} LastTickBefore(c: Clock, n: nat) returns (k: nat)
    requires ValidClock(c) && TickAt(c, n) < c.timeout
    ensures TickAt(c, k) < c.timeout <= TickAt(c, k + 1)
    decreases c.timeout - TickAt(c, n)
  {
    IntervalBounds(c.timeout);
    if TickAt(c, n + 1) < c.timeout { k := LastTickBefore(c, n + 1); } else { k := n; }
  }

  lemma SlowPongExpires(c: Clock) returns (es: seq<Event>)
    requires ValidClock(c) && c.phase == PingInterval(c.timeout) && c.rtt + PingInterval(c.timeout) >= c.timeout
    ensures AllTimely(c, es) && Run(c, es).expired
  {
    assert TickAt(c, 0) == 0;
    assert TickAt(c, 1) == c.phase;
    var k := LastTickBefore(c, 0);
    SilentTicks(c, k);
    es := Ticks(c, k) + [Wait(c.timeout)];
    assert es[..|es| - 1] == Ticks(c, k);
    forall j | 1 <= j <= k ensures c.timeout <= TickAt(c, j) + c.rtt { TicksRise(c, 1, j); }
  }

  /** No idle stretch, however long and wherever it begins in the ticker's period, lets the
      deadline pass. */
  ghost predicate Safe(timeout: int, rtt: int) {
    forall phase, es ::
      0 < phase <= PingInterval(timeout) && AllTimely(Clock(timeout, rtt, phase), es) ==>
        !Run(Clock(timeout, rtt, phase), es).expired
  }

  /** The exact bound on the round trip. */
  lemma SafeExactly(timeout: int, rtt: int)
    requires timeout > 0 && rtt >= 0
    ensures Safe(timeout, rtt) <==> rtt + PingInterval(timeout) < timeout
  {
    IntervalBounds(timeout);
    if rtt + PingInterval(timeout) < timeout {
      forall phase, es | 0 < phase <= PingInterval(timeout) && AllTimely(Clock(timeout, rtt, phase), es)
        ensures !Run(Clock(timeout, rtt, phase), es).expired
      {
        StaysAlive(Clock(timeout, rtt, phase), es);
      }
    } else {
      var es := SlowPongExpires(Clock(timeout, rtt, PingInterval(timeout)));
    }
  }

  /** A round trip below half the timeout keeps every idle session open exactly when the
      timeout is at least two seconds. */
  lemma HalfTheTimeoutIsEnough(timeout: int)
    requires timeout > 0
    ensures (forall rtt :: 0 <= rtt && 2 * rtt < timeout ==> Safe(timeout, rtt)) <==> timeout >= 2 * SECOND
  {
    IntervalBounds(timeout);
    if timeout >= 2 * SECOND {
      forall rtt | 0 <= rtt && 2 * rtt < timeout ensures Safe(timeout, rtt) { SafeExactly(timeout, rtt); }
    } else {
      var rtt := if timeout < SECOND then 0 else timeout - SECOND;
      SafeExactly(timeout, rtt);
      assert !Safe(timeout, rtt);
    }
  }
}
