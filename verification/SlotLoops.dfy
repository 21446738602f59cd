/** The reservation loop and one SSH handler's life, statement by statement, in the middle
    of whatever the other handlers do. Each performs a run of the transition system. */
module SlotLoops {
  import opened Slots

  lemma {:induction false} RunConcat(s: State, a: seq<Event>, b: seq<Event>)
    ensures Run(s, a + b) == Run(Run(s, a), b)
  {
    if b == [] {
      assert a + b == a;
    } else {
      assert (a + b)[..|a + b| - 1] == a + b[..|b| - 1];
      RunConcat(s, a, b[..|b| - 1]);
    }
  }

  predicate NotBy(es: seq<Event>, i: nat) {
    forall k :: 0 <= k < |es| ==> !(es[k].Act? && es[k].i == i)
  }

  lemma {:induction false} OthersLeaveIt(s: State, es: seq<Event>, i: nat)
    requires i < |s.handlers| && NotBy(es, i)
    ensures i < |Run(s, es).handlers| && Run(s, es).handlers[i] == s.handlers[i]
    ensures Run(s, es).sessionLimit == s.sessionLimit && Run(s, es).tunnelLimit == s.tunnelLimit
  {
    if es != [] { OthersLeaveIt(s, es[..|es| - 1], i); }
  }

  lemma RunSnoc(s: State, es: seq<Event>, e: Event)
    ensures Run(s, es + [e]) == Step(Run(s, es), e)
  {
    assert (es + [e])[..|es|] == es;
  }

  lemma ActIs(s: State, i: nat, choice: bool)
    requires i < |s.handlers|
    ensures var t, h := Step(s, Act(i, choice)), s.handlers[i];
            && |t.handlers| == |s.handlers|
            && t.handlers[i] == Advance(h, s.Active(h.pool), s.Limit(h.pool), choice).0
            && t.Active(h.pool) == Advance(h, s.Active(h.pool), s.Limit(h.pool), choice).1
            && t.sessionLimit == s.sessionLimit && t.tunnelLimit == s.tunnelLimit
  {
  }

  /** The shared counters and everyone around them. `others` holds, for each coming
      statement of the handler at hand, what the other handlers do just before it. */
  class Registry {
    var state: State
    var others: seq<seq<Event>>

    constructor (state: State, others: seq<seq<Event>>)
      ensures this.state == state && this.others == others
    {
      this.state, this.others := state, others;
    }

    /** One statement of handler i, after the others have had their turn. */
    method Turn(i: nat, choice: bool) returns (ghost es: seq<Event>)
      requires i < |state.handlers|
      modifies this
      ensures state == Run(old(state), es) && i < |state.handlers| && |es| > 0
      ensures var h := old(state.handlers[i]);
              var s := Run(old(state), es[..|es| - 1]);
              && es[|es| - 1] == Act(i, choice) && NotBy(es[..|es| - 1], i)
              && state.handlers[i] == Advance(h, s.Active(h.pool), old(state).Limit(h.pool), choice).0
              && state.Active(h.pool) == Advance(h, s.Active(h.pool), old(state).Limit(h.pool), choice).1
      ensures state.sessionLimit == old(state.sessionLimit) && state.tunnelLimit == old(state.tunnelLimit)
      ensures if old(others) == [] then others == [] && es == [Act(i, choice)] else |others| < |old(others)|
    {
      var batch := [];
      if others != [] {
        if NotBy(others[0], i) { batch := others[0]; }
        others := others[1..];
      }
      OthersLeaveIt(state, batch, i);
      es := batch + [Act(i, choice)];
      assert es[..|es| - 1] == batch;
      RunSnoc(state, batch, Act(i, choice));
      ActIs(Run(state, batch), i, choice);
      state := Step(Run(state, batch), Act(i, choice));
    }

    /** One statement outside the reservation loop, appended to a run. What it does to the
        handler does not depend on the counters. */
    method Next(i: nat, choice: bool, ghost s0: State, ghost sofar: seq<Event>) returns (ghost es: seq<Event>)
      requires i < |state.handlers| && state.handlers[i].pc !in {Loading, Deciding, Swapping}
      requires state == Run(s0, sofar)
      modifies this
      ensures state == Run(s0, es) && i < |state.handlers|
      ensures state.handlers[i] == Advance(old(state.handlers[i]), 0, 0, choice).0
    {
      es := Turn(i, choice);
      RunConcat(s0, sofar, es);
      es := sofar + es;
    }

    /** The deferred function of handleConnect when its local flag is still set: `Add(-1)`. */
    method GiveBack(i: nat, ghost s0: State, ghost sofar: seq<Event>) returns (ghost es: seq<Event>)
      requires i < |state.handlers| && state.handlers[i].pc.Deferring? && state.handlers[i].reserved
      requires state == Run(s0, sofar)
      modifies this
      ensures state == Run(s0, es) && i < |state.handlers| && |es| > 0
      ensures var h := old(state.handlers[i]);
              && state.handlers[i] == h.(pc := if h.exit.StillRunning? then Relaying else Cleaning,
                                         reserved := false, released := h.released + 1)
              && state.Active(h.pool) == Run(s0, es[..|es| - 1]).Active(h.pool) - 1
    {
      ghost var turn := Turn(i, true);
      RunConcat(s0, sofar, turn);
      RunConcat(s0, sofar, turn[..|turn| - 1]);
      es := sofar + turn;
      assert es[..|es| - 1] == sofar + turn[..|turn| - 1];
    }

    /** The same function when the slot was handed over: the counter stays. */
    method KeepSlot(i: nat, ghost s0: State, ghost sofar: seq<Event>) returns (ghost es: seq<Event>)
      requires i < |state.handlers| && state.handlers[i].pc.Deferring? && !state.handlers[i].reserved
      requires state == Run(s0, sofar)
      modifies this
      ensures state == Run(s0, es) && i < |state.handlers| && |es| > 0
      ensures var h := old(state.handlers[i]);
              && state.handlers[i] == h.(pc := if h.exit.StillRunning? then Relaying else Cleaning)
              && state.Active(h.pool) == Run(s0, es[..|es| - 1]).Active(h.pool)
    {
      ghost var turn := Turn(i, true);
      RunConcat(s0, sofar, turn);
      RunConcat(s0, sofar, turn[..|turn| - 1]);
      es := sofar + turn;
      assert es[..|es| - 1] == sofar + turn[..|turn| - 1];
    }

    method Load(i: nat) returns (n: int, ghost es: seq<Event>)
      requires i < |state.handlers| && state.handlers[i].pc.Loading?
      modifies this
      ensures state == Run(old(state), es) && i < |state.handlers|
      ensures state.handlers[i] == old(state.handlers[i]).(pc := Deciding, current := n)
      ensures n == state.Active(state.handlers[i].pool)
      ensures state.sessionLimit == old(state.sessionLimit) && state.tunnelLimit == old(state.tunnelLimit)
      ensures if old(others) == [] then others == [] else |others| < |old(others)|
    {
      es := Turn(i, true);
      n := state.handlers[i].current;
    }

    method CompareAndSwap(i: nat, current: int) returns (ok: bool, ghost es: seq<Event>)
      requires i < |state.handlers| && state.handlers[i].pc.Swapping? && state.handlers[i].current == current
      modifies this
      ensures state == Run(old(state), es) && i < |state.handlers|
      ensures var h := old(state.handlers[i]);
              state.handlers[i] == if ok then h.(pc := Won, acquired := h.acquired + 1) else h.(pc := Loading)
      ensures |es| > 0 && NotBy(es[..|es| - 1], i)
      ensures var seen := Run(old(state), es[..|es| - 1]).Active(old(state.handlers[i]).pool);
              ok == (seen == current) && state.Active(state.handlers[i].pool) == if ok then seen + 1 else seen
      ensures state.sessionLimit == old(state.sessionLimit) && state.tunnelLimit == old(state.tunnelLimit)
      ensures old(others) == [] ==> others == [] && ok == (old(state).Active(old(state).handlers[i].pool) == current)
      ensures |others| <= |old(others)|
    {
      es := Turn(i, true);
      ok := state.handlers[i].pc.Won?;
      assert old(others) == [] ==> es[..|es| - 1] == [];
    }

    /** reserveSession and reserveTunnel. Success raises the counter by exactly one from a
        value below the limit; refusal comes from a value at the limit. The loop ends as soon
        as the others leave it one undisturbed round. */
    method Reserve(i: nat) returns (ok: bool, ghost es: seq<Event>)
      requires i < |state.handlers| && state.handlers[i].pc.Loading?
      modifies this
      ensures state == Run(old(state), es) && i < |state.handlers|
      ensures var h := state.handlers[i];
              && h == (if ok then old(state.handlers[i]).(pc := Won, current := h.current, acquired := h.acquired)
                       else old(state.handlers[i]).(pc := h.pc, current := h.current, exit := LimitRefused))
              && (ok ==> h.acquired == old(state.handlers[i].acquired) + 1)
              && (ok ==> h.current < state.Limit(h.pool) && state.Active(h.pool) == h.current + 1)
              && (!ok ==> h.current >= state.Limit(h.pool) && h.pc == if h.pool.Sessions? then Cleaning else Done)
      ensures state.sessionLimit == old(state.sessionLimit) && state.tunnelLimit == old(state.tunnelLimit)
    {
      ghost var s0 := state;
      var pool := state.handlers[i].pool;
      var limit := state.Limit(pool);
      es := [];
      while true
        invariant state == Run(s0, es) && i < |state.handlers|
        invariant state.handlers[i] == s0.handlers[i].(current := state.handlers[i].current)
        invariant state.sessionLimit == s0.sessionLimit && state.tunnelLimit == s0.tunnelLimit
        decreases |others|
      {
        ghost var more;
        var current;
        current, more := Load(i);
        RunConcat(s0, es, more);
        es := es + more;
        more := Turn(i, true);
        RunConcat(s0, es, more);
        es := es + more;
        if current >= limit {
          return false, es;
        }
        ok, more := CompareAndSwap(i, current);
        RunConcat(s0, es, more);
        es := es + more;
        if ok {
          return;
        }
      }
    }
  }

  /** The session object of one SSH WebSocket. */
  class WsSession {
    const registry: Registry
    const i: nat
    var connected: bool

    constructor (registry: Registry, i: nat)
      ensures this.registry == registry && this.i == i && !connected
    {
      this.registry, this.i, connected := registry, i, false;
    }

    /** The session's flag is the one the transition system keeps for its handler. */
    ghost predicate Mirrors(pc: Pc)
      reads this, registry
    {
      && i < |registry.state.handlers|
      && registry.state.handlers[i].pc == pc && registry.state.handlers[i].connected == connected
    }

    /** The hand-over: the session's flag is set before the local one is cleared, so that at
        no point neither stands for the slot; then the `connected` reply. */
    method HandOver(replies: bool) returns (reserved: bool, ghost es: seq<Event>)
      requires Mirrors(Storing) && !connected && registry.state.handlers[i].pool.Sessions?
      modifies this, registry
      ensures registry.state == Run(old(registry.state), es)
      ensures Mirrors(Deferring) && connected && !reserved
      ensures var h := old(registry.state.handlers[i]);
              registry.state.handlers[i] == h.(pc := Deferring, connected := true, reserved := false,
                                               exit := if replies then h.exit else ReplyFailed)
    {
      ghost var s0 := registry.state;
      connected := true;
      es := registry.Next(i, true, s0, []);
      reserved := false;
      es := registry.Next(i, true, s0, es);
      es := registry.Next(i, replies, s0, es);
    }

    /** handleConnect from the reservation on: reserve, dial, hand the slot from the local
        flag to the session's flag, reply, and the deferred release. */
    method HandleConnect(dials: bool, replies: bool) returns (ok: bool, ghost es: seq<Event>)
      requires Mirrors(Loading) && !connected
      requires registry.state.handlers[i] == NewHandler(Sessions).(pc := Loading)
      modifies this, registry
      ensures registry.state == Run(old(registry.state), es)
      ensures Mirrors(if ok then Relaying else Cleaning)
      ensures var h := registry.state.handlers[i];
              && h.pool.Sessions? && !h.reserved && HandlerInv(h)
              && ok == h.exit.StillRunning?
              && (h.exit.LimitRefused? ==> !connected)
              && (h.exit.DialFailed? ==> !dials && !connected && h.released == 1)
              && (h.exit.ReplyFailed? ==> dials && !replies && connected && h.released == 0)
              && (ok ==> dials && replies && connected && h.released == 0)
              && (h.exit in {StillRunning, LimitRefused, DialFailed, ReplyFailed})
    {
      ghost var s0, more := registry.state, [];
      var won;
      won, es := registry.Reserve(i);
      if !won {
        return false, es;
      }
      var reserved := true;
      es := registry.Next(i, true, s0, es);
      es := registry.Next(i, dials, s0, es);
      if dials {
        reserved, more := HandOver(replies);
        RunConcat(s0, es, more);
        es := es + more;
      }
      if reserved {
        es := registry.GiveBack(i, s0, es);
      } else {
        es := registry.KeepSlot(i, s0, es);
      }
      ok := dials && replies;
    }

    /** cleanup: the slot is released here exactly when the session's flag was still set. */
    method Cleanup() returns (ghost es: seq<Event>)
      requires Mirrors(Cleaning)
      modifies this, registry
      ensures registry.state == Run(old(registry.state), es)
      ensures Mirrors(Done) && !connected
      ensures var h, h' := old(registry.state.handlers[i]), registry.state.handlers[i];
              h' == h.(pc := Done, connected := false, released := h.released + if h.connected then 1 else 0)
    {
      ghost var s0 := registry.state;
      var was := connected;
      connected := false;
      es := registry.Next(i, true, s0, []);
      if was {
        es := registry.Next(i, true, s0, es);
      }
    }

    /** The whole life of a handler. However it ends, its slot has been given back exactly
        if it was taken. */
    method Serve(valid: bool, dials: bool, replies: bool) returns (ghost es: seq<Event>)
      requires Mirrors(AwaitingConnect) && registry.state.handlers[i] == NewHandler(Sessions)
      modifies this, registry
      ensures registry.state == Run(old(registry.state), es)
      ensures Mirrors(Done) && !connected
      ensures var h := registry.state.handlers[i];
              && h.released == h.acquired
              && h.exit == (if !valid then BadMessage
                            else if h.acquired == 0 then LimitRefused
                            else if !dials then DialFailed
                            else if !replies then ReplyFailed
                            else NormalEnd)
    {
      ghost var s0, more := registry.state, [];
      es := registry.Next(i, valid, s0, []);
      if valid {
        var ok;
        ok, more := HandleConnect(dials, replies);
        RunConcat(s0, es, more);
        es := es + more;
        if ok {
          es := registry.Next(i, true, s0, es);
        }
      }
      more := Cleanup();
      RunConcat(s0, es, more);
      es := es + more;
    }
  }
}
