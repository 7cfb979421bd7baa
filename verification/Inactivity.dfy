/**
 Release of inactive connections: how NewConnection, channel events, ReleaseInLoop and the ticks
 of one loop use its timer wheel. The wheel is the map of deadlines that the class refines.
 */
module Inactivity {
  import opened TimerSpec

  /**
   A connection's flags, the delay of its timer, and when that was last added or refreshed. As a
   history: whether the timer has run out, and whether it was cancelled by CancelInactiveRelease.
   */
  datatype Conn = Conn(timeout: nat, lastActive: nat, enabled: bool, expired: bool, cancelled: bool, released: bool)

  datatype State = State(wheel: Wheel, conns: map<nat, Conn>)

  const INIT := State(Wheel(0, map[]), map[])

  datatype Action =
    | NewConnection(id: nat, timeout: nat)   // EnableInactiveReleaseInLoop for a new connection
    | ChannelEvent(id: nat)                  // Connection::HandleEvent
    | EnableInactive(id: nat, timeout: nat)  // EnableInactiveReleaseInLoop at any later time
    | CancelInactive(id: nat)                // CancelInactiveReleaseInLoop, called by the user
    | ReleaseInLoop(id: nat)
    | TimerTick

  /** Ids are never reused; a released channel is removed, and its connection not used again. */
  predicate Enabled(s: State, a: Action) {
    match a
    case NewConnection(id, timeout) => id !in s.conns && id !in s.wheel.timers && timeout <= MAX_DELAY
    case EnableInactive(id, timeout) => id in s.conns && !s.conns[id].released && timeout <= MAX_DELAY
    case ReleaseInLoop(id) => id in s.conns
    case TimerTick => true
    case _ => a.id in s.conns && !s.conns[a.id].released
  }

  /** The wheel operations an action performs. */
  function WheelOps(s: State, a: Action): seq<Op>
    requires Enabled(s, a)
  {
    match a
    case NewConnection(id, timeout) => [Add(id, timeout)]
    case ChannelEvent(id) => if s.conns[id].enabled then [Refresh(id)] else []
    case EnableInactive(id, timeout) => if id in s.wheel.timers then [Refresh(id)] else [Add(id, timeout)]
    case CancelInactive(id) => if id in s.wheel.timers then [Cancel(id)] else []
    case ReleaseInLoop(id) => if id in s.wheel.timers then [Cancel(id)] else []
    case TimerTick => [Tick]
  }

  function Apply(s: State, a: Action): State
    requires Enabled(s, a)
  {
    var wheel, now := Run(s.wheel, WheelOps(s, a)), s.wheel.now;
    match a
    case NewConnection(id, timeout) => State(wheel, s.conns[id := Conn(timeout, now, true, false, false, false)])
    case ChannelEvent(id) =>
      var c := s.conns[id];
      State(wheel, s.conns[id := if c.enabled && id in s.wheel.timers then c.(lastActive := now) else c])
    case EnableInactive(id, timeout) =>
      State(wheel, s.conns[id := if id in s.wheel.timers then s.conns[id].(enabled := true, lastActive := now)
                                 else Conn(timeout, now, true, false, false, false)])
    case CancelInactive(id) =>
      State(wheel, s.conns[id := s.conns[id].(enabled := false, cancelled := true)])
    case ReleaseInLoop(id) =>
      State(wheel, s.conns[id := s.conns[id].(released := true, enabled := s.conns[id].enabled && id !in s.wheel.timers)])
    case TimerTick =>
      State(wheel, map id | id in s.conns :: if Fires(s.wheel, Tick, id) then s.conns[id].(expired := true) else s.conns[id])
  }

  predicate CanRun(s: State, actions: seq<Action>)
    decreases |actions|
  {
    |actions| == 0 || (Enabled(s, actions[0]) && CanRun(Apply(s, actions[0]), actions[1..]))
  }

  function After(s: State, actions: seq<Action>): State
    requires CanRun(s, actions)
    decreases |actions|
  {
    if |actions| == 0 then s else After(Apply(s, actions[0]), actions[1..])
  }

  /** The ticks at which the timer queues the release of id: its callback is Connection::Release. */
  function QueueTimes(s: State, actions: seq<Action>, id: nat): seq<nat>
    requires CanRun(s, actions)
    decreases |actions|
  {
    if |actions| == 0 then []
    else (if actions[0].TimerTick? && Fires(s.wheel, Tick, id) then [s.wheel.now + 1] else [])
         + QueueTimes(Apply(s, actions[0]), actions[1..], id)
  }

  // ----------------------------------------------------------------- invariant

  /**
   A known timer is due when its delay has passed since the last activity, and is cancelled exactly
   by the user or the release; without either, it is known until it has queued the release.
   */
  predicate ConnInv(w: Wheel, id: nat, c: Conn) {
    && (id in w.timers ==>
          w.timers[id] == Timer(c.timeout, c.lastActive + Effective(c.timeout), c.cancelled || c.released))
    && (!c.released && !c.cancelled ==> c.enabled && (c.expired <==> id !in w.timers))
  }

  predicate Inv(s: State) {
    && Sound(s.wheel)
    && (forall id :: id in s.wheel.timers ==> id in s.conns)
    && (forall id :: id in s.conns ==> ConnInv(s.wheel, id, s.conns[id]))
  }

  lemma RunOne(w: Wheel, op: Op)
    ensures Run(w, [op]) == Step(w, op)
  {
    assert Run(Step(w, op), []) == Step(w, op);
  }

  lemma ConnKept(s: State, a: Action, id: nat)
    requires Inv(s) && Enabled(s, a) && id in Apply(s, a).conns
    ensures ConnInv(Apply(s, a).wheel, id, Apply(s, a).conns[id])
  {
    if id in s.conns {
      assert ConnInv(s.wheel, id, s.conns[id]);
    }
    hide Run, Sound;
    AfterOps(s, a);
    if a.TimerTick? {
      TickKept(s, id);
    } else {
      hide Remaining;
    }
  }

  lemma TickKept(s: State, id: nat)
    requires Inv(s) && id in s.conns
    ensures ConnInv(Apply(s, TimerTick).wheel, id, Apply(s, TimerTick).conns[id])
  {
    assert ConnInv(s.wheel, id, s.conns[id]);
    RunOne(s.wheel, Tick);
  }

  /** An action performs one operation at most. */
  lemma AfterOps(s: State, a: Action)
    requires Enabled(s, a)
    ensures var ops := WheelOps(s, a);
            |ops| <= 1 && Run(s.wheel, ops) == if |ops| == 1 then Step(s.wheel, ops[0]) else s.wheel
  {
    var ops := WheelOps(s, a);
    if |ops| == 1 {
      RunOne(s.wheel, ops[0]);
    }
  }

  lemma ApplyKeepsInv(s: State, a: Action)
    requires Inv(s) && Enabled(s, a)
    ensures Inv(Apply(s, a))
  {
    var t, ops := Apply(s, a), WheelOps(s, a);
    forall id | id in t.conns ensures ConnInv(t.wheel, id, t.conns[id]) {
      ConnKept(s, a, id);
    }
    hide ConnInv;
    if |ops| == 1 {
      RunOne(s.wheel, ops[0]);
      StepSound(s.wheel, ops[0]);
    }
  }

  lemma {:induction false} RunsKeepInv(s: State, actions: seq<Action>)
    requires Inv(s) && CanRun(s, actions)
    ensures Inv(After(s, actions))
    decreases |actions|
  {
    if |actions| > 0 {
      ApplyKeepsInv(s, actions[0]);
      RunsKeepInv(Apply(s, actions[0]), actions[1..]);
    }
  }

  // ------------------------------------------------------------------ theorems

  predicate About(a: Action, id: nat) {
    !a.TimerTick? && a.id == id
  }

  /**
   A timer that is cancelled or out of the wheel queues nothing, until its connection, unless it is
   released, is enabled again.
   */
  lemma {:induction false} GoneIsSilent(s: State, actions: seq<Action>, id: nat)
    requires CanRun(s, actions) && id in s.conns
    requires id in s.wheel.timers ==> s.wheel.timers[id].canceled
    requires s.conns[id].released || forall i :: 0 <= i < |actions| ==> !(actions[i].EnableInactive? && actions[i].id == id)
    ensures QueueTimes(s, actions, id) == []
    decreases |actions|
  {
    if |actions| > 0 {
      var a := actions[0];
      var ops := WheelOps(s, a);
      if |ops| == 1 {
        RunOne(s.wheel, ops[0]);
      }
      assert !(a.EnableInactive? && a.id == id);
      GoneIsSilent(Apply(s, a), actions[1..], id);
    }
  }

  /** Once ReleaseInLoop has run, the timer callback of the connection is never invoked. */
  lemma ReleasedIsSilent(s: State, actions: seq<Action>, id: nat)
    requires Inv(s) && CanRun(s, [ReleaseInLoop(id)] + actions)
    ensures QueueTimes(s, [ReleaseInLoop(id)] + actions, id) == []
  {
    var all := [ReleaseInLoop(id)] + actions;
    assert all[1..] == actions;
    ApplyKeepsInv(s, all[0]);
    assert ConnInv(Apply(s, all[0]).wheel, id, Apply(s, all[0]).conns[id]);
    GoneIsSilent(Apply(s, all[0]), actions, id);
  }

  /** New ids connect at any time; a connection that is not released can be active, enabled, cancelled and released. */
  lemma AnythingMayHappen(s: State, id: nat, timeout: nat)
    requires Inv(s) && timeout <= 2147483588
    ensures Enabled(s, TimerTick)
    ensures id !in s.conns ==> Enabled(s, NewConnection(id, timeout))
    ensures id in s.conns ==> Enabled(s, ReleaseInLoop(id))
    ensures id in s.conns && !s.conns[id].released ==>
              Enabled(s, ChannelEvent(id)) && Enabled(s, EnableInactive(id, timeout)) && Enabled(s, CancelInactive(id))
  {
  }

  /** The user's cancelling silences the timer, whatever happens then, until the connection is enabled again. */
  lemma CancelledIsSilent(s: State, actions: seq<Action>, id: nat)
    requires Inv(s) && id in s.conns && !s.conns[id].released
    requires forall i :: 0 <= i < |actions| ==> !(actions[i].EnableInactive? && actions[i].id == id)
    ensures Enabled(s, CancelInactive(id))
    ensures CanRun(s, [CancelInactive(id)] + actions) ==> QueueTimes(s, [CancelInactive(id)] + actions, id) == []
  {
    var all := [CancelInactive(id)] + actions;
    assert all[1..] == actions;
    if CanRun(s, all) {
      var t := Apply(s, all[0]);
      ApplyKeepsInv(s, all[0]);
      assert ConnInv(t.wheel, id, t.conns[id]);
      GoneIsSilent(t, actions, id);
    }
  }

  /** The timer queues the release at tick `due`, if the run gets there, and at no other tick. */
  predicate QueuedOnceAt(s: State, actions: seq<Action>, id: nat, due: nat)
    requires CanRun(s, actions)
  {
    QueueTimes(s, actions, id) == if After(s, actions).wheel.now >= due then [due] else []
  }

  /** Nothing happens to this connection but the passing of time. */
  predicate Silent(actions: seq<Action>, id: nat) {
    forall i :: 0 <= i < |actions| ==> !About(actions[i], id)
  }

  /**
   A connection that stays inactive, uncancelled and unreleased has its release queued exactly once,
   exactly when its delay (`timeout`, from 1 to 60) has passed since its last event or its enabling.
   */
  lemma {:induction false} InactiveIsReleasedOnTime(s: State, actions: seq<Action>, id: nat, due: nat)
    requires Inv(s) && CanRun(s, actions) && id in s.conns && Silent(actions, id)
    requires var c := s.conns[id];
             !c.released && !c.cancelled && !c.expired && due == c.lastActive + Effective(c.timeout)
    ensures QueuedOnceAt(s, actions, id, due)
    decreases |actions|
  {
    assert ConnInv(s.wheel, id, s.conns[id]);
    if |actions| > 0 {
      var a := actions[0];
      assert !About(a, id);
      var ops := WheelOps(s, a);
      if |ops| == 1 {
        RunOne(s.wheel, ops[0]);
      }
      ApplyKeepsInv(s, a);
      var t, rest := Apply(s, a), actions[1..];
      forall i | 0 <= i < |rest| ensures !About(rest[i], id) {
        assert rest[i] == actions[i + 1];
      }
      if a.TimerTick? && Due(s.wheel, id) {
        GoneIsSilent(t, rest, id);
        ClockGrows(t, rest);
      } else {
        InactiveIsReleasedOnTime(t, rest, id, due);
      }
    }
  }

  lemma {:induction false} ClockGrows(s: State, actions: seq<Action>)
    requires CanRun(s, actions)
    ensures After(s, actions).wheel.now >= s.wheel.now
    decreases |actions|
  {
    if |actions| > 0 {
      NowGrows(s.wheel, WheelOps(s, actions[0]));
      ClockGrows(Apply(s, actions[0]), actions[1..]);
    }
  }

  /** Taking the first action apart. */
  lemma FirstAction(s: State, a: Action, rest: seq<Action>, id: nat)
    requires CanRun(s, [a] + rest) && !a.TimerTick?
    ensures Enabled(s, a) && CanRun(Apply(s, a), rest)
    ensures After(s, [a] + rest) == After(Apply(s, a), rest)
    ensures QueueTimes(s, [a] + rest, id) == QueueTimes(Apply(s, a), rest, id)
  {
    assert ([a] + rest)[1..] == rest;
  }

  /** The timer of this connection is known, with this delay, and not cancelled. */
  predicate Ticking(s: State, id: nat, timeout: nat) {
    id in s.wheel.timers && s.wheel.timers[id].delay == timeout && !s.wheel.timers[id].canceled
  }

  /** The action starts a timer with this delay, or refreshes one that is not cancelled. */
  predicate Touches(s: State, a: Action, id: nat, timeout: nat) {
    || a == NewConnection(id, timeout)
    || (a == EnableInactive(id, timeout) && id !in s.wheel.timers)
    || ((a == ChannelEvent(id) || (a.EnableInactive? && a.id == id)) && Ticking(s, id, timeout))
  }

  lemma TouchedNow(s: State, touch: Action, id: nat, timeout: nat)
    requires Inv(s) && Enabled(s, touch) && Touches(s, touch, id, timeout)
    ensures var t := Apply(s, touch);
            && id in t.conns
            && var c := t.conns[id];
            c.lastActive == s.wheel.now && c.timeout == timeout && !c.released && !c.cancelled && !c.expired
  {
    if id in s.conns {
      assert ConnInv(s.wheel, id, s.conns[id]);
    }
  }

  /** An action that is not a tick queues nothing. */
  lemma QueuedBefore(s: State, a: Action, rest: seq<Action>, id: nat, due: nat)
    requires Enabled(s, a) && CanRun(Apply(s, a), rest) && CanRun(s, [a] + rest) && !a.TimerTick?
    requires QueuedOnceAt(Apply(s, a), rest, id, due)
    ensures QueuedOnceAt(s, [a] + rest, id, due)
  {
    FirstAction(s, a, rest, id);
  }

  lemma TouchThenSilence(s: State, touch: Action, silence: seq<Action>, id: nat, timeout: nat, due: nat)
    requires due == s.wheel.now + Effective(timeout)
    requires Inv(s) && CanRun(s, [touch] + silence) && Touches(s, touch, id, timeout) && Silent(silence, id)
    ensures QueuedOnceAt(s, [touch] + silence, id, due)
  {
    FirstAction(s, touch, silence, id);
    TouchedNow(s, touch, id, timeout);
    ApplyKeepsInv(s, touch);
    InactiveIsReleasedOnTime(Apply(s, touch), silence, id, due);
    QueuedBefore(s, touch, silence, id, due);
  }

  lemma ReachedInv(history: seq<Action>, s: State)
    requires CanRun(INIT, history) && s == After(INIT, history)
    ensures Inv(s)
  {
    RunsKeepInv(INIT, history);
  }

  /**
   From the start of the loop: after any history, an enabling or a channel event of a connection
   whose timer still runs, and then silence, queue the release exactly when its delay is over.
   */
  lemma ActivityThenSilence(history: seq<Action>, s: State, touch: Action, silence: seq<Action>,
                            id: nat, timeout: nat, due: nat)
    requires CanRun(INIT, history) && s == After(INIT, history) && due == s.wheel.now + Effective(timeout)
    requires CanRun(s, [touch] + silence) && Touches(s, touch, id, timeout) && Silent(silence, id)
    ensures QueuedOnceAt(s, [touch] + silence, id, due)
  {
    ReachedInv(history, s);
    TouchThenSilence(s, touch, silence, id, timeout, due);
  }

  // ------------------------------------------------------------ enabling again

  function Idle(n: nat): (actions: seq<Action>)
    ensures |actions| == n && forall i :: 0 <= i < n ==> actions[i] == TimerTick
  {
    if n == 0 then [] else [TimerTick] + Idle(n - 1)
  }

  lemma {:induction false} IdleRuns(s: State, n: nat)
    ensures CanRun(s, Idle(n)) && After(s, Idle(n)).wheel.now == s.wheel.now + n
    decreases n
  {
    if n > 0 {
      assert Idle(n)[1..] == Idle(n - 1);
      RunOne(s.wheel, Tick);
      IdleRuns(Apply(s, TimerTick), n - 1);
    }
  }

  /** However long nothing else happens then, the release is queued at this tick and no other. */
  ghost predicate AlwaysOnTime(s: State, a: Action, id: nat, due: nat) {
    forall silence :: CanRun(s, [a] + silence) && Silent(silence, id) ==> QueuedOnceAt(s, [a] + silence, id, due)
  }

  /** No timer is left, and the delay is one the wheel keeps; or one is left, uncancelled and as slow. */
  predicate StartsAfresh(s: State, id: nat, timeout: nat) {
    if id in s.wheel.timers then !s.wheel.timers[id].canceled && Effective(s.wheel.timers[id].delay) == timeout
    else 1 <= timeout <= CAPACITY
  }

  /** What an idle connection's timer queues after an enabling that does not start afresh. */
  lemma NotAfresh(s: State, id: nat, timeout: nat, n: nat)
    requires Inv(s) && Enabled(s, EnableInactive(id, timeout)) && !StartsAfresh(s, id, timeout)
    requires n == timeout + CAPACITY
    ensures CanRun(s, [EnableInactive(id, timeout)] + Idle(n))
    ensures !QueuedOnceAt(s, [EnableInactive(id, timeout)] + Idle(n), id, s.wheel.now + timeout)
  {
    var a, silence := EnableInactive(id, timeout), Idle(n);
    assert ([a] + silence)[1..] == silence;
    var t := Apply(s, a);
    RunOne(s.wheel, WheelOps(s, a)[0]);
    IdleRuns(t, n);
    FirstAction(s, a, silence, id);
    if id in s.wheel.timers && s.wheel.timers[id].canceled {
      GoneIsSilent(t, silence, id);
    } else {
      var delay := if id in s.wheel.timers then s.wheel.timers[id].delay else timeout;
      TouchThenSilence(s, a, silence, id, delay, s.wheel.now + Effective(delay));
    }
  }

  /**
   Enabling the release of a connection makes it come `timeout` ticks later exactly when no timer of
   the connection is left in the wheel, or one that is not cancelled and has the same delay: a timer
   that is left is only refreshed, and a cancelled one stays cancelled.
   */
  lemma EnablingExactly(s: State, id: nat, timeout: nat)
    requires Inv(s) && Enabled(s, EnableInactive(id, timeout))
    ensures AlwaysOnTime(s, EnableInactive(id, timeout), id, s.wheel.now + timeout) <==> StartsAfresh(s, id, timeout)
  {
    var a := EnableInactive(id, timeout);
    if StartsAfresh(s, id, timeout) {
      var delay := if id in s.wheel.timers then s.wheel.timers[id].delay else timeout;
      DelayIsKept(timeout);
      forall silence | CanRun(s, [a] + silence) && Silent(silence, id)
        ensures QueuedOnceAt(s, [a] + silence, id, s.wheel.now + timeout)
      {
        TouchThenSilence(s, a, silence, id, delay, s.wheel.now + timeout);
      }
    } else {
      var n := timeout + CAPACITY;
      NotAfresh(s, id, timeout, n);
      assert Silent(Idle(n), id);
    }
  }
}
