/** What a timer wheel is for: a map from ids to deadlines, and the runs of such a map. */
module TimerSpec {

  const CAPACITY: nat := 60

  /** The largest delay for which `_tick + delay` stays within a 32-bit int. */
  const MAX_DELAY: nat := 0x7FFF_FFFF - 59

  /** The delay a wheel of 60 slots really gives: 1..60 as asked, 0 as 60, longer ones wrapped. */
  function Effective(delay: nat): (d: nat)
    ensures 1 <= d <= CAPACITY
  {
    if delay % CAPACITY == 0 then CAPACITY else delay % CAPACITY
  }

  datatype Timer = Timer(delay: nat, deadline: nat, canceled: bool)

  /** The number of ticks so far, and the timers that are still known. */
  datatype Wheel = Wheel(now: nat, timers: map<nat, Timer>)

  datatype Op = Add(id: nat, delay: nat) | Refresh(id: nat) | Cancel(id: nat) | Tick

  predicate Due(w: Wheel, id: nat) {
    id in w.timers && w.timers[id].deadline == w.now + 1
  }

  /** One operation. Adding an id that is still known is outside this specification. */
  function Step(w: Wheel, op: Op): Wheel {
    match op
    case Add(id, delay) => w.(timers := w.timers[id := Timer(delay, w.now + Effective(delay), false)])
    case Refresh(id) =>
      if id !in w.timers then w
      else w.(timers := w.timers[id := w.timers[id].(deadline := w.now + Effective(w.timers[id].delay))])
    case Cancel(id) =>
      if id !in w.timers then w else w.(timers := w.timers[id := w.timers[id].(canceled := true)])
    case Tick => Wheel(w.now + 1, Remaining(w))
  }

  /** What is not due at the next tick. */
  function Remaining(w: Wheel): map<nat, Timer> {
    map id | id in w.timers && !Due(w, id) :: w.timers[id]
  }

  /** The callback of id runs at this operation. */
  predicate Fires(w: Wheel, op: Op, id: nat) {
    op.Tick? && Due(w, id) && !w.timers[id].canceled
  }

  function Run(w: Wheel, ops: seq<Op>): Wheel
    decreases |ops|
  {
    if |ops| == 0 then w else Run(Step(w, ops[0]), ops[1..])
  }

  /** The ticks at which the callback of id runs. */
  function FireTimes(w: Wheel, ops: seq<Op>, id: nat): seq<nat>
    decreases |ops|
  {
    if |ops| == 0 then []
    else (if Fires(w, ops[0], id) then [w.now + 1] else []) + FireTimes(Step(w, ops[0]), ops[1..], id)
  }

  function Ticks(n: nat): (ops: seq<Op>)
    ensures |ops| == n
  {
    if n == 0 then [] else [Tick] + Ticks(n - 1)
  }

  /** Every id is unknown when it is added, and no delay overflows. */
  predicate FreshAdds(w: Wheel, ops: seq<Op>)
    decreases |ops|
  {
    |ops| == 0
    || ((ops[0].Add? ==> ops[0].id !in w.timers && ops[0].delay <= MAX_DELAY) && FreshAdds(Step(w, ops[0]), ops[1..]))
  }

  /** Only adding is ever restricted: to ids that are unknown then, and to delays that fit. */
  lemma FreshExactly(w: Wheel, op: Op, rest: seq<Op>)
    ensures FreshAdds(w, [])
    ensures FreshAdds(w, [op] + rest) <==>
            (op.Add? ==> op.id !in w.timers && op.delay <= 2147483588) && FreshAdds(Step(w, op), rest)
  {
    assert ([op] + rest)[1..] == rest;
  }

  /** Deadlines lie in the future, no further than the delay reaches. */
  predicate Sound(w: Wheel) {
    forall id :: id in w.timers ==>
      w.now < w.timers[id].deadline <= w.now + Effective(w.timers[id].delay)
  }

  lemma StepSound(w: Wheel, op: Op)
    requires Sound(w)
    ensures Sound(Step(w, op))
  {
  }

  predicate Mentions(op: Op, id: nat) {
    !op.Tick? && op.id == id
  }

  predicate Untouched(ops: seq<Op>, id: nat) {
    forall i :: 0 <= i < |ops| ==> !Mentions(ops[i], id)
  }

  predicate NotAdded(ops: seq<Op>, id: nat) {
    forall i :: 0 <= i < |ops| ==> !(ops[i].Add? && ops[i].id == id)
  }

  /** An unknown id stays unknown and silent until it is added. */
  lemma {:induction false} UnknownIsSilent(w: Wheel, ops: seq<Op>, id: nat)
    requires id !in w.timers && NotAdded(ops, id)
    ensures FireTimes(w, ops, id) == [] && id !in Run(w, ops).timers
    decreases |ops|
  {
    if |ops| > 0 {
      assert !(ops[0].Add? && ops[0].id == id);
      assert NotAdded(ops[1..], id);
      UnknownIsSilent(Step(w, ops[0]), ops[1..], id);
    }
  }

  /**
   Left alone, a timer's callback runs exactly once, at its deadline, if that is reached; never
   when it was cancelled; and either way the id is known exactly until the deadline.
   */
  lemma {:induction false} FiresAtDeadline(w: Wheel, ops: seq<Op>, id: nat)
    requires Sound(w) && id in w.timers && Untouched(ops, id)
    ensures var t := w.timers[id];
            var end := Run(w, ops);
            && FireTimes(w, ops, id) == (if end.now >= t.deadline && !t.canceled then [t.deadline] else [])
            && (id in end.timers <==> end.now < t.deadline)
    decreases |ops|
  {
    if |ops| > 0 {
      assert !Mentions(ops[0], id);
      assert Untouched(ops[1..], id);
      var next := Step(w, ops[0]);
      StepSound(w, ops[0]);
      if Due(w, id) && ops[0].Tick? {
        UnknownIsSilent(next, ops[1..], id);
        NowGrows(next, ops[1..]);
      } else {
        FiresAtDeadline(next, ops[1..], id);
      }
    }
  }

  lemma {:induction false} NowGrows(w: Wheel, ops: seq<Op>)
    ensures Run(w, ops).now >= w.now
    decreases |ops|
  {
    if |ops| > 0 {
      NowGrows(Step(w, ops[0]), ops[1..]);
    }
  }

  /**
   The promise: after an add or a refresh that is the last operation on its id, the callback runs
   exactly once, `delay` ticks later, for every delay from 1 to 60.
   */
  lemma FiresAfterDelay(w: Wheel, touch: Op, ops: seq<Op>, id: nat, delay: nat)
    requires Sound(w) && Untouched(ops, id) && 1 <= delay <= 60
    requires touch == Add(id, delay)
             || (touch == Refresh(id) && id in w.timers && w.timers[id].delay == delay && !w.timers[id].canceled)
    ensures FireTimes(w, [touch] + ops, id) == if Run(w, [touch] + ops).now >= w.now + delay then [w.now + delay] else []
  {
    assert ([touch] + ops)[1..] == ops;
    DelayIsKept(delay);
    StepSound(w, touch);
    FiresAtDeadline(Step(w, touch), ops, id);
    assert !Fires(w, touch, id);
  }

  /** The wheel gives the delay that was asked for exactly when it is between 1 and 60. */
  lemma DelayIsKept(delay: nat)
    ensures Effective(delay) == delay <==> 1 <= delay <= 60
  {
  }

  /** Any other delay leaves the hand as many whole turns of 60 short, and 0 takes a whole turn. */
  lemma DelayWraps(delay: nat, turns: nat)
    ensures 1 <= delay <= 60 ==> Effective(60 * turns + delay) == delay
    ensures Effective(0) == 60
  {
  }

  /** With the hand on the last slot, these delays and no larger ones keep `_tick + delay` within an int. */
  lemma DelayFits(delay: nat)
    ensures delay <= MAX_DELAY <==> 59 + delay <= 2147483647
  {
  }

  /** Once cancelled, never: no refresh revives a timer before its id is gone and added again. */
  lemma {:induction false} CancelledNeverFires(w: Wheel, ops: seq<Op>, id: nat)
    requires id in w.timers && w.timers[id].canceled && NotAdded(ops, id)
    ensures FireTimes(w, ops, id) == []
    decreases |ops|
  {
    if |ops| > 0 {
      assert !(ops[0].Add? && ops[0].id == id);
      assert NotAdded(ops[1..], id);
      var next := Step(w, ops[0]);
      if id in next.timers {
        CancelledNeverFires(next, ops[1..], id);
      } else {
        UnknownIsSilent(next, ops[1..], id);
      }
    }
  }

  /** Whatever refreshes and cancellations come in between, one add gives at most one run of the callback. */
  lemma {:induction false} FiresAtMostOnce(w: Wheel, ops: seq<Op>, id: nat)
    requires NotAdded(ops, id)
    ensures |FireTimes(w, ops, id)| <= 1
    decreases |ops|
  {
    if |ops| > 0 {
      assert !(ops[0].Add? && ops[0].id == id);
      assert NotAdded(ops[1..], id);
      if Fires(w, ops[0], id) {
        UnknownIsSilent(Step(w, ops[0]), ops[1..], id);
      } else {
        FiresAtMostOnce(Step(w, ops[0]), ops[1..], id);
      }
    }
  }
}
