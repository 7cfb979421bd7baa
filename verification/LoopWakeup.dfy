/**
 The event loop's task queue and its eventfd, as the interleaved steps of any number of producer
 threads and one loop thread. The mutex makes each push and each swap one step; the eventfd is a
 counter that a read sets to zero. src/EventLoop.cc wakes the loop only under a condition,
 source/server.hpp always does; both are instances of the same machine.
 */
module LoopWakeup {

  /** When queueInLoop writes to the eventfd. */
  datatype Rule =
    | AlwaysWake           // source/server.hpp: QueueInLoop
    | WakeOtherOrCalling   // src/EventLoop.cc: !isInLoopThread() || callingPendingFunctors_
    | WakeOther            // the second disjunct left out

  /** A functor with the number of swaps that had happened when it was queued. */
  datatype Item = Item(functor: nat, queuedAt: nat)

  datatype LoopPc =
    | CheckQuit                       // while (!quit_)
    | AtPoll                          // about to block in epoll_wait
    | Dispatching(wakeActive: bool)   // handling active channels
    | Calling                         // doPendingFunctors before the swap
    | Running(inFunctor: bool)        // executing the swapped-out batch
    | Queued(back: LoopPc)            // queueInLoop on the loop thread, between push and wakeup
    | Exited

  datatype State = State(
    pending: seq<Item>, batch: seq<Item>,
    counter: nat, quit: bool, calling: bool,
    loop: LoopPc,
    waking: set<nat>,      // producers between their push or quit flag and their write
    swaps: nat,
    queued: seq<Item>,     // history: everything ever pushed
    executed: seq<Item>,   // history: everything ever run
    ranIn: seq<nat>)       // the batch number of each run

  const INIT := State([], [], 0, false, false, CheckQuit, {}, 0, [], [], [])

  datatype Action =
    | ProducerPush(p: nat, functor: nat)
    | ProducerQuit(p: nat)
    | ProducerWrite(p: nat)
    | LoopCheck
    | LoopPoll(wakeActive: bool)
    | LoopRead
    | LoopQueue(functor: nat)
    | LoopWake
    | LoopQuit
    | LoopCall
    | LoopSwap
    | LoopRunNext
    | LoopReturn

  function Push(s: State, functor: nat): State {
    var item := Item(functor, s.swaps);
    s.(pending := s.pending + [item], queued := s.queued + [item])
  }

  /** User code runs on the loop thread: a channel's handler, or a functor of the batch. */
  predicate InUserCode(s: State) {
    s.loop.Dispatching? || s.loop == Running(true)
  }

  predicate Enabled(s: State, a: Action) {
    match a
    case ProducerPush(p, _) => p !in s.waking
    case ProducerQuit(p) => p !in s.waking
    case ProducerWrite(p) => p in s.waking
    case LoopCheck => s.loop == CheckQuit
    case LoopPoll(w) => s.loop == AtPoll && (w ==> s.counter > 0)
    case LoopRead => s.loop == Dispatching(true)
    case LoopQueue(_) => InUserCode(s)
    case LoopWake => s.loop.Queued?
    case LoopQuit => InUserCode(s)
    case LoopCall => s.loop.Dispatching?
    case LoopSwap => s.loop == Calling
    case LoopRunNext => s.loop.Running? && s.batch != []
    case LoopReturn => s.loop.Running? && s.batch == []
  }

  function Step(rule: Rule, s: State, a: Action): State
    requires Enabled(s, a)
  {
    match a
    case ProducerPush(p, f) => Push(s, f).(waking := s.waking + {p})
    case ProducerQuit(p) => s.(quit := true, waking := s.waking + {p})
    case ProducerWrite(p) => s.(counter := s.counter + 1, waking := s.waking - {p})
    case LoopCheck => s.(loop := if s.quit then Exited else AtPoll)
    case LoopPoll(w) => s.(loop := Dispatching(w))
    case LoopRead => s.(counter := 0, loop := Dispatching(false))
    case LoopQueue(f) => Push(s, f).(loop := Queued(s.loop))
    case LoopWake =>
      var write := rule.AlwaysWake? || (rule.WakeOtherOrCalling? && s.calling);
      s.(counter := if write then s.counter + 1 else s.counter, loop := s.loop.back)
    case LoopQuit => s.(quit := true)
    case LoopCall => s.(calling := true, loop := Calling)
    case LoopSwap => s.(batch := s.pending, pending := [], swaps := s.swaps + 1, loop := Running(false))
    case LoopRunNext =>
      s.(batch := s.batch[1..], executed := s.executed + [s.batch[0]], ranIn := s.ranIn + [s.swaps], loop := Running(true))
    case LoopReturn => s.(calling := false, loop := CheckQuit)
  }

  ghost predicate Reaches(rule: Rule, s: State, actions: seq<Action>, t: State)
    decreases |actions|
  {
    if |actions| == 0 then s == t
    else Enabled(s, actions[0]) && Reaches(rule, Step(rule, s, actions[0]), actions[1..], t)
  }

  // ------------------------------------------------------------- no lost wakeup

  /** A wakeup is on its way: the counter is positive, or a thread is about to write it. */
  predicate WakeupComing(s: State) {
    s.counter > 0 || s.waking != {}
  }

  /** The loop is never about to block with work or a quit request and no wakeup coming. */
  predicate Safe(s: State) {
    s.loop == AtPoll && (s.pending != [] || s.quit) ==> WakeupComing(s)
  }

  /** Past the swap, what is pending already has its wakeup, or is about to get it from this thread. */
  predicate WakeInv(s: State) {
    && (s.loop.Queued? ==> s.loop.back.Dispatching? || s.loop.back == Running(true))
    && (s.calling <==> s.loop == Calling || s.loop.Running? || (s.loop.Queued? && s.loop.back.Running?))
    && (s.pending != [] && (s.loop.Running? || s.loop == CheckQuit || s.loop == AtPoll) ==> WakeupComing(s))
    && (s.quit && s.loop == AtPoll ==> WakeupComing(s))
  }

  lemma WakeStep(rule: Rule, s: State, a: Action)
    requires rule != WakeOther && WakeInv(s) && Enabled(s, a)
    ensures WakeInv(Step(rule, s, a))
  {
    match a
    case ProducerPush(p, f) => assert p in Step(rule, s, a).waking;
    case ProducerQuit(p) => assert p in Step(rule, s, a).waking;
    case _ =>
  }

  lemma {:induction false} WakeRuns(rule: Rule, s: State, actions: seq<Action>, t: State)
    requires rule != WakeOther && WakeInv(s) && Reaches(rule, s, actions, t)
    ensures WakeInv(t)
    decreases |actions|
  {
    if |actions| > 0 {
      WakeStep(rule, s, actions[0]);
      WakeRuns(rule, Step(rule, s, actions[0]), actions[1..], t);
    }
  }

  lemma Prepend(rule: Rule, s: State, a: Action, rest: seq<Action>, t: State)
    requires Enabled(s, a) && Reaches(rule, Step(rule, s, a), rest, t)
    ensures Reaches(rule, s, [a] + rest, t)
  {
    assert ([a] + rest)[1..] == rest;
  }

  /** A loop that is running its first batch, with the wakeup of that batch consumed. */
  function FirstBatch(): State {
    State([], [Item(10, 0)], 0, false, true, Running(false), {}, 1, [Item(10, 0)], [], [])
  }

  /** One functor has been queued by a producer, and its wakeup written. */
  function FirstWakeup(): State {
    INIT.(pending := [Item(10, 0)], queued := [Item(10, 0)], counter := 1)
  }

  lemma FirstWakeupIsReached(actions: seq<Action>, t: State) returns (all: seq<Action>)
    requires Reaches(WakeOther, FirstWakeup(), actions, t)
    ensures Reaches(WakeOther, INIT, all, t)
  {
    var r, s1 := WakeOther, FirstWakeup().(counter := 0, waking := {0});
    assert s1 == Step(r, INIT, ProducerPush(0, 10)) by { assert {0} == {} + {0}; }
    assert FirstWakeup() == Step(r, s1, ProducerWrite(0)) by { assert {0} - {0} == {}; }
    Prepend(r, s1, ProducerWrite(0), actions, t);
    all := [ProducerWrite(0)] + actions;
    Prepend(r, INIT, ProducerPush(0, 10), all, t);
    all := [ProducerPush(0, 10)] + all;
  }

  lemma FirstBatchIsReached(actions: seq<Action>, t: State) returns (all: seq<Action>)
    requires Reaches(WakeOther, FirstBatch(), actions, t)
    ensures Reaches(WakeOther, INIT, all, t)
  {
    var r, s2 := WakeOther, FirstWakeup();
    var s3 := s2.(loop := AtPoll);
    var s4 := s2.(loop := Dispatching(true));
    var s5 := s2.(counter := 0, loop := Dispatching(false));
    var s6 := s5.(calling := true, loop := Calling);
    Prepend(r, s6, LoopSwap, actions, t);
    all := [LoopSwap] + actions;
    Prepend(r, s5, LoopCall, all, t);
    all := [LoopCall] + all;
    Prepend(r, s4, LoopRead, all, t);
    all := [LoopRead] + all;
    Prepend(r, s3, LoopPoll(true), all, t);
    all := [LoopPoll(true)] + all;
    Prepend(r, s2, LoopCheck, all, t);
    all := FirstWakeupIsReached([LoopCheck] + all, t);
  }

  /** That batch has run its functor, which has pushed another. */
  function PushedAnother(): State {
    Step(WakeOther, Step(WakeOther, FirstBatch(), LoopRunNext), LoopQueue(11))
  }

  lemma PushedAnotherIsReached(actions: seq<Action>, t: State) returns (all: seq<Action>)
    requires Reaches(WakeOther, PushedAnother(), actions, t)
    ensures Reaches(WakeOther, INIT, all, t)
  {
    Prepend(WakeOther, Step(WakeOther, FirstBatch(), LoopRunNext), LoopQueue(11), actions, t);
    Prepend(WakeOther, FirstBatch(), LoopRunNext, [LoopQueue(11)] + actions, t);
    all := FirstBatchIsReached([LoopRunNext] + ([LoopQueue(11)] + actions), t);
  }

  /** With the shortened condition, a functor that queues a functor loses its wakeup. */
  lemma LostWithoutCalling() returns (actions: seq<Action>, t: State)
    ensures Reaches(WakeOther, INIT, actions, t) && !Safe(t)
  {
    var r, s9 := WakeOther, PushedAnother();
    var s10 := Step(r, s9, LoopWake);
    var s11 := Step(r, s10, LoopReturn);
    t := Step(r, s11, LoopCheck);
    Prepend(r, s11, LoopCheck, [], t);
    Prepend(r, s10, LoopReturn, [LoopCheck] + [], t);
    Prepend(r, s9, LoopWake, [LoopReturn] + ([LoopCheck] + []), t);
    actions := PushedAnotherIsReached([LoopWake] + ([LoopReturn] + ([LoopCheck] + [])), t);
  }

  ghost predicate NeverLoses(rule: Rule) {
    forall actions, t :: Reaches(rule, INIT, actions, t) ==> Safe(t)
  }

  /**
   No wakeup is lost in any run, exactly for the two rules the repository uses: without
   `callingPendingFunctors_` the condition in queueInLoop would not be enough.
   */
  lemma NoLostWakeup(rule: Rule)
    ensures rule != WakeOther <==> NeverLoses(rule)
  {
    if rule == WakeOther {
      var actions, t := LostWithoutCalling();
      assert Reaches(rule, INIT, actions, t) && !Safe(t);
    } else {
      forall actions, t | Reaches(rule, INIT, actions, t) ensures Safe(t) {
        WakeRuns(rule, INIT, actions, t);
      }
    }
  }

  /** The loop cannot block for ever on work: every write that is due can happen, and then epoll reports it. */
  lemma WorkGetsThrough(rule: Rule, s: State)
    requires rule != WakeOther && WakeInv(s) && s.loop == AtPoll && (s.pending != [] || s.quit)
    ensures Enabled(s, LoopPoll(true))
            || exists p :: Enabled(s, ProducerWrite(p)) && Enabled(Step(rule, s, ProducerWrite(p)), LoopPoll(true))
  {
    if s.counter == 0 {
      var p :| p in s.waking;
      assert Enabled(s, ProducerWrite(p)) && Enabled(Step(rule, s, ProducerWrite(p)), LoopPoll(true));
    }
  }

  // ------------------------------------------------------ exactly once, in order

  /**
   Everything ever queued has run, or is in the batch, or is pending, in the order it was queued;
   and what runs in a batch was queued before that batch was taken.
   */
  predicate FifoInv(s: State) {
    && s.executed + s.batch + s.pending == s.queued
    && |s.ranIn| == |s.executed|
    && (forall i :: 0 <= i < |s.executed| ==> s.executed[i].queuedAt < s.ranIn[i] <= s.swaps)
    && (forall i :: 0 <= i < |s.batch| ==> s.batch[i].queuedAt < s.swaps)
    && (forall i :: 0 <= i < |s.pending| ==> s.pending[i].queuedAt <= s.swaps)
  }

  lemma FifoPush(s: State, functor: nat)
    requires FifoInv(s)
    ensures FifoInv(Push(s, functor))
  {
    var item := Item(functor, s.swaps);
    assert s.executed + s.batch + (s.pending + [item]) == (s.executed + s.batch + s.pending) + [item];
  }

  /** LoopReturn ends the loop over the batch, so the next swap finds the batch empty. */
  predicate BatchInv(s: State) {
    s.batch != [] ==> s.loop.Running? || (s.loop.Queued? && s.loop.back.Running?)
  }

  lemma FifoStep(rule: Rule, s: State, a: Action)
    requires FifoInv(s) && BatchInv(s) && Enabled(s, a)
    ensures FifoInv(Step(rule, s, a)) && BatchInv(Step(rule, s, a))
  {
    match a
    case ProducerPush(p, f) => FifoPush(s, f);
    case LoopQueue(f) => FifoPush(s, f);
    case LoopSwap =>
      assert s.executed + s.batch + s.pending == s.executed + s.pending + [];
    case LoopRunNext =>
      assert s.executed + s.batch + s.pending == (s.executed + [s.batch[0]]) + s.batch[1..] + s.pending;
    case _ =>
  }

  lemma {:induction false} FifoRuns(rule: Rule, s: State, actions: seq<Action>, t: State)
    requires FifoInv(s) && BatchInv(s) && Reaches(rule, s, actions, t)
    ensures FifoInv(t)
    decreases |actions|
  {
    if |actions| > 0 {
      FifoStep(rule, s, actions[0]);
      FifoRuns(rule, Step(rule, s, actions[0]), actions[1..], t);
    }
  }

  /**
   Under every interleaving and every wake rule: nothing is lost, repeated or reordered, and a
   functor queued while a batch runs is run only by a later batch.
   */
  lemma ExactlyOnceInOrder(rule: Rule, actions: seq<Action>, t: State)
    requires Reaches(rule, INIT, actions, t)
    ensures t.executed + t.batch + t.pending == t.queued
    ensures forall i :: 0 <= i < |t.executed| ==> i < |t.ranIn| && t.executed[i].queuedAt < t.ranIn[i]
  {
    FifoRuns(rule, INIT, actions, t);
  }

  // ------------------------------------------- the state, told from the actions

  predicate IsQuit(a: Action) {
    a.ProducerQuit? || a == LoopQuit
  }

  /** Between LoopCall and LoopReturn. */
  predicate InFunctors(actions: seq<Action>) {
    |actions| > 0 &&
    match actions[|actions| - 1]
    case LoopCall => true
    case LoopReturn => false
    case _ => InFunctors(actions[..|actions| - 1])
  }

  /** How often the eventfd was written since it was last read. */
  function Unread(rule: Rule, actions: seq<Action>): nat {
    if |actions| == 0 then 0
    else
      var front := actions[..|actions| - 1];
      match actions[|actions| - 1]
      case ProducerWrite(_) => Unread(rule, front) + 1
      case LoopWake =>
        if rule == AlwaysWake || (rule == WakeOtherOrCalling && InFunctors(front)) then Unread(rule, front) + 1
        else Unread(rule, front)
      case LoopRead => 0
      case _ => Unread(rule, front)
  }

  function Count(actions: seq<Action>, a: Action): nat {
    if |actions| == 0 then 0 else Count(actions[..|actions| - 1], a) + (if actions[|actions| - 1] == a then 1 else 0)
  }

  /** The functors queued by any thread, in order, each with the number of swaps before it. */
  function Items(actions: seq<Action>): seq<Item> {
    if |actions| == 0 then []
    else
      var front := actions[..|actions| - 1];
      match actions[|actions| - 1]
      case ProducerPush(_, f) => Items(front) + [Item(f, Count(front, LoopSwap))]
      case LoopQueue(f) => Items(front) + [Item(f, Count(front, LoopSwap))]
      case _ => Items(front)
  }

  /** For each functor run, the number of swaps before it. */
  function RunsIn(actions: seq<Action>): seq<nat> {
    if |actions| == 0 then []
    else
      var front := actions[..|actions| - 1];
      RunsIn(front) + if actions[|actions| - 1] == LoopRunNext then [Count(front, LoopSwap)] else []
  }

  /** What the state should be after these actions. */
  ghost predicate ToldBy(rule: Rule, s: State, actions: seq<Action>) {
    && s.counter == Unread(rule, actions)
    && (s.calling <==> InFunctors(actions))
    && QueueToldBy(s, actions)
    && QuitToldBy(s, actions)
  }

  ghost predicate QueueToldBy(s: State, actions: seq<Action>) {
    && s.queued == Items(actions)
    && s.ranIn == RunsIn(actions) && |s.executed| == |s.ranIn|
    && s.swaps == Count(actions, LoopSwap)
  }

  ghost predicate QuitToldBy(s: State, actions: seq<Action>) {
    && (s.quit <==> exists i :: 0 <= i < |actions| && IsQuit(actions[i]))
    && (s.loop == Exited ==> s.quit)
    && (s.loop.Queued? ==> s.loop.back.Dispatching? || s.loop.back.Running?)
  }

  /** The state before the last action. */
  lemma {:induction false} LastStep(rule: Rule, s: State, actions: seq<Action>, t: State) returns (u: State)
    requires Reaches(rule, s, actions, t) && |actions| > 0
    ensures Reaches(rule, s, actions[..|actions| - 1], u)
    ensures Enabled(u, actions[|actions| - 1]) && t == Step(rule, u, actions[|actions| - 1])
    decreases |actions|
  {
    if |actions| == 1 {
      u := s;
    } else {
      u := LastStep(rule, Step(rule, s, actions[0]), actions[1..], t);
      assert actions[..|actions| - 1][1..] == actions[1..][..|actions| - 2];
    }
  }

  lemma QueueToldStep(rule: Rule, u: State, actions: seq<Action>)
    requires |actions| > 0 && QueueToldBy(u, actions[..|actions| - 1]) && Enabled(u, actions[|actions| - 1])
    ensures QueueToldBy(Step(rule, u, actions[|actions| - 1]), actions)
  {
  }

  lemma QuitToldStep(rule: Rule, u: State, actions: seq<Action>)
    requires |actions| > 0 && QuitToldBy(u, actions[..|actions| - 1]) && Enabled(u, actions[|actions| - 1])
    ensures QuitToldBy(Step(rule, u, actions[|actions| - 1]), actions)
  {
    var front, a := actions[..|actions| - 1], actions[|actions| - 1];
    forall i | 0 <= i < |front| ensures IsQuit(front[i]) <==> IsQuit(actions[i]) {
    }
    assert IsQuit(a) <==> IsQuit(actions[|front|]);
  }

  lemma ToldStep(rule: Rule, u: State, actions: seq<Action>)
    requires |actions| > 0 && ToldBy(rule, u, actions[..|actions| - 1]) && Enabled(u, actions[|actions| - 1])
    ensures ToldBy(rule, Step(rule, u, actions[|actions| - 1]), actions)
  {
    QueueToldStep(rule, u, actions);
    QuitToldStep(rule, u, actions);
    hide QueueToldBy, QuitToldBy;
  }

  /**
   After any run: the eventfd holds the writes since it was last read, what was queued, run and
   swapped is what the actions queued, ran and swapped, and the loop is to quit exactly when some
   thread asked for it.
   */
  lemma {:induction false} StateIsTold(rule: Rule, actions: seq<Action>, t: State)
    requires Reaches(rule, INIT, actions, t)
    ensures ToldBy(rule, t, actions)
    decreases |actions|
  {
    if |actions| > 0 {
      var u := LastStep(rule, INIT, actions, t);
      StateIsTold(rule, actions[..|actions| - 1], u);
      ToldStep(rule, u, actions);
    }
  }

  /**
   The loop leaves at its next check exactly when quitting was asked for in the run so far, and it has
   left only if it was.
   */
  lemma QuitExactly(rule: Rule, actions: seq<Action>, t: State)
    requires Reaches(rule, INIT, actions, t)
    ensures var asked := exists i :: 0 <= i < |actions| && (actions[i].ProducerQuit? || actions[i] == LoopQuit);
            && (t.quit <==> asked)
            && (Enabled(t, LoopCheck) ==> Step(rule, t, LoopCheck).loop == if asked then Exited else AtPoll)
            && (t.loop == Exited ==> asked)
  {
    StateIsTold(rule, actions, t);
    assert forall i :: 0 <= i < |actions| ==> (IsQuit(actions[i]) <==> actions[i].ProducerQuit? || actions[i] == LoopQuit);
  }

  lemma {:induction false} QuitStays(rule: Rule, s: State, actions: seq<Action>, t: State)
    requires s.quit && Reaches(rule, s, actions, t)
    ensures t.quit
    decreases |actions|
  {
    if |actions| > 0 {
      QuitStays(rule, Step(rule, s, actions[0]), actions[1..], t);
    }
  }

  /** Once asked for, and whatever happens then, no check leads back to the poll. */
  lemma NoPollAfterQuit(rule: Rule, actions: seq<Action>, s: State, quit: Action, more: seq<Action>, t: State)
    requires Reaches(rule, INIT, actions, s)
    requires (quit.ProducerQuit? || quit == LoopQuit) && Enabled(s, quit)
    requires Reaches(rule, Step(rule, s, quit), more, t) && Enabled(t, LoopCheck)
    ensures Step(rule, t, LoopCheck).loop == Exited
  {
    QuitStays(rule, Step(rule, s, quit), more, t);
  }

  /** Nobody waits for anybody: each producer can take its next step, and so can the loop until it has left. */
  lemma NobodyIsStuck(s: State, p: nat, f: nat)
    ensures if p in s.waking then Enabled(s, ProducerWrite(p)) else Enabled(s, ProducerPush(p, f)) && Enabled(s, ProducerQuit(p))
    ensures match s.loop
            case CheckQuit => Enabled(s, LoopCheck)
            case AtPoll => Enabled(s, LoopPoll(false)) && (s.counter > 0 ==> Enabled(s, LoopPoll(true)))
            case Dispatching(w) =>
              Enabled(s, LoopCall) && Enabled(s, LoopQueue(f)) && Enabled(s, LoopQuit) && (w ==> Enabled(s, LoopRead))
            case Calling => Enabled(s, LoopSwap)
            case Running(b) =>
              (b ==> Enabled(s, LoopQueue(f)) && Enabled(s, LoopQuit))
              && if s.batch != [] then Enabled(s, LoopRunNext) else Enabled(s, LoopReturn)
            case Queued(_) => Enabled(s, LoopWake)
            case Exited => true
  {
  }
}
