/**
 TimerTask and TimerWheel of source/server.hpp (the same algorithm as Test/example/timewheel.cc).
 A slot is a vector of shared_ptr: a task is destroyed when no slot holds it any more, and its
 destructor runs the callback and erases the id. `_timers` holds weak_ptrs.
 */
module TimerWheels {
  import opened TimerSpec

  /** A callback run: the timer's id and the tick. */
  datatype Firing = Firing(id: nat, at: nat)

  function Times(log: seq<Firing>, id: nat): seq<nat> {
    if |log| == 0 then []
    else
      var f := log[|log| - 1];
      Times(log[..|log| - 1], id) + (if f.id == id then [f.at] else [])
  }

  class TimerTask {
    const id: nat
    const timeout: nat
    var canceled: bool

    constructor (id: nat, delay: nat)
      ensures this.id == id && this.timeout == delay && !canceled
    {
      this.id, this.timeout, this.canceled := id, delay, false;
    }
  }

  type Slots = seq<seq<TimerTask>>

  /** When slot s is cleared next, with the hand on slot `tick` at time `now`. */
  ghost function Clears(now: nat, tick: nat, s: int): int {
    if s > tick then now + (s - tick) else now + (s - tick) + CAPACITY
  }

  /** The slot a delay leads to is cleared when the delay is over. */
  lemma SlotClears(now: nat, tick: nat, delay: nat) returns (s: nat)
    requires tick < CAPACITY
    ensures s == (tick + delay) % CAPACITY && s < CAPACITY && Clears(now, tick, s) == now + Effective(delay)
  {
    s := (tick + delay) % CAPACITY;
  }

  /** A known id names a task that its latest slot holds, to be cleared at the deadline. */
  ghost predicate KnownIsHeld(slots: Slots, t: TimerTask, entry: Timer, last: nat, now: nat, tick: nat) {
    && |slots| == CAPACITY
    && t.timeout == entry.delay
    && last < CAPACITY && t in slots[last]
    && entry.deadline == Clears(now, tick, last) <= now + Effective(entry.delay)
  }

  /** A held task is known, and the slot that holds it is not cleared after its deadline. */
  ghost predicate HeldIsKnown(timers: map<nat, TimerTask>, book: map<nat, Timer>, t: TimerTask, clears: int) {
    t.id in timers && timers[t.id] == t && t.id in book && clears <= book[t.id].deadline
  }

  /** Slot s holds a reference to this timer. */
  ghost predicate Holds(slots: Slots, s: int, older t: TimerTask) {
    0 <= s < |slots| && t in slots[s]
  }

  ghost predicate InSome(slots: Slots, t: TimerTask) {
    exists s :: Holds(slots, s, t)
  }

  ghost predicate Knows(timers: map<nat, TimerTask>, id: nat) {
    id in timers
  }

  /** Slots, weak references and deadlines agree; `last` is the slot of each id's latest reference. */
  ghost predicate Linked(slots: Slots, timers: map<nat, TimerTask>, book: map<nat, Timer>, last: map<nat, nat>,
                         now: nat, tick: nat) {
    && |slots| == CAPACITY && tick < CAPACITY
    && timers.Keys == book.Keys == last.Keys
    && (forall id {:trigger Knows(timers, id)} :: Knows(timers, id) ==>
          timers[id].id == id && KnownIsHeld(slots, timers[id], book[id], last[id], now, tick))
    && (forall s, t {:trigger Holds(slots, s, t)} :: Holds(slots, s, t) ==> HeldIsKnown(timers, book, t, Clears(now, tick, s)))
  }

  /** Another reference, to a new task or to a known one, moves the deadline of its id. */
  lemma PushKeepsLinks(slots: Slots, timers: map<nat, TimerTask>, book: map<nat, Timer>, last: map<nat, nat>,
                       now: nat, tick: nat, t: TimerTask, s: nat, canceled: bool)
    requires Linked(slots, timers, book, last, now, tick) && s < CAPACITY
    requires t.id in timers ==> timers[t.id] == t
    requires Clears(now, tick, s) == now + Effective(t.timeout)
    ensures Linked(slots[s := slots[s] + [t]], timers[t.id := t],
                   book[t.id := Timer(t.timeout, now + Effective(t.timeout), canceled)], last[t.id := s], now, tick)
  {
    var slots' := slots[s := slots[s] + [t]];
    var timers', last' := timers[t.id := t], last[t.id := s];
    var book' := book[t.id := Timer(t.timeout, now + Effective(t.timeout), canceled)];
    forall id | Knows(timers', id)
      ensures timers'[id].id == id && KnownIsHeld(slots', timers'[id], book'[id], last'[id], now, tick)
    {
      assert id != t.id ==> Knows(timers, id);
    }
    forall r, u | Holds(slots', r, u) ensures HeldIsKnown(timers', book', u, Clears(now, tick, r)) {
      assert u in slots[r] ==> Holds(slots, r, u);
      assert u.id in timers ==> Knows(timers, u.id);
    }
  }

  function Next(tick: nat): nat {
    (tick + 1) % CAPACITY
  }

  /** With the next slot cleared, a task is still held exactly when it is not due. */
  lemma DueMeansUnheld(slots: Slots, timers: map<nat, TimerTask>, book: map<nat, Timer>, last: map<nat, nat>,
                       now: nat, tick: nat, id: nat)
    requires Linked(slots, timers, book, last, now, tick) && id in timers
    ensures InSome(slots[Next(tick) := []], timers[id]) <==> book[id].deadline != now + 1
    ensures book[id].deadline == now + 1 ==> timers[id] in slots[Next(tick)]
  {
    var t := timers[id];
    assert Knows(timers, id);
    if book[id].deadline != now + 1 {
      assert Holds(slots[Next(tick) := []], last[id], t);
    } else {
      var slots' := slots[Next(tick) := []];
      forall s ensures !Holds(slots', s, t) {
        assert Holds(slots', s, t) ==> Holds(slots, s, t);
      }
    }
  }

  /** m is m0 on the keys that stay. */
  ghost predicate Restricts<T>(m: map<nat, T>, m0: map<nat, T>, stay: set<nat>) {
    && (forall id :: id in m <==> id in m0 && id in stay)
    && (forall id :: id in m ==> m[id] == m0[id])
  }

  /** Clearing the next slot and forgetting what was due keeps the rest linked. */
  lemma TickKeepsLinks(slots: Slots, timers: map<nat, TimerTask>, book: map<nat, Timer>, last: map<nat, nat>,
                       now: nat, tick: nat, stay: set<nat>,
                       timers': map<nat, TimerTask>, book': map<nat, Timer>, last': map<nat, nat>)
    requires Linked(slots, timers, book, last, now, tick)
    requires forall id :: id in stay <==> id in timers && book[id].deadline != now + 1
    requires Restricts(timers', timers, stay) && Restricts(book', book, stay) && Restricts(last', last, stay)
    ensures Linked(slots[Next(tick) := []], timers', book', last', now + 1, Next(tick))
  {
    var slots' := slots[Next(tick) := []];
    forall id | Knows(timers', id)
      ensures timers'[id].id == id && KnownIsHeld(slots', timers'[id], book'[id], last'[id], now + 1, Next(tick))
    {
      assert Knows(timers, id) && id in stay;
      ClearsNext(now, tick, last[id]);
    }
    forall r, u | Holds(slots', r, u) ensures HeldIsKnown(timers', book', u, Clears(now + 1, Next(tick), r)) {
      assert Holds(slots, r, u);
      ClearsNext(now, tick, r);
      assert u.id in stay;
    }
  }

  /** Every other slot is cleared when it would have been, and later than the next one. */
  lemma ClearsNext(now: nat, tick: nat, s: nat)
    requires tick < CAPACITY && s < CAPACITY
    ensures s != Next(tick) ==> Clears(now + 1, Next(tick), s) == Clears(now, tick, s) > now + 1
    ensures s == Next(tick) ==> Clears(now, tick, s) == now + 1
  {
  }

  class TimerWheel {
    var tick: nat
    const wheel: array<seq<TimerTask>>
    var timers: map<nat, TimerTask>
    ghost var now: nat               // ticks since the start
    ghost var book: map<nat, Timer>  // what each known id stands for
    ghost var last: map<nat, nat>    // the slot of each id's latest reference
    ghost var fired: seq<Firing>     // callback runs so far

    ghost function Content(): Slots
      reads wheel
    {
      wheel[..]
    }

    ghost predicate Valid()
      reads this, wheel, timers.Values
    {
      && Linked(Content(), timers, book, last, now, tick)
      && Flags(timers, book)
    }

    /** The entries carry the flags of the tasks. */
    static ghost predicate Flags(timers: map<nat, TimerTask>, book: map<nat, Timer>)
      requires timers.Keys <= book.Keys
      reads timers.Values
    {
      forall id :: id in timers ==> book[id].canceled == timers[id].canceled && timers[id].timeout <= MAX_DELAY
    }

    /** The wheel as a map of deadlines. */
    ghost function Abs(): Wheel
      reads this
    {
      Wheel(now, book)
    }

    constructor ()
      ensures Valid() && fresh(wheel) && wheel.Length == 60 && Abs() == Wheel(0, map[]) && fired == []
    {
      tick, timers, now, book, last, fired := 0, map[], 0, map[], map[], [];
      wheel := new seq<TimerTask>[CAPACITY](_ => []);
    }

    /** Some slot holds a reference to this timer. */
    predicate Held(t: TimerTask)
      reads this, wheel
    {
      exists s :: 0 <= s < wheel.Length && t in wheel[s]
    }

    /** weak_ptr::lock: null when the timer object has been destroyed. */
    method Lock(t: TimerTask) returns (p: TimerTask?)
      ensures p == if Held(t) then t else null
    {
      p := if exists s :: 0 <= s < wheel.Length && t in wheel[s] then t else null;
    }

    /** Every known timer is live. */
    lemma KnownIsLive(id: nat)
      requires Valid() && id in timers
      ensures Held(timers[id])
    {
      assert Knows(timers, id);
      assert Content()[last[id]] == wheel[last[id]];
    }

    /** wheel[pos].push_back(pt), and what it means for the deadline. */
    method Push(pos: nat, pt: TimerTask, ghost entry: Timer)
      requires Valid() && pos < CAPACITY && pt.timeout <= MAX_DELAY
      requires entry == Timer(pt.timeout, now + Effective(pt.timeout), pt.canceled)
      requires pt.id in timers ==> timers[pt.id] == pt
      requires Clears(now, tick, pos) == now + Effective(pt.timeout)
      modifies this`book, this`last, wheel
      ensures book == old(book)[pt.id := entry]
      ensures Linked(Content(), timers[pt.id := pt], book, last, now, tick) && Flags(timers[pt.id := pt], book)
    {
      PushKeepsLinks(Content(), timers, book, last, now, tick, pt, pos, pt.canceled);
      ghost var slots := Content();
      wheel[pos] := wheel[pos] + [pt];
      assert Content() == slots[pos := slots[pos] + [pt]];
      book := book[pt.id := entry];
      last := last[pt.id := pos];
    }

    method TimerAddInLoop(id: nat, delay: nat)
      requires Valid() && id !in timers && delay <= MAX_DELAY
      modifies this`timers, this`book, this`last, wheel
      ensures id in timers && fresh(timers[id]) && timers == old(timers)[id := timers[id]]
      ensures Valid() && Abs() == Step(old(Abs()), Add(id, delay))
    {
      assert tick < CAPACITY && id !in book;
      hide Linked, Flags, Remaining;
      var pt := new TimerTask(id, delay);
      ghost var slot := SlotClears(now, tick, delay);
      var pos := (tick + delay) % CAPACITY;
      Push(pos, pt, Timer(delay, now + Effective(delay), false));
      timers := timers[id := pt];
    }

    method TimerRefreshInLoop(id: nat)
      requires Valid()
      modifies this`book, this`last, wheel
      ensures Valid() && Abs() == Step(old(Abs()), Refresh(id))
    {
      if id !in timers {
        return;
      }
      hide Linked, Flags, Remaining;
      KnownIsLive(id);
      EntryIsOf(id);
      var pt := Lock(timers[id]);
      assert pt != null; // the entry is live, so the source's unchecked dereference is safe
      ghost var moved := Moved(book[id], now);
      var delay := pt.timeout;
      ghost var slot := SlotClears(now, tick, delay);
      var pos := (tick + delay) % CAPACITY;
      Push(pos, pt, moved);
      SameEntry(timers, id);
    }

    /** The entry of a known id is that of its task. */
    lemma EntryIsOf(id: nat)
      requires Valid() && id in timers
      ensures timers[id].id == id && timers[id].timeout <= MAX_DELAY && id in book && tick < CAPACITY
      ensures Moved(book[id], now) == Timer(timers[id].timeout, now + Effective(timers[id].timeout), timers[id].canceled)
    {
      assert Knows(timers, id);
    }

    /** The entry with its deadline set anew. */
    static ghost function Moved(entry: Timer, now: nat): Timer {
      entry.(deadline := now + Effective(entry.delay))
    }

    static lemma SameEntry<T>(m: map<nat, T>, k: nat)
      requires k in m
      ensures m[k := m[k]] == m
    {
    }

    method TimerCancelInLoop(id: nat)
      requires Valid()
      modifies this`book, if id in timers then {timers[id]} else {}
      ensures Valid() && Abs() == Step(old(Abs()), Cancel(id))
    {
      if id !in timers {
        return;
      }
      hide Linked, Remaining;
      KnownIsLive(id);
      OneTaskPerId(id);
      var pt := Lock(timers[id]);
      if pt != null {
        pt.canceled := true;
      }
      CancelKeepsLinks(Content(), timers, book, last, now, tick, id);
      book := book[id := book[id].(canceled := true)];
    }

    lemma OneTaskPerId(id: nat)
      requires Valid() && id in timers
      ensures timers.Keys == book.Keys
      ensures forall k :: k in timers && k != id ==> timers[k] != timers[id]
    {
      forall k | k in timers && k != id ensures timers[k] != timers[id] {
        assert Knows(timers, k) && Knows(timers, id);
      }
    }

    static lemma CancelKeepsLinks(slots: Slots, timers: map<nat, TimerTask>, book: map<nat, Timer>, last: map<nat, nat>,
                                  now: nat, tick: nat, id: nat)
      requires Linked(slots, timers, book, last, now, tick) && id in timers
      ensures id in book && Linked(slots, timers, book[id := book[id].(canceled := true)], last, now, tick)
    {
      var book' := book[id := book[id].(canceled := true)];
      forall k | Knows(timers, k) ensures timers[k].id == k && KnownIsHeld(slots, timers[k], book'[k], last[k], now, tick) {
      }
      forall s, t | Holds(slots, s, t) ensures HeldIsKnown(timers, book', t, Clears(now, tick, s)) {
      }
    }

    /** ~TimerTask: runs the callback unless cancelled, then erases the id. */
    method Destroy(t: TimerTask)
      modifies this`timers, this`fired
      ensures timers == old(timers) - {t.id}
      ensures fired == if t.canceled then old(fired) else old(fired) + [Firing(t.id, now)]
    {
      if !t.canceled {
        fired := fired + [Firing(t.id, now)];
      }
      if t.id in timers {
        timers := timers - {t.id};
      }
    }

    /** The ids that are not due at the next tick. */
    static ghost function StayingIn(w: Wheel): set<nat> {
      set id | id in w.timers && !Due(w, id)
    }

    /** These are the timers whose callbacks run at the next tick. */
    static ghost predicate AreFiring(fires: set<nat>, w: Wheel) {
      forall id :: id in fires <==> Fires(w, Tick, id)
    }

    /** These are the known timers that do not stay and are not cancelled. */
    ghost predicate AreGoing(fires: set<nat>, stay: set<nat>)
      reads this, timers.Values
    {
      forall id :: id in fires <==> id in timers && id !in stay && !timers[id].canceled
    }

    lemma WhatFires() returns (fires: set<nat>)
      requires Valid()
      ensures AreFiring(fires, Abs()) && AreGoing(fires, StayingIn(Abs()))
    {
      fires := set id | id in timers && Fires(Abs(), Tick, id);
    }

    /** From `before` to `after`, the callbacks of these timers have run, at tick `at`. */
    static ghost predicate Ran(after: seq<Firing>, before: seq<Firing>, fires: set<nat>, at: nat) {
      forall id :: Times(after, id) == Times(before, id) + (if id in fires then [at] else [])
    }

    static lemma RanIsRanWhatFires(after: seq<Firing>, before: seq<Firing>, fires: set<nat>, w: Wheel, at: nat)
      requires Ran(after, before, fires, at) && AreFiring(fires, w)
      ensures RanWhatFires(after, before, w, Tick, at)
    {
      forall id ensures Times(after, id) == Times(before, id) + (if Fires(w, Tick, id) then [at] else []) {
        assert id in fires <==> Fires(w, Tick, id);
      }
    }

    /** From `before` to `after`, the callbacks of what fires at this operation have run, at tick `at`. */
    static ghost predicate RanWhatFires(after: seq<Firing>, before: seq<Firing>, w: Wheel, op: Op, at: nat) {
      forall id :: Times(after, id) == Times(before, id) + (if Fires(w, op, id) then [at] else [])
    }

    /** The hand moves one slot on and the slot's references are dropped, first to last. */
    method RunTimerTask()
      requires Valid()
      modifies this, wheel
      ensures Valid() && Abs() == Step(old(Abs()), Tick)
      ensures timers.Values <= old(timers.Values)
      ensures RanWhatFires(fired, old(fired), old(Abs()), Tick, now)
    {
      ghost var slots, timers0, last0, w, tick0 := Content(), timers, last, Abs(), tick;
      ghost var stay := StayingIn(w);
      ghost var fires := WhatFires();
      assert Linked(slots, timers0, w.timers, last0, w.now, tick0) && Flags(timers0, w.timers);
      hide Linked, StayingIn, AreGoing, AreFiring, Ran, RanWhatFires, Flags;
      Sweep(stay, fires);
      RanIsRanWhatFires(fired, old(fired), fires, w, now);
      RestrictsValues(timers, timers0, stay);
      Forget(slots, timers0, last0, w, tick0, stay);
    }

    /** Moves the hand, empties its slot and drops the references that were in it. */
    method Sweep(ghost stay: set<nat>, ghost fires: set<nat>)
      requires Valid() && stay == StayingIn(Abs()) && AreGoing(fires, stay)
      modifies this`tick, this`now, this`timers, this`fired, wheel
      ensures tick == Next(old(tick)) && now == old(now) + 1
      ensures Content() == old(Content())[tick := []]
      ensures Restricts(timers, old(timers), stay)
      ensures Ran(fired, old(fired), fires, now)
    {
      var slot := TakeSlot();
      DropAll(slot, stay, fires);
    }

    static lemma RestrictsValues(m: map<nat, TimerTask>, m0: map<nat, TimerTask>, stay: set<nat>)
      requires Restricts(m, m0, stay)
      ensures m.Values <= m0.Values
    {
    }

    /** The bookkeeping of a tick: what was due is forgotten. */
    ghost method Forget(slots: Slots, timers0: map<nat, TimerTask>, last0: map<nat, nat>, w: Wheel, tick0: nat, stay: set<nat>)
      requires Linked(slots, timers0, w.timers, last0, w.now, tick0)
      requires now == w.now + 1 && tick == Next(tick0) && book == w.timers && last == last0
      requires stay == StayingIn(w) && Restricts(timers, timers0, stay) && Flags(timers0, w.timers)
      requires Content() == slots[tick := []]
      modifies this`book, this`last
      ensures Valid()
      ensures Abs() == Step(w, Tick)
    {
      assert timers0.Keys == w.timers.Keys == last0.Keys;
      hide Linked;
      book, last := Remaining(w), map id | id in last0 && id in stay :: last0[id];
      TickKeepsLinks(slots, timers0, w.timers, last0, w.now, tick0, stay, timers, book, last);
    }

    /** Moves the hand and empties the slot it reaches. */
    method TakeSlot() returns (slot: seq<TimerTask>)
      requires Valid()
      modifies this`tick, this`now, wheel
      ensures tick == Next(old(tick)) && now == old(now) + 1
      ensures slot == old(Content())[tick] && Content() == old(Content())[tick := []]
      ensures Droppable(slot, old(StayingIn(Abs())))
    {
      ghost var slots, stay := Content(), StayingIn(Abs());
      tick := (tick + 1) % CAPACITY;
      now := now + 1;
      slot := wheel[tick];
      wheel[tick] := [];
      assert Content() == slots[tick := []];
      forall t | t in slot ensures t.id in timers && timers[t.id] == t && (Held(t) <==> t.id in stay) {
        assert Holds(slots, tick, t);
        DueMeansUnheld(slots, timers, book, last, old(now), old(tick), t.id);
        HeldInWheel(t);
      }
      forall id | id in timers ensures timers[id].id == id && (id !in stay ==> timers[id] in slot) {
        assert Knows(timers, id);
        DueMeansUnheld(slots, timers, book, last, old(now), old(tick), id);
      }
    }

    /** The references belong to known timers, those that stay are held elsewhere, and the others are all here. */
    ghost predicate Droppable(slot: seq<TimerTask>, stay: set<nat>)
      reads this, wheel
    {
      && (forall t :: t in slot ==> t.id in timers && timers[t.id] == t && (Held(t) <==> t.id in stay))
      && (forall id :: id in timers ==> timers[id].id == id && (id !in stay ==> timers[id] in slot))
    }

    lemma HeldInWheel(t: TimerTask)
      requires wheel.Length == CAPACITY
      ensures Held(t) <==> InSome(Content(), t)
    {
      if Held(t) {
        var s :| 0 <= s < wheel.Length && t in wheel[s];
        assert Holds(Content(), s, t);
      }
    }

    /** Drops a slot's references in order; a task whose last reference goes is destroyed. */
    method DropAll(slot: seq<TimerTask>, ghost stay: set<nat>, ghost fires: set<nat>)
      requires Droppable(slot, stay) && AreGoing(fires, stay)
      modifies this`timers, this`fired
      ensures Content() == old(Content())
      ensures Restricts(timers, old(timers), stay)
      ensures Ran(fired, old(fired), fires, now)
    {
      ghost var ran: set<nat> := {};
      for i := 0 to |slot|
        invariant Pending(timers, old(timers), stay, slot[i..])
        invariant forall id :: id in ran <==> id in fires && id !in timers
        invariant Ran(fired, old(fired), ran, now)
      {
        var t := slot[i];
        assert slot[i..] == [t] + slot[i + 1..];
        PendingStep(timers, old(timers), stay, t, slot[i + 1..]);
        if t !in slot[i + 1..] && !Held(t) {
          RanOnce(fired, old(fired), ran, t.id, now);
          ran := if t.canceled then ran else ran + {t.id};
          Destroy(t);
        }
      }
    }

    /** m is m0 on the keys that stay and those whose references are still to be dropped. */
    static ghost predicate Pending(m: map<nat, TimerTask>, m0: map<nat, TimerTask>, stay: set<nat>, left: seq<TimerTask>) {
      && (forall id :: id in m <==> id in m0 && (id in stay || m0[id] in left))
      && (forall id :: id in m ==> m[id] == m0[id])
    }

    /** A reference less: the last one takes the id along. */
    static lemma PendingStep(m: map<nat, TimerTask>, m0: map<nat, TimerTask>, stay: set<nat>, t: TimerTask, left: seq<TimerTask>)
      requires Pending(m, m0, stay, [t] + left)
      requires t.id in m0 && m0[t.id] == t && forall id :: id in m0 ==> m0[id].id == id
      ensures t.id in m && Pending(if t in left || t.id in stay then m else m - {t.id}, m0, stay, left)
    {
    }

    static lemma RanOnce(after: seq<Firing>, before: seq<Firing>, ran: set<nat>, id: nat, at: nat)
      requires Ran(after, before, ran, at) && id !in ran
      ensures Ran(after + [Firing(id, at)], before, ran + {id}, at)
    {
      var log := after + [Firing(id, at)];
      assert log[..|log| - 1] == after;
      forall k ensures Times(log, k) == Times(before, k) + (if k in ran + {id} then [at] else []) {
        assert Times(after, k) == Times(before, k) + (if k in ran then [at] else []);
      }
    }

    method Perform(op: Op)
      requires Valid() && FreshAdds(Abs(), [op])
      modifies this, wheel, timers.Values
      ensures Valid() && Abs() == Step(old(Abs()), op)
      ensures forall t :: t in timers.Values ==> t in old(timers.Values) || fresh(t)
      ensures RanWhatFires(fired, old(fired), old(Abs()), op, now)
    {
      match op {
        case Add(id, delay) => TimerAddInLoop(id, delay);
        case Refresh(id) => TimerRefreshInLoop(id);
        case Cancel(id) => TimerCancelInLoop(id);
        case Tick => RunTimerTask();
      }
    }

    /**
     From w, where the callbacks in `fired` have run, the operations that are left lead to where
     all of them lead from the start, and their callback runs complete those prescribed there.
     */
    static ghost predicate Ahead(w: Wheel, fired: seq<Firing>, left: seq<Op>, w0: Wheel, fired0: seq<Firing>, ops: seq<Op>) {
      && Run(w, left) == Run(w0, ops)
      && forall id :: Times(fired, id) + FireTimes(w, left, id) == Times(fired0, id) + FireTimes(w0, ops, id)
    }

    /** One operation is over. */
    static lemma AheadStep(w: Wheel, fired: seq<Firing>, left: seq<Op>, w0: Wheel, fired0: seq<Firing>, ops: seq<Op>,
                           op: Op, rest: seq<Op>, w': Wheel, fired': seq<Firing>)
      requires Ahead(w, fired, left, w0, fired0, ops) && left == [op] + rest
      requires w' == Step(w, op) && RanWhatFires(fired', fired, w, op, w'.now)
      ensures Ahead(w', fired', rest, w0, fired0, ops)
    {
      assert left[1..] == rest;
      forall id ensures Times(fired', id) + FireTimes(w', rest, id) == Times(fired0, id) + FireTimes(w0, ops, id) {
        assert Fires(w, op, id) ==> w'.now == w.now + 1;
        FireShift(w, left, op, rest, id, Times(fired, id), Times(fired', id));
      }
    }

    static lemma FireShift(w: Wheel, left: seq<Op>, op: Op, rest: seq<Op>, id: nat, past: seq<nat>, past': seq<nat>)
      requires left != [] && left[0] == op && left[1..] == rest
      requires past' == past + (if Fires(w, op, id) then [w.now + 1] else [])
      ensures past' + FireTimes(Step(w, op), rest, id) == past + FireTimes(w, left, id)
    {
      hide Step, Fires;
      var now := if Fires(w, op, id) then [w.now + 1] else [];
      Assoc(past, now, FireTimes(Step(w, op), rest, id));
    }

    static lemma Assoc(a: seq<nat>, b: seq<nat>, c: seq<nat>)
      ensures (a + b) + c == a + (b + c)
    {
    }

    static lemma AheadAtEnd(w: Wheel, fired: seq<Firing>, w0: Wheel, fired0: seq<Firing>, ops: seq<Op>)
      requires Ahead(w, fired, [], w0, fired0, ops)
      ensures w == Run(w0, ops)
      ensures forall id :: Times(fired, id) == Times(fired0, id) + FireTimes(w0, ops, id)
    {
      forall id ensures Times(fired, id) == Times(fired0, id) + FireTimes(w0, ops, id) {
        assert Times(fired, id) + [] == Times(fired, id);
      }
    }

    /** The first operation is allowed, and so are the others after it. */
    static lemma FreshStep(w: Wheel, left: seq<Op>, op: Op, rest: seq<Op>)
      requires FreshAdds(w, left) && left == [op] + rest
      ensures FreshAdds(w, [op]) && FreshAdds(Step(w, op), rest)
    {
      assert left[1..] == rest && [op][1..] == [];
    }

    /**
     Any interleaving of operations: the wheel ends as the map of deadlines does, and every
     callback has run at exactly the ticks the map prescribes.
     */
    method Execute(ops: seq<Op>)
      requires Valid() && FreshAdds(Abs(), ops)
      modifies this, wheel, timers.Values
      ensures Valid() && Abs() == Run(old(Abs()), ops)
      ensures forall id :: Times(fired, id) == Times(old(fired), id) + FireTimes(old(Abs()), ops, id)
    {
      ghost var w0, fired0 := Abs(), fired;
      assert ops[0..] == ops;
      assert Ahead(w0, fired0, ops, w0, fired0, ops);
      hide Linked, Ahead, Step, FreshAdds, RanWhatFires;
      for i := 0 to |ops|
        invariant Valid() && FreshAdds(Abs(), ops[i..])
        invariant forall t :: t in timers.Values ==> t in old(timers.Values) || fresh(t)
        invariant Ahead(Abs(), fired, ops[i..], w0, fired0, ops)
      {
        ghost var w, fired1 := Abs(), fired;
        assert ops[i..] == [ops[i]] + ops[i + 1..];
        FreshStep(w, ops[i..], ops[i], ops[i + 1..]);
        Perform(ops[i]);
        AheadStep(w, fired1, ops[i..], w0, fired0, ops, ops[i], ops[i + 1..], Abs(), fired);
      }
      AheadAtEnd(Abs(), fired, w0, fired0, ops);
    }

    /** The timer descriptor reports how often it expired; each expiry moves the hand once. */
    method OnTime(times: nat)
      requires Valid()
      modifies this, wheel
      ensures Valid() && Abs() == Run(old(Abs()), Ticks(times))
      ensures forall id :: Times(fired, id) == Times(old(fired), id) + FireTimes(old(Abs()), Ticks(times), id)
    {
      ghost var w0, fired0 := Abs(), fired;
      assert Ahead(w0, fired0, Ticks(times), w0, fired0, Ticks(times));
      hide Linked, Ahead, Step, RanWhatFires;
      for i := 0 to times
        invariant Valid()
        invariant timers.Values <= old(timers.Values)
        invariant Ahead(Abs(), fired, Ticks(times - i), w0, fired0, Ticks(times))
      {
        ghost var w, fired1 := Abs(), fired;
        RunTimerTask();
        AheadStep(w, fired1, Ticks(times - i), w0, fired0, Ticks(times), Tick, Ticks(times - i - 1), Abs(), fired);
      }
      AheadAtEnd(Abs(), fired, w0, fired0, Ticks(times));
    }
  }
}
