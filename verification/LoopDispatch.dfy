/**
 Poller and EventLoop::Start of source/server.hpp: one loop thread polls, dispatches the active
 channels and then runs the queued tasks. A connection is released by a queued task (Release uses
 QueueInLoop where every other call uses RunInLoop), so that a channel that became active is still
 registered when its turn comes. The states the loop goes through are values of type Loop, for
 either choice; the classes are proved to follow the one the source makes.
 */
module LoopDispatch {

  datatype Interest = EPOLLIN | EPOLLOUT

  /** A connection's channel; descriptors are reused, connection numbers are not. */
  datatype Channel = Channel(conn: nat, fd: nat)

  datatype Op = EPOLL_CTL_ADD | EPOLL_CTL_MOD | EPOLL_CTL_DEL

  // ------------------------------------------------------------------ registry

  /** The poller's map, the kernel's epoll set, and the descriptors that are open. */
  datatype Registry = Registry(channels: map<nat, Channel>, kernel: map<nat, set<Interest>>, open: set<nat>)

  predicate Registered(r: Registry, c: Channel) {
    c.fd in r.channels && r.channels[c.fd] == c
  }

  /** ADD fails on a watched or closed descriptor, MOD and DEL on an unwatched one. */
  predicate Legal(r: Registry, fd: nat, op: Op) {
    if op.EPOLL_CTL_ADD? then fd in r.open && fd !in r.kernel else fd in r.kernel
  }

  /** An interest change: insert and ADD, or MOD; a failing call changes nothing in the kernel. */
  function Updated(r: Registry, c: Channel, events: set<Interest>): Registry {
    var op := if c.fd in r.channels then EPOLL_CTL_MOD else EPOLL_CTL_ADD;
    r.(channels := if c.fd in r.channels then r.channels else r.channels[c.fd := c],
       kernel := if Legal(r, c.fd, op) then r.kernel[c.fd := events] else r.kernel)
  }

  function Removed(r: Registry, c: Channel): Registry {
    r.(channels := r.channels - {c.fd}, kernel := r.kernel - {c.fd})
  }

  class Poller {
    var channels: map<nat, Channel>
    ghost var kernel: map<nat, set<Interest>>  // the epoll set of the kernel
    ghost var open: set<nat>                   // the descriptors that are open

    ghost function View(): Registry
      reads this
    {
      Registry(channels, kernel, open)
    }

    constructor ()
      ensures View() == Registry(map[], map[], {})
    {
      channels, kernel, open := map[], map[], {};
    }

    /** epoll_ctl. */
    method Update(channel: Channel, events: set<Interest>, op: Op) returns (ghost ok: bool)
      modifies this`kernel
      ensures ok <==> Legal(old(View()), channel.fd, op)
      ensures !ok ==> kernel == old(kernel)
      ensures ok && !op.EPOLL_CTL_DEL? ==> kernel == old(kernel)[channel.fd := events]
      ensures ok && op.EPOLL_CTL_DEL? ==> kernel == old(kernel) - {channel.fd}
    {
      ok := Legal(View(), channel.fd, op);
      if op.EPOLL_CTL_DEL? {
        kernel := if ok then kernel - {channel.fd} else kernel;
      } else {
        kernel := if ok then kernel[channel.fd := events] else kernel;
      }
    }

    /** A mapped descriptor keeps its channel; the system call may fail, unnoticed. */
    method UpdateEvent(channel: Channel, events: set<Interest>)
      modifies this
      ensures View() == Updated(old(View()), channel, events)
      ensures channel.fd in channels && forall fd :: fd in old(channels) ==> fd in channels && channels[fd] == old(channels)[fd]
      ensures Legal(old(View()), channel.fd, if channel.fd in old(channels) then EPOLL_CTL_MOD else EPOLL_CTL_ADD) ==>
                channel.fd in kernel && kernel[channel.fd] == events
    {
      if channel.fd !in channels {
        channels := channels[channel.fd := channel];
        var _ := Update(channel, events, EPOLL_CTL_ADD);
      } else {
        var _ := Update(channel, events, EPOLL_CTL_MOD);
      }
    }

    /** Forgets the descriptor in both places; removing it again changes nothing. */
    method RemoveEvent(channel: Channel)
      modifies this
      ensures View() == Removed(old(View()), channel)
    {
      if channel.fd in channels {
        channels := channels - {channel.fd};
      }
      var _ := Update(channel, {}, EPOLL_CTL_DEL);
    }

    /** epoll_wait reports watched descriptors only, so the lookup never fails. */
    method Poll(round: seq<Event>) returns (active: seq<Job>)
      requires kernel.Keys <= channels.Keys
      requires forall i :: 0 <= i < |round| ==> round[i].fd in kernel
      ensures active == Lookup(channels, round)
      ensures |active| == |round|
      ensures forall i :: 0 <= i < |round| ==>
                round[i].fd in channels && active[i] == Job(channels[round[i].fd], round[i].effects)
    {
      active := [];
      assert round[..|round|] == round;
      for i := 0 to |round|
        invariant |active| == i && active == Lookup(channels, round[..i])
        invariant forall j :: 0 <= j < i ==>
                    round[j].fd in channels && active[j] == Job(channels[round[j].fd], round[j].effects)
      {
        assert round[..i + 1][..i] == round[..i];
        assert round[i].fd in channels; // the source's assert(it != _channels.end())
        active := active + [Job(channels[round[i].fd], round[i].effects)];
      }
    }
  }

  // -------------------------------------------------------------- one loop step

  /**
   What happens while user code runs on the loop thread: a descriptor is opened, a channel changes
   its interest (which also registers a new connection), a release is asked for, or a functor is
   queued, by this thread or another.
   */
  datatype Effect =
    | Accept(fd: nat)
    | SetEvents(channel: Channel, events: set<Interest>)
    | AskRelease(channel: Channel)
    | QueueCall(effects: seq<Effect>)

  datatype Task = ReleaseInLoop(channel: Channel) | Call(effects: seq<Effect>)

  /** A reported descriptor, and what the handlers of its channel will do. */
  datatype Event = Event(fd: nat, effects: seq<Effect>)

  datatype Job = Job(channel: Channel, effects: seq<Effect>)

  /** How Release gets to ReleaseInLoop: by QueueInLoop, as in the source, or by RunInLoop. */
  datatype Rule = Deferred | AtOnce

  datatype Loop = Loop(
    reg: Registry,
    tasks: seq<Task>,
    handled: seq<Channel>,      // history: every dispatched channel
    unregistered: seq<Channel>, // history: those that were not registered at that moment
    late: seq<Channel>,         // history: those that had been released by then
    asked: seq<Channel>,        // history: every release asked for
    released: seq<Channel>,     // history: every release carried out
    strays: seq<Channel>,       // history: the stray interest changes
    mirrored: bool)             // history: the map has mirrored the kernel's set all the time

  /** The map has exactly the watched descriptors, and under none of them a released channel. */
  predicate Mirror(s: Loop) {
    && s.reg.channels.Keys == s.reg.kernel.Keys
    && forall fd :: fd in s.reg.channels ==> s.reg.channels[fd] !in s.released
  }

  function Observe(s: Loop): Loop {
    s.(mirrored := s.mirrored && Mirror(s))
  }

  /** The descriptor is not registered, and either closed or no longer this channel's. */
  predicate Stray(s: Loop, c: Channel) {
    c.fd !in s.reg.channels && (c in s.released || c.fd !in s.reg.open)
  }

  /** ReleaseInLoop: the channel is removed, and its descriptor closed the first time. */
  function AfterRelease(s: Loop, c: Channel): Loop {
    var reg := Removed(s.reg, c);
    Observe(s.(reg := if c in s.released then reg else reg.(open := reg.open - {c.fd}),
               released := s.released + [c]))
  }

  function AfterEffect(rule: Rule, s: Loop, e: Effect): Loop {
    match e
    case Accept(fd) => s.(reg := s.reg.(open := s.reg.open + {fd}))
    case SetEvents(c, events) =>
      Observe(s.(reg := Updated(s.reg, c, events), strays := if Stray(s, c) then s.strays + [c] else s.strays))
    case AskRelease(c) =>
      var s' := s.(asked := s.asked + [c]);
      if rule.Deferred? then s'.(tasks := s.tasks + [ReleaseInLoop(c)]) else AfterRelease(s', c)
    case QueueCall(es) => s.(tasks := s.tasks + [Call(es)])
  }

  function AfterEffects(rule: Rule, s: Loop, effects: seq<Effect>): Loop {
    if |effects| == 0 then s
    else AfterEffect(rule, AfterEffects(rule, s, effects[..|effects| - 1]), effects[|effects| - 1])
  }

  function AfterTask(rule: Rule, s: Loop, task: Task): Loop {
    match task
    case ReleaseInLoop(c) => AfterRelease(s, c)
    case Call(effects) => AfterEffects(rule, s, effects)
  }

  function AfterTasks(rule: Rule, s: Loop, batch: seq<Task>): Loop {
    if |batch| == 0 then s
    else AfterTask(rule, AfterTasks(rule, s, batch[..|batch| - 1]), batch[|batch| - 1])
  }

  /** A channel's turn has come. */
  function Dispatched(s: Loop, c: Channel): Loop {
    s.(handled := s.handled + [c],
       unregistered := if Registered(s.reg, c) then s.unregistered else s.unregistered + [c],
       late := if c in s.released then s.late + [c] else s.late)
  }

  function AfterJob(rule: Rule, s: Loop, job: Job): Loop {
    AfterEffects(rule, Dispatched(s, job.channel), job.effects)
  }

  function AfterJobs(rule: Rule, s: Loop, jobs: seq<Job>): Loop {
    if |jobs| == 0 then s
    else AfterJob(rule, AfterJobs(rule, s, jobs[..|jobs| - 1]), jobs[|jobs| - 1])
  }

  /** The channels of the reported descriptors, looked up all at once before any is handled. */
  function Lookup(channels: map<nat, Channel>, round: seq<Event>): seq<Job> {
    if |round| == 0 then []
    else
      var e := round[|round| - 1];
      Lookup(channels, round[..|round| - 1]) + if e.fd in channels then [Job(channels[e.fd], e.effects)] else []
  }

  /** One turn: poll, handle what is active, run what is queued by then. */
  function AfterTurn(rule: Rule, s: Loop, round: seq<Event>): Loop {
    var s' := AfterJobs(rule, s, Lookup(s.reg.channels, round));
    AfterTasks(rule, s'.(tasks := []), s'.tasks)
  }

  function AfterRounds(rule: Rule, s: Loop, rounds: seq<seq<Event>>): Loop {
    if |rounds| == 0 then s
    else AfterTurn(rule, AfterRounds(rule, s, rounds[..|rounds| - 1]), rounds[|rounds| - 1])
  }

  /** What epoll_wait can report: watched descriptors, each once. */
  predicate Reportable(s: Loop, round: seq<Event>) {
    && (forall i :: 0 <= i < |round| ==> round[i].fd in s.reg.kernel)
    && (forall i, j :: 0 <= i < j < |round| ==> round[i].fd != round[j].fd)
  }

  predicate Possible(rule: Rule, s: Loop, rounds: seq<seq<Event>>) {
    if |rounds| == 0 then true
    else
      var before := rounds[..|rounds| - 1];
      Possible(rule, s, before) && Reportable(AfterRounds(rule, s, before), rounds[|rounds| - 1])
  }

  lemma {:induction false} PossibleSoFar(rule: Rule, s: Loop, rounds: seq<seq<Event>>, i: nat)
    requires i <= |rounds| && Possible(rule, s, rounds)
    ensures Possible(rule, s, rounds[..i])
    decreases |rounds|
  {
    if i == |rounds| {
      assert rounds[..i] == rounds;
    } else {
      PossibleSoFar(rule, s, rounds[..|rounds| - 1], i);
      assert rounds[..|rounds| - 1][..i] == rounds[..i];
    }
  }

  /** A new loop watches its eventfd and the timerfd of its wheel. */
  function Init(eventFd: nat, timerFd: nat): Loop {
    var fds := map[timerFd := Channel(0, timerFd), eventFd := Channel(0, eventFd)];
    Loop(Registry(fds, map[timerFd := {EPOLLIN}, eventFd := {EPOLLIN}], {timerFd, eventFd}),
         [], [], [], [], [], [], [], true)
  }

  // -------------------------------------------- the map and the kernel, any rule

  /**
   Every descriptor is mapped to a channel of its own number, what the kernel watches is mapped and
   open; and the map has been the exact mirror all the time just when there was no stray change.
   */
  predicate Sound(s: Loop) {
    && (forall fd :: fd in s.reg.channels ==> s.reg.channels[fd].fd == fd)
    && s.reg.kernel.Keys <= s.reg.channels.Keys
    && s.reg.kernel.Keys <= s.reg.open
    && (s.mirrored <==> s.strays == [])
    && (s.mirrored ==> Mirror(s))
  }

  lemma ReleaseSound(s: Loop, c: Channel)
    requires Sound(s)
    ensures Sound(AfterRelease(s, c))
  {
    var t := AfterRelease(s, c);
    assert t.reg.kernel.Keys == s.reg.kernel.Keys - {c.fd} && t.reg.channels.Keys == s.reg.channels.Keys - {c.fd};
    if s.mirrored {
      forall fd | fd in t.reg.channels ensures t.reg.channels[fd] !in t.released {
        assert fd != c.fd && t.reg.channels[fd] == s.reg.channels[fd];
      }
    }
  }

  /** An interest change keeps the mirror exactly when it is not stray. */
  lemma UpdateMirrors(s: Loop, c: Channel, events: set<Interest>)
    requires Sound(s) && Mirror(s)
    ensures Mirror(s.(reg := Updated(s.reg, c, events))) <==> !Stray(s, c)
  {
    var r, t := s.reg, s.(reg := Updated(s.reg, c, events));
    if c.fd in r.channels {
      assert t.reg.kernel.Keys == r.kernel.Keys;
    } else if c.fd in r.open {
      assert t.reg.kernel.Keys == r.kernel.Keys + {c.fd} == t.reg.channels.Keys;
      assert t.reg.channels[c.fd] == c;
    } else {
      assert c.fd in t.reg.channels && c.fd !in t.reg.kernel;
    }
  }

  lemma EffectSound(rule: Rule, s: Loop, e: Effect)
    requires Sound(s)
    ensures Sound(AfterEffect(rule, s, e))
  {
    match e
    case SetEvents(c, events) =>
      if s.mirrored {
        UpdateMirrors(s, c, events);
      }
      assert Updated(s.reg, c, events).kernel.Keys <= s.reg.kernel.Keys + {c.fd};
    case AskRelease(c) => ReleaseSound(s.(asked := s.asked + [c]), c);
    case _ =>
  }

  lemma {:induction false} EffectsSound(rule: Rule, s: Loop, effects: seq<Effect>)
    requires Sound(s)
    ensures Sound(AfterEffects(rule, s, effects))
  {
    if |effects| > 0 {
      EffectsSound(rule, s, effects[..|effects| - 1]);
      EffectSound(rule, AfterEffects(rule, s, effects[..|effects| - 1]), effects[|effects| - 1]);
    }
  }

  lemma {:induction false} TasksSound(rule: Rule, s: Loop, batch: seq<Task>)
    requires Sound(s)
    ensures Sound(AfterTasks(rule, s, batch))
  {
    if |batch| > 0 {
      TasksSound(rule, s, batch[..|batch| - 1]);
      var t := AfterTasks(rule, s, batch[..|batch| - 1]);
      match batch[|batch| - 1]
      case ReleaseInLoop(c) => ReleaseSound(t, c);
      case Call(effects) => EffectsSound(rule, t, effects);
    }
  }

  lemma {:induction false} JobsSound(rule: Rule, s: Loop, jobs: seq<Job>)
    requires Sound(s)
    ensures Sound(AfterJobs(rule, s, jobs))
  {
    if |jobs| > 0 {
      JobsSound(rule, s, jobs[..|jobs| - 1]);
      var t, job := AfterJobs(rule, s, jobs[..|jobs| - 1]), jobs[|jobs| - 1];
      EffectsSound(rule, Dispatched(t, job.channel), job.effects);
    }
  }

  lemma TurnSound(rule: Rule, s: Loop, round: seq<Event>)
    requires Sound(s)
    ensures Sound(AfterTurn(rule, s, round))
  {
    var jobs := Lookup(s.reg.channels, round);
    JobsSound(rule, s, jobs);
    var s' := AfterJobs(rule, s, jobs);
    TasksSound(rule, s'.(tasks := []), s'.tasks);
  }

  lemma {:induction false} RoundsSound(rule: Rule, s: Loop, rounds: seq<seq<Event>>)
    requires Sound(s)
    ensures Sound(AfterRounds(rule, s, rounds))
  {
    if |rounds| > 0 {
      RoundsSound(rule, s, rounds[..|rounds| - 1]);
      TurnSound(rule, AfterRounds(rule, s, rounds[..|rounds| - 1]), rounds[|rounds| - 1]);
    }
  }

  /**
   In every run, whatever user code does: what the kernel watches is mapped, and the map has mirrored
   the kernel's set at every moment exactly when no interest change was stray.
   */
  lemma MirroredExactly(rule: Rule, eventFd: nat, timerFd: nat, rounds: seq<seq<Event>>)
    ensures var t := AfterRounds(rule, Init(eventFd, timerFd), rounds);
            t.reg.kernel.Keys <= t.reg.channels.Keys && (t.mirrored <==> t.strays == [])
  {
    RoundsSound(rule, Init(eventFd, timerFd), rounds);
  }

  // ------------------------------------------------ what a deferred release keeps

  /** What these effects queue, in order. */
  function Queued(effects: seq<Effect>): seq<Task> {
    if |effects| == 0 then []
    else
      var front := Queued(effects[..|effects| - 1]);
      match effects[|effects| - 1]
      case AskRelease(c) => front + [ReleaseInLoop(c)]
      case QueueCall(es) => front + [Call(es)]
      case _ => front
  }

  function QueuedByJobs(jobs: seq<Job>): seq<Task> {
    if |jobs| == 0 then [] else QueuedByJobs(jobs[..|jobs| - 1]) + Queued(jobs[|jobs| - 1].effects)
  }

  /** What the functors of a batch queue, for the next turn. */
  function QueuedByTasks(batch: seq<Task>): seq<Task> {
    if |batch| == 0 then []
    else
      var front := QueuedByTasks(batch[..|batch| - 1]);
      match batch[|batch| - 1]
      case ReleaseInLoop(_) => front
      case Call(effects) => front + Queued(effects)
  }

  /** The releases among these tasks, in order. */
  function Releases(tasks: seq<Task>): seq<Channel> {
    if |tasks| == 0 then []
    else
      var front := Releases(tasks[..|tasks| - 1]);
      match tasks[|tasks| - 1]
      case ReleaseInLoop(c) => front + [c]
      case Call(_) => front
  }

  lemma {:induction false} ReleasesConcat(a: seq<Task>, b: seq<Task>)
    ensures Releases(a + b) == Releases(a) + Releases(b)
    decreases |b|
  {
    if |b| == 0 {
      assert a + b == a;
    } else {
      assert (a + b)[..|a + b| - 1] == a + b[..|b| - 1];
      ReleasesConcat(a, b[..|b| - 1]);
    }
  }

  function Channels(jobs: seq<Job>): seq<Channel> {
    if |jobs| == 0 then [] else Channels(jobs[..|jobs| - 1]) + [jobs[|jobs| - 1].channel]
  }

  /** Everything mapped in m is mapped in m' to the same channel. */
  predicate Extends(m: map<nat, Channel>, m': map<nat, Channel>) {
    forall fd :: fd in m ==> fd in m' && m'[fd] == m[fd]
  }

  /** From s to t: nothing is unmapped or released, these tasks are queued, and their releases asked for. */
  predicate OnlyQueues(s: Loop, t: Loop, tasks: seq<Task>) {
    && Extends(s.reg.channels, t.reg.channels)
    && t.released == s.released
    && t.tasks == s.tasks + tasks
    && t.asked == s.asked + Releases(tasks)
    && s.strays <= t.strays
  }

  lemma {:induction false} EffectsQueue(s: Loop, effects: seq<Effect>)
    ensures OnlyQueues(s, AfterEffects(Deferred, s, effects), Queued(effects))
    ensures var t := AfterEffects(Deferred, s, effects);
            t.handled == s.handled && t.unregistered == s.unregistered && t.late == s.late
  {
    if |effects| > 0 {
      EffectsQueue(s, effects[..|effects| - 1]);
      var front := Queued(effects[..|effects| - 1]);
      match effects[|effects| - 1]
      case AskRelease(c) => assert (front + [ReleaseInLoop(c)])[..|front|] == front;
      case QueueCall(es) => assert (front + [Call(es)])[..|front|] == front;
      case _ =>
    }
  }

  lemma QueuesConcat(s: Loop, t: Loop, u: Loop, a: seq<Task>, b: seq<Task>)
    requires OnlyQueues(s, t, a) && OnlyQueues(t, u, b)
    ensures OnlyQueues(s, u, a + b)
  {
    ReleasesConcat(a, b);
  }

  /** Channels that are registered when dispatch begins, and not released by then unless a change was stray. */
  predicate Ready(s: Loop, jobs: seq<Job>) {
    forall i :: 0 <= i < |jobs| ==>
      Registered(s.reg, jobs[i].channel) && (s.strays == [] ==> jobs[i].channel !in s.released)
  }

  /** All active channels are handled, in order, while they are registered. */
  lemma {:induction false} JobsQueue(s: Loop, jobs: seq<Job>)
    requires Ready(s, jobs)
    ensures OnlyQueues(s, AfterJobs(Deferred, s, jobs), QueuedByJobs(jobs))
    ensures var t := AfterJobs(Deferred, s, jobs);
            t.handled == s.handled + Channels(jobs) && t.unregistered == s.unregistered && (s.strays == [] ==> t.late == s.late)
  {
    if |jobs| > 0 {
      var front, job := jobs[..|jobs| - 1], jobs[|jobs| - 1];
      JobsQueue(s, front);
      var t := AfterJobs(Deferred, s, front);
      EffectsQueue(Dispatched(t, job.channel), job.effects);
      QueuesConcat(s, t, AfterJobs(Deferred, s, jobs), QueuedByJobs(front), Queued(job.effects));
      assert Registered(s.reg, job.channel);
    }
  }

  /** From s to t: nothing is handled, these releases are carried out, and these tasks are queued. */
  predicate OnlyRuns(s: Loop, t: Loop, releases: seq<Channel>, tasks: seq<Task>) {
    && t.released == s.released + releases
    && t.tasks == s.tasks + tasks
    && t.asked == s.asked + Releases(tasks)
    && t.handled == s.handled && t.unregistered == s.unregistered && t.late == s.late
    && s.strays <= t.strays
  }

  lemma RunsConcat(s: Loop, t: Loop, u: Loop, r: seq<Channel>, a: seq<Task>, b: seq<Task>)
    requires OnlyRuns(s, t, r, a) && OnlyRuns(t, u, [], b)
    ensures OnlyRuns(s, u, r, a + b)
  {
    ReleasesConcat(a, b);
    assert u.released == t.released;
  }

  /** Exactly the releases of the batch are carried out, in order; its functors queue for the next turn. */
  lemma {:induction false} TasksRelease(s: Loop, batch: seq<Task>)
    ensures OnlyRuns(s, AfterTasks(Deferred, s, batch), Releases(batch), QueuedByTasks(batch))
  {
    if |batch| > 0 {
      var front := batch[..|batch| - 1];
      TasksRelease(s, front);
      var t := AfterTasks(Deferred, s, front);
      match batch[|batch| - 1]
      case ReleaseInLoop(_) =>
      case Call(effects) =>
        EffectsQueue(t, effects);
        RunsConcat(s, t, AfterEffects(Deferred, t, effects), Releases(front), QueuedByTasks(front), Queued(effects));
    }
  }

  /** What is watched is mapped to registered channels. */
  lemma {:induction false} LookupReady(s: Loop, round: seq<Event>)
    requires Sound(s)
    ensures Ready(s, Lookup(s.reg.channels, round))
  {
    if |round| > 0 {
      LookupReady(s, round[..|round| - 1]);
    }
  }

  /** What one turn does to the histories and the queue. */
  lemma TurnDeferred(s: Loop, round: seq<Event>)
    requires Sound(s)
    ensures var jobs := Lookup(s.reg.channels, round);
            var batch := s.tasks + QueuedByJobs(jobs);
            var t := AfterTurn(Deferred, s, round);
            && t.handled == s.handled + Channels(jobs)
            && t.unregistered == s.unregistered
            && t.released == s.released + Releases(batch)
            && t.tasks == QueuedByTasks(batch)
            && t.asked == s.asked + Releases(QueuedByJobs(jobs)) + Releases(QueuedByTasks(batch))
            && (s.strays == [] ==> t.late == s.late) && s.strays <= t.strays
  {
    var jobs := Lookup(s.reg.channels, round);
    LookupReady(s, round);
    JobsQueue(s, jobs);
    var s' := AfterJobs(Deferred, s, jobs);
    TasksRelease(s'.(tasks := []), s'.tasks);
  }

  /** No channel was dispatched unregistered, nor after its release unless an interest change was stray. */
  predicate NoneGone(t: Loop) {
    t.unregistered == [] && (t.strays == [] ==> t.late == [])
  }

  /**
   What the deferred rule keeps, turn by turn: no channel is dispatched unregistered, nor after its
   release unless an interest change was stray, and every release asked for is carried out or queued.
   */
  predicate Safe(s: Loop) {
    && NoneGone(s)
    && s.released + Releases(s.tasks) == s.asked
  }

  /** What that says of the histories. */
  lemma SafeHistories(s: Loop)
    requires Sound(s) && Safe(s)
    ensures s.unregistered == [] && (s.strays == [] ==> s.late == []) && (s.mirrored <==> s.strays == [])
    ensures s.released + Releases(s.tasks) == s.asked
  {
  }

  lemma TurnSafe(s: Loop, round: seq<Event>)
    requires Sound(s) && Safe(s)
    ensures Sound(AfterTurn(Deferred, s, round)) && Safe(AfterTurn(Deferred, s, round))
    ensures s.asked <= AfterTurn(Deferred, s, round).released
  {
    TurnSound(Deferred, s, round);
    TurnDeferred(s, round);
    var queued := QueuedByJobs(Lookup(s.reg.channels, round));
    ReleasesConcat(s.tasks, queued);
    Conserved(s.released, Releases(s.tasks), Releases(queued), Releases(AfterTurn(Deferred, s, round).tasks), s.asked);
  }

  lemma Conserved(released: seq<Channel>, a: seq<Channel>, b: seq<Channel>, c: seq<Channel>, asked: seq<Channel>)
    requires released + a == asked
    ensures released + (a + b) + c == asked + b + c && asked <= released + (a + b)
  {
    assert released + (a + b) == released + a + b;
  }

  /** The channels the kernel reports over these turns, as they are mapped when it does. */
  function Active(s: Loop, rounds: seq<seq<Event>>): seq<Channel> {
    if |rounds| == 0 then []
    else
      var before := rounds[..|rounds| - 1];
      Active(s, before) + Channels(Lookup(AfterRounds(Deferred, s, before).reg.channels, rounds[|rounds| - 1]))
  }

  lemma {:induction false} RoundsSafe(s: Loop, rounds: seq<seq<Event>>)
    requires Sound(s) && Safe(s)
    ensures Sound(AfterRounds(Deferred, s, rounds)) && Safe(AfterRounds(Deferred, s, rounds))
    ensures AfterRounds(Deferred, s, rounds).handled == s.handled + Active(s, rounds)
  {
    if |rounds| > 0 {
      var before := rounds[..|rounds| - 1];
      RoundsSafe(s, before);
      TurnSafe(AfterRounds(Deferred, s, before), rounds[|rounds| - 1]);
      TurnDeferred(AfterRounds(Deferred, s, before), rounds[|rounds| - 1]);
    }
  }

  // ------------------------------------------------------------------ the choice

  lemma InitSafe(eventFd: nat, timerFd: nat)
    ensures Sound(Init(eventFd, timerFd)) && Safe(Init(eventFd, timerFd))
  {
  }

  ghost predicate NeverGone(rule: Rule) {
    forall eventFd, timerFd, rounds ::
      Possible(rule, Init(eventFd, timerFd), rounds) ==> NoneGone(AfterRounds(rule, Init(eventFd, timerFd), rounds))
  }

  const CONN := Channel(1, 7)

  /** Descriptor 7 is accepted elsewhere, and a functor that establishes the connection is queued. */
  const ESTABLISH := [Event(3, [Accept(7), QueueCall([SetEvents(CONN, {EPOLLIN})])])]

  /** The timer releases the connection in the turn in which it has become readable. */
  const TIMEOUT := [Event(4, [AskRelease(CONN)]), Event(7, [])]

  function Established(): Loop {
    var s := Init(3, 4);
    s.(reg := Registry(s.reg.channels[7 := CONN], s.reg.kernel[7 := {EPOLLIN}], s.reg.open + {7}), handled := [Channel(0, 3)])
  }

  lemma OneEffect(rule: Rule, s: Loop, e: Effect)
    ensures AfterEffects(rule, s, [e]) == AfterEffect(rule, s, e)
  {
    assert [e][..0] == [];
  }

  lemma TwoEffects(rule: Rule, s: Loop, a: Effect, b: Effect)
    ensures AfterEffects(rule, s, [a, b]) == AfterEffect(rule, AfterEffect(rule, s, a), b)
  {
    assert [a, b][..1] == [a];
    OneEffect(rule, s, a);
  }

  lemma OneTask(rule: Rule, s: Loop, a: Task)
    ensures AfterTasks(rule, s, [a]) == AfterTask(rule, s, a)
  {
    assert [a][..0] == [];
  }

  lemma TwoTasks(rule: Rule, s: Loop, a: Task, b: Task)
    ensures AfterTasks(rule, s, [a, b]) == AfterTask(rule, AfterTask(rule, s, a), b)
  {
    assert [a, b][..1] == [a];
    OneTask(rule, s, a);
  }

  lemma OneEvent(rule: Rule, s: Loop, e: Event)
    requires e.fd in s.reg.channels
    ensures Lookup(s.reg.channels, [e]) == [Job(s.reg.channels[e.fd], e.effects)]
    ensures AfterJobs(rule, s, Lookup(s.reg.channels, [e])) == AfterJob(rule, s, Job(s.reg.channels[e.fd], e.effects))
  {
    assert [e][..0] == [];
    var job := Job(s.reg.channels[e.fd], e.effects);
    assert [job][..0] == [];
  }

  lemma EstablishedIsReached(rule: Rule)
    ensures Possible(rule, Init(3, 4), [ESTABLISH]) && AfterRounds(rule, Init(3, 4), [ESTABLISH]) == Established()
  {
    var s, change := Init(3, 4), SetEvents(CONN, {EPOLLIN});
    assert [ESTABLISH][..0] == [];
    OneEvent(rule, s, ESTABLISH[0]);
    TwoEffects(rule, Dispatched(s, Channel(0, 3)), Accept(7), QueueCall([change]));
    var s1 := AfterJobs(rule, s, Lookup(s.reg.channels, ESTABLISH));
    OneTask(rule, s1.(tasks := []), Call([change]));
    OneEffect(rule, s1.(tasks := []), change);
    assert Mirror(Established());
  }

  /** The timer's turn is over, the connection is released and its descriptor closed. */
  function Closed(): Loop {
    var s := Init(3, 4);
    s.(handled := [Channel(0, 3), Channel(0, 4)], asked := [CONN], released := [CONN])
  }

  lemma ClosedIsReleased()
    ensures AfterRelease(Dispatched(Established(), Channel(0, 4)).(asked := [CONN]), CONN) == Closed()
  {
    var r, i := Removed(Established().reg, CONN), Init(3, 4).reg;
    assert r.channels == i.channels && r.kernel == i.kernel && r.open - {7} == i.open;
  }

  lemma TimeoutTurn()
    ensures AfterTurn(AtOnce, Established(), TIMEOUT) == Dispatched(Closed(), CONN)
  {
    var s, timer, conn := Established(), Job(Channel(0, 4), [AskRelease(CONN)]), Job(CONN, []);
    assert TIMEOUT[..1] == [TIMEOUT[0]] && [timer, conn][..1] == [timer];
    OneEvent(AtOnce, s, TIMEOUT[0]);
    OneEffect(AtOnce, Dispatched(s, Channel(0, 4)), AskRelease(CONN));
    ClosedIsReleased();
    assert AfterJob(AtOnce, s, timer) == Closed();
    assert Lookup(s.reg.channels, TIMEOUT) == [timer, conn];
  }

  /** With a release at once, a channel that is active is gone when its turn comes. */
  lemma GoneWithoutDeferral()
    ensures var t := AfterRounds(AtOnce, Init(3, 4), [ESTABLISH, TIMEOUT]);
            Possible(AtOnce, Init(3, 4), [ESTABLISH, TIMEOUT]) && t.unregistered == t.late == [CONN] && t.strays == []
  {
    assert [ESTABLISH, TIMEOUT][..1] == [ESTABLISH];
    EstablishedIsReached(AtOnce);
    TimeoutTurn();
  }

  /**
   In no run is a channel dispatched when it is unregistered or released, exactly because releases
   are queued.
   */
  lemma DeferralExactly(rule: Rule)
    ensures NeverGone(rule) <==> rule == Deferred
  {
    hide AfterRounds, Possible, Init, Sound;
    if rule == Deferred {
      forall eventFd, timerFd, rounds | Possible(rule, Init(eventFd, timerFd), rounds)
        ensures NoneGone(AfterRounds(rule, Init(eventFd, timerFd), rounds))
      {
        InitSafe(eventFd, timerFd);
        RoundsSafe(Init(eventFd, timerFd), rounds);
      }
    } else {
      GoneWithoutDeferral();
    }
  }

  /** The timeout meets a functor that changes the connection's interest, queued behind the release. */
  const STRAY := [Event(4, [AskRelease(CONN), QueueCall([SetEvents(CONN, {EPOLLIN, EPOLLOUT})])])]

  /** The descriptor is reused for the next connection. */
  const REUSE := [Event(3, [Accept(7), QueueCall([SetEvents(Channel(2, 7), {EPOLLIN})])])]

  /**
   A stray change in the source's own rule: the map keeps a descriptor that is closed, and the next
   connection that gets it is never watched, because its ADD has become a MOD.
   */
  lemma StrayStarves()
    ensures var rounds := [ESTABLISH, STRAY, REUSE];
            var t := AfterRounds(Deferred, Init(3, 4), rounds);
            && Possible(Deferred, Init(3, 4), rounds)
            && t.strays == [CONN] && !t.mirrored
            && t.reg.channels[7 := CONN] == t.reg.channels && 7 in t.reg.open && 7 !in t.reg.kernel
  {
    var rounds, s := [ESTABLISH, STRAY, REUSE], Established();
    assert rounds[..2] == [ESTABLISH, STRAY] && rounds[..2][..1] == [ESTABLISH];
    EstablishedIsReached(Deferred);
    StrayTurn();
    ReuseTurn(AfterTurn(Deferred, s, STRAY));
  }

  lemma StrayRelease()
    ensures var s := AfterJobs(Deferred, Established(), Lookup(Established().reg.channels, STRAY));
            && AfterRelease(s.(tasks := []), CONN) == Closed()
            && s.tasks == [ReleaseInLoop(CONN), Call([SetEvents(CONN, {EPOLLIN, EPOLLOUT})])]
  {
    var s := Established();
    OneEvent(Deferred, s, STRAY[0]);
    var call := QueueCall([SetEvents(CONN, {EPOLLIN, EPOLLOUT})]);
    TwoEffects(Deferred, Dispatched(s, Channel(0, 4)), AskRelease(CONN), call);
    ClosedIsReleased();
  }

  lemma StrayTurn()
    ensures var t := AfterTurn(Deferred, Established(), STRAY);
            && Reportable(Established(), STRAY)
            && t.strays == [CONN] && !t.mirrored && t.tasks == []
            && t.reg.channels == Established().reg.channels && t.reg.kernel == Init(3, 4).reg.kernel
  {
    StrayRelease();
    var s, change := Established(), SetEvents(CONN, {EPOLLIN, EPOLLOUT});
    var s1 := AfterJobs(Deferred, s, Lookup(s.reg.channels, STRAY)).(tasks := []);
    TwoTasks(Deferred, s1, ReleaseInLoop(CONN), Call([change]));
    OneEffect(Deferred, Closed(), change);
    var t := AfterEffect(Deferred, Closed(), change);
    assert 7 in t.reg.channels && 7 !in t.reg.kernel;
  }

  lemma ReuseTurn(s: Loop)
    requires Registered(s.reg, Channel(0, 3)) && 7 in s.reg.channels && 3 in s.reg.kernel && 7 !in s.reg.kernel
    requires s.tasks == []
    ensures var t := AfterTurn(Deferred, s, REUSE);
            && Reportable(s, REUSE)
            && t.strays == s.strays && (t.mirrored ==> s.mirrored)
            && t.reg == s.reg.(open := s.reg.open + {7})
  {
    var change := SetEvents(Channel(2, 7), {EPOLLIN});
    OneEvent(Deferred, s, REUSE[0]);
    TwoEffects(Deferred, Dispatched(s, Channel(0, 3)), Accept(7), QueueCall([change]));
    var s1 := AfterJobs(Deferred, s, Lookup(s.reg.channels, REUSE)).(tasks := []);
    OneTask(Deferred, s1, Call([change]));
    OneEffect(Deferred, s1, change);
  }

  // -------------------------------------------------------------------- the loop

  class EventLoop {
    const poller: Poller
    var tasks: seq<Task>
    ghost var handled: seq<Channel>
    ghost var unregistered: seq<Channel>
    ghost var late: seq<Channel>
    ghost var asked: seq<Channel>
    ghost var released: seq<Channel>
    ghost var strays: seq<Channel>
    ghost var mirrored: bool

    ghost function View(): Loop
      reads this, poller
    {
      Loop(poller.View(), tasks, handled, unregistered, late, asked, released, strays, mirrored)
    }

    ghost predicate Valid()
      reads this, poller
    {
      Sound(View()) && Safe(View())
    }

    constructor (eventFd: nat, timerFd: nat)
      ensures Valid() && fresh(poller) && View() == Init(eventFd, timerFd)
      ensures poller.kernel == map[timerFd := {EPOLLIN}, eventFd := {EPOLLIN}] && poller.channels.Keys == {timerFd, eventFd}
    {
      poller := new Poller();
      tasks, handled, unregistered, late, asked, released, strays, mirrored := [], [], [], [], [], [], [], true;
      new;
      poller.open := {timerFd, eventFd};
      poller.UpdateEvent(Channel(0, timerFd), {EPOLLIN});
      poller.UpdateEvent(Channel(0, eventFd), {EPOLLIN});
    }

    ghost method Record()
      modifies this`mirrored
      ensures View() == Observe(old(View()))
    {
      mirrored := mirrored && Mirror(View());
    }

    /** ReleaseInLoop, as far as the loop sees it. */
    method ReleaseInLoop(c: Channel)
      modifies this`released, this`mirrored, poller
      ensures View() == AfterRelease(old(View()), c)
      ensures c.fd !in poller.channels && c.fd !in poller.kernel
    {
      poller.RemoveEvent(c);
      if c !in released {
        poller.open := poller.open - {c.fd};
      }
      released := released + [c];
      Record();
    }

    /** Effects of user code: the registry follows, releases and functors join the queue's end. */
    method Perform(effects: seq<Effect>)
      modifies this, poller
      ensures View() == AfterEffects(Deferred, old(View()), effects)
      ensures OnlyQueues(old(View()), View(), Queued(effects))
    {
      assert effects[..|effects|] == effects;
      for i := 0 to |effects|
        invariant View() == AfterEffects(Deferred, old(View()), effects[..i])
      {
        assert effects[..i + 1][..i] == effects[..i];
        match effects[i] {
          case Accept(fd) => poller.open := poller.open + {fd};
          case SetEvents(c, events) =>
            strays := if Stray(View(), c) then strays + [c] else strays;
            poller.UpdateEvent(c, events);
            Record();
          case AskRelease(c) =>
            asked := asked + [c];
            tasks := tasks + [Task.ReleaseInLoop(c)];
          case QueueCall(es) => tasks := tasks + [Call(es)];
        }
      }
      EffectsQueue(old(View()), effects);
    }

    /** The channel's handlers run. */
    method HandleEvent(job: Job)
      modifies this, poller
      ensures View() == AfterJob(Deferred, old(View()), job)
      ensures handled == old(handled) + [job.channel]
      ensures unregistered == old(unregistered) <==> old(Registered(poller.View(), job.channel))
    {
      var c := job.channel;
      handled := handled + [c];
      unregistered := if Registered(poller.View(), c) then unregistered else unregistered + [c];
      late := if c in released then late + [c] else late;
      EffectsQueue(View(), job.effects);
      Perform(job.effects);
    }

    /** The loop over the active channels. */
    method HandleEvents(active: seq<Job>)
      modifies this, poller
      ensures View() == AfterJobs(Deferred, old(View()), active)
    {
      assert active[..|active|] == active;
      for i := 0 to |active|
        invariant View() == AfterJobs(Deferred, old(View()), active[..i])
      {
        assert active[..i + 1][..i] == active[..i];
        HandleEvent(active[i]);
      }
    }

    /**
     RunAllTask: swaps the queue out and runs what was in it. Exactly the releases in it are carried
     out, and the new queue is exactly what its functors queued.
     */
    method RunAllTask()
      modifies this, poller
      ensures View() == AfterTasks(Deferred, old(View()).(tasks := []), old(tasks))
      ensures released == old(released) + Releases(old(tasks)) && tasks == QueuedByTasks(old(tasks))
    {
      var batch := tasks;
      tasks := [];
      assert batch[..|batch|] == batch;
      for i := 0 to |batch|
        invariant View() == AfterTasks(Deferred, old(View()).(tasks := []), batch[..i])
      {
        assert batch[..i + 1][..i] == batch[..i];
        match batch[i] {
          case ReleaseInLoop(c) => ReleaseInLoop(c);
          case Call(effects) => Perform(effects);
        }
      }
      TasksRelease(old(View()).(tasks := []), batch);
    }

    /**
     One turn of Start: every reported channel is handled, in order, while it is registered, and only
     then are the releases carried out that were queued before or meanwhile; so a release asked for
     before the turn has happened when it ends.
     */
    method Turn(round: seq<Event>)
      requires Valid() && Reportable(View(), round)
      modifies this, poller
      ensures Valid() && View() == AfterTurn(Deferred, old(View()), round)
      ensures var jobs := Lookup(old(poller.channels), round);
              var batch := old(tasks) + QueuedByJobs(jobs);
              && |jobs| == |round|
              && handled == old(handled) + Channels(jobs)
              && released == old(released) + Releases(batch)
              && tasks == QueuedByTasks(batch)
      ensures old(asked) <= released
    {
      ghost var s := View();
      var active := poller.Poll(round);
      HandleEvents(active);
      RunAllTask();
      assert View() == AfterTurn(Deferred, s, round);
      hide Sound, Safe, AfterTurn, AfterJobs, AfterTasks, Lookup, QueuedByJobs, QueuedByTasks, Releases;
      TurnSafe(s, round);
      TurnDeferred(s, round);
    }

    /**
     Start, for any number of turns: every channel the kernel reports is handled in order, none of
     them unregistered, and none after its release unless an interest change was stray; every release
     ever asked for has been carried out in order or is queued.
     */
    method Start(rounds: seq<seq<Event>>)
      requires Valid() && Possible(Deferred, View(), rounds)
      modifies this, poller
      ensures View() == AfterRounds(Deferred, old(View()), rounds)
      ensures handled == old(handled) + Active(old(View()), rounds)
      ensures unregistered == [] && (strays == [] ==> late == []) && (mirrored <==> strays == [])
      ensures released + Releases(tasks) == asked
      ensures Valid()
    {
      hide Sound, Safe, AfterTurn, Active, Lookup, Reportable;
      assert rounds[..|rounds|] == rounds;
      for i := 0 to |rounds|
        invariant Valid() && View() == AfterRounds(Deferred, old(View()), rounds[..i])
      {
        assert rounds[..i + 1][..i] == rounds[..i];
        PossibleSoFar(Deferred, old(View()), rounds, i + 1);
        Turn(rounds[i]);
      }
      RoundsSafe(old(View()), rounds);
      SafeHistories(View());
    }
  }
}
