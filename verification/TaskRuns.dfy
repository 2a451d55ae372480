/** Whole runs of the process code, from boot on. */
module TaskRuns {
  import opened ProcessTree
  import opened Tasks
  import opened Runs

  // ---- what every state has in common ------------------------------------------------

  /** Each task has one owner, is an active child of exactly its parent while it
      can run, and its parent, if it has one, still exists. */
  ghost predicate SoundTree(s: Procs) {
    && (forall t | t in s.queue :: t in s.tasks)
    && (forall t | t in s.tasks :: s.tasks[t].parent == NONE || s.tasks[t].parent in s.tasks)
    && (forall t | t in s.tasks :: t in s.queue <==> !exists p :: p in s.tasks && t in s.tasks[p].terminated)
    && (forall t, p, q | p in s.tasks && q in s.tasks && t in s.tasks[p].terminated && t in s.tasks[q].terminated ::
          p == q)
    && (forall t, p | t in s.queue && p in s.tasks :: t in s.tasks[p].active <==> s.tasks[t].parent == p)
  }

  lemma InvSound(s: Procs)
    requires Inv(s, {})
    ensures SoundTree(s)
  {
    forall t | t in s.tasks
      ensures s.tasks[t].parent == NONE || s.tasks[t].parent in s.tasks
      ensures t in s.queue <==> !exists p :: p in s.tasks && t in s.tasks[p].terminated
    {
      assert TaskOk(s, {}, t);
      OneOwner(s, t);
    }
    forall t, p, q | p in s.tasks && q in s.tasks && t in s.tasks[p].terminated && t in s.tasks[q].terminated
      ensures p == q
    {
      assert ListsOk(s, {}, p) && ChildOk(s, p, t);
      OneOwner(s, t);
    }
    forall t, p | t in s.queue && p in s.tasks ensures t in s.tasks[p].active <==> s.tasks[t].parent == p {
      OneActiveParent(s, t, p);
    }
  }

  /** Some task is current. */
  ghost predicate Ready(s: Procs) { s.queue != [] && s.queue[0] in s.tasks }

  /** A boot task never leaves the queue. */
  lemma AlwaysReady(s: Procs)
    requires Inv(s, {})
    ensures Ready(s)
  {
    assert TaskOk(s, {}, INIT);
    assert INIT in s.queue;
  }

  // ---- runs ------------------------------------------------------------------------------

  /** What the current task does next; `stacks` tells whether a fork finds pages
      for the child's stacks. */
  datatype Event = Fork(stacks: bool) | Exit(code: int) | Wait | Yield

  datatype Reply = Child(pid: int) | Waited(result: WaitResult) | Nothing

  /** Events no run goes beyond: the kernel halts when a task without a parent
      exits, and a fork that fails breaks the tree. */
  ghost predicate Halts(s: Procs, event: Event)
    requires Ready(s)
  {
    match event
    case Fork(stacks) => !stacks
    case Exit(_) => s.tasks[s.queue[0]].parent == NONE
    case _ => false
  }

  /** The current task does `event` and is told `reply`. */
  ghost predicate Step(s: Procs, event: Event, reply: Reply, s': Procs) {
    Ready(s) && !Halts(s, event) &&
    var t := s.queue[0];
    match event
    case Fork(_) => reply == Child(s.nextPid) && s' == Forked(s, t)
    case Exit(code) => reply == Nothing && HasParent(s, t) && s' == Exited(s, t, code).(queue := Rotate(s.queue[1..]))
    case Wait => reply.Waited? && WaitOutcome(s, s', reply.result)
    case Yield => reply == Nothing && s' == s.(queue := Rotate(s.queue))
  }

  ghost predicate Sound(s: Procs) { Inv(s, {}) && SoundTree(s) && Ready(s) }

  ghost predicate Boot(s: Procs) {
    && s.queue == [IDLE, INIT, KTHREADD] && s.nextPid == 3
    && s.tasks == map[IDLE := Task(NONE, [], [], 0), INIT := Task(NONE, [], [], 0), KTHREADD := Task(NONE, [], [], 0)]
  }

  /** `trace` lists the states of a run from boot that performed the events. */
  ghost predicate Run(events: seq<Event>, replies: seq<Reply>, trace: seq<Procs>) {
    IsRun(Sound, Step, events, replies, trace) && Boot(trace[0])
  }

  lemma StepOfRun(events: seq<Event>, replies: seq<Reply>, trace: seq<Procs>, n: nat)
    requires Run(events, replies, trace) && n < |events|
    ensures Inv(trace[n], {}) && Step(trace[n], events[n], replies[n], trace[n + 1])
  {
    assert SoundAt(Sound, trace, n) && StepAt(Step, events, replies, trace, n);
  }

  // ---- every run -----------------------------------------------------------------------------

  /** One event names no old pid anew and puts no old task back in the queue. */
  lemma StepGrows(s: Procs, s': Procs, event: Event, reply: Reply)
    requires Inv(s, {}) && Step(s, event, reply, s')
    ensures s'.nextPid >= s.nextPid
    ensures forall t | t in s'.tasks :: t in s.tasks || t == s.nextPid
    ensures forall t | t in s'.queue :: t in s.queue || t == s.nextPid
  {
    RotateElements(s.queue);
    RotateElements(s.queue[1..]);
    assert s.queue == [s.queue[0]] + s.queue[1..];
  }

  lemma {:induction false} GoneForGood(events: seq<Event>, replies: seq<Reply>, trace: seq<Procs>, t: int, n: nat,
                                       m: nat)
    requires Run(events, replies, trace) && n <= m <= |events|
    requires t !in trace[n].tasks && t < trace[n].nextPid
    ensures t !in trace[m].tasks && t < trace[m].nextPid
  {
    if n < m {
      GoneForGood(events, replies, trace, t, n, m - 1);
      StepOfRun(events, replies, trace, m - 1);
      StaysGone(trace[m - 1], trace[m], events[m - 1], replies[m - 1], t);
    }
  }

  lemma StaysGone(s: Procs, s': Procs, event: Event, reply: Reply, t: int)
    requires Inv(s, {}) && Step(s, event, reply, s')
    requires t !in s.tasks && t < s.nextPid
    ensures t !in s'.tasks && t < s'.nextPid
  {
    StepGrows(s, s', event, reply);
  }

  /** A child is reaped once: its pid never names a task again. */
  lemma ReapedOnce(events: seq<Event>, replies: seq<Reply>, trace: seq<Procs>, n: nat, m: nat)
    requires Run(events, replies, trace) && n < m <= |events|
    requires replies[n].Waited? && replies[n].result.Reaped?
    ensures replies[n].result.pid in trace[n].tasks && replies[n].result.pid !in trace[m].tasks
  {
    var z := replies[n].result.pid;
    StepOfRun(events, replies, trace, n);
    var s := trace[n];
    assert TaskOk(s, {}, z);
    assert Under(TakeTerminated(s, s.queue[0]), z, z);
    GoneForGood(events, replies, trace, z, n + 1, m);
  }

  /** After its exit a task stays out of the queue and keeps its exit code. */
  lemma {:induction false} ExitCodeKept(events: seq<Event>, replies: seq<Reply>, trace: seq<Procs>, n: nat, m: nat)
    requires Run(events, replies, trace) && n < m <= |events| && events[n].Exit?
    ensures Ready(trace[n])
    ensures var t := trace[n].queue[0];
            && t !in trace[m].queue && t < trace[m].nextPid
            && (t in trace[m].tasks ==> trace[m].tasks[t].errorCode == events[n].code)
  {
    StepOfRun(events, replies, trace, m - 1);
    if n == m - 1 {
      JustExited(trace[n], trace[m], events[n].code);
    } else {
      ExitCodeKept(events, replies, trace, n, m - 1);
      var s, s', t := trace[m - 1], trace[m], trace[n].queue[0];
      StepGrows(s, s', events[m - 1], replies[m - 1]);
      if t in s'.tasks { CodeKept(s, s', events[m - 1], replies[m - 1], t); }
    }
  }

  lemma JustExited(s: Procs, s': Procs, code: int)
    requires Inv(s, {}) && Ready(s) && HasParent(s, s.queue[0])
    requires s' == Exited(s, s.queue[0], code).(queue := Rotate(s.queue[1..]))
    ensures s.queue[0] !in s'.queue && s.queue[0] < s'.nextPid
    ensures s.queue[0] in s'.tasks && s'.tasks[s.queue[0]].errorCode == code
  {
    assert TaskOk(s, {}, s.queue[0]);
    RotateElements(s.queue[1..]);
  }

  /** Only the current task can change its own exit code. */
  lemma CodeKept(s: Procs, s': Procs, event: Event, reply: Reply, t: int)
    requires Inv(s, {}) && Step(s, event, reply, s')
    requires t !in s.queue && t in s'.tasks && t < s.nextPid
    ensures t in s.tasks && s'.tasks[t].errorCode == s.tasks[t].errorCode
  {
    StepGrows(s, s', event, reply);
  }

  /** What a parent learns from wait is what its child passed to exit. */
  lemma WaitDeliversExitCode(events: seq<Event>, replies: seq<Reply>, trace: seq<Procs>, n: nat, m: nat)
    requires Run(events, replies, trace) && n < m < |events| && events[n].Exit?
    requires Ready(trace[n]) && replies[m].Waited? && replies[m].result.Reaped?
    requires replies[m].result.pid == trace[n].queue[0]
    ensures replies[m].result.status == events[n].code
  {
    ExitCodeKept(events, replies, trace, n, m);
    StepOfRun(events, replies, trace, m);
  }

  /** Task `t` was current at event `n` and exited with `code`. */
  ghost predicate ExitedAt(events: seq<Event>, trace: seq<Procs>, n: int, t: int, code: int) {
    0 <= n < |events| && n < |trace| && Ready(trace[n]) && trace[n].queue[0] == t && events[n] == Exit(code)
  }

  /** A task is out of the queue because it was before or because it exits now. */
  lemma ZombieStep(s: Procs, s': Procs, event: Event, reply: Reply, t: int)
    requires Inv(s, {}) && Step(s, event, reply, s') && t in s'.tasks && t !in s'.queue
    ensures || (t in s.tasks && t !in s.queue && s'.tasks[t].errorCode == s.tasks[t].errorCode)
            || (t == s.queue[0] && event == Exit(s'.tasks[t].errorCode))
  {
    RotateElements(s.queue);
    RotateElements(s.queue[1..]);
    assert s.queue == [s.queue[0]] + s.queue[1..];
    if event.Fork? { assert s.nextPid in s'.queue; }
  }

  lemma {:induction false} ZombieExited(events: seq<Event>, replies: seq<Reply>, trace: seq<Procs>, m: nat, t: int)
    requires Run(events, replies, trace) && m <= |events| && t in trace[m].tasks && t !in trace[m].queue
    ensures exists n :: n < m && ExitedAt(events, trace, n, t, trace[m].tasks[t].errorCode)
  {
    if m > 0 {
      StepOfRun(events, replies, trace, m - 1);
      ZombieStep(trace[m - 1], trace[m], events[m - 1], replies[m - 1], t);
      if t in trace[m - 1].tasks && t !in trace[m - 1].queue {
        ZombieExited(events, replies, trace, m - 1, t);
      } else {
        assert ExitedAt(events, trace, m - 1, t, trace[m].tasks[t].errorCode);
      }
    }
  }

  /** Whoever is reaped has exited before, with the status wait reports. */
  lemma ReapedHasExited(events: seq<Event>, replies: seq<Reply>, trace: seq<Procs>, m: nat)
    requires Run(events, replies, trace) && m < |events| && replies[m].Waited? && replies[m].result.Reaped?
    ensures exists n :: n < m && ExitedAt(events, trace, n, replies[m].result.pid, replies[m].result.status)
  {
    var s, z := trace[m], replies[m].result.pid;
    StepOfRun(events, replies, trace, m);
    assert ListsOk(s, {}, s.queue[0]) && ChildOk(s, s.queue[0], z);
    OneOwner(s, z);
    ZombieExited(events, replies, trace, m, z);
  }

  // ---- fairness --------------------------------------------------------------------------------

  /** Places a task moves up by an event: giving way moves all others up by one,
      an exit by two, because the one right behind goes to the end. */
  function Advance(event: Event, reply: Reply): nat {
    match event
    case Yield => 1
    case Wait => if reply == Waited(Blocked) then 1 else 0
    case Exit(_) => 2
    case Fork(_) => 0
  }

  lemma MovesUp(s: Procs, s': Procs, event: Event, reply: Reply, p: nat)
    requires Step(s, event, reply, s') && p < |s.queue|
    ensures Advance(event, reply) <= p ==>
              p - Advance(event, reply) < |s'.queue| && s'.queue[p - Advance(event, reply)] == s.queue[p]
    ensures event.Exit? && p == 1 ==> |s'.queue| > 0 && s'.queue[|s'.queue| - 1] == s.queue[1]
  {
  }

  function Advanced(events: seq<Event>, replies: seq<Reply>, n: nat, m: nat): nat
    requires n <= m <= |events| && m <= |replies|
    decreases m
  {
    if n == m then 0 else Advanced(events, replies, n, m - 1) + Advance(events[m - 1], replies[m - 1])
  }

  lemma MovesUpInRun(events: seq<Event>, replies: seq<Reply>, trace: seq<Procs>, n: nat, p: nat)
    requires Run(events, replies, trace) && n < |events| && p < |trace[n].queue| && Advance(events[n], replies[n]) <= p
    ensures var q := p - Advance(events[n], replies[n]);
            q < |trace[n + 1].queue| && trace[n + 1].queue[q] == trace[n].queue[p]
  {
    StepOfRun(events, replies, trace, n);
    MovesUp(trace[n], trace[n + 1], events[n], replies[n], p);
  }

  /** In every run a task at place `p` is found the number of places further up
      that the events since then make, and is current when they make `p`. */
  lemma {:induction false} TurnComes(events: seq<Event>, replies: seq<Reply>, trace: seq<Procs>, n: nat, m: nat, p: nat)
    requires Run(events, replies, trace) && n <= m <= |events| && p < |trace[n].queue|
    requires Advanced(events, replies, n, m) <= p
    ensures var q := p - Advanced(events, replies, n, m);
            q < |trace[m].queue| && trace[m].queue[q] == trace[n].queue[p]
    decreases m
  {
    if n < m {
      TurnComes(events, replies, trace, n, m - 1, p);
      MovesUpInRun(events, replies, trace, m - 1, p - Advanced(events, replies, n, m - 1));
    }
  }

  // ---- running the kernel -----------------------------------------------------------------------

  method Perform(k: Kernel, event: Event) returns (reply: Reply)
    requires k.Valid() && Ready(k.View()) && !Halts(k.View(), event)
    modifies k
    ensures k.Valid() && Sound(k.View()) && Step(old(k.View()), event, reply, k.View())
  {
    reply := Nothing;
    match event {
      case Fork(_) =>
        var pid := k.Fork(true);
        reply := Child(pid);
      case Exit(code) =>
        k.Exit(code);
      case Wait =>
        var r := k.Wait();
        reply := Waited(r);
      case Yield =>
        k.Schedule();
    }
    InvSound(k.View());
    AlwaysReady(k.View());
  }

  /** The kernel performs events up to the first that halts it, and what it does
      is a run. */
  method Replay(events: seq<Event>) returns (k: Kernel, ran: nat, replies: seq<Reply>, ghost trace: seq<Procs>)
    ensures fresh(k) && k.Valid() && ran <= |events|
    ensures Run(events[..ran], replies, trace) && trace[ran] == k.View()
    ensures ran < |events| ==> Ready(k.View()) && Halts(k.View(), events[ran])
  {
    k := new Kernel();
    ran, replies, trace := 0, [], [k.View()];
    InvSound(k.View());
    AlwaysReady(k.View());
    EmptyRun(Sound, Step, k.View());
    assert events[..0] == [];
    while ran < |events| && !(events[ran].Exit? && k.tasks[k.queue[0]].parent == NONE) && events[ran] != Fork(false)
      invariant fresh(k) && k.Valid() && Ready(k.View()) && 0 <= ran <= |events|
      invariant Run(events[..ran], replies, trace) && trace[ran] == k.View()
      decreases |events| - ran
    {
      var reply := Perform(k, events[ran]);
      Extend(Sound, Step, events, ran, replies, trace, reply, k.View());
      replies, trace, ran := replies + [reply], trace + [k.View()], ran + 1;
    }
  }
}
