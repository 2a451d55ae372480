/** Process lifecycle and round-robin scheduling: proc/Task.cc and
    proc/TaskScheduler.cc. Whoever is at the front of the run queue is current. */
module Tasks {
  import opened Lists
  import opened ProcessTree

  // ---- the run queue -------------------------------------------------------------

  /** One call of schedule(). */
  function Rotate(q: seq<int>): seq<int> {
    if |q| > 1 then q[1..] + [q[0]] else q
  }

  datatype Turn = Yield | Enqueue(task: int)

  function AfterTurn(q: seq<int>, turn: Turn): seq<int> {
    match turn
    case Yield => Rotate(q)
    case Enqueue(t) => q + [t]
  }

  function AfterTurns(q: seq<int>, turns: seq<Turn>): seq<int>
    decreases turns
  {
    if turns == [] then q else AfterTurns(AfterTurn(q, turns[0]), turns[1..])
  }

  function Yields(turns: seq<Turn>): nat {
    if turns == [] then 0 else (if turns[0].Yield? then 1 else 0) + Yields(turns[1..])
  }

  function Arrivals(turns: seq<Turn>): seq<int> {
    if turns == [] then [] else (if turns[0].Enqueue? then [turns[0].task] else []) + Arrivals(turns[1..])
  }

  lemma RotateElements(q: seq<int>)
    ensures multiset(Rotate(q)) == multiset(q)
    ensures forall t :: t in Rotate(q) <==> t in q
  {
    if |q| > 1 {
      assert q == [q[0]] + q[1..];
    }
    assert forall t :: t in multiset(q) <==> t in q;
    assert forall t :: t in multiset(Rotate(q)) <==> t in Rotate(q);
  }

  /** Over any run of schedules and arrivals no task is lost or doubled. */
  lemma {:induction false} QueueConserved(q: seq<int>, turns: seq<Turn>)
    ensures multiset(AfterTurns(q, turns)) == multiset(q) + multiset(Arrivals(turns))
    decreases turns
  {
    if turns != [] {
      var turn := turns[0];
      QueueConserved(AfterTurn(q, turn), turns[1..]);
      RotateElements(q);
      var rest := Arrivals(turns[1..]);
      match turn {
        case Yield =>
          assert Arrivals(turns) == rest;
        case Enqueue(t) =>
          assert Arrivals(turns) == [t] + rest;
          assert multiset(q + [t]) == multiset(q) + multiset([t]);
          assert multiset([t] + rest) == multiset([t]) + multiset(rest);
      }
    }
  }

  /** Round robin is fair: whatever arrives in between, whoever is at position p
      has moved up to the front after exactly p schedules, and not any
      sooner. */
  lemma {:induction false} FrontAfterExactly(q: seq<int>, turns: seq<Turn>, p: nat)
    requires p < |q| && Yields(turns) <= p
    ensures |AfterTurns(q, turns)| > p - Yields(turns)
    ensures AfterTurns(q, turns)[p - Yields(turns)] == q[p]
    decreases turns
  {
    if turns != [] {
      var turn := turns[0];
      if turn.Yield? {
        FrontAfterExactly(Rotate(q), turns[1..], p - 1);
      } else {
        FrontAfterExactly(q + [turn.task], turns[1..], p);
      }
    }
  }

  lemma RotateKeepsInv(s: Procs)
    requires Inv(s, {})
    ensures Inv(s.(queue := Rotate(s.queue)), {})
  {
    var s' := s.(queue := Rotate(s.queue));
    RotateElements(s.queue);
    forall t | t in s'.tasks ensures TaskOk(s', {}, t) { assert TaskOk(s, {}, t); }
    forall p | p in s'.tasks ensures ListsOk(s', {}, p) {
      assert ListsOk(s, {}, p);
      forall c | c in s.tasks[p].active ensures ChildOk(s', p, c) { assert ChildOk(s, p, c); }
      forall c | c in s.tasks[p].terminated ensures ChildOk(s', p, c) { assert ChildOk(s, p, c); }
    }
  }

  // ---- the kernel's tasks ------------------------------------------------------------

  datatype WaitResult = NoChildren | Blocked | Reaped(pid: int, status: int)

  /** What wait does in state `s`, whose current task calls it: without children
      it fails, with running ones only it gives way, and otherwise it reaps the
      child that terminated first. */
  ghost predicate WaitOutcome(s: Procs, s': Procs, r: WaitResult)
    requires s.queue != [] && s.queue[0] in s.tasks
  {
    var t := s.tasks[s.queue[0]];
    match r
    case NoChildren => t.active == [] && t.terminated == [] && s' == s
    case Blocked => t.active != [] && t.terminated == [] && s' == s.(queue := Rotate(s.queue))
    case Reaped(pid, status) =>
      && t.terminated != [] && pid == t.terminated[0] && pid in s.tasks && status == s.tasks[pid].errorCode
      && s'.queue == s.queue && s'.nextPid == s.nextPid
      && ReapedExactly(TakeTerminated(s, s.queue[0]), s', pid)
  }

  class Kernel {
    var tasks: map<int, Task>
    var queue: seq<int>
    var nextPid: int

    ghost function View(): Procs
      reads this
    {
      Procs(tasks, queue, nextPid)
    }

    ghost predicate Valid()
      reads this
    {
      Inv(View(), {})
    }

    /** Boot creates idle, init and kthreadd, none of which has a parent. */
    constructor ()
      ensures Valid() && queue == [IDLE, INIT, KTHREADD] && nextPid == 3
      ensures tasks ==
              map[IDLE := Task(NONE, [], [], 0), INIT := Task(NONE, [], [], 0), KTHREADD := Task(NONE, [], [], 0)]
    {
      var root := Task(NONE, [], [], 0);
      tasks := map[IDLE := root, INIT := root, KTHREADD := root];
      queue := [IDLE, INIT, KTHREADD];
      nextPid := 3;
      new;
      forall t | t in View().tasks ensures TaskOk(View(), {}, t) {
      }
      forall p | p in View().tasks ensures ListsOk(View(), {}, p) {
      }
    }

    method Schedule()
      requires Valid()
      modifies this`queue
      ensures Valid() && queue == Rotate(old(queue))
    {
      RotateKeepsInv(View());
      if |queue| > 1 {
        var task := queue[0];
        queue := queue[1..];
        queue := queue + [task];
      }
    }

    /** The current task forks; `stacks` tells whether pages for the child's
        stacks were found. */
    method Fork(stacks: bool) returns (pid: int)
      requires Valid() && queue != []
      modifies this
      ensures Valid() <==> stacks
      ensures stacks ==> pid == old(nextPid) && View() == Forked(old(View()), old(queue[0]))
      ensures !stacks ==> pid == -1 && View() == ForkAborted(old(View()), old(queue[0]))
    {
      var p := queue[0];
      ForkKeepsInv(View(), p);
      ForkKeepsInvIff(View(), p, stacks);
      var c := nextPid;
      nextPid := nextPid + 1;
      tasks := tasks[c := Task(p, [], [], 0)][p := tasks[p].(active := tasks[p].active + [c])];
      if !stacks {
        tasks := tasks - {c};
        return -1;
      }
      queue := queue + [c];
      pid := c;
    }

    /** The current task exits. It must have a parent: the boot tasks never
        exit. The next task in line goes to the end before the switch. */
    method Exit(code: int)
      requires Valid() && queue != [] && queue[0] in tasks && tasks[queue[0]].parent != NONE
      modifies this
      ensures Valid() && old(queue[0]) !in queue
      ensures queue == Rotate(old(queue)[1..])
      ensures HasParent(old(View()), old(queue[0]))
      ensures View() == Exited(old(View()), old(queue[0]), code).(queue := queue)
    {
      var t := queue[0];
      var p := tasks[t].parent;
      ExitKeepsInv(View(), t, code);
      ghost var s := View();
      assert RemoveFirst(queue, t) == queue[1..];
      tasks := tasks[t := tasks[t].(errorCode := code)];
      tasks := tasks[p := tasks[p].(active := RemoveFirst(tasks[p].active, t))];
      queue := RemoveFirst(queue, t);
      tasks := tasks[p := tasks[p].(terminated := tasks[p].terminated + [t])];
      assert View() == Exited(s, t, code);
      RotateElements(queue);
      Schedule();
    }

    /** The destructor: init adopts the running children, then the terminated
        ones are destroyed in turn. */
    method Destroy(z: int, ghost dying: set<int>)
      requires Inv(View(), dying) && z in tasks && z in dying
      modifies this`tasks
      ensures Inv(View(), dying - {z}) && z !in tasks && Reaping(old(View()), View(), z)
      decreases nextPid - z
    {
      ghost var s0 := View();
      assert TaskOk(s0, dying, z);
      forall t | t in tasks ensures Kept(s0, s0, z, t) {
      }
      while tasks[z].active != []
        invariant Inv(View(), dying) && z in tasks && Reaping(s0, View(), z)
        decreases |tasks[z].active|
      {
        AdoptKeepsInv(View(), dying, z);
        ReapingAdopt(s0, View(), z, dying);
        ghost var s := View();
        var child := tasks[z].active[0];
        tasks := tasks[INIT := tasks[INIT].(active := tasks[INIT].active + [child])];
        tasks := tasks[child := tasks[child].(parent := INIT)];
        tasks := tasks[z := tasks[z].(active := tasks[z].active[1..])];
        assert View() == AdoptFirst(s, z);
      }
      DestroyTerminated(z, dying, s0);
      DropKeepsInv(View(), dying, z);
      ghost var s := View();
      tasks := tasks - {z};
      assert Under(s0, z, z);
      forall t | t in tasks ensures Kept(s0, View(), z, t) {
        assert Kept(s0, s, z, t);
      }
    }

    method DestroyTerminated(z: int, ghost dying: set<int>, ghost s0: Procs)
      requires Inv(View(), dying) && z in tasks && z in dying && Reaping(s0, View(), z) && tasks[z].active == []
      modifies this`tasks
      ensures Inv(View(), dying) && z in tasks && Reaping(s0, View(), z)
      ensures tasks[z].active == [] && tasks[z].terminated == []
      decreases nextPid - z, 0
    {
      while tasks[z].terminated != []
        invariant Inv(View(), dying) && z in tasks && Reaping(s0, View(), z) && tasks[z].active == []
        decreases |tasks[z].terminated|
      {
        ghost var s := View();
        assert TaskOk(s, dying, z);
        TakeTerminatedKeepsInv(s, dying, z);
        var y := tasks[z].terminated[0];
        tasks := tasks[z := tasks[z].(terminated := tasks[z].terminated[1..])];
        ghost var s1 := View();
        assert Kept(s0, s, z, y);
        Destroy(y, dying + {y});
        assert dying + {y} - {y} == dying;
        ReapingNested(s0, s, s1, View(), z, y);
        assert Kept(s1, View(), y, z);
      }
    }

    /** The current task waits for a child. A terminated child is reaped, oldest
        first: with it goes every terminated task it still owned, and init
        adopts all their running children. */
    method Wait() returns (r: WaitResult)
      requires Valid() && queue != [] && queue[0] in tasks
      modifies this
      ensures Valid() && nextPid == old(nextPid)
      ensures old(View()).queue[0] in old(View()).tasks && WaitOutcome(old(View()), View(), r)
    {
      var t := queue[0];
      if tasks[t].active == [] && tasks[t].terminated == [] {
        return NoChildren;
      }
      if tasks[t].terminated == [] {
        Schedule();
        return Blocked;
      }
      TakeTerminatedKeepsInv(View(), {}, t);
      var z := tasks[t].terminated[0];
      r := Reaped(z, tasks[z].errorCode);
      tasks := tasks[t := tasks[t].(terminated := tasks[t].terminated[1..])];
      ghost var s1 := View();
      assert {} + {z} == {z};
      Destroy(z, {z});
      assert {z} - {z} == {};
      ReapingExact(s1, View(), z);
    }

    /** Breadth-first search from init through active children. */
    method GetByPid(pid: int) returns (r: int)
      requires Valid()
      ensures pid == INIT || pid == KTHREADD ==> r == pid
      ensures pid != INIT && pid != KTHREADD ==> r == if Descends(View(), pid) then pid else NONE
    {
      if pid == INIT {
        return INIT;
      } else if pid == KTHREADD {
        return KTHREADD;
      }
      ghost var s := View();
      var q := [INIT];
      ghost var seen: set<int> := {};
      while q != []
        invariant Frontier(s, q, seen, pid)
        decreases tasks.Keys - seen
      {
        ghost var before := q;
        FrontierHead(s, before, seen, pid);
        var task := q[0];
        q := q[1..];
        if pid in tasks[task].active {
          FoundChild(s, before, seen, pid, task);
          return pid;
        }
        q := q + tasks[task].active;
        FrontierStep(s, before, seen, pid);
        seen := seen + {task};
      }
      NotFound(s, seen, pid);
      return NONE;
    }
  }

  /** The search has looked at `seen`, without finding `pid`, and still has `q`
      to look at; together they are closed under active children. */
  ghost predicate Frontier(s: Procs, q: seq<int>, seen: set<int>, pid: int) {
    && Inv(s, {}) && Distinct(q)
    && (forall t | t in q :: t in s.tasks && t !in seen && (t == INIT || Descends(s, t)))
    && (forall t | t in seen :: t in s.tasks && pid !in s.tasks[t].active)
    && (forall t, c | t in seen && c in s.tasks[t].active :: c in seen || c in q)
    && (forall c | (c in seen || c in q) && c != INIT :: c in s.tasks && s.tasks[c].parent in seen)
    && (INIT in seen || INIT in q)
  }

  lemma ActiveDescends(s: Procs, t: int, c: int)
    requires Inv(s, {}) && t in s.tasks && (t == INIT || Descends(s, t)) && c in s.tasks[t].active
    ensures Descends(s, c) && s.tasks[c].parent == t && c > t
  {
    assert ListsOk(s, {}, t) && ChildOk(s, t, c) && TaskOk(s, {}, c) && TaskOk(s, {}, t);
  }

  lemma FrontierHead(s: Procs, q: seq<int>, seen: set<int>, pid: int)
    requires Frontier(s, q, seen, pid) && q != []
    ensures q[0] in s.tasks && q[0] !in seen
  {
    assert q[0] in q;
  }

  lemma FoundChild(s: Procs, q: seq<int>, seen: set<int>, pid: int, task: int)
    requires Frontier(s, q, seen, pid) && q != [] && task == q[0] && task in s.tasks && pid in s.tasks[task].active
    ensures Descends(s, pid)
  {
    assert task in q;
    ActiveDescends(s, task, pid);
  }

  lemma FrontierStep(s: Procs, q: seq<int>, seen: set<int>, pid: int)
    requires Frontier(s, q, seen, pid) && q != [] && q[0] in s.tasks && pid !in s.tasks[q[0]].active
    ensures Frontier(s, q[1..] + s.tasks[q[0]].active, seen + {q[0]}, pid)
  {
    var task := q[0];
    var children := s.tasks[task].active;
    assert task in q && q == [task] + q[1..];
    assert ListsOk(s, {}, task);
    forall c | c in children
      ensures Descends(s, c) && c !in q && c !in seen && c != task && s.tasks[c].parent == task
    {
      ActiveDescends(s, task, c);
    }
    var q' := q[1..] + children;
    DistinctConcat(q[1..], children);
    assert forall c :: c in q' <==> (c in q && c != task) || c in children;
  }

  lemma DistinctConcat(a: seq<int>, b: seq<int>)
    requires Distinct(a) && Distinct(b) && forall x | x in b :: x !in a
    ensures Distinct(a + b)
  {
    forall i, j | 0 <= i < j < |a + b| ensures (a + b)[i] != (a + b)[j] {
      if i < |a| <= j {
        assert b[j - |a|] in b && a[i] in a;
      }
    }
  }

  lemma {:induction false} Reached(s: Procs, seen: set<int>, pid: int, t: int)
    requires Frontier(s, [], seen, pid) && Descends(s, t)
    ensures s.tasks[t].parent in seen
    decreases t
  {
    if s.tasks[t].parent != INIT {
      Reached(s, seen, pid, s.tasks[t].parent);
    }
  }

  lemma NotFound(s: Procs, seen: set<int>, pid: int)
    requires Frontier(s, [], seen, pid)
    ensures !Descends(s, pid)
  {
    if Descends(s, pid) {
      Reached(s, seen, pid, pid);
    }
  }
}
