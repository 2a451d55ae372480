/** A ledger of the processes: who runs, whose child everyone is, and who has
    exited, in that order. It is kept from the events alone, and the kernel with
    its task lists answers exactly as the ledger says. */
module TaskLedger {
  import opened Lists
  import opened ProcessTree
  import opened Tasks
  import opened TaskRuns
  import opened Runs

  /** Zombies are the tasks that have exited and are still there, in the order of
      their exits. */
  datatype Ledger = Ledger(queue: seq<int>, parent: map<int, int>, zombies: seq<int>, code: map<int, int>, nextPid: int)

  function Booted(): Ledger {
    Ledger([IDLE, INIT, KTHREADD], map[IDLE := NONE, INIT := NONE, KTHREADD := NONE], [], map[], 3)
  }

  /** Those of the list whose parent is `p`. */
  function Of(zs: seq<int>, parent: map<int, int>, p: int): seq<int> {
    if zs == [] then []
    else if zs[0] in parent && parent[zs[0]] == p then [zs[0]] + Of(zs[1..], parent, p)
    else Of(zs[1..], parent, p)
  }

  /** When `z` is reaped, zombies whose parent goes go with it. */
  predicate Goes(l: Ledger, t: int, z: int)
    decreases t
  {
    t == z || (0 <= t && t in l.zombies && t in l.parent && 0 <= l.parent[t] < t && Goes(l, l.parent[t], z))
  }

  function Remaining(l: Ledger, zs: seq<int>, z: int): seq<int> {
    if zs == [] then [] else if Goes(l, zs[0], z) then Remaining(l, zs[1..], z) else [zs[0]] + Remaining(l, zs[1..], z)
  }

  /** Their other children become children of init. */
  function Reap(l: Ledger, z: int): Ledger {
    l.(zombies := Remaining(l, l.zombies, z),
       parent := map c | c in l.parent && !Goes(l, c, z) :: if Goes(l, l.parent[c], z) then INIT else l.parent[c])
  }

  /** The answer to what the first of the queue does. */
  ghost function Answer(l: Ledger, event: Event): Reply
    requires l.queue != []
  {
    match event
    case Fork(_) => Child(l.nextPid)
    case Wait =>
      var dead := Of(l.zombies, l.parent, l.queue[0]);
      if !exists c :: c in l.parent && l.parent[c] == l.queue[0] then Waited(NoChildren)
      else if dead == [] then Waited(Blocked)
      else Waited(Reaped(dead[0], if dead[0] in l.code then l.code[dead[0]] else 0))
    case _ => Nothing
  }

  ghost function Next(l: Ledger, event: Event): Ledger
    requires l.queue != []
  {
    var t := l.queue[0];
    match event
    case Fork(_) => l.(queue := l.queue + [l.nextPid], parent := l.parent[l.nextPid := t], nextPid := l.nextPid + 1)
    case Exit(code) => l.(queue := Rotate(l.queue[1..]), zombies := l.zombies + [t], code := l.code[t := code])
    case Yield => l.(queue := Rotate(l.queue))
    case Wait =>
      var dead := Of(l.zombies, l.parent, t);
      if !exists c :: c in l.parent && l.parent[c] == t then l
      else if dead == [] then l.(queue := Rotate(l.queue))
      else Reap(l, dead[0])
  }

  /** The ledger after the first `n` events. */
  ghost function After(events: seq<Event>, n: nat): Ledger
    requires n <= |events|
  {
    if n == 0 then Booted()
    else if After(events, n - 1).queue == [] then After(events, n - 1)
    else Next(After(events, n - 1), events[n - 1])
  }

  // ---- lists of zombies ------------------------------------------------------------------

  lemma {:induction false} OfMember(zs: seq<int>, parent: map<int, int>, p: int, x: int)
    ensures x in Of(zs, parent, p) <==> x in zs && x in parent && parent[x] == p
  {
    if zs != [] {
      assert zs == [zs[0]] + zs[1..];
      OfMember(zs[1..], parent, p, x);
    }
  }

  lemma {:induction false} OfSnoc(zs: seq<int>, parent: map<int, int>, p: int, t: int)
    ensures Of(zs + [t], parent, p) == Of(zs, parent, p) + if t in parent && parent[t] == p then [t] else []
  {
    if zs != [] {
      assert (zs + [t])[1..] == zs[1..] + [t];
      OfSnoc(zs[1..], parent, p, t);
    }
  }

  lemma {:induction false} OfSame(zs: seq<int>, parent: map<int, int>, parent': map<int, int>, p: int)
    requires forall x | x in zs :: (x in parent && parent[x] == p) <==> (x in parent' && parent'[x] == p)
    ensures Of(zs, parent', p) == Of(zs, parent, p)
  {
    if zs != [] {
      var x := zs[0];
      assert zs == [x] + zs[1..] && x in zs;
      assert (x in parent && parent[x] == p) <==> (x in parent' && parent'[x] == p);
      OfSame(zs[1..], parent, parent', p);
    }
  }

  lemma {:induction false} OfNone(zs: seq<int>, parent: map<int, int>, p: int)
    requires forall x | x in zs :: x in parent ==> parent[x] != p
    ensures Of(zs, parent, p) == []
  {
    if zs != [] {
      var x := zs[0];
      assert zs == [x] + zs[1..] && x in zs;
      assert x in parent ==> parent[x] != p;
      OfNone(zs[1..], parent, p);
    }
  }

  lemma {:induction false} RemainingMember(l: Ledger, zs: seq<int>, z: int, x: int)
    ensures x in Remaining(l, zs, z) <==> x in zs && !Goes(l, x, z)
  {
    if zs != [] {
      assert zs == [zs[0]] + zs[1..];
      RemainingMember(l, zs[1..], z, x);
    }
  }

  lemma {:induction false} RemainingDistinct(l: Ledger, zs: seq<int>, z: int)
    requires Distinct(zs)
    ensures Distinct(Remaining(l, zs, z))
  {
    if zs != [] {
      assert zs == [zs[0]] + zs[1..] && zs[0] !in zs[1..];
      RemainingDistinct(l, zs[1..], z);
      RemainingMember(l, zs[1..], z, zs[0]);
      if !Goes(l, zs[0], z) { DistinctCons(zs[0], Remaining(l, zs[1..], z)); }
    }
  }

  /** Of the zombies of one parent that stays, only `z` itself can go. */
  lemma {:induction false} OfRemaining(l: Ledger, zs: seq<int>, parent': map<int, int>, p: int, z: int)
    requires Distinct(zs) && forall x | x in zs :: x in l.parent
    requires forall x | x in zs && !Goes(l, x, z) :: x in parent' && parent'[x] == l.parent[x]
    requires forall x | x in zs && l.parent[x] == p :: Goes(l, x, z) ==> x == z
    ensures Of(Remaining(l, zs, z), parent', p) == RemoveFirst(Of(zs, l.parent, p), z)
  {
    if zs != [] {
      assert zs == [zs[0]] + zs[1..] && zs[0] !in zs[1..];
      OfRemaining(l, zs[1..], parent', p, z);
      if zs[0] == z {
        OfMember(zs[1..], l.parent, p, z);
        RemoveAbsent(Of(zs[1..], l.parent, p), z);
      }
    }
  }

  // ---- the kernel keeps the ledger -----------------------------------------------------------

  /** The ledger's entry for one task. */
  ghost predicate EntryOk(s: Procs, l: Ledger, t: int) {
    && (t in s.tasks <==> t in l.parent) && (t in s.tasks ==> s.tasks[t].parent == l.parent[t])
    && (t in l.zombies <==> t in s.tasks && t !in s.queue)
    && (t in l.zombies ==> t in l.code && l.code[t] == s.tasks[t].errorCode)
  }

  /** The kernel's list of a task's zombies is in the order of their exits. */
  ghost predicate ListOk(s: Procs, l: Ledger, p: int) {
    p in s.tasks ==> s.tasks[p].terminated == Of(l.zombies, l.parent, p)
  }

  ghost predicate Matches(s: Procs, l: Ledger) {
    && s.queue == l.queue && s.nextPid == l.nextPid && Distinct(l.zombies)
    && (forall t {:trigger EntryOk(s, l, t)} :: EntryOk(s, l, t))
    && (forall p {:trigger ListOk(s, l, p)} :: ListOk(s, l, p))
  }

  lemma BootMatches(s: Procs)
    requires Boot(s)
    ensures Matches(s, Booted())
  {
    forall p ensures ListOk(s, Booted(), p) {
    }
  }

  lemma ForkMatches(s: Procs, s': Procs, reply: Reply, l: Ledger)
    requires Inv(s, {}) && Matches(s, l) && Step(s, Fork(true), reply, s')
    ensures reply == Answer(l, Fork(true)) && Matches(s', Next(l, Fork(true)))
  {
    var c, l' := s.nextPid, Next(l, Fork(true));
    assert c !in s.tasks by { assert c in s.tasks ==> TaskOk(s, {}, c); }
    assert TaskOk(s, {}, s.queue[0]);
    forall t ensures EntryOk(s', l', t) { assert EntryOk(s, l, t); }
    forall p ensures ListOk(s', l', p) {
      assert ListOk(s, l, p);
      ForkLists(s, l, p);
    }
  }

  lemma ForkLists(s: Procs, l: Ledger, p: int)
    requires Inv(s, {}) && Matches(s, l) && Ready(s)
    ensures Of(l.zombies, l.parent[s.nextPid := s.queue[0]], p) ==
            if p == s.nextPid then [] else Of(l.zombies, l.parent, p)
  {
    var parent' := l.parent[s.nextPid := s.queue[0]];
    forall x | x in l.zombies ensures x in l.parent && parent'[x] == l.parent[x] != s.nextPid {
      assert EntryOk(s, l, x) && TaskOk(s, {}, x);
    }
    if p == s.nextPid { OfNone(l.zombies, parent', p); } else { OfSame(l.zombies, l.parent, parent', p); }
  }

  lemma ExitMatches(s: Procs, s': Procs, reply: Reply, l: Ledger, code: int)
    requires Inv(s, {}) && Matches(s, l) && Step(s, Exit(code), reply, s')
    ensures reply == Answer(l, Exit(code)) && Matches(s', Next(l, Exit(code)))
  {
    var t, l' := s.queue[0], Next(l, Exit(code));
    assert EntryOk(s, l, t);
    DistinctSnoc(l.zombies, t);
    forall x ensures EntryOk(s', l', x) { ExitEntry(s, s', l, code, x); }
    forall p ensures ListOk(s', l', p) { ExitLists(s, l, code, p); }
  }

  lemma ExitEntry(s: Procs, s': Procs, l: Ledger, code: int, x: int)
    requires Inv(s, {}) && Matches(s, l) && Ready(s) && HasParent(s, s.queue[0])
    requires s' == Exited(s, s.queue[0], code).(queue := Rotate(s.queue[1..]))
    ensures EntryOk(s', Next(l, Exit(code)), x)
  {
    assert EntryOk(s, l, x) && TaskOk(s, {}, s.queue[0]);
    RotateElements(s.queue[1..]);
    assert s.queue == [s.queue[0]] + s.queue[1..] && s.queue[0] !in s.queue[1..];
  }

  lemma ExitLists(s: Procs, l: Ledger, code: int, p: int)
    requires Inv(s, {}) && Matches(s, l) && Ready(s) && HasParent(s, s.queue[0])
    ensures p in Exited(s, s.queue[0], code).tasks ==>
              Exited(s, s.queue[0], code).tasks[p].terminated == Of(l.zombies + [s.queue[0]], l.parent, p)
  {
    assert ListOk(s, l, p) && EntryOk(s, l, s.queue[0]) && TaskOk(s, {}, s.queue[0]);
    OfSnoc(l.zombies, l.parent, p, s.queue[0]);
  }

  lemma TurnMatches(s: Procs, l: Ledger)
    requires Matches(s, l)
    ensures Matches(s.(queue := Rotate(s.queue)), l.(queue := Rotate(l.queue)))
  {
    var s', l' := s.(queue := Rotate(s.queue)), l.(queue := Rotate(l.queue));
    RotateElements(s.queue);
    forall t ensures EntryOk(s', l', t) { assert EntryOk(s, l, t); }
    forall p ensures ListOk(s', l', p) { assert ListOk(s, l, p); }
  }

  /** A task has a child exactly if one is on its lists. */
  lemma HasChild(s: Procs, l: Ledger, t: int)
    requires Inv(s, {}) && Matches(s, l) && t in s.tasks
    ensures (exists c :: c in l.parent && l.parent[c] == t) <==> s.tasks[t].active != [] || s.tasks[t].terminated != []
  {
    assert ListsOk(s, {}, t);
    if s.tasks[t].active != [] {
      assert ChildOk(s, t, s.tasks[t].active[0]) && EntryOk(s, l, s.tasks[t].active[0]);
    }
    if s.tasks[t].terminated != [] {
      assert ChildOk(s, t, s.tasks[t].terminated[0]) && EntryOk(s, l, s.tasks[t].terminated[0]);
    }
    forall c | c in l.parent && l.parent[c] == t ensures c in s.tasks[t].active || c in s.tasks[t].terminated {
      assert EntryOk(s, l, c);
      assert TaskOk(s, {}, c) && TaskOk(s, {}, t);
    }
  }

  lemma {:induction false} GoesIsUnder(s: Procs, l: Ledger, s0: Procs, t: int, z: int)
    requires Matches(s, l) && s0.queue == s.queue && s0.tasks.Keys == s.tasks.Keys
    requires forall x | x in s.tasks :: s0.tasks[x].parent == s.tasks[x].parent
    ensures Goes(l, t, z) <==> Under(s0, t, z)
    decreases t
  {
    assert EntryOk(s, l, t);
    if t != z && 0 <= t && t in l.zombies && 0 <= l.parent[t] < t { GoesIsUnder(s, l, s0, l.parent[t], z); }
  }

  /** What is left after `z` has been reaped. */
  lemma ReapMatches(s: Procs, s': Procs, l: Ledger, z: int)
    requires Inv(s, {}) && Matches(s, l) && Ready(s) && s.tasks[s.queue[0]].terminated != []
    requires z == s.tasks[s.queue[0]].terminated[0] && s'.queue == s.queue && s'.nextPid == s.nextPid
    requires ReapedExactly(TakeTerminated(s, s.queue[0]), s', z)
    ensures Matches(s', Reap(l, z))
  {
    var l' := Reap(l, z);
    assert ListsOk(s, {}, s.queue[0]) && ChildOk(s, s.queue[0], z) && TaskOk(s, {}, z);
    RemainingDistinct(l, l.zombies, z);
    forall t ensures EntryOk(s', l', t) { ReapEntry(s, s', l, z, t); }
    forall p ensures ListOk(s', l', p) {
      if p in s'.tasks {
        GoesIsUnder(s, l, TakeTerminated(s, s.queue[0]), p, z);
        ReapLists(s, l, z, p);
      }
    }
  }

  lemma ReapEntry(s: Procs, s': Procs, l: Ledger, z: int, t: int)
    requires Matches(s, l) && Ready(s) && s.tasks[s.queue[0]].terminated != [] && s'.queue == s.queue && z >= 0
    requires ReapedExactly(TakeTerminated(s, s.queue[0]), s', z)
    ensures EntryOk(s', Reap(l, z), t)
  {
    var s0 := TakeTerminated(s, s.queue[0]);
    assert EntryOk(s, l, t);
    GoesIsUnder(s, l, s0, t, z);
    if t in s.tasks { GoesIsUnder(s, l, s0, s.tasks[t].parent, z); }
    RemainingMember(l, l.zombies, z, t);
  }

  lemma ReapLists(s: Procs, l: Ledger, z: int, p: int)
    requires Inv(s, {}) && Matches(s, l) && Ready(s) && s.tasks[s.queue[0]].terminated != []
    requires z == s.tasks[s.queue[0]].terminated[0] && p in s.tasks && !Goes(l, p, z)
    ensures TakeTerminated(s, s.queue[0]).tasks[p].terminated == Of(Reap(l, z).zombies, Reap(l, z).parent, p)
  {
    var cur := s.queue[0];
    assert ListsOk(s, {}, cur) && ChildOk(s, cur, z) && TaskOk(s, {}, cur) && TaskOk(s, {}, z);
    assert ListOk(s, l, p) && EntryOk(s, l, z);
    forall x | x in l.zombies ensures x in l.parent {
      assert EntryOk(s, l, x);
    }
    forall x | x in l.zombies && !Goes(l, x, z) ensures x in Reap(l, z).parent && Reap(l, z).parent[x] == l.parent[x] {
      assert EntryOk(s, l, x) && TaskOk(s, {}, x);
    }
    OfRemaining(l, l.zombies, Reap(l, z).parent, p, z);
    OfMember(l.zombies, l.parent, p, z);
    if p != cur { RemoveAbsent(Of(l.zombies, l.parent, p), z); }
  }

  lemma WaitMatches(s: Procs, s': Procs, reply: Reply, l: Ledger)
    requires Inv(s, {}) && Matches(s, l) && Step(s, Wait, reply, s')
    ensures reply == Answer(l, Wait) && Matches(s', Next(l, Wait))
  {
    var t := s.queue[0];
    HasChild(s, l, t);
    assert ListOk(s, l, t);
    if reply.result.Blocked? { TurnMatches(s, l); }
    if reply.result.Reaped? {
      OfMember(l.zombies, l.parent, t, reply.result.pid);
      assert EntryOk(s, l, reply.result.pid);
      ReapMatches(s, s', l, reply.result.pid);
    }
  }

  lemma StepMatches(s: Procs, event: Event, reply: Reply, s': Procs, l: Ledger)
    requires Inv(s, {}) && Matches(s, l) && Step(s, event, reply, s')
    ensures l.queue != [] && reply == Answer(l, event) && Matches(s', Next(l, event))
  {
    match event
    case Fork(_) => ForkMatches(s, s', reply, l);
    case Exit(code) => ExitMatches(s, s', reply, l, code);
    case Wait => WaitMatches(s, s', reply, l);
    case Yield => TurnMatches(s, l);
  }

  lemma StepMatchesInRun(events: seq<Event>, replies: seq<Reply>, trace: seq<Procs>, n: nat, l: Ledger)
    requires Run(events, replies, trace) && n < |events| && Matches(trace[n], l)
    ensures l.queue != [] && replies[n] == Answer(l, events[n]) && Matches(trace[n + 1], Next(l, events[n]))
  {
    StepOfRun(events, replies, trace, n);
    StepMatches(trace[n], events[n], replies[n], trace[n + 1], l);
  }

  /** At every point of every run the kernel's state is the ledger's. */
  lemma {:induction false} KeepsLedger(events: seq<Event>, replies: seq<Reply>, trace: seq<Procs>, n: nat)
    requires Run(events, replies, trace) && n <= |events|
    ensures Matches(trace[n], After(events, n))
  {
    if n == 0 {
      BootMatches(trace[0]);
    } else {
      KeepsLedger(events, replies, trace, n - 1);
      StepMatchesInRun(events, replies, trace, n - 1, After(events, n - 1));
    }
  }

  /** In every run each answer is a function of the events before it. */
  lemma AnswersAsLedger(events: seq<Event>, replies: seq<Reply>, trace: seq<Procs>, n: nat)
    requires Run(events, replies, trace) && n < |events|
    ensures After(events, n).queue != [] && replies[n] == Answer(After(events, n), events[n])
  {
    KeepsLedger(events, replies, trace, n);
    StepMatchesInRun(events, replies, trace, n, After(events, n));
  }

  // ---- whose child a task is --------------------------------------------------------------------

  /** Task `q` was current at event `k`, a fork, and was told of child `c`. */
  ghost predicate ForkedAt(events: seq<Event>, replies: seq<Reply>, trace: seq<Procs>, k: int, q: int, c: int) {
    && 0 <= k < |events| && k < |replies| && k < |trace| && Ready(trace[k])
    && trace[k].queue[0] == q && events[k].Fork? && replies[k] == Child(c)
  }

  /** A new task is the child of the one that forked. */
  lemma ForkMakesChild(events: seq<Event>, replies: seq<Reply>, trace: seq<Procs>, k: nat)
    requires Run(events, replies, trace) && k < |events| && events[k].Fork?
    ensures Ready(trace[k]) && replies[k].Child? && replies[k].pid in trace[k + 1].tasks
    ensures trace[k + 1].tasks[replies[k].pid].parent == trace[k].queue[0]
    ensures ForkedAt(events, replies, trace, k, trace[k].queue[0], replies[k].pid)
  {
    StepOfRun(events, replies, trace, k);
    assert TaskOk(trace[k], {}, trace[k].queue[0]);
  }

  /** One event changes the parent of a task only if that parent goes. */
  lemma ParentStep(s: Procs, s': Procs, event: Event, reply: Reply, c: int, q: int)
    requires Inv(s, {}) && Inv(s', {}) && Step(s, event, reply, s') && c in s.tasks && c in s'.tasks
    requires 0 <= q < s.nextPid && s.tasks[c].parent == if q in s.tasks then q else INIT
    ensures s'.tasks[c].parent == if q in s'.tasks then q else INIT
  {
    match event
    case Wait => if reply.result.Reaped? { ReapedParentStep(s, s', reply.result.pid, c, q); }
    case Fork(_) => assert TaskOk(s, {}, s.queue[0]) && TaskOk(s, {}, c);
    case _ =>
  }

  lemma ReapedParentStep(s: Procs, s': Procs, z: int, c: int, q: int)
    requires Inv(s, {}) && Ready(s) && s.tasks[s.queue[0]].terminated != [] && z == s.tasks[s.queue[0]].terminated[0]
    requires ReapedExactly(TakeTerminated(s, s.queue[0]), s', z) && c in s.tasks && c in s'.tasks
    requires 0 <= q && s.tasks[c].parent == if q in s.tasks then q else INIT
    ensures s'.tasks[c].parent == if q in s'.tasks then q else INIT
  {
    var s0 := TakeTerminated(s, s.queue[0]);
    assert ListsOk(s, {}, s.queue[0]) && ChildOk(s, s.queue[0], z);
    InitStays(s, s0, z);
    assert q in s'.tasks <==> q in s0.tasks && !Under(s0, q, z);
  }

  lemma InitStays(s: Procs, s0: Procs, z: int)
    requires Inv(s, {}) && s0.queue == s.queue && z in s.tasks && z !in s.queue
    ensures !Under(s0, INIT, z)
  {
    assert TaskOk(s, {}, INIT);
  }

  lemma ParentStepInRun(events: seq<Event>, replies: seq<Reply>, trace: seq<Procs>, n: nat, c: int, q: int)
    requires Run(events, replies, trace) && n < |events| && c in trace[n].tasks && c in trace[n + 1].tasks
    requires 0 <= q < trace[n].nextPid && trace[n].tasks[c].parent == if q in trace[n].tasks then q else INIT
    ensures trace[n + 1].tasks[c].parent == if q in trace[n + 1].tasks then q else INIT
    ensures q < trace[n + 1].nextPid
  {
    StepOfRun(events, replies, trace, n);
    assert SoundAt(Sound, trace, n + 1);
    ParentStep(trace[n], trace[n + 1], events[n], replies[n], c, q);
    StepGrows(trace[n], trace[n + 1], events[n], replies[n]);
  }

  lemma {:induction false} PidsGrow(events: seq<Event>, replies: seq<Reply>, trace: seq<Procs>, k: nat, n: nat)
    requires Run(events, replies, trace) && k <= n <= |events|
    ensures trace[k].nextPid <= trace[n].nextPid
  {
    if k < n {
      PidsGrow(events, replies, trace, k, n - 1);
      StepOfRun(events, replies, trace, n - 1);
      StepGrows(trace[n - 1], trace[n], events[n - 1], replies[n - 1]);
    }
  }

  /** The child's pid was new, and the one that forked is still there. */
  lemma ForkedPids(events: seq<Event>, replies: seq<Reply>, trace: seq<Procs>, k: nat, q: int, c: int, n: nat)
    requires Run(events, replies, trace) && ForkedAt(events, replies, trace, k, q, c) && k < n <= |events|
    ensures 0 <= q < c < trace[n].nextPid && q in trace[k + 1].tasks && c in trace[k + 1].tasks
  {
    StepOfRun(events, replies, trace, k);
    assert TaskOk(trace[k], {}, q);
    PidsGrow(events, replies, trace, k + 1, n);
  }

  lemma ThereBefore(events: seq<Event>, replies: seq<Reply>, trace: seq<Procs>, c: int, n: nat)
    requires Run(events, replies, trace) && n < |events| && c in trace[n + 1].tasks && c < trace[n].nextPid
    ensures c in trace[n].tasks
  {
    if c !in trace[n].tasks { GoneForGood(events, replies, trace, c, n, n + 1); }
  }

  /** As long as it is there, a task is the child of whoever forked it, and of
      init once that one is gone. */
  lemma {:induction false} ForkedParent(events: seq<Event>, replies: seq<Reply>, trace: seq<Procs>, k: nat, q: int,
                                        c: int, n: nat)
    requires Run(events, replies, trace) && ForkedAt(events, replies, trace, k, q, c) && k < n <= |events|
    requires c in trace[n].tasks
    ensures trace[n].tasks[c].parent == if q in trace[n].tasks then q else INIT
  {
    ForkedPids(events, replies, trace, k, q, c, n);
    if n == k + 1 {
      ForkMakesChild(events, replies, trace, k);
    } else {
      ForkedPids(events, replies, trace, k, q, c, n - 1);
      ThereBefore(events, replies, trace, c, n - 1);
      ForkedParent(events, replies, trace, k, q, c, n - 1);
      ParentStepInRun(events, replies, trace, n - 1, c, q);
    }
  }

  lemma OrphanStep(s: Procs, s': Procs, event: Event, reply: Reply, c: int)
    requires Inv(s, {}) && Step(s, event, reply, s') && c in s.tasks && c in s'.tasks && s.tasks[c].parent == NONE
    ensures s'.tasks[c].parent == NONE
  {
    assert TaskOk(s, {}, c);
  }

  lemma OrphanStepInRun(events: seq<Event>, replies: seq<Reply>, trace: seq<Procs>, n: nat, c: int)
    requires Run(events, replies, trace) && n < |events|
    requires c in trace[n + 1].tasks && trace[n + 1].tasks[c].parent != NONE
    ensures || (c in trace[n].tasks && trace[n].tasks[c].parent != NONE)
            || (events[n].Fork? && replies[n] == Child(c))
    ensures Ready(trace[n])
  {
    StepOfRun(events, replies, trace, n);
    StepGrows(trace[n], trace[n + 1], events[n], replies[n]);
    if c in trace[n].tasks {
      if trace[n].tasks[c].parent == NONE { OrphanStep(trace[n], trace[n + 1], events[n], replies[n], c); }
    }
  }

  /** Every task but the boot tasks was forked. */
  lemma {:induction false} WasForked(events: seq<Event>, replies: seq<Reply>, trace: seq<Procs>, n: nat, c: int)
    requires Run(events, replies, trace) && n <= |events| && c in trace[n].tasks && trace[n].tasks[c].parent != NONE
    ensures exists k, q :: k < n && ForkedAt(events, replies, trace, k, q, c)
  {
    if n > 0 {
      OrphanStepInRun(events, replies, trace, n - 1, c);
      if c in trace[n - 1].tasks && trace[n - 1].tasks[c].parent != NONE {
        WasForked(events, replies, trace, n - 1, c);
      } else {
        assert ForkedAt(events, replies, trace, n - 1, trace[n - 1].queue[0], c);
      }
    }
  }

  /** At event `n` task `c` is a child of the current one: forked by it, or by a
      task that is gone if the current one is init, and still there. */
  ghost predicate ChildOfCurrent(events: seq<Event>, replies: seq<Reply>, trace: seq<Procs>, n: nat, k: int, q: int,
                                 c: int)
    requires n < |trace| && Ready(trace[n])
  {
    && k < n && ForkedAt(events, replies, trace, k, q, c) && c in trace[n].tasks
    && (q == trace[n].queue[0] || (trace[n].queue[0] == INIT && q !in trace[n].tasks))
  }

  lemma ChildOfCurrentIff(events: seq<Event>, replies: seq<Reply>, trace: seq<Procs>, n: nat, c: int)
    requires Run(events, replies, trace) && n < |events| && Ready(trace[n])
    ensures (c in trace[n].tasks && trace[n].tasks[c].parent == trace[n].queue[0]) <==>
            exists k, q :: ChildOfCurrent(events, replies, trace, n, k, q, c)
  {
    StepOfRun(events, replies, trace, n);
    assert TaskOk(trace[n], {}, trace[n].queue[0]);
    if c in trace[n].tasks && trace[n].tasks[c].parent == trace[n].queue[0] {
      WasForked(events, replies, trace, n, c);
      var k, q :| k < n && ForkedAt(events, replies, trace, k, q, c);
      ForkedParent(events, replies, trace, k, q, c, n);
      assert ChildOfCurrent(events, replies, trace, n, k, q, c);
    }
    forall k, q | ChildOfCurrent(events, replies, trace, n, k, q, c)
      ensures trace[n].tasks[c].parent == trace[n].queue[0]
    {
      ForkedParent(events, replies, trace, k, q, c, n);
    }
  }

  /** Wait finds no children exactly if none of those forked by the caller, or
      left to it as init, is still there. */
  lemma NoChildrenIff(events: seq<Event>, replies: seq<Reply>, trace: seq<Procs>, n: nat)
    requires Run(events, replies, trace) && n < |events| && events[n].Wait?
    ensures Ready(trace[n])
    ensures replies[n] == Waited(NoChildren) <==> !exists k, q, c :: ChildOfCurrent(events, replies, trace, n, k, q, c)
  {
    StepOfRun(events, replies, trace, n);
    AnswersAsLedger(events, replies, trace, n);
    KeepsLedger(events, replies, trace, n);
    var l, t := After(events, n), trace[n].queue[0];
    if c :| c in l.parent && l.parent[c] == t {
      assert EntryOk(trace[n], l, c);
      ChildOfCurrentIff(events, replies, trace, n, c);
    }
    forall k, q, c | ChildOfCurrent(events, replies, trace, n, k, q, c) ensures c in l.parent && l.parent[c] == t {
      assert EntryOk(trace[n], l, c);
      ChildOfCurrentIff(events, replies, trace, n, c);
    }
  }

  /** A task that was forked is gone only because someone was reaped with whom it
      goes: itself, or the parent it was a zombie of. */
  lemma {:induction false} GoneWasReaped(events: seq<Event>, replies: seq<Reply>, trace: seq<Procs>, k: nat, q: int,
                                         c: int, n: nat)
    requires Run(events, replies, trace) && ForkedAt(events, replies, trace, k, q, c) && k < n <= |events|
    requires c !in trace[n].tasks
    ensures exists m, z :: k < m < n && ReapedWith(events, replies, m, z, c)
  {
    ForkedPids(events, replies, trace, k, q, c, n);
    if c !in trace[n - 1].tasks && k + 1 < n {
      GoneWasReaped(events, replies, trace, k, q, c, n - 1);
    } else {
      LeavesWith(events, replies, trace, n - 1, c);
    }
  }

  ghost predicate ReapedWith(events: seq<Event>, replies: seq<Reply>, m: int, z: int, c: int) {
    && 0 <= m < |events| && m < |replies| && replies[m].Waited? && replies[m].result.Reaped?
    && replies[m].result.pid == z && Goes(After(events, m), c, z)
  }

  lemma LeavesWith(events: seq<Event>, replies: seq<Reply>, trace: seq<Procs>, m: nat, c: int)
    requires Run(events, replies, trace) && m < |events| && c in trace[m].tasks && c !in trace[m + 1].tasks
    ensures exists z :: ReapedWith(events, replies, m, z, c)
  {
    StepOfRun(events, replies, trace, m);
    KeepsLedger(events, replies, trace, m);
    var s := trace[m];
    assert events[m].Wait? && replies[m].result.Reaped?;
    GoesIsUnder(s, After(events, m), TakeTerminated(s, s.queue[0]), c, replies[m].result.pid);
    assert ReapedWith(events, replies, m, replies[m].result.pid, c);
  }

  // ---- the oldest zombie first ----------------------------------------------------------------------

  ghost predicate Before(zs: seq<int>, x: int, y: int) {
    exists i, j :: 0 <= i < j < |zs| && zs[i] == x && zs[j] == y
  }

  lemma BeforeSnoc(zs: seq<int>, x: int, y: int, t: int)
    requires Before(zs, x, y)
    ensures Before(zs + [t], x, y)
  {
    var i, j :| 0 <= i < j < |zs| && zs[i] == x && zs[j] == y;
    assert (zs + [t])[i] == x && (zs + [t])[j] == y;
  }

  lemma LastBefore(zs: seq<int>, x: int, t: int)
    requires x in zs
    ensures Before(zs + [t], x, t)
  {
    var i :| 0 <= i < |zs| && zs[i] == x;
    assert (zs + [t])[i] == x && (zs + [t])[|zs|] == t;
  }

  lemma {:induction false} BeforeRemaining(l: Ledger, zs: seq<int>, z: int, x: int, y: int)
    requires Before(zs, x, y) && !Goes(l, x, z) && !Goes(l, y, z)
    ensures Before(Remaining(l, zs, z), x, y)
  {
    var i, j :| 0 <= i < j < |zs| && zs[i] == x && zs[j] == y;
    var rest := Remaining(l, zs[1..], z);
    if i > 0 {
      assert zs[1..][i - 1] == x && zs[1..][j - 1] == y;
      BeforeRemaining(l, zs[1..], z, x, y);
      var a, b :| 0 <= a < b < |rest| && rest[a] == x && rest[b] == y;
      assert ([zs[0]] + rest)[a + 1] == x && ([zs[0]] + rest)[b + 1] == y;
    } else {
      assert zs[1..][j - 1] == y;
      RemainingMember(l, zs[1..], z, y);
      var b :| 0 <= b < |rest| && rest[b] == y;
      assert ([zs[0]] + rest)[0] == x && ([zs[0]] + rest)[b + 1] == y;
    }
  }

  lemma {:induction false} FirstOf(zs: seq<int>, parent: map<int, int>, p: int, x: int, y: int)
    requires Before(zs, x, y) && Distinct(zs) && x in parent && parent[x] == p
    ensures Of(zs, parent, p) != [] && Of(zs, parent, p)[0] != y
  {
    var i, j :| 0 <= i < j < |zs| && zs[i] == x && zs[j] == y;
    if i > 0 && !(zs[0] in parent && parent[zs[0]] == p) {
      assert zs[1..][i - 1] == x && zs[1..][j - 1] == y;
      FirstOf(zs[1..], parent, p, x, y);
    }
  }

  lemma {:induction false} ExitsInOrder(events: seq<Event>, replies: seq<Reply>, trace: seq<Procs>, a: nat, b: nat,
                                        x: int, y: int, m: nat)
    requires Run(events, replies, trace) && a < b < m <= |events|
    requires events[a].Exit? && Ready(trace[a]) && trace[a].queue[0] == x
    requires events[b].Exit? && Ready(trace[b]) && trace[b].queue[0] == y
    requires x in After(events, m).zombies && y in After(events, m).zombies
    ensures Before(After(events, m).zombies, x, y)
  {
    ExitCodeKept(events, replies, trace, a, m - 1);
    ZombieBefore(events, replies, trace, m - 1, x);
    if b == m - 1 {
      ZombiesNext(events, replies, trace, b);
      LastBefore(After(events, b).zombies, x, y);
    } else {
      ExitCodeKept(events, replies, trace, b, m - 1);
      ZombieBefore(events, replies, trace, m - 1, y);
      ExitsInOrder(events, replies, trace, a, b, x, y, m - 1);
      BeforeNext(events, replies, trace, m - 1, x, y);
    }
  }

  lemma BeforeNext(events: seq<Event>, replies: seq<Reply>, trace: seq<Procs>, n: nat, x: int, y: int)
    requires Run(events, replies, trace) && n < |events| && Before(After(events, n).zombies, x, y)
    requires x in After(events, n + 1).zombies && y in After(events, n + 1).zombies
    ensures Before(After(events, n + 1).zombies, x, y)
  {
    ZombiesNext(events, replies, trace, n);
    var l := After(events, n);
    if events[n].Exit? {
      BeforeSnoc(l.zombies, x, y, l.queue[0]);
    } else if replies[n].Waited? && replies[n].result.Reaped? {
      RemainingMember(l, l.zombies, replies[n].result.pid, x);
      RemainingMember(l, l.zombies, replies[n].result.pid, y);
      BeforeRemaining(l, l.zombies, replies[n].result.pid, x, y);
    }
  }

  /** What one event does to the list of zombies. */
  lemma ZombiesNext(events: seq<Event>, replies: seq<Reply>, trace: seq<Procs>, n: nat)
    requires Run(events, replies, trace) && n < |events|
    ensures var l, l' := After(events, n), After(events, n + 1);
            && l.queue != [] && l.queue == trace[n].queue
            && l'.zombies ==
               if events[n].Exit? then l.zombies + [l.queue[0]]
               else if replies[n].Waited? && replies[n].result.Reaped? then
                 Remaining(l, l.zombies, replies[n].result.pid)
               else l.zombies
  {
    AnswersAsLedger(events, replies, trace, n);
    KeepsLedger(events, replies, trace, n);
  }

  lemma ZombieBefore(events: seq<Event>, replies: seq<Reply>, trace: seq<Procs>, n: nat, x: int)
    requires Run(events, replies, trace) && n < |events| && x in After(events, n + 1).zombies && x !in trace[n].queue
    ensures x in After(events, n).zombies
  {
    ZombiesNext(events, replies, trace, n);
    var l := After(events, n);
    if replies[n].Waited? && replies[n].result.Reaped? {
      RemainingMember(l, l.zombies, replies[n].result.pid, x);
    }
  }

  lemma ReportsFirst(events: seq<Event>, replies: seq<Reply>, trace: seq<Procs>, m: nat)
    requires Run(events, replies, trace) && m < |events| && replies[m].Waited? && replies[m].result.Reaped?
    ensures var l := After(events, m);
            && l.queue != [] && Of(l.zombies, l.parent, l.queue[0]) != [] && Distinct(l.zombies)
            && replies[m].result.pid == Of(l.zombies, l.parent, l.queue[0])[0] && replies[m].result.pid in l.zombies
  {
    var l := After(events, m);
    AnswersAsLedger(events, replies, trace, m);
    KeepsLedger(events, replies, trace, m);
    OfMember(l.zombies, l.parent, l.queue[0], replies[m].result.pid);
  }

  /** Of the children that have exited, wait reports the one that did so first. */
  lemma OldestFirst(events: seq<Event>, replies: seq<Reply>, trace: seq<Procs>, m: nat, a: nat, b: nat, c: int)
    requires Run(events, replies, trace) && m < |events| && replies[m].Waited? && replies[m].result.Reaped?
    requires Ready(trace[m]) && c in trace[m].tasks && trace[m].tasks[c].parent == trace[m].queue[0]
    requires c != replies[m].result.pid && a < m && b < m
    requires events[a].Exit? && Ready(trace[a]) && trace[a].queue[0] == replies[m].result.pid
    requires events[b].Exit? && Ready(trace[b]) && trace[b].queue[0] == c
    ensures a < b
  {
    var l, z := After(events, m), replies[m].result.pid;
    ReportsFirst(events, replies, trace, m);
    KeepsLedger(events, replies, trace, m);
    ExitCodeKept(events, replies, trace, b, m);
    assert EntryOk(trace[m], l, c);
    if b < a {
      ExitsInOrder(events, replies, trace, b, a, c, z, m);
      FirstOf(l.zombies, l.parent, l.queue[0], c, z);
    }
  }
}
