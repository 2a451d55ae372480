/** The process tree and run queue as a value: who owns each task, who its
    parent is, and what every reachable state has in common. */
module ProcessTree {
  import opened Lists

  const NONE: int := -1
  const IDLE: int := 0
  const INIT: int := 1
  const KTHREADD: int := 2

  /** A task, named by its pid; `parent` is NONE for the boot tasks. */
  datatype Task = Task(parent: int, active: seq<int>, terminated: seq<int>, errorCode: int)

  datatype Procs = Procs(tasks: map<int, Task>, queue: seq<int>, nextPid: int)

  /** The parent of `t` exists, is older, and has `t` on the right list: among
      its active children while `t` can run, else among the terminated ones. A
      task in `dying` is being destroyed and is on no list. */
  ghost predicate TaskOk(s: Procs, dying: set<int>, t: int)
    requires t in s.tasks
  {
    && 0 <= t < s.nextPid
    && (s.tasks[t].parent == NONE ==> t in s.queue)
    && (t in dying ==> t !in s.queue && t != INIT)
    && (s.tasks[t].parent != NONE ==> 0 <= s.tasks[t].parent < t)
    && (s.tasks[t].parent != NONE && t !in dying ==>
          s.tasks[t].parent in s.tasks &&
          if t in s.queue then t in s.tasks[s.tasks[t].parent].active else t in s.tasks[s.tasks[t].parent].terminated)
  }

  /** Everything on a task's lists is its child, in the right state. */
  ghost predicate ListsOk(s: Procs, dying: set<int>, p: int)
    requires p in s.tasks
  {
    && Distinct(s.tasks[p].active) && Distinct(s.tasks[p].terminated)
    && (forall c | c in s.tasks[p].active :: ChildOk(s, p, c) && c in s.queue)
    && (forall c | c in s.tasks[p].terminated :: ChildOk(s, p, c) && c !in s.queue && c !in dying)
  }

  ghost predicate ChildOk(s: Procs, p: int, c: int) {
    c in s.tasks && s.tasks[c].parent == p
  }

  ghost predicate Inv(s: Procs, dying: set<int>) {
    && Distinct(s.queue)
    && (forall t | t in s.queue :: t in s.tasks)
    && INIT in s.tasks && s.tasks[INIT].parent == NONE && s.nextPid >= 3
    && (forall t {:trigger TaskOk(s, dying, t)} | t in s.tasks :: TaskOk(s, dying, t))
    && (forall p {:trigger ListsOk(s, dying, p)} | p in s.tasks :: ListsOk(s, dying, p))
  }

  // ---- ownership -------------------------------------------------------------------

  /** A task has one owner: the run queue, or its parent's terminated list. */
  lemma OneOwner(s: Procs, t: int)
    requires Inv(s, {}) && t in s.tasks
    ensures t in s.queue <==> !exists p :: p in s.tasks && t in s.tasks[p].terminated
    ensures forall p, q |
              p in s.tasks && q in s.tasks && t in s.tasks[p].terminated && t in s.tasks[q].terminated :: p == q
  {
    assert TaskOk(s, {}, t);
    forall p | p in s.tasks && t in s.tasks[p].terminated
      ensures t !in s.queue && s.tasks[t].parent == p
    {
      assert ListsOk(s, {}, p) && ChildOk(s, p, t);
    }
  }

  /** A live task that has a parent is an active child of exactly that task. */
  lemma OneActiveParent(s: Procs, t: int, p: int)
    requires Inv(s, {}) && t in s.queue && p in s.tasks
    ensures t in s.tasks && (t in s.tasks[p].active <==> s.tasks[t].parent == p)
  {
    assert TaskOk(s, {}, t) && ListsOk(s, {}, p);
    assert t in s.tasks[p].active ==> ChildOk(s, p, t);
    assert s.tasks[t].parent == p ==> TaskOk(s, {}, p);
  }

  // ---- list updates ----------------------------------------------------------------

  lemma DistinctSnoc(l: seq<int>, x: int)
    requires Distinct(l) && x !in l
    ensures Distinct(l + [x])
  {
  }

  // ---- fork, exit --------------------------------------------------------------------

  /** A new task is constructed as a child of `p`. */
  function Construct(s: Procs, p: int): Procs
    requires p in s.tasks
  {
    var c := s.nextPid;
    s.(tasks := s.tasks[c := Task(p, [], [], 0)][p := s.tasks[p].(active := s.tasks[p].active + [c])], nextPid := c + 1)
  }

  /** Construct the child and put it at the end of the run queue. */
  function Forked(s: Procs, p: int): Procs
    requires p in s.tasks
  {
    Construct(s, p).(queue := s.queue + [s.nextPid])
  }

  lemma ForkKeepsInv(s: Procs, p: int)
    requires Inv(s, {}) && p in s.tasks
    ensures p != s.nextPid && Inv(Forked(s, p), {})
  {
    var s' := Forked(s, p);
    var c := s.nextPid;
    assert TaskOk(s, {}, p);
    assert c !in s.tasks by { assert c in s.tasks ==> TaskOk(s, {}, c); }
    assert forall t :: t in s'.queue <==> t in s.queue || t == c;
    forall t | t in s'.tasks ensures TaskOk(s', {}, t) {
      if t != c { assert TaskOk(s, {}, t); }
    }
    forall q | q in s'.tasks ensures ListsOk(s', {}, q) {
      if q != c {
        assert ListsOk(s, {}, q);
        forall x | x in s.tasks[q].active ensures ChildOk(s', q, x) { assert ChildOk(s, q, x); }
        forall x | x in s.tasks[q].terminated ensures ChildOk(s', q, x) && x !in s'.queue { assert ChildOk(s, q, x); }
      }
    }
  }

  /** If the child's stack pages cannot be had, it is destroyed again, but its
      parent still lists it as an active child. */
  function ForkAborted(s: Procs, p: int): Procs
    requires p in s.tasks
  {
    var s1 := Construct(s, p);
    s1.(tasks := s1.tasks - {s.nextPid})
  }

  /** Fork keeps the invariant exactly when the child's stacks were allocated. */
  lemma ForkKeepsInvIff(s: Procs, p: int, stacks: bool)
    requires Inv(s, {}) && p in s.tasks
    ensures Inv(if stacks then Forked(s, p) else ForkAborted(s, p), {}) <==> stacks
  {
    ForkKeepsInv(s, p);
    var s' := ForkAborted(s, p);
    var c := s.nextPid;
    assert c in s'.tasks[p].active && c !in s'.tasks;
    assert p in s'.tasks && (ListsOk(s', {}, p) ==> ChildOk(s', p, c));
  }

  /** A running child of some task terminates: it moves from its parent's
      active children to the terminated ones, and leaves the run queue. */
  predicate HasParent(s: Procs, t: int) {
    t in s.tasks && s.tasks[t].parent in s.tasks && s.tasks[t].parent != t
  }

  function Exited(s: Procs, t: int, code: int): Procs
    requires HasParent(s, t)
  {
    var p := s.tasks[t].parent;
    var tp := s.tasks[p];
    s.(tasks := s.tasks[t := s.tasks[t].(errorCode := code)]
                       [p := tp.(active := RemoveFirst(tp.active, t), terminated := tp.terminated + [t])],
       queue := RemoveFirst(s.queue, t))
  }

  lemma ExitKeepsInv(s: Procs, t: int, code: int)
    requires Inv(s, {}) && t in s.queue && s.tasks[t].parent != NONE
    ensures HasParent(s, t) && Inv(Exited(s, t, code), {})
    ensures t in Exited(s, t, code).tasks[s.tasks[t].parent].terminated
  {
    assert TaskOk(s, {}, t);
    var p := s.tasks[t].parent;
    var s' := Exited(s, t, code);
    RemoveFirstSpec(s.queue, t);
    assert ListsOk(s, {}, p) && ListsOk(s, {}, t);
    RemoveFirstSpec(s.tasks[p].active, t);
    assert t !in s.tasks[p].terminated by { assert t in s.tasks[p].terminated ==> ChildOk(s, p, t); }
    DistinctSnoc(s.tasks[p].terminated, t);
    forall x | x in s'.tasks ensures TaskOk(s', {}, x) {
      assert TaskOk(s, {}, x);
    }
    forall q | q in s'.tasks ensures ListsOk(s', {}, q) {
      ExitLists(s, t, code, q);
    }
  }

  lemma ExitLists(s: Procs, t: int, code: int, q: int)
    requires Inv(s, {}) && t in s.queue && s.tasks[t].parent in s.tasks && s.tasks[t].parent != t && q in s.tasks
    requires forall y :: y in RemoveFirst(s.queue, t) <==> y in s.queue && y != t
    requires var p := s.tasks[t].parent;
             && (forall y :: y in RemoveFirst(s.tasks[p].active, t) <==> y in s.tasks[p].active && y != t)
             && Distinct(RemoveFirst(s.tasks[p].active, t)) && Distinct(s.tasks[p].terminated + [t])
    ensures ListsOk(Exited(s, t, code), {}, q)
  {
    var p := s.tasks[t].parent;
    var s' := Exited(s, t, code);
    assert ListsOk(s, {}, q);
    forall x | x in s'.tasks[q].active ensures ChildOk(s', q, x) && x in s'.queue {
      assert ChildOk(s, q, x);
    }
    forall x | x in s'.tasks[q].terminated ensures ChildOk(s', q, x) && x !in s'.queue {
      assert x == t || ChildOk(s, q, x);
    }
  }

  // ---- destroying a reaped task --------------------------------------------------------

  /** `t` is owned by `z`, directly or through other terminated tasks. */
  ghost predicate Under(s: Procs, t: int, z: int)
    decreases t
  {
    t == z ||
    (0 <= t && t in s.tasks && t !in s.queue && 0 <= s.tasks[t].parent < t && Under(s, s.tasks[t].parent, z))
  }

  /** Init adopts the first active child of `z`. */
  function AdoptFirst(s: Procs, z: int): Procs
    requires z in s.tasks && INIT in s.tasks && z != INIT && s.tasks[z].active != [] && s.tasks[z].active[0] in s.tasks
  {
    var c := s.tasks[z].active[0];
    var given := s.tasks[z := s.tasks[z].(active := s.tasks[z].active[1..])];
    var taken := given[INIT := given[INIT].(active := given[INIT].active + [c])];
    s.(tasks := taken[c := taken[c].(parent := INIT)])
  }

  lemma AdoptKeepsInv(s: Procs, dying: set<int>, z: int)
    requires Inv(s, dying) && z in s.tasks && z in dying && s.tasks[z].active != []
    ensures z != INIT && s.tasks[z].active[0] in s.tasks && s.tasks[z].active[0] in s.queue &&
            s.tasks[z].active[0] != INIT
    ensures s.tasks[s.tasks[z].active[0]].parent == z
    ensures Inv(AdoptFirst(s, z), dying)
  {
    assert TaskOk(s, dying, z) && ListsOk(s, dying, z);
    var c := s.tasks[z].active[0];
    assert ChildOk(s, z, c) && TaskOk(s, dying, c);
    var s' := AdoptFirst(s, z);
    assert s.tasks[z].active == [c] + s.tasks[z].active[1..];
    assert ListsOk(s, dying, INIT) && ListsOk(s, dying, c);
    assert c !in s.tasks[INIT].active by { assert c in s.tasks[INIT].active ==> ChildOk(s, INIT, c); }
    DistinctSnoc(s.tasks[INIT].active, c);
    forall x | x in s'.tasks ensures TaskOk(s', dying, x) {
      AdoptTask(s, dying, z, c, x);
    }
    forall q | q in s'.tasks ensures ListsOk(s', dying, q) {
      AdoptLists(s, dying, z, c, q);
    }
  }

  lemma AdoptTask(s: Procs, dying: set<int>, z: int, c: int, x: int)
    requires Inv(s, dying) && z in s.tasks && z in dying && s.tasks[z].active != [] && c == s.tasks[z].active[0]
    requires z != INIT && c in s.tasks && c in s.queue && s.tasks[c].parent == z && c > INIT && x in s.tasks
    requires c !in dying
    ensures TaskOk(AdoptFirst(s, z), dying, x)
  {
    assert TaskOk(s, dying, x);
    assert s.tasks[z].active == [c] + s.tasks[z].active[1..];
  }

  lemma AdoptLists(s: Procs, dying: set<int>, z: int, c: int, q: int)
    requires Inv(s, dying) && z in s.tasks && z in dying && s.tasks[z].active != [] && c == s.tasks[z].active[0]
    requires z != INIT && c in s.tasks && c in s.queue && s.tasks[c].parent == z && c > INIT && q in s.tasks
    requires Distinct(s.tasks[INIT].active + [c])
    ensures ListsOk(AdoptFirst(s, z), dying, q)
  {
    var s' := AdoptFirst(s, z);
    assert ListsOk(s, dying, q);
    assert s.tasks[z].active == [c] + s.tasks[z].active[1..];
    forall x | x in s'.tasks[q].active ensures ChildOk(s', q, x) && x in s'.queue {
      assert x in s.tasks[q].active ==> ChildOk(s, q, x);
    }
    forall x | x in s'.tasks[q].terminated ensures ChildOk(s', q, x) && x !in s'.queue && x !in dying {
      assert ChildOk(s, q, x);
    }
  }

  /** The first terminated child of `z` is taken off its list to be destroyed. */
  function TakeTerminated(s: Procs, z: int): Procs
    requires z in s.tasks && s.tasks[z].terminated != []
  {
    s.(tasks := s.tasks[z := s.tasks[z].(terminated := s.tasks[z].terminated[1..])])
  }

  lemma TakeTerminatedKeepsInv(s: Procs, dying: set<int>, z: int)
    requires Inv(s, dying) && z in s.tasks && s.tasks[z].terminated != []
    ensures var y := s.tasks[z].terminated[0];
            && Inv(TakeTerminated(s, z), dying + {y}) && y in s.tasks && y !in s.queue && y !in dying
            && s.tasks[y].parent == z && 0 <= z < y < s.nextPid
  {
    var y := s.tasks[z].terminated[0];
    var s' := TakeTerminated(s, z);
    assert ListsOk(s, dying, z) && ChildOk(s, z, y) && TaskOk(s, dying, y) && TaskOk(s, dying, z);
    assert s.tasks[z].terminated == [y] + s.tasks[z].terminated[1..];
    forall x | x in s'.tasks ensures TaskOk(s', dying + {y}, x) {
      assert TaskOk(s, dying, x);
    }
    forall q | q in s'.tasks ensures ListsOk(s', dying + {y}, q) {
      assert ListsOk(s, dying, q);
      forall x | x in s'.tasks[q].active ensures ChildOk(s', q, x) { assert ChildOk(s, q, x); }
      forall x | x in s'.tasks[q].terminated ensures ChildOk(s', q, x) && x != y { assert ChildOk(s, q, x); }
    }
  }

  /** A dying task with no children left goes away. */
  lemma DropKeepsInv(s: Procs, dying: set<int>, z: int)
    requires Inv(s, dying) && z in s.tasks && z in dying && s.tasks[z].active == [] && s.tasks[z].terminated == []
    ensures Inv(s.(tasks := s.tasks - {z}), dying - {z})
  {
    var s' := s.(tasks := s.tasks - {z});
    assert TaskOk(s, dying, z);
    forall x | x in s'.tasks ensures TaskOk(s', dying - {z}, x) {
      assert TaskOk(s, dying, x);
    }
    forall q | q in s'.tasks ensures ListsOk(s', dying - {z}, q) {
      assert ListsOk(s, dying, q);
      forall x | x in s'.tasks[q].active ensures ChildOk(s', q, x) { assert ChildOk(s, q, x); }
      forall x | x in s'.tasks[q].terminated ensures ChildOk(s', q, x) { assert ChildOk(s, q, x); }
    }
  }

  lemma {:induction false} UnderIsYounger(s: Procs, t: int, z: int)
    requires Under(s, t, z)
    ensures t >= z
    decreases t
  {
    if t != z {
      UnderIsYounger(s, s.tasks[t].parent, z);
    }
  }

  /** Task `t` has come through the destruction of `z`: it keeps everything but
      a parent that was destroyed, for which init stands in. */
  ghost predicate Kept(s0: Procs, s: Procs, z: int, t: int)
    requires t in s0.tasks && t in s.tasks
  {
    var a, b := s0.tasks[t], s.tasks[t];
    && b.errorCode == a.errorCode
    && (b.parent == a.parent || (b.parent == INIT && t in s0.queue && a.parent != NONE && Under(s0, a.parent, z)))
    && (t != z ==> b.terminated == a.terminated)
    && (t != z && t != INIT ==> b.active == a.active)
    && (t == INIT ==> a.active <= b.active)
  }

  /** Only tasks owned by `z` have gone, and all others are kept. */
  ghost predicate Reaping(s0: Procs, s: Procs, z: int) {
    && s.queue == s0.queue && s.nextPid == s0.nextPid
    && (forall t {:trigger t in s.tasks} | t in s.tasks :: t in s0.tasks)
    && (forall t {:trigger Kept(s0, s, z, t)} | t in s.tasks :: Kept(s0, s, z, t))
    && (forall t {:trigger Under(s0, t, z)} | t in s0.tasks && t !in s.tasks :: Under(s0, t, z))
  }

  lemma ReapingAdopt(s0: Procs, s: Procs, z: int, dying: set<int>)
    requires Inv(s, dying) && z in s.tasks && z in dying && s.tasks[z].active != [] && Reaping(s0, s, z)
    requires z != INIT && s.tasks[z].active[0] in s.tasks && s.tasks[z].active[0] in s.queue &&
             INIT != s.tasks[z].active[0]
    requires s.tasks[s.tasks[z].active[0]].parent == z
    ensures Reaping(s0, AdoptFirst(s, z), z)
  {
    var s' := AdoptFirst(s, z);
    var c := s.tasks[z].active[0];
    assert TaskOk(s, dying, z);
    forall t | t in s'.tasks ensures Kept(s0, s', z, t) {
      assert Kept(s0, s, z, t);
    }
  }

  /** What a nested terminated task owns is owned by the outer one. */
  lemma {:induction false} UnderLift(s0: Procs, s1: Procs, z: int, y: int, t: int)
    requires s1.queue == s0.queue && Under(s1, t, y)
    requires y in s0.tasks && y !in s0.queue && s0.tasks[y].parent == z && 0 <= z < y
    requires forall x | x in s1.tasks && x !in s1.queue :: x in s0.tasks && s0.tasks[x].parent == s1.tasks[x].parent
    ensures Under(s0, t, z)
    decreases t
  {
    if t == y {
      assert Under(s0, z, z);
    } else {
      UnderLift(s0, s1, z, y, s1.tasks[t].parent);
    }
  }

  lemma ReapingNested(s0: Procs, s: Procs, s1: Procs, s2: Procs, z: int, y: int)
    requires Reaping(s0, s, z) && z in s.tasks && s.tasks[z].terminated != []
    requires y == s.tasks[z].terminated[0] && s1 == TakeTerminated(s, z) && y !in s2.tasks
    requires y in s0.tasks && y !in s0.queue && s0.tasks[y].parent == z && 0 <= z < y && y != INIT
    requires Reaping(s1, s2, y)
    ensures Reaping(s0, s2, z) && z in s2.tasks
  {
    forall x | x in s1.tasks && x !in s1.queue
      ensures x in s0.tasks && s0.tasks[x].parent == s1.tasks[x].parent
    {
      assert Kept(s0, s, z, x);
    }
    forall t | t in s2.tasks ensures Kept(s0, s2, z, t) {
      assert t in s1.tasks && t in s.tasks;
      assert Kept(s1, s2, y, t) && Kept(s0, s, z, t);
      var p := s1.tasks[t].parent;
      if s2.tasks[t].parent != p {
        UnderIsYounger(s1, p, y);
        UnderLift(s0, s1, z, y, p);
      }
    }
    forall t | t in s0.tasks && t !in s2.tasks ensures Under(s0, t, z) {
      if t in s.tasks {
        assert t in s1.tasks && Under(s1, t, y);
        UnderLift(s0, s1, z, y, t);
      }
    }
    if z !in s2.tasks {
      assert z in s1.tasks && Under(s1, z, y);
      UnderIsYounger(s1, z, y);
    }
  }

  /** In the end exactly what `z` owned is gone. */
  lemma {:induction false} OwnedIsGone(s0: Procs, s: Procs, z: int, t: int)
    requires Reaping(s0, s, z) && Inv(s, {}) && z !in s.tasks && Under(s0, t, z)
    ensures t !in s.tasks
    decreases t
  {
    if t != z {
      OwnedIsGone(s0, s, z, s0.tasks[t].parent);
      assert t in s.tasks ==> Kept(s0, s, z, t) && TaskOk(s, {}, t);
    }
  }

  /** The destruction of `z`, as one step. */
  ghost predicate ReapedExactly(s0: Procs, s: Procs, z: int) {
    && (forall t :: t in s.tasks <==> t in s0.tasks && !Under(s0, t, z))
    && (forall t | t in s.tasks :: s.tasks[t].parent ==
          if s0.tasks[t].parent != NONE && Under(s0, s0.tasks[t].parent, z) then INIT else s0.tasks[t].parent)
    && (forall t | t in s.tasks :: s.tasks[t].errorCode == s0.tasks[t].errorCode)
    && (forall t | t in s.tasks :: s.tasks[t].terminated == s0.tasks[t].terminated)
    && (forall t | t in s.tasks && t != INIT :: s.tasks[t].active == s0.tasks[t].active)
    && (INIT in s.tasks ==> s0.tasks[INIT].active <= s.tasks[INIT].active)
  }

  lemma ReapingExact(s0: Procs, s: Procs, z: int)
    requires Reaping(s0, s, z) && Inv(s, {}) && z !in s.tasks
    ensures ReapedExactly(s0, s, z)
  {
    forall t ensures t in s.tasks <==> t in s0.tasks && !Under(s0, t, z) {
      if Under(s0, t, z) { OwnedIsGone(s0, s, z, t); }
    }
    forall t | t in s.tasks
      ensures s.tasks[t].parent ==
        if s0.tasks[t].parent != NONE && Under(s0, s0.tasks[t].parent, z) then INIT else s0.tasks[t].parent
    {
      assert Kept(s0, s, z, t) && TaskOk(s, {}, t);
      if s0.tasks[t].parent != NONE && Under(s0, s0.tasks[t].parent, z) {
        OwnedIsGone(s0, s, z, s0.tasks[t].parent);
      }
    }
    forall t | t in s.tasks
      ensures s.tasks[t].errorCode == s0.tasks[t].errorCode && s.tasks[t].terminated == s0.tasks[t].terminated
      ensures t != INIT ==> s.tasks[t].active == s0.tasks[t].active
    {
      assert Kept(s0, s, z, t);
    }
    assert INIT in s.tasks ==> Kept(s0, s, z, INIT);
  }

  // ---- descendants of init --------------------------------------------------------------

  /** `t` is reached from init through active children only. */
  ghost predicate Descends(s: Procs, t: int)
    decreases t
  {
    && 0 <= t && t in s.tasks && 0 <= s.tasks[t].parent < t && s.tasks[t].parent in s.tasks
    && t in s.tasks[s.tasks[t].parent].active
    && (s.tasks[t].parent == INIT || Descends(s, s.tasks[t].parent))
  }
}
