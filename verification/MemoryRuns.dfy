/** Whole runs over address spaces. A run is any list of operations on any
    number of spaces; what loads and stores answer is compared with a machine
    in which fork copies every page at once. */
module MemoryRuns {
  import opened PageTables
  import opened TreeWalks
  import opened Descriptors
  import opened PhysicalMemory
  import opened VirtualMemory
  import opened Runs

  datatype Op =
    | Create
    | MapPage(space: int, v: nat, bytes: seq<Byte>, attr: Attr)
    | UnmapPage(space: int, v: nat)
    | Fork(parent: int)
    | Load(space: int, v: nat)
    | Store(space: int, v: nat, b: Byte)
    | Clear(space: int)
    | Destroy(space: int)

  /** Refused stands for operations the kernel cannot be asked for: on a space
      that does not exist, mapping a page twice, or with too few free frames. */
  datatype Reply = Done | Made(space: int) | Value(b: Byte) | Fault | Refused

  // ---- the eager machine ---------------------------------------------------------------

  /** What a load or store answers when every page is private. */
  function EagerReply(e: Eager, op: Op): Reply
    requires op.Load? || op.Store?
  {
    var k := KeyOf(op.space, op.v);
    if op.Load? then
      if k in e && |e[k].bytes| == PAGE_SIZE then Value(e[k].bytes[op.v % PAGE_SIZE]) else Fault
    else if k in e && e[k].admitsWrite then Done else Fault
  }

  /** The pages after an operation; only the name of a new space is taken from
      the reply. */
  function EagerStep(e: Eager, op: Op, reply: Reply): Eager {
    if reply.Refused? || reply.Fault? then e
    else
      match op
      case Create => e
      case MapPage(space, v, bytes, attr) => e[KeyOf(space, v) := Page(bytes, !attr.readOnly)]
      case UnmapPage(space, v) => e - {KeyOf(space, v)}
      case Fork(parent) => if reply.Made? then EagerFork(e, parent, reply.space) else e
      case Load(_, _) => e
      case Store(space, v, b) =>
        var k := KeyOf(space, v);
        if k in e && |e[k].bytes| == PAGE_SIZE then EagerStore(e, k, v % PAGE_SIZE, b) else e
      case Clear(space) => EagerReset(e, space)
      case Destroy(space) => EagerReset(e, space)
  }

  /** The pages after the first `n` operations of a run. */
  function EagerAfter(ops: seq<Op>, replies: seq<Reply>, n: nat): Eager
    requires n <= |ops| && n <= |replies|
  {
    if n == 0 then map[] else EagerStep(EagerAfter(ops, replies, n - 1), ops[n - 1], replies[n - 1])
  }

  /** The spaces there are after the first `n` operations. */
  function SpacesAfter(ops: seq<Op>, replies: seq<Reply>, n: nat): set<int>
    requires n <= |ops| && n <= |replies|
  {
    if n == 0 then {} else NextSpaces(SpacesAfter(ops, replies, n - 1), ops[n - 1], replies[n - 1])
  }

  function NextSpaces(spaces: set<int>, op: Op, reply: Reply): set<int> {
    if reply.Made? && (op.Create? || op.Fork?) then spaces + {reply.space}
    else if op.Destroy? && reply.Done? then spaces - {op.space}
    else spaces
  }

  // ---- what the kernel can be asked for ---------------------------------------------------

  ghost predicate IsSpace(s: Sys, space: int) { Key(space, []) in s.at && space != NONE }

  /** The operation makes sense: its space exists, and a page to be mapped or
      unmapped is free or mapped. */
  ghost predicate Meaningful(s: Sys, op: Op) {
    match op
    case Create => true
    case MapPage(space, v, bytes, _) => IsSpace(s, space) && KeyOf(space, v) !in s.leaf && |bytes| == PAGE_SIZE
    case UnmapPage(space, v) => IsSpace(s, space) && KeyOf(space, v) in s.leaf
    case Fork(parent) => IsSpace(s, parent)
    case Load(space, _) => IsSpace(s, space)
    case Store(space, _, _) => IsSpace(s, space)
    case Clear(space) => IsSpace(s, space)
    case Destroy(space) => IsSpace(s, space)
  }

  /** The frames it takes: tables to be added, a page to be filled or copied. */
  ghost function Cost(s: Sys, op: Op): nat {
    match op
    case Create => 1
    case MapPage(space, v, _, _) => 1 + Missing(s.at, KeyOf(space, v), 1)
    case Fork(parent) => 1 + |Passed(s.at, parent, [], NR_ENTRIES)|
    case Store(space, v, _) => if Writable(s, KeyOf(space, v)) then StoreCost(s, KeyOf(space, v)) else 0
    case _ => 0
  }

  ghost predicate Writable(s: Sys, k: Key) { k in s.leaf && (!s.leaf[k].readOnly || s.leaf[k].cow) }

  ghost predicate Possible(s: Sys, op: Op) { Meaningful(s, op) && Cost(s, op) <= |s.free| }

  /** Tables below a table, as fork will have to copy them. */
  method CountTables(m: Memory, t: int, level: nat, ghost here: Key) returns (n: nat)
    requires Inv(m.View(), NONE) && here in m.at && t == m.at[here] && level == |here.path| && here.space != NONE
    ensures n == |Passed(m.at, here.space, here.path, NR_ENTRIES)|
    decreases 3 - level
  {
    ghost var s := m.View();
    assert TableOk(s, here);
    NonePassed(s, here.space, here.path);
    n := 0;
    for i := 0 to NR_ENTRIES
      invariant n == |Passed(s.at, here.space, here.path, i)|
    {
      ghost var c := Child(here, i);
      PassedStep(s, here.space, here.path, i);
      assert EntryKnown(s, here, i) && (c in s.at ==> TableOk(s, c));
      ChildParent(here, i);
      var d := m.ram.ReadEntry(t, i);
      if d.valid && level < 3 {
        var below := CountTables(m, d.frame, level + 1, c);
        n := n + below + 1;
      } else {
        NothingPassed(s, here, i);
      }
    }
  }

  /** Tables that mapping a page will have to add. */
  method CountMissing(m: Memory, space: int, v: nat) returns (n: nat)
    requires Inv(m.View(), NONE) && m.IsSpace(space)
    ensures n == Missing(m.at, KeyOf(space, v), 1)
  {
    ghost var s, k := m.View(), KeyOf(space, v);
    var path := PathOf(v);
    var t := space;
    assert k.path[..0] == [] && TableOk(s, Key(space, []));
    var level := 1;
    while level < 4
      invariant 1 <= level <= 4
      invariant Key(space, k.path[..level - 1]) in s.at && t == s.at[Key(space, k.path[..level - 1])]
      invariant Missing(s.at, k, 1) == Missing(s.at, k, level)
    {
      MissingFrom(s, k, level);
      var d := m.ram.ReadEntry(t, path[level - 1]);
      if !d.valid {
        return 4 - level;
      }
      t := d.frame;
      level := level + 1;
    }
    n := 0;
  }

  /** The entry at one level of a path: it leads to the next table, or all
      further tables are missing. */
  lemma MissingFrom(s: Sys, k: Key, level: int)
    requires Inv(s, NONE) && |k.path| == 4 && PathOk(k.path) && k.space != NONE && 1 <= level < 4
    requires Key(k.space, k.path[..level - 1]) in s.at
    ensures var here, i, c := Key(k.space, k.path[..level - 1]), k.path[level - 1], Key(k.space, k.path[..level]);
            && HasTable(s, here)
            && (Entry(s, here, i).valid ==>
                  c in s.at && s.at[c] == Entry(s, here, i).frame &&
                    Missing(s.at, k, level) == Missing(s.at, k, level + 1))
            && (!Entry(s, here, i).valid ==> Missing(s.at, k, level) == 4 - level)
  {
    var here, i, c := Key(k.space, k.path[..level - 1]), k.path[level - 1], Key(k.space, k.path[..level]);
    assert TableOk(s, here) && EntryKnown(s, here, i);
    assert c == Child(here, i);
    ChildParent(here, i);
    if c in s.at { assert TableOk(s, c); } else { MissingRest(s, k, level); }
  }

  /** Below a missing table everything is missing. */
  lemma {:induction false} MissingRest(s: Sys, k: Key, n: nat)
    requires Sized(s) && Structured(s) && |k.path| == 4 && 1 <= n <= 4
    requires n < 4 ==> Key(k.space, k.path[..n]) !in s.at
    ensures Missing(s.at, k, n) == 4 - n
    decreases 4 - n
  {
    if n < 4 {
      TableAbove(s, k, n);
      MissingRest(s, k, n + 1);
    }
  }

  lemma TableAbove(s: Sys, k: Key, n: nat)
    requires Sized(s) && Structured(s) && |k.path| == 4 && n < 4
    ensures Key(k.space, k.path[..n + 1]) in s.at ==> Key(k.space, k.path[..n]) in s.at
  {
    if Key(k.space, k.path[..n + 1]) in s.at {
      assert TableOk(s, Key(k.space, k.path[..n + 1]));
      assert k.path[..n + 1][..n] == k.path[..n];
    }
  }

  // ---- one operation ------------------------------------------------------------------------

  /** Memory with its page tables, and the pages of the eager machine. */
  datatype Machine = Machine(sys: Sys, pages: Eager)

  ghost predicate Sound(x: Machine) { Inv(x.sys, NONE) && Sim(x.sys, x.pages) }

  /** Operations that free frames free exactly those no longer used; all others
      take exactly what they cost. */
  ghost predicate FramesMoved(s: Sys, op: Op, s': Sys) {
    if op.Clear? || op.Destroy? then forall f :: f in s'.free <==> f in s.free || GivenBack(s, s', f)
    else |s'.free| == |s.free| - Cost(s, op)
  }

  /** An operation is refused exactly when it is not possible, and then nothing
      happens. Otherwise loads and stores answer what the eager machine answers,
      its pages are what the tables show, and the frames are accounted for. */
  ghost predicate Step(x: Machine, op: Op, reply: Reply, x': Machine) {
    && (reply.Refused? <==> !Possible(x.sys, op))
    && (reply.Refused? ==> x' == x)
    && (!reply.Refused? && (op.Load? || op.Store?) ==> reply == EagerReply(x.pages, op))
    && (!reply.Refused? && (op.Create? || op.Fork?) ==> reply.Made? && reply.space !in SpacesOf(x.sys.at))
    && (!reply.Refused? && (op.MapPage? || op.UnmapPage? || op.Clear? || op.Destroy?) ==> reply.Done?)
    && x'.pages == EagerStep(x.pages, op, reply)
    && SpacesOf(x'.sys.at) == NextSpaces(SpacesOf(x.sys.at), op, reply)
    && (!reply.Refused? && !reply.Fault? ==> FramesMoved(x.sys, op, x'.sys))
    && (reply.Fault? ==> x' == x)
  }

  lemma SpaceMember(s: Sys, space: int)
    requires Inv(s, NONE)
    ensures space in SpacesOf(s.at) <==> Key(space, []) in s.at && space != NONE
  {
    assert Key(space, []) in s.at ==> TableOk(s, Key(space, []));
  }

  lemma SpaceAdded(at: map<Key, int>, space: int)
    ensures SpacesOf(at[Key(space, []) := space]) == SpacesOf(at) + {space}
  {
    var at' := at[Key(space, []) := space];
    forall x | x in SpacesOf(at) ensures x in SpacesOf(at') {
      assert Key(x, []) in at';
    }
    assert Key(space, []) in at';
  }

  /** A free frame is no table. */
  lemma FreeIsNoSpace(s: Sys, f: int)
    requires Inv(s, NONE) && f in s.free
    ensures f !in SpacesOf(s.at)
  {
    SpaceMember(s, f);
    assert Key(f, []) in s.at ==> TableOk(s, Key(f, []));
  }

  ghost function Now(m: Memory): Machine
    reads m, m.ram.a, m.refs
  {
    Machine(m.View(), m.eager)
  }

  method AskCreate(m: Memory) returns (reply: Reply)
    requires m.Valid()
    modifies m, m.ram.a, m.refs
    ensures m.Valid() && Step(old(Now(m)), Create, reply, Now(m))
  {
    if m.free == {} {
      return Refused;
    }
    ghost var s := m.View();
    assert |s.free| >= 1;
    var space := m.NewMap();
    SpaceAdded(s.at, space);
    FreeIsNoSpace(s, space);
    reply := Made(space);
  }

  method AskMap(m: Memory, op: Op, spaces: set<int>) returns (reply: Reply)
    requires m.Valid() && SpacesOf(m.at) == spaces && op.MapPage?
    modifies m, m.ram.a, m.refs
    ensures m.Valid() && Step(old(Now(m)), op, reply, Now(m))
  {
    SpaceMember(m.View(), op.space);
    if op.space !in spaces || |op.bytes| != PAGE_SIZE {
      return Refused;
    }
    ResolveIsLookup(m.View(), KeyOf(op.space, op.v));
    var d := m.ram.Walk(op.space, PathOf(op.v));
    if d.valid {
      return Refused;
    }
    var n := CountMissing(m, op.space, op.v);
    if |m.free| < 1 + n {
      return Refused;
    }
    m.MapFresh(op.space, op.v, op.bytes, op.attr);
    reply := Done;
  }

  method AskUnmap(m: Memory, op: Op, spaces: set<int>) returns (reply: Reply)
    requires m.Valid() && SpacesOf(m.at) == spaces && op.UnmapPage?
    modifies m, m.ram.a, m.refs
    ensures m.Valid() && Step(old(Now(m)), op, reply, Now(m))
  {
    SpaceMember(m.View(), op.space);
    if op.space !in spaces {
      return Refused;
    }
    ResolveIsLookup(m.View(), KeyOf(op.space, op.v));
    var d := m.ram.Walk(op.space, PathOf(op.v));
    if !d.valid {
      return Refused;
    }
    m.Unmap(op.space, op.v);
    reply := Done;
  }

  method AskFork(m: Memory, parent: int, spaces: set<int>) returns (reply: Reply)
    requires m.Valid() && SpacesOf(m.at) == spaces
    modifies m, m.ram.a, m.refs
    ensures m.Valid() && Step(old(Now(m)), Fork(parent), reply, Now(m))
  {
    ghost var s := m.View();
    SpaceMember(s, parent);
    if parent !in spaces {
      return Refused;
    }
    assert TableOk(s, Key(parent, []));
    var n := CountTables(m, parent, 0, Key(parent, []));
    if |m.free| < 1 + n {
      return Refused;
    }
    var child := NewChild(m, parent);
    m.CopyFrom(child, parent);
    reply := Made(child);
  }

  /** An empty space for the child; the parent has the same tables to copy. */
  method NewChild(m: Memory, parent: int) returns (child: int)
    requires m.Valid() && m.IsSpace(parent) && m.free != {}
    modifies m, m.ram.a, m.refs
    ensures m.Valid() && m.IsSpace(parent) && m.IsSpace(child) && child != parent && OnlyRoot(m.View(), child)
    ensures m.eager == old(m.eager) && |m.free| == |old(m.free)| - 1
    ensures Passed(m.at, parent, [], NR_ENTRIES) == Passed(old(m.at), parent, [], NR_ENTRIES)
    ensures child !in SpacesOf(old(m.at)) && SpacesOf(m.at) == SpacesOf(old(m.at)) + {child}
  {
    ghost var s := m.View();
    child := m.NewMap();
    SpaceAdded(s.at, child);
    FreeIsNoSpace(s, child);
    SpaceMember(s, parent);
  }

  method AskLoad(m: Memory, op: Op, spaces: set<int>) returns (reply: Reply)
    requires m.Valid() && SpacesOf(m.at) == spaces && op.Load?
    ensures Step(Now(m), op, reply, Now(m))
  {
    SpaceMember(m.View(), op.space);
    if op.space !in spaces {
      return Refused;
    }
    var ok, b := m.UserLoad(op.space, op.v);
    reply := if ok then Value(b) else Fault;
  }

  method AskStore(m: Memory, op: Op, spaces: set<int>) returns (reply: Reply)
    requires m.Valid() && SpacesOf(m.at) == spaces && op.Store?
    modifies m, m.ram.a, m.refs
    ensures m.Valid() && Step(old(Now(m)), op, reply, Now(m))
  {
    ghost var s, k := m.View(), KeyOf(op.space, op.v);
    SpaceMember(s, op.space);
    if op.space !in spaces {
      return Refused;
    }
    ResolveIsLookup(s, k);
    assert k in m.leaf ==> LeafOk(s, k) && SimAt(s, m.eager, k);
    var d := m.ram.Walk(op.space, PathOf(op.v));
    if d.valid && d.readOnly && d.cow && m.refs[d.frame] != 1 && m.free == {} {
      return Refused;
    }
    var killed, faults := m.UserStore(op.space, op.v, op.b);
    reply := if killed then Fault else Done;
  }

  method AskEnd(m: Memory, op: Op, spaces: set<int>) returns (reply: Reply)
    requires m.Valid() && SpacesOf(m.at) == spaces && (op.Clear? || op.Destroy?)
    modifies m, m.ram.a, m.refs
    ensures m.Valid() && Step(old(Now(m)), op, reply, Now(m))
  {
    SpaceMember(m.View(), op.space);
    if op.space !in spaces {
      return Refused;
    }
    if op.Clear? {
      m.Reset(op.space);
    } else {
      m.Destroy(op.space);
    }
    reply := Done;
  }

  method Ask(m: Memory, op: Op, spaces: set<int>) returns (reply: Reply)
    requires m.Valid() && SpacesOf(m.at) == spaces
    modifies m, m.ram.a, m.refs
    ensures m.Valid() && Step(old(Now(m)), op, reply, Now(m))
  {
    match op {
      case Create => reply := AskCreate(m);
      case MapPage(_, _, _, _) => reply := AskMap(m, op, spaces);
      case UnmapPage(_, _) => reply := AskUnmap(m, op, spaces);
      case Fork(parent) => reply := AskFork(m, parent, spaces);
      case Load(_, _) => reply := AskLoad(m, op, spaces);
      case Store(_, _, _) => reply := AskStore(m, op, spaces);
      case Clear(_) => reply := AskEnd(m, op, spaces);
      case Destroy(_) => reply := AskEnd(m, op, spaces);
    }
  }

  // ---- every run ------------------------------------------------------------------------------

  /** `trace` lists the states of a run from a machine with all its frames free. */
  ghost predicate Run(ops: seq<Op>, replies: seq<Reply>, trace: seq<Machine>) {
    && IsRun(Sound, Step, ops, replies, trace)
    && trace[0].pages == map[] && trace[0].sys.at == map[] && |trace[0].sys.free| == NR_FRAMES
  }

  lemma StepOfRun(ops: seq<Op>, replies: seq<Reply>, trace: seq<Machine>, n: nat)
    requires Run(ops, replies, trace) && n < |ops|
    ensures Sound(trace[n]) && Step(trace[n], ops[n], replies[n], trace[n + 1])
  {
    assert SoundAt(Sound, trace, n) && StepAt(Step, ops, replies, trace, n);
  }

  lemma ShowsNext(ops: seq<Op>, replies: seq<Reply>, trace: seq<Machine>, n: nat)
    requires Run(ops, replies, trace) && n < |ops|
    ensures trace[n + 1].pages == EagerStep(trace[n].pages, ops[n], replies[n])
    ensures SpacesOf(trace[n + 1].sys.at) == NextSpaces(SpacesOf(trace[n].sys.at), ops[n], replies[n])
  {
    StepOfRun(ops, replies, trace, n);
  }

  /** At every point of every run the tables show the pages and spaces that the
      operations so far have made in the eager machine. */
  lemma {:induction false} ShowsEagerPages(ops: seq<Op>, replies: seq<Reply>, trace: seq<Machine>, n: nat)
    requires Run(ops, replies, trace) && n <= |ops|
    ensures trace[n].pages == EagerAfter(ops, replies, n)
    ensures SpacesOf(trace[n].sys.at) == SpacesAfter(ops, replies, n)
  {
    if n > 0 {
      ShowsEagerPages(ops, replies, trace, n - 1);
      ShowsNext(ops, replies, trace, n - 1);
    }
  }

  /** Copy-on-write is invisible: each load and store answers what the machine
      whose fork copies every page answers after the same operations. */
  lemma AnswersAsEager(ops: seq<Op>, replies: seq<Reply>, trace: seq<Machine>, n: nat)
    requires Run(ops, replies, trace) && n < |ops| && (ops[n].Load? || ops[n].Store?) && !replies[n].Refused?
    ensures replies[n] == EagerReply(EagerAfter(ops, replies, n), ops[n])
  {
    ShowsEagerPages(ops, replies, trace, n);
    StepOfRun(ops, replies, trace, n);
  }

  /** Nothing is refused without reason. Loads, resets and ends of spaces are
      refused exactly for spaces that do not exist, unmapping exactly for pages
      that are not mapped; all other operations exactly when they make no sense
      or the free frames are fewer than their cost. */
  lemma RefusedIff(ops: seq<Op>, replies: seq<Reply>, trace: seq<Machine>, n: nat)
    requires Run(ops, replies, trace) && n < |ops|
    ensures var op, spaces, pages := ops[n], SpacesAfter(ops, replies, n), EagerAfter(ops, replies, n);
            && (op.Load? || op.Clear? || op.Destroy? ==> (replies[n].Refused? <==> op.space !in spaces))
            && (op.UnmapPage? ==> (replies[n].Refused? <==> op.space !in spaces || KeyOf(op.space, op.v) !in pages))
            && (op.Create? ==> (replies[n].Refused? <==> trace[n].sys.free == {}))
            && (op.MapPage? ==> (replies[n].Refused? <==>
                  || op.space !in spaces || KeyOf(op.space, op.v) in pages || |op.bytes| != PAGE_SIZE
                  || |trace[n].sys.free| < Cost(trace[n].sys, op)))
            && (op.Fork? ==> (replies[n].Refused? <==>
                  op.parent !in spaces || |trace[n].sys.free| < Cost(trace[n].sys, op)))
            && (op.Store? ==> (replies[n].Refused? <==>
                  op.space !in spaces || |trace[n].sys.free| < Cost(trace[n].sys, op)))
  {
    ShowsEagerPages(ops, replies, trace, n);
    StepOfRun(ops, replies, trace, n);
    var op := ops[n];
    if !op.Create? { SpaceMember(trace[n].sys, if op.Fork? then op.parent else op.space); }
    assert |trace[n].sys.free| < 1 <==> trace[n].sys.free == {};
  }

  // ---- running the kernel ------------------------------------------------------------------------

  /** The kernel performs any list of operations, and what it does is a run. */
  method Replay(place: Layout, ops: seq<Op>) returns (m: Memory, replies: seq<Reply>, ghost trace: seq<Machine>)
    ensures fresh(m) && m.Valid() && Run(ops, replies, trace) && trace[|ops|] == Now(m)
  {
    m := new Memory(place);
    replies, trace := [], [Now(m)];
    EmptyRun(Sound, Step, Now(m));
    assert ops[..0] == [];
    var spaces := {};
    for i := 0 to |ops|
      invariant fresh(m) && fresh(m.ram.a) && fresh(m.refs) && m.Valid() && SpacesOf(m.at) == spaces
      invariant Run(ops[..i], replies, trace) && trace[i] == Now(m)
    {
      var reply := Ask(m, ops[i], spaces);
      spaces := NextSpaces(spaces, ops[i], reply);
      Extend(Sound, Step, ops, i, replies, trace, reply, Now(m));
      replies, trace := replies + [reply], trace + [Now(m)];
    }
    assert ops[..|ops|] == ops;
  }
}
