/** Whole runs of kmalloc, get_free_page and kfree: who owns what, and what the
    sanitizer makes of it once its table has been full. */
module HeapRuns {
  import B = BuddyState
  import BuddyModule = Buddy
  import S = SlobState
  import SlobModule = Slob
  import Steps = SlobSteps
  import SlobRuns
  import opened Kasan
  import opened Lists
  import opened KernelHeap
  import opened Runs

  datatype Call = Malloc(size: nat) | Page(physical: bool) | Free(p: nat)

  ghost function LiveIn(x: Store): set<int> {
    if B.Sized(x.zone0) then LivePointers(x.zone0, x.zone1) else {}
  }

  /** Sizes on which the size computation of the page allocator does not end. */
  predicate Hangs(call: Call) { call.Malloc? && IsLarge(call.size) && !BuddyModule.SizeTerminates(call.size) }

  ghost predicate Damages(x: Store, call: Call) { call.Malloc? && Collides(x.zone1, call.size) }

  function SizeOf(call: Call): nat { if call.Malloc? then call.size else PAGE_SIZE }

  /** The sanitizer halts the kernel: a null is reported to it while it has an
      empty slot, or it does not know the pointer that is given back. */
  ghost predicate Panics(x: Store, call: Call)
    requires B.Sized(x.zone0)
  {
    match call
    case Free(p) => Physical(p) !in x.table
    case _ => Refuses(x.zone0, x.zone1, SizeOf(call)) && 0 in x.table
  }

  /** Calls no run goes beyond. */
  ghost predicate Halts(x: Store, call: Call) {
    B.Sized(x.zone0) && (Hangs(call) || Damages(x, call) || Panics(x, call))
  }

  /** The pointer an answer stands for, as a physical address. */
  function Issued(call: Call, answer: int): int {
    match call
    case Malloc(_) => answer
    case Page(physical) => if physical then answer else answer - KERNEL_VA_BASE
    case Free(_) => 0
  }

  /** One call with its answer; kfree answers 0. */
  ghost predicate Step(x: Store, call: Call, answer: int, x': Store) {
    !Halts(x, call) &&
    match call
    case Free(p) =>
      && answer == 0 && Returned(x.zone0, x.zone1, x'.zone0, x'.zone1, Physical(p))
      && Exact(x'.table, Recorded(x.table) - {Physical(p)})
    case _ =>
      && Yielded(x.zone0, x.zone1, x'.zone0, x'.zone1, SizeOf(call), Issued(call, answer))
      && Noted(x.table, x'.table, Issued(call, answer))
  }

  ghost predicate Sound(x: Store) {
    B.Inv(x.zone0, B.NIL) && S.Inv(x.zone1, S.NIL) && Tracks(x.table, LivePointers(x.zone0, x.zone1))
  }

  /** `trace` lists the states of a run from boot on. */
  ghost predicate Run(calls: seq<Call>, answers: seq<int>, trace: seq<Store>) {
    && IsRun(Sound, Step, calls, answers, trace)
    && LiveIn(trace[0]) == {} && trace[0].zone1 == SlobModule.EmptyHeap()
  }

  lemma StepOfRun(calls: seq<Call>, answers: seq<int>, trace: seq<Store>, n: nat)
    requires Run(calls, answers, trace) && n < |calls|
    ensures Sound(trace[n]) && Sound(trace[n + 1]) && Step(trace[n], calls[n], answers[n], trace[n + 1])
  {
    assert SoundAt(Sound, trace, n) && SoundAt(Sound, trace, n + 1) && StepAt(Step, calls, answers, trace, n);
  }

  // ---- what the callers own ----------------------------------------------------------------

  /** The callers' pointers, with the bytes asked for. */
  function NextOwned(owned: map<int, nat>, call: Call, answer: int): map<int, nat> {
    match call
    case Free(p) => owned - {Physical(p)}
    case _ => if Issued(call, answer) == 0 then owned else owned[Issued(call, answer) := SizeOf(call)]
  }

  function Owned(calls: seq<Call>, answers: seq<int>, n: nat): map<int, nat>
    requires n <= |calls| && n <= |answers|
  {
    if n == 0 then map[] else NextOwned(Owned(calls, answers, n - 1), calls[n - 1], answers[n - 1])
  }

  /** Call `m` issued `q` while the table had no empty slot. */
  ghost predicate IssuedFull(calls: seq<Call>, answers: seq<int>, trace: seq<Store>, m: int, q: int) {
    0 <= m < |calls| && m < |answers| && m < |trace| && q != 0 && Issued(calls[m], answers[m]) == q &&
      0 !in trace[m].table
  }

  /** The pointers the table has missed so far. */
  ghost function NextLost(lost: set<int>, full: bool, q: int): set<int> { if full && q != 0 then lost + {q} else lost }

  ghost function Lost(calls: seq<Call>, answers: seq<int>, trace: seq<Store>, n: nat): set<int>
    requires n <= |calls| && n <= |answers| && n <= |trace|
  {
    if n == 0 then {}
    else NextLost(Lost(calls, answers, trace, n - 1), 0 !in trace[n - 1].table, Issued(calls[n - 1], answers[n - 1]))
  }

  /** The callers' pointers are those live, each with room for its bytes. */
  ghost predicate Owns(x: Store, owned: map<int, nat>) {
    LiveIn(x) == owned.Keys && forall q | q in owned && owned[q] <= BuddyModule.TWO_42 ::
      Fits(x.zone0, x.zone1, q, owned[q])
  }

  /** The table lists all of them but the lost ones. */
  ghost predicate Misses(t: seq<int>, owned: set<int>, lost: set<int>) {
    lost <= owned && Recorded(t) == owned - lost
  }

  lemma StillFits(x: Store, x': Store, q: int, size: nat)
    requires Kept(x.zone0, x.zone1, x'.zone0, x'.zone1) && Fits(x.zone0, x.zone1, q, size)
    requires q in LivePointers(x'.zone0, x'.zone1)
    ensures Fits(x'.zone0, x'.zone1, q, size)
  {
    assert KeptAt(x.zone0, x.zone1, x'.zone0, x'.zone1, q);
  }

  /** What a step does to the live pointers and to the table. */
  ghost predicate Moved(live: set<int>, live': set<int>, t: seq<int>, t': seq<int>, call: Call, answer: int) {
    0 !in live && |t| == NR_SLOTS && OnceEach(t) &&
    match call
    case Free(p) =>
      Physical(p) in t && live' == live - {Physical(p)} && Recorded(t') == Recorded(t) - {Physical(p)}
    case _ => Gained(live, live', Issued(call, answer)) && Noted(t, t', Issued(call, answer))
  }

  lemma StepMoves(x: Store, call: Call, answer: int, x': Store)
    requires Sound(x) && Step(x, call, answer, x')
    ensures Moved(LiveIn(x), LiveIn(x'), x.table, x'.table, call, answer)
  {
    NoNullLive(x.zone0, x.zone1);
  }

  lemma StepKeeps(x: Store, call: Call, answer: int, x': Store)
    requires Step(x, call, answer, x')
    ensures Kept(x.zone0, x.zone1, x'.zone0, x'.zone1)
    ensures !call.Free? && Issued(call, answer) != 0 && SizeOf(call) <= BuddyModule.TWO_42 ==>
              Fits(x'.zone0, x'.zone1, Issued(call, answer), SizeOf(call))
  {
  }

  lemma KeysNext(live: set<int>, live': set<int>, t: seq<int>, t': seq<int>, call: Call, answer: int,
                 owned: map<int, nat>)
    requires Moved(live, live', t, t', call, answer) && live == owned.Keys
    ensures live' == NextOwned(owned, call, answer).Keys
  {
  }

  lemma RoomNext(x: Store, x': Store, owned: map<int, nat>, owned': map<int, nat>, added: int, size: nat)
    requires Kept(x.zone0, x.zone1, x'.zone0, x'.zone1) && Owns(x, owned) && LiveIn(x') == owned'.Keys
    requires forall q | q in owned' && q != added :: q in owned && owned'[q] == owned[q]
    requires added in owned' ==>
               owned'[added] == size && (size <= BuddyModule.TWO_42 ==> Fits(x'.zone0, x'.zone1, added, size))
    ensures Owns(x', owned')
  {
    forall q | q in owned' && owned'[q] <= BuddyModule.TWO_42 ensures Fits(x'.zone0, x'.zone1, q, owned'[q]) {
      if q != added { StillFits(x, x', q, owned[q]); }
    }
  }

  lemma OwnsNext(x: Store, call: Call, answer: int, x': Store, owned: map<int, nat>)
    requires Sound(x) && Step(x, call, answer, x') && Owns(x, owned)
    ensures Owns(x', NextOwned(owned, call, answer))
  {
    StepMoves(x, call, answer, x');
    StepKeeps(x, call, answer, x');
    KeysNext(LiveIn(x), LiveIn(x'), x.table, x'.table, call, answer, owned);
    RoomNext(x, x', owned, NextOwned(owned, call, answer), if call.Free? then 0 else Issued(call, answer),
             SizeOf(call));
  }

  lemma MissesFreed(t: seq<int>, t': seq<int>, owned: set<int>, lost: set<int>, q: int)
    requires Misses(t, owned, lost) && 0 !in owned && q in t && Recorded(t') == Recorded(t) - {q}
    ensures Misses(t', owned - {q}, lost)
  {
    assert q != 0 ==> q in Recorded(t);
  }

  lemma MissesIssued(t: seq<int>, t': seq<int>, owned: set<int>, lost: set<int>, q: int)
    requires Misses(t, owned, lost) && q != 0 && q !in owned && Noted(t, t', q)
    ensures Misses(t', owned + {q}, NextLost(lost, 0 !in t, q))
  {
  }

  lemma MissesNext(live: set<int>, live': set<int>, t: seq<int>, t': seq<int>, call: Call, answer: int, lost: set<int>)
    requires Moved(live, live', t, t', call, answer) && Misses(t, live, lost)
    ensures Misses(t', live', NextLost(lost, 0 !in t, Issued(call, answer)))
  {
    if call.Free? { MissesFreed(t, t', live, lost, Physical(call.p)); }
    else if Issued(call, answer) != 0 { MissesIssued(t, t', live, lost, Issued(call, answer)); }
  }

  lemma OwnsNextOfRun(calls: seq<Call>, answers: seq<int>, trace: seq<Store>, n: nat, owned: map<int, nat>)
    requires Run(calls, answers, trace) && n < |calls| && Owns(trace[n], owned)
    ensures Owns(trace[n + 1], NextOwned(owned, calls[n], answers[n]))
  {
    StepOfRun(calls, answers, trace, n);
    OwnsNext(trace[n], calls[n], answers[n], trace[n + 1], owned);
  }

  /** At every point of every run exactly the callers' pointers are live, each
      with room for its bytes. */
  lemma {:induction false} OwnedHasRoom(calls: seq<Call>, answers: seq<int>, trace: seq<Store>, n: nat)
    requires Run(calls, answers, trace) && n <= |calls|
    ensures Owns(trace[n], Owned(calls, answers, n))
  {
    if n > 0 {
      OwnedHasRoom(calls, answers, trace, n - 1);
      OwnsNextOfRun(calls, answers, trace, n - 1, Owned(calls, answers, n - 1));
    }
  }

  lemma SoundOfRun(calls: seq<Call>, answers: seq<int>, trace: seq<Store>, n: nat)
    requires Run(calls, answers, trace) && n <= |calls|
    ensures Sound(trace[n])
  {
    assert SoundAt(Sound, trace, n);
  }

  lemma MovesOfRun(calls: seq<Call>, answers: seq<int>, trace: seq<Store>, n: nat)
    requires Run(calls, answers, trace) && n < |calls|
    ensures LiveIn(trace[n]) == Owned(calls, answers, n).Keys &&
            LiveIn(trace[n + 1]) == Owned(calls, answers, n + 1).Keys
    ensures Moved(LiveIn(trace[n]), LiveIn(trace[n + 1]), trace[n].table, trace[n + 1].table, calls[n], answers[n])
  {
    OwnedHasRoom(calls, answers, trace, n);
    OwnedHasRoom(calls, answers, trace, n + 1);
    StepOfRun(calls, answers, trace, n);
    StepMoves(trace[n], calls[n], answers[n], trace[n + 1]);
  }

  lemma FirstTable(calls: seq<Call>, answers: seq<int>, trace: seq<Store>)
    requires Run(calls, answers, trace)
    ensures Misses(trace[0].table, {}, {})
  {
    assert SoundAt(Sound, trace, 0);
  }

  lemma MissesNextOfRun(calls: seq<Call>, answers: seq<int>, trace: seq<Store>, n: nat, lost: set<int>)
    requires Run(calls, answers, trace) && n < |calls| && Misses(trace[n].table, LiveIn(trace[n]), lost)
    ensures Misses(trace[n + 1].table, LiveIn(trace[n + 1]),
                   NextLost(lost, 0 !in trace[n].table, Issued(calls[n], answers[n])))
  {
    MovesOfRun(calls, answers, trace, n);
    MissesNext(LiveIn(trace[n]), LiveIn(trace[n + 1]), trace[n].table, trace[n + 1].table, calls[n], answers[n], lost);
  }

  /** At every point of every run the table lists all live pointers but those
      issued while it was full. */
  lemma {:induction false} TableMisses(calls: seq<Call>, answers: seq<int>, trace: seq<Store>, n: nat)
    requires Run(calls, answers, trace) && n <= |calls|
    ensures Misses(trace[n].table, LiveIn(trace[n]), Lost(calls, answers, trace, n))
  {
    if n == 0 {
      FirstTable(calls, answers, trace);
    } else {
      TableMisses(calls, answers, trace, n - 1);
      MissesNextOfRun(calls, answers, trace, n - 1, Lost(calls, answers, trace, n - 1));
    }
  }

  /** What callers may write through two of their pointers never overlaps. */
  lemma OwnersApart(calls: seq<Call>, answers: seq<int>, trace: seq<Store>, n: nat, p: int, q: int)
    requires Run(calls, answers, trace) && n <= |calls|
    requires p in Owned(calls, answers, n) && q in Owned(calls, answers, n) && p < q
    requires Owned(calls, answers, n)[p] <= BuddyModule.TWO_42 && Owned(calls, answers, n)[q] <= BuddyModule.TWO_42
    ensures p + Owned(calls, answers, n)[p] <= q
  {
    OwnedHasRoom(calls, answers, trace, n);
    SoundOfRun(calls, answers, trace, n);
    LiveRegionsDisjoint(trace[n].zone0, trace[n].zone1, p, q);
  }

  // ---- the table that was full ------------------------------------------------------------------

  lemma TableOfRun(calls: seq<Call>, answers: seq<int>, trace: seq<Store>, n: nat)
    requires Run(calls, answers, trace) && n <= |calls|
    ensures |trace[n].table| == NR_SLOTS && OnceEach(trace[n].table)
    ensures LiveIn(trace[n]) == Owned(calls, answers, n).Keys
    ensures Misses(trace[n].table, LiveIn(trace[n]), Lost(calls, answers, trace, n))
  {
    OwnedHasRoom(calls, answers, trace, n);
    SoundOfRun(calls, answers, trace, n);
    TableMisses(calls, answers, trace, n);
  }

  lemma {:induction false} LostIff(calls: seq<Call>, answers: seq<int>, trace: seq<Store>, n: nat, q: int)
    requires n <= |calls| && n <= |answers| && n <= |trace|
    ensures q in Lost(calls, answers, trace, n) <==> exists m :: m < n && IssuedFull(calls, answers, trace, m, q)
  {
    if n > 0 {
      LostIff(calls, answers, trace, n - 1, q);
      assert q in Lost(calls, answers, trace, n) <==>
               q in Lost(calls, answers, trace, n - 1) || IssuedFull(calls, answers, trace, n - 1, q);
    }
  }

  /** In every run giving back a pointer one owns halts the kernel exactly if the
      pointer was issued while the table was full. */
  lemma OwnFreePanicsIff(calls: seq<Call>, answers: seq<int>, trace: seq<Store>, n: nat, p: nat)
    requires Run(calls, answers, trace) && n <= |calls| && Physical(p) in Owned(calls, answers, n)
    ensures Halts(trace[n], Free(p)) <==> exists m :: m < n && IssuedFull(calls, answers, trace, m, Physical(p))
  {
    TableOfRun(calls, answers, trace, n);
    LostIff(calls, answers, trace, n, Physical(p));
    SoundOfRun(calls, answers, trace, n);
    NoNullLive(trace[n].zone0, trace[n].zone1);
    assert Physical(p) in trace[n].table <==> Physical(p) in Recorded(trace[n].table);
  }

  /** The table is the live set as long as there never were more live pointers
      than slots, and never again after that. */
  lemma ExactIff(calls: seq<Call>, answers: seq<int>, trace: seq<Store>, n: nat)
    requires Run(calls, answers, trace) && n <= |calls|
    ensures Exact(trace[n].table, LiveIn(trace[n])) <==>
            forall m | 0 <= m <= n :: |Owned(calls, answers, m)| <= NR_SLOTS
  {
    var lost := Lost(calls, answers, trace, n);
    TableOfRun(calls, answers, trace, n);
    if lost == {} {
      forall m | 0 <= m <= n ensures |Owned(calls, answers, m)| <= NR_SLOTS {
        LostStays(calls, answers, trace, m, n);
        NoneLost(calls, answers, trace, m);
      }
    } else {
      SomeMember(lost);
      var q :| q in lost;
      LostIff(calls, answers, trace, n, q);
      var m :| m < n && IssuedFull(calls, answers, trace, m, q);
      OneTooMany(calls, answers, trace, m, q);
    }
  }

  lemma NoneLost(calls: seq<Call>, answers: seq<int>, trace: seq<Store>, m: nat)
    requires Run(calls, answers, trace) && m <= |calls| && Lost(calls, answers, trace, m) == {}
    ensures |Owned(calls, answers, m)| <= NR_SLOTS
  {
    TableOfRun(calls, answers, trace, m);
    FreeSlotIff(trace[m].table);
    assert Recorded(trace[m].table) == Owned(calls, answers, m).Keys;
    SameSize(Owned(calls, answers, m));
  }

  lemma SameSize(owned: map<int, nat>)
    ensures |owned| == |owned.Keys|
  {
  }

  lemma {:induction false} LostStays(calls: seq<Call>, answers: seq<int>, trace: seq<Store>, m: nat, n: nat)
    requires m <= n <= |calls| && n <= |answers| && n <= |trace|
    ensures Lost(calls, answers, trace, m) <= Lost(calls, answers, trace, n)
  {
    if m < n { LostStays(calls, answers, trace, m, n - 1); }
  }

  lemma OneTooMany(calls: seq<Call>, answers: seq<int>, trace: seq<Store>, m: nat, q: int)
    requires Run(calls, answers, trace) && m < |calls| && IssuedFull(calls, answers, trace, m, q)
    ensures |Owned(calls, answers, m + 1)| > NR_SLOTS
  {
    TableOfRun(calls, answers, trace, m);
    MovesOfRun(calls, answers, trace, m);
    OneOver(LiveIn(trace[m]), trace[m].table, q);
    SameSize(Owned(calls, answers, m + 1));
  }

  lemma OneOver(live: set<int>, t: seq<int>, q: int)
    requires Recorded(t) <= live && OnceEach(t) && 0 !in t && q !in live
    ensures |live + {q}| > |t|
  {
    FreeSlotIff(t);
    SubsetSize(Recorded(t), live);
  }

  // ---- running the kernel --------------------------------------------------------------------------

  method WouldCollide(m: MemoryManager, size: nat) returns (hit: bool)
    requires m.Valid()
    ensures hit <==> Collides(m.slob.View(), size)
  {
    hit := false;
    if 0 < size < PAGE_SIZE - CHUNK_HEADER {
      hit := SlobRuns.WouldHit(m.slob, SlobModule.Units(size));
    }
  }

  method PerformMalloc(m: MemoryManager, size: nat) returns (ok: bool, answer: int)
    requires m.Sound() && !Hangs(Malloc(size)) && !Damages(m.View(), Malloc(size))
    modifies m.buddy, m.buddy.frameArray, m.buddy.freeLists, m.buddy.headers
    modifies m.slob, m.slob.mem, m.slob.bins, m.kasan.slots
    ensures m.Sound() && (ok <==> !Halts(old(m.View()), Malloc(size)))
    ensures ok ==> Step(old(m.View()), Malloc(size), answer, m.View())
  {
    ok, answer := m.KMalloc(size);
  }

  method PerformPage(m: MemoryManager, physical: bool) returns (ok: bool, answer: int)
    requires m.Sound()
    modifies m.buddy, m.buddy.frameArray, m.buddy.freeLists, m.buddy.headers, m.kasan.slots
    ensures m.Sound() && (ok <==> !Halts(old(m.View()), Page(physical)))
    ensures ok ==> Step(old(m.View()), Page(physical), answer, m.View())
  {
    ghost var q;
    ok, answer, q := m.GetFreePage(physical);
    assert Issued(Page(physical), answer) == q;
  }

  method PerformFree(m: MemoryManager, p: nat) returns (ok: bool)
    requires m.Sound()
    modifies m.buddy, m.buddy.frameArray, m.buddy.freeLists, m.buddy.headers
    modifies m.slob, m.slob.mem, m.slob.bins, m.kasan.slots
    ensures m.Sound() && (ok <==> !Halts(old(m.View()), Free(p)))
    ensures ok ==> Step(old(m.View()), Free(p), 0, m.View())
  {
    ok := m.KFree(p);
  }

  /** False stands for a call that never returns; those on which the kernel would
      hang or damage its heap are not made. */
  method Perform(m: MemoryManager, call: Call) returns (ok: bool, answer: int)
    requires m.Sound()
    modifies m.buddy, m.buddy.frameArray, m.buddy.freeLists, m.buddy.headers
    modifies m.slob, m.slob.mem, m.slob.bins, m.kasan.slots
    ensures m.Sound() && (ok <==> !Halts(old(m.View()), call))
    ensures ok ==> Step(old(m.View()), call, answer, m.View())
  {
    answer := 0;
    match call {
      case Malloc(size) =>
        var hit := WouldCollide(m, size);
        if hit || Hangs(call) {
          return false, 0;
        }
        ok, answer := PerformMalloc(m, size);
      case Page(physical) =>
        ok, answer := PerformPage(m, physical);
      case Free(p) =>
        ok := PerformFree(m, p);
    }
  }

  lemma SoundView(m: MemoryManager)
    requires m.Sound()
    ensures Sound(m.View())
  {
  }

  /** The kernel performs calls up to the first that halts it, and what it does
      is a run. */
  method Replay(calls: seq<Call>) returns (m: MemoryManager, ran: nat, answers: seq<int>, ghost trace: seq<Store>)
    ensures fresh(m) && m.Sound() && ran <= |calls| && Run(calls[..ran], answers, trace)
    ensures if ran < |calls| then Halts(trace[ran], calls[ran]) else trace[ran] == m.View()
  {
    m := new MemoryManager();
    ran, answers, trace := 0, [], [m.View()];
    SoundView(m);
    EmptyRun(Sound, Step, m.View());
    assert calls[..0] == [];
    while ran < |calls|
      invariant fresh(m) && fresh(m.slob) && fresh(m.slob.mem) && fresh(m.slob.bins) && fresh(m.kasan.slots)
      invariant fresh(m.buddy) && fresh(m.buddy.frameArray) && fresh(m.buddy.freeLists) && fresh(m.buddy.headers)
      invariant m.Sound() && 0 <= ran <= |calls|
      invariant Run(calls[..ran], answers, trace) && trace[ran] == m.View()
    {
      var ok, answer := Perform(m, calls[ran]);
      if !ok {
        return;
      }
      SoundView(m);
      Extend(Sound, Step, calls, ran, answers, trace, answer, m.View());
      answers, trace, ran := answers + [answer], trace + [m.View()], ran + 1;
    }
  }

  // ---- a run that fills the table -----------------------------------------------------------------

  /** After `n` requests of one unit of payload each and nothing else: pages are
      cut into chunks of two units from below, and nothing is on a list. */
  ghost predicate Packed(h: S.Heap, n: int) {
    && S.Sized(h) && h.lists == SlobModule.EmptyHeap().lists
    && 0 <= h.topEnd - h.top <= S.PAGE && (h.topEnd - h.top) % 2 == 0
    && S.PAGE * |h.pages| == 2 * n + (h.topEnd - h.top)
  }

  lemma PackedCarved(h: S.Heap, n: int)
    requires Packed(h, n) && h.topEnd - h.top >= 2 && 0 <= h.top < S.SLOTS
    ensures Packed(SlobModule.TopServed(h, 2), n + 1)
  {
  }

  lemma PackedPage(h: S.Heap, n: int, p: int)
    requires Packed(h, n) && h.top == h.topEnd && p in SlobModule.OwnedPages({}) - h.pages
    ensures Packed(Steps.NewPage(h, p), n) && 0 <= p * S.PAGE < S.SLOTS
  {
    assert |h.pages + {p}| == |h.pages| + 1;
  }

  lemma PackedNext(h: S.Heap, h': S.Heap, n: int, c: int)
    requires S.TopOk(h) && Packed(h, n) && SlobModule.FromTop(h, 2, h', c) && c != S.NIL
    ensures Packed(h', n + 1)
  {
    if h.top == h.topEnd {
      assert SlobModule.Retired(h) == h;
      var p :| p in SlobModule.OwnedPages({}) - h.pages && h' == SlobModule.TopServed(Steps.NewPage(h, p), 2);
      PackedPage(h, n, p);
      PackedCarved(Steps.NewPage(h, p), n);
    } else {
      PackedCarved(h, n);
    }
  }

  /** There are pages left for a thousand requests. */
  lemma PackedHasPages(h: S.Heap, n: int)
    requires Packed(h, n) && n <= NR_SLOTS
    ensures h.pages != SlobModule.OwnedPages({})
  {
    var some := {0, 1, 2, 3, 4, 5, 6, 7, 8};
    assert |some| == 9;
    if h.pages == SlobModule.OwnedPages({}) {
      assert some <= h.pages;
      SubsetSize(some, h.pages);
    }
  }

  lemma PackedServes(x: Store, n: int)
    requires Packed(x.zone1, n) && n <= NR_SLOTS
    ensures !Halts(x, Malloc(16)) && SlobModule.NoListServes(x.zone1, 2) && !NoChunk(x.zone1, 16)
  {
    PackedHasPages(x.zone1, n);
    SlobRuns.NothingListed(x.zone1, 2);
  }

  lemma ChunkIssued(st: B.State, h: S.Heap, p: int)
    requires B.Inv(st, B.NIL) && S.Inv(h, S.NIL) && p in LivePointers(st, h) && p % PAGE_SIZE != 0
    ensures ChunkOf(p) >= 0
  {
    AlignmentRoutes(st, h, p);
    ChunkInZone(h, p);
  }

  lemma PackedStep(x: Store, answer: int, x': Store, n: int)
    requires Sound(x) && Packed(x.zone1, n) && n <= NR_SLOTS && Step(x, Malloc(16), answer, x')
    ensures answer != 0 && Packed(x'.zone1, n + 1)
  {
    PackedServes(x, n);
    ChunkIssued(x'.zone0, x'.zone1, answer);
    PackedNext(x.zone1, x'.zone1, n, ChunkOf(answer));
  }

  lemma PackedStepOfRun(calls: seq<Call>, answers: seq<int>, trace: seq<Store>, n: nat)
    requires Run(calls, answers, trace) && n < |calls| && calls[n] == Malloc(16)
    requires Packed(trace[n].zone1, n) && n <= NR_SLOTS
    ensures answers[n] != 0 && Packed(trace[n + 1].zone1, n + 1)
    ensures |Owned(calls, answers, n + 1)| == |Owned(calls, answers, n)| + 1 &&
            answers[n] in Owned(calls, answers, n + 1)
  {
    StepOfRun(calls, answers, trace, n);
    PackedStep(trace[n], answers[n], trace[n + 1], n);
    MovesOfRun(calls, answers, trace, n);
    OneMore(Owned(calls, answers, n), answers[n], 16);
  }

  lemma {:induction false} PackedRun(calls: seq<Call>, answers: seq<int>, trace: seq<Store>, n: nat)
    requires Run(calls, answers, trace) && n <= |calls| && n <= NR_SLOTS + 1
    requires forall i | 0 <= i < n :: calls[i] == Malloc(16)
    ensures Packed(trace[n].zone1, n) && |Owned(calls, answers, n)| == n
    ensures n > 0 ==> answers[n - 1] in Owned(calls, answers, n)
  {
    if n > 0 {
      PackedRun(calls, answers, trace, n - 1);
      PackedStepOfRun(calls, answers, trace, n - 1);
    }
  }

  lemma OneMore(owned: map<int, nat>, p: int, size: nat)
    requires p !in owned
    ensures |owned[p := size]| == |owned| + 1
  {
    assert owned[p := size].Keys == owned.Keys + {p};
    SameSize(owned);
    SameSize(owned[p := size]);
  }

  lemma AllServed(calls: seq<Call>, ran: nat, answers: seq<int>, trace: seq<Store>)
    requires ran <= |calls| <= NR_SLOTS + 1 && (forall i | 0 <= i < |calls| :: calls[i] == Malloc(16))
    requires Run(calls[..ran], answers, trace) && (ran < |calls| ==> Halts(trace[ran], calls[ran]))
    ensures ran == |calls| && calls[..ran] == calls
  {
    PackedRun(calls[..ran], answers, trace, ran);
    if ran < |calls| { PackedServes(trace[ran], ran); }
  }

  /** After as many requests as there are slots the table is full. */
  lemma PackedFull(calls: seq<Call>, answers: seq<int>, trace: seq<Store>, n: nat)
    requires Run(calls, answers, trace) && n == NR_SLOTS <= |calls| && forall i | 0 <= i < n :: calls[i] == Malloc(16)
    ensures 0 !in trace[n].table
  {
    forall m | 0 <= m <= n ensures |Owned(calls, answers, m)| <= NR_SLOTS { PackedRun(calls, answers, trace, m); }
    ExactIff(calls, answers, trace, n);
    TableOfRun(calls, answers, trace, n);
    PackedRun(calls, answers, trace, n);
    SameSize(Owned(calls, answers, n));
    FreeSlotIff(trace[n].table);
  }

  lemma LastIsLost(calls: seq<Call>, answers: seq<int>, trace: seq<Store>, n: nat)
    requires Run(calls, answers, trace) && n == NR_SLOTS && |calls| == n + 1
    requires forall i | 0 <= i < |calls| :: calls[i] == Malloc(16)
    ensures answers[n] in Owned(calls, answers, n + 1) && answers[n] >= 0 && Halts(trace[n + 1], Free(answers[n]))
    ensures !Exact(trace[n + 1].table, LiveIn(trace[n + 1]))
  {
    PackedFull(calls, answers, trace, n);
    PackedRun(calls, answers, trace, n + 1);
    ExactIff(calls, answers, trace, n + 1);
    LastAddress(calls, answers, trace, n);
    assert IssuedFull(calls, answers, trace, n, answers[n]);
    OwnFreePanicsIff(calls, answers, trace, n + 1, answers[n]);
  }

  lemma LastAddress(calls: seq<Call>, answers: seq<int>, trace: seq<Store>, n: nat)
    requires Run(calls, answers, trace) && n < |calls| && calls[n].Malloc? && answers[n] in Owned(calls, answers, n + 1)
    ensures answers[n] > 0 && Physical(answers[n]) == answers[n]
  {
    OwnedHasRoom(calls, answers, trace, n + 1);
    SoundOfRun(calls, answers, trace, n + 1);
    NoNullLive(trace[n + 1].zone0, trace[n + 1].zone1);
    AlignmentRoutes(trace[n + 1].zone0, trace[n + 1].zone1, answers[n]);
  }

  /** The kernel gets there: after 1001 requests of 16 bytes the table misses a
      pointer, and whoever gives that one back halts the kernel. */
  method FillTable() returns (calls: seq<Call>, answers: seq<int>, p: nat, ghost trace: seq<Store>)
    ensures calls == seq(NR_SLOTS + 1, _ => Malloc(16)) && Run(calls, answers, trace)
    ensures p in Owned(calls, answers, |calls|) && Halts(trace[|calls|], Free(p))
    ensures !Exact(trace[|calls|].table, LiveIn(trace[|calls|]))
  {
    calls := seq(NR_SLOTS + 1, _ => Malloc(16));
    var m, ran;
    m, ran, answers, trace := Replay(calls);
    AllServed(calls, ran, answers, trace);
    LastIsLost(calls, answers, trace, NR_SLOTS);
    p := answers[NR_SLOTS];
  }
}
