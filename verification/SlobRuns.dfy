/** Whole runs of the small-object allocator. */
module SlobRuns {
  import opened SlobState
  import opened SlobSteps
  import opened Slob
  import opened Runs

  /** Whether serving a request of `n` units would damage the tags. */
  method WouldHit(a: SlobAllocator, n: int) returns (hit: bool)
    requires a.Valid() && 2 <= n <= PAGE
    ensures hit <==> ExactHit(a.View(), n)
  {
    ghost var h := a.View();
    if n - 2 < NR_BINS {
      assert BinOk(h, n - 2);
      assert h.lists[n - 2] != [] ==> LinkOk(h.mem, h.lists[n - 2], 0);
      if a.bins[n - 2] != NIL {
        return false;
      }
    }
    var chunk, i := a.FindUnsorted(n);
    if chunk == NIL {
      FirstFitListed(h, n);
      return false;
    }
    assert BinOk(h, UNSORTED) && MemberOk(h, UNSORTED, chunk);
    if Size(a.mem[chunk]) != n {
      return false;
    }
    AfterListed(h, UNSORTED, i);
    var e := chunk + n;
    BehindPage(h, e);
    hit := e < SLOTS && (e % PAGE != 0 || (e / PAGE !in a.freePages && !(a.top <= e < a.topEnd)));
  }

  lemma FirstFitListed(h: Heap, n: int)
    requires Inv(h, NIL)
    ensures FirstFit(h.mem, h.lists[UNSORTED], n) < |h.lists[UNSORTED]| ==>
              h.lists[UNSORTED][FirstFit(h.mem, h.lists[UNSORTED], n)] != NIL
  {
    FirstFitLarge(h.mem, h.lists[UNSORTED], n);
  }

  /** At the start of a page there is a chunk exactly if the page is in use. */
  lemma BehindPage(h: Heap, e: int)
    requires Tiled(h) && e >= 0
    ensures e < SLOTS && e % PAGE == 0 ==> (IsChunk(h, e) <==> Covered(h, e))
  {
    if e < SLOTS && e % PAGE == 0 {
      assert SlotOk(h, e);
      if Covered(h, e) { assert ChunkOk(h, h.owner[e]); }
    }
  }

  // ---- runs ---------------------------------------------------------------------------

  /** Sizes in bytes and pointers in units; NIL is null. */
  datatype Call = Alloc(size: nat) | Free(p: int)

  const SIZE_LIMIT := 4080

  /** The request would damage the tags. */
  ghost predicate Damages(h: Heap, call: Call) {
    call.Alloc? && 0 < call.size < SIZE_LIMIT && ExactHit(h, Units(call.size))
  }

  /** One request or return with its answer. A return of something that is not
      handed out is not made; returns answer NIL. */
  ghost predicate Step(h: Heap, call: Call, answer: int, h': Heap) {
    Sized(h) && Sized(h') && !Damages(h, call) &&
    match call
    case Alloc(size) =>
      if size == 0 || size >= SIZE_LIMIT then answer == NIL && h' == h
      else AllocStep(h, Units(size), answer, h')
    case Free(p) => answer == NIL && if p - 1 in h.live then FreeStep(h, p - 1, h') else h' == h
  }

  ghost predicate FreeStep(h: Heap, c: int, h': Heap) {
    && Sized(h) && Sized(h') && h'.live == h.live - {c}
    && (forall x | x in h'.live :: IsChunk(h, x) && h'.mem[x].index == h.mem[x].index)
    && h' == Freed(h, c) && Releases(h, c, h')
  }

  ghost predicate Sound(h: Heap) { Inv(h, NIL) }

  /** `trace` lists the states of a run from an empty heap. */
  ghost predicate Run(calls: seq<Call>, answers: seq<int>, trace: seq<Heap>) {
    IsRun(Sound, Step, calls, answers, trace) && trace[0] == EmptyHeap()
  }

  lemma StepOfRun(calls: seq<Call>, answers: seq<int>, trace: seq<Heap>, n: nat)
    requires Run(calls, answers, trace) && n < |calls|
    ensures Inv(trace[n], NIL) && Inv(trace[n + 1], NIL) && Step(trace[n], calls[n], answers[n], trace[n + 1])
  {
    assert SoundAt(Sound, trace, n) && SoundAt(Sound, trace, n + 1) && StepAt(Step, calls, answers, trace, n);
  }

  // ---- what the caller owns ---------------------------------------------------------------

  /** The caller's chunks, with the bytes asked for; the pointer to a chunk is one
      unit past its start. */
  function NextOwned(owned: map<int, nat>, call: Call, answer: int): map<int, nat> {
    match call
    case Alloc(size) => if answer == NIL then owned else owned[answer - 1 := size]
    case Free(p) => owned - {p - 1}
  }

  /** What a caller owns who has made the first `n` calls and got those answers. */
  function Owned(calls: seq<Call>, answers: seq<int>, n: nat): map<int, nat>
    requires n <= |calls| && n <= |answers|
  {
    if n == 0 then map[] else NextOwned(Owned(calls, answers, n - 1), calls[n - 1], answers[n - 1])
  }

  /** The caller's chunks are those handed out, each with room for its bytes. */
  ghost predicate Owns(h: Heap, owned: map<int, nat>) {
    Sized(h) && h.live == owned.Keys && forall c | c in owned :: HasRoom(h, c, owned[c])
  }

  ghost predicate HasRoom(h: Heap, c: int, size: nat) {
    Sized(h) && IsChunk(h, c) && 16 * SizeAt(h, c) >= 16 + size
  }

  lemma OwnsMore(h: Heap, h': Heap, owned: map<int, nat>, c: int, size: nat)
    requires Owns(h, owned) && 0 < size < SIZE_LIMIT && Served(h, h', c, Units(size))
    ensures Owns(h', owned[c := size])
  {
    forall q | q in owned ensures HasRoom(h', q, owned[q]) {
      assert HasRoom(h, q, owned[q]) && LiveOk(h', q);
    }
  }

  lemma OwnsSame(h: Heap, h': Heap, owned: map<int, nat>, kept: map<int, nat>)
    requires Owns(h, owned) && Inv(h', NIL) && h'.live == kept.Keys
    requires forall c | c in kept :: c in owned && owned[c] == kept[c]
    requires forall x | x in h'.live :: IsChunk(h, x) && h'.mem[x].index == h.mem[x].index
    ensures Owns(h', kept)
  {
    forall c | c in kept ensures HasRoom(h', c, kept[c]) {
      assert HasRoom(h, c, owned[c]) && LiveOk(h', c);
    }
  }

  lemma OwnsNext(h: Heap, call: Call, answer: int, h': Heap, owned: map<int, nat>)
    requires Inv(h', NIL) && Step(h, call, answer, h') && Owns(h, owned)
    ensures Owns(h', NextOwned(owned, call, answer))
  {
    match call
    case Alloc(size) =>
      if size == 0 || size >= SIZE_LIMIT {
      } else if answer == NIL {
        OwnsSame(h, h', owned, owned);
      } else {
        OwnsMore(h, h', owned, answer - 1, size);
      }
    case Free(p) =>
      if p - 1 in h.live {
        OwnsSame(h, h', owned, owned - {p - 1});
      } else {
        assert owned - {p - 1} == owned;
      }
  }

  /** At every point of every run exactly the caller's chunks are handed out, and
      each has room for the bytes it was asked for. */
  lemma {:induction false} OwnedHasRoom(calls: seq<Call>, answers: seq<int>, trace: seq<Heap>, n: nat)
    requires Run(calls, answers, trace) && n <= |calls|
    ensures Inv(trace[n], NIL) && Owns(trace[n], Owned(calls, answers, n))
  {
    assert SoundAt(Sound, trace, n);
    if n > 0 {
      OwnedHasRoom(calls, answers, trace, n - 1);
      StepOfRun(calls, answers, trace, n - 1);
      OwnsNext(trace[n - 1], calls[n - 1], answers[n - 1], trace[n], Owned(calls, answers, n - 1));
    }
  }

  /** What the caller may write through two of its pointers never overlaps, nor
      does it touch a header of the other. */
  lemma OwnersApart(calls: seq<Call>, answers: seq<int>, trace: seq<Heap>, n: nat, c: int, d: int)
    requires Run(calls, answers, trace) && n <= |calls|
    requires c in Owned(calls, answers, n) && d in Owned(calls, answers, n) && c < d
    ensures 16 * (c + 1) + Owned(calls, answers, n)[c] <= 16 * d
  {
    OwnedHasRoom(calls, answers, trace, n);
    assert HasRoom(trace[n], c, Owned(calls, answers, n)[c]);
    LiveDisjoint(trace[n], c, d);
  }

  // ---- running the allocator -----------------------------------------------------------------

  method PerformAlloc(a: SlobAllocator, size: nat) returns (answer: int)
    requires a.Valid() && 0 < size < SIZE_LIMIT && !ExactHit(a.View(), Units(size))
    modifies a, a.mem, a.bins
    ensures a.Valid() && Step(old(a.View()), Alloc(size), answer, a.View())
  {
    answer := a.Allocate(size);
  }

  method PerformFree(a: SlobAllocator, p: int)
    requires a.Valid() && p - 1 in a.live && p != NIL
    modifies a, a.mem, a.bins
    ensures a.Valid() && Step(old(a.View()), Free(p), NIL, a.View())
  {
    a.Deallocate(p);
  }

  method Perform(a: SlobAllocator, call: Call, owned: map<int, nat>) returns (answer: int)
    requires a.Valid() && Owns(a.View(), owned) && !Damages(a.View(), call)
    modifies a, a.mem, a.bins
    ensures a.Valid() && Step(old(a.View()), call, answer, a.View())
  {
    answer := NIL;
    match call {
      case Alloc(size) =>
        if 0 < size < SIZE_LIMIT {
          answer := PerformAlloc(a, size);
        }
      case Free(p) =>
        if p - 1 in owned {
          assert HasRoom(a.View(), p - 1, owned[p - 1]);
          PerformFree(a, p);
        }
    }
  }

  /** The allocator performs calls up to the first that would damage the tags,
      and what it does is a run. */
  method Replay(calls: seq<Call>)
    returns (a: SlobAllocator, ran: nat, answers: seq<int>, ghost trace: seq<Heap>)
    ensures fresh(a) && a.Valid() && ran <= |calls|
    ensures Run(calls[..ran], answers, trace) && trace[ran] == a.View()
    ensures ran < |calls| ==> Damages(a.View(), calls[ran])
  {
    a := new SlobAllocator();
    ran, answers, trace := 0, [], [a.View()];
    EmptyRun(Sound, Step, a.View());
    assert calls[..0] == [];
    var owned: map<int, nat> := map[];
    while ran < |calls|
      invariant fresh(a) && fresh(a.mem) && fresh(a.bins) && a.Valid() && 0 <= ran <= |calls|
      invariant Owns(a.View(), owned)
      invariant Run(calls[..ran], answers, trace) && trace[ran] == a.View()
    {
      var call := calls[ran];
      if call.Alloc? && 0 < call.size < SIZE_LIMIT {
        var hit := WouldHit(a, Units(call.size));
        if hit {
          return;
        }
      }
      ghost var h := a.View();
      var answer := Perform(a, call, owned);
      OwnsNext(h, call, answer, a.View(), owned);
      owned := NextOwned(owned, call, answer);
      Extend(Sound, Step, calls, ran, answers, trace, answer, a.View());
      answers, trace, ran := answers + [answer], trace + [a.View()], ran + 1;
    }
  }

  // ---- a run that meets the damaging request ---------------------------------------------------

  /** The page at `x` holds three chunks of ten units and the top behind them. */
  ghost predicate ThreeChunks(h: Heap, x: int) {
    && Sized(h) && 0 <= x && x % PAGE == 0 && x + PAGE <= SLOTS
    && h.lists == EmptyHeap().lists && h.live == {x, x + 10, x + 20} && h.top == x + 30 && h.topEnd == x + PAGE
    && (forall f | x <= f < x + 30 :: h.owner[f] == if f < x + 10 then x else if f < x + 20 then x + 10 else x + 20)
    && (forall c | c == x || c == x + 10 || c == x + 20 :: h.mem[c].index == 8 && h.mem[c].inUse)
  }

  lemma NothingListed(h: Heap, n: int)
    requires Sized(h) && h.lists == EmptyHeap().lists
    ensures NoListServes(h, n) && !ExactHit(h, n)
  {
  }

  lemma ThreeServed(h0: Heap, h1: Heap, h2: Heap, h3: Heap, p: int)
    requires h0 == EmptyHeap() && p in OwnedPages({}) && h1 == TopServed(NewPage(h0, p), 10)
    requires h2 == TopServed(h1, 10) && h3 == TopServed(h2, 10)
    ensures ThreeChunks(h3, p * PAGE)
  {
  }

  /** Freeing the middle chunk between two in use leaves it on no list. */
  lemma MiddleFreed(h: Heap, x: int)
    requires Inv(h, NIL) && ThreeChunks(h, x)
    ensures Freed(h, x + 10) == TakeBack(h, x + 10)
  {
    var h1 := TakeBack(h, x + 10);
    assert Pred(h1, x + 10) == x;
    assert !PrevFree(h1, x + 10);
  }

  /** The first two are free, neither listed. */
  ghost predicate TwoFree(h: Heap, x: int) {
    && Sized(h) && 0 <= x && x % PAGE == 0 && x + PAGE <= SLOTS
    && h.lists == EmptyHeap().lists && h.live == {x + 20} && h.top == x + 30 && h.topEnd == x + PAGE
    && (forall f | x <= f < x + 30 :: h.owner[f] == if f < x + 10 then x else if f < x + 20 then x + 10 else x + 20)
    && h.mem[x].index == 8 && h.mem[x + 10].index == 8 && !h.mem[x].inUse && !h.mem[x + 10].inUse
  }

  lemma TwoMerged(h: Heap, x: int)
    requires TwoFree(h, x) && ChunkOk(h, x) && ChunkOk(h, x + 10)
    ensures NextMerged(h, x) == PushIf(JoinIf(h, x, x + 10), x)
  {
    assert OffList(h, x + 10) == h;
  }

  lemma TwoListed(h: Heap, x: int)
    requires TwoFree(h, x) && ChunkOk(h, x) && ChunkOk(h, x + 10)
    ensures ExactHit(PushIf(JoinIf(h, x, x + 10), x), 20)
  {
    var h3 := JoinIf(h, x, x + 10);
    assert h3 == Join(h, x, x + 10, x + 20);
    assert h3.owner[x + 29] == x + 20 && h3.owner[x + 20] == x + 20;
    assert MayPush(h3, x);
  }

  /** Freeing the first one then merges both and lists them, in front of the
      third. */
  lemma FirstFreed(h: Heap, x: int)
    requires Inv(h, NIL) && ThreeChunks(h, x) && Inv(TakeBack(h, x + 10), NIL)
    ensures IsChunk(h, x + 10) && ExactHit(Freed(TakeBack(h, x + 10), x), 20)
  {
    var h1 := TakeBack(h, x + 10);
    var h2 := TakeBack(h1, x);
    TakeBackKeepsInv(h1, x);
    assert ChunkOk(h2, x) && ChunkOk(h2, x + 10);
    assert !PrevFree(h2, x);
    TwoMerged(h2, x);
    TwoListed(h2, x);
  }

  lemma FiveSteps(h1: Heap, h2: Heap, h3: Heap, h4: Heap, h5: Heap, p1: int, p2: int, p3: int)
    requires Sound(EmptyHeap()) && Sound(h1) && Sound(h2) && Sound(h3) && Sound(h4) && Sound(h5)
    requires Step(EmptyHeap(), Alloc(144), p1, h1) && Step(h1, Alloc(144), p2, h2) && Step(h2, Alloc(144), p3, h3)
    requires Step(h3, Free(p2), NIL, h4) && Step(h4, Free(p1), NIL, h5)
    ensures Run([Alloc(144), Alloc(144), Alloc(144), Free(p2), Free(p1)], [p1, p2, p3, NIL, NIL],
                [EmptyHeap(), h1, h2, h3, h4, h5])
  {
    FiveCalls(Sound, Step, [Alloc(144), Alloc(144), Alloc(144), Free(p2), Free(p1)], [p1, p2, p3, NIL, NIL],
              [EmptyHeap(), h1, h2, h3, h4, h5]);
  }

  method FirstTen(a: SlobAllocator) returns (p: int, ghost page: int)
    requires a.Valid() && a.View() == EmptyHeap()
    modifies a, a.mem, a.bins
    ensures a.Valid() && Step(EmptyHeap(), Alloc(144), p, a.View())
    ensures page in OwnedPages({}) && p - 1 == page * PAGE && a.View() == TopServed(NewPage(EmptyHeap(), page), 10)
  {
    ghost var h := a.View();
    NothingListed(h, 10);
    p := PerformAlloc(a, 144);
    assert 0 in OwnedPages({});
    page :| page in OwnedPages({}) - h.pages && p - 1 == page * PAGE && a.View() == TopServed(NewPage(h, page), 10);
  }

  method NextTen(a: SlobAllocator) returns (p: int)
    requires a.Valid() && a.View().lists == EmptyHeap().lists && a.topEnd - a.top >= 10
    modifies a, a.mem, a.bins
    ensures a.Valid() && Step(old(a.View()), Alloc(144), p, a.View())
    ensures p - 1 == old(a.top) && a.View() == TopServed(old(a.View()), 10)
  {
    NothingListed(a.View(), 10);
    p := PerformAlloc(a, 144);
  }

  lemma TenServed(h: Heap)
    requires Sized(h) && 0 <= h.top < SLOTS
    ensures var h' := TopServed(h, 10);
            h'.lists == h.lists && h'.top == h.top + 10 && h'.topEnd == h.topEnd
  {
  }

  method ServeThree(a: SlobAllocator)
    returns (p1: int, p2: int, p3: int, ghost x: int, ghost h1: Heap, ghost h2: Heap)
    requires a.Valid() && a.View() == EmptyHeap()
    modifies a, a.mem, a.bins
    ensures a.Valid() && ThreeChunks(a.View(), x) && p1 - 1 == x && p2 - 1 == x + 10
    ensures Sound(h1) && Sound(h2)
    ensures Step(EmptyHeap(), Alloc(144), p1, h1) && Step(h1, Alloc(144), p2, h2) && Step(h2, Alloc(144), p3, a.View())
  {
    ghost var page;
    p1, page := FirstTen(a);
    h1, x := a.View(), page * PAGE;
    TenServed(NewPage(EmptyHeap(), page));
    p2 := NextTen(a);
    h2 := a.View();
    TenServed(h1);
    p3 := NextTen(a);
    ThreeServed(EmptyHeap(), h1, h2, a.View(), page);
  }

  /** The kernel gets there: three requests of 144 bytes, the second and the first
      given back, and the next request of 304 bytes damages the tags. */
  method MeetDamage() returns (p1: int, p2: int, p3: int, ghost trace: seq<Heap>)
    ensures Run([Alloc(144), Alloc(144), Alloc(144), Free(p2), Free(p1)], [p1, p2, p3, NIL, NIL], trace)
    ensures Damages(trace[5], Alloc(304))
  {
    var a := new SlobAllocator();
    ghost var x, h1, h2;
    p1, p2, p3, x, h1, h2 := ServeThree(a);
    ghost var h3 := a.View();
    ghost var h4 := FreeTwo(a, p1, p2, x);
    EmptySound();
    FiveSteps(h1, h2, h3, h4, a.View(), p1, p2, p3);
    trace := [EmptyHeap(), h1, h2, h3, h4, a.View()];
  }

  method FreeTwo(a: SlobAllocator, p1: int, p2: int, ghost x: int) returns (ghost h4: Heap)
    requires a.Valid() && ThreeChunks(a.View(), x) && p1 - 1 == x && p2 - 1 == x + 10
    modifies a, a.mem, a.bins
    ensures a.Valid() && Sound(h4)
    ensures Step(old(a.View()), Free(p2), NIL, h4) && Step(h4, Free(p1), NIL, a.View())
    ensures ExactHit(a.View(), 20)
  {
    ghost var h3 := a.View();
    PerformFree(a, p2);
    h4 := a.View();
    MiddleFreed(h3, x);
    PerformFree(a, p1);
    FirstFreed(h3, x);
  }

  lemma EmptySound()
    ensures Sound(EmptyHeap())
  {
    var h := EmptyHeap();
    forall f | 0 <= f < SLOTS ensures SlotOk(h, f) {
    }
    forall b | 0 <= b <= UNSORTED ensures BinOk(h, b) {
    }
  }
}
