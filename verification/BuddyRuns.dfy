/** Whole runs of the page allocator: what every answer was, in terms of the
    requests and answers before it. */
module BuddyRuns {
  import opened Dyadic
  import opened BuddyState
  import opened Buddy
  import opened Runs

  datatype Call = Alloc(size: nat) | Free(p: nat)

  function Index(zone: nat, p: nat): int { (p - zone) / PAGE_SIZE }

  /** `p` is the address of one of the blocks. */
  predicate Names(zone: nat, blocks: map<int, int>, p: nat) {
    p >= zone && p % PAGE_SIZE == 0 && Index(zone, p) in blocks
  }

  /** One request or return with its answer. A return of something that is not
      live is not made; returns answer 0. */
  ghost predicate Step(zone: nat, st: State, st': State, call: Call, answer: nat) {
    Sized(st) && Sized(st') &&
    match call
    case Alloc(size) =>
      && (answer == 0 <==> !exists s :: FreeRun(st, s, ServedOrder(size)))
      && (answer == 0 ==> st' == st && FirstFit(st.lists, ServedOrder(size)) >= MAX_ORDER)
      && (answer != 0 ==>
            && answer >= zone && answer == zone + Index(zone, answer) * PAGE_SIZE
            && FreeRun(st, Index(zone, answer), ServedOrder(size))
            && Live(st', NIL) == Live(st, NIL)[Index(zone, answer) := ServedOrder(size)]
            && Carved(st.lists, st'.lists, ServedOrder(size), Index(zone, answer)))
    case Free(p) =>
      && answer == 0
      && if Names(zone, Live(st, NIL), p) then
           && Live(st', NIL) == Live(st, NIL) - {Index(zone, p)}
           && Joined(st.lists, st'.lists, Index(zone, p), Live(st, NIL)[Index(zone, p)])
         else st' == st
  }

  /** The block came from the front of the first list that serves its order. */
  ghost predicate Carved(lists: seq<seq<int>>, lists': seq<seq<int>>, k: nat, s: int) {
    |lists| == MAX_ORDER &&
    var j := FirstFit(lists, k);
    j < MAX_ORDER && lists[j] != [] && s == lists[j][0] && lists' == CarvedLists(lists, j, k)
  }

  /** The block went back to the lists, joined with its buddies. */
  ghost predicate Joined(lists: seq<seq<int>>, lists': seq<seq<int>>, s: int, k: int) {
    |lists| == MAX_ORDER && 0 <= s && 0 <= k < MAX_ORDER && lists' == FreedLists(lists, s, k)
  }

  ghost predicate Sound(st: State) { Inv(st, NIL) }

  ghost function StepIn(zone: nat): (State, Call, nat, State) -> bool {
    (st: State, call: Call, answer: nat, st': State) => Step(zone, st, st', call, answer)
  }

  /** `trace` lists the states of a run from a zone in which nothing is live. */
  ghost predicate Run(zone: nat, calls: seq<Call>, answers: seq<nat>, trace: seq<State>) {
    IsRun(Sound, StepIn(zone), calls, answers, trace) && Sized(trace[0]) && Live(trace[0], NIL) == map[]
  }

  lemma StepOfRun(zone: nat, calls: seq<Call>, answers: seq<nat>, trace: seq<State>, n: nat)
    requires Run(zone, calls, answers, trace) && n < |calls|
    ensures Inv(trace[n], NIL) && Inv(trace[n + 1], NIL) && Step(zone, trace[n], trace[n + 1], calls[n], answers[n])
  {
    assert SoundAt(Sound, trace, n) && SoundAt(Sound, trace, n + 1) && StepAt(StepIn(zone), calls, answers, trace, n);
  }

  /** The caller's blocks after a call and its answer. */
  function NextOwned(zone: nat, blocks: map<int, int>, call: Call, answer: nat): map<int, int> {
    match call
    case Alloc(size) => if answer == 0 then blocks else blocks[Index(zone, answer) := ServedOrder(size)]
    case Free(p) => if Names(zone, blocks, p) then blocks - {Index(zone, p)} else blocks
  }

  /** What a caller owns who has made the first `n` calls and got those answers:
      each block's first frame, with its order. */
  function Owned(zone: nat, calls: seq<Call>, answers: seq<nat>, n: nat): map<int, int>
    requires n <= |calls| && n <= |answers|
  {
    if n == 0 then map[] else NextOwned(zone, Owned(zone, calls, answers, n - 1), calls[n - 1], answers[n - 1])
  }

  // ---- every run -------------------------------------------------------------------

  lemma StepOwned(zone: nat, st: State, st': State, call: Call, answer: nat)
    requires Step(zone, st, st', call, answer)
    ensures Live(st', NIL) == NextOwned(zone, Live(st, NIL), call, answer)
  {
  }

  lemma OwnedNext(zone: nat, calls: seq<Call>, answers: seq<nat>, trace: seq<State>, n: nat)
    requires Run(zone, calls, answers, trace) && n < |calls|
    ensures Sized(trace[n]) && Sized(trace[n + 1])
    ensures Live(trace[n + 1], NIL) == NextOwned(zone, Live(trace[n], NIL), calls[n], answers[n])
  {
    StepOfRun(zone, calls, answers, trace, n);
    StepOwned(zone, trace[n], trace[n + 1], calls[n], answers[n]);
  }

  /** At every point of every run exactly the caller's blocks are live. */
  lemma {:induction false} OwnedIsLive(zone: nat, calls: seq<Call>, answers: seq<nat>, trace: seq<State>, n: nat)
    requires Run(zone, calls, answers, trace) && n <= |calls|
    ensures Sized(trace[n]) && Live(trace[n], NIL) == Owned(zone, calls, answers, n)
  {
    if n > 0 {
      OwnedIsLive(zone, calls, answers, trace, n - 1);
      OwnedNext(zone, calls, answers, trace, n - 1);
    }
  }

  /** Frame `f` belongs to a block of the caller. */
  ghost predicate Taken(blocks: map<int, int>, f: int) { exists s :: Covers(blocks, s, f) }

  ghost predicate AlignedRun(s: int, k: nat) { 0 <= s && s + Pow2(k) <= NR_PAGES && Aligned(s, k) }

  /** A request is answered with null exactly when the caller's own blocks leave
      no naturally aligned run of its order untouched; otherwise the answer is
      such a run. */
  lemma NullIffTaken(zone: nat, calls: seq<Call>, answers: seq<nat>, trace: seq<State>, n: nat)
    requires Run(zone, calls, answers, trace) && n < |calls| && calls[n].Alloc?
    ensures var blocks, k := Owned(zone, calls, answers, n), ServedOrder(calls[n].size);
            && (answers[n] == 0 <==> forall s | AlignedRun(s, k) ::
                  exists f :: s <= f < s + Pow2(k) && Taken(blocks, f))
            && (answers[n] != 0 ==>
                  && AlignedRun(Index(zone, answers[n]), k)
                  && forall f | Index(zone, answers[n]) <= f < Index(zone, answers[n]) + Pow2(k) :: !Taken(blocks, f))
  {
    var blocks, k, st := Owned(zone, calls, answers, n), ServedOrder(calls[n].size), trace[n];
    OwnedIsLive(zone, calls, answers, trace, n);
    StepOfRun(zone, calls, answers, trace, n);
    forall s ensures FreeRun(st, s, k) <==> AlignedRun(s, k) && forall f | s <= f < s + Pow2(k) :: !Taken(blocks, f) {
      FreeRunIff(st, s, k);
    }
  }

  lemma FreeRunIff(st: State, s: int, k: nat)
    requires Inv(st, NIL)
    ensures FreeRun(st, s, k) <==> AlignedRun(s, k) && forall f | s <= f < s + Pow2(k) :: !Taken(Live(st, NIL), f)
  {
    if AlignedRun(s, k) {
      forall f | s <= f < s + Pow2(k) ensures st.tags[f] == ALLOCATED <==> Taken(Live(st, NIL), f) {
        AllocatedIffLive(st, f);
      }
    }
  }

  /** Whenever the caller has returned everything the zone is as it was made. */
  lemma AllReturned(zone: nat, calls: seq<Call>, answers: seq<nat>, trace: seq<State>, n: nat)
    requires Run(zone, calls, answers, trace) && n <= |calls| && Owned(zone, calls, answers, n) == map[]
    ensures trace[n].tags == InitialTags() && trace[n].lists == InitialState().lists
  {
    OwnedIsLive(zone, calls, answers, trace, n);
    assert SoundAt(Sound, trace, n);
    AllFreedIsInitial(trace[n]);
  }

  // ---- every answer follows from the calls ------------------------------------------------

  /** A book of the free lists and of what has been handed out. */
  datatype Book = Book(lists: seq<seq<int>>, owned: map<int, int>)

  ghost function FirstPage(): Book {
    Book(seq(MAX_ORDER, k => if k == MAX_ORDER - 1 then [0] else []), map[])
  }

  ghost function BookAnswer(zone: nat, book: Book, call: Call): nat {
    if call.Free? || |book.lists| != MAX_ORDER then 0
    else
      var j := FirstFit(book.lists, ServedOrder(call.size));
      if j < MAX_ORDER && book.lists[j][0] >= 0 then zone + book.lists[j][0] * PAGE_SIZE else 0
  }

  ghost function NextBook(zone: nat, book: Book, call: Call): Book {
    if |book.lists| != MAX_ORDER then book
    else
      match call
      case Alloc(size) =>
        var j := FirstFit(book.lists, ServedOrder(size));
        if j >= MAX_ORDER then book
        else Book(CarvedLists(book.lists, j, ServedOrder(size)), book.owned[book.lists[j][0] := ServedOrder(size)])
      case Free(p) =>
        var s := Index(zone, p);
        if Names(zone, book.owned, p) && s >= 0 && 0 <= book.owned[s] < MAX_ORDER then
          Book(FreedLists(book.lists, s, book.owned[s]), book.owned - {s})
        else book
  }

  /** The book after the first `n` calls. */
  ghost function BookAfter(zone: nat, calls: seq<Call>, n: nat): Book
    requires n <= |calls|
  {
    if n == 0 then FirstPage() else NextBook(zone, BookAfter(zone, calls, n - 1), calls[n - 1])
  }

  ghost predicate Booked(st: State, book: Book) {
    Sized(st) && book == Book(st.lists, Live(st, NIL))
  }

  lemma StepBooked(zone: nat, st: State, st': State, call: Call, answer: nat, book: Book)
    requires Inv(st, NIL) && Step(zone, st, st', call, answer) && Booked(st, book)
    ensures answer == BookAnswer(zone, book, call) && Booked(st', NextBook(zone, book, call))
  {
    match call
    case Alloc(size) =>
    case Free(p) =>
      if Names(zone, book.owned, p) { assert BlockOk(st, Index(zone, p)); }
  }

  lemma StepBookedInRun(zone: nat, calls: seq<Call>, answers: seq<nat>, trace: seq<State>, n: nat, book: Book)
    requires Run(zone, calls, answers, trace) && n < |calls| && Booked(trace[n], book)
    ensures answers[n] == BookAnswer(zone, book, calls[n]) && Booked(trace[n + 1], NextBook(zone, book, calls[n]))
  {
    StepOfRun(zone, calls, answers, trace, n);
    StepBooked(zone, trace[n], trace[n + 1], calls[n], answers[n], book);
  }

  lemma {:induction false} KeepsBook(zone: nat, calls: seq<Call>, answers: seq<nat>, trace: seq<State>, n: nat)
    requires Run(zone, calls, answers, trace) && n <= |calls|
    ensures Booked(trace[n], BookAfter(zone, calls, n))
  {
    if n == 0 {
      AllReturned(zone, calls, answers, trace, 0);
      assert InitialState().lists == FirstPage().lists;
    } else {
      KeepsBook(zone, calls, answers, trace, n - 1);
      StepBookedInRun(zone, calls, answers, trace, n - 1, BookAfter(zone, calls, n - 1));
    }
  }

  /** In every run each answer, address included, is what the book kept from the
      calls before it says. */
  lemma AnswersFromCalls(zone: nat, calls: seq<Call>, answers: seq<nat>, trace: seq<State>, n: nat)
    requires Run(zone, calls, answers, trace) && n < |calls|
    ensures answers[n] == BookAnswer(zone, BookAfter(zone, calls, n), calls[n])
  {
    KeepsBook(zone, calls, answers, trace, n);
    StepBookedInRun(zone, calls, answers, trace, n, BookAfter(zone, calls, n));
  }

  // ---- running the allocator ----------------------------------------------------------

  method PerformAlloc(b: BuddyAllocator, size: nat) returns (answer: nat)
    requires b.Valid() && SizeTerminates(size)
    modifies b, b.frameArray, b.freeLists, b.headers
    ensures b.Valid() && Step(b.zoneBegin, old(b.View()), b.View(), Alloc(size), answer)
  {
    answer := b.Allocate(size);
  }

  method PerformFree(b: BuddyAllocator, p: nat, owned: map<int, int>)
    requires b.Valid() && Live(b.View(), NIL) == owned
    modifies b, b.frameArray, b.freeLists, b.headers
    ensures b.Valid() && Step(b.zoneBegin, old(b.View()), b.View(), Free(p), 0)
  {
    if Names(b.zoneBegin, owned, p) {
      b.Deallocate(p);
    }
  }

  method Perform(b: BuddyAllocator, call: Call, owned: map<int, int>) returns (answer: nat, now: map<int, int>)
    requires b.Valid() && Live(b.View(), NIL) == owned
    requires call.Alloc? ==> SizeTerminates(call.size)
    modifies b, b.frameArray, b.freeLists, b.headers
    ensures b.Valid() && Live(b.View(), NIL) == now
    ensures Step(b.zoneBegin, old(b.View()), b.View(), call, answer)
  {
    ghost var st := b.View();
    answer := 0;
    match call {
      case Alloc(size) => answer := PerformAlloc(b, size);
      case Free(p) => PerformFree(b, p, owned);
    }
    StepOwned(b.zoneBegin, st, b.View(), call, answer);
    now := NextOwned(b.zoneBegin, owned, call, answer);
  }

  /** The allocator performs any list of calls, and what it does is a run. */
  method Replay(zone: nat, calls: seq<Call>) returns (b: BuddyAllocator, answers: seq<nat>, ghost trace: seq<State>)
    requires zone > 0 && zone % PAGE_SIZE == 0
    requires forall c | c in calls && c.Alloc? :: SizeTerminates(c.size)
    ensures fresh(b) && b.Valid() && b.zoneBegin == zone
    ensures Run(zone, calls, answers, trace) && trace[|calls|] == b.View()
    ensures trace[0].tags == InitialTags()
  {
    b := new BuddyAllocator(zone);
    ghost var first := b.View();
    answers, trace := [], [first];
    EmptyRun(Sound, StepIn(zone), b.View());
    assert calls[..0] == [];
    var owned := map[];
    for n := 0 to |calls|
      invariant b.Valid() && b.zoneBegin == zone
      invariant fresh(b) && fresh(b.frameArray) && fresh(b.freeLists) && fresh(b.headers)
      invariant Live(b.View(), NIL) == owned
      invariant IsRun(Sound, StepIn(zone), calls[..n], answers, trace) && trace[n] == b.View() && trace[0] == first
    {
      assert calls[n] in calls;
      var answer;
      answer, owned := Perform(b, calls[n], owned);
      Extend(Sound, StepIn(zone), calls, n, answers, trace, answer, b.View());
      answers, trace := answers + [answer], trace + [b.View()];
    }
    assert calls[..|calls|] == calls;
  }
}
