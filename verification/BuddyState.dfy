/** What a zone of the buddy allocator looks like, as a value, and what follows
    from its invariant without looking at the free lists. */
module BuddyState {
  import opened Lists
  import opened Dyadic

  const MAX_ORDER: nat := 10
  const NR_PAGES: nat := 512
  const PAGE_SIZE: nat := 4096
  const ALLOCATED: int := -1
  const DONT_ALLOCATE: int := -2
  /** A null `BlockHeader *`; any other link is an index into the header pool. */
  const NIL: int := -1

  datatype BlockHeader = BlockHeader(next: int, order: int, index: int)

  /** The three tables of the allocator, and two facts the source keeps only
      implicitly: which block each frame belongs to, and each list's contents.*/
  datatype State = State(
    tags: seq<int>,
    headers: seq<BlockHeader>,
    heads: seq<int>,
    owner: seq<int>,
    lists: seq<seq<int>>)

  ghost predicate Sized(st: State) {
    && |st.tags| == |st.headers| == |st.owner| == NR_PAGES
    && |st.heads| == |st.lists| == MAX_ORDER
    && forall i | 0 <= i < NR_PAGES :: st.headers[i].index == i
  }

  ghost predicate IsStart(st: State, s: int)
    requires Sized(st)
  {
    0 <= s < NR_PAGES && st.owner[s] == s
  }

  function Order(st: State, s: int): int
    requires Sized(st) && 0 <= s < NR_PAGES
  {
    st.headers[s].order
  }

  /** The block that starts at `s` is an aligned power of two inside the zone
      and owns exactly its own frames. */
  ghost predicate BlockOk(st: State, s: int)
    requires Sized(st) && 0 <= s < NR_PAGES
  {
    && 0 <= Order(st, s) < MAX_ORDER
    && Aligned(s, Order(st, s))
    && s + Pow2(Order(st, s)) <= NR_PAGES
    && forall f | s <= f < s + Pow2(Order(st, s)) :: st.owner[f] == s
  }

  /** Every frame lies in exactly one block. */
  ghost predicate Partitioned(st: State)
    requires Sized(st)
  {
    && (forall s | IsStart(st, s) :: BlockOk(st, s))
    && (forall f | 0 <= f < NR_PAGES ::
          IsStart(st, st.owner[f]) && st.owner[f] <= f < st.owner[f] + Pow2(Order(st, st.owner[f])))
  }

  /** The block at `s` is free: neither handed out nor `held` (taken off its
      list by an operation in progress; NIL when there is none). */
  ghost predicate IsFree(st: State, held: int, s: int)
    requires Sized(st)
  {
    IsStart(st, s) && s != held && st.tags[s] != ALLOCATED
  }

  ghost predicate FrameTagged(st: State, f: int)
    requires Sized(st) && 0 <= f < NR_PAGES && 0 <= st.owner[f] < NR_PAGES
  {
    st.tags[f] ==
      if st.tags[st.owner[f]] == ALLOCATED then ALLOCATED
      else if st.owner[f] == f then Order(st, f)
      else DONT_ALLOCATE
  }

  /** Frame tags agree with the partition, outside the held block. */
  ghost predicate Tagged(st: State, held: int)
    requires Sized(st) && Partitioned(st)
  {
    forall f | 0 <= f < NR_PAGES && st.owner[f] != held :: FrameTagged(st, f)
  }

  ghost predicate LinkOk(headers: seq<BlockHeader>, list: seq<int>, i: int)
    requires |headers| == NR_PAGES && 0 <= i < |list| && 0 <= list[i] < NR_PAGES
  {
    headers[list[i]].next == if i + 1 < |list| then list[i + 1] else NIL
  }

  /** `list` is the chain of `next` links from `head`, without repetition. */
  ghost predicate Chain(headers: seq<BlockHeader>, head: int, list: seq<int>)
    requires |headers| == NR_PAGES
  {
    && head == Head(list)
    && Distinct(list)
    && (forall i | 0 <= i < |list| :: 0 <= list[i] < NR_PAGES)
    && (forall i | 0 <= i < |list| :: LinkOk(headers, list, i))
  }

  /** List `k` is a proper chain of free blocks of order `k`. */
  ghost predicate ListOk(st: State, held: int, k: int)
    requires Sized(st) && 0 <= k < MAX_ORDER
  {
    && Chain(st.headers, st.heads[k], st.lists[k])
    && forall i | 0 <= i < |st.lists[k]| :: IsFree(st, held, st.lists[k][i]) && Order(st, st.lists[k][i]) == k
  }

  ghost predicate IsListed(st: State, s: int)
    requires Sized(st) && IsStart(st, s)
  {
    0 <= Order(st, s) < MAX_ORDER && s in st.lists[Order(st, s)]
  }

  /** Each free block is on exactly the list of its order, and the lists hold
      nothing else. */
  ghost predicate Listed(st: State, held: int)
    requires Sized(st)
  {
    && (forall k | 0 <= k < MAX_ORDER :: ListOk(st, held, k))
    && (forall s | IsFree(st, held, s) :: IsListed(st, s))
  }

  function Buddy(s: nat, k: nat): nat { Xor(s, Pow2(k)) }

  /** No two buddies of the same order are both free. */
  ghost predicate Coalesced(st: State, held: int)
    requires Sized(st) && Partitioned(st)
  {
    forall s | IsFree(st, held, s) && Order(st, s) < MAX_ORDER - 1 ::
      !(IsFree(st, held, Buddy(s, Order(st, s))) && Order(st, Buddy(s, Order(st, s))) == Order(st, s))
  }

  /** The invariant; `held` is NIL between operations. */
  ghost predicate Inv(st: State, held: int) {
    && Sized(st) && Partitioned(st)
    && (held != NIL ==> IsStart(st, held))
    && Tagged(st, held) && Listed(st, held) && Coalesced(st, held)
  }

  // ---- consequences of the partition ------------------------------------

  lemma Pow2Of9()
    ensures Pow2(9) == 512
  {
    assert Pow2(8) == 256 by { assert Pow2(4) == 16 && Pow2(6) == 64; }
  }

  /** Below the top order the buddy lies in the zone, is disjoint from the
      block, and the lower of the two starts the merged block. */
  lemma BuddyGeometry(s: nat, k: nat)
    requires k < MAX_ORDER - 1 && Aligned(s, k) && s + Pow2(k) <= NR_PAGES
    ensures var b := Buddy(s, k);
            var lo := if b < s then b else s;
            && b != s && Aligned(b, k) && b + Pow2(k) <= NR_PAGES && Buddy(b, k) == s
            && (b == s + Pow2(k) || b == s - Pow2(k))
            && Aligned(lo, k + 1) && lo + Pow2(k + 1) <= NR_PAGES
  {
    XorSibling(s, k);
    XorInvolution(s, k);
    Pow2Of9();
    AlignedZero(9);
    Nested(if Aligned(s, k + 1) then s else s - Pow2(k), k + 1, 0, 9, s);
  }

  /** The buddy of a whole block is always the start of a block, and that block
      is no larger: the header the source inspects there is never stale. */
  lemma BuddyIsStart(st: State, s: int)
    requires Sized(st) && Partitioned(st) && IsStart(st, s) && Order(st, s) < MAX_ORDER - 1
    ensures BlockOk(st, s)
    ensures IsStart(st, Buddy(s, Order(st, s)))
    ensures Order(st, Buddy(s, Order(st, s))) <= Order(st, s)
  {
    assert BlockOk(st, s);
    var k := Order(st, s);
    BuddyGeometry(s, k);
    var b := Buddy(s, k);
    var u := st.owner[b];
    assert IsStart(st, u) && BlockOk(st, u);
    var j := Order(st, u);
    var lo := if b < s then b else s;
    if j > k {
      Nested(lo, k + 1, u, j, b);
    } else {
      Nested(u, j, b, k, b);
    }
  }

  // ---- free runs ---------------------------------------------------------

  /** 2^k frames from `s`, naturally aligned, none of them handed out. */
  ghost predicate FreeRun(st: State, s: int, k: nat)
    requires Sized(st)
  {
    && 0 <= s && s + Pow2(k) <= NR_PAGES && Aligned(s, k)
    && forall f | s <= f < s + Pow2(k) :: st.tags[f] != ALLOCATED
  }

  /** With full coalescing a free block strictly inside a free run is
      impossible: its buddy would be a smaller one, and so on down. */
  lemma {:induction false} NoSmallBlockInRun(st: State, s: int, k: nat, u: int)
    requires Inv(st, NIL) && FreeRun(st, s, k)
    requires IsStart(st, u) && s <= u && u + Pow2(Order(st, u)) <= s + Pow2(k)
    ensures Order(st, u) >= k
    decreases Order(st, u)
  {
    assert BlockOk(st, u);
    var j := Order(st, u);
    if j < k {
      Pow2Of9();
      assert Pow2(10) == 1024;
      assert k <= 9 by {
        if k > 9 { Pow2Monotone(10, k); }
      }
      BuddyGeometry(u, j);
      BuddyIsStart(st, u);
      var b := Buddy(u, j);
      var lo := if b < u then b else u;
      Nested(lo, j + 1, s, k, u);
      assert st.tags[u] != ALLOCATED && st.tags[b] != ALLOCATED;
      assert IsFree(st, NIL, u) && IsFree(st, NIL, b);
      assert Order(st, b) < j;
      Pow2Monotone(Order(st, b), j);
      NoSmallBlockInRun(st, s, k, b);
    }
  }

  /** Every aligned free run lies inside one free block of at least its size. */
  lemma RunInsideFreeBlock(st: State, s: int, k: nat)
    requires Inv(st, NIL) && FreeRun(st, s, k)
    ensures k < MAX_ORDER
    ensures var u := st.owner[s];
            && IsFree(st, NIL, u) && Order(st, u) >= k
            && u <= s && s + Pow2(k) <= u + Pow2(Order(st, u))
  {
    var u := st.owner[s];
    assert IsStart(st, u) && BlockOk(st, u) && FrameTagged(st, s);
    var j := Order(st, u);
    if j < k {
      Nested(u, j, s, k, s);
      NoSmallBlockInRun(st, s, k, u);
    } else {
      Nested(s, k, u, j, s);
    }
  }

  // ---- the live blocks determine everything else --------------------------

  /** What callers own: start of each handed-out block, and its order. */
  ghost function Live(st: State, held: int): map<int, int>
    requires Sized(st)
  {
    map s | 0 <= s < NR_PAGES && st.owner[s] == s && s != held && st.tags[s] == ALLOCATED :: Order(st, s)
  }

  ghost predicate Covers(live: map<int, int>, s: int, f: int) {
    s in live && live[s] >= 0 && s <= f < s + Pow2(live[s])
  }

  /** A frame is tagged allocated exactly when it is inside a live block. */
  lemma AllocatedIffLive(st: State, f: int)
    requires Inv(st, NIL) && 0 <= f < NR_PAGES
    ensures st.tags[f] == ALLOCATED <==> exists s :: Covers(Live(st, NIL), s, f)
  {
    var u := st.owner[f];
    assert IsStart(st, u) && BlockOk(st, u) && FrameTagged(st, f);
    if st.tags[f] == ALLOCATED {
      assert Covers(Live(st, NIL), u, f);
    }
    if s :| Covers(Live(st, NIL), s, f) {
      assert IsStart(st, s) && BlockOk(st, s);
    }
  }

  lemma SameLiveSameAllocated(a: State, b: State, f: int)
    requires Inv(a, NIL) && Inv(b, NIL) && Live(a, NIL) == Live(b, NIL) && 0 <= f < NR_PAGES
    ensures a.tags[f] == ALLOCATED <==> b.tags[f] == ALLOCATED
  {
    AllocatedIffLive(a, f);
    AllocatedIffLive(b, f);
  }

  /** A free block of one state is inside a free block of the other. */
  lemma FreeBlockInOther(a: State, b: State, s: int)
    requires Inv(a, NIL) && Inv(b, NIL) && Live(a, NIL) == Live(b, NIL) && IsFree(a, NIL, s)
    ensures var u := b.owner[s];
            && IsFree(b, NIL, u) && Order(b, u) >= Order(a, s)
            && u <= s && s + Pow2(Order(a, s)) <= u + Pow2(Order(b, u))
  {
    assert BlockOk(a, s);
    forall f | s <= f < s + Pow2(Order(a, s))
      ensures b.tags[f] != ALLOCATED
    {
      assert FrameTagged(a, f);
      SameLiveSameAllocated(a, b, f);
    }
    RunInsideFreeBlock(b, s, Order(a, s));
  }

  lemma SameFreeBlock(a: State, b: State, s: int)
    requires Inv(a, NIL) && Inv(b, NIL) && Live(a, NIL) == Live(b, NIL) && IsFree(a, NIL, s)
    ensures IsFree(b, NIL, s) && Order(b, s) == Order(a, s)
  {
    FreeBlockInOther(a, b, s);
    var u := b.owner[s];
    assert BlockOk(a, s) && BlockOk(b, u);
    FreeBlockInOther(b, a, u);
    var v := a.owner[u];
    assert BlockOk(a, v);
    assert a.owner[s] == v;
  }

  /** The partition is canonical: two reachable states in which callers own the
      same blocks have the same tag on every frame, whatever the history. */
  lemma Canonical(a: State, b: State)
    requires Inv(a, NIL) && Inv(b, NIL) && Live(a, NIL) == Live(b, NIL)
    ensures a.tags == b.tags
    ensures forall k | 0 <= k < MAX_ORDER :: multiset(a.lists[k]) == multiset(b.lists[k])
  {
    forall f | 0 <= f < NR_PAGES
      ensures a.tags[f] == b.tags[f]
    {
      var u := a.owner[f];
      assert IsStart(a, u) && BlockOk(a, u) && FrameTagged(a, f);
      SameLiveSameAllocated(a, b, f);
      if a.tags[u] != ALLOCATED {
        SameFreeBlock(a, b, u);
        assert BlockOk(b, u);
        assert b.owner[f] == u && FrameTagged(b, f);
      }
    }
    forall k | 0 <= k < MAX_ORDER
      ensures multiset(a.lists[k]) == multiset(b.lists[k])
    {
      forall s
        ensures s in a.lists[k] <==> s in b.lists[k]
      {
        assert ListOk(a, NIL, k) && ListOk(b, NIL, k);
        if s in a.lists[k] { SameFreeBlock(a, b, s); assert IsListed(b, s); }
        if s in b.lists[k] { SameFreeBlock(b, a, s); assert IsListed(a, s); }
      }
      assert ListOk(a, NIL, k) && ListOk(b, NIL, k);
      SameElements(a.lists[k], b.lists[k]);
    }
  }

  lemma {:induction false} DistinctCount(l: seq<int>, x: int)
    requires Distinct(l)
    ensures multiset(l)[x] == if x in l then 1 else 0
  {
    if l != [] {
      assert l == [l[0]] + l[1..];
      DistinctCount(l[1..], x);
    }
  }

  lemma SameElements(a: seq<int>, b: seq<int>)
    requires Distinct(a) && Distinct(b) && forall x :: x in a <==> x in b
    ensures multiset(a) == multiset(b)
  {
    forall x
      ensures multiset(a)[x] == multiset(b)[x]
    {
      DistinctCount(a, x);
      DistinctCount(b, x);
    }
  }
}
