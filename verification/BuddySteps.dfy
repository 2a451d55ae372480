/** The elementary updates the allocator makes to a zone, as functions on its
    state, and the proof that each keeps the invariant. */
module BuddySteps {
  import opened Lists
  import opened Dyadic
  import opened BuddyState

  // ---- updates -----------------------------------------------------------

  function SetNext(h: seq<BlockHeader>, s: int, n: int): seq<BlockHeader>
    requires 0 <= s < |h|
  {
    h[s := h[s].(next := n)]
  }

  function SetOrder(h: seq<BlockHeader>, s: int, k: int): seq<BlockHeader>
    requires 0 <= s < |h|
  {
    h[s := h[s].(order := k)]
  }

  ghost predicate OnList(st: State, k: int, i: int) {
    Sized(st) && 0 <= k < MAX_ORDER && 0 <= i < |st.lists[k]| && Chain(st.headers, st.heads[k], st.lists[k])
  }

  /** Take entry `i` off free list `k`. */
  ghost function Unlink(st: State, k: int, i: int): State
    requires OnList(st, k, i)
  {
    var l := st.lists[k];
    var n := st.headers[l[i]].next;
    st.(headers := SetNext(if i == 0 then st.headers else SetNext(st.headers, l[i - 1], n), l[i], NIL),
        heads := if i == 0 then st.heads[k := n] else st.heads,
        lists := st.lists[k := RemoveAt(l, i)])
  }

  /** Put block `s` at the head of the list of its order. */
  ghost function Push(st: State, s: int): State
    requires Sized(st) && 0 <= s < NR_PAGES && 0 <= Order(st, s) < MAX_ORDER
  {
    var k := Order(st, s);
    st.(headers := SetNext(st.headers, s, st.heads[k]),
        heads := st.heads[k := s],
        lists := st.lists[k := [s] + st.lists[k]])
  }

  ghost function MarkAllocated(st: State, s: int): State
    requires Sized(st) && 0 <= s < NR_PAGES && Order(st, s) >= 0
  {
    st.(tags := Fill(st.tags, s, s + Pow2(Order(st, s)), ALLOCATED))
  }

  ghost function MarkAllocatable(st: State, s: int): State
    requires Sized(st) && 0 <= s < NR_PAGES && Order(st, s) >= 0
  {
    st.(tags := Fill(st.tags[s := Order(st, s)], s + 1, s + Pow2(Order(st, s)), DONT_ALLOCATE))
  }

  // ---- chains ------------------------------------------------------------

  /** Changing headers outside a list, or anything but `next`, keeps it. */
  lemma ChainFrame(h: seq<BlockHeader>, h': seq<BlockHeader>, head: int, l: seq<int>)
    requires |h| == |h'| == NR_PAGES && Chain(h, head, l)
    requires forall i | 0 <= i < |l| :: h'[l[i]].next == h[l[i]].next
    ensures Chain(h', head, l)
  {
    forall i | 0 <= i < |l| ensures LinkOk(h', l, i) {
      assert LinkOk(h, l, i);
    }
  }

  lemma ChainPush(h: seq<BlockHeader>, h': seq<BlockHeader>, head: int, l: seq<int>, s: int)
    requires |h| == |h'| == NR_PAGES && Chain(h, head, l) && s !in l && 0 <= s < NR_PAGES
    requires h'[s].next == head
    requires forall i | 0 <= i < |l| :: h'[l[i]].next == h[l[i]].next
    ensures Chain(h', s, [s] + l)
  {
    var m := [s] + l;
    forall i | 0 <= i < |m|
      ensures LinkOk(h', m, i)
    {
      if i > 0 {
        assert m[i] == l[i - 1] && LinkOk(h, l, i - 1);
      }
    }
  }

  lemma RemoveAtLink(h: seq<BlockHeader>, h': seq<BlockHeader>, head: int, l: seq<int>, i: nat, j: nat)
    requires |h| == |h'| == NR_PAGES && i < |l| && Chain(h, head, l) && j < |l| - 1
    requires i > 0 ==> h'[l[i - 1]].next == h[l[i]].next
    requires forall x | 0 <= x < NR_PAGES && x != l[i] && (i > 0 ==> x != l[i - 1]) :: h'[x].next == h[x].next
    ensures 0 <= RemoveAt(l, i)[j] < NR_PAGES && LinkOk(h', RemoveAt(l, i), j)
  {
    RemoveAtIndex(l, i);
    var e := if j < i then j else j + 1;
    assert LinkOk(h, l, e) && LinkOk(h, l, i);
    if e + 1 != i {
      assert l[e] != l[i] && (i > 0 ==> l[e] != l[i - 1]);
    }
  }

  lemma RemoveAtChain(h: seq<BlockHeader>, h': seq<BlockHeader>, head: int, head': int, l: seq<int>, i: nat)
    requires |h| == |h'| == NR_PAGES && i < |l| && Chain(h, head, l)
    requires h' == SetNext(if i == 0 then h else SetNext(h, l[i - 1], h[l[i]].next), l[i], NIL)
    requires head' == if i == 0 then h[l[i]].next else head
    ensures Chain(h', head', RemoveAt(l, i))
  {
    RemoveAtIndex(l, i);
    RemoveAtElements(l, i);
    assert LinkOk(h, l, 0);
    forall j | 0 <= j < |l| - 1
      ensures 0 <= RemoveAt(l, i)[j] < NR_PAGES && LinkOk(h', RemoveAt(l, i), j)
    {
      RemoveAtLink(h, h', head, l, i, j);
    }
  }

  // ---- preservation ------------------------------------------------------

  /** Freeing starts by holding the live block. */
  lemma HoldLive(st: State, s: int)
    requires Inv(st, NIL) && IsStart(st, s) && st.tags[s] == ALLOCATED
    ensures Inv(st, s) && Live(st, s) == Live(st, NIL) - {s}
  {
    forall k | 0 <= k < MAX_ORDER ensures ListOk(st, s, k) {
      assert ListOk(st, NIL, k);
    }
    CoalescedFrame(st, NIL, st, s);
  }

  lemma UnlinkChains(st: State, held: int, k: int, i: int)
    requires Sized(st) && Listed(st, held) && OnList(st, k, i)
    ensures var st' := Unlink(st, k, i);
            forall j | 0 <= j < MAX_ORDER :: Chain(st'.headers, st'.heads[j], st'.lists[j])
  {
    var st' := Unlink(st, k, i);
    forall j | 0 <= j < MAX_ORDER
      ensures Chain(st'.headers, st'.heads[j], st'.lists[j])
    {
      assert ListOk(st, held, j);
      if j == k {
        RemoveAtChain(st.headers, st'.headers, st.heads[k], st'.heads[k], st.lists[k], i);
      } else {
        assert ListOk(st, held, k);
        ChainFrame(st.headers, st'.headers, st.heads[j], st.lists[j]);
      }
    }
  }

  lemma UnlinkMembers(st: State, held: int, k: int, i: int, lists': seq<seq<int>>)
    requires Sized(st) && Listed(st, held) && OnList(st, k, i) && lists' == st.lists[k := RemoveAt(st.lists[k], i)]
    ensures forall j, x | 0 <= j < MAX_ORDER && x in lists'[j] ::
              IsFree(st, held, x) && Order(st, x) == j && x != st.lists[k][i]
    ensures forall x | IsFree(st, held, x) && x != st.lists[k][i] ::
              0 <= Order(st, x) < MAX_ORDER && x in lists'[Order(st, x)]
  {
    assert ListOk(st, held, k);
    RemoveAtElements(st.lists[k], i);
    forall j, x | 0 <= j < MAX_ORDER && x in lists'[j]
      ensures IsFree(st, held, x) && Order(st, x) == j && x != st.lists[k][i]
    {
      assert ListOk(st, held, j);
    }
    forall x | IsFree(st, held, x) && x != st.lists[k][i]
      ensures 0 <= Order(st, x) < MAX_ORDER && x in lists'[Order(st, x)]
    {
      assert IsListed(st, x);
    }
  }

  /** Taking entry `i` off list `k` leaves every other free block listed. */
  lemma UnlinkKeepsListed(st: State, held: int, k: int, i: int, s: int)
    requires Sized(st) && Listed(st, held) && OnList(st, k, i) && s == st.lists[k][i]
    ensures Detached(st, held, Unlink(st, k, i), s)
  {
    var st' := Unlink(st, k, i);
    UnlinkMembers(st, held, k, i, st'.lists);
    UnlinkChains(st, held, k, i);
    forall x | IsFree(st, held, x) && x != s ensures IsListed(st', x) {
      assert Order(st', x) == Order(st, x);
    }
  }

  /** The pieces of the invariant, put together after an update. */
  lemma Assemble(st: State, held: int)
    requires Sized(st) && Partitioned(st) && (held != NIL ==> IsStart(st, held))
    requires Tagged(st, held) && Coalesced(st, held)
    requires forall j | 0 <= j < MAX_ORDER :: Chain(st.headers, st.heads[j], st.lists[j])
    requires forall j, x | 0 <= j < MAX_ORDER && x in st.lists[j] :: IsFree(st, held, x) && Order(st, x) == j
    requires forall x | IsFree(st, held, x) :: IsListed(st, x)
    ensures Inv(st, held)
  {
    forall j | 0 <= j < MAX_ORDER
      ensures ListOk(st, held, j)
    {
      forall e | 0 <= e < |st.lists[j]|
        ensures IsFree(st, held, st.lists[j][e]) && Order(st, st.lists[j][e]) == j
      {
        assert st.lists[j][e] in st.lists[j];
      }
    }
  }

  /** `st'` is `st` with block `s` off the lists and otherwise as before. */
  ghost predicate Detached(st: State, held: int, st': State, s: int) {
    && Sized(st) && Sized(st') && st'.owner == st.owner && st'.tags == st.tags
    && (forall u | 0 <= u < NR_PAGES :: Order(st', u) == Order(st, u))
    && (forall j | 0 <= j < MAX_ORDER :: Chain(st'.headers, st'.heads[j], st'.lists[j]))
    && (forall j, x | 0 <= j < MAX_ORDER && x in st'.lists[j] :: IsFree(st, held, x) && Order(st, x) == j && x != s)
    && (forall x | IsFree(st, held, x) && x != s :: IsListed(st', x))
  }

  lemma DetachedKeepsInv(st: State, st': State, s: int)
    requires Sized(st) && Partitioned(st) && Tagged(st, NIL) && Coalesced(st, NIL)
    requires IsFree(st, NIL, s) && Detached(st, NIL, st', s)
    ensures Inv(st', s)
  {
    PartitionFrame(st, st');
    DetachedTagged(st, st', s);
    CoalescedFrame(st, NIL, st', s);
    DetachedMembers(st, st', s);
    Assemble(st', s);
  }

  lemma DetachedTagged(st: State, st': State, s: int)
    requires Sized(st) && Partitioned(st) && Tagged(st, NIL) && Detached(st, NIL, st', s) && Partitioned(st')
    ensures Tagged(st', s)
  {
    forall f | 0 <= f < NR_PAGES && st'.owner[f] != s
      ensures FrameTagged(st', f)
    {
      assert FrameTagged(st, f);
    }
  }

  lemma DetachedMembers(st: State, st': State, s: int)
    requires Sized(st) && Detached(st, NIL, st', s) && Partitioned(st')
    ensures forall j, x | 0 <= j < MAX_ORDER && x in st'.lists[j] :: IsFree(st', s, x) && Order(st', x) == j
  {
    forall j, x | 0 <= j < MAX_ORDER && x in st'.lists[j]
      ensures IsFree(st', s, x) && Order(st', x) == j
    {
      assert IsFree(st, NIL, x);
    }
  }

  /** Allocation starts by taking a free block off its list. */
  lemma TakeKeepsInv(st: State, k: int, i: int)
    requires Inv(st, NIL) && OnList(st, k, i)
    ensures Inv(Unlink(st, k, i), st.lists[k][i])
    ensures Order(Unlink(st, k, i), st.lists[k][i]) == k
    ensures Live(Unlink(st, k, i), st.lists[k][i]) == Live(st, NIL)
  {
    assert ListOk(st, NIL, k);
    UnlinkKeepsListed(st, NIL, k, i, st.lists[k][i]);
    DetachedKeepsInv(st, Unlink(st, k, i), st.lists[k][i]);
  }

  /** Losing free blocks cannot create a free pair of buddies. */
  lemma CoalescedFrame(st: State, held: int, st': State, held': int)
    requires Sized(st) && Sized(st') && Partitioned(st) && Partitioned(st') && Coalesced(st, held)
    requires forall x | IsFree(st', held', x) :: IsFree(st, held, x) && Order(st', x) == Order(st, x)
    ensures Coalesced(st', held')
  {
    forall x | IsFree(st', held', x) && Order(st', x) < MAX_ORDER - 1
      ensures !(IsFree(st', held', Buddy(x, Order(st', x))) && Order(st', Buddy(x, Order(st', x))) == Order(st', x))
    {
      assert IsFree(st, held, x);
    }
  }

  lemma PartitionFrame(st: State, st': State)
    requires Sized(st) && Sized(st') && Partitioned(st) && st'.owner == st.owner
    requires forall u | 0 <= u < NR_PAGES :: Order(st', u) == Order(st, u)
    ensures Partitioned(st')
  {
    forall s | IsStart(st', s) ensures BlockOk(st', s) {
      assert IsStart(st, s) && BlockOk(st, s);
    }
    forall f | 0 <= f < NR_PAGES
      ensures IsStart(st', st'.owner[f]) && st'.owner[f] <= f < st'.owner[f] + Pow2(Order(st', st'.owner[f]))
    {
      assert IsStart(st, st.owner[f]);
    }
  }

  // ---- splitting ---------------------------------------------------------

  ghost predicate CanSplit(st: State, s: int) {
    Sized(st) && IsStart(st, s) && BlockOk(st, s) && Order(st, s) > 0
  }

  /** Halve the held block `s`; the upper half becomes a free block. */
  ghost function Split(st: State, s: int): State
    requires CanSplit(st, s)
  {
    var k := Order(st, s) - 1;
    var b := s + Pow2(k);
    var st1 := st.(headers := SetOrder(SetOrder(st.headers, s, k), b, k),
                   owner := Fill(st.owner, b, b + Pow2(k), b));
    Push(MarkAllocatable(st1, b), b)
  }

  /** What `Split` does to each table, entry by entry. */
  ghost predicate SplitShape(st: State, st': State, s: int, b: int, k: nat) {
    && CanSplit(st, s) && Sized(st') && k == Order(st, s) - 1 && b == s + Pow2(k)
    && (forall u | 0 <= u < NR_PAGES :: Order(st', u) == if u == s || u == b then k else Order(st, u))
    && (forall f | 0 <= f < NR_PAGES :: st'.owner[f] == if b <= f < b + Pow2(k) then b else st.owner[f])
    && (forall f | 0 <= f < NR_PAGES :: st'.tags[f] ==
          if f == b then k else if b < f < b + Pow2(k) then DONT_ALLOCATE else st.tags[f])
    && (forall u | 0 <= u < NR_PAGES && u != b :: st'.headers[u].next == st.headers[u].next)
    && st'.headers[b].next == st.heads[k]
    && st'.heads == st.heads[k := b]
    && st'.lists == st.lists[k := [b] + st.lists[k]]
  }

  lemma SplitHasShape(st: State, s: int)
    requires CanSplit(st, s)
    ensures SplitShape(st, Split(st, s), s, s + Pow2(Order(st, s) - 1), Order(st, s) - 1)
  {
  }

  lemma SplitBlocks(st: State, st': State, s: int, b: int, k: nat)
    requires SplitShape(st, st', s, b, k) && Partitioned(st)
    ensures forall u | IsStart(st', u) :: BlockOk(st', u)
  {
    AlignedHalf(s, k);
    forall u | IsStart(st', u)
      ensures BlockOk(st', u)
    {
      if u != b && u != s {
        assert IsStart(st, u) && BlockOk(st, u);
      }
    }
  }

  lemma SplitPartition(st: State, st': State, s: int, b: int, k: nat)
    requires SplitShape(st, st', s, b, k) && Partitioned(st)
    ensures Partitioned(st') && IsStart(st', s)
  {
    SplitBlocks(st, st', s, b, k);
    forall f | 0 <= f < NR_PAGES
      ensures IsStart(st', st'.owner[f]) && st'.owner[f] <= f < st'.owner[f] + Pow2(Order(st', st'.owner[f]))
    {
      assert IsStart(st, st.owner[f]);
    }
  }

  lemma SplitTags(st: State, st': State, s: int, b: int, k: nat)
    requires SplitShape(st, st', s, b, k) && Partitioned(st) && Partitioned(st') && Tagged(st, s)
    ensures Tagged(st', s)
  {
    forall f | 0 <= f < NR_PAGES && st'.owner[f] != s
      ensures FrameTagged(st', f)
    {
      if st.owner[f] != s {
        assert FrameTagged(st, f) && IsStart(st, st.owner[f]);
      }
    }
  }

  lemma SplitFree(st: State, st': State, s: int, b: int, k: nat)
    requires SplitShape(st, st', s, b, k)
    ensures !IsStart(st, b) && IsFree(st', s, b) && Order(st', b) == Order(st', s) == k
    ensures forall x | x != b :: IsFree(st', s, x) <==> IsFree(st, s, x)
    ensures forall x | IsFree(st, s, x) :: Order(st', x) == Order(st, x)
  {
  }

  lemma SplitCoalesced(st: State, st': State, s: int, b: int, k: nat)
    requires SplitShape(st, st', s, b, k) && Partitioned(st) && Partitioned(st') && Coalesced(st, s)
    ensures Coalesced(st', s)
  {
    SplitFree(st, st', s, b, k);
    AlignedHalf(s, k);
    XorSibling(s, k);
    XorInvolution(s, k);
    forall x | IsFree(st', s, x) && Order(st', x) < MAX_ORDER - 1
      ensures !(IsFree(st', s, Buddy(x, Order(st', x))) && Order(st', Buddy(x, Order(st', x))) == Order(st', x))
    {
      if x != b && Buddy(x, Order(st', x)) == b && Order(st', x) == k {
        assert BlockOk(st', x);
        XorInvolution(x, k);
      }
    }
  }

  lemma SplitChain(st: State, st': State, s: int, b: int, k: nat, j: nat)
    requires SplitShape(st, st', s, b, k) && j < MAX_ORDER && ListOk(st, s, j)
    ensures Chain(st'.headers, st'.heads[j], st'.lists[j])
    ensures forall x | x in st'.lists[j] :: IsFree(st', s, x) && Order(st', x) == j
  {
    SplitFree(st, st', s, b, k);
    var l := st.lists[j];
    assert forall i | 0 <= i < |l| :: IsFree(st, s, l[i]) && l[i] != b;
    if j == k {
      ChainPush(st.headers, st'.headers, st.heads[j], l, b);
    } else {
      ChainFrame(st.headers, st'.headers, st.heads[j], l);
    }
  }

  lemma SplitListed(st: State, st': State, s: int, b: int, k: nat, x: int)
    requires SplitShape(st, st', s, b, k) && Listed(st, s) && IsFree(st', s, x)
    ensures IsListed(st', x)
  {
    SplitFree(st, st', s, b, k);
    if x == b {
      assert b in [b] + st.lists[k];
    } else {
      assert IsFree(st, s, x) && IsListed(st, x);
    }
  }

  lemma SplitLive(st: State, st': State, s: int, b: int, k: nat)
    requires SplitShape(st, st', s, b, k)
    ensures Live(st', s) == Live(st, s)
  {
  }

  lemma SplitShapeKeepsInv(st: State, st': State, s: int, b: int, k: nat)
    requires Inv(st, s) && SplitShape(st, st', s, b, k)
    ensures Inv(st', s)
  {
    SplitPartition(st, st', s, b, k);
    SplitTags(st, st', s, b, k);
    SplitCoalesced(st, st', s, b, k);
    forall j | 0 <= j < MAX_ORDER
      ensures Chain(st'.headers, st'.heads[j], st'.lists[j])
      ensures forall x | x in st'.lists[j] :: IsFree(st', s, x) && Order(st', x) == j
    {
      SplitChain(st, st', s, b, k, j);
    }
    forall x | IsFree(st', s, x)
      ensures IsListed(st', x)
    {
      SplitListed(st, st', s, b, k, x);
    }
    Assemble(st', s);
  }

  lemma SplitKeepsInv(st: State, s: int)
    requires Inv(st, s) && CanSplit(st, s)
    ensures Inv(Split(st, s), s) && Order(Split(st, s), s) == Order(st, s) - 1
    ensures Live(Split(st, s), s) == Live(st, s)
  {
    var k := Order(st, s) - 1;
    SplitHasShape(st, s);
    SplitShapeKeepsInv(st, Split(st, s), s, s + Pow2(k), k);
    SplitLive(st, Split(st, s), s, s + Pow2(k), k);
  }

  // ---- handing the held block out ----------------------------------------

  ghost predicate CommitShape(st: State, st': State, s: int) {
    && Sized(st) && IsStart(st, s) && BlockOk(st, s)
    && st' == st.(tags := st'.tags) && |st'.tags| == NR_PAGES
    && (forall f | 0 <= f < NR_PAGES :: st'.tags[f] ==
          if s <= f < s + Pow2(Order(st, s)) then ALLOCATED else st.tags[f])
  }

  lemma CommitTags(st: State, st': State, s: int)
    requires CommitShape(st, st', s) && Partitioned(st) && Partitioned(st') && Tagged(st, s)
    ensures Tagged(st', NIL)
  {
    forall f | 0 <= f < NR_PAGES
      ensures FrameTagged(st', f)
    {
      if st.owner[f] != s {
        assert FrameTagged(st, f) && IsStart(st, st.owner[f]);
      }
    }
  }

  lemma CommitFree(st: State, st': State, s: int)
    requires CommitShape(st, st', s)
    ensures forall x :: IsFree(st', NIL, x) <==> IsFree(st, s, x)
    ensures Live(st', NIL) == Live(st, s)[s := Order(st, s)]
  {
  }

  lemma CommitLists(st: State, st': State, s: int)
    requires CommitShape(st, st', s) && Listed(st, s)
    requires forall x :: IsFree(st', NIL, x) <==> IsFree(st, s, x)
    ensures Listed(st', NIL)
  {
    forall j | 0 <= j < MAX_ORDER
      ensures ListOk(st', NIL, j)
    {
      assert ListOk(st, s, j);
    }
    forall x | IsFree(st', NIL, x)
      ensures IsListed(st', x)
    {
      assert IsFree(st, s, x) && IsListed(st, x);
    }
  }

  lemma CommitKeepsInv(st: State, s: int)
    requires Inv(st, s) && s != NIL && BlockOk(st, s)
    ensures Inv(MarkAllocated(st, s), NIL)
    ensures Live(MarkAllocated(st, s), NIL) == Live(st, s)[s := Order(st, s)]
  {
    var st' := MarkAllocated(st, s);
    assert CommitShape(st, st', s);
    PartitionFrame(st, st');
    CommitTags(st, st', s);
    CommitFree(st, st', s);
    CommitLists(st, st', s);
    CoalescedFrame(st, s, st', NIL);
  }

  // ---- merging -----------------------------------------------------------

  /** `st'` joins the blocks at `lo` and `hi`, both of order `k`, into one. */
  ghost predicate JoinShape(st: State, st': State, lo: int, hi: int, k: nat) {
    && Sized(st) && Sized(st') && k < MAX_ORDER - 1
    && IsStart(st, lo) && IsStart(st, hi) && Order(st, lo) == Order(st, hi) == k
    && hi == lo + Pow2(k) && Aligned(lo, k + 1) && lo + Pow2(k + 1) <= NR_PAGES
    && st'.tags == st.tags
    && (forall u | 0 <= u < NR_PAGES :: Order(st', u) == if u == lo then k + 1 else Order(st, u))
    && (forall f | 0 <= f < NR_PAGES :: st'.owner[f] == if lo <= f < lo + Pow2(k + 1) then lo else st.owner[f])
  }

  lemma JoinPartition(st: State, st': State, lo: int, hi: int, k: nat)
    requires JoinShape(st, st', lo, hi, k) && Partitioned(st)
    ensures Partitioned(st') && IsStart(st', lo) && !IsStart(st', hi)
  {
    assert BlockOk(st, lo) && BlockOk(st, hi);
    forall u | IsStart(st', u)
      ensures BlockOk(st', u)
    {
      if u != lo {
        assert IsStart(st, u) && BlockOk(st, u);
      }
    }
    forall f | 0 <= f < NR_PAGES
      ensures IsStart(st', st'.owner[f]) && st'.owner[f] <= f < st'.owner[f] + Pow2(Order(st', st'.owner[f]))
    {
      var u := st.owner[f];
      assert IsStart(st, u) && BlockOk(st, u);
    }
  }

  lemma JoinFree(st: State, st': State, s: int, b: int, lo: int, hi: int, k: nat, x: int)
    requires JoinShape(st, st', lo, hi, k) && Partitioned(st)
    requires (s == lo && b == hi) || (s == hi && b == lo)
    ensures IsFree(st', lo, x) <==> IsFree(st, s, x) && x != b
    ensures IsFree(st', lo, x) ==> Order(st', x) == Order(st, x)
  {
    assert BlockOk(st, lo) && BlockOk(st, hi);
  }

  lemma JoinKeepsTags(st: State, st': State, s: int, b: int, lo: int, hi: int, k: nat)
    requires JoinShape(st, st', lo, hi, k) && Partitioned(st) && Partitioned(st') && Tagged(st, s)
    requires (s == lo && b == hi) || (s == hi && b == lo)
    ensures Tagged(st', lo)
  {
    assert BlockOk(st, lo) && BlockOk(st, hi);
    forall f | 0 <= f < NR_PAGES && st'.owner[f] != lo
      ensures FrameTagged(st', f)
    {
      assert st.owner[f] != s && FrameTagged(st, f) && IsStart(st, st.owner[f]);
    }
  }

  /** The held block `s` absorbs its free buddy `b`, already off its list. */
  ghost predicate Absorbs(st: State, st1: State, st': State, s: int, b: int, lo: int, hi: int, k: nat) {
    && Detached(st, s, st1, b)
    && ((s == lo && b == hi) || (s == hi && b == lo))
    && JoinShape(st1, st', lo, hi, k)
    && st'.heads == st1.heads && st'.lists == st1.lists
    && (forall u | 0 <= u < NR_PAGES :: st'.headers[u].next == st1.headers[u].next)
  }

  lemma AbsorbsPartition(st: State, st1: State, st': State, s: int, b: int, lo: int, hi: int, k: nat)
    requires Absorbs(st, st1, st', s, b, lo, hi, k) && Partitioned(st) && Tagged(st, s)
    ensures Partitioned(st1) && Partitioned(st') && Tagged(st', lo) && IsStart(st', lo)
  {
    PartitionFrame(st, st1);
    JoinPartition(st1, st', lo, hi, k);
    forall f | 0 <= f < NR_PAGES && st1.owner[f] != s ensures FrameTagged(st1, f) {
      assert FrameTagged(st, f);
    }
    JoinKeepsTags(st1, st', s, b, lo, hi, k);
  }

  lemma AbsorbsFree(st: State, st1: State, st': State, s: int, b: int, lo: int, hi: int, k: nat, x: int)
    requires Absorbs(st, st1, st', s, b, lo, hi, k) && Partitioned(st1)
    ensures IsFree(st', lo, x) <==> IsFree(st, s, x) && x != b
    ensures IsFree(st', lo, x) ==> Order(st', x) == Order(st, x)
  {
    JoinFree(st1, st', s, b, lo, hi, k, x);
  }

  lemma AbsorbsCoalesced(st: State, st1: State, st': State, s: int, b: int, lo: int, hi: int, k: nat)
    requires Absorbs(st, st1, st', s, b, lo, hi, k) && Partitioned(st) && Partitioned(st1) && Partitioned(st')
    requires Coalesced(st, s)
    ensures Coalesced(st', lo)
  {
    forall x | IsFree(st', lo, x)
      ensures IsFree(st, s, x) && Order(st', x) == Order(st, x)
    {
      AbsorbsFree(st, st1, st', s, b, lo, hi, k, x);
    }
    CoalescedFrame(st, s, st', lo);
  }

  lemma AbsorbsListed(st: State, st1: State, st': State, s: int, b: int, lo: int, hi: int, k: nat)
    requires Absorbs(st, st1, st', s, b, lo, hi, k) && Partitioned(st1)
    ensures Listed(st', lo)
  {
    forall x
      ensures IsFree(st', lo, x) <==> IsFree(st, s, x) && x != b
      ensures IsFree(st', lo, x) ==> Order(st', x) == Order(st, x)
    {
      AbsorbsFree(st, st1, st', s, b, lo, hi, k, x);
    }
    JoinLists(st, st1, st', s, b, lo);
    forall j | 0 <= j < MAX_ORDER
      ensures ListOk(st', lo, j)
    {
      forall e | 0 <= e < |st'.lists[j]|
        ensures IsFree(st', lo, st'.lists[j][e]) && Order(st', st'.lists[j][e]) == j
      {
        assert st'.lists[j][e] in st'.lists[j];
      }
    }
  }

  lemma AbsorbsKeepsInv(st: State, st1: State, st': State, s: int, b: int, lo: int, hi: int, k: nat)
    requires Absorbs(st, st1, st', s, b, lo, hi, k) && Partitioned(st) && Tagged(st, s) && Coalesced(st, s)
    ensures Inv(st', lo)
  {
    AbsorbsPartition(st, st1, st', s, b, lo, hi, k);
    AbsorbsCoalesced(st, st1, st', s, b, lo, hi, k);
    AbsorbsListed(st, st1, st', s, b, lo, hi, k);
  }

  lemma AbsorbsLive(st: State, st1: State, st': State, s: int, b: int, lo: int, hi: int, k: nat)
    requires Absorbs(st, st1, st', s, b, lo, hi, k) && Partitioned(st) && IsFree(st, s, b)
    ensures Live(st', lo) == Live(st, s)
  {
    PartitionFrame(st, st1);
    JoinLive(st1, st', s, b, lo, hi, k);
    assert Live(st1, s) == Live(st, s);
  }

  lemma JoinLists(st: State, st1: State, st': State, s: int, b: int, lo: int)
    requires Detached(st, s, st1, b) && Sized(st') && st'.heads == st1.heads && st'.lists == st1.lists
    requires forall u | 0 <= u < NR_PAGES :: st'.headers[u].next == st1.headers[u].next
    requires forall x :: IsFree(st', lo, x) <==> IsFree(st, s, x) && x != b
    requires forall x | IsFree(st', lo, x) :: Order(st', x) == Order(st, x)
    ensures forall j | 0 <= j < MAX_ORDER :: Chain(st'.headers, st'.heads[j], st'.lists[j])
    ensures forall j, x | 0 <= j < MAX_ORDER && x in st'.lists[j] :: IsFree(st', lo, x) && Order(st', x) == j
    ensures forall x | IsFree(st', lo, x) :: IsListed(st', x)
  {
    forall j | 0 <= j < MAX_ORDER
      ensures Chain(st'.headers, st'.heads[j], st'.lists[j])
    {
      ChainFrame(st1.headers, st'.headers, st1.heads[j], st1.lists[j]);
    }
    forall x | IsFree(st', lo, x)
      ensures IsListed(st', x)
    {
      assert IsListed(st1, x);
    }
  }

  lemma JoinLive(st: State, st': State, s: int, b: int, lo: int, hi: int, k: nat)
    requires JoinShape(st, st', lo, hi, k) && Partitioned(st)
    requires (s == lo && b == hi) || (s == hi && b == lo)
    requires st.tags[b] != ALLOCATED
    ensures Live(st', lo) == Live(st, s)
  {
    assert BlockOk(st, lo) && BlockOk(st, hi);
  }

  ghost predicate CanMerge(st: State, s: int, i: int) {
    && Sized(st) && IsStart(st, s) && BlockOk(st, s) && Order(st, s) < MAX_ORDER - 1
    && OnList(st, Order(st, s), i) && st.lists[Order(st, s)][i] == Buddy(s, Order(st, s))
    && Order(st, st.lists[Order(st, s)][i]) == Order(st, s)
  }

  /** Merge the held block `s` with its free buddy, entry `i` of its list. */
  ghost function Merge(st: State, s: int, i: int): State
    requires CanMerge(st, s, i)
  {
    var k := Order(st, s);
    var b := Buddy(s, k);
    BuddyGeometry(s, k);
    var lo := if b < s then b else s;
    var st1 := Unlink(st, k, i);
    st1.(headers := SetOrder(st1.headers, lo, k + 1), owner := Fill(st1.owner, lo, lo + Pow2(k + 1), lo))
  }

  lemma MergeAbsorbs(st: State, s: int, i: int, b: int, lo: int, hi: int, k: nat)
    requires CanMerge(st, s, i) && Listed(st, s) && k == Order(st, s) && b == Buddy(s, k)
    requires lo == (if b < s then b else s) && hi == (if b < s then s else b)
    ensures IsFree(st, s, b) && Absorbs(st, Unlink(st, k, i), Merge(st, s, i), s, b, lo, hi, k)
  {
    BuddyGeometry(s, k);
    assert ListOk(st, s, k);
    UnlinkKeepsListed(st, s, k, i, b);
    MergeIsAbsorb(st, Unlink(st, k, i), Merge(st, s, i), s, b, lo, hi, k);
  }

  lemma MergeKeepsInv(st: State, s: int, i: int)
    requires Inv(st, s) && CanMerge(st, s, i)
    ensures var b := Buddy(s, Order(st, s));
            var lo := if b < s then b else s;
            && Inv(Merge(st, s, i), lo) && Live(Merge(st, s, i), lo) == Live(st, s)
            && Order(Merge(st, s, i), lo) == Order(st, s) + 1
  {
    var k := Order(st, s);
    var b := Buddy(s, k);
    var lo := if b < s then b else s;
    var hi := if b < s then s else b;
    MergeAbsorbs(st, s, i, b, lo, hi, k);
    AbsorbsKeepsInv(st, Unlink(st, k, i), Merge(st, s, i), s, b, lo, hi, k);
    AbsorbsLive(st, Unlink(st, k, i), Merge(st, s, i), s, b, lo, hi, k);
  }

  lemma MergeIsAbsorb(st: State, st1: State, st': State, s: int, b: int, lo: int, hi: int, k: nat)
    requires Detached(st, s, st1, b) && IsStart(st, s) && IsStart(st, b) && k < MAX_ORDER - 1
    requires Order(st, s) == Order(st, b) == k && Aligned(lo, k + 1) && lo + Pow2(k + 1) <= NR_PAGES
    requires lo == (if b < s then b else s) && hi == (if b < s then s else b) && hi == lo + Pow2(k)
    requires st' == st1.(headers := SetOrder(st1.headers, lo, k + 1),
                         owner := Fill(st1.owner, lo, lo + Pow2(k + 1), lo))
    ensures Absorbs(st, st1, st', s, b, lo, hi, k)
  {
  }

  // ---- putting the held block back ---------------------------------------

  /** The held block may go on its list: its buddy is not free as a whole. */
  ghost predicate CannotMerge(st: State, s: int)
    requires Sized(st) && 0 <= s < NR_PAGES && 0 <= Order(st, s)
  {
    Order(st, s) < MAX_ORDER - 1 ==>
      !(IsFree(st, s, Buddy(s, Order(st, s))) && Order(st, Buddy(s, Order(st, s))) == Order(st, s))
  }

  ghost predicate ReleaseShape(st: State, st': State, s: int, k: nat) {
    && Sized(st) && Sized(st') && IsStart(st, s) && BlockOk(st, s) && k == Order(st, s)
    && st'.owner == st.owner
    && (forall u | 0 <= u < NR_PAGES :: Order(st', u) == Order(st, u))
    && (forall f | 0 <= f < NR_PAGES :: st'.tags[f] ==
          if f == s then k else if s < f < s + Pow2(k) then DONT_ALLOCATE else st.tags[f])
    && (forall u | 0 <= u < NR_PAGES && u != s :: st'.headers[u].next == st.headers[u].next)
    && st'.headers[s].next == st.heads[k]
    && st'.heads == st.heads[k := s]
    && st'.lists == st.lists[k := [s] + st.lists[k]]
  }

  lemma ReleaseTags(st: State, st': State, s: int, k: nat)
    requires ReleaseShape(st, st', s, k) && Partitioned(st) && Partitioned(st') && Tagged(st, s)
    ensures Tagged(st', NIL)
    ensures forall x | x != s :: IsFree(st', NIL, x) <==> IsFree(st, s, x)
    ensures IsFree(st', NIL, s) && Live(st', NIL) == Live(st, s)
  {
    forall f | 0 <= f < NR_PAGES
      ensures FrameTagged(st', f)
    {
      if st.owner[f] != s {
        assert FrameTagged(st, f) && IsStart(st, st.owner[f]);
      }
    }
  }

  lemma ReleaseCoalesced(st: State, st': State, s: int, k: nat)
    requires ReleaseShape(st, st', s, k) && Partitioned(st) && Partitioned(st') && Coalesced(st, s)
    requires CannotMerge(st, s)
    requires forall x | x != s :: IsFree(st', NIL, x) <==> IsFree(st, s, x)
    ensures Coalesced(st', NIL)
  {
    forall x | IsFree(st', NIL, x) && Order(st', x) < MAX_ORDER - 1
      ensures !(IsFree(st', NIL, Buddy(x, Order(st', x))) && Order(st', Buddy(x, Order(st', x))) == Order(st', x))
    {
      assert BlockOk(st', x);
      BuddyGeometry(x, Order(st', x));
    }
  }

  lemma ReleaseChain(st: State, st': State, s: int, k: nat, j: nat)
    requires ReleaseShape(st, st', s, k) && j < MAX_ORDER && ListOk(st, s, j)
    requires forall x | x != s :: IsFree(st', NIL, x) <==> IsFree(st, s, x)
    requires IsFree(st', NIL, s)
    ensures Chain(st'.headers, st'.heads[j], st'.lists[j])
    ensures forall x | x in st'.lists[j] :: IsFree(st', NIL, x) && Order(st', x) == j
  {
    var l := st.lists[j];
    assert forall i | 0 <= i < |l| :: IsFree(st, s, l[i]) && l[i] != s;
    if j == k {
      ChainPush(st.headers, st'.headers, st.heads[j], l, s);
    } else {
      ChainFrame(st.headers, st'.headers, st.heads[j], l);
    }
  }

  lemma ReleaseKeepsInv(st: State, s: int)
    requires Inv(st, s) && s != NIL && BlockOk(st, s) && CannotMerge(st, s)
    ensures Inv(MarkAllocatable(Push(st, s), s), NIL)
    ensures Live(MarkAllocatable(Push(st, s), s), NIL) == Live(st, s)
  {
    var st' := MarkAllocatable(Push(st, s), s);
    var k := Order(st, s);
    assert ReleaseShape(st, st', s, k);
    PartitionFrame(st, st');
    ReleaseTags(st, st', s, k);
    ReleaseCoalesced(st, st', s, k);
    forall j | 0 <= j < MAX_ORDER
      ensures Chain(st'.headers, st'.heads[j], st'.lists[j])
      ensures forall x | x in st'.lists[j] :: IsFree(st', NIL, x) && Order(st', x) == j
    {
      ReleaseChain(st, st', s, k, j);
    }
    forall x | IsFree(st', NIL, x)
      ensures IsListed(st', x)
    {
      if x == s {
        assert s in [s] + st.lists[k];
      } else {
        assert IsFree(st, s, x) && IsListed(st, x);
      }
    }
    Assemble(st', NIL);
  }
}
