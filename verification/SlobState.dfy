/** The heap of the small-object allocator as a value. Addresses and sizes are
    counted in units of 16 bytes, the size of a chunk header, from the start of
    the zone; all of them are multiples of it. */
module SlobState {
  import opened Lists

  const PAGE: nat := 256
  const SLOTS: nat := 131072
  const NR_BINS: nat := 7
  /** Where `_unsorted_bin` stands among the lists. */
  const UNSORTED: nat := 7
  const NIL: int := -1

  datatype Header = Header(next: int, index: int, prevSize: int, inUse: bool)

  function Size(hd: Header): int { hd.index + 2 }

  /** The list a chunk of `n` units belongs to. */
  function BinOf(n: int): int { if n - 2 >= NR_BINS then UNSORTED else n - 2 }

  /** The allocator's fields, with what they stand for: the chunk that covers
      each unit, the contents of each list, the chunks handed out. One unit past
      the zone is included because it can be written. */
  datatype Heap = Heap(
    mem: seq<Header>,
    top: int, topEnd: int, topPrev: int,
    heads: seq<int>,
    pages: set<int>,
    owner: seq<int>,
    lists: seq<seq<int>>,
    live: set<int>)

  ghost predicate Sized(h: Heap) {
    && |h.mem| == SLOTS + 1 && |h.owner| == SLOTS
    && |h.heads| == |h.lists| == NR_BINS + 1
    && (forall p | p in h.pages :: 0 <= p < SLOTS / PAGE)
  }

  predicate InTop(h: Heap, f: int) { h.top <= f < h.topEnd }

  /** Units that belong to some chunk: those of owned pages below the top. */
  predicate Covered(h: Heap, f: int) { f / PAGE in h.pages && !InTop(h, f) }

  predicate IsChunk(h: Heap, s: int)
    requires |h.owner| == SLOTS
  {
    0 <= s < SLOTS && h.owner[s] == s
  }

  function SizeAt(h: Heap, s: int): int
    requires |h.mem| == SLOTS + 1 && 0 <= s <= SLOTS
  {
    Size(h.mem[s])
  }

  // ---- tiling ----------------------------------------------------------------

  /** A covered unit lies in exactly one chunk, any other in none. */
  ghost predicate SlotOk(h: Heap, f: int)
    requires Sized(h) && 0 <= f < SLOTS
  {
    if Covered(h, f) then IsChunk(h, h.owner[f]) && h.owner[f] <= f < h.owner[f] + SizeAt(h, h.owner[f])
    else h.owner[f] == NIL
  }

  /** A chunk is not empty, stays in its page and owns its units. */
  ghost predicate ChunkOk(h: Heap, s: int)
    requires Sized(h) && IsChunk(h, s)
  {
    && SizeAt(h, s) >= 1 && (s + SizeAt(h, s) - 1) / PAGE == s / PAGE
    && forall f | s <= f < s + SizeAt(h, s) :: h.owner[f] == s
  }

  ghost predicate TopOk(h: Heap) {
    || (h.top == h.topEnd && (h.top == NIL || h.top % PAGE == 0))
    || (0 <= h.top < h.topEnd <= SLOTS && h.topEnd % PAGE == 0 && h.topEnd - h.top <= PAGE &&
        h.topEnd / PAGE - 1 in h.pages)
  }

  /** Chunks tile every owned page, up to the top chunk in its page. */
  ghost predicate Tiled(h: Heap) {
    && Sized(h) && TopOk(h)
    && (forall f {:trigger SlotOk(h, f)} | 0 <= f < SLOTS :: SlotOk(h, f))
    && (forall s {:trigger ChunkOk(h, s)} | IsChunk(h, s) :: ChunkOk(h, s))
  }

  // ---- boundary tags -----------------------------------------------------------

  /** The chunk just before `s` in the same page. */
  function Pred(h: Heap, s: int): int
    requires |h.owner| == SLOTS && 0 < s <= SLOTS
  {
    h.owner[s - 1]
  }

  /** A chunk that does not start a page records the size of the one before it,
      and of two neighbours at least one is marked allocated; the chunk being
      freed, `held`, may break that rule for a while. A free chunk can hold a
      payload. */
  ghost predicate TagOk(h: Heap, held: int, s: int)
    requires Sized(h) && IsChunk(h, s)
  {
    && (h.mem[s].inUse || SizeAt(h, s) >= 2)
    && (s % PAGE != 0 ==>
      && IsChunk(h, Pred(h, s))
      && h.mem[s].prevSize == s - Pred(h, s)
      && (s == held || Pred(h, s) == held || h.mem[s].inUse || h.mem[Pred(h, s)].inUse))
  }

  ghost predicate Binned(h: Heap, s: int)
    requires Sized(h)
  {
    exists b :: 0 <= b <= UNSORTED && s in h.lists[b]
  }

  /** The chunk just before a top chunk that is not empty is in use, and its
      size is on record. */
  ghost predicate TopTagOk(h: Heap, held: int)
    requires Sized(h)
  {
    0 < h.top < h.topEnd <= SLOTS && h.top % PAGE != 0 && Pred(h, h.top) != held ==>
      && IsChunk(h, Pred(h, h.top))
      && h.topPrev == h.top - Pred(h, h.top)
      && h.mem[Pred(h, h.top)].inUse
      && !Binned(h, Pred(h, h.top))
  }

  // ---- bins ----------------------------------------------------------------------

  ghost predicate LinkOk(mem: seq<Header>, list: seq<int>, i: int)
    requires |mem| == SLOTS + 1 && 0 <= i < |list|
  {
    0 <= list[i] < SLOTS && mem[list[i]].next == if i + 1 < |list| then list[i + 1] else NIL
  }

  ghost predicate Chain(mem: seq<Header>, head: int, list: seq<int>)
    requires |mem| == SLOTS + 1
  {
    && head == Head(list) && Distinct(list)
    && (forall i {:trigger LinkOk(mem, list, i)} | 0 <= i < |list| :: LinkOk(mem, list, i))
  }

  /** A chunk on list `b` has a size for that list, is not handed out, and is
      marked free unless it ends its page. */
  ghost predicate MemberOk(h: Heap, b: int, s: int)
    requires Sized(h)
  {
    && IsChunk(h, s) && SizeAt(h, s) >= 2 && BinOf(SizeAt(h, s)) == b && s !in h.live
    && (h.mem[s].inUse ==> (s + SizeAt(h, s)) % PAGE == 0)
  }

  ghost predicate BinOk(h: Heap, b: int)
    requires Sized(h) && 0 <= b <= UNSORTED
  {
    && Chain(h.mem, h.heads[b], h.lists[b])
    && forall s {:trigger MemberOk(h, b, s)} | s in h.lists[b] :: MemberOk(h, b, s)
  }

  /** A chunk handed out is marked allocated and has room for a payload. */
  ghost predicate LiveOk(h: Heap, s: int)
    requires Sized(h)
  {
    IsChunk(h, s) && h.mem[s].inUse && SizeAt(h, s) >= 2
  }

  ghost predicate Inv(h: Heap, held: int) {
    && Tiled(h)
    && (forall s {:trigger TagOk(h, held, s)} | IsChunk(h, s) :: TagOk(h, held, s))
    && TopTagOk(h, held)
    && (forall b {:trigger BinOk(h, b)} | 0 <= b <= UNSORTED :: BinOk(h, b))
    && (forall s {:trigger LiveOk(h, s)} | s in h.live :: LiveOk(h, s))
    && (held != NIL ==> IsChunk(h, held) && held !in h.live && !Binned(h, held))
  }

  // ---- geometry --------------------------------------------------------------------

  /** The unit after a chunk starts the next chunk of the page, or the top, or
      a new page. */
  lemma AfterChunk(h: Heap, s: int)
    requires Tiled(h) && IsChunk(h, s)
    ensures var e := s + SizeAt(h, s);
            && ChunkOk(h, s) && s < e <= SLOTS
            && (e % PAGE == 0 || (e < SLOTS && e == h.top && h.top < h.topEnd) || IsChunk(h, e))
  {
    assert ChunkOk(h, s) && SlotOk(h, s);
    var e := s + SizeAt(h, s);
    if e % PAGE != 0 {
      assert e / PAGE == s / PAGE;
      assert SlotOk(h, e);
      if Covered(h, e) {
        assert ChunkOk(h, h.owner[e]) && SlotOk(h, e - 1);
      } else {
        assert SlotOk(h, e - 1);
      }
    }
  }

  /** Chunks handed out never overlap. */
  lemma LiveDisjoint(h: Heap, s: int, t: int)
    requires Inv(h, NIL) && s in h.live && t in h.live && s < t
    ensures LiveOk(h, s) && LiveOk(h, t) && s + SizeAt(h, s) <= t
  {
    assert LiveOk(h, s) && LiveOk(h, t) && ChunkOk(h, s) && ChunkOk(h, t);
    assert h.owner[t] == t;
  }

  /** A payload, one unit into its chunk, never starts a page. */
  lemma PayloadUnaligned(h: Heap, s: int)
    requires Inv(h, NIL) && s in h.live
    ensures (s + 1) % PAGE != 0
  {
    assert LiveOk(h, s) && ChunkOk(h, s);
  }

  lemma PredIsChunk(h: Heap, s: int)
    requires Tiled(h) && IsChunk(h, s) && s % PAGE != 0
    ensures s > 0 && IsChunk(h, Pred(h, s)) && Pred(h, s) + SizeAt(h, Pred(h, s)) == s
  {
    assert SlotOk(h, s) && SlotOk(h, s - 1);
    assert ChunkOk(h, s);
    assert ChunkOk(h, Pred(h, s));
  }
}
