/** kmalloc, kfree and get_free_page of mm/MemoryManager.cc over the two zones. */
module KernelHeap {
  import B = BuddyState
  import S = SlobState
  import BuddyModule = Buddy
  import SlobModule = Slob
  import Kasan
  import Dyadic

  const ZONE_0: nat := 0x1000_0000
  const ZONE_1: nat := 0x1020_0000
  const ZONE_END: nat := 0x1040_0000
  const KERNEL_VA_BASE: nat := 0xffff_0000_0000_0000
  const PAGE_SIZE: nat := 4096
  const CHUNK_HEADER: nat := 16

  function BlockAddr(index: int): int { ZONE_0 + index * PAGE_SIZE }

  /** Payload address of the chunk that starts at a unit of zone 1. */
  function PayloadAddr(chunk: int): int { ZONE_1 + CHUNK_HEADER * (chunk + 1) }

  ghost function BlockPointers(live: map<int, int>): set<int> { set i | i in live :: BlockAddr(i) }

  ghost function PayloadPointers(live: set<int>): set<int> { set c | c in live :: PayloadAddr(c) }

  /** Alignment tells the two allocators' pointers apart. */
  lemma AlignmentRoutes(st: B.State, h: S.Heap, p: int)
    requires B.Inv(st, B.NIL) && S.Inv(h, S.NIL)
    ensures p in BlockPointers(B.Live(st, B.NIL)) ==> p % PAGE_SIZE == 0 && ZONE_0 <= p < ZONE_1
    ensures p in PayloadPointers(h.live) ==> p % PAGE_SIZE != 0 && ZONE_1 < p < ZONE_END
  {
    if p in PayloadPointers(h.live) {
      var c :| c in h.live && p == PayloadAddr(c);
      S.PayloadUnaligned(h, c);
      assert S.LiveOk(h, c) && S.ChunkOk(h, c);
    }
  }

  // ---- what callers own --------------------------------------------------------------

  ghost function LivePointers(st: B.State, h: S.Heap): set<int>
    requires B.Sized(st)
  {
    BlockPointers(B.Live(st, B.NIL)) + PayloadPointers(h.live)
  }

  /** Bytes from `start` up to `end`. */
  datatype Region = Region(start: int, end: int)

  predicate Disjoint(a: Region, b: Region) { a.end <= b.start || b.end <= a.start }

  function BlockIndexOf(p: int): int { (p - ZONE_0) / PAGE_SIZE }

  function ChunkOf(p: int): int { (p - ZONE_1) / CHUNK_HEADER - 1 }

  ghost function BlockRegion(st: B.State, i: int): Region
    requires B.Sized(st) && i in B.Live(st, B.NIL)
  {
    Region(BlockAddr(i), BlockAddr(i + Dyadic.Pow2(if B.Order(st, i) >= 0 then B.Order(st, i) else 0)))
  }

  /** Chunk header included. */
  ghost function ChunkRegion(h: S.Heap, c: int): Region
    requires S.Sized(h) && 0 <= c < S.SLOTS
  {
    Region(ZONE_1 + CHUNK_HEADER * c, ZONE_1 + CHUNK_HEADER * (c + S.SizeAt(h, c)))
  }

  lemma ChunkInZone(h: S.Heap, p: int)
    requires S.Inv(h, S.NIL) && p in PayloadPointers(h.live)
    ensures ChunkOf(p) in h.live && 0 <= ChunkOf(p) < S.SLOTS && PayloadAddr(ChunkOf(p)) == p
  {
    var c :| c in h.live && p == PayloadAddr(c);
    assert S.LiveOk(h, c);
  }

  lemma BlockInZone(st: B.State, p: int)
    requires B.Inv(st, B.NIL) && p in BlockPointers(B.Live(st, B.NIL))
    ensures BlockIndexOf(p) in B.Live(st, B.NIL) && BlockAddr(BlockIndexOf(p)) == p
    ensures BlockRegion(st, BlockIndexOf(p)).end <= ZONE_1
  {
    var i :| i in B.Live(st, B.NIL) && p == BlockAddr(i);
    assert B.BlockOk(st, i);
  }

  /** The memory a live pointer stands for. */
  ghost function RegionOf(st: B.State, h: S.Heap, p: int): Region
    requires B.Inv(st, B.NIL) && S.Inv(h, S.NIL) && p in LivePointers(st, h)
  {
    if p in BlockPointers(B.Live(st, B.NIL)) then BlockInZone(st, p); BlockRegion(st, BlockIndexOf(p))
    else ChunkInZone(h, p); ChunkRegion(h, ChunkOf(p))
  }

  lemma BlocksApart(st: B.State, i: int, j: int)
    requires B.Inv(st, B.NIL) && i in B.Live(st, B.NIL) && j in B.Live(st, B.NIL) && i < j
    ensures Disjoint(BlockRegion(st, i), BlockRegion(st, j))
  {
    assert B.BlockOk(st, i) && B.BlockOk(st, j);
  }

  lemma ChunksApart(h: S.Heap, c: int, d: int)
    requires S.Inv(h, S.NIL) && c in h.live && d in h.live && c < d && 0 <= c < S.SLOTS && 0 <= d < S.SLOTS
    ensures Disjoint(ChunkRegion(h, c), ChunkRegion(h, d))
  {
    S.LiveDisjoint(h, c, d);
  }

  lemma BlockAndChunkApart(st: B.State, h: S.Heap, p: int, q: int)
    requires B.Inv(st, B.NIL) && S.Inv(h, S.NIL)
    requires p in BlockPointers(B.Live(st, B.NIL)) && q in PayloadPointers(h.live)
    ensures BlockIndexOf(p) in B.Live(st, B.NIL) && 0 <= ChunkOf(q) < S.SLOTS
    ensures BlockRegion(st, BlockIndexOf(p)).end <= ChunkRegion(h, ChunkOf(q)).start
  {
    BlockInZone(st, p);
    ChunkInZone(h, q);
  }

  /** Two live pointers never share memory, whichever allocators issued them. */
  lemma LiveRegionsDisjoint(st: B.State, h: S.Heap, p: int, q: int)
    requires B.Inv(st, B.NIL) && S.Inv(h, S.NIL)
    requires p in LivePointers(st, h) && q in LivePointers(st, h) && p != q
    ensures Disjoint(RegionOf(st, h, p), RegionOf(st, h, q))
  {
    var blocks := BlockPointers(B.Live(st, B.NIL));
    if p in blocks && q in blocks {
      BlockInZone(st, p);
      BlockInZone(st, q);
      var i, j := BlockIndexOf(p), BlockIndexOf(q);
      if i < j { BlocksApart(st, i, j); } else { BlocksApart(st, j, i); }
    } else if p in blocks {
      BlockAndChunkApart(st, h, p, q);
    } else if q in blocks {
      BlockAndChunkApart(st, h, q, p);
    } else {
      ChunkInZone(h, p);
      ChunkInZone(h, q);
      var c, d := ChunkOf(p), ChunkOf(q);
      if c < d { ChunksApart(h, c, d); } else { ChunksApart(h, d, c); }
    }
  }

  lemma BlockPointerGained(live: map<int, int>, i: int, k: int)
    ensures BlockPointers(live[i := k]) == BlockPointers(live) + {BlockAddr(i)}
  {
    assert forall j | j in live :: j in live[i := k];
  }

  lemma BlockPointerLost(live: map<int, int>, i: int)
    ensures BlockPointers(live - {i}) == BlockPointers(live) - {BlockAddr(i)}
  {
  }

  lemma PayloadPointerGained(live: set<int>, c: int)
    ensures PayloadPointers(live + {c}) == PayloadPointers(live) + {PayloadAddr(c)}
  {
  }

  lemma PayloadPointerLost(live: set<int>, c: int)
    ensures PayloadPointers(live - {c}) == PayloadPointers(live) - {PayloadAddr(c)}
  {
  }

  /** A block carved out of a free run was nobody's before. */
  lemma BlockTaken(st: B.State, st': B.State, h: S.Heap, i: int, k: nat)
    requires B.Inv(st, B.NIL) && S.Inv(h, S.NIL) && B.Sized(st') && B.FreeRun(st, i, k)
    requires B.Live(st', B.NIL) == B.Live(st, B.NIL)[i := k]
    ensures BlockAddr(i) !in LivePointers(st, h) && BlockAddr(i) % PAGE_SIZE == 0
    ensures LivePointers(st', h) == LivePointers(st, h) + {BlockAddr(i)}
  {
    assert st.tags[i] != B.ALLOCATED;
    assert i !in B.Live(st, B.NIL);
    BlockPointerGained(B.Live(st, B.NIL), i, k);
    AlignmentRoutes(st, h, BlockAddr(i));
  }

  // ---- what a request yields -----------------------------------------------------------

  /** Larger requests go to the page allocator. */
  predicate IsLarge(size: nat) { size + CHUNK_HEADER >= PAGE_SIZE }

  ghost predicate NoBlock(st: B.State, size: nat)
    requires B.Sized(st)
  {
    !exists s :: B.FreeRun(st, s, BuddyModule.ServedOrder(size))
  }

  /** No list, no top chunk and no page of zone 1 can serve the request; size 0
      is never served. */
  ghost predicate NoChunk(h: S.Heap, size: nat)
    requires !IsLarge(size)
  {
    size == 0 || (SlobModule.NoRoom(h, SlobModule.Units(size)) && h.pages == SlobModule.OwnedPages({}))
  }

  /** The request is answered with null. */
  ghost predicate Refuses(st: B.State, h: S.Heap, size: nat)
    requires B.Sized(st)
  {
    if IsLarge(size) then NoBlock(st, size) else NoChunk(h, size)
  }

  /** Null gains nothing, any other pointer is new. */
  ghost predicate Gained(live: set<int>, live': set<int>, p: int) {
    p >= 0 && if p == 0 then live' == live else p !in live && live' == live + {p}
  }

  /** `size` bytes from `p` on belong to the caller of `p`. */
  ghost predicate Fits(st: B.State, h: S.Heap, p: int, size: nat) {
    && B.Inv(st, B.NIL) && S.Inv(h, S.NIL) && p in LivePointers(st, h)
    && RegionOf(st, h, p).start <= p && p + size <= RegionOf(st, h, p).end
  }

  ghost predicate KeptAt(st: B.State, h: S.Heap, st': B.State, h': S.Heap, p: int)
    requires B.Inv(st, B.NIL) && S.Inv(h, S.NIL) && B.Inv(st', B.NIL) && S.Inv(h', S.NIL)
  {
    p in LivePointers(st, h) && p in LivePointers(st', h') ==> RegionOf(st', h', p) == RegionOf(st, h, p)
  }

  /** Both zones are sound before and after, and what stays live keeps its memory. */
  ghost predicate Kept(st: B.State, h: S.Heap, st': B.State, h': S.Heap) {
    && B.Inv(st, B.NIL) && S.Inv(h, S.NIL) && B.Inv(st', B.NIL) && S.Inv(h', S.NIL)
    && forall p {:trigger KeptAt(st, h, st', h', p)} :: KeptAt(st, h, st', h', p)
  }

  /** What a request for `size` bytes does and answers. */
  ghost predicate Yielded(st: B.State, h: S.Heap, st': B.State, h': S.Heap, size: nat, p: int) {
    && Kept(st, h, st', h') && Gained(LivePointers(st, h), LivePointers(st', h'), p)
    && (p == 0 <==> Refuses(st, h, size))
    && (p != 0 ==> (p % PAGE_SIZE == 0 <==> IsLarge(size)))
    && (p != 0 && size <= BuddyModule.TWO_42 ==> Fits(st', h', p, size))
    && if IsLarge(size) then h' == h else st' == st && (p != 0 ==> Supplied(h, h', size, ChunkOf(p)))
  }

  /** A small request is served from the list in charge, or if no list can serve
      it from the top chunk. */
  ghost predicate Supplied(h: S.Heap, h': S.Heap, size: nat, c: int) {
    0 < size < PAGE_SIZE - CHUNK_HEADER ==>
      if SlobModule.NoListServes(h, SlobModule.Units(size)) then SlobModule.FromTop(h, SlobModule.Units(size), h', c)
      else SlobModule.FromList(h, SlobModule.Units(size), h', c)
  }

  /** What giving `q` back does. */
  ghost predicate Returned(st: B.State, h: S.Heap, st': B.State, h': S.Heap, q: int) {
    && Kept(st, h, st', h') && LivePointers(st', h') == LivePointers(st, h) - {q}
    && (q !in PayloadPointers(h.live) ==> h' == h)
    && (q !in BlockPointers(B.Live(st, B.NIL)) ==> st' == st)
  }

  lemma BlocksKept(st: B.State, h: S.Heap, st': B.State)
    requires B.Inv(st, B.NIL) && S.Inv(h, S.NIL) && B.Inv(st', B.NIL)
    requires forall i | i in B.Live(st, B.NIL) && i in B.Live(st', B.NIL) ::
               B.Live(st', B.NIL)[i] == B.Live(st, B.NIL)[i]
    ensures Kept(st, h, st', h)
  {
    forall p ensures KeptAt(st, h, st', h, p) {
      AlignmentRoutes(st, h, p);
      AlignmentRoutes(st', h, p);
      if p in BlockPointers(B.Live(st, B.NIL)) && p in BlockPointers(B.Live(st', B.NIL)) {
        BlockInZone(st, p);
        BlockInZone(st', p);
      }
    }
  }

  lemma ChunksKept(st: B.State, h: S.Heap, h': S.Heap)
    requires B.Inv(st, B.NIL) && S.Inv(h, S.NIL) && S.Inv(h', S.NIL)
    requires forall c | c in h.live && c in h'.live && 0 <= c < S.SLOTS :: h'.mem[c].index == h.mem[c].index
    ensures Kept(st, h, st, h')
  {
    forall p ensures KeptAt(st, h, st, h', p) {
      if p in PayloadPointers(h.live) && p in PayloadPointers(h'.live) {
        ChunkInZone(h, p);
        ChunkInZone(h', p);
      }
      AlignmentRoutes(st, h, p);
      AlignmentRoutes(st, h', p);
    }
  }

  lemma BlockFits(st: B.State, h: S.Heap, i: int, size: nat)
    requires B.Inv(st, B.NIL) && S.Inv(h, S.NIL) && i in B.Live(st, B.NIL) && size <= BuddyModule.TWO_42
    requires B.Live(st, B.NIL)[i] == BuddyModule.ServedOrder(size)
    ensures Fits(st, h, BlockAddr(i), size)
  {
    BuddyModule.ServedBlockCoversIff(size);
    BlockInZone(st, BlockAddr(i));
    assert BlockIndexOf(BlockAddr(i)) == i;
  }

  lemma BlockYielded(st: B.State, st': B.State, h: S.Heap, i: int, size: nat)
    requires B.Inv(st, B.NIL) && B.Inv(st', B.NIL) && S.Inv(h, S.NIL) && B.FreeRun(st, i, BuddyModule.ServedOrder(size))
    requires B.Live(st', B.NIL) == B.Live(st, B.NIL)[i := BuddyModule.ServedOrder(size)] && IsLarge(size)
    ensures Yielded(st, h, st', h, size, BlockAddr(i))
  {
    BlockTaken(st, st', h, i, BuddyModule.ServedOrder(size));
    BlocksKept(st, h, st');
    if size <= BuddyModule.TWO_42 { BlockFits(st', h, i, size); }
  }

  lemma NoneYielded(st: B.State, h: S.Heap, size: nat)
    requires B.Inv(st, B.NIL) && S.Inv(h, S.NIL) && IsLarge(size) && NoBlock(st, size)
    ensures Yielded(st, h, st, h, size, 0)
  {
    BlocksKept(st, h, st);
  }

  lemma ChunkFits(st: B.State, h: S.Heap, c: int, size: nat)
    requires B.Inv(st, B.NIL) && S.Inv(h, S.NIL) && c in h.live && 0 <= c < S.SLOTS
    requires 16 * S.SizeAt(h, c) >= 16 + size
    ensures Fits(st, h, PayloadAddr(c), size)
  {
    AlignmentRoutes(st, h, PayloadAddr(c));
    ChunkInZone(h, PayloadAddr(c));
    assert ChunkOf(PayloadAddr(c)) == c;
  }

  /** Requests on which the small-object allocator damages its own tags. */
  ghost predicate Collides(h: S.Heap, size: nat) {
    0 < size < PAGE_SIZE - CHUNK_HEADER && SlobModule.ExactHit(h, SlobModule.Units(size))
  }

  lemma ChunkTaken(st: B.State, h: S.Heap, h': S.Heap, c: int)
    requires B.Inv(st, B.NIL) && S.Inv(h, S.NIL) && S.Inv(h', S.NIL) && c !in h.live && h'.live == h.live + {c}
    ensures PayloadAddr(c) !in LivePointers(st, h) && PayloadAddr(c) % PAGE_SIZE != 0 && PayloadAddr(c) > 0
    ensures LivePointers(st, h') == LivePointers(st, h) + {PayloadAddr(c)}
  {
    PayloadPointerGained(h.live, c);
    AlignmentRoutes(st, h', PayloadAddr(c));
  }

  lemma ChunkYielded(st: B.State, h: S.Heap, h': S.Heap, c: int, size: nat)
    requires B.Inv(st, B.NIL) && S.Inv(h, S.NIL) && 0 < size < PAGE_SIZE - CHUNK_HEADER && !NoChunk(h, size)
    requires SlobModule.Served(h, h', c, SlobModule.Units(size)) && Supplied(h, h', size, c)
    ensures Yielded(st, h, st, h', size, PayloadAddr(c))
  {
    ChunkTaken(st, h, h', c);
    ChunksKept(st, h, h');
    assert S.LiveOk(h', c);
    ChunkFits(st, h', c, size);
    assert ChunkOf(PayloadAddr(c)) == c;
  }

  lemma NoChunkYielded(st: B.State, h: S.Heap, h': S.Heap, size: nat)
    requires B.Inv(st, B.NIL) && S.Inv(h, S.NIL) && S.Inv(h', S.NIL) && !IsLarge(size) && NoChunk(h, size)
    requires SlobModule.KeepsSizes(h, h')
    ensures Yielded(st, h, st, h', size, 0)
  {
    ChunksKept(st, h, h');
  }

  lemma ChunkOutcome(st: B.State, h: S.Heap, h': S.Heap, unit: int, size: nat)
    requires B.Inv(st, B.NIL) && S.Inv(h, S.NIL) && S.Inv(h', S.NIL) && 0 < size < PAGE_SIZE - CHUNK_HEADER
    requires SlobModule.AllocStep(h, SlobModule.Units(size), unit, h')
    ensures Yielded(st, h, st, h', size, UnitAddr(unit))
  {
    if unit == S.NIL { NoChunkYielded(st, h, h', size); } else { ChunkYielded(st, h, h', unit - 1, size); }
  }

  /** The address of a unit of zone 1; no unit is null. */
  function UnitAddr(unit: int): int { if unit == S.NIL then 0 else ZONE_1 + CHUNK_HEADER * unit }

  lemma BlockOutcome(st: B.State, st': B.State, h: S.Heap, p: nat, size: nat)
    requires B.Inv(st, B.NIL) && B.Inv(st', B.NIL) && S.Inv(h, S.NIL) && IsLarge(size)
    requires p == 0 <==> NoBlock(st, size)
    requires p == 0 ==> st' == st
    requires p != 0 ==>
               && p == BlockAddr(BlockIndexOf(p)) && B.FreeRun(st, BlockIndexOf(p), BuddyModule.ServedOrder(size))
               && B.Live(st', B.NIL) == B.Live(st, B.NIL)[BlockIndexOf(p) := BuddyModule.ServedOrder(size)]
    ensures Yielded(st, h, st', h, size, p)
  {
    if p != 0 { BlockYielded(st, st', h, BlockIndexOf(p), size); } else { NoneYielded(st, h, size); }
  }

  lemma NoNullLive(st: B.State, h: S.Heap)
    requires B.Inv(st, B.NIL) && S.Inv(h, S.NIL)
    ensures 0 !in LivePointers(st, h)
  {
    AlignmentRoutes(st, h, 0);
  }

  /** A pointer that is new to the callers is new to the table. */
  lemma RecordOutcome(t: seq<int>, t': seq<int>, live: set<int>, live': set<int>, p: int, ok: bool, i: nat)
    requires Kasan.Tracks(t, live) && Gained(live, live', p)
    requires ok <==> p !in t
    requires ok && 0 in t ==> i < |t| && t[i] == 0 && t' == t[i := p]
    requires !ok || 0 !in t ==> t' == t
    ensures Kasan.Noted(t, t', p) && Kasan.Tracks(t', live') && (p != 0 ==> ok)
  {
    if p != 0 {
      assert p !in Kasan.Recorded(t);
      if 0 in t { Kasan.RecordKeepsExact(t, Kasan.Recorded(t), i, p); }
    }
  }

  /** Without a frame to spare there is no run of one frame, and vice versa. */
  lemma NoPageIff(st: B.State)
    requires B.Sized(st)
    ensures NoBlock(st, PAGE_SIZE) <==> forall f | 0 <= f < B.NR_PAGES :: st.tags[f] == B.ALLOCATED
  {
    assert BuddyModule.ServedOrder(PAGE_SIZE) == 0;
    forall f | 0 <= f < B.NR_PAGES && st.tags[f] != B.ALLOCATED ensures B.FreeRun(st, f, 0) {
    }
    forall s | B.FreeRun(st, s, 0) ensures 0 <= s < B.NR_PAGES && st.tags[s] != B.ALLOCATED {
      assert Dyadic.Pow2(0) == 1;
    }
  }

  lemma EraseOutcome(t: seq<int>, t': seq<int>, q: int, i: nat)
    requires Kasan.OnceEach(t) && i < |t| && t[i] == q && t' == t[i := 0]
    ensures Kasan.Exact(t', Kasan.Recorded(t) - {q}) && (q != 0 ==> q in Kasan.Recorded(t))
  {
    if q == 0 {
      assert t' == t;
    } else {
      Kasan.EraseKeepsExact(t, Kasan.Recorded(t), i);
    }
  }

  lemma BlockGivenBack(st: B.State, h: S.Heap, q: int)
    requires B.Inv(st, B.NIL) && S.Inv(h, S.NIL) && q in LivePointers(st, h) && q % PAGE_SIZE == 0
    ensures q >= ZONE_0 && BlockIndexOf(q) in B.Live(st, B.NIL) && q in BlockPointers(B.Live(st, B.NIL))
    ensures BlockPointers(B.Live(st, B.NIL) - {BlockIndexOf(q)}) + PayloadPointers(h.live) == LivePointers(st, h) - {q}
  {
    AlignmentRoutes(st, h, q);
    BlockInZone(st, q);
    BlockPointerLost(B.Live(st, B.NIL), BlockIndexOf(q));
  }

  lemma ChunkGivenBack(st: B.State, h: S.Heap, q: int)
    requires B.Inv(st, B.NIL) && S.Inv(h, S.NIL) && q in LivePointers(st, h) && q % PAGE_SIZE != 0
    ensures ChunkOf(q) in h.live && ChunkOf(q) >= 0 && q in PayloadPointers(h.live)
    ensures BlockPointers(B.Live(st, B.NIL)) + PayloadPointers(h.live - {ChunkOf(q)}) == LivePointers(st, h) - {q}
  {
    AlignmentRoutes(st, h, q);
    ChunkInZone(h, q);
    PayloadPointerLost(h.live, ChunkOf(q));
  }

  /** Both zones and the table of the sanitizer. */
  datatype Store = Store(zone0: B.State, zone1: S.Heap, table: seq<int>)

  class MemoryManager {
    const buddy: BuddyModule.BuddyAllocator
    const slob: SlobModule.SlobAllocator
    const kasan: Kasan.AddressSanitizer

    constructor ()
      ensures Sound() && Live() == {} && slob.View() == SlobModule.EmptyHeap()
      ensures Kasan.Exact(kasan.slots[..], Live())
      ensures fresh(buddy) && fresh(buddy.frameArray) && fresh(buddy.freeLists) && fresh(buddy.headers)
      ensures fresh(slob) && fresh(slob.mem) && fresh(slob.bins) && fresh(kasan.slots)
    {
      buddy := new BuddyModule.BuddyAllocator(ZONE_0);
      slob := new SlobModule.SlobAllocator();
      kasan := new Kasan.AddressSanitizer();
    }

    ghost predicate Separate() {
      && kasan.slots.Length == Kasan.NR_SLOTS && buddy.zoneBegin == ZONE_0
      && kasan.slots != buddy.frameArray && kasan.slots != buddy.freeLists && kasan.slots != slob.bins
      && slob.bins != buddy.frameArray && slob.bins != buddy.freeLists
    }

    ghost predicate Valid()
      reads buddy, buddy.frameArray, buddy.freeLists, buddy.headers, slob, slob.mem, slob.bins
    {
      Separate() && buddy.Valid() && slob.Valid()
    }

    ghost function Live(): set<int>
      requires Valid()
      reads buddy, buddy.frameArray, buddy.freeLists, buddy.headers, slob, slob.mem, slob.bins
    {
      LivePointers(buddy.View(), slob.View())
    }

    /** Both zones are sound and the table lists live pointers only. */
    ghost predicate Sound()
      reads buddy, buddy.frameArray, buddy.freeLists, buddy.headers, slob, slob.mem, slob.bins, kasan.slots
    {
      Valid() && Kasan.Tracks(kasan.slots[..], Live())
    }

    ghost function View(): Store
      requires Valid()
      reads buddy, buddy.frameArray, buddy.freeLists, buddy.headers, slob, slob.mem, slob.bins, kasan.slots
    {
      Store(buddy.View(), slob.View(), kasan.slots[..])
    }

    /** A block from zone 0, or 0. */
    method TakeBlock(size: nat) returns (p: int)
      requires Valid() && BuddyModule.SizeTerminates(size) && IsLarge(size)
      modifies buddy, buddy.frameArray, buddy.freeLists, buddy.headers
      ensures Valid() && Yielded(old(buddy.View()), old(slob.View()), buddy.View(), slob.View(), size, p)
    {
      ghost var st, h := buddy.View(), slob.View();
      p := buddy.Allocate(size);
      BlockOutcome(st, buddy.View(), h, p, size);
    }

    /** A chunk from zone 1, or 0. */
    method TakeChunk(size: nat) returns (p: int)
      requires Valid() && !IsLarge(size)
      modifies slob, slob.mem, slob.bins
      ensures !Collides(old(slob.View()), size) ==>
                Valid() && Yielded(old(buddy.View()), old(slob.View()), buddy.View(), slob.View(), size, p)
    {
      ghost var st, h := buddy.View(), slob.View();
      var unit := slob.Allocate(size);
      p := UnitAddr(unit);
      if size == 0 {
        SlobModule.LiveStay(h);
        NoChunkYielded(st, h, h, size);
      } else if !Collides(h, size) {
        ChunkOutcome(st, h, slob.View(), unit, size);
      }
    }

    /** Tells the sanitizer of the pointer; false is the kernel panic. */
    method Record(p: int, ghost live: set<int>, ghost live': set<int>) returns (ok: bool)
      requires Separate()
      modifies kasan.slots
      ensures Kasan.Tracks(old(kasan.slots[..]), live) && Gained(live, live', p) ==>
                && (ok <==> p !in old(kasan.slots[..])) && (p != 0 ==> ok)
                && Kasan.Noted(old(kasan.slots[..]), kasan.slots[..], p) && Kasan.Tracks(kasan.slots[..], live')
      ensures old(Valid()) ==> Valid() && buddy.View() == old(buddy.View()) && slob.View() == old(slob.View())
    {
      ghost var t := kasan.slots[..];
      ghost var i;
      ok, i := kasan.MarkAllocated(p);
      if Kasan.Tracks(t, live) && Gained(live, live', p) {
        RecordOutcome(t, kasan.slots[..], live, live', p, ok, i);
      }
    }

    /** Large requests go to the page allocator of zone 0, small ones to the
        small-object allocator of zone 1. A request that cannot be served, and
        one of size zero, halts the kernel while the table has a free slot. A
        pointer issued while it has none is not recorded. */
    method KMalloc(size: nat) returns (ok: bool, p: int)
      requires Sound() && (IsLarge(size) ==> BuddyModule.SizeTerminates(size))
      modifies buddy, buddy.frameArray, buddy.freeLists, buddy.headers, slob, slob.mem, slob.bins, kasan.slots
      ensures !Collides(old(slob.View()), size) ==>
        && Sound() && Yielded(old(buddy.View()), old(slob.View()), buddy.View(), slob.View(), size, p)
        && Kasan.Noted(old(kasan.slots[..]), kasan.slots[..], p)
        && (ok <==> !(p == 0 && 0 in old(kasan.slots[..])))
    {
      if IsLarge(size) {
        ok, p := RecordedBlock(size);
      } else {
        ok, p := RecordedChunk(size);
      }
    }

    method RecordedBlock(size: nat) returns (ok: bool, p: int)
      requires Sound() && BuddyModule.SizeTerminates(size) && IsLarge(size)
      modifies buddy, buddy.frameArray, buddy.freeLists, buddy.headers, kasan.slots
      ensures Sound() && Yielded(old(buddy.View()), old(slob.View()), buddy.View(), slob.View(), size, p)
      ensures Kasan.Noted(old(kasan.slots[..]), kasan.slots[..], p)
      ensures ok <==> !(p == 0 && 0 in old(kasan.slots[..]))
    {
      ghost var live := Live();
      p := TakeBlock(size);
      ok := Record(p, live, Live());
    }

    method RecordedChunk(size: nat) returns (ok: bool, p: int)
      requires Sound() && !IsLarge(size)
      modifies slob, slob.mem, slob.bins, kasan.slots
      ensures !Collides(old(slob.View()), size) ==>
        && Sound() && Yielded(old(buddy.View()), old(slob.View()), buddy.View(), slob.View(), size, p)
        && Kasan.Noted(old(kasan.slots[..]), kasan.slots[..], p)
        && (ok <==> !(p == 0 && 0 in old(kasan.slots[..])))
    {
      ghost var live, h := Live(), slob.View();
      p := TakeChunk(size);
      ghost var live' := if Collides(h, size) then {} else Live();
      ok := Record(p, live, live');
    }

    /** One page frame `q`, or 0 when every frame is taken, at its physical or its
        kernel virtual address. */
    method GetFreePage(physical: bool) returns (ok: bool, p: int, ghost q: int)
      requires Sound()
      modifies buddy, buddy.frameArray, buddy.freeLists, buddy.headers, kasan.slots
      ensures Sound() && p == if physical then q else KERNEL_VA_BASE + q
      ensures Yielded(old(buddy.View()), old(slob.View()), buddy.View(), slob.View(), PAGE_SIZE, q)
      ensures q == 0 <==> forall f | 0 <= f < B.NR_PAGES :: old(buddy.View()).tags[f] == B.ALLOCATED
      ensures Kasan.Noted(old(kasan.slots[..]), kasan.slots[..], q)
      ensures ok <==> !(q == 0 && 0 in old(kasan.slots[..]))
    {
      NoPageIff(buddy.View());
      ok, p := RecordedBlock(PAGE_SIZE);
      q := p;
      if !physical {
        p := KERNEL_VA_BASE + p;
      }
    }

    /** kfree takes either address of a live page back. */
    lemma EitherAddress(q: nat)
      requires Valid() && q in Live()
      ensures Physical(q) == q && Physical(KERNEL_VA_BASE + q) == q
    {
      AlignmentRoutes(buddy.View(), slob.View(), q);
      if q in PayloadPointers(slob.View().live) { ChunkInZone(slob.View(), q); }
    }

    /** Gives a pointer back to the allocator it came from; false is the kernel
        panic, raised exactly for pointers that are not on record. */
    method KFree(p: nat) returns (ok: bool)
      requires Sound()
      modifies buddy, buddy.frameArray, buddy.freeLists, buddy.headers, slob, slob.mem, slob.bins, kasan.slots
      ensures Sound() && (ok <==> Physical(p) in old(kasan.slots[..]))
      ensures !ok ==> View() == old(View())
      ensures ok ==> Returned(old(buddy.View()), old(slob.View()), buddy.View(), slob.View(), Physical(p))
      ensures ok ==> Kasan.Exact(kasan.slots[..], Kasan.Recorded(old(kasan.slots[..])) - {Physical(p)})
    {
      var q := Physical(p);
      ok := Forget(q);
      if ok {
        FreeEither(q);
      }
    }

    method Forget(q: nat) returns (ok: bool)
      requires Sound()
      modifies kasan.slots
      ensures Valid() && Live() == old(Live()) && buddy.View() == old(buddy.View()) && slob.View() == old(slob.View())
      ensures ok <==> q in old(kasan.slots[..])
      ensures ok ==> Kasan.Exact(kasan.slots[..], Kasan.Recorded(old(kasan.slots[..])) - {q}) && (q == 0 || q in Live())
      ensures !ok ==> kasan.slots[..] == old(kasan.slots[..])
    {
      ghost var t := kasan.slots[..];
      ghost var i;
      ok, i := kasan.MarkFreeChk(q);
      if ok {
        EraseOutcome(t, kasan.slots[..], q, i);
      }
    }

    /** The alignment tells which allocator issued the pointer. */
    method FreeEither(q: nat)
      requires Valid() && (q == 0 || q in Live())
      modifies buddy, buddy.frameArray, buddy.freeLists, buddy.headers, slob, slob.mem, slob.bins
      ensures Valid() && Returned(old(buddy.View()), old(slob.View()), buddy.View(), slob.View(), q)
    {
      if q % PAGE_SIZE == 0 {
        FreeBlock(q);
      } else {
        FreeChunk(q);
      }
    }

    method FreeBlock(q: nat)
      requires Valid() && (q == 0 || q in Live()) && q % PAGE_SIZE == 0
      modifies buddy, buddy.frameArray, buddy.freeLists, buddy.headers
      ensures Valid() && Returned(old(buddy.View()), old(slob.View()), buddy.View(), slob.View(), q)
    {
      ghost var st, h := buddy.View(), slob.View();
      if q == 0 { NoNullLive(st, h); } else { BlockGivenBack(st, h, q); }
      buddy.Deallocate(q);
      BlocksKept(st, h, buddy.View());
    }

    method FreeChunk(q: nat)
      requires Valid() && q in Live() && q % PAGE_SIZE != 0
      modifies slob, slob.mem, slob.bins
      ensures Valid() && Returned(old(buddy.View()), old(slob.View()), buddy.View(), slob.View(), q)
    {
      ghost var st, h := buddy.View(), slob.View();
      ChunkGivenBack(st, h, q);
      slob.Deallocate(ChunkOf(q) + 1);
      ChunksKept(st, h, slob.View());
    }
  }

  function Physical(p: nat): nat { if p >= KERNEL_VA_BASE then p - KERNEL_VA_BASE else p }
}
