/** The elementary updates of the small-object heap, and the proof that each of
    them keeps the invariant. */
module SlobSteps {
  import opened Lists
  import opened SlobState

  // ---- lists -------------------------------------------------------------------

  function SetNext(mem: seq<Header>, s: int, n: int): seq<Header>
    requires 0 <= s < |mem|
  {
    mem[s := mem[s].(next := n)]
  }

  lemma ChainFrame(mem: seq<Header>, mem': seq<Header>, head: int, l: seq<int>)
    requires |mem| == |mem'| == SLOTS + 1 && Chain(mem, head, l)
    requires forall s | s in l && 0 <= s < SLOTS :: mem'[s].next == mem[s].next
    ensures Chain(mem', head, l)
  {
    forall i | 0 <= i < |l| ensures LinkOk(mem', l, i) {
      assert LinkOk(mem, l, i);
    }
  }

  lemma ChainPush(mem: seq<Header>, mem': seq<Header>, head: int, l: seq<int>, s: int)
    requires |mem| == |mem'| == SLOTS + 1 && Chain(mem, head, l) && s !in l && 0 <= s < SLOTS
    requires mem'[s].next == head
    requires forall x | x in l && 0 <= x < SLOTS :: mem'[x].next == mem[x].next
    ensures Chain(mem', s, [s] + l)
  {
    var m := [s] + l;
    forall i | 0 <= i < |m| ensures LinkOk(mem', m, i) {
      if i > 0 {
        assert m[i] == l[i - 1] && LinkOk(mem, l, i - 1);
      }
    }
  }

  /** Entry `i` of list `b` exists. */
  ghost predicate OnList(h: Heap, b: int, i: int) {
    Sized(h) && 0 <= b <= UNSORTED && 0 <= i < |h.lists[b]| && Chain(h.mem, h.heads[b], h.lists[b]) &&
    LinkOk(h.mem, h.lists[b], i) && (i > 0 ==> LinkOk(h.mem, h.lists[b], i - 1))
  }

  /** Take entry `i` off list `b`. */
  ghost function Unlink(h: Heap, b: int, i: int): Heap
    requires OnList(h, b, i)
  {
    var l := h.lists[b];
    var n := h.mem[l[i]].next;
    h.(mem := SetNext(if i == 0 then h.mem else SetNext(h.mem, l[i - 1], n), l[i], NIL),
       heads := if i == 0 then h.heads[b := n] else h.heads,
       lists := h.lists[b := RemoveAt(l, i)])
  }

  lemma UnlinkLink(mem: seq<Header>, mem': seq<Header>, head: int, l: seq<int>, i: nat, j: nat)
    requires |mem| == |mem'| == SLOTS + 1 && i < |l| && Chain(mem, head, l) && j < |l| - 1
    requires LinkOk(mem, l, i) && (i > 0 ==> LinkOk(mem, l, i - 1))
    requires mem' == SetNext(if i == 0 then mem else SetNext(mem, l[i - 1], mem[l[i]].next), l[i], NIL)
    ensures LinkOk(mem', RemoveAt(l, i), j)
  {
    RemoveAtIndex(l, i);
    var e := if j < i then j else j + 1;
    assert LinkOk(mem, l, e);
    assert l[e] != l[i];
    if e + 1 != i && i > 0 {
      assert l[e] != l[i - 1];
    }
  }

  lemma UnlinkChain(h: Heap, b: int, i: int)
    requires OnList(h, b, i)
    ensures var h' := Unlink(h, b, i);
            && Chain(h'.mem, h'.heads[b], h'.lists[b])
            && (forall x :: x in h'.lists[b] <==> x in h.lists[b] && x != h.lists[b][i])
            && (forall x | 0 <= x <= SLOTS && x !in h.lists[b] :: h'.mem[x] == h.mem[x])
            && (forall x | 0 <= x <= SLOTS :: h'.mem[x].(next := 0) == h.mem[x].(next := 0))
  {
    var l := h.lists[b];
    var h' := Unlink(h, b, i);
    RemoveAtIndex(l, i);
    RemoveAtElements(l, i);
    assert LinkOk(h.mem, l, 0);
    forall j | 0 <= j < |l| - 1 ensures LinkOk(h'.mem, RemoveAt(l, i), j) {
      UnlinkLink(h.mem, h'.mem, h.heads[b], l, i, j);
    }
    assert l[i] in l && (i > 0 ==> l[i - 1] in l);
  }

  // ---- what an update leaves alone -----------------------------------------------

  /** Same chunks, same sizes, same tags: only links and lists differ. */
  ghost predicate SameTags(h: Heap, h': Heap) {
    && Sized(h) && Sized(h')
    && h'.top == h.top && h'.topEnd == h.topEnd && h'.topPrev == h.topPrev
    && h'.pages == h.pages && h'.owner == h.owner && h'.live == h.live
    && (forall x | 0 <= x <= SLOTS :: h'.mem[x].(next := 0) == h.mem[x].(next := 0))
  }

  lemma SameTagsTiled(h: Heap, h': Heap, held: int)
    requires SameTags(h, h') && Tiled(h)
    requires forall s {:trigger TagOk(h, held, s)} | IsChunk(h, s) :: TagOk(h, held, s)
    ensures Tiled(h')
    ensures forall s | IsChunk(h', s) :: TagOk(h', held, s)
  {
    forall f | 0 <= f < SLOTS ensures SlotOk(h', f) {
      assert SlotOk(h, f);
    }
    forall s | IsChunk(h', s) ensures ChunkOk(h', s) && TagOk(h', held, s) {
      assert ChunkOk(h, s) && TagOk(h, held, s);
    }
  }

  lemma UnlinkKeepsInv(h: Heap, held: int, b: int, i: int)
    requires Inv(h, held) && OnList(h, b, i)
    ensures var h' := Unlink(h, b, i);
            Inv(h', held) && SameTags(h, h') && !Binned(h', h.lists[b][i]) &&
            MemberOk(h, b, h.lists[b][i])
  {
    var h' := Unlink(h, b, i);
    var s := h.lists[b][i];
    UnlinkChain(h, b, i);
    assert SameTags(h, h');
    SameTagsTiled(h, h', held);
    assert BinOk(h, b) && MemberOk(h, b, s);
    forall c | 0 <= c <= UNSORTED
      ensures BinOk(h', c) && s !in h'.lists[c]
    {
      UnlinkOther(h, b, i, c);
    }
    forall x | x in h'.live ensures LiveOk(h', x) { assert LiveOk(h, x); }
    assert forall x | Binned(h', x) :: Binned(h, x);
  }

  lemma UnlinkOther(h: Heap, b: int, i: int, c: int)
    requires OnList(h, b, i) && BinOk(h, b) && 0 <= c <= UNSORTED && BinOk(h, c)
    requires SameTags(h, Unlink(h, b, i))
    requires Chain(Unlink(h, b, i).mem, Unlink(h, b, i).heads[b], Unlink(h, b, i).lists[b])
    requires forall x :: x in Unlink(h, b, i).lists[b] <==> x in h.lists[b] && x != h.lists[b][i]
    requires forall x | 0 <= x <= SLOTS && x !in h.lists[b] :: Unlink(h, b, i).mem[x] == h.mem[x]
    ensures BinOk(Unlink(h, b, i), c) && h.lists[b][i] !in Unlink(h, b, i).lists[c]
  {
    var h' := Unlink(h, b, i);
    var s := h.lists[b][i];
    assert MemberOk(h, b, s);
    forall x | x in h'.lists[c] ensures MemberOk(h', c, x) && x != s {
      assert MemberOk(h, c, x);
    }
    if c != b { OtherChain(h, h'.mem, b, c); }
  }

  /** Changes to members of list `b` leave the chain of list `c` alone. */
  lemma OtherChain(h: Heap, mem': seq<Header>, b: int, c: int)
    requires Sized(h) && 0 <= b <= UNSORTED && 0 <= c <= UNSORTED && b != c && BinOk(h, b) && BinOk(h, c)
    requires |mem'| == SLOTS + 1 && forall x | 0 <= x <= SLOTS && x !in h.lists[b] :: mem'[x] == h.mem[x]
    ensures Chain(mem', h.heads[c], h.lists[c])
  {
    forall x | x in h.lists[c] && 0 <= x < SLOTS ensures mem'[x].next == h.mem[x].next {
      assert MemberOk(h, c, x);
      assert x in h.lists[b] ==> MemberOk(h, b, x);
    }
    ChainFrame(h.mem, mem', h.heads[c], h.lists[c]);
  }

  // ---- binning a chunk --------------------------------------------------------------

  /** No top chunk that is not empty follows `s`. */
  ghost predicate NotUnderTop(h: Heap, s: int)
    requires Sized(h)
  {
    !(0 < h.top < h.topEnd <= SLOTS && h.top % PAGE != 0 && Pred(h, h.top) == s)
  }

  ghost predicate MayPush(h: Heap, s: int) {
    && Sized(h) && IsChunk(h, s) && SizeAt(h, s) >= 2 && s !in h.live && !Binned(h, s) && NotUnderTop(h, s)
    && (h.mem[s].inUse ==> (s + SizeAt(h, s)) % PAGE == 0)
  }

  /** Put chunk `s` at the front of the list for its size. */
  ghost function Push(h: Heap, s: int): Heap
    requires MayPush(h, s)
  {
    var b := BinOf(SizeAt(h, s));
    h.(mem := SetNext(h.mem, s, h.heads[b]), heads := h.heads[b := s], lists := h.lists[b := [s] + h.lists[b]])
  }

  lemma PushBin(h: Heap, s: int, c: int)
    requires MayPush(h, s) && 0 <= c <= UNSORTED && BinOk(h, c)
    ensures BinOk(Push(h, s), c)
  {
    var h' := Push(h, s);
    var b := BinOf(SizeAt(h, s));
    assert s !in h.lists[c];
    if c == b {
      ChainPush(h.mem, h'.mem, h.heads[c], h.lists[c], s);
    } else {
      ChainFrame(h.mem, h'.mem, h.heads[c], h.lists[c]);
    }
    forall x | x in h'.lists[c] ensures MemberOk(h', c, x) {
      if x != s { assert MemberOk(h, c, x); }
    }
  }

  lemma PushKeepsInv(h: Heap, s: int)
    requires Inv(h, NIL) && MayPush(h, s)
    ensures Inv(Push(h, s), NIL) && SameTags(h, Push(h, s))
  {
    var h' := Push(h, s);
    SameTagsTiled(h, h', NIL);
    forall c | 0 <= c <= UNSORTED ensures BinOk(h', c) {
      assert BinOk(h, c);
      PushBin(h, s, c);
    }
    forall x | x in h'.live ensures LiveOk(h', x) { assert LiveOk(h, x); }
    forall x | Binned(h', x) ensures Binned(h, x) || x == s {
      var c :| 0 <= c <= UNSORTED && x in h'.lists[c];
      assert x in h.lists[c] || x == s;
    }
  }

  // ---- handing a whole chunk out ----------------------------------------------------

  /** An unbinned chunk is marked allocated and handed out. */
  ghost function HandOut(h: Heap, s: int): Heap
    requires Sized(h) && IsChunk(h, s)
  {
    h.(mem := h.mem[s := h.mem[s].(inUse := true)], live := h.live + {s})
  }

  lemma HandOutKeepsInv(h: Heap, s: int)
    requires Inv(h, NIL) && IsChunk(h, s) && !Binned(h, s) && SizeAt(h, s) >= 2
    ensures Inv(HandOut(h, s), NIL)
  {
    var h' := HandOut(h, s);
    forall f | 0 <= f < SLOTS ensures SlotOk(h', f) { assert SlotOk(h, f); }
    forall x | IsChunk(h', x) ensures ChunkOk(h', x) && TagOk(h', NIL, x) {
      assert ChunkOk(h, x) && TagOk(h, NIL, x);
    }
    forall c | 0 <= c <= UNSORTED ensures BinOk(h', c) {
      assert BinOk(h, c) && s !in h.lists[c];
      ChainFrame(h.mem, h'.mem, h.heads[c], h.lists[c]);
      forall x | x in h'.lists[c] ensures MemberOk(h', c, x) { assert MemberOk(h, c, x); }
    }
    forall x | x in h'.live ensures LiveOk(h', x) {
      if x != s { assert LiveOk(h, x); }
    }
    assert forall x :: Binned(h', x) <==> Binned(h, x);
  }

  // ---- splitting a chunk ------------------------------------------------------------

  /** Chunk `c`, off its list, may be cut after `n` units. */
  ghost predicate MaySplit(h: Heap, c: int, n: int) {
    && Sized(h) && IsChunk(h, c) && 2 <= n < SizeAt(h, c) && c !in h.live && !Binned(h, c) && NotUnderTop(h, c)
    && ChunkOk(h, c) && (h.mem[c].inUse ==> (c + SizeAt(h, c)) % PAGE == 0)
  }

  /** `c` keeps `n` units and is marked allocated; the rest becomes a chunk,
      marked free if it can hold a payload; the follower's tag is corrected. */
  ghost function Split(h: Heap, c: int, n: int): Heap
    requires MaySplit(h, c, n)
  {
    var m := SizeAt(h, c) - n;
    var e := c + n + m;
    var mem := h.mem[c := Header(NIL, n - 2, h.mem[c].prevSize, true)][c + n := Header(NIL, m - 2, n, m < 2)];
    h.(mem := if e == h.top then mem else mem[e := mem[e].(prevSize := m)], owner := Fill(h.owner, c + n, e, c + n))
  }

  /** What `Split` does, unit by unit; `r` is the rest, `e` the follower. */
  ghost predicate SplitShape(h: Heap, h': Heap, c: int, n: int, m: int, r: int, e: int) {
    && MaySplit(h, c, n) && Sized(h') && m == SizeAt(h, c) - n && r == c + n && e == r + m
    && h' == h.(mem := h'.mem, owner := h'.owner)
    && (forall f | 0 <= f < SLOTS :: h'.owner[f] == if r <= f < e then r else h.owner[f])
    && (forall x | 0 <= x <= SLOTS && x != c && x != r && x != e :: h'.mem[x] == h.mem[x])
    && h'.mem[c] == Header(NIL, n - 2, h.mem[c].prevSize, true)
    && h'.mem[r] == Header(NIL, m - 2, n, m < 2)
    && (h'.mem[e] == h.mem[e] || h'.mem[e] == h.mem[e].(prevSize := m))
    && (e % PAGE != 0 && e != h.top ==> h'.mem[e].prevSize == m)
  }

  lemma SplitHasShape(h: Heap, c: int, n: int)
    requires MaySplit(h, c, n) && Tiled(h)
    ensures var m := SizeAt(h, c) - n;
            SplitShape(h, Split(h, c, n), c, n, m, c + n, c + n + m)
  {
    AfterChunk(h, c);
  }

  lemma SplitTiled(h: Heap, h': Heap, c: int, n: int, m: int, r: int, e: int)
    requires SplitShape(h, h', c, n, m, r, e) && Tiled(h)
    ensures Tiled(h')
    ensures forall x :: IsChunk(h', x) <==> IsChunk(h, x) || x == r
    ensures !IsChunk(h, r)
  {
    assert h.owner[r] == c;
    forall f | 0 <= f < SLOTS ensures SlotOk(h', f) {
      SplitSlot(h, h', c, n, m, r, e, f);
    }
    forall x | IsChunk(h', x) ensures ChunkOk(h', x) {
      if x != c && x != r { assert ChunkOk(h, x); }
    }
  }

  lemma SplitSlot(h: Heap, h': Heap, c: int, n: int, m: int, r: int, e: int, f: int)
    requires SplitShape(h, h', c, n, m, r, e) && Tiled(h) && 0 <= f < SLOTS
    ensures SlotOk(h', f)
  {
    assert SlotOk(h, f);
    if Covered(h, f) && h.owner[f] != c { assert ChunkOk(h, h.owner[f]); }
  }

  lemma SplitTags(h: Heap, h': Heap, c: int, n: int, m: int, r: int, e: int)
    requires SplitShape(h, h', c, n, m, r, e) && Inv(h, NIL) && Tiled(h')
    requires forall x :: IsChunk(h', x) <==> IsChunk(h, x) || x == r
    ensures forall x | IsChunk(h', x) :: TagOk(h', NIL, x)
  {
    forall x | IsChunk(h', x) ensures TagOk(h', NIL, x) {
      if x == r {
      } else {
        assert TagOk(h, NIL, x) && ChunkOk(h, x);
        if x % PAGE != 0 {
          PredIsChunk(h, x);
          if Pred(h, x) == c { assert x == e; }
        }
      }
    }
  }

  lemma SplitTopTag(h: Heap, h': Heap, c: int, n: int, m: int, r: int, e: int)
    requires SplitShape(h, h', c, n, m, r, e) && Inv(h, NIL)
    ensures TopTagOk(h', NIL)
  {
    assert forall x :: Binned(h', x) <==> Binned(h, x);
    if 0 < h.top < h.topEnd <= SLOTS && h.top % PAGE != 0 {
      assert SlotOk(h, h.top - 1) && SlotOk(h, h.top);
      var p := Pred(h, h.top);
      assert ChunkOk(h, p);
      AfterChunk(h, p);
      assert p != c;
    }
  }

  lemma SplitBins(h: Heap, h': Heap, c: int, n: int, m: int, r: int, e: int, b: int)
    requires SplitShape(h, h', c, n, m, r, e) && 0 <= b <= UNSORTED && BinOk(h, b) && !IsChunk(h, r)
    ensures BinOk(h', b)
  {
    assert c !in h.lists[b];
    forall x | x in h.lists[b] ensures MemberOk(h', b, x) && h'.mem[x].next == h.mem[x].next && x != r {
      assert MemberOk(h, b, x);
    }
    ChainFrame(h.mem, h'.mem, h.heads[b], h.lists[b]);
  }

  lemma SplitKeepsInv(h: Heap, c: int, n: int)
    requires Inv(h, NIL) && MaySplit(h, c, n)
    ensures var h' := Split(h, c, n);
            var r := c + n;
            && Inv(h', NIL) && IsChunk(h', c) && IsChunk(h', r) && !Binned(h', c) && !Binned(h', r) && r !in h'.live
            && SizeAt(h', c) == n && SizeAt(h', r) == SizeAt(h, c) - n && NotUnderTop(h', r)
            && h'.mem[r].inUse == (SizeAt(h', r) < 2) && h'.live == h.live
            && (forall x | x in h.live :: LiveOk(h, x) && h'.mem[x].index == h.mem[x].index)
  {
    var h' := Split(h, c, n);
    var m := SizeAt(h, c) - n;
    var r, e := c + n, c + n + m;
    SplitHasShape(h, c, n);
    SplitTiled(h, h', c, n, m, r, e);
    SplitTags(h, h', c, n, m, r, e);
    SplitTopTag(h, h', c, n, m, r, e);
    forall b | 0 <= b <= UNSORTED ensures BinOk(h', b) && r !in h.lists[b] {
      assert BinOk(h, b);
      SplitBins(h, h', c, n, m, r, e, b);
      assert r in h.lists[b] ==> MemberOk(h, b, r);
    }
    forall x | x in h'.live ensures LiveOk(h', x) && h'.mem[x].index == h.mem[x].index { assert LiveOk(h, x); }
    assert forall x :: Binned(h', x) <==> Binned(h, x);
    assert NotUnderTop(h', r) by {
      if 0 < h.top < h.topEnd <= SLOTS && h.top % PAGE != 0 {
        assert SlotOk(h, h.top - 1) && SlotOk(h, h.top);
      }
    }
  }

  // ---- the top chunk ------------------------------------------------------------------

  /** The first `n` units of the top chunk become a chunk, marked allocated. */
  ghost function CarveTop(h: Heap, n: int): Heap
    requires Sized(h) && 0 <= h.top < SLOTS
  {
    h.(mem := h.mem[h.top := Header(NIL, n - 2, h.topPrev, true)], owner := Fill(h.owner, h.top, h.top + n, h.top),
       top := h.top + n, topPrev := n)
  }

  ghost predicate MayCarve(h: Heap, n: int) {
    Sized(h) && TopOk(h) && h.top < h.topEnd && 1 <= n <= h.topEnd - h.top
  }

  lemma TopNotChunk(h: Heap)
    requires Tiled(h) && h.top < h.topEnd
    ensures forall f | h.top <= f < h.topEnd :: h.owner[f] == NIL
    ensures h.top % PAGE != 0 ==> h.top > 0 && IsChunk(h, Pred(h, h.top))
    ensures h.top % PAGE != 0 ==> Pred(h, h.top) + SizeAt(h, Pred(h, h.top)) == h.top
  {
    forall f | h.top <= f < h.topEnd ensures h.owner[f] == NIL {
      assert SlotOk(h, f);
    }
    if h.top % PAGE != 0 {
      assert SlotOk(h, h.top - 1) && h.owner[h.top] == NIL;
      AfterChunk(h, Pred(h, h.top));
    }
  }

  lemma CarveTiled(h: Heap, n: int)
    requires MayCarve(h, n) && Tiled(h)
    ensures Tiled(CarveTop(h, n))
    ensures forall x :: IsChunk(CarveTop(h, n), x) <==> IsChunk(h, x) || x == h.top
    ensures !IsChunk(h, h.top)
  {
    var h' := CarveTop(h, n);
    TopNotChunk(h);
    forall f | 0 <= f < SLOTS ensures SlotOk(h', f) {
      CarveSlot(h, n, f);
    }
    forall x | IsChunk(h', x) ensures ChunkOk(h', x) {
      if x != h.top { assert ChunkOk(h, x); }
    }
  }

  lemma CarveSlot(h: Heap, n: int, f: int)
    requires MayCarve(h, n) && Tiled(h) && 0 <= f < SLOTS
    ensures SlotOk(CarveTop(h, n), f)
  {
    TopNotChunk(h);
    assert SlotOk(h, f);
  }

  lemma CarveTags(h: Heap, n: int)
    requires MayCarve(h, n) && Inv(h, NIL) && Tiled(CarveTop(h, n))
    requires forall x :: IsChunk(CarveTop(h, n), x) <==> IsChunk(h, x) || x == h.top
    ensures forall x | IsChunk(CarveTop(h, n), x) :: TagOk(CarveTop(h, n), NIL, x)
  {
    var h' := CarveTop(h, n);
    TopNotChunk(h);
    forall x | IsChunk(h', x) ensures TagOk(h', NIL, x) {
      if x != h.top {
        assert TagOk(h, NIL, x);
        if x % PAGE != 0 { PredIsChunk(h, x); }
      }
    }
  }

  lemma CarveKeepsInv(h: Heap, n: int)
    requires Inv(h, NIL) && MayCarve(h, n)
    ensures var h' := CarveTop(h, n);
            && Inv(h', NIL) && IsChunk(h', h.top) && SizeAt(h', h.top) == n && h'.mem[h.top].inUse
            && !Binned(h', h.top) && h.top !in h'.live
            && (forall x | x in h.live :: LiveOk(h, x) && h'.mem[x].index == h.mem[x].index)
  {
    var h' := CarveTop(h, n);
    CarveTiled(h, n);
    CarveTags(h, n);
    forall b | 0 <= b <= UNSORTED ensures BinOk(h', b) && h.top !in h.lists[b] {
      assert BinOk(h, b);
      forall x | x in h.lists[b] ensures MemberOk(h', b, x) && x != h.top { assert MemberOk(h, b, x); }
      ChainFrame(h.mem, h'.mem, h.heads[b], h.lists[b]);
    }
    forall x | x in h.live ensures LiveOk(h, x) && LiveOk(h', x) && x != h.top { assert LiveOk(h, x); }
    assert forall x :: Binned(h', x) <==> Binned(h, x);
  }

  /** A fresh page becomes the top chunk. */
  ghost function NewPage(h: Heap, p: int): Heap {
    h.(pages := h.pages + {p}, top := p * PAGE, topEnd := p * PAGE + PAGE)
  }

  lemma NewPageKeepsInv(h: Heap, p: int)
    requires Inv(h, NIL) && h.top == h.topEnd && 0 <= p < SLOTS / PAGE && p !in h.pages
    ensures Inv(NewPage(h, p), NIL)
  {
    var h' := NewPage(h, p);
    forall f | 0 <= f < SLOTS ensures SlotOk(h', f) { assert SlotOk(h, f); }
    forall x | IsChunk(h', x) ensures ChunkOk(h', x) && TagOk(h', NIL, x) {
      assert ChunkOk(h, x) && TagOk(h, NIL, x);
    }
    forall b | 0 <= b <= UNSORTED ensures BinOk(h', b) {
      assert BinOk(h, b);
      forall x | x in h'.lists[b] ensures MemberOk(h', b, x) { assert MemberOk(h, b, x); }
    }
    forall x | x in h'.live ensures LiveOk(h', x) { assert LiveOk(h, x); }
  }

  // ---- taking a chunk back --------------------------------------------------------------

  /** A chunk handed out is marked free and held. */
  ghost function TakeBack(h: Heap, s: int): Heap
    requires Sized(h) && IsChunk(h, s)
  {
    h.(mem := h.mem[s := h.mem[s].(inUse := false)], live := h.live - {s})
  }

  lemma TakeBackKeepsInv(h: Heap, s: int)
    requires Inv(h, NIL) && s in h.live
    ensures LiveOk(h, s) && Inv(TakeBack(h, s), s)
  {
    assert LiveOk(h, s);
    var h' := TakeBack(h, s);
    if h.top < h.topEnd { TopNotChunk(h); }
    forall f | 0 <= f < SLOTS ensures SlotOk(h', f) { assert SlotOk(h, f); }
    forall x | IsChunk(h', x) ensures ChunkOk(h', x) && TagOk(h', s, x) {
      assert ChunkOk(h, x) && TagOk(h, NIL, x);
    }
    forall b | 0 <= b <= UNSORTED ensures BinOk(h', b) && s !in h.lists[b] {
      assert BinOk(h, b);
      forall x | x in h.lists[b] ensures x != s && MemberOk(h', b, x) { assert MemberOk(h, b, x); }
      ChainFrame(h.mem, h'.mem, h.heads[b], h.lists[b]);
    }
    forall x | x in h'.live ensures LiveOk(h', x) { assert LiveOk(h, x); }
    assert forall x :: Binned(h', x) <==> Binned(h, x);
  }

  /** `b` follows `a`; neither is listed or handed out, and one of them is held. */
  ghost predicate MayJoin(h: Heap, held: int, a: int, b: int) {
    && Sized(h) && IsChunk(h, a) && IsChunk(h, b) && b % PAGE != 0 && b == a + SizeAt(h, a)
    && ChunkOk(h, a) && ChunkOk(h, b) && (held == a || held == b)
    && a !in h.live && b !in h.live && !Binned(h, a) && !Binned(h, b)
  }

  /** `a` absorbs `b`, and the unit after them gets the new size as its tag. */
  ghost function Join(h: Heap, a: int, b: int, next: int): Heap
    requires Sized(h) && IsChunk(h, a) && IsChunk(h, b) && ChunkOk(h, a) && ChunkOk(h, b) && b == a + SizeAt(h, a)
  {
    var n := SizeAt(h, a) + SizeAt(h, b);
    var mem := h.mem[a := h.mem[a].(index := n - 2, next := next)];
    h.(mem := if a + n <= SLOTS then mem[a + n := mem[a + n].(prevSize := n)] else mem,
       owner := Fill(h.owner, b, a + n, a))
  }

  ghost predicate JoinShape(h: Heap, h': Heap, held: int, a: int, b: int, e: int) {
    && MayJoin(h, held, a, b) && Sized(h') && e == b + SizeAt(h, b) && e <= SLOTS
    && h' == h.(mem := h'.mem, owner := h'.owner)
    && (forall f | 0 <= f < SLOTS :: h'.owner[f] == if b <= f < e then a else h.owner[f])
    && (forall x | 0 <= x <= SLOTS && x != a && x != e :: h'.mem[x] == h.mem[x])
    && h'.mem[a].(next := 0) == h.mem[a].(index := e - a - 2, next := 0)
    && h'.mem[e] == h.mem[e].(prevSize := e - a)
  }

  lemma JoinHasShape(h: Heap, held: int, a: int, b: int, next: int)
    requires MayJoin(h, held, a, b) && Tiled(h)
    ensures JoinShape(h, Join(h, a, b, next), held, a, b, b + SizeAt(h, b))
  {
    AfterChunk(h, b);
  }

  lemma JoinTiled(h: Heap, h': Heap, held: int, a: int, b: int, e: int)
    requires JoinShape(h, h', held, a, b, e) && Tiled(h)
    ensures Tiled(h')
    ensures forall x :: IsChunk(h', x) <==> IsChunk(h, x) && x != b
  {
    forall f | 0 <= f < SLOTS ensures SlotOk(h', f) {
      assert SlotOk(h, f);
      if Covered(h, f) { assert ChunkOk(h, h.owner[f]); }
    }
    forall x | IsChunk(h', x) ensures ChunkOk(h', x) {
      if x != a { assert ChunkOk(h, x); }
    }
  }

  lemma JoinTags(h: Heap, h': Heap, held: int, a: int, b: int, e: int)
    requires JoinShape(h, h', held, a, b, e) && Inv(h, held) && Tiled(h')
    requires forall x :: IsChunk(h', x) <==> IsChunk(h, x) && x != b
    ensures forall x | IsChunk(h', x) :: TagOk(h', a, x)
  {
    forall x | IsChunk(h', x) ensures TagOk(h', a, x) {
      assert TagOk(h, held, x) && ChunkOk(h, x);
      if x % PAGE != 0 {
        PredIsChunk(h, x);
        if Pred(h, x) == b { assert x == e; }
        assert Pred(h, x) == a ==> x == b;
      }
    }
  }

  lemma JoinTop(h: Heap, h': Heap, held: int, a: int, b: int, e: int)
    requires JoinShape(h, h', held, a, b, e) && Inv(h, held)
    ensures TopTagOk(h', a)
  {
    assert forall x :: Binned(h', x) <==> Binned(h, x);
    if 0 < h.top < h.topEnd <= SLOTS && h.top % PAGE != 0 {
      TopNotChunk(h);
      assert h.owner[h.top] == NIL;
    }
  }

  lemma JoinKeepsInv(h: Heap, h': Heap, held: int, a: int, b: int, e: int)
    requires JoinShape(h, h', held, a, b, e) && Inv(h, held)
    ensures Inv(h', a) && h'.live == h.live && SizeAt(h', a) == e - a
    ensures forall x | x in h.live :: LiveOk(h, x) && h'.mem[x].index == h.mem[x].index
  {
    JoinTiled(h, h', held, a, b, e);
    JoinTags(h, h', held, a, b, e);
    JoinTop(h, h', held, a, b, e);
    forall c | 0 <= c <= UNSORTED ensures BinOk(h', c) {
      assert BinOk(h, c) && a !in h.lists[c] && b !in h.lists[c];
      forall x | x in h.lists[c] ensures MemberOk(h', c, x) { assert MemberOk(h, c, x); }
      ChainFrame(h.mem, h'.mem, h.heads[c], h.lists[c]);
    }
    forall x | x in h.live ensures LiveOk(h, x) && LiveOk(h', x) && h'.mem[x].index == h.mem[x].index {
      assert LiveOk(h, x);
    }
    assert forall x :: Binned(h', x) <==> Binned(h, x);
  }

  /** The held chunk has no free neighbour before it, or starts its page. */
  ghost predicate PredBusy(h: Heap, s: int)
    requires Sized(h) && IsChunk(h, s)
  {
    s % PAGE != 0 ==> IsChunk(h, Pred(h, s)) && h.mem[Pred(h, s)].inUse
  }

  ghost predicate SuccBusy(h: Heap, s: int)
    requires Sized(h) && IsChunk(h, s)
  {
    var e := s + SizeAt(h, s);
    e % PAGE == 0 || (IsChunk(h, e) && h.mem[e].inUse)
  }

  /** With busy neighbours on both sides the chunk may stay where it is. */
  lemma ReleaseKeepsInv(h: Heap, s: int)
    requires Inv(h, s) && s != NIL && PredBusy(h, s) && SuccBusy(h, s)
    ensures Inv(h, NIL) && NotUnderTop(h, s)
  {
    AfterChunk(h, s);
    if 0 < h.top < h.topEnd <= SLOTS && h.top % PAGE != 0 { TopNotChunk(h); }
    forall x | IsChunk(h, x) ensures TagOk(h, NIL, x) {
      assert TagOk(h, s, x);
      if x % PAGE != 0 { PredIsChunk(h, x); }
    }
  }

  /** The held chunk flows back into the top chunk that follows it. */
  ghost function IntoTop(h: Heap, s: int): Heap
    requires Sized(h) && IsChunk(h, s)
  {
    h.(top := s, topPrev := h.mem[s].prevSize, owner := Fill(h.owner, s, s + SizeAt(h, s), NIL))
  }

  lemma IntoTopTiled(h: Heap, s: int)
    requires Inv(h, s) && s != NIL && s + SizeAt(h, s) == h.top && h.top % PAGE != 0
    ensures h.top < h.topEnd ==>
              Tiled(IntoTop(h, s)) && forall x :: IsChunk(IntoTop(h, s), x) <==> IsChunk(h, x) && x != s
  {
    if h.top < h.topEnd {
      var h' := IntoTop(h, s);
      AfterChunk(h, s);
      TopNotChunk(h);
      forall f | 0 <= f < SLOTS ensures SlotOk(h', f) {
        assert SlotOk(h, f);
        if Covered(h, f) { assert ChunkOk(h, h.owner[f]); }
      }
      forall x | IsChunk(h', x) ensures ChunkOk(h', x) { assert ChunkOk(h, x); }
    }
  }

  lemma IntoTopKeepsInv(h: Heap, s: int)
    requires Inv(h, s) && s != NIL && s + SizeAt(h, s) == h.top < h.topEnd && h.top % PAGE != 0 && PredBusy(h, s)
    ensures Inv(IntoTop(h, s), NIL)
  {
    var h' := IntoTop(h, s);
    IntoTopTiled(h, s);
    AfterChunk(h, s);
    forall x | IsChunk(h', x) ensures TagOk(h', NIL, x) {
      assert TagOk(h, s, x);
      if x % PAGE != 0 { PredIsChunk(h, x); }
      TopNotChunk(h);
    }
    assert TagOk(h, s, s);
    forall b | 0 <= b <= UNSORTED ensures BinOk(h', b) {
      assert BinOk(h, b) && s !in h.lists[b];
      forall x | x in h'.lists[b] ensures MemberOk(h', b, x) { assert MemberOk(h, b, x); }
    }
    forall x | x in h'.live ensures LiveOk(h', x) { assert LiveOk(h, x); }
    if s % PAGE != 0 {
      PredIsChunk(h, s);
      var p := Pred(h, s);
      forall b | 0 <= b <= UNSORTED ensures p !in h.lists[b] {
        assert BinOk(h, b) && (p in h.lists[b] ==> MemberOk(h, b, p));
      }
    }
  }

  // ---- nothing left to split off ----------------------------------------------------------

  /** Some division of the pages into chunks agrees with the headers. */
  ghost predicate Tileable(h: Heap) {
    exists owner: seq<int> :: Tiled(h.(owner := owner))
  }

  /** `g` has the same pages, top and chunk sizes as `h`, except that the header
      at `e` has size zero. */
  ghost predicate ZeroedAt(h: Heap, g: Heap, e: int) {
    && Tiled(h) && IsChunk(h, e) && |g.mem| == SLOTS + 1
    && g.pages == h.pages && g.top == h.top && g.topEnd == h.topEnd
    && (forall x | 0 <= x < SLOTS && x != e :: SizeAt(g, x) == SizeAt(h, x))
    && SizeAt(g, e) == 0
  }

  lemma PageStartIsChunk(g: Heap, x: int)
    requires Tiled(g) && 0 <= x < SLOTS && x % PAGE == 0 && Covered(g, x)
    ensures IsChunk(g, x)
  {
    assert SlotOk(g, x) && ChunkOk(g, g.owner[x]);
  }

  /** Up to `e` any other division has the same chunks. */
  lemma {:induction false} SameChunksBefore(h: Heap, g: Heap, e: int, x: int)
    requires ZeroedAt(h, g, e) && Tiled(g) && IsChunk(h, x) && x <= e
    ensures IsChunk(g, x) && ChunkOk(g, x)
    decreases x
  {
    assert SlotOk(h, x);
    if x % PAGE == 0 {
      PageStartIsChunk(g, x);
    } else {
      PredIsChunk(h, x);
      assert ChunkOk(h, Pred(h, x));
      SameChunksBefore(h, g, e, Pred(h, x));
      AfterChunk(g, Pred(h, x));
    }
  }

  /** A chunk header of size zero cannot be part of any division into chunks. */
  lemma ZeroedNotTileable(h: Heap, g: Heap, e: int)
    requires ZeroedAt(h, g, e)
    ensures !Tileable(g)
  {
    forall owner: seq<int> | Tiled(g.(owner := owner))
      ensures false
    {
      SameChunksBefore(h, g.(owner := owner), e, e);
    }
  }

  /** A write to a unit that is no chunk's header. */
  lemma JunkKeepsInv(h: Heap, e: int, hd: Header)
    requires Inv(h, NIL) && 0 <= e <= SLOTS && !IsChunk(h, e)
    ensures Inv(h.(mem := h.mem[e := hd]), NIL)
  {
    var h' := h.(mem := h.mem[e := hd]);
    forall f | 0 <= f < SLOTS ensures SlotOk(h', f) { assert SlotOk(h, f); }
    forall x | IsChunk(h', x) ensures ChunkOk(h', x) && TagOk(h', NIL, x) {
      assert ChunkOk(h, x) && TagOk(h, NIL, x);
    }
    forall b | 0 <= b <= UNSORTED ensures BinOk(h', b) {
      assert BinOk(h, b);
      forall x | x in h.lists[b] ensures x != e && MemberOk(h', b, x) { assert MemberOk(h, b, x); }
      ChainFrame(h.mem, h'.mem, h.heads[b], h.lists[b]);
    }
    forall x | x in h'.live ensures LiveOk(h', x) { assert LiveOk(h, x); }
    if h.top < h.topEnd { TopNotChunk(h); }
    assert forall x :: Binned(h', x) <==> Binned(h, x);
  }
}
