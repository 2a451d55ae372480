/** The small-object allocator of mm/SlobAllocator.cc. */
module Slob {
  import opened Lists
  import opened KMath
  import opened SlobState
  import opened SlobSteps

  /** Pages of the zone that its buddy allocator has handed out. */
  function OwnedPages(free: set<int>): set<int> {
    set p | 0 <= p < SLOTS / PAGE && p !in free
  }

  /** All pages are owned exactly when none is free. */
  lemma PagesLeft(free: set<int>)
    requires forall p | p in free :: 0 <= p < SLOTS / PAGE
    ensures OwnedPages(free) == OwnedPages({}) <==> free == {}
  {
    if free != {} {
      SomeMember(free);
      var p :| p in free;
      assert p in OwnedPages({}) && p !in OwnedPages(free);
    }
  }

  class SlobAllocator {
    const mem: array<Header>
    /** The regular bins, and `_unsorted_bin` as the last entry. */
    const bins: array<int>
    var top: int
    var topEnd: int
    var topPrev: int
    /** Page frames its buddy allocator has left. */
    var freePages: set<int>
    ghost var owner: seq<int>
    ghost var lists: seq<seq<int>>
    ghost var live: set<int>

    ghost function View(): Heap
      reads this, mem, bins
    {
      Heap(mem[..], top, topEnd, topPrev, bins[..], OwnedPages(freePages), owner, lists, live)
    }

    ghost predicate Valid()
      reads this, mem, bins
    {
      Inv(View(), NIL) && forall p | p in freePages :: 0 <= p < SLOTS / PAGE
    }

    constructor ()
      ensures Valid() && View() == EmptyHeap() && fresh(mem) && fresh(bins)
    {
      mem := new Header[SLOTS + 1](_ => Header(NIL, 0, 0, false));
      bins := new int[NR_BINS + 1](_ => NIL);
      top, topEnd, topPrev := NIL, NIL, 0;
      freePages := OwnedPages({});
      owner := seq(SLOTS, _ => NIL);
      lists := seq(NR_BINS + 1, _ => []);
      live := {};
      new;
      var h := View();
      assert h.pages == {};
      forall f | 0 <= f < SLOTS ensures SlotOk(h, f) {
      }
      forall b | 0 <= b <= UNSORTED ensures BinOk(h, b) {
      }
    }

    /** Takes a chunk off the list for its size, if it is there; `i` tells
        where it was. */
    method BinDelEntry(chunk: int) returns (ghost i: int)
      requires Sized(View()) && 0 <= chunk < SLOTS && Size(mem[chunk]) >= 2
      requires Chain(mem[..], bins[BinOf(Size(mem[chunk]))], lists[BinOf(Size(mem[chunk]))])
      modifies mem, bins, this`lists
      ensures i == NIL <==> chunk !in old(lists[BinOf(Size(mem[chunk]))])
      ensures i == NIL ==> View() == old(View())
      ensures i != NIL ==>
                && OnList(old(View()), old(BinOf(Size(mem[chunk]))), i)
                && old(lists[BinOf(Size(mem[chunk]))])[i] == chunk
                && View() == Unlink(old(View()), old(BinOf(Size(mem[chunk]))), i)
    {
      var b := BinOf(Size(mem[chunk]));
      ghost var l := lists[b];
      ghost var h := View();
      if bins[b] == chunk {
        assert LinkOk(h.mem, l, 0);
        i := 0;
        bins[b] := mem[bins[b]].next;
        mem[chunk] := mem[chunk].(next := NIL);
        lists := lists[b := RemoveAt(l, 0)];
        return;
      }
      var prev := NIL;
      var ptr := bins[b];
      i := 0;
      assert l != [] ==> LinkOk(h.mem, l, 0);
      while ptr != NIL && ptr != chunk
        invariant 0 <= i <= |l| && ptr == (if i < |l| then l[i] else NIL)
        invariant ptr == NIL ==> i == |l|
        invariant (i > 0 ==> prev == l[i - 1]) && (ptr == chunk ==> i > 0)
        invariant chunk !in l[..i]
        decreases |l| - i
      {
        assert LinkOk(h.mem, l, i) && (i + 1 < |l| ==> LinkOk(h.mem, l, i + 1));
        prev := ptr;
        ptr := mem[ptr].next;
        i := i + 1;
      }
      if ptr == NIL {
        assert l[..i] == l;
        i := NIL;
        return;
      }
      assert LinkOk(h.mem, l, i) && LinkOk(h.mem, l, i - 1) && l[i - 1] != l[i];
      mem[prev] := mem[prev].(next := mem[ptr].next);
      mem[ptr] := mem[ptr].(next := NIL);
      lists := lists[b := RemoveAt(l, i)];
    }

    /** For a regular bin the chunk must be its first entry. */
    method BinDelHead(chunk: int, ghost at: int)
      requires Sized(View()) && 0 <= chunk < SLOTS && Size(mem[chunk]) >= 2
      requires OnList(View(), BinOf(Size(mem[chunk])), at) && lists[BinOf(Size(mem[chunk]))][at] == chunk
      requires mem[chunk].index < NR_BINS ==> at == 0
      modifies mem, bins, this`lists
      ensures View() == Unlink(old(View()), old(BinOf(Size(mem[chunk]))), at)
    {
      if mem[chunk].index >= NR_BINS {
        ghost var i := BinDelEntry(chunk);
        assert i == at;
        return;
      }
      var b := mem[chunk].index;
      if bins[b] == NIL {
        return;
      }
      bins[b] := mem[bins[b]].next;
      mem[chunk] := mem[chunk].(next := NIL);
      lists := lists[b := RemoveAt(lists[b], 0)];
    }

    method BinAddHead(chunk: int)
      requires MayPush(View(), chunk) && bins[BinOf(Size(mem[chunk]))] != chunk
      modifies mem, bins, this`lists
      ensures View() == Push(old(View()), chunk)
    {
      var b := BinOf(Size(mem[chunk]));
      if bins[b] == NIL {
        bins[b] := chunk;
        mem[chunk] := mem[chunk].(next := NIL);
      } else {
        mem[chunk] := mem[chunk].(next := bins[b]);
        bins[b] := chunk;
      }
      lists := lists[b := [chunk] + lists[b]];
    }

    method SplitFromTopChunk(n: int) returns (chunk: int)
      requires MayCarve(View(), n)
      modifies mem, this`top, this`topPrev, this`owner
      ensures chunk == old(top) && View() == CarveTop(old(View()), n)
    {
      chunk := top;
      mem[chunk] := mem[chunk].(next := NIL);
      mem[chunk] := mem[chunk].(index := n - 2);
      mem[chunk] := mem[chunk].(prevSize := topPrev, inUse := false);
      mem[chunk] := mem[chunk].(inUse := true);
      owner := Fill(owner, top, top + n, top);
      top := top + n;
      topPrev := n;
    }

    method RequestNewPageFrame() returns (ok: bool)
      requires Sized(View()) && forall p | p in freePages :: 0 <= p < SLOTS / PAGE
      modifies this`top, this`topEnd, this`freePages
      ensures ok <==> old(freePages) != {}
      ensures !ok ==> View() == old(View()) && freePages == old(freePages)
      ensures ok ==> exists p :: p in old(freePages) && p !in old(View()).pages && View() == NewPage(old(View()), p) &&
                                 freePages == old(freePages) - {p}
    {
      if freePages == {} {
        return false;
      }
      SomeMember(freePages);
      var p :| p in freePages;
      freePages := freePages - {p};
      top := p * PAGE;
      topEnd := top + PAGE;
      assert OwnedPages(freePages) == OwnedPages(old(freePages)) + {p};
      ok := true;
    }

    /** Cuts `n` units off a listed chunk that is larger, entry `i` of its list. */
    method SplitFromChunk(chunk: int, n: int, ghost i: int)
      requires Inv(View(), NIL) && CanSplitOff(View(), chunk, n, i)
      modifies mem, bins, this`lists, this`owner
      ensures View() == SplitOff(old(View()), chunk, n, i)
    {
      ghost var h := View();
      SplitOffReady(h, chunk, n, i);
      var m := Size(mem[chunk]) - n;
      var remainder := chunk + n;
      mem[remainder] := mem[remainder].(next := NIL);
      mem[remainder] := mem[remainder].(index := m - 2);
      mem[remainder] := mem[remainder].(prevSize := n, inUse := false);
      assert View() == h.(mem := h.mem[remainder := Header(NIL, m - 2, n, false)]);
      RemainderOffLists(h, chunk, n, i, Header(NIL, m - 2, n, false));
      BinDelHead(chunk, i);
      FinishSplit(chunk, n, m, remainder, Unlink(h, BinOf(SizeAt(h, chunk)), i));
    }

    /** The rest of a split, from the state `h1` in which the chunk is off its
        list and the remainder's header has been written. */
    method FinishSplit(chunk: int, n: int, m: int, remainder: int, ghost h1: Heap)
      requires Inv(h1, NIL) && MaySplit(h1, chunk, n) && m == SizeAt(h1, chunk) - n && remainder == chunk + n
      requires remainder + m <= SLOTS && View() == h1.(mem := h1.mem[remainder := Header(NIL, m - 2, n, false)])
      modifies mem, bins, this`lists, this`owner
      ensures View() == SplitRest(h1, chunk, n)
    {
      assert |View().mem| == SLOTS + 1;
      owner := Fill(owner, remainder, remainder + m, remainder);
      ghost var h2 := View();
      if m >= 2 {
        mem[remainder] := mem[remainder].(inUse := false);
        assert View() == h2;
        RemainderMayPush(h1, h2, chunk, n);
        PushThenRetag(h1, h2, chunk, n, m);
        BinAddHead(remainder);
      } else {
        mem[remainder] := mem[remainder].(inUse := true);
        DiscardThenRetag(h1, h2, chunk, n, m);
      }
      FixTags(chunk, n, m);
    }

    /** Corrects the follower's tag and the chunk's own header. */
    method FixTags(chunk: int, n: int, m: int)
      requires mem.Length == SLOTS + 1 && 0 <= chunk < SLOTS && chunk < chunk + Size(mem[chunk]) <= SLOTS
      modifies mem
      ensures mem[..] == Retagged(old(mem[..]), top, chunk, n, m)
    {
      var next := chunk + Size(mem[chunk]);
      if next != top {
        mem[next] := mem[next].(prevSize := m);
      }
      mem[chunk] := mem[chunk].(next := NIL);
      mem[chunk] := mem[chunk].(index := n - 2);
      mem[chunk] := mem[chunk].(inUse := true);
    }

    /** The same steps when the chunk has exactly `n` units: the header of the
        empty remainder lands on whatever follows the chunk. */
    method SplitExact(chunk: int, n: int, ghost at: int)
      requires Inv(View(), NIL) && OnList(View(), UNSORTED, at) && lists[UNSORTED][at] == chunk &&
               SizeIs(View(), chunk, n)
      modifies mem, bins, this`lists
      ensures IsChunk(old(View()), chunk + n) ==> !Tileable(View())
      ensures !IsChunk(old(View()), chunk + n) ==>
                && Inv(View(), NIL) && !Binned(View(), chunk) && SizeIs(View(), chunk, n) && mem[chunk].inUse
                && KeepsSizes(old(View()), View()) && TakenFrom(old(View()), n, View(), chunk, UNSORTED, at)
    {
      ghost var h := View();
      AfterListed(h, UNSORTED, at);
      var remainder := chunk + n;
      ghost var hd := Header(NIL, -2, n, false);
      StrayHeader(remainder, n);
      if IsChunk(h, remainder) {
        assert BinOk(h, UNSORTED);
        ghost var l := OverwrittenChain(h.mem, h.heads[UNSORTED], h.lists[UNSORTED], remainder, hd);
        lists := lists[UNSORTED := l];
      } else {
        JunkKeepsInv(h, remainder, hd);
        assert BinOk(View(), UNSORTED);
      }
      ghost var h0 := View();
      ghost var i := BinDelEntry(chunk);
      ghost var h1 := View();
      FinishExact(chunk, n, remainder);
      if IsChunk(h, remainder) {
        StraySizes(h, h0, h1, View(), chunk, n, i);
        ZeroedNotTileable(h, View(), remainder);
      } else {
        ExactHarmless(h, h0, h1, View(), chunk, n, i, mem[remainder]);
      }
    }

    method StrayHeader(remainder: int, n: int)
      requires 0 <= remainder < mem.Length
      modifies mem
      ensures mem[..] == old(mem[..])[remainder := Header(NIL, -2, n, false)]
    {
      mem[remainder] := mem[remainder].(next := NIL);
      mem[remainder] := mem[remainder].(index := -2);
      mem[remainder] := mem[remainder].(prevSize := n, inUse := false);
    }

    method FinishExact(chunk: int, n: int, remainder: int)
      requires 0 <= chunk < remainder < mem.Length
      modifies mem
      ensures mem[..] ==
        old(mem[..])[remainder := mem[remainder]][chunk := Header(NIL, n - 2, old(mem[chunk].prevSize), true)]
      ensures mem[remainder].index == old(mem[remainder].index)
    {
      mem[remainder] := mem[remainder].(inUse := true);
      if remainder != top {
        mem[remainder] := mem[remainder].(prevSize := 0);
      }
      mem[chunk] := mem[chunk].(next := NIL);
      mem[chunk] := mem[chunk].(index := n - 2);
      mem[chunk] := mem[chunk].(inUse := true);
    }

    /** The first chunk of a regular bin, which fits exactly. */
    method TakeExact(b: int) returns (victim: int)
      requires Inv(View(), NIL) && 0 <= b < NR_BINS && bins[b] != NIL
      modifies mem, bins, this`lists, this`live
      ensures Served(old(View()), View(), victim, b + 2) && TakenFrom(old(View()), b + 2, View(), victim, b, 0)
    {
      ghost var h := View();
      assert BinOk(h, b);
      assert LinkOk(h.mem, h.lists[b], 0) && MemberOk(h, b, h.lists[b][0]);
      victim := bins[b];
      ExactServed(h, b);
      mem[victim] := mem[victim].(inUse := true);
      MarkedChain(h, View(), b, victim);
      BinDelHead(victim, 0);
      live := live + {victim};
      assert View() == HandOut(Unlink(h, b, 0), victim);
      ExactTaken(h, b);
    }

    /** Cuts a larger listed chunk, or takes an unsorted one of the same size. */
    method TakeFrom(chunk: int, n: int, ghost i: int)
      requires Inv(View(), NIL) && CanTake(View(), chunk, n, i)
      modifies mem, bins, this`lists, this`owner, this`live
      ensures SizeIs(old(View()), chunk, n) && IsChunk(old(View()), chunk + n) ==> !Tileable(View())
      ensures !(SizeIs(old(View()), chunk, n) && IsChunk(old(View()), chunk + n)) ==>
              && Served(old(View()), View(), chunk, n)
              && TakenFrom(old(View()), n, View(), chunk, BinOf(SizeAt(old(View()), chunk)), i)
    {
      ghost var h := View();
      assert BinOk(h, BinOf(SizeAt(h, chunk))) && MemberOk(h, BinOf(SizeAt(h, chunk)), chunk);
      if Size(mem[chunk]) == n {
        SplitExact(chunk, n, i);
      } else {
        SplitOffSpec(h, chunk, n, i);
        SplitOffTaken(h, chunk, n, i);
        SplitFromChunk(chunk, n, i);
      }
      if !(SizeIs(h, chunk, n) && IsChunk(h, chunk + n)) {
        MakeLive(h, chunk, n, BinOf(SizeAt(h, chunk)), i);
      }
    }

    /** Counts a chunk as handed out. */
    ghost method MakeLive(h: Heap, chunk: int, n: int, b: int, i: int)
      requires Inv(View(), NIL) && IsChunk(View(), chunk) && !Binned(View(), chunk) && SizeIs(View(), chunk, n)
      requires n >= 2 && mem[chunk].inUse && KeepsSizes(h, View()) && TakenFrom(h, n, View(), chunk, b, i)
      requires chunk !in h.live
      modifies this`live
      ensures Served(h, View(), chunk, n) && TakenFrom(h, n, View(), chunk, b, i)
    {
      GoLive(View(), chunk);
      ghost var h1 := View();
      live := live + {chunk};
      CutLive(h, h1, View(), chunk, n, SizeAt(h, chunk) - n);
    }

    /** The first entry of the unsorted bin with at least `n` units. */
    method FindUnsorted(n: int) returns (chunk: int, ghost i: int)
      requires Inv(View(), NIL)
      ensures 0 <= i <= |lists[UNSORTED]| && i == FirstFit(mem[..], lists[UNSORTED], n)
      ensures chunk == if i < |lists[UNSORTED]| then lists[UNSORTED][i] else NIL
    {
      ghost var l := lists[UNSORTED];
      assert BinOk(View(), UNSORTED);
      chunk := bins[UNSORTED];
      i := 0;
      assert l != [] ==> LinkOk(mem[..], l, 0);
      while chunk != NIL
        invariant 0 <= i <= |l| && chunk == (if i < |l| then l[i] else NIL)
        invariant chunk == NIL ==> i == |l|
        invariant FirstFit(mem[..], l, n) == i + FirstFit(mem[..], l[i..], n)
        decreases |l| - i
      {
        assert LinkOk(mem[..], l, i) && (i + 1 < |l| ==> LinkOk(mem[..], l, i + 1));
        assert l[i..][1..] == l[i + 1..];
        if Size(mem[chunk]) >= n {
          return;
        }
        chunk := mem[chunk].next;
        i := i + 1;
      }
    }

    /** The first regular bin from `idx` on that is not empty. */
    method FindBin(idx: int) returns (k: int)
      requires Inv(View(), NIL) && 0 <= idx
      ensures k >= idx && (k < NR_BINS ==> lists[k] != [] && bins[k] == lists[k][0])
      ensures forall b | idx <= b < k && b < NR_BINS :: lists[b] == []
      ensures k < NR_BINS || k == (if idx < NR_BINS then NR_BINS else idx)
    {
      k := idx;
      while k < NR_BINS
        invariant idx <= k && (idx < NR_BINS ==> k <= NR_BINS) && (idx >= NR_BINS ==> k == idx)
        invariant forall b | idx <= b < k && b < NR_BINS :: lists[b] == []
      {
        assert BinOk(View(), k);
        if bins[k] != NIL {
          return;
        }
        assert lists[k] != [] ==> LinkOk(mem[..], lists[k], 0);
        k := k + 1;
      }
    }

    /** Puts what is left of the top chunk on a list, or writes it off. */
    method RetireTop()
      requires Inv(View(), NIL) && top < topEnd
      modifies mem, bins, this`lists, this`owner, this`top, this`topPrev
      ensures Inv(View(), NIL) && top == topEnd && KeepsSizes(old(View()), View())
      ensures topEnd == old(topEnd) && View() == Retired(old(View()))
    {
      ghost var h := View();
      CarveKeepsInv(h, topEnd - top);
      var chunk := SplitFromTopChunk(topEnd - top);
      ghost var h1 := View();
      forall x | x in h.live ensures IsChunk(h, x) && h1.mem[x].index == h.mem[x].index { assert LiveOk(h, x); }
      CarvedMayPush(h);
      if Size(mem[chunk]) >= 2 {
        ListTop(chunk);
      } else {
        mem[chunk] := mem[chunk].(inUse := true);
        assert View() == h1;
      }
    }

    method ListTop(chunk: int)
      requires Inv(View(), NIL) && MayPush(View(), chunk)
      modifies mem, bins, this`lists
      ensures View() == Push(old(View()), chunk) && Inv(View(), NIL)
    {
      ghost var h := View();
      forall b | 0 <= b <= UNSORTED ensures chunk !in h.lists[b] && h.heads[b] != chunk {
        assert BinOk(h, b);
      }
      PushKeepsInv(h, chunk);
      BinAddHead(chunk);
    }

    /** Serves `n` units from the top chunk, on a new page if need be. */
    method TakeTop(n: int) returns (victim: int)
      requires Valid() && 2 <= n <= PAGE
      modifies mem, bins, this`lists, this`owner, this`live, this`top, this`topEnd, this`topPrev, this`freePages
      ensures victim == NIL <==> old(topEnd - top) < n && old(freePages) == {}
      ensures victim == NIL ==> Valid() && KeepsSizes(old(View()), View())
      ensures victim != NIL ==> Valid() && Served(old(View()), View(), victim, n)
      ensures FromTop(old(View()), n, View(), victim)
    {
      ghost var h := View();
      forall x | x in live ensures IsChunk(h, x) { assert LiveOk(h, x); }
      if top == topEnd {
        var ok := NewTop();
        if !ok {
          return NIL;
        }
      } else if topEnd - top < n {
        RetireTop();
        var ok := NewTop();
        if !ok {
          return NIL;
        }
      }
      ghost var h1 := View();
      CarveKeepsInv(h1, n);
      victim := SplitFromTopChunk(n);
      GoLive(View(), victim);
      live := live + {victim};
    }

    method NewTop() returns (ok: bool)
      requires Valid() && top == topEnd
      modifies this`top, this`topEnd, this`freePages
      ensures ok <==> old(freePages) != {}
      ensures Valid() && KeepsSizes(old(View()), View()) && (!ok ==> View() == old(View()))
      ensures ok ==> top >= 0 && topEnd - top == PAGE && topEnd <= SLOTS
      ensures ok ==> exists p :: p in OwnedPages({}) - old(View()).pages && View() == NewPage(old(View()), p)
    {
      ghost var h := View();
      forall x | x in live ensures IsChunk(h, x) { assert LiveOk(h, x); }
      ok := RequestNewPageFrame();
      if ok {
        ghost var p :| p in old(freePages) && p !in h.pages && View() == NewPage(h, p) &&
          freePages == old(freePages) - {p};
        NewPageKeepsInv(h, p);
        assert p in OwnedPages({}) - h.pages;
      }
    }

    /** Serves a request of `n` units. The heap stays divisible into chunks
        exactly when the request does not hit an unsorted chunk of the very
        same size with another chunk behind it. */
    method AllocateUnits(n: int) returns (victim: int)
      requires Valid() && 2 <= n <= PAGE
      modifies mem, bins, this`lists, this`owner, this`live, this`top, this`topEnd, this`topPrev, this`freePages
      ensures Tileable(View()) <==> !ExactHit(old(View()), n)
      ensures !ExactHit(old(View()), n) ==> Valid() && UnitStep(old(View()), n, victim, View())
    {
      ghost var h := View();
      PagesLeft(freePages);
      var idx := n - 2;
      if idx < NR_BINS && bins[idx] != NIL {
        assert BinOk(h, idx);
        assert LinkOk(h.mem, h.lists[idx], 0);
        victim := TakeExact(idx);
        FromListVia(h, n, View(), victim, idx, 0);
        assert Tiled(View().(owner := owner));
      } else {
        if idx < NR_BINS {
          assert BinOk(h, idx);
          assert h.lists[idx] != [] ==> LinkOk(h.mem, h.lists[idx], 0);
        }
        victim := TakeElsewhere(n);
      }
    }

    method TakeListed(chunk: int, n: int, ghost b: int, ghost i: int)
      requires Valid() && CanTake(View(), chunk, n, i) && BinOf(SizeAt(View(), chunk)) == b && Picks(View(), n, b, i)
      requires chunk != NIL && !NoListServes(View(), n)
      requires ExactHit(View(), n) <==> SizeIs(View(), chunk, n) && IsChunk(View(), chunk + n)
      modifies mem, bins, this`lists, this`owner, this`live
      ensures ExactHit(old(View()), n) ==> !Tileable(View())
      ensures !ExactHit(old(View()), n) ==> Valid() && UnitStep(old(View()), n, chunk, View())
    {
      ghost var h := View();
      TakeFrom(chunk, n, i);
      if !ExactHit(h, n) { FromListVia(h, n, View(), chunk, b, i); }
    }

    /** No regular bin fits exactly: search the unsorted bin, then the larger
        bins, then the top chunk. */
    method TakeElsewhere(n: int) returns (victim: int)
      requires Valid() && 2 <= n <= PAGE && (n - 2 < NR_BINS ==> lists[n - 2] == [])
      modifies mem, bins, this`lists, this`owner, this`live, this`top, this`topEnd, this`topPrev, this`freePages
      ensures Tileable(View()) <==> !ExactHit(old(View()), n)
      ensures !ExactHit(old(View()), n) ==> Valid() && UnitStep(old(View()), n, victim, View())
    {
      ghost var h := View();
      ghost var i;
      PagesLeft(freePages);
      victim, i := FindUnsorted(n);
      assert BinOk(h, UNSORTED);
      assert i < |h.lists[UNSORTED]| ==> LinkOk(h.mem, h.lists[UNSORTED], i);
      if victim != NIL {
        UnsortedFits(h, n, i);
        PicksUnsorted(h, n, i);
        TakeListed(victim, n, UNSORTED, i);
      } else {
        var k := FindBin(n - 2);
        if k < NR_BINS {
          victim := bins[k];
          BinFits(h, n, k);
          PicksBin(h, n, k);
          TakeListed(victim, n, k, 0);
        } else {
          victim := TakeTop(n);
        }
      }
      if !ExactHit(h, n) {
        assert Tiled(View().(owner := owner));
      }
    }

    /** A request in bytes, header not included. Callers keep header and payload
        below a page; the result counts units from the start of the zone, and
        NIL stands for null. */
    method Allocate(size: nat) returns (p: int)
      requires Valid() && size + 16 < 4096
      modifies mem, bins, this`lists, this`owner, this`live, this`top, this`topEnd, this`topPrev, this`freePages
      ensures size == 0 ==> p == NIL && View() == old(View()) && freePages == old(freePages)
      ensures size > 0 ==> (Tileable(View()) <==> !ExactHit(old(View()), Units(size)))
      ensures size > 0 && !ExactHit(old(View()), Units(size)) ==>
                Valid() && AllocStep(old(View()), Units(size), p, View())
    {
      if size == 0 {
        return NIL;
      }
      var n := UnitsFor(size);
      var victim := AllocateUnits(n);
      if victim == NIL {
        return NIL;
      }
      if !ExactHit(old(View()), Units(size)) {
        PointerStep(old(View()), Units(size), victim, View());
      }
      p := victim + 1;
    }

    /** Takes a free neighbour of the held chunk off its list, if it is on one. */
    method Unbin(chunk: int, ghost held: int)
      requires Inv(View(), held) && IsChunk(View(), chunk) && chunk != held && !mem[chunk].inUse
      modifies mem, bins, this`lists
      ensures Inv(View(), held) && SameTags(old(View()), View()) && !Binned(View(), chunk)
      ensures View() == OffList(old(View()), chunk) && lists == Unlisted(old(lists), chunk)
    {
      ghost var h := View();
      OffListLists(h, held, chunk);
      assert TagOk(h, held, chunk);
      ghost var b := BinOf(SizeAt(h, chunk));
      assert BinOk(h, b);
      ghost var i := BinDelEntry(chunk);
      if i == NIL {
        NotBinned(h, held, chunk);
      } else {
        UnlinkKeepsInv(h, held, b, i);
        IndexUnique(h.lists[b], chunk, i);
      }
    }

    /** `a`, just before `b`, absorbs it; `next` is where they end. */
    method Absorb(a: int, b: int, next: int, ghost held: int)
      requires Inv(View(), held) && MayJoin(View(), held, a, b) && next == b + Size(mem[b])
      modifies mem, this`owner
      ensures Inv(View(), a) && KeepsSizes(old(View()), View()) && SizeIs(View(), a, next - a)
      ensures JoinShape(old(View()), View(), held, a, b, next) && View() == Join(old(View()), a, b, next)
    {
      ghost var h := View();
      AfterChunk(h, b);
      var n := Size(mem[a]) + Size(mem[b]);
      mem[a] := mem[a].(next := next);
      mem[a] := mem[a].(index := n - 2);
      mem[next] := mem[next].(prevSize := n);
      owner := Fill(owner, b, next, a);
      assert View() == Join(h, a, b, next);
      JoinHasShape(h, held, a, b, next);
      JoinKeepsInv(h, View(), held, a, b, next);
    }

    /** Takes a chunk back, merging it with free neighbours. A merge with the
        chunk behind, or with none, decides whether it is listed again. */
    method Deallocate(p: int)
      requires Valid() && (p != NIL ==> p - 1 in live)
      modifies mem, bins, this`lists, this`owner, this`live, this`top, this`topPrev
      ensures Valid() && freePages == old(freePages)
      ensures p == NIL ==> View() == old(View())
      ensures p != NIL ==> live == old(live) - {p - 1} && View() == Freed(old(View()), p - 1)
      ensures p != NIL ==> Releases(old(View()), p - 1, View())
      ensures forall x | x in live :: IsChunk(old(View()), x) && mem[x].index == old(mem[x].index)
    {
      if p == NIL {
        forall x | x in live ensures IsChunk(View(), x) { assert LiveOk(View(), x); }
        return;
      }
      var mid := p - 1;
      ghost var h := View();
      TakeBackKeepsInv(h, mid);
      forall x | x in live ensures IsChunk(h, x) { assert LiveOk(h, x); }
      var next := mid + Size(mem[mid]);
      mem[mid] := mem[mid].(inUse := false);
      live := live - {mid};
      assert View() == TakeBack(h, mid);
      var chunk := MergePrev(mid, next);
      ghost var h2 := View();
      MergeNext(chunk, next);
      ReleasesOk(h, h2, View(), mid, chunk, next);
    }

    /** Merges the held chunk with a free one before it in its page. */
    method MergePrev(mid: int, next: int) returns (chunk: int)
      requires Inv(View(), mid) && mid != NIL && next == mid + Size(mem[mid]) && !mem[mid].inUse
      modifies mem, bins, this`lists, this`owner
      ensures Inv(View(), chunk) && chunk != NIL && PredBusy(View(), chunk) && chunk + Size(mem[chunk]) == next
      ensures !mem[chunk].inUse
      ensures KeepsSizes(old(View()), View())
      ensures View() == PrevMerged(old(View()), mid) && chunk == MergedStart(old(View()), mid)
      ensures if chunk == mid then View() == old(View()) else Joins(old(View()), View(), chunk, mid, chunk)
      ensures 0 <= next <= SLOTS && mem[next].inUse == old(mem[next].inUse)
    {
      ghost var h := View();
      assert TagOk(h, mid, mid);
      AfterChunk(h, mid);
      forall x | x in live ensures IsChunk(h, x) { assert LiveOk(h, x); }
      chunk := mid;
      if mid % PAGE != 0 && !mem[mid - mem[mid].prevSize].inUse {
        chunk := mid - mem[mid].prevSize;
        PredIsChunk(h, mid);
        MergeInto(chunk, mid, next);
      }
    }

    /** `a` absorbs `b`; the free one of the two, `other`, leaves its list first. */
    method JoinFree(a: int, b: int, next: int, other: int, ghost held: int)
      requires Inv(View(), held) && held != NIL && Neighbours(View(), held, a, b, other) && next == b + Size(mem[b])
      modifies mem, bins, this`lists, this`owner
      ensures Inv(View(), a) && KeepsSizes(old(View()), View()) && SizeIs(View(), a, next - a)
      ensures SameTags(old(View()), OffList(old(View()), other))
      ensures JoinShape(OffList(old(View()), other), View(), held, a, b, next)
      ensures View() == JoinIf(OffList(old(View()), other), a, b)
      ensures Joins(old(View()), View(), a, b, other) && mem[next].inUse == old(mem[next].inUse)
    {
      ghost var h := View();
      Unbin(other, held);
      ghost var h1 := View();
      NeighboursJoin(h, h1, held, a, b, other);
      Absorb(a, b, next, held);
      KeepsThrough(h, h1, View());
      JoinsOk(h, h1, View(), held, a, b, next, other);
    }

    /** The free chunk before the held one absorbs it. */
    method MergeInto(chunk: int, mid: int, next: int)
      requires Inv(View(), mid) && mid != NIL && next == mid + Size(mem[mid]) && mid % PAGE != 0 && !mem[mid].inUse
      requires IsChunk(View(), mid) && mid > 0 && chunk == Pred(View(), mid) && IsChunk(View(), chunk)
      requires chunk + Size(mem[chunk]) == mid && !mem[chunk].inUse
      modifies mem, bins, this`lists, this`owner
      ensures Inv(View(), chunk) && PredBusy(View(), chunk) && chunk + Size(mem[chunk]) == next && !mem[chunk].inUse
      ensures KeepsSizes(old(View()), View())
      ensures View() == JoinIf(OffList(old(View()), chunk), chunk, mid)
      ensures Joins(old(View()), View(), chunk, mid, chunk) && mem[next].inUse == old(mem[next].inUse)
    {
      ghost var h := View();
      assert ChunkOk(h, chunk);
      JoinFree(chunk, mid, next, chunk, mid);
      PredStaysBusy(h, OffList(h, chunk), View(), chunk, mid, next);
    }

    /** Merges the held chunk with what follows it, or leaves it be. */
    method MergeNext(chunk: int, next: int)
      requires Inv(View(), chunk) && chunk != NIL && PredBusy(View(), chunk) && next == chunk + Size(mem[chunk])
      requires !mem[chunk].inUse
      modifies mem, bins, this`lists, this`owner, this`top, this`topPrev
      ensures Inv(View(), NIL) && KeepsSizes(old(View()), View()) && View() == NextMerged(old(View()), chunk)
      ensures NextJoined(old(View()), View(), chunk, next)
    {
      ghost var h := View();
      AfterChunk(h, chunk);
      LiveStay(h);
      if next % PAGE == 0 {
        ReleaseKeepsInv(h, chunk);
      } else if next == top {
        MeltIntoTop(chunk, next);
      } else if !mem[next].inUse {
        MergeFollower(chunk, next);
      } else {
        ReleaseKeepsInv(h, chunk);
      }
    }

    method MeltIntoTop(chunk: int, next: int)
      requires Inv(View(), chunk) && chunk != NIL && PredBusy(View(), chunk) && next == chunk + Size(mem[chunk])
      requires !mem[chunk].inUse && next % PAGE != 0 && next == top
      modifies this`owner, this`top, this`topPrev
      ensures Inv(View(), NIL) && KeepsSizes(old(View()), View()) && View() == IntoTop(old(View()), chunk)
      ensures NextJoined(old(View()), View(), chunk, next)
    {
      ghost var h := View();
      AfterChunk(h, chunk);
      LiveStay(h);
      top := chunk;
      topPrev := mem[chunk].prevSize;
      owner := Fill(owner, chunk, next, NIL);
      assert View() == IntoTop(h, chunk);
      IntoTopKeepsInv(h, chunk);
      IntoTopJoins(h, chunk);
    }

    method MergeFollower(chunk: int, next: int)
      requires Inv(View(), chunk) && chunk != NIL && PredBusy(View(), chunk) && next == chunk + Size(mem[chunk])
      requires !mem[chunk].inUse
      requires IsChunk(View(), next) && next % PAGE != 0 && !mem[next].inUse
      modifies mem, bins, this`lists, this`owner
      ensures Inv(View(), NIL) && KeepsSizes(old(View()), View())
      ensures View() == PushIf(JoinIf(OffList(old(View()), next), chunk, next), chunk)
      ensures next != top ==> NextJoined(old(View()), View(), chunk, next)
    {
      ghost var h := View();
      ghost var e := next + Size(mem[next]);
      FollowerBusy(h, chunk, next);
      JoinFree(chunk, next, next + Size(mem[next]), next, chunk);
      MergedReleasable(h, OffList(h, next), View(), chunk, next, e);
      ghost var h1 := View();
      ListMerged(chunk);
      PushedJoins(h, h1, View(), chunk, next);
    }

    /** Lists the merged chunk, whose neighbours are in use. */
    method ListMerged(chunk: int)
      requires Inv(View(), chunk) && chunk != NIL && PredBusy(View(), chunk) && SuccBusy(View(), chunk)
      requires !mem[chunk].inUse && Size(mem[chunk]) >= 2
      modifies mem, bins, this`lists
      ensures Inv(View(), NIL) && KeepsSizes(old(View()), View()) && View() == PushIf(old(View()), chunk)
      ensures MayPush(old(View()), chunk)
    {
      ghost var h := View();
      ReleaseKeepsInv(h, chunk);
      forall b | 0 <= b <= UNSORTED ensures chunk !in h.lists[b] && h.heads[b] != chunk {
        assert BinOk(h, b);
      }
      PushKeepsInv(h, chunk);
      LiveStay(h);
      BinAddHead(chunk);
    }
  }

  lemma LiveStay(h: Heap)
    requires Sized(h) && forall s {:trigger LiveOk(h, s)} | s in h.live :: LiveOk(h, s)
    ensures forall x | x in h.live :: IsChunk(h, x)
  {
    forall x | x in h.live ensures IsChunk(h, x) { assert LiveOk(h, x); }
  }

  lemma KeepsThrough(h: Heap, h1: Heap, h2: Heap)
    requires SameTags(h, h1) && KeepsSizes(h1, h2)
    ensures KeepsSizes(h, h2)
  {
  }

  /** `b` follows `a` in its page; one of them is held and the other one free. */
  ghost predicate Neighbours(h: Heap, held: int, a: int, b: int, other: int) {
    && Sized(h) && IsChunk(h, a) && IsChunk(h, b) && b % PAGE != 0 && a < b == a + SizeAt(h, a)
    && ((held == a && other == b) || (held == b && other == a)) && !h.mem[other].inUse
  }

  lemma NeighboursJoin(h: Heap, h1: Heap, held: int, a: int, b: int, other: int)
    requires Inv(h1, held) && held != NIL && Neighbours(h, held, a, b, other)
    requires SameTags(h, h1) && !Binned(h1, other)
    ensures MayJoin(h1, held, a, b) && JoinIf(h1, a, b) == Join(h1, a, b, b + SizeAt(h1, b))
  {
    assert ChunkOk(h1, a) && ChunkOk(h1, b) && (other in h1.live ==> LiveOk(h1, other));
  }

  lemma PredStaysBusy(h: Heap, h1: Heap, h2: Heap, chunk: int, mid: int, next: int)
    requires Inv(h, mid) && mid != NIL && IsChunk(h, chunk) && !h.mem[chunk].inUse && chunk < mid
    requires SameTags(h, h1) && JoinShape(h1, h2, mid, chunk, mid, next)
    ensures PredBusy(h2, chunk) && !h2.mem[chunk].inUse
  {
    assert TagOk(h, mid, chunk) && ChunkOk(h1, chunk);
    if chunk % PAGE != 0 { PredIsChunk(h, chunk); }
  }

  // ---- what a release does ---------------------------------------------------------------

  /** `x` is on none of the lists any more. */
  function Unlisted(lists: seq<seq<int>>, x: int): seq<seq<int>> {
    seq(|lists|, b requires 0 <= b < |lists| => RemoveFirst(lists[b], x))
  }

  /** The chunk `a` has absorbed `b`, and `other` is off its list. */
  ghost predicate Joins(h: Heap, h': Heap, a: int, b: int, other: int) {
    && Sized(h) && Sized(h') && 0 <= a < SLOTS && 0 <= b < SLOTS && h'.lists == Unlisted(h.lists, other)
    && h'.top == h.top && h'.topEnd == h.topEnd && h'.pages == h.pages
    && forall x {:trigger JoinsAt(h, h', a, b, x)} :: JoinsAt(h, h', a, b, x)
  }

  ghost predicate JoinsAt(h: Heap, h': Heap, a: int, b: int, x: int)
    requires Sized(h) && Sized(h') && 0 <= a < SLOTS && 0 <= b < SLOTS
  {
    && (IsChunk(h', x) <==> IsChunk(h, x) && x != b)
    && (IsChunk(h', x) ==> SizeAt(h', x) == if x == a then SizeAt(h, a) + SizeAt(h, b) else SizeAt(h, x))
  }

  /** What follows the chunk `c` at `e`: nothing in its page or a chunk in use, and
      all stays; the top, and `c` becomes part of it; or a free chunk, and `c`
      absorbs it and goes to the front of the list for its size. */
  ghost predicate NextJoined(h: Heap, h': Heap, c: int, e: int) {
    && Sized(h) && Sized(h') && 0 <= e <= SLOTS && 0 <= c < SLOTS && h'.topEnd == h.topEnd && h'.pages == h.pages
    && if e % PAGE == 0 || (e != h.top && h.mem[e].inUse) then h' == h
       else if e == h.top then
         && h'.top == c && h'.lists == h.lists
         && forall x {:trigger MeltsAt(h, h', c, x)} :: MeltsAt(h, h', c, x)
       else
         && IsChunk(h, e) && h'.top == h.top
         && var n := SizeAt(h, c) + SizeAt(h, e);
         && n >= 2 && h'.lists == Unlisted(h.lists, e)[BinOf(n) := [c] + Unlisted(h.lists, e)[BinOf(n)]]
         && forall x {:trigger JoinsAt(h, h', c, e, x)} :: JoinsAt(h, h', c, e, x)
  }

  ghost predicate MeltsAt(h: Heap, h': Heap, c: int, x: int)
    requires Sized(h) && Sized(h')
  {
    (IsChunk(h', x) <==> IsChunk(h, x) && x != c) && (IsChunk(h', x) ==> SizeAt(h', x) == SizeAt(h, x))
  }

  /** Giving chunk `c` back, in chunks, sizes and lists. A free chunk before it in
      its page absorbs it; then the free chunk behind it is absorbed, or all of it
      becomes part of the top if that is behind it. It is listed only if a chunk
      behind it was absorbed. */
  ghost predicate Releases(h: Heap, c: int, h': Heap) {
    && Sized(h) && Sized(h') && IsChunk(h, c) && 0 <= c + SizeAt(h, c) <= SLOTS
    && var a, e := MergedStart(h, c), c + SizeAt(h, c);
    && var melts := e % PAGE != 0 && e == h.top;
    && var eats := e % PAGE != 0 && e != h.top && !h.mem[e].inUse;
    && (eats ==> IsChunk(h, e)) && 0 <= a < SLOTS
    && var n := e - a + if eats then SizeAt(h, e) else 0;
    && h'.live == h.live - {c} && h'.top == (if melts then a else h.top) && h'.topEnd == h.topEnd && h'.pages == h.pages
    && h'.lists == ReleasedLists(h.lists, a, c, e, eats, n)
    && forall x {:trigger ReleasesAt(h, h', a, c, e, melts, eats, n, x)} ::
         ReleasesAt(h, h', a, c, e, melts, eats, n, x)
  }

  ghost function ReleasedLists(lists: seq<seq<int>>, a: int, c: int, e: int, eats: bool, n: int): seq<seq<int>> {
    var l := if a != c then Unlisted(lists, a) else lists;
    if eats && 0 <= BinOf(n) < |lists| then Unlisted(l, e)[BinOf(n) := [a] + Unlisted(l, e)[BinOf(n)]] else l
  }

  ghost predicate ReleasesAt(h: Heap, h': Heap, a: int, c: int, e: int, melts: bool, eats: bool, n: int, x: int)
    requires Sized(h) && Sized(h')
  {
    && (IsChunk(h', x) <==> IsChunk(h, x) && (x == c ==> a == c) && (x == a ==> !melts) && (x == e ==> !eats))
    && (IsChunk(h', x) ==> SizeAt(h', x) == if x == a then n else SizeAt(h, x))
  }

  lemma OffListLists(h: Heap, held: int, c: int)
    requires Inv(h, held) && IsChunk(h, c)
    ensures OffList(h, c).lists == Unlisted(h.lists, c)
  {
    forall b | 0 <= b <= UNSORTED ensures OffList(h, c).lists[b] == RemoveFirst(h.lists[b], c) {
      OffListAt(h, held, c, b);
    }
  }

  lemma OffListAt(h: Heap, held: int, c: int, b: int)
    requires Inv(h, held) && IsChunk(h, c) && 0 <= b <= UNSORTED
    ensures |OffList(h, c).lists| == UNSORTED + 1 && OffList(h, c).lists[b] == RemoveFirst(h.lists[b], c)
  {
    assert BinOk(h, b);
    if c in h.lists[b] {
      assert MemberOk(h, b, c);
      var i := IndexIn(h.lists[b], c);
      assert LinkOk(h.mem, h.lists[b], i) && (i > 0 ==> LinkOk(h.mem, h.lists[b], i - 1));
      RemoveAtIsFirst(h.lists[b], i);
    } else {
      RemoveAbsent(h.lists[b], c);
      assert 0 <= BinOf(SizeAt(h, c)) <= UNSORTED ==> BinOk(h, BinOf(SizeAt(h, c)));
    }
  }

  lemma JoinsOk(h: Heap, h1: Heap, h': Heap, held: int, a: int, b: int, e: int, other: int)
    requires Sized(h) && SameTags(h, h1) && Tiled(h1) && JoinShape(h1, h', held, a, b, e)
    requires h1.lists == Unlisted(h.lists, other)
    ensures Joins(h, h', a, b, other) && h'.mem[e].inUse == h.mem[e].inUse
  {
    JoinTiled(h1, h', held, a, b, e);
    forall x ensures JoinsAt(h, h', a, b, x) {
      assert IsChunk(h', x) <==> IsChunk(h1, x) && x != b;
    }
  }

  lemma IntoTopJoins(h: Heap, c: int)
    requires Inv(h, c) && c != NIL && c + SizeAt(h, c) == h.top && h.top % PAGE != 0
    ensures NextJoined(h, IntoTop(h, c), c, h.top)
  {
    AfterChunk(h, c);
    var h' := IntoTop(h, c);
    IntoTopTiled(h, c);
    forall x ensures MeltsAt(h, h', c, x) {
      assert IsChunk(h', x) <==> IsChunk(h, x) && x != c;
    }
  }

  lemma PushedJoins(h: Heap, h1: Heap, h': Heap, c: int, e: int)
    requires Joins(h, h1, c, e, e) && MayPush(h1, c) && h' == Push(h1, c) && IsChunk(h, c) && IsChunk(h, e)
    requires e % PAGE != 0 && !h.mem[e].inUse
    ensures e != h.top ==> NextJoined(h, h', c, e)
  {
    assert JoinsAt(h, h1, c, e, c);
    forall x ensures JoinsAt(h, h', c, e, x) { assert JoinsAt(h, h1, c, e, x); }
  }

  /** Where the merged chunk will start. */
  lemma ReleaseStart(h: Heap, c: int)
    requires Inv(h, NIL) && c in h.live
    ensures IsChunk(h, c) && SizeAt(h, c) >= 1 && 0 <= c + SizeAt(h, c) <= SLOTS
    ensures var a := MergedStart(h, c);
            && MergedStart(TakeBack(h, c), c) == a && IsChunk(h, a) && a <= c
            && (a != c ==> SizeAt(h, a) >= 1 && a + SizeAt(h, a) == c)
  {
    assert LiveOk(h, c) && ChunkOk(h, c);
    AfterChunk(h, c);
    if c % PAGE != 0 {
      PredIsChunk(h, c);
      assert ChunkOk(h, Pred(h, c));
    }
  }

  lemma ReleasesOk(h: Heap, h2: Heap, h': Heap, c: int, a: int, e: int)
    requires Inv(h, NIL) && c in h.live && IsChunk(h, c) && e == c + SizeAt(h, c) && 0 <= e <= SLOTS
    requires a == MergedStart(TakeBack(h, c), c) && 0 <= a < SLOTS && Sized(h2)
    requires if a == c then h2 == TakeBack(h, c) else Joins(TakeBack(h, c), h2, a, c, a)
    requires h2.mem[e].inUse == TakeBack(h, c).mem[e].inUse && NextJoined(h2, h', a, e)
    requires h'.live == h.live - {c}
    ensures Releases(h, c, h')
  {
    ReleaseStart(h, c);
    ReleaseJoins(h, h2, h', c, a, e);
  }

  lemma ReleaseJoins(h: Heap, h2: Heap, h': Heap, c: int, a: int, e: int)
    requires Sized(h) && Sized(h2) && IsChunk(h, c) && SizeAt(h, c) >= 1 && e == c + SizeAt(h, c) && 0 <= e <= SLOTS
    requires IsChunk(h, a) && a == MergedStart(h, c) && a <= c
    requires a != c ==> SizeAt(h, a) >= 1 && a + SizeAt(h, a) == c
    requires if a == c then h2 == TakeBack(h, c) else Joins(TakeBack(h, c), h2, a, c, a)
    requires h2.mem[e].inUse == TakeBack(h, c).mem[e].inUse && NextJoined(h2, h', a, e)
    requires h'.live == h.live - {c}
    ensures Releases(h, c, h')
  {
    var melts := e % PAGE != 0 && e == h.top;
    var eats := e % PAGE != 0 && e != h.top && !h.mem[e].inUse;
    if a != c { assert JoinsAt(TakeBack(h, c), h2, a, c, e) && JoinsAt(TakeBack(h, c), h2, a, c, a); }
    assert IsChunk(h2, a) && SizeAt(h2, a) == e - a;
    assert eats ==> IsChunk(h, e) && IsChunk(h2, e) && SizeAt(h2, e) == SizeAt(h, e);
    var n := e - a + if eats then SizeAt(h, e) else 0;
    forall x ensures ReleasesAt(h, h', a, c, e, melts, eats, n, x) {
      if a != c { assert JoinsAt(TakeBack(h, c), h2, a, c, x); }
      if melts { assert MeltsAt(h2, h', a, x); }
      if eats { assert JoinsAt(h2, h', a, e, x); }
    }
  }

  /** The first position of `x`, or the length of the list. */
  ghost function IndexIn(l: seq<int>, x: int): (i: nat)
    ensures i <= |l| && (x in l <==> i < |l|) && (i < |l| ==> l[i] == x)
  {
    if l == [] || l[0] == x then 0 else 1 + IndexIn(l[1..], x)
  }

  lemma IndexUnique(l: seq<int>, x: int, i: nat)
    requires Distinct(l) && i < |l| && l[i] == x
    ensures IndexIn(l, x) == i
  {
  }

  /** `c` off the list for its size, if it is there. */
  ghost function OffList(h: Heap, c: int): Heap {
    if Sized(h) && IsChunk(h, c) && SizeAt(h, c) >= 2 then
      var b := BinOf(SizeAt(h, c));
      var i := IndexIn(h.lists[b], c);
      if OnList(h, b, i) then Unlink(h, b, i) else h
    else h
  }

  ghost function JoinIf(h: Heap, a: int, b: int): Heap {
    if Sized(h) && IsChunk(h, a) && IsChunk(h, b) && ChunkOk(h, a) && ChunkOk(h, b) && b == a + SizeAt(h, a)
    then Join(h, a, b, b + SizeAt(h, b)) else h
  }

  ghost function PushIf(h: Heap, c: int): Heap { if MayPush(h, c) then Push(h, c) else h }

  /** A free chunk stands before `c` in its page. */
  ghost predicate PrevFree(h: Heap, c: int) {
    Sized(h) && 0 < c < SLOTS && c % PAGE != 0 && IsChunk(h, Pred(h, c)) && !h.mem[Pred(h, c)].inUse
  }

  ghost function MergedStart(h: Heap, c: int): int { if PrevFree(h, c) then Pred(h, c) else c }

  ghost function PrevMerged(h: Heap, c: int): Heap {
    if PrevFree(h, c) then JoinIf(OffList(h, Pred(h, c)), Pred(h, c), c) else h
  }

  /** The end of a release: a chunk that ends its page, or stands before a chunk
      in use, is left on no list; before the top it becomes part of it; with a
      free chunk behind it is merged and listed. */
  ghost function NextMerged(h: Heap, c: int): Heap {
    if Sized(h) && IsChunk(h, c) && 0 <= c + SizeAt(h, c) <= SLOTS then
      var next := c + SizeAt(h, c);
      if next % PAGE == 0 then h
      else if next == h.top then IntoTop(h, c)
      else if !h.mem[next].inUse then PushIf(JoinIf(OffList(h, next), c, next), c)
      else h
    else h
  }

  /** A heap that owns no page. */
  ghost function EmptyHeap(): Heap {
    Heap(seq(SLOTS + 1, _ => Header(NIL, 0, 0, false)), NIL, NIL, 0, seq(NR_BINS + 1, _ => NIL), {},
         seq(SLOTS, _ => NIL), seq(NR_BINS + 1, _ => []), {})
  }

  /** The whole effect of giving chunk `c` back. */
  ghost function Freed(h: Heap, c: int): Heap {
    if Sized(h) && IsChunk(h, c) then
      var h1 := TakeBack(h, c);
      NextMerged(PrevMerged(h1, c), MergedStart(h1, c))
    else h
  }

  lemma NotBinned(h: Heap, held: int, s: int)
    requires Inv(h, held) && IsChunk(h, s) && 0 <= BinOf(SizeAt(h, s)) && s !in h.lists[BinOf(SizeAt(h, s))]
    ensures !Binned(h, s)
  {
    forall b | 0 <= b <= UNSORTED ensures s !in h.lists[b] {
      assert BinOk(h, b) && (s in h.lists[b] ==> MemberOk(h, b, s));
    }
  }

  /** The chunk after a free follower is busy, if the page goes on there. */
  lemma FollowerBusy(h: Heap, chunk: int, next: int)
    requires Inv(h, chunk) && chunk != NIL && IsChunk(h, next) && next % PAGE != 0 && !h.mem[next].inUse
    requires next == chunk + SizeAt(h, chunk)
    ensures SuccBusy(h, next) && chunk != next && ChunkOk(h, next) && ChunkOk(h, chunk)
  {
    AfterChunk(h, chunk);
    AfterChunk(h, next);
    var e := next + SizeAt(h, next);
    if e % PAGE != 0 {
      if IsChunk(h, e) {
        PredIsChunk(h, e);
        assert TagOk(h, chunk, e) && ChunkOk(h, next);
      } else {
        TopNotChunk(h);
      }
    }
  }

  lemma MergedReleasable(h: Heap, h1: Heap, h2: Heap, chunk: int, next: int, e: int)
    requires Inv(h, chunk) && chunk != NIL && PredBusy(h, chunk) && IsChunk(h, next) && SuccBusy(h, next)
    requires SameTags(h, h1) && JoinShape(h1, h2, chunk, chunk, next, e) && !h.mem[chunk].inUse
    ensures PredBusy(h2, chunk) && SuccBusy(h2, chunk) && !h2.mem[chunk].inUse
  {
    assert ChunkOk(h, chunk) && ChunkOk(h, next);
    if chunk % PAGE != 0 { PredIsChunk(h, chunk); }
  }

  /** Units taken by a payload of `size` bytes and its header. */
  function Units(size: nat): (n: int)
    requires 0 < size < 4080
    ensures 2 <= n <= PAGE && 16 * n >= 16 + size && (n > 2 ==> 16 * (n - 1) < 16 + size)
  {
    if size <= 16 then 2 else (size + 31) / 16
  }

  method UnitsFor(size: nat) returns (n: int)
    requires 0 < size < 4080
    ensures n == Units(size)
  {
    var bytes, q := RoundUpToMultipleOfN(if 16 + size > 32 then 16 + size else 32, 16);
    n := bytes / 16;
  }

  /** No list has a chunk of `n` units or more. */
  ghost predicate NoListServes(h: Heap, n: int) {
    && Sized(h) && (forall b | n - 2 <= b < NR_BINS && b >= 0 :: h.lists[b] == [])
    && FirstFit(h.mem, h.lists[UNSORTED], n) == |h.lists[UNSORTED]|
  }

  /** Nor has the top chunk. */
  ghost predicate NoRoom(h: Heap, n: int) { NoListServes(h, n) && h.topEnd - h.top < n }

  /** The list and entry that serve a request: the first entry of the bin for its
      very size; or the first unsorted chunk that is large enough; or the first
      entry of the first larger bin that is not empty. */
  ghost predicate Picks(h: Heap, n: int, b: int, i: int) {
    Sized(h) && 0 <= b <= UNSORTED && 0 <= i < |h.lists[b]| &&
    if 0 <= n - 2 < NR_BINS && h.lists[n - 2] != [] then b == n - 2 && i == 0
    else if exists j :: IsLarge(h, h.lists[UNSORTED], j, n) then
      b == UNSORTED && IsLarge(h, h.lists[UNSORTED], i, n) &&
      forall j | 0 <= j < i :: !IsLarge(h, h.lists[UNSORTED], j, n)
    else n - 2 <= b < NR_BINS && i == 0 && forall c | n - 2 <= c < b && c >= 0 :: h.lists[c] == []
  }

  ghost predicate IsLarge(h: Heap, l: seq<int>, j: int, n: int)
    requires Sized(h)
  {
    0 <= j < |l| && 0 <= l[j] <= SLOTS && SizeAt(h, l[j]) >= n
  }

  /** Entry `i` of list `b` is handed out: it keeps `n` units, the units behind
      them become a chunk that goes to the front of the list for its size if it
      is large enough for any, and no other list and no other chunk changes. */
  ghost predicate TakenFrom(h: Heap, n: int, h': Heap, victim: int, b: int, i: int) {
    && Sized(h) && Sized(h') && 0 <= b <= UNSORTED && 0 <= i < |h.lists[b]| && victim == h.lists[b][i]
    && 0 <= victim < SLOTS
    && var rest, l := SizeAt(h, victim) - n, h.lists[b := RemoveAt(h.lists[b], i)];
    && h'.lists == (if rest >= 2 then l[BinOf(rest) := [victim + n] + l[BinOf(rest)]] else l)
    && CutAt(h, h', victim, n, rest)
  }

  ghost predicate FromList(h: Heap, n: int, h': Heap, victim: int) {
    exists b, i :: Picks(h, n, b, i) && TakenFrom(h, n, h', victim, b, i)
  }

  lemma {:induction false} FirstFitSkips(h: Heap, l: seq<int>, n: int, j: int)
    requires Sized(h) && 0 <= j < FirstFit(h.mem, l, n)
    ensures !IsLarge(h, l, j, n)
  {
    if j > 0 {
      FirstFitSkips(h, l[1..], n, j - 1);
      assert l[1..][j - 1] == l[j];
    }
  }

  lemma PicksUnsorted(h: Heap, n: int, i: int)
    requires Sized(h) && i == FirstFit(h.mem, h.lists[UNSORTED], n) < |h.lists[UNSORTED]|
    requires !(0 <= n - 2 < NR_BINS && h.lists[n - 2] != [])
    ensures Picks(h, n, UNSORTED, i)
  {
    FirstFitLarge(h.mem, h.lists[UNSORTED], n);
    assert IsLarge(h, h.lists[UNSORTED], i, n);
    forall j | 0 <= j < i ensures !IsLarge(h, h.lists[UNSORTED], j, n) { FirstFitSkips(h, h.lists[UNSORTED], n, j); }
  }

  lemma PicksBin(h: Heap, n: int, k: int)
    requires Sized(h) && FirstFit(h.mem, h.lists[UNSORTED], n) == |h.lists[UNSORTED]| && 2 <= n && n - 2 < k < NR_BINS
    requires h.lists[k] != [] && forall c | n - 2 <= c < k :: h.lists[c] == []
    ensures Picks(h, n, k, 0)
  {
    forall j ensures !IsLarge(h, h.lists[UNSORTED], j, n) {
      if 0 <= j < |h.lists[UNSORTED]| { FirstFitSkips(h, h.lists[UNSORTED], n, j); }
    }
  }

  lemma ExactTaken(h: Heap, b: int)
    requires Inv(h, NIL) && 0 <= b < NR_BINS && OnList(h, b, 0) && MemberOk(h, b, h.lists[b][0])
    ensures TakenFrom(h, b + 2, HandOut(Unlink(h, b, 0), h.lists[b][0]), h.lists[b][0], b, 0)
  {
    var v := h.lists[b][0];
    UnlinkChain(h, b, 0);
    SameSizes(h, HandOut(Unlink(h, b, 0), v), v);
  }

  /** Changes to other fields of headers change no sizes. */
  lemma SameSizes(h: Heap, h': Heap, c: int)
    requires Sized(h) && Sized(h') && h'.top == h.top && h'.topEnd == h.topEnd && h'.pages == h.pages
    requires h'.owner == h.owner && IsChunk(h, c)
    requires forall x | IsChunk(h, x) :: h'.mem[x].index == h.mem[x].index
    ensures CutAt(h, h', c, SizeAt(h, c), 0)
  {
    forall x ensures CutOk(h, h', c, SizeAt(h, c), 0, x) {
    }
  }

  /** The chunks of `h'` are those of `h`, but `c` has `n` units and the `rest`
      units behind it are one of their own. */
  ghost predicate CutAt(h: Heap, h': Heap, c: int, n: int, rest: int) {
    && Sized(h) && Sized(h') && h'.top == h.top && h'.topEnd == h.topEnd && h'.pages == h.pages
    && forall x {:trigger CutOk(h, h', c, n, rest, x)} :: CutOk(h, h', c, n, rest, x)
  }

  ghost predicate CutOk(h: Heap, h': Heap, c: int, n: int, rest: int, x: int)
    requires Sized(h) && Sized(h')
  {
    && (IsChunk(h', x) <==> IsChunk(h, x) || (rest > 0 && x == c + n))
    && (IsChunk(h', x) ==>
          SizeAt(h', x) == if x == c then n else if x == c + n && rest > 0 then rest else SizeAt(h, x))
  }

  lemma CutLive(h: Heap, h1: Heap, h': Heap, c: int, n: int, rest: int)
    requires CutAt(h, h1, c, n, rest) && h' == h1.(live := h'.live)
    ensures CutAt(h, h', c, n, rest)
  {
    forall x ensures CutOk(h, h', c, n, rest, x) { assert CutOk(h, h1, c, n, rest, x); }
  }

  lemma SplitCuts(h: Heap, c: int, n: int)
    requires Tiled(h) && MaySplit(h, c, n)
    ensures CutAt(h, Split(h, c, n), c, n, SizeAt(h, c) - n) && Split(h, c, n).lists == h.lists
  {
    var m := SizeAt(h, c) - n;
    SplitHasShape(h, c, n);
    SplitTiled(h, Split(h, c, n), c, n, m, c + n, c + n + m);
    forall x ensures CutOk(h, Split(h, c, n), c, n, m, x) {
      assert IsChunk(Split(h, c, n), x) <==> IsChunk(h, x) || x == c + n;
    }
  }

  lemma SplitRestCuts(h: Heap, c: int, n: int)
    requires Inv(h, NIL) && MaySplit(h, c, n)
    ensures var rest, h' := SizeAt(h, c) - n, SplitRest(h, c, n);
            && CutAt(h, h', c, n, rest)
            && h'.lists == if rest >= 2 then h.lists[BinOf(rest) := [c + n] + h.lists[BinOf(rest)]] else h.lists
  {
    var rest, h2, h' := SizeAt(h, c) - n, Split(h, c, n), SplitRest(h, c, n);
    SplitCuts(h, c, n);
    SplitKeepsInv(h, c, n);
    assert CutOk(h, h2, c, n, rest, c + n);
    forall x ensures CutOk(h, h', c, n, rest, x) { assert CutOk(h, h2, c, n, rest, x); }
  }

  lemma SplitOffTaken(h: Heap, chunk: int, n: int, i: int)
    requires Inv(h, NIL) && CanSplitOff(h, chunk, n, i)
    ensures TakenFrom(h, n, SplitOff(h, chunk, n, i), chunk, BinOf(SizeAt(h, chunk)), i)
  {
    SplitOffCuts(h, chunk, n, i, BinOf(SizeAt(h, chunk)));
    SplitOffLists(h, chunk, n, i, BinOf(SizeAt(h, chunk)));
  }

  lemma SplitOffCuts(h: Heap, chunk: int, n: int, i: int, b: int)
    requires Inv(h, NIL) && CanSplitOff(h, chunk, n, i) && b == BinOf(SizeAt(h, chunk))
    ensures OnList(h, b, i) && h.lists[b][i] == chunk && 0 <= chunk < SLOTS
    ensures CutAt(h, SplitOff(h, chunk, n, i), chunk, n, SizeAt(h, chunk) - n)
  {
    SplitOffReady(h, chunk, n, i);
    UnlinkSizes(h, b, i);
    CutsAfter(h, Unlink(h, b, i), chunk, n);
  }

  lemma CutsAfter(h: Heap, h1: Heap, c: int, n: int)
    requires Sized(h) && Inv(h1, NIL) && MaySplit(h1, c, n) && h1.owner == h.owner && h1.top == h.top
    requires h1.topEnd == h.topEnd && h1.pages == h.pages
    requires forall x | 0 <= x <= SLOTS :: h1.mem[x].index == h.mem[x].index
    ensures CutAt(h, SplitRest(h1, c, n), c, n, SizeAt(h, c) - n)
  {
    SplitRestCuts(h1, c, n);
    CutSame(h, h1, SplitRest(h1, c, n), c, n, SizeAt(h, c) - n);
  }

  lemma SplitOffLists(h: Heap, chunk: int, n: int, i: int, b: int)
    requires Inv(h, NIL) && CanSplitOff(h, chunk, n, i) && b == BinOf(SizeAt(h, chunk))
    ensures OnList(h, b, i)
    ensures var rest, l := SizeAt(h, chunk) - n, h.lists[b := RemoveAt(h.lists[b], i)];
            SplitOff(h, chunk, n, i).lists == if rest >= 2 then l[BinOf(rest) := [chunk + n] + l[BinOf(rest)]] else l
  {
    SplitOffReady(h, chunk, n, i);
    UnlinkSizes(h, b, i);
    SplitRestCuts(Unlink(h, b, i), chunk, n);
  }

  lemma UnlinkSizes(h: Heap, b: int, i: int)
    requires OnList(h, b, i)
    ensures var h' := Unlink(h, b, i);
            && Sized(h') && h'.owner == h.owner && h'.top == h.top && h'.topEnd == h.topEnd && h'.pages == h.pages
            && forall x | 0 <= x <= SLOTS :: h'.mem[x].index == h.mem[x].index
  {
    UnlinkChain(h, b, i);
    forall x | 0 <= x <= SLOTS ensures Unlink(h, b, i).mem[x].index == h.mem[x].index {
      assert Unlink(h, b, i).mem[x].(next := 0) == h.mem[x].(next := 0);
    }
  }

  lemma CutSame(h: Heap, h1: Heap, h': Heap, c: int, n: int, rest: int)
    requires Sized(h) && Sized(h1) && h1.owner == h.owner && h1.top == h.top && h1.topEnd == h.topEnd
    requires h1.pages == h.pages && forall x | 0 <= x <= SLOTS :: h1.mem[x].index == h.mem[x].index
    requires CutAt(h1, h', c, n, rest)
    ensures CutAt(h, h', c, n, rest)
  {
    forall x ensures CutOk(h, h', c, n, rest, x) { assert CutOk(h1, h', c, n, rest, x); }
  }

  lemma FromListVia(h: Heap, n: int, h': Heap, victim: int, b: int, i: int)
    requires Picks(h, n, b, i) && TakenFrom(h, n, h', victim, b, i)
    ensures FromList(h, n, h', victim)
  {
  }

  /** The front of the top chunk is handed out. */
  ghost function TopServed(h: Heap, n: int): Heap {
    if Sized(h) && 0 <= h.top < SLOTS then CarveTop(h, n).(live := h.live + {h.top}) else h
  }

  /** What is left of the top chunk becomes a chunk, at the front of the list for
      its size if it is large enough for any. */
  ghost function Retired(h: Heap): Heap {
    if Sized(h) && 0 <= h.top < h.topEnd <= SLOTS then PushIf(CarveTop(h, h.topEnd - h.top), h.top) else h
  }

  ghost predicate FromNewPage(h: Heap, n: int, h': Heap, victim: int) {
    exists p :: p in OwnedPages({}) - h.pages && victim == p * PAGE && h' == TopServed(NewPage(h, p), n)
  }

  /** Served from the top chunk; or, when that is used up or has been retired
      because it is too small, from a new page. */
  ghost predicate FromTop(h: Heap, n: int, h': Heap, victim: int) {
    && (n <= h.topEnd - h.top ==> victim == h.top && h' == TopServed(h, n))
    && (h.topEnd - h.top < n ==> if victim == NIL then h' == Retired(h) else FromNewPage(Retired(h), n, h', victim))
  }

  /** A request of `n` units: null exactly if no list, no top chunk and no page can
      serve it, and otherwise a chunk from the list in charge or from the top. */
  ghost predicate UnitStep(h: Heap, n: int, victim: int, h': Heap) {
    && (victim == NIL <==> NoRoom(h, n) && h.pages == OwnedPages({}))
    && (if victim == NIL then KeepsSizes(h, h') else Served(h, h', victim, n))
    && (if NoListServes(h, n) then FromTop(h, n, h', victim) else FromList(h, n, h', victim))
  }

  /** The same for the pointer, which is one unit past the chunk and never starts
      a page. */
  ghost predicate AllocStep(h: Heap, n: int, answer: int, h': Heap) {
    && UnitStep(h, n, if answer == NIL then NIL else answer - 1, h')
    && (answer != NIL ==> answer > 0 && answer % PAGE != 0)
  }

  lemma PointerStep(h: Heap, n: int, victim: int, h': Heap)
    requires UnitStep(h, n, victim, h') && victim != NIL
    ensures AllocStep(h, n, victim + 1, h')
  {
    PayloadUnaligned(h', victim);
  }

  lemma RetiredSpec(h: Heap)
    requires Inv(h, NIL) && h.top < h.topEnd
    ensures var rest, h' := h.topEnd - h.top, Retired(h);
            && h'.lists == (if rest >= 2 then h.lists[BinOf(rest) := [h.top] + h.lists[BinOf(rest)]] else h.lists)
            && h'.top == h'.topEnd == h.topEnd && h'.pages == h.pages && Sized(h')
            && (forall x :: IsChunk(h', x) <==> IsChunk(h, x) || x == h.top)
            && (forall x | IsChunk(h', x) :: SizeAt(h', x) == if x == h.top then rest else SizeAt(h, x))
  {
    CarveTiled(h, h.topEnd - h.top);
    CarvedMayPush(h);
  }

  lemma CarvedMayPush(h: Heap)
    requires Inv(h, NIL) && h.top < h.topEnd
    ensures MayPush(CarveTop(h, h.topEnd - h.top), h.top) <==> h.topEnd - h.top >= 2
  {
    var h1 := CarveTop(h, h.topEnd - h.top);
    CarveKeepsInv(h, h.topEnd - h.top);
    TopNotChunk(h);
    forall b, x | 0 <= b <= UNSORTED && x in h.lists[b] ensures x != h.top {
      assert BinOk(h, b) && MemberOk(h, b, x);
    }
    forall x | x in h.live ensures x != h.top { assert LiveOk(h, x); }
  }

  /** The front of the top chunk becomes a chunk; nothing else changes. */
  lemma TopServedSpec(h: Heap, n: int)
    requires Tiled(h) && MayCarve(h, n)
    ensures var h' := TopServed(h, n);
            && h'.lists == h.lists && h'.top == h.top + n && h'.topEnd == h.topEnd && h'.pages == h.pages && Sized(h')
            && (forall x :: IsChunk(h', x) <==> IsChunk(h, x) || x == h.top)
            && (forall x | IsChunk(h', x) :: SizeAt(h', x) == if x == h.top then n else SizeAt(h, x))
  {
    CarveTiled(h, n);
  }

  /** The request is not served from a regular bin, and the first unsorted chunk
      that is large enough has exactly its size and a chunk behind it. */
  ghost predicate ExactHit(h: Heap, n: int) {
    && Sized(h) && !(0 <= n - 2 < NR_BINS && h.lists[n - 2] != [])
    && var i := FirstFit(h.mem, h.lists[UNSORTED], n);
       i < |h.lists[UNSORTED]| && SizeIs(h, h.lists[UNSORTED][i], n) && IsChunk(h, h.lists[UNSORTED][i] + n)
  }

  lemma {:induction false} FirstFitLarge(mem: seq<Header>, l: seq<int>, n: int)
    ensures var i := FirstFit(mem, l, n);
            i < |l| ==> 0 <= l[i] < |mem| && Size(mem[l[i]]) >= n
  {
    if l != [] {
      FirstFitLarge(mem, l[1..], n);
    }
  }

  lemma UnsortedFits(h: Heap, n: int, i: int)
    requires Inv(h, NIL) && n >= 2 && i == FirstFit(h.mem, h.lists[UNSORTED], n) < |h.lists[UNSORTED]|
    ensures CanTake(h, h.lists[UNSORTED][i], n, i) && BinOf(SizeAt(h, h.lists[UNSORTED][i])) == UNSORTED
  {
    FirstFitLarge(h.mem, h.lists[UNSORTED], n);
    assert BinOk(h, UNSORTED) && MemberOk(h, UNSORTED, h.lists[UNSORTED][i]);
    assert LinkOk(h.mem, h.lists[UNSORTED], i) && (i > 0 ==> LinkOk(h.mem, h.lists[UNSORTED], i - 1));
  }

  lemma BinFits(h: Heap, n: int, k: int)
    requires Inv(h, NIL) && 2 <= n && 0 <= k < NR_BINS && n - 2 < k && h.lists[k] != []
    ensures CanTake(h, h.lists[k][0], n, 0) && !SizeIs(h, h.lists[k][0], n) && BinOf(SizeAt(h, h.lists[k][0])) == k
  {
    assert BinOk(h, k) && MemberOk(h, k, h.lists[k][0]);
    assert LinkOk(h.mem, h.lists[k], 0);
  }

  ghost predicate Served(h: Heap, h': Heap, victim: int, n: int) {
    && Inv(h', NIL) && victim !in h.live && h'.live == h.live + {victim} && SizeIs(h', victim, n)
    && Sized(h) && forall x | x in h.live :: IsChunk(h, x) && h'.mem[x].index == h.mem[x].index
  }

  ghost function FirstFit(mem: seq<Header>, l: seq<int>, n: int): (i: int)
    ensures 0 <= i <= |l|
  {
    if l == [] || (0 <= l[0] < |mem| && Size(mem[l[0]]) >= n) then 0 else 1 + FirstFit(mem, l[1..], n)
  }

  ghost predicate CanTake(h: Heap, chunk: int, n: int, i: int) {
    && Sized(h) && IsChunk(h, chunk) && 2 <= n <= SizeAt(h, chunk)
    && OnList(h, BinOf(SizeAt(h, chunk)), i) && h.lists[BinOf(SizeAt(h, chunk))][i] == chunk
    && (BinOf(SizeAt(h, chunk)) < NR_BINS ==> i == 0 && n < SizeAt(h, chunk))
  }

  lemma ExactServed(h: Heap, b: int)
    requires Inv(h, NIL) && 0 <= b < NR_BINS && OnList(h, b, 0)
    ensures var v := h.lists[b][0];
            MemberOk(h, b, v) && Served(h, HandOut(Unlink(h, b, 0), v), v, b + 2)
  {
    var v := h.lists[b][0];
    UnlinkKeepsInv(h, NIL, b, 0);
    HandOutKeepsInv(Unlink(h, b, 0), v);
    forall x | x in h.live ensures IsChunk(h, x) && Unlink(h, b, 0).mem[x].index == h.mem[x].index {
      assert LiveOk(h, x);
    }
  }

  /** Marking the first entry allocated does not disturb its list. */
  lemma MarkedChain(h: Heap, h': Heap, b: int, v: int)
    requires OnList(h, b, 0) && h.lists[b][0] == v && 0 <= v < SLOTS
    requires h' == h.(mem := h.mem[v := h.mem[v].(inUse := true)])
    ensures OnList(h', b, 0)
    ensures Unlink(h', b, 0).mem == Unlink(h, b, 0).mem[v := Unlink(h, b, 0).mem[v].(inUse := true)]
  {
    ChainFrame(h.mem, h'.mem, h.heads[b], h.lists[b]);
    assert LinkOk(h'.mem, h'.lists[b], 0);
  }

  lemma GoLive(h: Heap, s: int)
    requires Inv(h, NIL) && IsChunk(h, s) && !Binned(h, s) && SizeAt(h, s) >= 2 && h.mem[s].inUse
    ensures Inv(h.(live := h.live + {s}), NIL)
  {
    HandOutKeepsInv(h, s);
    assert HandOut(h, s) == h.(live := h.live + {s});
  }

  lemma SplitOffSpec(h: Heap, chunk: int, n: int, i: int)
    requires Inv(h, NIL) && CanSplitOff(h, chunk, n, i)
    ensures var h' := SplitOff(h, chunk, n, i);
            && Inv(h', NIL) && !Binned(h', chunk) && SizeIs(h', chunk, n) && h'.mem[chunk].inUse && KeepsSizes(h, h')
  {
    SplitOffReady(h, chunk, n, i);
    var h1 := Unlink(h, BinOf(SizeAt(h, chunk)), i);
    SplitKeepsInv(h1, chunk, n);
    var h2 := Split(h1, chunk, n);
    if SizeAt(h2, chunk + n) >= 2 {
      PushKeepsInv(h2, chunk + n);
      var h3 := Push(h2, chunk + n);
      forall b | 0 <= b <= UNSORTED ensures chunk !in h3.lists[b] {
        assert chunk !in h2.lists[b];
      }
    }
    forall x | x in h.live ensures IsChunk(h, x) && SplitOff(h, chunk, n, i).mem[x].index == h.mem[x].index {
      assert LiveOk(h, x);
    }
  }

  /** With a chunk behind it, the exact split zeroes that chunk's size and no
      other, whether or not the list could still be followed. */
  lemma StraySizes(h: Heap, h0: Heap, h1: Heap, h': Heap, chunk: int, n: int, i: int)
    requires Tiled(h) && SizeIs(h, chunk, n) && n >= 1 && IsChunk(h, chunk + n) && Sized(h0)
    requires h0.pages == h.pages && h0.top == h.top && h0.topEnd == h.topEnd
    requires h0.mem == h.mem[chunk + n := h0.mem[chunk + n]] && h0.mem[chunk + n].index == -2
    requires if i == NIL then h1 == h0 else OnList(h0, UNSORTED, i) && h1 == Unlink(h0, UNSORTED, i)
    requires Sized(h') && h'.pages == h1.pages && h'.top == h1.top && h'.topEnd == h1.topEnd
    requires h'.mem == h1.mem[chunk + n := h'.mem[chunk + n]][chunk := h'.mem[chunk]]
    requires h'.mem[chunk].index == n - 2 && h'.mem[chunk + n].index == h1.mem[chunk + n].index
    ensures ZeroedAt(h, h', chunk + n)
  {
    if i != NIL { UnlinkChain(h0, UNSORTED, i); }
    forall x | 0 <= x < SLOTS && x != chunk + n ensures SizeAt(h', x) == SizeAt(h, x) {
      assert h1.mem[x].index == h0.mem[x].index;
    }
  }

  ghost predicate SizeIs(h: Heap, s: int, n: int) {
    Sized(h) && IsChunk(h, s) && SizeAt(h, s) == n
  }

  /** The chunks handed out are the same and keep their sizes. */
  ghost predicate KeepsSizes(h: Heap, h': Heap) {
    && Sized(h) && Sized(h') && h'.live == h.live
    && forall x | x in h.live :: IsChunk(h, x) && h'.mem[x].index == h.mem[x].index
  }

  /** What follows a listed chunk: a new page, or another chunk. */
  lemma AfterListed(h: Heap, b: int, i: int)
    requires Inv(h, NIL) && OnList(h, b, i)
    ensures var c := h.lists[b][i];
            && MemberOk(h, b, c) && Binned(h, c) && c + SizeAt(h, c) <= SLOTS
            && ((c + SizeAt(h, c)) % PAGE == 0 || IsChunk(h, c + SizeAt(h, c)))
  {
    var c := h.lists[b][i];
    assert BinOk(h, b) && MemberOk(h, b, c);
    assert c in h.lists[b];
    AfterChunk(h, c);
    UnderTopInUse(h, c);
    assert ChunkOk(h, c);
  }

  /** Clearing the link at entry `j` cuts the list short there. */
  lemma CutChain(mem: seq<Header>, head: int, l: seq<int>, j: int, hd: Header)
    requires |mem| == SLOTS + 1 && Chain(mem, head, l) && 0 <= j < |l| && hd.next == NIL && LinkOk(mem, l, j)
    ensures Chain(mem[l[j] := hd], head, l[..j + 1])
  {
    var mem', l' := mem[l[j] := hd], l[..j + 1];
    forall i | 0 <= i < |l'| ensures LinkOk(mem', l', i) {
      assert LinkOk(mem, l, i);
    }
  }

  lemma OverwrittenChain(mem: seq<Header>, head: int, l: seq<int>, e: int, hd: Header) returns (l': seq<int>)
    requires |mem| == SLOTS + 1 && Chain(mem, head, l) && hd.next == NIL && 0 <= e <= SLOTS
    ensures Chain(mem[e := hd], head, l')
  {
    if e in l {
      var j :| 0 <= j < |l| && l[j] == e;
      assert LinkOk(mem, l, j);
      CutChain(mem, head, l, j, hd);
      l' := l[..j + 1];
    } else {
      ChainFrame(mem, mem[e := hd], head, l);
      l' := l;
    }
  }

  lemma ExactSizes(h: Heap, h0: Heap, h1: Heap, h': Heap, chunk: int, n: int, i: int, hd: Header)
    requires Sized(h) && Sized(h0) && SizeIs(h, chunk, n) && 0 <= chunk + n <= SLOTS && !IsChunk(h, chunk + n)
    requires h0 == h.(mem := h.mem[chunk + n := h0.mem[chunk + n]])
    requires OnList(h0, UNSORTED, i) && h0.lists[UNSORTED][i] == chunk && h1 == Unlink(h0, UNSORTED, i)
    requires h' == h1.(mem := h1.mem[chunk + n := hd][chunk := Header(NIL, n - 2, h1.mem[chunk].prevSize, true)])
    ensures TakenFrom(h, n, h', chunk, UNSORTED, i)
  {
    UnlinkChain(h0, UNSORTED, i);
    forall x | IsChunk(h, x) ensures h'.mem[x].index == h.mem[x].index {
      assert h1.mem[x].(next := 0) == h0.mem[x].(next := 0);
    }
    SameSizes(h, h', chunk);
  }

  /** If no chunk follows, the stray header does no harm. */
  lemma ExactHarmless(h: Heap, h0: Heap, h1: Heap, h': Heap, chunk: int, n: int, i: int, hd: Header)
    requires Inv(h, NIL) && Inv(h0, NIL) && SizeIs(h, chunk, n) && 0 <= chunk + n <= SLOTS && !IsChunk(h, chunk + n)
    requires n >= 2 && h0 == h.(mem := h.mem[chunk + n := h0.mem[chunk + n]])
    requires OnList(h0, UNSORTED, i) && h0.lists[UNSORTED][i] == chunk && h1 == Unlink(h0, UNSORTED, i)
    requires h' == h1.(mem := h1.mem[chunk + n := hd][chunk := Header(NIL, n - 2, h1.mem[chunk].prevSize, true)])
    ensures Inv(h', NIL) && !Binned(h', chunk) && SizeIs(h', chunk, n) && h'.mem[chunk].inUse && KeepsSizes(h, h')
    ensures TakenFrom(h, n, h', chunk, UNSORTED, i)
  {
    UnlinkKeepsInv(h0, NIL, UNSORTED, i);
    ExactSizes(h, h0, h1, h', chunk, n, i, hd);
    var h2 := h1.(mem := h1.mem[chunk + n := hd]);
    JunkKeepsInv(h1, chunk + n, hd);
    MarkInUse(h2, chunk);
    assert h' == h2.(mem := h2.mem[chunk := h2.mem[chunk].(inUse := true)]);
    forall x | x in h.live ensures IsChunk(h, x) && h'.mem[x].index == h.mem[x].index {
      assert LiveOk(h, x);
    }
  }

  /** A chunk that is on no list may be marked allocated. */
  lemma MarkInUse(h: Heap, s: int)
    requires Inv(h, NIL) && IsChunk(h, s) && !Binned(h, s) && SizeAt(h, s) >= 2 && s !in h.live
    ensures Inv(h.(mem := h.mem[s := h.mem[s].(inUse := true)]), NIL)
  {
    HandOutKeepsInv(h, s);
    var g := HandOut(h, s);
    var h' := h.(mem := g.mem);
    forall f | 0 <= f < SLOTS ensures SlotOk(h', f) { assert SlotOk(g, f); }
    forall x | IsChunk(h', x) ensures ChunkOk(h', x) && TagOk(h', NIL, x) { assert ChunkOk(g, x) && TagOk(g, NIL, x); }
    forall b | 0 <= b <= UNSORTED ensures BinOk(h', b) {
      assert BinOk(g, b);
      forall x | x in h'.lists[b] ensures MemberOk(h', b, x) { assert MemberOk(g, b, x); }
    }
    forall x | x in h'.live ensures LiveOk(h', x) { assert LiveOk(g, x); }
    assert forall x :: Binned(h', x) <==> Binned(g, x);
  }

  function Retagged(mem: seq<Header>, top: int, chunk: int, n: int, m: int): seq<Header>
    requires 0 <= chunk < |mem| && chunk < chunk + Size(mem[chunk]) < |mem|
  {
    var e := chunk + Size(mem[chunk]);
    var mem1 := mem[chunk := Header(NIL, n - 2, mem[chunk].prevSize, true)];
    if e == top then mem1 else mem1[e := mem1[e].(prevSize := m)]
  }

  /** The state with the remainder's header and ownership written. */
  ghost predicate RemainderWritten(h1: Heap, h2: Heap, chunk: int, n: int, m: int) {
    && MaySplit(h1, chunk, n) && m == SizeAt(h1, chunk) - n && chunk + n + m <= SLOTS
    && h2 == h1.(mem := h1.mem[chunk + n := Header(NIL, m - 2, n, false)],
                 owner := Fill(h1.owner, chunk + n, chunk + n + m, chunk + n))
  }

  lemma PushThenRetag(h1: Heap, h2: Heap, chunk: int, n: int, m: int)
    requires Inv(h1, NIL) && RemainderWritten(h1, h2, chunk, n, m) && m >= 2 && MayPush(h2, chunk + n)
    ensures var h3 := Push(h2, chunk + n);
            && SizeAt(h3, chunk) == n + m
            && h3.(mem := Retagged(h3.mem, h3.top, chunk, n, m)) == SplitRest(h1, chunk, n)
  {
    SplitKeepsInv(h1, chunk, n);
    var h3 := Push(h2, chunk + n);
    var g := Push(Split(h1, chunk, n), chunk + n);
    assert Retagged(h3.mem, h3.top, chunk, n, m) == g.mem;
  }

  lemma DiscardThenRetag(h1: Heap, h2: Heap, chunk: int, n: int, m: int)
    requires Inv(h1, NIL) && RemainderWritten(h1, h2, chunk, n, m) && m < 2
    ensures var mem3 := h2.mem[chunk + n := h2.mem[chunk + n].(inUse := true)];
            && Size(mem3[chunk]) == n + m
            && h2.(mem := Retagged(mem3, h2.top, chunk, n, m)) == SplitRest(h1, chunk, n)
  {
    SplitKeepsInv(h1, chunk, n);
    var mem3 := h2.mem[chunk + n := h2.mem[chunk + n].(inUse := true)];
    assert Retagged(mem3, h2.top, chunk, n, m) == Split(h1, chunk, n).mem;
  }

  /** Cut an unlisted chunk, and list the rest if it can hold a payload. */
  ghost function SplitRest(h1: Heap, chunk: int, n: int): Heap
    requires Inv(h1, NIL) && MaySplit(h1, chunk, n)
  {
    SplitKeepsInv(h1, chunk, n);
    var h2 := Split(h1, chunk, n);
    if SizeAt(h2, chunk + n) >= 2 then Push(h2, chunk + n) else h2
  }

  /** The remainder's header is not on any list, so writing it first does not
      disturb taking the chunk off its list. */
  lemma RemainderOffLists(h: Heap, chunk: int, n: int, i: int, hd: Header)
    requires Inv(h, NIL) && CanSplitOff(h, chunk, n, i) && chunk + n < SLOTS
    ensures var b := BinOf(SizeAt(h, chunk));
            var h0 := h.(mem := h.mem[chunk + n := hd]);
            && OnList(h0, b, i) && SizeAt(h0, chunk) == SizeAt(h, chunk)
            && Unlink(h0, b, i) == Unlink(h, b, i).(mem := Unlink(h, b, i).mem[chunk + n := hd])
  {
    var b := BinOf(SizeAt(h, chunk));
    var r := chunk + n;
    var l := h.lists[b];
    var h0 := h.(mem := h.mem[r := hd]);
    assert ChunkOk(h, chunk) && h.owner[r] == chunk;
    assert BinOk(h, b);
    assert r !in l by { assert r in l ==> MemberOk(h, b, r); }
    ChainFrame(h.mem, h0.mem, h.heads[b], l);
    assert LinkOk(h0.mem, l, i) && (i > 0 ==> LinkOk(h0.mem, l, i - 1));
    assert l[i] in l && (i > 0 ==> l[i - 1] in l);
    assert Unlink(h0, b, i).mem == Unlink(h, b, i).mem[r := hd];
  }

  lemma RemainderMayPush(h1: Heap, h2: Heap, chunk: int, n: int)
    requires Inv(h1, NIL) && MaySplit(h1, chunk, n) && SizeAt(h1, chunk) - n >= 2 && chunk + n < SLOTS
    requires var m := SizeAt(h1, chunk) - n;
             h2 == h1.(mem := h1.mem[chunk + n := Header(NIL, m - 2, n, false)],
                       owner := Fill(h1.owner, chunk + n, chunk + n + m, chunk + n))
    ensures MayPush(h2, chunk + n) && h2.heads[BinOf(SizeAt(h2, chunk + n))] != chunk + n
  {
    var r := chunk + n;
    assert h1.owner[r] == chunk;
    assert r !in h1.live by { assert r in h1.live ==> LiveOk(h1, r); }
    forall b | 0 <= b <= UNSORTED ensures r !in h1.lists[b] && h1.heads[b] != r {
      assert BinOk(h1, b) && (r in h1.lists[b] ==> MemberOk(h1, b, r));
    }
    if 0 < h1.top < h1.topEnd <= SLOTS && h1.top % PAGE != 0 { TopNotChunk(h1); }
  }

  /** Entry `i` of its list is `chunk`, larger than `n`; a regular bin is only
      ever split at its head. */
  ghost predicate CanSplitOff(h: Heap, chunk: int, n: int, i: int) {
    && Sized(h) && IsChunk(h, chunk) && 2 <= n < SizeAt(h, chunk)
    && OnList(h, BinOf(SizeAt(h, chunk)), i) && h.lists[BinOf(SizeAt(h, chunk))][i] == chunk
    && (BinOf(SizeAt(h, chunk)) < NR_BINS ==> i == 0)
  }

  lemma UnderTopInUse(h: Heap, c: int)
    requires Inv(h, NIL) && Binned(h, c)
    ensures NotUnderTop(h, c)
  {
    if h.top < h.topEnd { TopNotChunk(h); }
  }

  lemma SplitOffReady(h: Heap, chunk: int, n: int, i: int)
    requires Inv(h, NIL) && CanSplitOff(h, chunk, n, i)
    ensures var b := BinOf(SizeAt(h, chunk));
            var h1 := Unlink(h, b, i);
            && Inv(h1, NIL) && SameTags(h, h1) && MaySplit(h1, chunk, n)
            && ChunkOk(h, chunk) && chunk + SizeAt(h, chunk) <= SLOTS
  {
    var b := BinOf(SizeAt(h, chunk));
    assert chunk in h.lists[b];
    UnderTopInUse(h, chunk);
    UnlinkKeepsInv(h, NIL, b, i);
    AfterChunk(h, chunk);
    assert ChunkOk(Unlink(h, b, i), chunk);
  }

  /** Unlink, cut, and list the rest if it can hold a payload. */
  ghost function SplitOff(h: Heap, chunk: int, n: int, i: int): Heap
    requires Inv(h, NIL) && CanSplitOff(h, chunk, n, i)
  {
    SplitOffReady(h, chunk, n, i);
    SplitRest(Unlink(h, BinOf(SizeAt(h, chunk)), i), chunk, n)
  }
}
