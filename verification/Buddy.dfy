/** The buddy page allocator of mm/BuddyAllocator.cc, over its own tables. */
module Buddy {
  import opened Lists
  import opened Dyadic
  import opened KMath
  import opened BuddyState
  import opened BuddySteps

  // ---- request sizes -----------------------------------------------------

  /** Conversion of a `size_t` to the `int` that log2 takes. */
  function ToInt32(x: nat): int {
    var y := x % 0x1_0000_0000;
    if y >= TWO_31 then y - 0x1_0000_0000 else y
  }

  /** The least order whose block holds `size` bytes. */
  function CoveringOrder(size: nat): nat
    decreases size
  {
    if size <= PAGE_SIZE then 0 else 1 + CoveringOrder((size + 1) / 2)
  }

  lemma {:induction false} CoveringOrderLeast(size: nat)
    ensures size <= PAGE_SIZE * Pow2(CoveringOrder(size))
    ensures CoveringOrder(size) > 0 ==> PAGE_SIZE * Pow2(CoveringOrder(size) - 1) < size
    decreases size
  {
    if size > PAGE_SIZE {
      CoveringOrderLeast((size + 1) / 2);
    }
  }

  lemma CoveringOrderUnique(size: nat, k: nat)
    requires size <= PAGE_SIZE * Pow2(k) && (k > 0 ==> PAGE_SIZE * Pow2(k - 1) < size)
    ensures CoveringOrder(size) == k
  {
    CoveringOrderLeast(size);
    var c := CoveringOrder(size);
    if c < k {
      Pow2Monotone(c, k - 1);
    } else if k < c {
      Pow2Monotone(k, c - 1);
    }
  }

  const TWO_42: nat := 0x400_0000_0000
  const TWO_43: nat := 0x800_0000_0000

  /** Requests on which the size computation comes to an end. */
  predicate SizeTerminates(size: nat) {
    size <= TWO_42 || TWO_43 < size <= TWO_63
  }

  /** The order the allocator serves a request with. */
  function ServedOrder(size: nat): nat {
    if size <= TWO_42 then CoveringOrder(size) else 0
  }

  /** A served block is large enough exactly up to 2^42 bytes: past 2^43 the
      page count no longer fits an `int` and a single page is handed out. */
  lemma ServedBlockCoversIff(size: nat)
    requires SizeTerminates(size)
    ensures size <= PAGE_SIZE * Pow2(ServedOrder(size)) <==> size <= TWO_42
  {
    CoveringOrderLeast(size);
  }

  lemma PageCountOfPowerOfTwo(m: nat)
    requires m <= 63
    ensures m < 12 ==> Pow2(m) / PAGE_SIZE == 0
    ensures m >= 12 ==> Pow2(m) / PAGE_SIZE == Pow2(m - 12)
  {
    Pow2Values();
    if m >= 12 {
      Pow2Step(m - 12, 12, 4096) by { assert Pow2(12) == 4096 by { assert Pow2(6) == 64; } }
    } else {
      Pow2Monotone(m + 1, 12);
    }
  }

  lemma Int32OfPowerOfTwo(j: nat)
    requires j != 31
    ensures j < 31 ==> ToInt32(Pow2(j)) == Pow2(j)
    ensures j > 31 ==> ToInt32(Pow2(j)) == 0
  {
    if j < 31 {
      LowPowerFits(j);
    } else {
      HighPowerVanishes(j);
    }
  }

  lemma LowPowerFits(j: nat)
    requires j < 31
    ensures 0 <= Pow2(j) < TWO_31
  {
    Pow2Values();
    Pow2Monotone(j, 30);
  }

  lemma {:induction false} HighPowerVanishes(j: nat)
    requires j >= 32
    ensures Pow2(j) % 0x1_0000_0000 == 0
  {
    if j == 32 {
      Pow2Values();
    } else {
      HighPowerVanishes(j - 1);
    }
  }

  method SizeToOrder(size: nat) returns (order: nat)
    requires 0 <= ToInt32(size / PAGE_SIZE)
    ensures ToInt32(size / PAGE_SIZE) == 0 ==> order == 0
    ensures ToInt32(size / PAGE_SIZE) > 0 ==>
              Pow2(order) <= ToInt32(size / PAGE_SIZE) < 2 * Pow2(order)
  {
    order := Log2(ToInt32(size / PAGE_SIZE));
  }

  lemma PowersInOneOctave(j: nat, k: nat)
    requires Pow2(k) <= Pow2(j) < 2 * Pow2(k)
    ensures j == k
  {
    if j < k { Pow2Monotone(j, k); } else if k < j { Pow2Monotone(k, j); }
  }

  method OrderOfRequest(size: nat) returns (order: nat)
    requires SizeTerminates(size)
    ensures order == ServedOrder(size)
  {
    Pow2Values();
    var normalized;
    ghost var m;
    normalized, m := RoundUpToPowOf2(size);
    assert m <= 63 by {
      if m > 63 { Pow2Monotone(64, m); }
    }
    PageCountOfPowerOfTwo(m);
    assert m != 43 by { SizeTerminatesNot43(size, m); }
    if m >= 12 {
      Int32OfPowerOfTwo(m - 12);
    }
    order := SizeToOrder(normalized);
    OrderOfNormalized(size, m, order);
  }

  lemma SizeTerminatesNot43(size: nat, m: nat)
    requires SizeTerminates(size) && size <= Pow2(m) && (m > 0 ==> Pow2(m - 1) < size)
    ensures m != 43
  {
    Pow2Values();
  }

  lemma OrderOfNormalized(size: nat, m: nat, order: nat)
    requires SizeTerminates(size) && m <= 63 && m != 43
    requires size <= Pow2(m) && (m > 0 ==> Pow2(m - 1) < size)
    requires m < 12 || m > 43 ==> order == 0
    requires 12 <= m < 43 ==> Pow2(order) <= Pow2(m - 12) < 2 * Pow2(order)
    ensures order == ServedOrder(size)
  {
    Pow2Values();
    if m < 12 {
      Pow2Monotone(m, 12);
      CoveringOrderUnique(size, 0);
    } else if m < 43 {
      PowersInOneOctave(m - 12, order);
      Pow2Monotone(m, 42);
      Pow2Step(order, 12, 4096) by { assert Pow2(12) == 4096 by { assert Pow2(6) == 64; } }
      if order > 0 {
        Pow2Step(order - 1, 12, 4096) by { assert Pow2(12) == 4096 by { assert Pow2(6) == 64; } }
      }
      CoveringOrderUnique(size, order);
    } else {
      Pow2Monotone(43, m - 1);
    }
  }

  // ---- the allocator -----------------------------------------------------

  /** The smallest order from `k` on whose free list is not empty. */
  ghost function FirstFit(lists: seq<seq<int>>, k: nat): (j: nat)
    requires |lists| == MAX_ORDER
    ensures k <= j
    decreases MAX_ORDER - k
  {
    if k >= MAX_ORDER || lists[k] != [] then k else FirstFit(lists, k + 1)
  }

  /** The lists after the head of list `order` has been cut down to `target`: it is
      gone, and each smaller order has the upper half that was cut off in front. */
  ghost function CarvedLists(lists: seq<seq<int>>, order: nat, target: nat): seq<seq<int>>
    requires order < |lists| && lists[order] != []
  {
    UpperHalves(lists[order := lists[order][1..]], lists[order][0], order, target)
  }

  ghost function UpperHalves(lists: seq<seq<int>>, s: int, order: nat, target: nat): seq<seq<int>> {
    seq(|lists|, j requires 0 <= j < |lists| => UpperHalf(lists[j], s, order, target, j))
  }

  ghost function UpperHalf(list: seq<int>, s: int, order: nat, target: nat, j: nat): seq<int> {
    if target <= j < order then [s + Pow2(j)] + list else list
  }

  /** The lists after block `s` of order `k` has come back: as long as its buddy is
      on the list of its order they become one block; what that grows to goes to
      the front of its list. */
  ghost function FreedLists(lists: seq<seq<int>>, s: nat, k: nat): seq<seq<int>>
    requires k < |lists|
    decreases |lists| - k
  {
    var b := if Aligned(s, k + 1) then s + Pow2(k) else s - Pow2(k);
    if k + 1 < |lists| && b >= 0 && b in lists[k] then
      FreedLists(lists[k := RemoveFirst(lists[k], b)], if b < s then b else s, k + 1)
    else lists[k := [s] + lists[k]]
  }

  /** The order of the block that spans a whole zone. */
  method ZoneOrder() returns (order: nat)
    ensures order == MAX_ORDER - 1
  {
    var pages := Pow(2, MAX_ORDER - 1);
    PowerOfTwo(MAX_ORDER - 1);
    Pow2Of9();
    order := SizeToOrder(pages * PAGE_SIZE);
    PowersInOneOctave(9, order);
  }

  class BuddyAllocator {
    const zoneBegin: nat
    const frameArray: array<int>
    const freeLists: array<int>
    const headers: array<BlockHeader>
    ghost var owner: seq<int>
    ghost var lists: seq<seq<int>>

    ghost function View(): State
      reads this, frameArray, freeLists, headers
    {
      State(frameArray[..], headers[..], freeLists[..], owner, lists)
    }

    /** The zone starts at a page boundary and never at address zero. */
    ghost predicate Shape()
      reads this, frameArray, freeLists, headers
    {
      && zoneBegin > 0 && zoneBegin % PAGE_SIZE == 0 && frameArray != freeLists
      && Sized(View())
    }

    ghost predicate Valid()
      reads this, frameArray, freeLists, headers
    {
      Shape() && Inv(View(), NIL)
    }

    constructor (zoneBegin: nat)
      requires zoneBegin > 0 && zoneBegin % PAGE_SIZE == 0
      ensures Valid() && this.zoneBegin == zoneBegin && fresh(frameArray) && fresh(freeLists) && fresh(headers)
      ensures View().tags == InitialTags() && Live(View(), NIL) == map[]
    {
      this.zoneBegin := zoneBegin;
      var order := ZoneOrder();
      frameArray := new int[NR_PAGES](_ => 0);
      freeLists := new int[MAX_ORDER](_ => NIL);
      headers := new BlockHeader[NR_PAGES](_ => BlockHeader(NIL, 0, 0));
      new;
      frameArray[0] := order;
      headers[0] := headers[0].(index := 0);
      for i := 1 to NR_PAGES
        invariant frameArray[0] == order
        invariant forall f | 1 <= f < i :: frameArray[f] == DONT_ALLOCATE
        invariant forall f | 0 <= f < i :: headers[f].index == f
        invariant freeLists[..] == seq(MAX_ORDER, _ => NIL)
      {
        frameArray[i] := DONT_ALLOCATE;
        headers[i] := headers[i].(index := i);
      }
      freeLists[order] := 0;
      headers[0] := headers[0].(order := frameArray[0]);
      headers[0] := headers[0].(next := NIL);
      owner := seq(NR_PAGES, _ => 0);
      lists := seq(MAX_ORDER, k => if k == 9 then [0] else []);
      InitialInv(View());
    }

    /** Index of the block header an address belongs to. The source halts on
        addresses that are misaligned or outside the zone. */
    function BlockIndex(p: nat): (i: int)
      requires p >= zoneBegin
    {
      (p - zoneBegin) / PAGE_SIZE
    }

    function PageFrame(index: nat): nat {
      zoneBegin + index * PAGE_SIZE
    }

    method MarkBlockAsAllocated(block: int)
      requires Shape() && 0 <= block < NR_PAGES && headers[block].order >= 0
      requires block + Pow2(headers[block].order) <= NR_PAGES
      modifies frameArray
      ensures Shape() && View() == MarkAllocated(old(View()), block)
    {
      var idx := headers[block].index;
      var len := Pow(2, headers[block].order);
      PowerOfTwo(headers[block].order);
      ghost var was := frameArray[..];
      for i := 0 to len
        invariant frameArray[..] == Fill(was, idx, idx + i, ALLOCATED)
      {
        frameArray[idx + i] := ALLOCATED;
      }
    }

    method MarkBlockAsAllocatable(block: int)
      requires Shape() && 0 <= block < NR_PAGES && headers[block].order >= 0
      requires block + Pow2(headers[block].order) <= NR_PAGES
      modifies frameArray
      ensures Shape() && View() == MarkAllocatable(old(View()), block)
    {
      var idx := headers[block].index;
      var len := Pow(2, headers[block].order);
      PowerOfTwo(headers[block].order);
      frameArray[idx] := headers[block].order;
      ghost var was := frameArray[..];
      assert was == old(frameArray[..])[idx := headers[block].order];
      for i := 1 to len
        invariant frameArray[..] == Fill(was, idx + 1, idx + i, DONT_ALLOCATE)
      {
        frameArray[idx + i] := DONT_ALLOCATE;
      }
    }

    /** Takes the first entry of the list of `block`'s order, which is `block`. */
    method FreeListDelHead(block: int)
      requires Shape() && 0 <= block < NR_PAGES && 0 <= headers[block].order < MAX_ORDER
      requires OnList(View(), headers[block].order, 0) && lists[headers[block].order][0] == block
      modifies freeLists, headers, this`lists
      ensures Shape() && View() == Unlink(old(View()), old(headers[block].order), 0)
    {
      var k := headers[block].order;
      if freeLists[k] == NIL {
        return;
      }
      freeLists[k] := headers[freeLists[k]].next;
      headers[block] := headers[block].(next := NIL);
      lists := lists[k := RemoveAt(lists[k], 0)];
    }

    /** A block that is at the head of its list already stays there. */
    method FreeListAddHead(block: int)
      requires Shape() && 0 <= block < NR_PAGES && 0 <= headers[block].order < MAX_ORDER
      modifies freeLists, headers, this`lists
      ensures Shape()
      ensures View() == if old(freeLists[headers[block].order]) == block then old(View()) else Push(old(View()), block)
    {
      var k := headers[block].order;
      if freeLists[k] == block {
        return;
      }
      if freeLists[k] == NIL {
        freeLists[k] := block;
        headers[block] := headers[block].(next := NIL);
      } else {
        headers[block] := headers[block].(next := freeLists[k]);
        freeLists[k] := block;
      }
      lists := lists[k := [block] + lists[k]];
    }

    /** Takes `block`, entry `i` of its list, off that list; a block that is not
        there, for which `i` is NIL, is left alone. */
    method FreeListDelEntry(block: int, ghost i: int)
      requires Shape() && 0 <= block < NR_PAGES && 0 <= headers[block].order < MAX_ORDER
      requires Chain(headers[..], freeLists[headers[block].order], lists[headers[block].order])
      requires if i == NIL then block !in lists[headers[block].order]
               else OnList(View(), headers[block].order, i) && lists[headers[block].order][i] == block
      modifies freeLists, headers, this`lists
      ensures Shape()
      ensures View() == if i == NIL then old(View()) else Unlink(old(View()), old(headers[block].order), i)
    {
      var k := headers[block].order;
      ghost var l := lists[k];
      assert l != [] ==> LinkOk(headers[..], l, 0);
      if freeLists[k] == block {
        FreeListDelHead(block);
        return;
      }
      var prev := NIL;
      var ptr := freeLists[k];
      ghost var j := 0;
      while ptr != NIL && ptr != block
        invariant 0 <= j <= |l| && ptr == (if j < |l| then l[j] else NIL)
        invariant ptr == NIL ==> j == |l|
        invariant (j > 0 ==> prev == l[j - 1]) && (ptr == block ==> j > 0)
        invariant i != NIL ==> j <= i
        decreases |l| - j
      {
        assert LinkOk(headers[..], l, j) && (j + 1 < |l| ==> LinkOk(headers[..], l, j + 1));
        prev := ptr;
        ptr := headers[ptr].next;
        j := j + 1;
      }
      if ptr == NIL {
        return;
      }
      assert j == i;
      assert LinkOk(headers[..], l, i - 1) && LinkOk(headers[..], l, i);
      headers[prev] := headers[prev].(next := headers[ptr].next);
      headers[ptr] := headers[ptr].(next := NIL);
      lists := lists[k := RemoveAt(lists[k], i)];
    }

    /** The other half of the next larger block: below the top order the two lie
        side by side in the zone, the lower one starts a block twice the size, and
        each is the other's buddy. */
    method GetBuddy(block: int) returns (buddy: int)
      requires Shape() && 0 <= block < NR_PAGES && headers[block].order >= 0
      ensures buddy == BuddyState.Buddy(block, headers[block].order)
      ensures var k := headers[block].order;
              k < MAX_ORDER - 1 && Aligned(block, k) && block + Pow2(k) <= NR_PAGES ==>
                && (buddy == block + Pow2(k) || buddy == block - Pow2(k))
                && 0 <= buddy && buddy + Pow2(k) <= NR_PAGES && Aligned(buddy, k)
                && BuddyState.Buddy(buddy, k) == block
                && Aligned(if buddy < block then buddy else block, k + 1)
    {
      var k := headers[block].order;
      buddy := Xor(headers[block].index, Pow2(k));
      if k < MAX_ORDER - 1 && Aligned(block, k) && block + Pow2(k) <= NR_PAGES {
        BuddyGeometry(block, k);
      }
    }

    /** One round of splitting: the upper half of the block becomes free. */
    method SplitOnce(block: int)
      requires Shape() && CanSplit(View(), block) && NotHead(View(), block, headers[block].order - 1)
      modifies frameArray, freeLists, headers, this`lists, this`owner
      ensures Shape() && View() == Split(old(View()), block)
    {
      var buddy := Halve(block);
      MarkBlockAsAllocatable(buddy);
      FreeListAddHead(buddy);
    }

    /** Both halves get the smaller order. */
    method Halve(block: int) returns (buddy: int)
      requires Shape() && CanSplit(View(), block)
      modifies headers, this`owner
      ensures var st, k := old(View()), old(headers[block].order) - 1;
              && Shape() && buddy == block + Pow2(k) && 0 <= buddy < NR_PAGES
              && View() == st.(headers := SetOrder(SetOrder(st.headers, block, k), buddy, k),
                               owner := Fill(st.owner, buddy, buddy + Pow2(k), buddy))
    {
      SplitBuddy(View(), block);
      var k := headers[block].order - 1;
      headers[block] := headers[block].(order := k);
      buddy := GetBuddy(block);
      headers[buddy] := headers[buddy].(order := k);
      owner := Fill(owner, buddy, buddy + Pow2(k), buddy);
    }

    /** Halves the held block until it has order `target`. */
    method SplitBlock(block: int, target: nat) returns (r: int)
      requires Shape() && HeldOk(View(), block) && target <= headers[block].order
      requires forall k | 0 <= k < MAX_ORDER :: NotHead(View(), block, k)
      modifies frameArray, freeLists, headers, this`lists, this`owner
      ensures Shape() && r == block && View() == SplitTo(old(View()), block, target)
    {
      while headers[block].order > 0 && headers[block].order > target
        invariant Shape() && HeldOk(View(), block) && target <= headers[block].order
        invariant forall k | 0 <= k < MAX_ORDER :: NotHead(View(), block, k)
        invariant SplitTo(View(), block, target) == SplitTo(old(View()), block, target)
        decreases headers[block].order
      {
        SplitHeldOk(View(), block);
        SplitOnce(block);
      }
      r := block;
    }

    /** The first order from `target` on with a free block, and that block. */
    method FindVictim(target: nat) returns (victim: int, order: nat)
      requires Shape() && Listed(View(), NIL) && target < MAX_ORDER
      ensures order == FirstFit(lists, target) <= MAX_ORDER
      ensures order < MAX_ORDER ==> OnList(View(), order, 0) && victim == lists[order][0]
    {
      order := target;
      victim := NIL;
      while order < MAX_ORDER
        invariant target <= order <= MAX_ORDER
        invariant FirstFit(lists, target) == FirstFit(lists, order)
      {
        assert ListOk(View(), NIL, order);
        if freeLists[order] != NIL {
          victim := freeLists[order];
          return;
        }
        order := order + 1;
      }
    }

    /** Takes the victim off its list and cuts a block of order `target`. */
    method Carve(victim: int, order: nat, target: nat)
      requires Shape() && Inv(View(), NIL) && target <= order < MAX_ORDER
      requires OnList(View(), order, 0) && victim == lists[order][0]
      modifies frameArray, freeLists, headers, this`lists, this`owner
      ensures Shape() && View() == CarveState(old(View()), order, target)
    {
      ghost var st := View();
      CarveReady(st, order);
      if order == target {
        FreeListDelHead(victim);
      } else {
        FreeListDelEntry(victim, 0);
        var block := SplitBlock(victim, target);
      }
    }

    /** Hands out the least block that covers the request. It fails exactly
        when no aligned run of that many free frames exists, and otherwise
        cuts the block from the front of the first non-empty list. */
    method Allocate(requestedSize: nat) returns (p: nat)
      requires Valid() && SizeTerminates(requestedSize)
      modifies frameArray, freeLists, headers, this`lists, this`owner
      ensures Valid()
      ensures p == 0 <==> !exists s :: FreeRun(old(View()), s, ServedOrder(requestedSize))
      ensures p == 0 ==> View() == old(View()) && FirstFit(lists, ServedOrder(requestedSize)) >= MAX_ORDER
      ensures p != 0 ==>
                && p >= zoneBegin && p == PageFrame(BlockIndex(p))
                && FreeRun(old(View()), BlockIndex(p), ServedOrder(requestedSize))
                && Live(View(), NIL) == Live(old(View()), NIL)[BlockIndex(p) := ServedOrder(requestedSize)]
      ensures p != 0 ==>
                && FirstFit(old(lists), ServedOrder(requestedSize)) < MAX_ORDER
                && BlockIndex(p) == Head(old(lists)[FirstFit(old(lists), ServedOrder(requestedSize))])
                && lists == CarvedLists(old(lists), FirstFit(old(lists), ServedOrder(requestedSize)),
                                        ServedOrder(requestedSize))
    {
      ghost var st := View();
      var target := OrderOfRequest(requestedSize);
      p := 0;
      if target >= MAX_ORDER {
        NoHugeRun(st, target);
        return;
      }
      var victim, order := FindVictim(target);
      if order >= MAX_ORDER {
        NoFitNoRun(st, target);
        return;
      }
      CarveSpec(st, order, target);
      CarveLists(st, order, target);
      Carve(victim, order, target);
      MarkBlockAsAllocated(victim);
      p := PageFrame(headers[victim].index);
    }

    /** Absorbs the free buddy into the held block. */
    method MergeOnce(block: int, buddy: int, ghost i: int) returns (merged: int)
      requires Shape() && CanMerge(View(), block, i) && buddy == lists[headers[block].order][i]
      modifies freeLists, headers, this`lists, this`owner
      ensures Shape() && View() == Merge(old(View()), block, i)
      ensures merged == if buddy < block then buddy else block
    {
      ghost var k := headers[block].order;
      FreeListDelEntry(buddy, i);
      merged := block;
      if block > buddy {
        merged := buddy;
      }
      BuddyGeometry(block, k);
      headers[merged] := headers[merged].(order := headers[merged].order + 1);
      owner := Fill(owner, merged, merged + Pow2(k + 1), merged);
    }

    /** Tries one merge; `done` tells that the buddy cannot be absorbed. */
    method TryMerge(block: int) returns (merged: int, done: bool)
      requires Shape() && block != NIL && Inv(View(), block) && headers[block].order < MAX_ORDER - 1
      modifies freeLists, headers, this`lists, this`owner
      ensures Shape() && merged != NIL && Inv(View(), merged) && Live(View(), merged) == Live(old(View()), block)
      ensures done ==> merged == block && View() == old(View()) && CannotMerge(View(), block)
      ensures !done ==> headers[merged].order == old(headers[block].order) + 1
      ensures !done ==> FreedLists(old(lists), block, old(headers[block].order)) ==
                        FreedLists(lists, merged, headers[merged].order)
    {
      BuddyIsStart(View(), block);
      BuddyGeometry(block, headers[block].order);
      var buddy := GetBuddy(block);
      if frameArray[headers[buddy].index] == ALLOCATED || headers[block].order != headers[buddy].order {
        return block, true;
      }
      done := false;
      ghost var i := ListIndex(View(), block, buddy);
      MergeKeepsInv(View(), block, i);
      MergedLists(View(), block, i);
      merged := MergeOnce(block, buddy, i);
    }

    /** Takes a live block back and merges it as far as possible. Callers owe
        a pointer they were handed and have not yet returned, or null. */
    method Deallocate(p: nat)
      requires Valid()
      requires p != 0 ==> p >= zoneBegin && p % PAGE_SIZE == 0 && BlockIndex(p) in Live(View(), NIL)
      modifies frameArray, freeLists, headers, this`lists, this`owner
      ensures Valid()
      ensures p == 0 ==> View() == old(View())
      ensures p != 0 ==> Live(View(), NIL) == Live(old(View()), NIL) - {BlockIndex(p)}
      ensures p != 0 ==> old(headers[BlockIndex(p)].order) >= 0 &&
                         lists == FreedLists(old(lists), BlockIndex(p), old(headers[BlockIndex(p)].order))
    {
      if p == 0 {
        return;
      }
      var block := BlockIndex(p);
      HoldLive(View(), block);
      var done := false;
      while headers[block].order < MAX_ORDER - 1 && !done
        invariant Shape() && block != NIL && Inv(View(), block)
        invariant Live(View(), block) == Live(old(View()), NIL) - {BlockIndex(p)}
        invariant done ==> headers[block].order >= 0 && CannotMerge(View(), block)
        invariant 0 <= headers[block].order < MAX_ORDER && old(headers[BlockIndex(p)].order) >= 0
        invariant FreedLists(lists, block, headers[block].order) ==
                  FreedLists(old(lists), BlockIndex(p), old(headers[BlockIndex(p)].order))
        decreases MAX_ORDER - headers[block].order, !done
      {
        block, done := TryMerge(block);
      }
      FinishRelease(block);
    }

    /** Puts the held block back on the free list of its order. */
    method FinishRelease(block: int)
      requires Shape() && block != NIL && Inv(View(), block) && CannotMergeNow(View(), block)
      modifies frameArray, freeLists, headers, this`lists
      ensures Valid() && Live(View(), NIL) == Live(old(View()), block)
      ensures old(headers[block].order) >= 0 && lists == FreedLists(old(lists), block, old(headers[block].order))
    {
      StopLists(View(), block);
      assert BlockOk(View(), block) && ListOk(View(), block, headers[block].order);
      ReleaseKeepsInv(View(), block);
      FreeListAddHead(block);
      MarkBlockAsAllocatable(block);
    }
  }

  ghost predicate CannotMergeNow(st: State, s: int) {
    Sized(st) && IsStart(st, s) && 0 <= Order(st, s) && CannotMerge(st, s)
  }

  /** One merge is one round of growing. */
  lemma MergedLists(st: State, s: int, i: int)
    requires Inv(st, s) && CanMerge(st, s, i)
    ensures var b := BuddyState.Buddy(s, Order(st, s));
            FreedLists(st.lists, s, Order(st, s)) ==
            FreedLists(Merge(st, s, i).lists, if b < s then b else s, Order(st, s) + 1)
  {
    var k := Order(st, s);
    assert BlockOk(st, s) && ListOk(st, s, k);
    RemoveAtIsFirst(st.lists[k], i);
    FreedGrows(st.lists, s, k, BuddyState.Buddy(s, k));
    assert Merge(st, s, i).lists == st.lists[k := RemoveAt(st.lists[k], i)];
  }

  lemma FreedGrows(lists: seq<seq<int>>, s: nat, k: nat, b: int)
    requires Aligned(s, k) && k + 1 < |lists| && b == BuddyState.Buddy(s, k) && b in lists[k]
    ensures FreedLists(lists, s, k) ==
            FreedLists(lists[k := RemoveFirst(lists[k], b)], if b < s then b else s, k + 1)
  {
    XorSibling(s, k);
  }

  /** When nothing can be merged the block goes to the front of its list. */
  lemma StopLists(st: State, s: int)
    requires Inv(st, s) && s != NIL && CannotMergeNow(st, s)
    ensures 0 <= Order(st, s) < MAX_ORDER && FreedLists(st.lists, s, Order(st, s)) == Push(st, s).lists
  {
    var k := Order(st, s);
    assert BlockOk(st, s) && ListOk(st, s, k);
    XorSibling(s, k);
    BuddyNotListed(st, s, BuddyState.Buddy(s, k));
  }

  lemma BuddyNotListed(st: State, s: int, b: int)
    requires Inv(st, s) && s != NIL && CannotMergeNow(st, s) && b == BuddyState.Buddy(s, Order(st, s))
    ensures Order(st, s) + 1 < MAX_ORDER ==> b !in st.lists[Order(st, s)]
  {
    assert ListOk(st, s, Order(st, s));
  }

  /** Where on its list the free buddy of the held block is. */
  lemma ListIndex(st: State, s: int, b: int) returns (i: int)
    requires Inv(st, s) && s != NIL && IsFree(st, s, b) && Order(st, b) == Order(st, s) < MAX_ORDER - 1
    requires b == BuddyState.Buddy(s, Order(st, s))
    ensures CanMerge(st, s, i)
  {
    assert IsListed(st, b) && ListOk(st, s, Order(st, b)) && BlockOk(st, s);
    i :| 0 <= i < |st.lists[Order(st, b)]| && st.lists[Order(st, b)][i] == b;
  }

  ghost predicate FitsAt(st: State, order: nat) {
    Inv(st, NIL) && order < MAX_ORDER && OnList(st, order, 0)
  }

  lemma CarveReady(st: State, order: nat)
    requires FitsAt(st, order)
    ensures var s := st.lists[order][0];
            && IsFree(st, NIL, s) && Order(st, s) == order
            && HeldOk(Unlink(st, order, 0), s) && Order(Unlink(st, order, 0), s) == order
            && (forall k | 0 <= k < MAX_ORDER :: NotHead(Unlink(st, order, 0), s, k))
  {
    var s := st.lists[order][0];
    assert ListOk(st, NIL, order);
    TakeKeepsInv(st, order, 0);
    var st' := Unlink(st, order, 0);
    assert BlockOk(st', s);
    forall k | 0 <= k < MAX_ORDER
      ensures NotHead(st', s, k)
    {
      assert ListOk(st', s, k);
      if st'.heads[k] != NIL {
        assert st'.heads[k] == st'.lists[k][0];
      }
    }
  }

  ghost function CarveState(st: State, order: nat, target: nat): State
    requires FitsAt(st, order) && target <= order
  {
    CarveReady(st, order);
    SplitTo(Unlink(st, order, 0), st.lists[order][0], target)
  }

  lemma {:induction false} SplitToKeepsInv(st: State, s: int, target: nat)
    requires Inv(st, s) && HeldOk(st, s) && target <= Order(st, s)
    ensures var st' := SplitTo(st, s, target);
            Inv(st', s) && HeldOk(st', s) && Order(st', s) == target && Live(st', s) == Live(st, s)
    decreases Order(st, s)
  {
    if Order(st, s) != target {
      SplitKeepsInv(st, s);
      SplitHeldOk(st, s);
      SplitToKeepsInv(Split(st, s), s, target);
    }
  }

  lemma CarveSpec(st: State, order: nat, target: nat)
    requires FitsAt(st, order) && target <= order
    ensures var s := st.lists[order][0];
            var st1 := CarveState(st, order, target);
            && FreeRun(st, s, target)
            && HeldOk(st1, s) && Order(st1, s) == target
            && Inv(MarkAllocated(st1, s), NIL)
            && Live(MarkAllocated(st1, s), NIL) == Live(st, NIL)[s := target]
  {
    var s := st.lists[order][0];
    CarveReady(st, order);
    VictimRun(st, s, target);
    TakeKeepsInv(st, order, 0);
    SplitToKeepsInv(Unlink(st, order, 0), s, target);
    CommitKeepsInv(CarveState(st, order, target), s);
  }

  lemma {:induction false} SplitToLists(st: State, s: int, target: nat, j: nat)
    requires HeldOk(st, s) && target <= Order(st, s) && j < MAX_ORDER
    ensures |st.lists| == |SplitTo(st, s, target).lists| == MAX_ORDER
    ensures SplitTo(st, s, target).lists[j] == UpperHalf(st.lists[j], s, Order(st, s), target, j)
    decreases Order(st, s)
  {
    if Order(st, s) != target {
      SplitHeldOk(st, s);
      SplitToLists(Split(st, s), s, target, j);
      SplitListAt(st, s, j);
    }
  }

  lemma SplitListAt(st: State, s: int, j: nat)
    requires CanSplit(st, s) && j < MAX_ORDER
    ensures |Split(st, s).lists| == MAX_ORDER
    ensures Split(st, s).lists[j] == if j == Order(st, s) - 1 then [s + Pow2(j)] + st.lists[j] else st.lists[j]
  {
  }

  lemma CarveLists(st: State, order: nat, target: nat)
    requires FitsAt(st, order) && target <= order
    ensures CarveState(st, order, target).lists == CarvedLists(st.lists, order, target)
  {
    CarveReady(st, order);
    UnlinkFirst(st, order);
    SplitToHalves(Unlink(st, order, 0), st.lists[order][0], target);
  }

  lemma SplitToHalves(st: State, s: int, target: nat)
    requires HeldOk(st, s) && target <= Order(st, s)
    ensures SplitTo(st, s, target).lists == UpperHalves(st.lists, s, Order(st, s), target)
  {
    var order, lists := Order(st, s), SplitTo(st, s, target).lists;
    forall j | 0 <= j < MAX_ORDER
      ensures |st.lists| == |lists| == MAX_ORDER && lists[j] == UpperHalf(st.lists[j], s, order, target, j)
    {
      SplitToLists(st, s, target, j);
    }
    assert |st.lists| == |lists| == MAX_ORDER by { SplitToLists(st, s, target, target); }
  }

  lemma UnlinkFirst(st: State, order: nat)
    requires order < MAX_ORDER && OnList(st, order, 0)
    ensures Unlink(st, order, 0).lists == st.lists[order := st.lists[order][1..]]
  {
    assert RemoveAt(st.lists[order], 0) == st.lists[order][1..];
  }

  lemma NoFitNoRun(st: State, k: nat)
    requires Inv(st, NIL) && FirstFit(st.lists, k) >= MAX_ORDER
    ensures !exists s :: FreeRun(st, s, k)
  {
    FirstFitSkipsEmpty(st.lists, k);
    EmptyListsNoRun(st, k);
  }

  lemma {:induction false} FirstFitSkipsEmpty(lists: seq<seq<int>>, k: nat)
    requires |lists| == MAX_ORDER
    ensures forall j | k <= j < FirstFit(lists, k) && j < MAX_ORDER :: lists[j] == []
    decreases MAX_ORDER - k
  {
    if k < MAX_ORDER && lists[k] == [] {
      FirstFitSkipsEmpty(lists, k + 1);
    }
  }

  // ---- allocation as a function ------------------------------------------

  ghost predicate HeldOk(st: State, s: int) {
    Sized(st) && IsStart(st, s) && BlockOk(st, s)
  }

  /** No list head lies strictly inside block `s`. */
  ghost predicate NotHead(st: State, s: int, k: int)
    requires HeldOk(st, s) && 0 <= k < MAX_ORDER
  {
    !(s <= st.heads[k] < s + Pow2(Order(st, s)))
  }

  ghost function SplitTo(st: State, s: int, target: nat): State
    requires HeldOk(st, s) && target <= Order(st, s)
    decreases Order(st, s)
  {
    if Order(st, s) == target then st
    else
      SplitHeldOk(st, s);
      SplitTo(Split(st, s), s, target)
  }

  lemma SplitHeldOk(st: State, s: int)
    requires CanSplit(st, s)
    ensures HeldOk(Split(st, s), s) && Order(Split(st, s), s) == Order(st, s) - 1
    ensures forall k | 0 <= k < MAX_ORDER && NotHead(st, s, k) :: NotHead(Split(st, s), s, k)
  {
    SplitHasShape(st, s);
    AlignedHalf(s, Order(st, s) - 1);
  }

  lemma SplitBuddy(st: State, s: int)
    requires CanSplit(st, s)
    ensures BuddyState.Buddy(s, Order(st, s) - 1) == s + Pow2(Order(st, s) - 1)
  {
    AlignedHalf(s, Order(st, s) - 1);
    XorSibling(s, Order(st, s) - 1);
  }

  /** A free block of order at least `k` begins with a free run of order `k`. */
  lemma VictimRun(st: State, s: int, k: nat)
    requires Inv(st, NIL) && IsFree(st, NIL, s) && k <= Order(st, s)
    ensures FreeRun(st, s, k)
  {
    assert BlockOk(st, s);
    AlignedWeaken(s, k, Order(st, s));
    Pow2Monotone(k, Order(st, s));
    forall f | s <= f < s + Pow2(k)
      ensures st.tags[f] != ALLOCATED
    {
      assert FrameTagged(st, f);
    }
  }

  lemma NoHugeRun(st: State, k: nat)
    requires Sized(st) && k >= MAX_ORDER
    ensures !exists s :: FreeRun(st, s, k)
  {
    Pow2Of9();
    Pow2Monotone(9, k);
  }

  lemma EmptyListsNoRun(st: State, k: nat)
    requires Inv(st, NIL) && forall j | k <= j < MAX_ORDER :: st.lists[j] == []
    ensures !exists s :: FreeRun(st, s, k)
  {
    forall s | FreeRun(st, s, k)
      ensures false
    {
      RunInsideFreeBlock(st, s, k);
    }
  }

  function InitialTags(): seq<int> {
    seq(NR_PAGES, f => if f == 0 then 9 else DONT_ALLOCATE)
  }

  lemma InitialInv(st: State)
    requires Sized(st) && st.tags == InitialTags() && Order(st, 0) == 9 && st.headers[0].next == NIL
    requires st.owner == seq(NR_PAGES, _ => 0)
    requires st.heads == seq(MAX_ORDER, k => if k == 9 then 0 else NIL)
    requires st.lists == seq(MAX_ORDER, k => if k == 9 then [0] else [])
    ensures Inv(st, NIL) && Live(st, NIL) == map[]
  {
    Pow2Of9();
    AlignedZero(9);
    assert forall s :: IsStart(st, s) <==> s == 0;
    assert BlockOk(st, 0);
    assert Partitioned(st);
    forall k | 0 <= k < MAX_ORDER ensures ListOk(st, NIL, k) {
    }
    assert IsListed(st, 0) by { assert 0 in st.lists[9]; }
  }

  // ---- whole runs --------------------------------------------------------

  ghost function InitialState(): State {
    State(InitialTags(), seq(NR_PAGES, i => BlockHeader(NIL, if i == 0 then 9 else 0, i)),
          seq(MAX_ORDER, k => if k == 9 then 0 else NIL), seq(NR_PAGES, _ => 0),
          seq(MAX_ORDER, k => if k == 9 then [0] else []))
  }

  /** When callers own nothing the zone is one free block of the top order
      again, whatever was allocated and freed before. */
  lemma AllFreedIsInitial(st: State)
    requires Inv(st, NIL) && Live(st, NIL) == map[]
    ensures st.tags == InitialTags()
    ensures st.lists == InitialState().lists
  {
    InitialInv(InitialState());
    Canonical(st, InitialState());
    forall k | 0 <= k < MAX_ORDER
      ensures st.lists[k] == InitialState().lists[k]
    {
      assert |multiset(st.lists[k])| == |st.lists[k]|;
      assert multiset(st.lists[k]) == multiset(InitialState().lists[k]);
      if k == 9 {
        assert 0 in multiset(st.lists[k]);
      }
    }
  }
}
