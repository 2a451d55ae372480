/** Address spaces over physical memory: mm/VirtualMemoryMap.cc with the
    reference counts of mm/MemoryManager.cc and the fault step of
    kernel/Exception.cc. Beside the real memory runs an eager machine, in which
    fork copies every page at once; the two never differ in what a space reads. */
module VirtualMemory {
  import opened Lists
  import opened PageTables
  import opened TreeWalks
  import opened Descriptors
  import opened PhysicalMemory

  // ---- the eager machine -----------------------------------------------------

  /** A page as its owner sees it. */
  datatype Page = Page(bytes: seq<Byte>, admitsWrite: bool)

  function PageOf(bytes: seq<Byte>, d: Desc): Page { Page(bytes, !d.readOnly || d.cow) }

  type Eager = map<Key, Page>

  function PathsOf(e: Eager, space: int): set<seq<int>> {
    set k | k in e && k.space == space :: k.path
  }

  /** Fork duplicates every page of the parent, and from then on both sides
      may write all of them. */
  function EagerFork(e: Eager, parent: int, child: int): Eager {
    (map k | k in e :: if k.space == parent then Page(e[k].bytes, true) else e[k]) +
    (map p | p in PathsOf(e, parent) :: Key(child, p) := Page(e[Key(parent, p)].bytes, true))
  }

  function EagerStore(e: Eager, k: Key, offset: int, b: Byte): Eager
    requires k in e && 0 <= offset < |e[k].bytes|
  {
    e[k := e[k].(bytes := e[k].bytes[offset := b])]
  }

  function EagerReset(e: Eager, space: int): Eager {
    map k | k in e && k.space != space :: e[k]
  }

  ghost predicate SimAt(s: Sys, e: Eager, k: Key)
    requires Sized(s) && k in s.leaf && k in e
  {
    IsData(s, s.leaf[k].frame) && e[k] == PageOf(s.mem[s.leaf[k].frame].bytes, s.leaf[k])
  }

  /** Each space reads, through its page tables, the bytes it has in the eager
      machine, and a store is admitted in both or in neither. */
  ghost predicate Sim(s: Sys, e: Eager)
    requires Sized(s)
  {
    && e.Keys == s.leaf.Keys
    && forall k {:trigger SimAt(s, e, k)} | k in s.leaf :: SimAt(s, e, k)
  }

  // ---- virtual addresses -----------------------------------------------------

  /** The four table indices of a virtual address. */
  function PathOf(v: nat): (p: seq<int>)
    ensures PathOk(p)
  {
    [v / 0x80_0000_0000 % 512, v / 0x4000_0000 % 512, v / 0x20_0000 % 512, v / 0x1000 % 512]
  }

  /** The 36-bit page number of a virtual address. */
  function PageNumber(v: nat): nat { v / 0x1000 % 0x10_0000_0000 }

  /** The four indices are the page number in base 512: two addresses take the
      same path exactly when they are in the same page. */
  lemma PathIsPageNumber(v: nat, w: nat)
    ensures PathOf(v) == PathOf(w) <==> PageNumber(v) == PageNumber(w)
  {
    PathDigits(v);
    PathDigits(w);
    var p, q := PathOf(v), PathOf(w);
    if PageNumber(v) == PageNumber(w) {
      SameDigits(p[0], p[1], p[2], p[3], q[0], q[1], q[2], q[3]);
    }
  }

  lemma PathDigits(v: nat)
    ensures var p := PathOf(v);
            PageNumber(v) == ((p[0] * 512 + p[1]) * 512 + p[2]) * 512 + p[3]
  {
    assert v / 0x20_0000 == v / 0x1000 / 512;
    assert v / 0x4000_0000 == v / 0x20_0000 / 512;
    assert v / 0x80_0000_0000 == v / 0x4000_0000 / 512;
    Base512(v / 0x1000, v / 0x20_0000, v / 0x4000_0000, v / 0x80_0000_0000);
  }

  lemma Base512(n: nat, n1: nat, n2: nat, n3: nat)
    requires n1 == n / 512 && n2 == n1 / 512 && n3 == n2 / 512
    ensures n % 0x10_0000_0000 == ((n3 % 512 * 512 + n2 % 512) * 512 + n1 % 512) * 512 + n % 512
  {
    LastOfFour(n);
    LastOfThree(n1);
    LastOfTwo(n2);
  }

  lemma LastOfTwo(n: nat)
    ensures n % 0x4_0000 == n / 512 % 512 * 512 + n % 512
  {
  }

  lemma LastOfThree(n: nat)
    ensures n % 0x800_0000 == n / 512 % 0x4_0000 * 512 + n % 512
  {
  }

  lemma LastOfFour(n: nat)
    ensures n % 0x10_0000_0000 == n / 512 % 0x800_0000 * 512 + n % 512
  {
  }

  lemma SameDigits(a: int, b: int, c: int, d: int, a': int, b': int, c': int, d': int)
    requires 0 <= a < 512 && 0 <= b < 512 && 0 <= c < 512 && 0 <= d < 512
    requires 0 <= a' < 512 && 0 <= b' < 512 && 0 <= c' < 512 && 0 <= d' < 512
    requires ((a * 512 + b) * 512 + c) * 512 + d == ((a' * 512 + b') * 512 + c') * 512 + d'
    ensures a == a' && b == b' && c == c' && d == d'
  {
  }

  function KeyOf(space: int, v: nat): Key { Key(space, PathOf(v)) }

  // ---- how the relation moves ------------------------------------------------

  /** Data frames and leaves are as before. */
  ghost predicate SameData(s: Sys, s': Sys) {
    && Sized(s) && Sized(s') && s'.leaf == s.leaf
    && (forall f | IsData(s, f) :: IsData(s', f) && s'.mem[f] == s.mem[f])
  }

  lemma SimSame(s: Sys, s': Sys, e: Eager)
    requires SameData(s, s') && Sim(s, e)
    ensures Sim(s', e)
  {
    forall k | k in s'.leaf ensures SimAt(s', e, k) { assert SimAt(s, e, k); }
  }

  lemma SimPoke(s: Sys, e: Eager, f: int, bytes: seq<Byte>)
    requires Sized(s) && Sim(s, e) && 0 <= f < NR_FRAMES && |bytes| == PAGE_SIZE
    requires f in s.free || Unheld(s, f)
    ensures Sim(Poke(s, f, bytes), e)
  {
    forall k | k in s.leaf ensures SimAt(Poke(s, f, bytes), e, k) { assert SimAt(s, e, k); }
  }

  /** Writing the frame of a page that nobody shares is a store by its owner. */
  lemma SimStore(s: Sys, e: Eager, k: Key, bytes: seq<Byte>)
    requires Sized(s) && Sim(s, e) && k in s.leaf && LeafOk(s, k) && |bytes| == PAGE_SIZE
    requires forall j | j in s.leaf && j != k :: s.leaf[j].frame != s.leaf[k].frame
    ensures Sim(Poke(s, s.leaf[k].frame, bytes), e[k := e[k].(bytes := bytes)])
  {
    var s' := Poke(s, s.leaf[k].frame, bytes);
    forall j | j in s'.leaf ensures SimAt(s', e[k := e[k].(bytes := bytes)], j) { assert SimAt(s, e, j); }
  }

  /** A leaf may be redirected to a frame with the same bytes. */
  lemma SimPut(s: Sys, s': Sys, e: Eager, k: Key, d: Desc)
    requires Sized(s) && Sized(s') && Sim(s, e) && s'.leaf == s.leaf[k := d] && IsData(s', d.frame)
    requires forall f | IsData(s, f) :: IsData(s', f) && s'.mem[f] == s.mem[f]
    ensures Sim(s', e[k := PageOf(s'.mem[d.frame].bytes, d)])
  {
    forall j | j in s'.leaf ensures SimAt(s', e[k := PageOf(s'.mem[d.frame].bytes, d)], j) {
      if j != k { assert SimAt(s, e, j); }
    }
  }

  ghost predicate Good(s: Sys, e: Eager) {
    Inv(s, NONE) && Sim(s, e)
  }

  lemma GoodPut(s: Sys, e: Eager, k: Key, d: Desc)
    requires Good(s, e) && MayPut(s, k, d)
    ensures k in s.leaf ==> LeafOk(s, k)
    ensures Good(PutLeaf(s, k, d), e[k := PageOf(s.mem[d.frame].bytes, d)])
    ensures PutLeaf(s, k, d).mem[d.frame] == s.mem[d.frame]
  {
    if k in s.leaf { assert LeafOk(s, k); }
    PutLeafKeepsInv(s, k, d, NONE);
    SimPut(s, PutLeaf(s, k, d), e, k, d);
  }

  lemma GoodClear(s: Sys, e: Eager, k: Key)
    requires Good(s, e) && k in s.leaf
    ensures LeafOk(s, k) && Good(ClearLeaf(s, k), e - {k})
  {
    assert LeafOk(s, k);
    ClearLeafKeepsInv(s, k, NONE);
    SimClear(s, e, k);
  }

  lemma SimClear(s: Sys, e: Eager, k: Key)
    requires Sized(s) && Sim(s, e) && k in s.leaf && LeafOk(s, k)
    ensures Sim(ClearLeaf(s, k), e - {k})
  {
    forall j | j in s.leaf - {k} ensures SimAt(ClearLeaf(s, k), e - {k}, j) { assert SimAt(s, e, j); }
  }

  lemma GoodTake(s: Sys, e: Eager, f: int, bytes: seq<Byte>)
    requires Good(s, e) && f in s.free && |bytes| == PAGE_SIZE
    ensures Good(Poke(s, f, bytes), e) && IsData(Poke(s, f, bytes), f) && Unheld(s, f)
  {
    PokeKeepsInv(s, f, bytes, NONE);
    SimPoke(s, e, f, bytes);
    FreeUnreferenced(s, f);
    NoHolders(s, f);
  }

  lemma NoHolders(s: Sys, f: int)
    requires Sized(s) && Counted(s) && 0 <= f < NR_FRAMES && s.refs[f] == 0
    ensures Unheld(s, f)
  {
    assert CountedAt(s, f);
    forall j | j in s.leaf ensures s.leaf[j].frame != f {
      assert j !in Holders(s.leaf, f);
    }
  }

  /** The state after a shared frame has been copied out for page `k`. */
  ghost function CopiedOut(s: Sys, k: Key, f: int): Sys
    requires Sized(s) && k in s.leaf && LeafOk(s, k) && f in s.free
  {
    PutLeaf(Poke(s, f, s.mem[s.leaf[k].frame].bytes), k, PrivateDesc(f))
  }

  lemma GoodCopyOut(s: Sys, e: Eager, k: Key, f: int)
    requires Good(s, e) && k in s.leaf && LeafOk(s, k) && f in s.free
    ensures Good(CopiedOut(s, k, f), e[k := Page(e[k].bytes, true)])
  {
    var bytes := s.mem[s.leaf[k].frame].bytes;
    GoodTake(s, e, f, bytes);
    assert SimAt(s, e, k);
    GoodPut(Poke(s, f, bytes), e, k, PrivateDesc(f));
  }

  /** A store through a writable leaf reaches its owner's page and no other. */
  lemma GoodStore(s: Sys, e: Eager, k: Key, bytes: seq<Byte>)
    requires Good(s, e) && k in s.leaf && !s.leaf[k].readOnly && |bytes| == PAGE_SIZE
    ensures LeafOk(s, k) && Good(Poke(s, s.leaf[k].frame, bytes), e[k := e[k].(bytes := bytes)])
  {
    assert LeafOk(s, k);
    PokeKeepsInv(s, s.leaf[k].frame, bytes, NONE);
    forall j | j in s.leaf && j != k ensures s.leaf[j].frame != s.leaf[k].frame {
      assert SolePair(s.leaf, k, j);
    }
    SimStore(s, e, k, bytes);
  }

  // ---- the memory of the machine ---------------------------------------------

  /** Table frames missing on the way to a page, from level `n` on. */
  ghost function Missing(at: map<Key, int>, k: Key, n: nat): nat
    requires |k.path| == 4
    decreases 4 - n
  {
    if n >= 4 then 0
    else (if Key(k.space, k.path[..n]) in at then 0 else 1) + Missing(at, k, n + 1)
  }

  function FirstFrames(n: nat): (r: set<int>)
    ensures |r| == n && forall f :: f in r <==> 0 <= f < n
  {
    if n == 0 then {} else FirstFrames(n - 1) + {n - 1}
  }

  /** The spaces that exist. */
  ghost function SpacesOf(at: map<Key, int>): set<int> { set k | k in at && k.path == [] :: k.space }

  lemma EmptyInv(mem: seq<Content>, refs: seq<int>, free: set<int>)
    requires |mem| == |refs| == NR_FRAMES && (forall f | 0 <= f < NR_FRAMES :: refs[f] == 0)
    requires forall f | f in free :: 0 <= f < NR_FRAMES
    ensures var s := Sys(mem, refs, free, map[], map[]);
            Inv(s, NONE) && Sim(s, map[]) && SpacesOf(s.at) == {}
  {
    var s := Sys(mem, refs, free, map[], map[]);
    forall f | 0 <= f < NR_FRAMES ensures CountedAt(s, f) {
      assert Holders(s.leaf, f) == {};
    }
  }

  lemma SpaceGone(at: map<Key, int>, space: int)
    ensures SpacesOf(at - {Key(space, [])}) == SpacesOf(at) - {space}
  {
  }

  lemma SameSpaces(at: map<Key, int>, at': map<Key, int>)
    requires forall k: Key | k.path == [] :: k in at <==> k in at'
    ensures SpacesOf(at') == SpacesOf(at)
  {
    forall k: Key | k.path == [] ensures k in at <==> k in at' {
    }
  }

  class Memory {
    const ram: Frames
    const refs: array<int>
    var free: set<int>
    ghost var at: map<Key, int>
    ghost var leaf: map<Key, Desc>
    ghost var eager: Eager

    ghost function View(): Sys
      reads this, ram.a, refs
    {
      Sys(ram.Mem(), refs[..], free, at, leaf)
    }

    ghost predicate Valid()
      reads this, ram.a, refs
    {
      Inv(View(), NONE) && Sim(View(), eager)
    }

    /** All of memory free, no space, no page. */
    constructor (place: Layout)
      ensures Valid() && at == map[] && eager == map[] && |free| == NR_FRAMES && fresh(ram.a) && fresh(refs)
    {
      ram := new Frames(place);
      refs := new int[NR_FRAMES](_ => 0);
      free := {};
      at, leaf, eager := map[], map[], map[];
      new;
      Boot();
    }

    /** Hands all frames to the allocator. */
    method Boot()
      requires ram.a.Length == refs.Length == NR_FRAMES && (forall f | 0 <= f < NR_FRAMES :: refs[f] == 0)
      requires at == map[] && leaf == map[] && eager == map[]
      modifies this`free
      ensures Valid() && |free| == NR_FRAMES
    {
      free := FirstFrames(ram.a.Length);
      EmptyInv(ram.Mem(), refs[..], free);
    }

    /** Space `space` exists. */
    ghost predicate IsSpace(space: int)
      reads this
    {
      Key(space, []) in at && space != NONE
    }

    /** A free page frame, holding whatever it held before. The source does not
        look at a null result, so one must be left. */
    method GetFreePage() returns (f: int)
      requires Sized(View()) && free != {}
      modifies this`free, ram.a
      ensures f in old(free) && 0 <= f < NR_FRAMES
      ensures exists stale :: |stale| == PAGE_SIZE && View() == Poke(old(View()), f, stale)
    {
      SomeMember(free);
      f :| f in free;
      free := free - {f};
      assert |seq<Byte>(PAGE_SIZE, _ => 0)| == PAGE_SIZE;
      var stale: seq<Byte> :| |stale| == PAGE_SIZE;
      ram.StoreData(f, stale);
      assert View() == Poke(old(View()), f, stale);
    }

    /** Freeing a frame that is already free is a fatal error in the source. */
    method KFree(f: int)
      requires 0 <= f < NR_FRAMES && f !in free
      modifies this`free
      ensures free == old(free) + {f}
    {
      free := free + {f};
    }

    /** A new empty table below entry `i` of the table at `here`. */
    method GrowTable(t: int, i: int, ghost here: Key) returns (c: int)
      requires Inv(View(), NONE) && here in at && t == at[here] && |here.path| < 3 && 0 <= i < NR_ENTRIES
      requires HasTable(View(), here) && !Entry(View(), here, i).valid && free != {}
      modifies this`free, this`at, ram.a
      ensures c in old(free) && MayAdd(old(View()), here, i, c) && View() == AddTable(old(View()), here, i, c)
      ensures c == at[Child(here, i)]
    {
      ghost var s := View();
      c := GetFreePage();
      ram.ClearFrame(c);
      ram.StoreTable(t, i, c);
      at := at[Child(here, i) := c];
      assert View() == AddTable(s, here, i, c);
    }

    /** One level of the walk. */
    method Descend(t: int, index: int, create: bool, ghost here: Key) returns (next: int)
      requires Inv(View(), NONE) && here in at && t == at[here] && here.space != NONE && |here.path| < 3
      requires 0 <= index < NR_ENTRIES && (create && Child(here, index) !in at ==> free != {})
      modifies this`free, this`at, ram.a
      ensures Inv(View(), NONE) && SameData(old(View()), View()) && refs[..] == old(refs[..])
      ensures !create ==> View() == old(View())
      ensures next == NONE <==> Child(here, index) !in at
      ensures next != NONE ==> next == at[Child(here, index)]
      ensures create ==> next != NONE
      ensures at == if next == NONE then old(at) else old(at)[Child(here, index) := next]
      ensures Child(here, index) in old(at) ==> at == old(at)
      ensures free == if Child(here, index) in old(at) || !create then old(free) else old(free) - {next}
      ensures Child(here, index) !in old(at) && create ==> next in old(free)
    {
      ghost var s := View();
      assert TableOk(s, here) && EntryKnown(s, here, index);
      ChildParent(here, index);
      assert Child(here, index) in at ==> TableOk(s, Child(here, index));
      var d := ram.ReadEntry(t, index);
      if d.valid {
        next := d.frame;
      } else if !create {
        next := NONE;
      } else {
        next := GrowTable(t, index, here);
        AddTableKeepsInv(s, here, index, next, NONE);
      }
    }

    /** Follows the tables to the slot of a page, adding missing ones if asked
        to; without that it stops at the first missing table. */
    method Walk(space: int, v: nat, create: bool) returns (t: int, i: int)
      requires Inv(View(), NONE) && IsSpace(space)
      requires create ==> |free| >= Missing(at, KeyOf(space, v), 1)
      modifies this`free, this`at, ram.a
      ensures Inv(View(), NONE) && SameData(old(View()), View()) && refs[..] == old(refs[..])
      ensures forall k | k in old(at) :: k in at && at[k] == old(at)[k]
      ensures forall k | k in at && k !in old(at) :: k.path != []
      ensures create ==> |free| == |old(free)| - Missing(old(at), KeyOf(space, v), 1)
      ensures !create ==> View() == old(View())
      ensures t == NONE <==> Parent(KeyOf(space, v)) !in at
      ensures t != NONE ==> t == at[Parent(KeyOf(space, v))] && i == Last(KeyOf(space, v))
      ensures create ==> t != NONE
    {
      ghost var k := KeyOf(space, v);
      var indices := PathOf(v);
      assert k.path[..0] == [];
      t := space;
      ghost var here := Key(space, []);
      assert TableOk(View(), here);
      var n := 0;
      while n < 3
        invariant 0 <= n <= 3 && here == Key(space, k.path[..n]) && here in at && t == at[here]
        invariant Inv(View(), NONE) && SameData(old(View()), View()) && refs[..] == old(refs[..])
        invariant forall j | j in old(at) :: j in at && at[j] == old(at)[j]
        invariant forall j | j in at && j !in old(at) :: j.path != []
        invariant create ==> |free| >= Missing(at, k, n + 1)
        invariant create ==> |free| + Missing(old(at), k, 1) == |old(free)| + Missing(at, k, n + 1)
        invariant !create ==> View() == old(View())
      {
        ghost var at0 := at;
        assert Child(here, indices[n]) == Key(space, k.path[..n + 1]);
        t := Descend(t, indices[n], create, here);
        if t == NONE {
          MissingOnWay(View(), k, n + 1);
          i := 0;
          return;
        }
        MissingBeyond(at0, k, n + 1, t, n + 2);
        n := n + 1;
        here := Key(space, k.path[..n]);
      }
      assert TableOk(View(), here) && Parent(k) == here;
      i := indices[3];
    }

    /** A new space: one empty top-level table, or a null one without a frame. */
    method NewMap() returns (space: int)
      requires Valid()
      modifies this`free, this`at, ram.a
      ensures Valid() && eager == old(eager) && leaf == old(leaf)
      ensures old(free) == {} ==> space == NONE && View() == old(View())
      ensures old(free) != {} ==>
                && IsSpace(space) && OnlyRoot(View(), space)
                && space in old(free) && free == old(free) - {space} && at == old(at)[Key(space, []) := space]
    {
      if free == {} {
        return NONE;
      }
      ghost var s := View();
      space := GetFreePage();
      ram.ClearFrame(space);
      at := at[Key(space, []) := space];
      assert View() == NewSpace(s, space);
      NewSpaceKeepsInv(s, space);
      SimSame(s, View(), eager);
    }

    /** Maps an unmapped page to an allocated frame; a frame that is mapped
        elsewhere may only be read, here and there. A page that is mapped already
        is a fatal error in the source. */
    method Map(space: int, v: nat, f: int, attr: Attr)
      requires Valid() && IsSpace(space) && KeyOf(space, v) !in leaf
      requires IsData(View(), f) && forall j | j in leaf && leaf[j].frame == f :: leaf[j].readOnly && attr.readOnly
      requires |free| >= Missing(at, KeyOf(space, v), 1)
      modifies this`free, this`at, this`leaf, this`eager, ram.a, refs
      ensures Valid() && IsSpace(space)
      ensures leaf == old(leaf)[KeyOf(space, v) := MappedDesc(f, attr)]
      ensures eager == old(eager)[KeyOf(space, v) := Page(old(ram.Mem())[f].bytes, !attr.readOnly)]
      ensures |free| == |old(free)| - Missing(old(at), KeyOf(space, v), 1)
      ensures ram.Mem()[f] == old(ram.Mem())[f] && SpacesOf(at) == SpacesOf(old(at))
    {
      ghost var k := KeyOf(space, v);
      var t, i := Walk(space, v, true);
      SameSpaces(old(at), at);
      SimSame(old(View()), View(), eager);
      ghost var s := View();
      assert TableOk(s, Parent(k));
      ghost var d := MappedDesc(f, attr);
      GoodPut(s, eager, k, d);
      PutPage(t, i, f, attr, k);
      eager := eager[k := PageOf(s.mem[f].bytes, d)];
    }

    /** Writes the entry of a page that was not mapped. */
    method PutPage(t: int, i: int, f: int, attr: Attr, ghost k: Key)
      requires Slot(View(), k) && t == at[Parent(k)] && i == Last(k) && k !in leaf && 0 <= f < NR_FRAMES
      modifies this`leaf, ram.a, refs
      ensures View() == PutLeaf(old(View()), k, MappedDesc(f, attr))
    {
      ram.StoreMapped(t, i, f, attr);
      refs[f] := refs[f] + 1;
      leaf := leaf[k := MappedDesc(f, attr)];
    }

    /** Unmaps a mapped page. The frame keeps its memory even when this was the
        last reference. */
    method Unmap(space: int, v: nat)
      requires Valid() && IsSpace(space) && KeyOf(space, v) in leaf
      modifies this`free, this`at, this`leaf, this`eager, ram.a, refs
      ensures Valid() && leaf == old(leaf) - {KeyOf(space, v)} && eager == old(eager) - {KeyOf(space, v)}
      ensures free == old(free) && at == old(at)
    {
      ghost var k := KeyOf(space, v);
      ghost var s := View();
      GoodClear(s, eager, k);
      var t, i := Walk(space, v, false);
      var d := ram.ReadEntry(t, i);
      ram.StoreZero(t, i);
      refs[d.frame] := refs[d.frame] - 1;
      leaf := leaf - {k};
      eager := eager - {k};
      assert View() == ClearLeaf(s, k);
    }

    method IsCowPage(space: int, v: nat) returns (cow: bool)
      requires Valid() && IsSpace(space)
      modifies this`free, this`at, ram.a
      ensures View() == old(View())
      ensures cow <==> KeyOf(space, v) in leaf && leaf[KeyOf(space, v)].cow
    {
      ghost var k := KeyOf(space, v);
      var t, i := Walk(space, v, false);
      if t == NONE {
        assert k in leaf ==> LeafOk(View(), k);
        return false;
      }
      assert TableOk(View(), Parent(k)) && EntryKnown(View(), Parent(k), i);
      assert k in leaf ==> LeafOk(View(), k);
      ParentChild(k);
      var d := ram.ReadEntry(t, i);
      cow := d.cow;
    }

    /** The only user of a frame gets it writable as it is. */
    method Reclaim(t: int, i: int, ghost k: Key)
      requires Valid() && k in leaf && LeafOk(View(), k) && t == at[Parent(k)] && i == Last(k)
      requires refs[leaf[k].frame] == 1
      modifies this`leaf, this`eager, ram.a
      ensures Valid() && leaf == old(leaf)[k := old(leaf)[k].(cow := false, readOnly := false)]
      ensures eager == old(eager)[k := Page(old(eager)[k].bytes, true)]
    {
      ghost var s := View();
      ghost var d := leaf[k].(cow := false, readOnly := false);
      LastReference(s, k);
      assert SimAt(s, eager, k);
      GoodPut(s, eager, k, d);
      ram.StoreReclaimed(t, i);
      leaf := leaf[k := d];
      eager := eager[k := PageOf(s.mem[d.frame].bytes, d)];
      assert PutLeaf(s, k, d).refs == s.refs;
      assert View() == PutLeaf(s, k, d);
    }

    /** A shared frame is copied to a new one for this page alone. */
    method CopyOut(t: int, i: int, ghost k: Key) returns (newFrame: int)
      requires Sized(View()) && k in leaf && LeafOk(View(), k) && t == at[Parent(k)] && i == Last(k) && free != {}
      modifies this`free, this`leaf, ram.a, refs
      ensures newFrame in old(free) && View() == CopiedOut(old(View()), k, newFrame)
    {
      ghost var s := View();
      var d := ram.ReadEntry(t, i);
      newFrame := GetFreePage();
      var bytes := ram.ReadData(d.frame);
      ram.StoreData(newFrame, bytes);
      assert ram.Mem() == s.mem[newFrame := s.mem[d.frame]];
      ram.StoreCopy(t, i, newFrame);
      MoveReference(d.frame, newFrame);
      leaf := leaf[k := PrivateDesc(newFrame)];
      ghost var s1 := Poke(s, newFrame, s.mem[d.frame].bytes);
      assert ram.Mem() == PutEntry(s1, Parent(k), i, leaf[k]);
    }

    method MoveReference(from: int, to: int)
      requires 0 <= from < refs.Length && 0 <= to < refs.Length
      modifies refs
      ensures refs[..] == Bump(Bump(old(refs[..]), from, -1), to, 1)
    {
      refs[from] := refs[from] - 1;
      refs[to] := refs[to] + 1;
    }

    /** Gives the page a frame of its own and lets it be written. */
    method CopyPageFrame(space: int, v: nat)
      requires Valid() && IsSpace(space) && KeyOf(space, v) in leaf
      requires LeafOk(View(), KeyOf(space, v)) && (refs[leaf[KeyOf(space, v)].frame] != 1 ==> free != {})
      modifies this`free, this`at, this`leaf, this`eager, ram.a, refs
      ensures Valid() && at == old(at) && KeyOf(space, v) in leaf
      ensures leaf[KeyOf(space, v)].valid && !leaf[KeyOf(space, v)].readOnly
      ensures leaf == old(leaf)[KeyOf(space, v) := leaf[KeyOf(space, v)]]
      ensures eager == old(eager)[KeyOf(space, v) := Page(old(eager)[KeyOf(space, v)].bytes, true)]
      ensures if old(refs[leaf[KeyOf(space, v)].frame]) == 1 then free == old(free)
              else leaf[KeyOf(space, v)].frame in old(free) && free == old(free) - {leaf[KeyOf(space, v)].frame}
    {
      ghost var k := KeyOf(space, v);
      var t, i := Walk(space, v, false);
      var d := ram.ReadEntry(t, i);
      if refs[d.frame] == 1 {
        Reclaim(t, i, k);
      } else {
        ghost var s := View();
        var f := CopyOut(t, i, k);
        GoodCopyOut(s, eager, k, f);
        eager := eager[k := Page(eager[k].bytes, true)];
      }
    }

    /** The data-abort handler: true when the faulting program gets a SIGSEGV. */
    method HandlePageFault(space: int, v: nat) returns (killed: bool)
      requires Valid() && IsSpace(space)
      requires KeyOf(space, v) in leaf && leaf[KeyOf(space, v)].cow ==> CopyAffordable(View(), KeyOf(space, v))
      modifies this`free, this`at, this`leaf, this`eager, ram.a, refs
      ensures Valid() && IsSpace(space)
      ensures killed <==> !(KeyOf(space, v) in old(leaf) && old(leaf)[KeyOf(space, v)].cow)
      ensures killed ==> View() == old(View())
      ensures eager == old(eager) && at == old(at)
      ensures !killed ==> KeyOf(space, v) in leaf && !leaf[KeyOf(space, v)].readOnly
      ensures !killed ==> |free| == |old(free)| - CopyCost(old(View()), KeyOf(space, v))
    {
      var page := v / PAGE_SIZE * PAGE_SIZE;
      PageBase(v);
      var cow := IsCowPage(space, page);
      if cow {
        assert LeafOk(View(), KeyOf(space, v)) && SimAt(View(), eager, KeyOf(space, v));
        CopyPageFrame(space, page);
        killed := false;
      } else {
        killed := true;
      }
    }

    /** A user load: what the MMU finds is the byte of the eager machine, and a
        page that is not mapped faults. */
    method UserLoad(space: int, v: nat) returns (ok: bool, b: Byte)
      requires Valid() && IsSpace(space)
      ensures ok <==> KeyOf(space, v) in eager
      ensures ok ==> |eager[KeyOf(space, v)].bytes| == PAGE_SIZE && b == eager[KeyOf(space, v)].bytes[v % PAGE_SIZE]
    {
      ghost var k := KeyOf(space, v);
      ResolveIsLookup(View(), k);
      var d := ram.Walk(space, PathOf(v));
      ok, b := d.valid, 0;
      if d.valid {
        assert LeafOk(View(), k) && SimAt(View(), eager, k);
        var bytes := ram.ReadData(d.frame);
        b := bytes[v % PAGE_SIZE];
      }
    }

    /** A user store, retried after each fault the handler resolves. It is
        admitted exactly when the eager machine admits it, changes that one
        byte of that one page, and faults at most once. */
    method UserStore(space: int, v: nat, b: Byte) returns (killed: bool, faults: nat)
      requires Valid() && IsSpace(space)
      requires KeyOf(space, v) in leaf && leaf[KeyOf(space, v)].readOnly && leaf[KeyOf(space, v)].cow ==>
                 CopyAffordable(View(), KeyOf(space, v))
      modifies this`free, this`at, this`leaf, this`eager, ram.a, refs
      ensures Valid() && at == old(at) && faults <= 1
      ensures killed <==> !(KeyOf(space, v) in old(eager) && old(eager)[KeyOf(space, v)].admitsWrite)
      ensures killed ==> View() == old(View()) && eager == old(eager)
      ensures !killed ==> |old(eager)[KeyOf(space, v)].bytes| == PAGE_SIZE &&
                          eager == EagerStore(old(eager), KeyOf(space, v), v % PAGE_SIZE, b)
      ensures !killed ==> |free| == |old(free)| - StoreCost(old(View()), KeyOf(space, v))
    {
      ghost var k := KeyOf(space, v);
      faults, killed := 0, false;
      ResolveIsLookup(View(), k);
      var d := ram.Walk(space, PathOf(v));
      assert k in leaf ==> SimAt(View(), eager, k);
      while !d.valid || d.readOnly
        invariant Valid() && at == old(at) && eager == old(eager) && faults <= 1 && !killed
        invariant faults == 0 ==> View() == old(View())
        invariant faults == 1 ==> d.valid && !d.readOnly
        invariant faults == 1 ==> |free| == |old(free)| - StoreCost(old(View()), k)
        invariant d.valid <==> k in leaf
        invariant d.valid ==> d == leaf[k]
        decreases 1 - faults
      {
        killed := HandlePageFault(space, v);
        faults := faults + 1;
        if killed {
          return;
        }
        ResolveIsLookup(View(), k);
        d := ram.Walk(space, PathOf(v));
      }
      StoreByte(d.frame, v, b, k);
    }

    /** The store itself, to a page that may be written. */
    method StoreByte(f: int, v: nat, b: Byte, ghost k: Key)
      requires Valid() && k in leaf && !leaf[k].readOnly && f == leaf[k].frame
      modifies this`eager, ram.a
      ensures Valid() && k in old(eager) && |old(eager)[k].bytes| == PAGE_SIZE && old(eager)[k].admitsWrite
      ensures eager == EagerStore(old(eager), k, v % PAGE_SIZE, b)
    {
      ghost var s := View();
      assert LeafOk(s, k) && SimAt(s, eager, k);
      var bytes := ram.ReadData(f);
      bytes := bytes[v % PAGE_SIZE := b];
      GoodStore(s, eager, k, bytes);
      ram.StoreData(f, bytes);
      eager := EagerStore(eager, k, v % PAGE_SIZE, b);
      assert View() == Poke(s, f, bytes);
    }

    /** A page frame for user data, with no references yet. */
    method TakePage() returns (f: int)
      requires Valid() && free != {}
      modifies this`free, ram.a
      ensures Valid() && IsData(View(), f) && refs[f] == 0 && Unheld(View(), f)
      ensures f in old(free) && free == old(free) - {f}
    {
      ghost var s := View();
      f := GetFreePage();
      GoodTake(s, eager, f, ram.Mem()[f].bytes);
      FreeUnreferenced(s, f);
    }

    /** The kernel writes a page through its frame. */
    method FillPage(f: int, bytes: seq<Byte>, ghost k: Key)
      requires Valid() && k in leaf && f == leaf[k].frame && |bytes| == PAGE_SIZE
      requires forall j | j in leaf && j != k :: leaf[j].frame != f
      modifies this`eager, ram.a
      ensures Valid() && eager == old(eager)[k := old(eager)[k].(bytes := bytes)]
    {
      ghost var s := View();
      GoodFill(s, eager, k, bytes);
      ram.StoreData(f, bytes);
      eager := eager[k := eager[k].(bytes := bytes)];
      assert View() == Poke(s, f, bytes);
    }

    /** Maps a page frame that nothing else refers to. */
    method MapTaken(space: int, v: nat, attr: Attr) returns (f: int)
      requires Valid() && IsSpace(space) && KeyOf(space, v) !in leaf
      requires |free| >= 1 + Missing(at, KeyOf(space, v), 1)
      modifies this`free, this`at, this`leaf, this`eager, ram.a, refs
      ensures Valid() && SpacesOf(at) == SpacesOf(old(at))
      ensures KeyOf(space, v) in leaf && leaf[KeyOf(space, v)] == MappedDesc(f, attr)
      ensures forall j | j in leaf && j != KeyOf(space, v) :: leaf[j].frame != f
      ensures eager.Keys == old(eager).Keys + {KeyOf(space, v)}
      ensures eager == old(eager)[KeyOf(space, v) := eager[KeyOf(space, v)]]
      ensures eager[KeyOf(space, v)].admitsWrite == !attr.readOnly
      ensures |free| == |old(free)| - 1 - Missing(old(at), KeyOf(space, v), 1)
    {
      f := TakePage();
      ghost var before := leaf;
      assert forall j | j in before :: before[j].frame != f;
      Map(space, v, f, attr);
      assert forall j | j in leaf && j != KeyOf(space, v) :: j in before && leaf[j] == before[j];
    }

    /** Maps a fresh page and fills it, as mmap does page by page. */
    method MapFresh(space: int, v: nat, bytes: seq<Byte>, attr: Attr)
      requires Valid() && IsSpace(space) && KeyOf(space, v) !in leaf && |bytes| == PAGE_SIZE
      requires |free| >= 1 + Missing(at, KeyOf(space, v), 1)
      modifies this`free, this`at, this`leaf, this`eager, ram.a, refs
      ensures Valid() && SpacesOf(at) == SpacesOf(old(at))
      ensures eager == old(eager)[KeyOf(space, v) := Page(bytes, !attr.readOnly)]
      ensures |free| == |old(free)| - 1 - Missing(old(at), KeyOf(space, v), 1)
    {
      var f := MapTaken(space, v, attr);
      FillPage(f, bytes, KeyOf(space, v));
    }

    /** Gives back the reference of one leaf entry. */
    method ReleaseLeaf(t: int, i: int, ghost k: Key)
      requires Inv(View(), k.space) && k in leaf && LeafOk(View(), k) && t == at[Parent(k)] && i == Last(k)
      modifies this`free, this`leaf, refs
      ensures View() == DropLeaf(old(View()), k)
    {
      var d := ram.ReadEntry(t, i);
      refs[d.frame] := refs[d.frame] - 1;
      if refs[d.frame] == 0 {
        KFree(d.frame);
      }
      leaf := leaf - {k};
    }

    /** Gives back everything below a table, depth first. Memory is not
        written: the entries stay behind in frames that are free by now. */
    method DfsKfreePage(t: int, level: nat, ghost here: Key)
      requires Inv(View(), here.space) && here in at && t == at[here] && level == |here.path|
      requires Full(View(), here.space, here.path)
      modifies this`free, this`at, this`leaf, refs
      ensures Inv(View(), here.space) && FreeRel(old(View()), View(), here.space, here.path, NR_ENTRIES)
      decreases 3 - level, 1
    {
      ghost var s0 := View();
      assert TableOk(s0, here);
      FreeRelStart(s0, here.space, here.path);
      for i := 0 to NR_ENTRIES
        invariant Inv(View(), here.space) && FreeRel(s0, View(), here.space, here.path, i)
      {
        FreeEntry(t, i, level, here, s0);
      }
    }

    /** Gives back what entry `i` leads to. */
    method FreeEntry(t: int, i: int, level: nat, ghost here: Key, ghost s0: Sys)
      requires Inv(s0, here.space) && here in s0.at && t == s0.at[here] && level == |here.path| && 0 <= i < NR_ENTRIES
      requires Full(s0, here.space, here.path)
      requires Inv(View(), here.space) && FreeRel(s0, View(), here.space, here.path, i)
      modifies this`free, this`at, this`leaf, refs
      ensures Inv(View(), here.space) && FreeRel(s0, View(), here.space, here.path, i + 1)
      decreases 3 - level, 0
    {
      ghost var s := View();
      ghost var c := Child(here, i);
      assert TableOk(s0, here);
      StillThere(s0, s, here, i);
      var d := ram.ReadEntry(t, i);
      if !d.valid {
        FreeRelSkip(s0, s, here.space, here.path, i);
      } else if level == 3 {
        DropLeafKeepsInv(s, c);
        ReleaseLeaf(t, i, c);
        UnheldAfterDrop(s, c);
        FreeRelLeaf(s0, s, View(), here.space, here.path, i);
      } else {
        ghost var s1 := ReleaseTable(d.frame, level + 1, c);
        FreeRelChild(s0, s, s1, here.space, here.path, i);
      }
    }

    /** Gives back a table with everything below it; `s1` is the state before
        its own frame goes. */
    method ReleaseTable(t: int, level: nat, ghost c: Key) returns (ghost s1: Sys)
      requires Inv(View(), c.space) && c in at && t == at[c] && level == |c.path| && |c.path| >= 1
      requires Full(View(), c.space, c.path)
      modifies this`free, this`at, this`leaf, refs
      ensures FreeRel(old(View()), s1, c.space, c.path, NR_ENTRIES) && c in s1.at && 0 <= s1.at[c] < NR_FRAMES
      ensures Inv(View(), c.space) && View() == DropTable(s1, c)
      decreases 3 - level, 2
    {
      ghost var s := View();
      DfsKfreePage(t, level, c);
      s1 := View();
      SubtreeGone(s, s1, c);
      DropTableKeepsInv(s1, c);
      KFree(t);
      at := at - {c};
      assert View() == DropTable(s1, c);
    }

    /** Parent and child share one page from now on. */
    method ShareEntry(oldTable: int, newTable: int, i: int, ghost a: Key, ghost b: Key)
      requires Sized(View()) && a in leaf && LeafOk(View(), a) && oldTable == at[Parent(a)] && i == Last(a)
      requires Slot(View(), b) && b !in leaf && newTable == at[Parent(b)] && i == Last(b) && oldTable != newTable
      modifies this`leaf, ram.a, refs
      ensures View() == Shared(old(View()), a, b)
    {
      ghost var s := View();
      var d := ram.ReadEntry(oldTable, i);
      var f := d.frame;
      ram.StoreShared(oldTable, newTable, i);
      refs[f] := refs[f] + 1;
      leaf := leaf[a := SharedDesc(f)][b := SharedDesc(f)];
      ghost var s1 := PutLeaf(s, a, SharedDesc(f));
      assert s1.refs == s.refs;
      assert ram.Mem() == PutEntry(s1, Parent(b), i, SharedDesc(f));
    }

    /** The walk that copies has come to entry `i` of the tables at `p`. */
    ghost predicate Copying(s0: Sys, oldTable: int, newTable: int, parent: int, child: int, p: seq<int>, i: int)
      reads this, ram.a, refs
    {
      && Inv(View(), NONE) && CopyRel(s0, View(), parent, child, p, i)
      && parent != child && parent != NONE && child != NONE
      && Key(parent, p) in s0.at && oldTable == s0.at[Key(parent, p)]
      && Key(child, p) in s0.at && newTable == s0.at[Key(child, p)]
      && Inv(s0, NONE) && Bare(s0, child, p) && |s0.free| >= |Passed(s0.at, parent, p, NR_ENTRIES)|
    }

    method CopyLeafEntry(oldTable: int, newTable: int, i: int, ghost parent: int, ghost child: int, ghost p: seq<int>,
                         ghost s0: Sys)
      requires Copying(s0, oldTable, newTable, parent, child, p, i) && |p| == 3 && 0 <= i < NR_ENTRIES
      requires EntryKnown(View(), Key(parent, p), i) && Entry(View(), Key(parent, p), i).valid
      modifies this`leaf, ram.a, refs
      ensures Copying(s0, oldTable, newTable, parent, child, p, i + 1)
    {
      ghost var s := View();
      ghost var a, b := Key(parent, p), Key(child, p);
      assert TableOk(s0, a) && TableOk(s, b) && EntryKnown(s, b, i) && Apart(s, a, b);
      BareEntry(s0, s, parent, child, p, i);
      assert LeafOk(s, Child(a, i));
      ChildParent(a, i);
      ChildParent(b, i);
      ShareKeepsInv(s, Child(a, i), Child(b, i));
      ShareShares(s, parent, child, p + [i]);
      ShareEntry(oldTable, newTable, i, Child(a, i), Child(b, i));
      CopyRelLeaf(s0, s, View(), parent, child, p, i);
    }

    method CopySubtree(subTable: int, newTable: int, level: nat, i: int, ghost oldTable: int, ghost parent: int,
                       ghost child: int, ghost p: seq<int>, ghost s0: Sys)
      requires Copying(s0, oldTable, newTable, parent, child, p, i) && level == |p| < 3 && 0 <= i < NR_ENTRIES
      requires Key(parent, p + [i]) in s0.at && subTable == s0.at[Key(parent, p + [i])]
      modifies this`free, this`at, this`leaf, ram.a, refs
      ensures Copying(s0, oldTable, newTable, parent, child, p, i + 1)
      decreases 3 - level, 0
    {
      ghost var s := View();
      ghost var b := Key(child, p);
      assert TableOk(s, b) && EntryKnown(s, b, i);
      BareEntry(s0, s, parent, child, p, i);
      PassedStep(s0, parent, p, i);
      PassedMonotone(s0.at, parent, p, i + 1, NR_ENTRIES);
      var c := GrowTable(newTable, i, b);
      ghost var s1 := View();
      AddTableKeepsInv(s, b, i, c, NONE);
      AddExtends(s, child, p, i, c);
      BareBelow(s0, s, s1, parent, child, p, i);
      SamePassed(s0, s, s1, parent, child, p, i);
      DfsCopyPageTables(subTable, c, level + 1, parent, child, p + [i]);
      CopyRelChild(s0, s, s1, View(), parent, child, p, i);
    }

    /** Copies the tables below the parent's table at `p` for the child and
        shares every page. */
    method DfsCopyPageTables(oldTable: int, newTable: int, level: nat, ghost parent: int, ghost child: int,
                             ghost p: seq<int>)
      requires Inv(View(), NONE) && parent != child && parent != NONE && child != NONE && level == |p|
      requires Key(parent, p) in at && oldTable == at[Key(parent, p)]
      requires Key(child, p) in at && newTable == at[Key(child, p)]
      requires Bare(View(), child, p) && |free| >= |Passed(at, parent, p, NR_ENTRIES)|
      modifies this`free, this`at, this`leaf, ram.a, refs
      ensures Inv(View(), NONE) && CopyRel(old(View()), View(), parent, child, p, NR_ENTRIES)
      decreases 3 - level, 2
    {
      ghost var s0 := View();
      assert TableOk(s0, Key(parent, p)) && TableOk(s0, Key(child, p));
      CopyRelStart(s0, parent, child, p);
      for i := 0 to NR_ENTRIES
        invariant Copying(s0, oldTable, newTable, parent, child, p, i)
      {
        CopyEntry(oldTable, newTable, level, i, parent, child, p, s0);
      }
    }

    /** Copies what entry `i` leads to. */
    method CopyEntry(oldTable: int, newTable: int, level: nat, i: int, ghost parent: int, ghost child: int,
                     ghost p: seq<int>, ghost s0: Sys)
      requires Copying(s0, oldTable, newTable, parent, child, p, i) && level == |p| && 0 <= i < NR_ENTRIES
      modifies this`free, this`at, this`leaf, ram.a, refs
      ensures Copying(s0, oldTable, newTable, parent, child, p, i + 1)
      decreases 3 - level, 1
    {
      assert TableOk(s0, Key(parent, p));
      assert EntryKnown(s0, Key(parent, p), i) && EntryKnown(View(), Key(parent, p), i);
      EntryAgrees(s0, View(), parent, child, p, i);
      var d := ram.ReadEntry(oldTable, i);
      if !d.valid {
        CopyRelSkip(s0, View(), parent, child, p, i);
      } else if level == 3 {
        CopyLeafEntry(oldTable, newTable, i, parent, child, p, s0);
      } else {
        CopySubtree(d.frame, newTable, level, i, oldTable, parent, child, p, s0);
      }
    }

    /** Fork: the new space `child` gets every page of `parent`. In the eager
        machine all pages are copied at once; here only tables are. */
    method CopyFrom(child: int, parent: int)
      requires Valid() && IsSpace(parent) && IsSpace(child) && parent != child && OnlyRoot(View(), child)
      requires |free| >= |Passed(at, parent, [], NR_ENTRIES)|
      modifies this`free, this`at, this`leaf, this`eager, ram.a, refs
      ensures Valid() && SpacesOf(at) == SpacesOf(old(at))
      ensures eager == EagerFork(old(eager), parent, child)
      ensures |free| == |old(free)| - |Passed(old(at), parent, [], NR_ENTRIES)|
      ensures forall k :: Lookup(leaf, k) == ForkedLeaf(old(leaf), parent, child, k)
    {
      ghost var s0 := View();
      assert TableOk(s0, Key(parent, [])) && TableOk(s0, Key(child, []));
      assert Bare(s0, child, []);
      DfsCopyPageTables(parent, child, 0, parent, child, []);
      SameSpaces(old(at), at);
      ForkLeaves(s0, View(), parent, child);
      ForkSim(s0, View(), parent, child, eager);
      eager := EagerFork(eager, parent, child);
    }

    /** Empties a space: every table but the top one is freed, and every data
        frame whose last reference was in this space. */
    method Reset(space: int)
      requires Valid() && IsSpace(space)
      modifies this`free, this`at, this`leaf, this`eager, ram.a, refs
      ensures Valid() && OnlyRoot(View(), space) && SpacesOf(at) == SpacesOf(old(at))
      ensures eager == EagerReset(old(eager), space)
      ensures forall k: Key | k.space != space :: k in at <==> k in old(at)
      ensures forall k | k in at :: k in old(at) && at[k] == old(at)[k]
      ensures forall k | k in leaf :: k in old(leaf) && leaf[k] == old(leaf)[k]
      ensures forall f :: f in free <==> f in old(free) || GivenBack(old(View()), View(), f)
    {
      ghost var s0 := View();
      ghost var root := Key(space, []);
      assert TableOk(s0, root);
      BeginTeardown(s0, space);
      DfsKfreePage(space, 0, root);
      ghost var s1 := View();
      TornDown(s0, s1, space);
      SameSpaces(old(at), at);
      ZeroRootKeepsInv(s1, space);
      ram.ClearFrame(space);
      assert View() == ZeroRoot(s1, space);
      ResetSim(s0, View(), space, eager);
      eager := EagerReset(eager, space);
    }

    /** The end of a space: after this nothing of it is left. */
    method Destroy(space: int)
      requires Valid() && IsSpace(space)
      modifies this`free, this`at, this`leaf, this`eager, ram.a, refs
      ensures Valid() && eager == EagerReset(old(eager), space)
      ensures forall k: Key | k in at || k in leaf :: k.space != space
      ensures space in free && SpacesOf(at) == SpacesOf(old(at)) - {space}
      ensures forall f :: f in free <==> f in old(free) || GivenBack(old(View()), View(), f)
    {
      ghost var s0 := View();
      Reset(space);
      ghost var s := View();
      ghost var root := Key(space, []);
      assert TableOk(s, root);
      DropRoot(s, space);
      KFree(space);
      at := at - {root};
      assert View() == DropTable(s, root);
      SimSame(s, View(), eager);
      SpaceGone(s.at, space);
      RootGivenBack(s0, s, View(), space);
    }
  }

  /** What fork leaves at page `k`. */
  ghost function ForkedLeaf(leaf: map<Key, Desc>, parent: int, child: int, k: Key): Desc {
    if k.space == parent || k.space == child then
      var o := Key(parent, k.path);
      if o in leaf then SharedDesc(leaf[o].frame) else EMPTY
    else Lookup(leaf, k)
  }

  lemma ForkLeaves(s0: Sys, s: Sys, parent: int, child: int)
    requires CopyRel(s0, s, parent, child, [], NR_ENTRIES) && Structured(s0) && Structured(s) && OnlyRoot(s0, child)
    ensures forall k :: Lookup(s.leaf, k) == ForkedLeaf(s0.leaf, parent, child, k)
  {
    forall k ensures Lookup(s.leaf, k) == ForkedLeaf(s0.leaf, parent, child, k) {
      ForkLeafAt(s0, s, parent, child, k);
    }
  }

  lemma ForkLeafAt(s0: Sys, s: Sys, parent: int, child: int, k: Key)
    requires Sized(s0) && Structured(s0) && OnlyRoot(s0, child)
    requires Lookup(s.leaf, k) == ForkAt(s0.leaf, parent, child, [], NR_ENTRIES, k)
    ensures Lookup(s.leaf, k) == ForkedLeaf(s0.leaf, parent, child, k)
  {
    if k in s0.leaf { assert LeafOk(s0, k); PathInRange(s0, k); }
    var o := Key(parent, k.path);
    if o in s0.leaf { assert LeafOk(s0, o); PathInRange(s0, o); }
  }

  /** The heart of copy-on-write: sharing every page looks to both sides as if
      every page had been copied. */
  lemma ForkSim(s0: Sys, s: Sys, parent: int, child: int, e: Eager)
    requires Sized(s0) && Structured(s0) && Sized(s) && Structured(s) && Sim(s0, e) && OnlyRoot(s0, child)
    requires forall k :: Lookup(s.leaf, k) == ForkedLeaf(s0.leaf, parent, child, k)
    requires forall f | IsData(s0, f) :: IsData(s, f) && s.mem[f] == s0.mem[f]
    ensures Sim(s, EagerFork(e, parent, child))
  {
    var e' := EagerFork(e, parent, child);
    forall k
      ensures k in e' <==> k in s.leaf
    {
      LeafLookup(s, k);
      LeafLookup(s0, k);
      assert k.space == child ==> (k.path in PathsOf(e, parent) <==> Key(parent, k.path) in e);
    }
    forall k | k in s.leaf
      ensures SimAt(s, e', k)
    {
      LeafLookup(s, k);
      var o := Key(parent, k.path);
      if k.space == parent || k.space == child { assert SimAt(s0, e, o); } else { assert SimAt(s0, e, k); }
    }
  }

  lemma BeginTeardown(s: Sys, space: int)
    requires Inv(s, NONE) && Key(space, []) in s.at
    ensures Inv(s, space) && Full(s, space, [])
  {
    forall k, i | k in s.at && 0 <= i < NR_ENTRIES ensures EntryKnown(s, k, i) {
      assert TableOk(s, k);
      if k.path != [] {
        PrefixesAreTables(s, k, 0);
        assert k.path[..0] == [];
      }
      assert TableOk(s, Key(k.space, []));
    }
  }

  lemma TornDown(s0: Sys, s: Sys, space: int)
    requires Sized(s0) && Structured(s0) && FreeRel(s0, s, space, [], NR_ENTRIES) && Key(space, []) in s0.at
    ensures OnlyRoot(s, space)
    ensures forall k :: k in s.leaf <==> k in s0.leaf && k.space != space
    ensures forall k: Key | k.space != space :: k in s.at <==> k in s0.at
  {
    forall k | k in s0.at || k in s0.leaf
      ensures Gone(k, space, [], NR_ENTRIES) <==> k.space == space && k.path != []
    {
      PathInRange(s0, k);
    }
    forall k | k in s0.leaf ensures k.path != [] { assert LeafOk(s0, k); }
  }

  lemma ResetSim(s0: Sys, s: Sys, space: int, e: Eager)
    requires Sized(s0) && Sized(s) && Sim(s0, e) && Structured(s)
    requires forall k :: k in s.leaf <==> k in s0.leaf && k.space != space
    requires forall k | k in s.leaf :: s.leaf[k] == s0.leaf[k]
    requires forall f | IsData(s0, f) && f != space :: s.mem[f] == s0.mem[f]
    requires 0 <= space < NR_FRAMES && s0.mem[space].Table?
    ensures Sim(s, EagerReset(e, space))
  {
    forall k | k in s.leaf ensures SimAt(s, EagerReset(e, space), k) {
      assert SimAt(s0, e, k) && LeafOk(s, k);
    }
  }

  lemma RootGivenBack(s0: Sys, s: Sys, s': Sys, space: int)
    requires Key(space, []) in s0.at && s0.at[Key(space, [])] == space && Key(space, []) in s.at
    requires s'.free == s.free + {space} && s'.at == s.at - {Key(space, [])} && s'.leaf == s.leaf
    requires forall f :: f in s.free <==> f in s0.free || GivenBack(s0, s, f)
    ensures forall f :: f in s'.free <==> f in s0.free || GivenBack(s0, s', f)
  {
    forall f ensures f in s'.free <==> f in s0.free || GivenBack(s0, s', f) {
      assert Unheld(s', f) == Unheld(s, f);
    }
  }

  lemma DropRoot(s: Sys, space: int)
    requires Inv(s, NONE) && OnlyRoot(s, space)
    ensures Inv(DropTable(s, Key(space, [])), NONE)
    ensures SameData(s, DropTable(s, Key(space, [])))
  {
    var root := Key(space, []);
    var s' := DropTable(s, root);
    assert TableOk(s, root);
    BeginTeardown(s, space);
    assert Childless(s, root) by {
      forall j: Key | (j in s.at || j in s.leaf) && j.path != [] ensures Parent(j) != root {
        assert j.space == space ==> j.path == [];
      }
    }
    DropTableKeepsInv(s, root);
    forall k, i | k in s'.at && k.space != NONE && 0 <= i < NR_ENTRIES ensures EntryKnown(s', k, i) {
    }
  }

  lemma UnheldAfterDrop(s: Sys, k: Key)
    requires Sized(s) && Counted(s) && k in s.leaf && 0 <= s.leaf[k].frame < NR_FRAMES
    ensures s.refs[s.leaf[k].frame] == 1 <==> Unheld(DropLeaf(s, k), s.leaf[k].frame)
  {
    LastReference(s, k);
    assert forall j :: j in DropLeaf(s, k).leaf <==> j in s.leaf && j != k;
  }

  /** The kernel may fill the frame of a page that nobody shares. */
  lemma GoodFill(s: Sys, e: Eager, k: Key, bytes: seq<Byte>)
    requires Good(s, e) && k in s.leaf && |bytes| == PAGE_SIZE
    requires forall j | j in s.leaf && j != k :: s.leaf[j].frame != s.leaf[k].frame
    ensures LeafOk(s, k) && Good(Poke(s, s.leaf[k].frame, bytes), e[k := e[k].(bytes := bytes)])
  {
    assert LeafOk(s, k);
    PokeKeepsInv(s, s.leaf[k].frame, bytes, NONE);
    SimStore(s, e, k, bytes);
  }

  /** Frames that giving page `k` a frame of its own takes. */
  ghost function CopyCost(s: Sys, k: Key): nat {
    if k in s.leaf && 0 <= s.leaf[k].frame < |s.refs| && s.refs[s.leaf[k].frame] != 1 then 1 else 0
  }

  /** Frames that a store to page `k` takes. */
  ghost function StoreCost(s: Sys, k: Key): nat {
    if k in s.leaf && s.leaf[k].readOnly then CopyCost(s, k) else 0
  }

  /** A copy can be made: the frame is not shared, or a free one is left. */
  ghost predicate CopyAffordable(s: Sys, k: Key) {
    Sized(s) && k in s.leaf && LeafOk(s, k) && (s.refs[s.leaf[k].frame] != 1 ==> s.free != {})
  }

  lemma PageBase(v: nat)
    ensures PathOf(v / PAGE_SIZE * PAGE_SIZE) == PathOf(v)
  {
    var w := v / PAGE_SIZE * PAGE_SIZE;
    assert w / 0x1000 == v / 0x1000;
    assert PageNumber(w) == PageNumber(v);
    PathIsPageNumber(w, v);
  }

  lemma MissingOnWay(s: Sys, k: Key, n: nat)
    requires Sized(s) && Structured(s) && |k.path| == 4 && n <= 3 && Key(k.space, k.path[..n]) !in s.at
    ensures Parent(k) !in s.at
  {
    assert Parent(k).path[..n] == k.path[..n];
    if n < 3 && Parent(k) in s.at {
      PrefixesAreTables(s, Parent(k), n);
    }
  }

  lemma {:induction false} MissingBeyond(at: map<Key, int>, k: Key, n: nat, t: int, m: nat)
    requires |k.path| == 4 && n < m && n <= 3
    ensures Missing(at[Key(k.space, k.path[..n]) := t], k, m) == Missing(at, k, m)
    decreases 5 - m
  {
    if m < 4 {
      assert |k.path[..n]| != |k.path[..m]|;
      MissingBeyond(at, k, n, t, m + 1);
    }
  }
}
