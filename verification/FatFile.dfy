/** Files of a FAT32 volume: FAT32Inode::set_content and get_content with the
    table and cluster accessors under them. */
module FatFile {
  import opened Lists
  import opened KMath
  import opened FatVolume
  import Buffers
  import opened Fat32

  const DIRECTORY_ATTRIBUTE := 0x10

  /** What an inode remembers of its directory entry. */
  datatype Node = Node(first: int, parent: int, offset: nat, isRegular: bool)

  datatype Buffer = Null | Bytes(bytes: seq<int>)

  /** The number of blocks a file of `size` bytes takes: at least one. */
  function Blocks(size: nat): nat { if size <= SECTOR then 1 else (size + 511) / SECTOR }

  /** The entry lies in a cluster of a directory, which is in use. */
  ghost predicate NodeOk(g: Geometry, d: Disk, at: Node)
    requires DiskOk(g, d)
  {
    && at.offset + ENTRY <= SECTOR
    && (IsEoc(at.parent) || (OnDisk(g, d, at.parent) && !IsFree(g, d, at.parent)))
  }

  /** The directory sector after a save that stored the blocks `l`. */
  function Recorded(s: Sector, at: Node, l: seq<int>, size: nat): (r: Sector)
    requires at.offset + ENTRY <= |s|
    ensures |r| == |s|
  {
    var s1 := if at.first == 0 && l != [] then SetEntryFirst(s, at.offset, l[0]) else s;
    if |l| == Blocks(size) then SetEntrySize(s1, at.offset, size) else s1
  }

  // ---- what a save touches ------------------------------------------------------------------

  /** Sectors a save may change: the first table, the sector of the directory
      entry, and those of the clusters it took. */
  ghost predicate Touched(g: Geometry, l: seq<int>, parent: int, s: int) {
    || g.reserved <= s < g.reserved + g.tableSize
    || s == ClusterSector(g, parent)
    || exists n :: n in l && s == ClusterSector(g, n)
  }

  ghost predicate Framed(g: Geometry, d0: Disk, d: Disk, l: seq<int>, parent: int) {
    |d| == |d0| && forall s {:trigger d[s]} | 0 <= s < |d0| && !Touched(g, l, parent, s) :: d[s] == d0[s]
  }

  lemma FramedEdit(g: Geometry, d0: Disk, d: Disk, l: seq<int>, parent: int, block: Sector)
    requires Framed(g, d0, d, l, parent) && OnDisk(g, d, parent)
    ensures Framed(g, d0, PutCluster(g, d, parent, block), l, parent)
  {
    ClusterSectorInData(g, parent);
  }

  lemma FramedExtend(g: Geometry, d0: Disk, d: Disk, l: seq<int>, parent: int, prev: int, curr: int, block: Sector)
    requires DiskOk(g, d) && 2 <= curr < NrEntries(g) && |block| == SECTOR && 0 <= prev < NrEntries(g) && prev != curr
    requires Framed(g, d0, d, l, parent)
    ensures Framed(g, d0, Extend(g, d, prev, curr, block), l + [curr], parent)
  {
    var d' := Extend(g, d, prev, curr, block);
    ExtendSpec(g, d, prev, curr, block);
    forall s | 0 <= s < |d0| && !Touched(g, l + [curr], parent, s) ensures d'[s] == d0[s] {
      assert curr in l + [curr] && forall n | n in l :: n in l + [curr];
      assert !Touched(g, l, parent, s);
      ExtendFrame(g, d, prev, curr, block, s);
    }
  }

  lemma ExtendFrame(g: Geometry, d: Disk, prev: int, curr: int, block: Sector, s: int)
    requires DiskOk(g, d) && 2 <= curr < NrEntries(g) && |block| == SECTOR && 0 <= prev < NrEntries(g)
    requires 0 <= s < |d| && !(g.reserved <= s < g.reserved + g.tableSize) && s != ClusterSector(g, curr)
    ensures |Extend(g, d, prev, curr, block)| == |d| && Extend(g, d, prev, curr, block)[s] == d[s]
  {
    StoreClusterSpec(g, d, curr, block);
    SectorInTable(g, curr);
    SectorInTable(g, prev);
    ClusterSectorInData(g, curr);
    var d1 := StoreCluster(g, d, curr, block);
    PutFatSpec(g, d1, curr, EOC_MAX);
  }

  /** A save leaves every sector alone but those of the first table, of the
      directory entry and of the clusters it took. */
  lemma SavedElsewhere(g: Geometry, d0: Disk, d: Disk, at: Node, content: seq<int>, size: nat, l: seq<int>, s: int)
    requires Saved(g, d0, d, at, content, size, l) && 0 <= s < |d0|
    requires !(g.reserved <= s < g.reserved + g.tableSize)
    requires forall n | n in l || n == at.parent :: s != g.reserved + 2 * g.tableSize + (n - 2) * g.sectorsPerCluster
    ensures |d| == |d0| && d[s] == d0[s]
  {
  }

  /** In particular the reserved sectors and the second table stay as they are. */
  lemma SecondTableStays(g: Geometry, d0: Disk, d: Disk, at: Node, content: seq<int>, size: nat, l: seq<int>, s: int)
    requires Saved(g, d0, d, at, content, size, l) && 0 <= s < |d0|
    requires s < g.reserved || g.reserved + g.tableSize <= s < g.reserved + 2 * g.tableSize
    ensures |d| == |d0| && d[s] == d0[s]
  {
    forall n | n in l || n == at.parent ensures s != g.reserved + 2 * g.tableSize + (n - 2) * g.sectorsPerCluster {
      if n in l {
        var i :| 0 <= i < |l| && l[i] == n;
        ChainInUse(g, d0, d, l, content, at.parent, i);
      }
      ClusterSectorInData(g, n);
    }
    SavedElsewhere(g, d0, d, at, content, size, l, s);
  }

  /** All that a save leaves behind, the list of clusters it took being `l`. */
  ghost predicate Saved(g: Geometry, d0: Disk, d: Disk, at: Node, content: seq<int>, size: nat, l: seq<int>) {
    && Written(g, d0, d, l, content, at.parent) && Lowest(g, d, l)
    && NodeOk(g, d0, at) && at.parent !in l
    && |l| <= Blocks(size) && (|l| < Blocks(size) ==> FreeEntries(g, d) == {})
    && Framed(g, d0, d, l, at.parent)
    && (OnDisk(g, d, at.parent) ==> Cluster(g, d, at.parent) == Recorded(Cluster(g, d0, at.parent), at, l, size))
  }

  lemma EditKeepsCore(g: Geometry, d0: Disk, d: Disk, d': Disk, l: seq<int>, content: seq<int>, skip: int)
    requires Written(g, d0, d, l, content, skip) && Lowest(g, d, l) && skip !in l
    requires DiskOk(g, d') && |d'| == |d|
    requires forall j | 0 <= j < NrEntries(g) :: Fat(g, d', j) == Fat(g, d, j)
    requires forall m | OnDisk(g, d, m) && m != skip :: Cluster(g, d', m) == Cluster(g, d, m)
    ensures Written(g, d0, d', l, content, skip) && Lowest(g, d', l)
    ensures FreeEntries(g, d') == FreeEntries(g, d)
  {
    forall i | 0 <= i < |l| ensures BlockOk(g, d0, d', l, content, i) && LinkOk(g, d', l, i) {
      assert BlockOk(g, d0, d, l, content, i) && LinkOk(g, d, l, i);
    }
    forall i, f | 0 <= i < |l| && IsFree(g, d', f) ensures l[i] < f { assert IsFree(g, d, f); }
  }

  /** Rewriting the directory sector disturbs neither the chain nor the table. */
  lemma EditKeeps(g: Geometry, d0: Disk, d: Disk, l: seq<int>, content: seq<int>, parent: int, block: Sector)
    requires Written(g, d0, d, l, content, parent) && Lowest(g, d, l) && OnDisk(g, d, parent)
    requires parent !in l && |block| == SECTOR
    ensures var d' := PutCluster(g, d, parent, block);
            && Written(g, d0, d', l, content, parent) && Lowest(g, d', l)
            && Cluster(g, d', parent) == block
            && FreeEntries(g, d') == FreeEntries(g, d)
            && (ReservedInUse(g, d) ==> ReservedInUse(g, d'))
  {
    PutClusterSpec(g, d, parent, block);
    EditKeepsCore(g, d0, d, PutCluster(g, d, parent, block), l, content, parent);
  }

  // ---- can it be read back? ----------------------------------------------------------------

  /** Where a lookup starts reading: an entry without a first cluster is taken for
      the root directory. */
  function Start(root: int, first: int): int { if first == 0 then root else first }

  /** A lookup of the entry and a read give `size` bytes of `content`. */
  ghost predicate Readable(g: Geometry, d: Disk, root: int, at: Node, content: seq<int>, size: nat)
    requires DiskOk(g, d) && OnDisk(g, d, at.parent) && at.offset + ENTRY <= SECTOR && 512 * Blocks(size) <= |content|
  {
    var entry := Cluster(g, d, at.parent);
    EntrySize(entry, at.offset) == size &&
      Stores(g, d, Start(root, EntryFirst(entry, at.offset)), content, Blocks(size))
  }

  /** The disk with nothing changed but the size in the entry. */
  function Resized(g: Geometry, d: Disk, at: Node, size: nat): (r: Disk)
    requires DiskOk(g, d) && OnDisk(g, d, at.parent) && at.offset + ENTRY <= SECTOR
    ensures DiskOk(g, r) && |r| == |d|
  {
    var s := SetEntrySize(Cluster(g, d, at.parent), at.offset, size);
    PutClusterSpec(g, d, at.parent, s);
    PutCluster(g, d, at.parent, s)
  }

  /** The save moves the entry to a new chain: the inode knows of no first
      cluster and the table is not full. */
  ghost predicate Moves(g: Geometry, d0: Disk, at: Node)
    requires DiskOk(g, d0)
  {
    at.first == 0 && FreeEntries(g, d0) != {}
  }

  /** When a save can be read back, said of the disk before it. A save that moves
      the entry needs room on the disk. Any other leaves the entry where it
      points, so the bytes must be there already, up to the size it records in
      the entry if the table has room for the new chain. */
  ghost predicate WillRead(g: Geometry, d0: Disk, root: int, at: Node, content: seq<int>, size: nat)
    requires DiskOk(g, d0) && OnDisk(g, d0, at.parent) && at.offset + ENTRY <= SECTOR && 512 * Blocks(size) <= |content|
  {
    if Moves(g, d0, at) then Blocks(size) <= |FreeOnDisk(g, d0)|
    else
      var start := Start(root, EntryFirst(Cluster(g, d0, at.parent), at.offset));
      if Blocks(size) <= |FreeEntries(g, d0)| then Stores(g, Resized(g, d0, at, size), start, content, Blocks(size))
      else EntrySize(Cluster(g, d0, at.parent), at.offset) == size && Stores(g, d0, start, content, Blocks(size))
  }

  /** Whatever the inode and the entry say of a first cluster, a save can be read
      back exactly under that condition. `c` is the chain the entry leads to; if
      the entry stays it must come to an end before a free entry. */
  lemma SavedReadableIff(g: Geometry, d0: Disk, d: Disk, root: int, at: Node, content: seq<int>, size: nat,
                         l: seq<int>, c: seq<int>)
    requires Saved(g, d0, d, at, content, size, l) && ReservedInUse(g, d0) && !IsEoc(at.parent)
    requires 512 * Blocks(size) <= |content| && size < Buffers.TWO_32
    requires !Moves(g, d0, at) ==>
               Linked(g, d0, c) && c[0] == Start(root, EntryFirst(Cluster(g, d0, at.parent), at.offset))
    ensures Readable(g, d, root, at, content, size) <==> WillRead(g, d0, root, at, content, size)
  {
    if Moves(g, d0, at) { ReadableWhenMoved(g, d0, d, root, at, content, size, l); }
    else { ReadableWhenStayed(g, d0, d, root, at, content, size, l, c); }
  }

  lemma ReadableWhenMoved(g: Geometry, d0: Disk, d: Disk, root: int, at: Node, content: seq<int>, size: nat,
                          l: seq<int>)
    requires Saved(g, d0, d, at, content, size, l) && ReservedInUse(g, d0) && !IsEoc(at.parent)
    requires 512 * Blocks(size) <= |content| && size < Buffers.TWO_32 && Moves(g, d0, at)
    ensures Readable(g, d, root, at, content, size) <==> Blocks(size) <= |FreeOnDisk(g, d0)|
  {
    ChainLength(g, d0, d, at, content, size, l);
    EntryAfter(g, d0, d, at, content, size, l);
    MovedReadableIff(g, d0, d, at, content, size, l);
  }

  lemma ReadableWhenStayed(g: Geometry, d0: Disk, d: Disk, root: int, at: Node, content: seq<int>, size: nat,
                           l: seq<int>, c: seq<int>)
    requires Saved(g, d0, d, at, content, size, l) && !IsEoc(at.parent)
    requires 512 * Blocks(size) <= |content| && size < Buffers.TWO_32 && !Moves(g, d0, at)
    requires Linked(g, d0, c) && c[0] == Start(root, EntryFirst(Cluster(g, d0, at.parent), at.offset))
    ensures Readable(g, d, root, at, content, size) <==> WillRead(g, d0, root, at, content, size)
  {
    ChainLength(g, d0, d, at, content, size, l);
    EntryAfter(g, d0, d, at, content, size, l);
    StayedReadableIff(g, d0, d, root, at, content, size, l, c);
  }

  /** The entry's fields after a save. */
  lemma EntryAfter(g: Geometry, d0: Disk, d: Disk, at: Node, content: seq<int>, size: nat, l: seq<int>)
    requires Saved(g, d0, d, at, content, size, l) && size < Buffers.TWO_32
    requires OnDisk(g, d0, at.parent) && OnDisk(g, d, at.parent)
    ensures var was, entry := Cluster(g, d0, at.parent), Cluster(g, d, at.parent);
            && EntryFirst(entry, at.offset) == (if at.first == 0 && l != [] then l[0] else EntryFirst(was, at.offset))
            && EntrySize(entry, at.offset) == (if |l| == Blocks(size) then size else EntrySize(was, at.offset))
  {
    var was := Cluster(g, d0, at.parent);
    if l != [] {
      ChainInUse(g, d0, d, l, content, at.parent, 0);
      SetEntryFirstSpec(was, at.offset, l[0]);
    }
    var s1 := if at.first == 0 && l != [] then SetEntryFirst(was, at.offset, l[0]) else was;
    SetEntrySizeSpec(s1, at.offset, size);
  }

  /** As many clusters are taken as there are, up to the number of blocks. */
  lemma ChainLength(g: Geometry, d0: Disk, d: Disk, at: Node, content: seq<int>, size: nat, l: seq<int>)
    requires Saved(g, d0, d, at, content, size, l)
    ensures |l| == Blocks(size) <==> Blocks(size) <= |FreeEntries(g, d0)|
    ensures l == [] <==> FreeEntries(g, d0) == {}
    ensures |l| < Blocks(size) ==> |l| >= |FreeOnDisk(g, d0)|
  {
    FreeLeft(g, d0, d, l, content, at.parent);
    if |l| < Blocks(size) { OutOfRoom(g, d0, d, l, content, at.parent); }
  }

  /** A new chain from the entry holds the bytes exactly when the disk had room. */
  lemma MovedReadableIff(g: Geometry, d0: Disk, d: Disk, at: Node, content: seq<int>, size: nat, l: seq<int>)
    requires Saved(g, d0, d, at, content, size, l) && ReservedInUse(g, d0) && l != []
    requires 512 * Blocks(size) <= |content|
    ensures 2 <= l[0]
    ensures |l| == Blocks(size) && Stores(g, d, l[0], content, Blocks(size)) <==> Blocks(size) <= |FreeOnDisk(g, d0)|
    ensures Stores(g, d, l[0], content, Blocks(size)) ==> |l| == Blocks(size)
  {
    ChainInUse(g, d0, d, l, content, at.parent, 0);
    ChainLength(g, d0, d, at, content, size, l);
    AllOnDiskIff(g, d0, d, l, content, at.parent);
    if |l| == Blocks(size) {
      if |l| <= |FreeOnDisk(g, d0)| { WrittenHolds(g, d0, d, l, content, at.parent); }
      if Stores(g, d, l[0], content, |l|) { StoredChain(g, d0, d, l, content, at.parent); }
    }
    if Stores(g, d, l[0], content, Blocks(size)) {
      var k :| Chain(g, d, k) && k[0] == l[0] && |k| == Blocks(size) && Holds(g, d, k, content);
      ChainUnique(g, d, k, l);
    }
  }

  /** What the entry led to before, it still leads to. */
  lemma StayedReadableIff(g: Geometry, d0: Disk, d: Disk, root: int, at: Node, content: seq<int>, size: nat,
                          l: seq<int>, c: seq<int>)
    requires Saved(g, d0, d, at, content, size, l) && !IsEoc(at.parent) && (at.first == 0 ==> l == [])
    requires 512 * Blocks(size) <= |content| && Linked(g, d0, c)
    ensures var now := if |l| == Blocks(size) then Resized(g, d0, at, size) else d0;
            Stores(g, d, c[0], content, Blocks(size)) <==> Stores(g, now, c[0], content, Blocks(size))
  {
    var now := if |l| == Blocks(size) then Resized(g, d0, at, size) else d0;
    PutClusterSpec(g, d0, at.parent, SetEntrySize(Cluster(g, d0, at.parent), at.offset, size));
    SameChain(g, d0, now, c);
    OldChainKept(g, d0, d, l, content, at.parent, c);
    forall i | 0 <= i < |c| && OnDisk(g, d, c[i]) ensures Cluster(g, d, c[i]) == Cluster(g, now, c[i]) {
    }
    StoresSame(g, d, now, c, content, Blocks(size));
    StoresSame(g, now, d, c, content, Blocks(size));
  }

  lemma SameChain(g: Geometry, d: Disk, d': Disk, c: seq<int>)
    requires DiskOk(g, d) && DiskOk(g, d') && |d'| == |d| && Linked(g, d, c)
    requires forall j | 0 <= j < NrEntries(g) :: Fat(g, d', j) == Fat(g, d, j)
    ensures Linked(g, d', c)
  {
    forall i | 0 <= i < |c| ensures LinkOk(g, d', c, i) && !IsFree(g, d', c[i]) { assert LinkOk(g, d, c, i); }
  }

  /** A chain that leaves the disk stores nothing; one that does not stores what
      its clusters hold. */
  lemma StoresSame(g: Geometry, d: Disk, d': Disk, c: seq<int>, content: seq<int>, blocks: nat)
    requires DiskOk(g, d) && DiskOk(g, d') && |d'| == |d| && Linked(g, d, c) && Linked(g, d', c)
    requires 512 * blocks <= |content|
    requires forall i | 0 <= i < |c| && OnDisk(g, d, c[i]) :: Cluster(g, d', c[i]) == Cluster(g, d, c[i])
    ensures Stores(g, d, c[0], content, blocks) ==> Stores(g, d', c[0], content, blocks)
  {
    if Stores(g, d, c[0], content, blocks) {
      var k :| Chain(g, d, k) && k[0] == c[0] && |k| == blocks && Holds(g, d, k, content);
      ChainUnique(g, d, k, c);
      assert Chain(g, d', c) && Holds(g, d', c, content);
    }
  }

  /** A chain in use keeps its links, and its clusters except the one the entry
      lies in. */
  lemma OldChainKept(g: Geometry, d0: Disk, d: Disk, l: seq<int>, content: seq<int>, skip: int, c: seq<int>)
    requires Written(g, d0, d, l, content, skip) && Linked(g, d0, c)
    ensures Linked(g, d, c)
    ensures forall i | 0 <= i < |c| && c[i] != skip && OnDisk(g, d, c[i]) :: Cluster(g, d, c[i]) == Cluster(g, d0, c[i])
  {
    forall i | 0 <= i < |c|
      ensures LinkOk(g, d, c, i) && !IsFree(g, d, c[i])
      ensures c[i] != skip && OnDisk(g, d, c[i]) ==> Cluster(g, d, c[i]) == Cluster(g, d0, c[i])
    {
      assert LinkOk(g, d0, c, i);
      if c[i] in l {
        var j :| 0 <= j < |l| && l[j] == c[i];
        ChainInUse(g, d0, d, l, content, skip, j);
      }
    }
  }

  // ---- the four cases of inode and entry ---------------------------------------------------

  /** An inode that knows of no first cluster, as the one a file is created with,
      can save any number of times: each save that fits is read back, whatever
      the entry named before. */
  lemma CreatorCanSaveAgain(g: Geometry, d0: Disk, d: Disk, root: int, at: Node, content: seq<int>, size: nat,
                            l: seq<int>)
    requires Saved(g, d0, d, at, content, size, l) && ReservedInUse(g, d0) && !IsEoc(at.parent)
    requires 512 * Blocks(size) <= |content| && size < Buffers.TWO_32
    requires at.first == 0 && Blocks(size) <= |FreeOnDisk(g, d0)|
    ensures Readable(g, d, root, at, content, size)
  {
    SubsetSize(FreeOnDisk(g, d0), FreeEntries(g, d0));
    SavedReadableIff(g, d0, d, root, at, content, size, l, []);
  }

  /** An inode from a lookup names a first cluster, the root's if the entry has
      none. Then the entry stays as it is, and with it what a lookup finds. */
  lemma LookedUpEntryStays(g: Geometry, d0: Disk, d: Disk, at: Node, content: seq<int>, size: nat, l: seq<int>)
    requires Saved(g, d0, d, at, content, size, l) && !IsEoc(at.parent) && size < Buffers.TWO_32 && at.first != 0
    ensures EntryFirst(Cluster(g, d, at.parent), at.offset) == EntryFirst(Cluster(g, d0, at.parent), at.offset)
  {
    EntryAfter(g, d0, d, at, content, size, l);
  }

  /** So new bytes written through it are lost when the first cluster found from
      the entry, outside its own directory sector, holds other bytes. */
  lemma LookedUpSaveLost(g: Geometry, d0: Disk, d: Disk, root: int, at: Node, content: seq<int>, size: nat,
                         l: seq<int>, c: seq<int>)
    requires Saved(g, d0, d, at, content, size, l) && ReservedInUse(g, d0) && !IsEoc(at.parent)
    requires 512 * Blocks(size) <= |content| && size < Buffers.TWO_32 && at.first != 0
    requires Linked(g, d0, c) && c[0] == Start(root, EntryFirst(Cluster(g, d0, at.parent), at.offset))
    requires c[0] != at.parent && OnDisk(g, d0, c[0]) && Block(content, 0) != Cluster(g, d0, c[0])
    ensures !Readable(g, d, root, at, content, size)
  {
    LookedUpEntryStays(g, d0, d, at, content, size, l);
    OldChainKept(g, d0, d, l, content, at.parent, c);
    FirstBlockStored(g, d, c[0], content, Blocks(size));
  }

  lemma FirstBlockStored(g: Geometry, d: Disk, first: int, content: seq<int>, blocks: nat)
    requires DiskOk(g, d) && 512 <= 512 * blocks <= |content| && OnDisk(g, d, first)
    ensures Stores(g, d, first, content, blocks) ==> Cluster(g, d, first) == Block(content, 0)
  {
    if Stores(g, d, first, content, blocks) {
      var k :| Chain(g, d, k) && k[0] == first && |k| == blocks && Holds(g, d, k, content);
      assert Cluster(g, d, k[0]) == Block(content, 0);
    }
  }

  lemma WrittenHolds(g: Geometry, d0: Disk, d: Disk, l: seq<int>, content: seq<int>, skip: int)
    requires Written(g, d0, d, l, content, skip) && l != []
    requires forall i | 0 <= i < |l| :: OnDisk(g, d, l[i])
    ensures Chain(g, d, l) && Holds(g, d, l, content) && Stores(g, d, l[0], content, |l|)
  {
    forall i | 0 <= i < |l| ensures Cluster(g, d, l[i]) == Block(content, i) {
      assert BlockOk(g, d0, d, l, content, i);
    }
  }

  lemma OutOfRoom(g: Geometry, d0: Disk, d: Disk, l: seq<int>, content: seq<int>, skip: int)
    requires Written(g, d0, d, l, content, skip) && FreeEntries(g, d) == {}
    ensures |l| == |FreeEntries(g, d0)| >= |FreeOnDisk(g, d0)|
  {
    FreeLeft(g, d0, d, l, content, skip);
    SubsetSize(FreeOnDisk(g, d0), FreeEntries(g, d0));
  }

  // ---- the loop of set_content -----------------------------------------------------------

  /** The directory sector once the entry names the first cluster `f`. */
  function Picked(s: Sector, at: Node, f: int): (r: Sector)
    requires at.offset + ENTRY <= |s|
    ensures |r| == |s|
  {
    if at.first == 0 && f != NO_CLUSTER then SetEntryFirst(s, at.offset, f) else s
  }

  ghost predicate Saving(g: Geometry, d0: Disk, d: Disk, at: Node, content: seq<int>, l: seq<int>, f: int) {
    && Written(g, d0, d, l, content, at.parent) && Lowest(g, d, l) && ReservedInUse(g, d)
    && NodeOk(g, d0, at) && at.parent !in l && Framed(g, d0, d, l, at.parent)
    && (l != [] ==> l[0] == f != NO_CLUSTER)
    && (OnDisk(g, d, at.parent) ==> Cluster(g, d, at.parent) == Picked(Cluster(g, d0, at.parent), at, f))
  }

  lemma FirstFreeUnique(g: Geometry, d: Disk, d': Disk, m: int, n: int)
    requires DiskOk(g, d) && DiskOk(g, d')
    requires forall j | 0 <= j < NrEntries(g) :: Fat(g, d', j) == Fat(g, d, j)
    requires IsFirstFree(g, d, m) && IsFirstFree(g, d', n)
    ensures m == n
  {
    if m != NO_CLUSTER { assert IsFree(g, d', m); }
    if n != NO_CLUSTER { assert IsFree(g, d, n); }
  }

  lemma StartSaving(g: Geometry, d0: Disk, d: Disk, at: Node, content: seq<int>, f: int)
    requires DiskOk(g, d0) && NodeOk(g, d0, at) && ReservedInUse(g, d0)
    requires d == if at.first != 0 || IsEoc(at.parent) || f == NO_CLUSTER then d0
                  else PutCluster(g, d0, at.parent, SetEntryFirst(Cluster(g, d0, at.parent), at.offset, f))
    ensures Saving(g, d0, d, at, content, [], f)
    ensures forall j | 0 <= j < NrEntries(g) :: Fat(g, d, j) == Fat(g, d0, j)
  {
    NothingWritten(g, d0, content, at.parent);
    if !(at.first != 0 || IsEoc(at.parent) || f == NO_CLUSTER) {
      var block := SetEntryFirst(Cluster(g, d0, at.parent), at.offset, f);
      PutClusterSpec(g, d0, at.parent, block);
      EditKeeps(g, d0, d0, [], content, at.parent, block);
      FramedEdit(g, d0, d0, [], at.parent, block);
    }
  }

  lemma NothingWritten(g: Geometry, d: Disk, content: seq<int>, skip: int)
    requires DiskOk(g, d)
    ensures Written(g, d, d, [], content, skip) && Lowest(g, d, [])
  {
  }

  lemma StopSaving(g: Geometry, d0: Disk, d: Disk, at: Node, content: seq<int>, l: seq<int>, f: int, size: nat)
    requires Saving(g, d0, d, at, content, l, f) && |l| < Blocks(size)
    requires IsFirstFree(g, d, NO_CLUSTER) && (l == [] ==> f == NO_CLUSTER)
    ensures Saved(g, d0, d, at, content, size, l)
  {
    NothingFree(g, d);
  }

  lemma StepSaving(g: Geometry, d0: Disk, d: Disk, at: Node, content: seq<int>, l: seq<int>, f: int, curr: int)
    requires Saving(g, d0, d, at, content, l, f) && 512 * |l| + 512 <= |content|
    requires IsFirstFree(g, d, curr) && curr != NO_CLUSTER && (l == [] ==> f == curr)
    ensures var prev := if l == [] then 0 else l[|l| - 1];
            && 2 <= curr < NrEntries(g) && 0 <= prev < NrEntries(g)
            && DiskOk(g, Extend(g, d, prev, curr, Block(content, |l|)))
            && Saving(g, d0, Extend(g, d, prev, curr, Block(content, |l|)), at, content, l + [curr], f)
  {
    ExtendWritten(g, d0, d, l, content, at.parent, curr);
    ExtendLowest(g, d0, d, l, content, at.parent, curr);
    var prev := if l == [] then 0 else l[|l| - 1];
    if l != [] { ChainInUse(g, d0, d, l, content, at.parent, |l| - 1); }
    ExtendSpec(g, d, prev, curr, Block(content, |l|));
    FramedExtend(g, d0, d, l, at.parent, prev, curr, Block(content, |l|));
    assert curr != at.parent;
  }

  lemma FinishSaving(g: Geometry, d0: Disk, d: Disk, d': Disk, at: Node, content: seq<int>, l: seq<int>, f: int,
                     size: nat)
    requires Saving(g, d0, d, at, content, l, f) && |l| == Blocks(size) && size < Buffers.TWO_32
    requires d' == if IsEoc(at.parent) then d
                   else PutCluster(g, d, at.parent, SetEntrySize(Cluster(g, d, at.parent), at.offset, size))
    ensures Saved(g, d0, d', at, content, size, l)
  {
    if !IsEoc(at.parent) {
      EditKeeps(g, d0, d, l, content, at.parent, SetEntrySize(Cluster(g, d, at.parent), at.offset, size));
      FramedEdit(g, d0, d, l, at.parent, SetEntrySize(Cluster(g, d, at.parent), at.offset, size));
    }
  }

  lemma BlocksRound(size: nat, q: nat)
    requires q >= 1 && size <= q * 512 && (q > 1 ==> q * 512 - 512 < size)
    ensures q == Blocks(size)
  {
  }

  lemma NothingFree(g: Geometry, d: Disk)
    requires DiskOk(g, d) && IsFirstFree(g, d, NO_CLUSTER)
    ensures FreeEntries(g, d) == {}
  {
  }

  lemma SavingNodeOk(g: Geometry, d0: Disk, d: Disk, at: Node, content: seq<int>, l: seq<int>, f: int)
    requires Saving(g, d0, d, at, content, l, f)
    ensures NodeOk(g, d, at)
  {
  }

  lemma RegularKept(g: Geometry, d0: Disk, d: Disk, at: Node, content: seq<int>, size: nat, l: seq<int>)
    requires Saved(g, d0, d, at, content, size, l) && OnDisk(g, d0, at.parent) && OnDisk(g, d, at.parent)
    ensures Cluster(g, d, at.parent)[at.offset + 11] == Cluster(g, d0, at.parent)[at.offset + 11]
  {
  }

  lemma StoredChain(g: Geometry, d0: Disk, d: Disk, l: seq<int>, content: seq<int>, skip: int)
    requires Written(g, d0, d, l, content, skip) && l != [] && Stores(g, d, l[0], content, |l|)
    ensures Chain(g, d, l) && Holds(g, d, l, content) && l[0] != 0
  {
    var k :| Chain(g, d, k) && k[0] == l[0] && |k| == |l| && Holds(g, d, k, content);
    ChainUnique(g, d, k, l);
  }

  /** With room for it, a first save leaves a whole chain and a complete entry. */
  lemma SavedWhole(g: Geometry, d0: Disk, d: Disk, at: Node, content: seq<int>, size: nat, l: seq<int>)
    requires Saved(g, d0, d, at, content, size, l) && ReservedInUse(g, d0)
    requires at.first == 0 && !IsEoc(at.parent)
    requires 512 * Blocks(size) <= |content| && size < Buffers.TWO_32
    requires Blocks(size) <= |FreeOnDisk(g, d0)|
    ensures |l| == Blocks(size) && OnDisk(g, d, at.parent)
    ensures Chain(g, d, l) && Holds(g, d, l, content)
    ensures var was, entry := Cluster(g, d0, at.parent), Cluster(g, d, at.parent);
            && EntryFirst(entry, at.offset) == l[0] != 0 && EntrySize(entry, at.offset) == size
            && entry[at.offset + 11] == was[at.offset + 11]
  {
    SubsetSize(FreeOnDisk(g, d0), FreeEntries(g, d0));
    ChainLength(g, d0, d, at, content, size, l);
    MovedReadableIff(g, d0, d, at, content, size, l);
    EntryAfter(g, d0, d, at, content, size, l);
    RegularKept(g, d0, d, at, content, size, l);
    StoredChain(g, d0, d, l, content, at.parent);
  }

  lemma SameBlocks(a: seq<int>, b: seq<int>, n: nat)
    requires |a| == |b| == 512 * n
    requires forall i | 0 <= i < n :: Block(a, i) == Block(b, i)
    ensures a == b
  {
    forall k | 0 <= k < |a| ensures a[k] == b[k] {
      assert Block(a, k / 512)[k % 512] == Block(b, k / 512)[k % 512];
    }
  }

  lemma EntryAt(g: Geometry, q: nat, i: nat)
    requires q < g.tableSize && i < PER_SECTOR
    ensures var e := q * PER_SECTOR + i;
            0 <= e < NrEntries(g) && EntrySector(g, e) == g.reserved + q && e % PER_SECTOR == i
  {
  }

  lemma EntryWord(g: Geometry, d: Disk, q: nat, i: nat)
    requires DiskOk(g, d) && q < g.tableSize && i < PER_SECTOR
    ensures var e := q * PER_SECTOR + i;
            && 0 <= e < NrEntries(g) && g.reserved + q < |d|
            && (IsFree(g, d, e) <==> Buffers.Word32(d[g.reserved + q][4 * i..4 * i + 4]) == 0)
  {
    EntryAt(g, q, i);
    SectorInTable(g, q * PER_SECTOR + i);
  }

  /** A partition of a device, and the sectors of the device in front of it. */
  class Volume {
    const g: Geometry
    const root: int
    const disk: array<Sector>
    const front: array<Sector>

    constructor (g: Geometry, root: int, disk: array<Sector>, front: array<Sector>)
      ensures this.g == g && this.root == root && this.disk == disk && this.front == front
    {
      this.g, this.root, this.disk, this.front := g, root, disk, front;
    }

    ghost function View(): Disk
      reads disk
    {
      disk[..]
    }

    /** No sector of the partition, and none a table entry stands for, has a
        number on the device of 2^32 or more. */
    ghost predicate Valid()
      reads disk
    {
      && DiskOk(g, View()) && front != disk && front.Length + disk.Length <= Buffers.TWO_32
      && front.Length + DataStart(g) + NrEntries(g) * g.sectorsPerCluster <= Buffers.TWO_32
    }

    /** The device number is computed in 32 bits, so that it can wrap to a sector
        in front of the partition. */
    predicate Wraps(index: nat) { front.Length + index >= Buffers.TWO_32 }

    /** A block past the end leaves the caller's buffer as it is. */
    method ReadBlock(index: nat, buf: Sector) returns (r: Sector)
      requires Valid() && index < Buffers.TWO_32
      ensures r == if index < |View()| then View()[index]
                   else if Wraps(index) then front[front.Length + index - Buffers.TWO_32] else buf
    {
      var sector := (front.Length + index) % Buffers.TWO_32;
      if sector >= front.Length + disk.Length {
        return buf;
      }
      r := if sector < front.Length then front[sector] else disk[sector - front.Length];
    }

    method WriteBlock(index: nat, buf: Sector)
      requires Valid() && index < Buffers.TWO_32
      modifies disk, if Wraps(index) then {front} else {}
      ensures View() == if index < |old(View())| then old(View())[index := buf] else old(View())
      ensures Wraps(index) ==> front[..] == old(front[..])[front.Length + index - Buffers.TWO_32 := buf]
    {
      var sector := (front.Length + index) % Buffers.TWO_32;
      if sector >= front.Length + disk.Length {
        return;
      }
      if sector < front.Length {
        front[sector] := buf;
      } else {
        disk[sector - front.Length] := buf;
      }
    }

    /** The clusters of the table lie behind the start of the partition. */
    lemma NoWrap(n: int)
      requires Valid() && 2 <= n < NrEntries(g)
      ensures SectorOf(g, n) == ClusterSector(g, n) >= DataStart(g) && !Wraps(SectorOf(g, n))
    {
      SectorOfCluster(g, n);
      ProductBelow(n - 2, NrEntries(g), g.sectorsPerCluster);
    }

    method FatRead(i: nat) returns (v: int)
      requires Valid()
      ensures v == if i < NrEntries(g) then Fat(g, View(), i) else EOC_MAX
      ensures i < 128 * g.tableSize ==>
                var sector := View()[g.reserved + i / 128];
                v == Buffers.Word32(sector[4 * (i % 128)..4 * (i % 128) + 4])
    {
      if i >= NrEntries(g) {
        return EOC_MAX;
      }
      SectorInTable(g, i);
      var buf := ReadBlock(EntrySector(g, i), []);
      v := Buffers.Word32(buf[4 * (i % PER_SECTOR)..4 * (i % PER_SECTOR) + 4]);
    }

    method FatWrite(i: nat, v: nat)
      requires Valid()
      modifies disk
      ensures View() == if i < NrEntries(g) then PutFat(g, old(View()), i, v) else old(View())
    {
      if i >= NrEntries(g) {
        return;
      }
      SectorInTable(g, i);
      var buf := ReadBlock(EntrySector(g, i), []);
      WriteBlock(EntrySector(g, i), Buffers.Splice(buf, 4 * (i % PER_SECTOR), Buffers.Bytes32(v)));
    }

    /** Scans the table in order: the lowest free entry, or NO_CLUSTER. */
    method FindFreeCluster() returns (n: nat)
      requires Valid()
      ensures IsFirstFree(g, View(), n)
    {
      ghost var d := View();
      var index := g.reserved;
      while index < g.reserved + g.tableSize
        invariant g.reserved <= index <= g.reserved + g.tableSize
        invariant forall e | 0 <= e < (index - g.reserved) * PER_SECTOR :: !IsFree(g, d, e)
      {
        var buf := ReadBlock(index, []);
        var i := 0;
        while i < PER_SECTOR
          invariant 0 <= i <= PER_SECTOR
          invariant forall e | 0 <= e < (index - g.reserved) * PER_SECTOR + i :: !IsFree(g, d, e)
        {
          EntryWord(g, d, index - g.reserved, i);
          assert buf == d[index];
          if Buffers.Word32(buf[4 * i..4 * i + 4]) == 0 {
            return (index - g.reserved) * PER_SECTOR + i;
          }
          i := i + 1;
        }
        index := index + 1;
      }
      n := NO_CLUSTER;
    }

    /** Any cluster number is turned into a sector number, in 32 bits. */
    method ClusterRead(n: nat, buf: Sector) returns (r: Sector)
      requires Valid() && n < Buffers.TWO_32
      ensures var i := (g.reserved + 2 * g.tableSize + (n - 2) * g.sectorsPerCluster) % Buffers.TWO_32;
              r == if i < |View()| then View()[i]
                   else if Wraps(i) then front[front.Length + i - Buffers.TWO_32] else buf
      ensures 2 <= n < NrEntries(g) ==> r == if OnDisk(g, View(), n) then Cluster(g, View(), n) else buf
    {
      if 2 <= n < NrEntries(g) { NoWrap(n); }
      Regions(g, 0, n);
      r := ReadBlock(SectorOf(g, n), buf);
    }

    method ClusterWrite(n: nat, block: Sector)
      requires Valid() && n < Buffers.TWO_32
      modifies disk, if Wraps(SectorOf(g, n)) then {front} else {}
      ensures SectorOf(g, n) == (g.reserved + 2 * g.tableSize + (n - 2) * g.sectorsPerCluster) % Buffers.TWO_32
      ensures View() == if SectorOf(g, n) < |old(View())| then old(View())[SectorOf(g, n) := block] else old(View())
      ensures Wraps(SectorOf(g, n)) ==>
                front[..] == old(front[..])[front.Length + SectorOf(g, n) - Buffers.TWO_32 := block]
      ensures 2 <= n < NrEntries(g) ==> View() == StoreCluster(g, old(View()), n, block)
    {
      if 2 <= n < NrEntries(g) { NoWrap(n); }
      Regions(g, 0, n);
      WriteBlock(SectorOf(g, n), block);
    }
  }

  class Inode {
    const vol: Volume
    const at: Node
    var size: nat

    constructor (vol: Volume, at: Node, size: nat)
      ensures this.vol == vol && this.at == at && this.size == size
    {
      this.vol, this.at, this.size := vol, at, size;
    }

    ghost predicate Valid()
      reads vol.disk
    {
      vol.Valid() && NodeOk(vol.g, vol.View(), at) && ReservedInUse(vol.g, vol.View())
    }

    /** Picks the lowest free cluster for the directory entry; the table is not
        marked yet and the inode itself goes on saying 0. */
    method AllocateFirstCluster() returns (ghost f: int)
      requires Valid() && at.first == 0
      modifies vol.disk
      ensures vol.Valid() && IsFirstFree(vol.g, old(vol.View()), f)
      ensures vol.View() ==
        if IsEoc(at.parent) || f == NO_CLUSTER then old(vol.View())
        else PutCluster(vol.g, old(vol.View()), at.parent,
                        SetEntryFirst(Cluster(vol.g, old(vol.View()), at.parent), at.offset, f))
    {
      var n := vol.FindFreeCluster();
      f := n;
      if IsEoc(at.parent) {
        return;
      }
      var buf := vol.ClusterRead(at.parent, []);
      ghost var was := vol.View();
      if n != NO_CLUSTER {
        buf := SetEntryFirst(buf, at.offset, n);
      }
      PutClusterSpec(vol.g, was, at.parent, buf);
      vol.NoWrap(at.parent);
      vol.ClusterWrite(at.parent, buf);
      if n == NO_CLUSTER { assert vol.View() == was; }
    }

    method RecordSize(newSize: nat)
      requires vol.Valid() && NodeOk(vol.g, vol.View(), at)
      modifies vol.disk
      ensures vol.View() ==
        if IsEoc(at.parent) then old(vol.View())
        else PutCluster(vol.g, old(vol.View()), at.parent,
                        SetEntrySize(Cluster(vol.g, old(vol.View()), at.parent), at.offset, newSize))
    {
      if IsEoc(at.parent) {
        return;
      }
      var buf := vol.ClusterRead(at.parent, []);
      vol.NoWrap(at.parent);
      vol.ClusterWrite(at.parent, SetEntrySize(buf, at.offset, newSize));
    }

    /** Writes one block: data first, then the mark, then the link to it. */
    method AppendBlock(prev: nat, curr: nat, block: Sector)
      requires vol.Valid() && 2 <= curr < NrEntries(vol.g) && prev < NrEntries(vol.g) && |block| == SECTOR
      modifies vol.disk
      ensures vol.View() == Extend(vol.g, old(vol.View()), prev, curr, block)
    {
      StoreClusterSpec(vol.g, vol.View(), curr, block);
      vol.NoWrap(curr);
      vol.ClusterWrite(curr, block);
      PutFatSpec(vol.g, vol.View(), curr, EOC_MAX);
      vol.FatWrite(curr, EOC_MAX);
      if prev != 0 {
        vol.FatWrite(prev, curr);
      }
    }

    /** Gives the entry its first cluster if it has none, and finds the lowest
        free cluster. */
    method StartChain(ghost content: seq<int>) returns (curr: nat)
      requires Valid()
      modifies vol.disk
      ensures vol.Valid() && Saving(vol.g, old(vol.View()), vol.View(), at, content, [], curr)
      ensures IsFirstFree(vol.g, vol.View(), curr)
    {
      ghost var d0, f := vol.View(), NO_CLUSTER;
      if at.first == 0 {
        f := AllocateFirstCluster();
        StartSaving(vol.g, d0, vol.View(), at, content, f);
      }
      curr := vol.FindFreeCluster();
      if at.first == 0 {
        FirstFreeUnique(vol.g, d0, vol.View(), f, curr);
      } else {
        StartSaving(vol.g, d0, vol.View(), at, content, curr);
      }
    }

    method WriteNext(ghost d0: Disk, content: seq<int>, ghost l: seq<int>, ghost first: nat, prev: int, curr: nat,
                     i: nat)
      returns (next: nat)
      requires vol.Valid() && Saving(vol.g, d0, vol.View(), at, content, l, first)
      requires i == 512 * |l| && i + 512 <= |content|
      requires IsFirstFree(vol.g, vol.View(), curr) && curr != NO_CLUSTER && (l == [] ==> first == curr)
      requires prev == if l == [] then 0 else l[|l| - 1]
      modifies vol.disk
      ensures vol.Valid() && Saving(vol.g, d0, vol.View(), at, content, l + [curr], first)
      ensures IsFirstFree(vol.g, vol.View(), next)
    {
      StepSaving(vol.g, d0, vol.View(), at, content, l, first, curr);
      assert content[i..i + 512] == Block(content, |l|);
      AppendBlock(prev, curr, content[i..i + 512]);
      next := vol.FindFreeCluster();
    }

    /** Writes blocks until `bufSize` bytes are stored or nothing is free. */
    method WriteChain(ghost d0: Disk, content: seq<int>, ghost blocks: nat, bufSize: nat, first: nat)
      returns (done: bool, ghost l: seq<int>)
      requires vol.Valid() && bufSize == 512 * blocks <= |content|
      requires Saving(vol.g, d0, vol.View(), at, content, [], first) && IsFirstFree(vol.g, vol.View(), first)
      modifies vol.disk
      ensures vol.Valid() && Saving(vol.g, d0, vol.View(), at, content, l, first)
      ensures if done then |l| == blocks
              else |l| < blocks && IsFirstFree(vol.g, vol.View(), NO_CLUSTER) && (l == [] ==> first == NO_CLUSTER)
    {
      var prev, curr := 0, first;
      l := [];
      var i := 0;
      while i < bufSize
        invariant i == 512 * |l| && |l| <= blocks
        invariant vol.Valid() && Saving(vol.g, d0, vol.View(), at, content, l, first)
        invariant IsFirstFree(vol.g, vol.View(), curr)
        invariant l == [] ==> first == curr
        invariant prev == if l == [] then 0 else l[|l| - 1]
        decreases bufSize - i
      {
        if curr == NO_CLUSTER {
          return false, l;
        }
        assert |l| + 1 <= blocks;
        var next := WriteNext(d0, content, l, first, prev, curr, i);
        l := l + [curr];
        prev := curr;
        curr := next;
        i := i + 512;
      }
      done := true;
    }

    /** Stores the blocks of `content` in the lowest free clusters, chained. */
    method SetContent(content: seq<int>, newSize: nat) returns (ghost l: seq<int>)
      requires Valid() && newSize + 512 <= Buffers.TWO_32 && 512 * Blocks(newSize) <= |content|
      modifies this`size, vol.disk
      ensures Saved(vol.g, old(vol.View()), vol.View(), at, content, newSize, l)
      ensures size == if |l| == Blocks(newSize) then newSize else old(size)
      ensures vol.Valid()
    {
      var bufSize, blocks := RoundUpToMultipleOfN(newSize, 512);
      BlocksRound(newSize, blocks);
      ghost var d0 := vol.View();
      var first := StartChain(content);
      var done;
      done, l := WriteChain(d0, content, blocks, bufSize, first);
      if !done {
        StopSaving(vol.g, d0, vol.View(), at, content, l, first, newSize);
        return;
      }
      ghost var d := vol.View();
      SavingNodeOk(vol.g, d0, d, at, content, l, first);
      RecordSize(newSize);
      FinishSaving(vol.g, d0, d, vol.View(), at, content, l, first, newSize);
      size := newSize;
    }

    /** Follows the chain `l` from the first cluster; the buffer is never overrun. */
    method GetContent(ghost l: seq<int>) returns (content: Buffer)
      requires vol.Valid() && Chain(vol.g, vol.View(), l) && l[0] == at.first && |l| <= Blocks(size)
      ensures !at.isRegular ==> content == Null
      ensures at.isRegular ==>
        && content.Bytes? && |content.bytes| == 512 * Blocks(size)
        && forall i | 0 <= i < |l| :: Block(content.bytes, i) == Cluster(vol.g, vol.View(), l[i])
    {
      if !at.isRegular {
        return Null;
      }
      var bufSize, blocks := RoundUpToMultipleOfN(size, 512);
      BlocksRound(size, blocks);
      var bytes := seq(bufSize, _ => 0);
      var i, n := 0, at.first;
      while !IsEoc(n)
        invariant 0 <= i <= |l| && |bytes| == bufSize == 512 * blocks
        invariant if i < |l| then n == l[i] else IsEoc(n)
        invariant forall k | 0 <= k < i :: Block(bytes, k) == Cluster(vol.g, vol.View(), l[k])
        decreases |l| - i
      {
        assert LinkOk(vol.g, vol.View(), l, i);
        var buf := vol.ClusterRead(n, []);
        Buffers.SpliceSlice(bytes, 512 * i, buf);
        bytes := Buffers.Splice(bytes, 512 * i, buf);
        i := i + 1;
        n := vol.FatRead(n);
      }
      content := Bytes(bytes);
    }

    /** The inode found by scanning the directory: an entry without a first
        cluster is taken for the root directory. */
    static method Open(vol: Volume, parent: int, offset: nat) returns (node: Inode)
      requires vol.Valid() && OnDisk(vol.g, vol.View(), parent) && offset + ENTRY <= SECTOR
      requires EntrySize(Cluster(vol.g, vol.View(), parent), offset) >= 0
      ensures fresh(node) && node.vol == vol
      ensures var entry := Cluster(vol.g, vol.View(), parent);
              && node.at.first == (if EntryFirst(entry, offset) == 0 then vol.root else EntryFirst(entry, offset))
              && node.at.parent == parent && node.at.offset == offset
              && node.at.isRegular == (entry[offset + 11] / DIRECTORY_ATTRIBUTE % 2 == 0)
              && node.size == EntrySize(entry, offset)
    {
      var entry := vol.ClusterRead(parent, []);
      var first := EntryFirst(entry, offset);
      node := new Inode(vol,
        Node(if first == 0 then vol.root else first, parent, offset, entry[offset + 11] / DIRECTORY_ATTRIBUTE % 2 == 0),
        EntrySize(entry, offset));
    }

    /** Save, look the file up again, read: the bytes saved come back. */
    method SaveAndReopen(content: seq<int>, newSize: nat) returns (node: Inode, read: Buffer)
      requires Valid() && at.first == 0 && !IsEoc(at.parent) && newSize + 512 <= Buffers.TWO_32
      requires |content| == 512 * Blocks(newSize)
      requires Blocks(newSize) <= |FreeOnDisk(vol.g, vol.View())|
      requires var entry := Cluster(vol.g, vol.View(), at.parent);
               entry[at.offset + 11] / DIRECTORY_ATTRIBUTE % 2 == 0
      modifies this`size, vol.disk
      ensures fresh(node) && node.size == newSize && node.at.first != 0
      ensures read == Bytes(content)
    {
      ghost var d0 := vol.View();
      ghost var l := SetContent(content, newSize);
      SavedWhole(vol.g, d0, vol.View(), at, content, newSize, l);
      node := Open(vol, at.parent, at.offset);
      read := node.GetContent(l);
      SameBlocks(read.bytes, content, Blocks(newSize));
    }
  }
}
