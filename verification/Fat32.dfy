/** Writing and reading back a file on a FAT32 volume: the cluster-chain code of
    fs/FAT32.cc. */
module Fat32 {
  import opened Lists
  import opened FatVolume
  import Buffers

  // ---- directory entries -----------------------------------------------------------

  const ENTRY: nat := 32

  /** First cluster and size of the 32-byte entry at `off`. */
  function EntryFirst(s: Sector, off: nat): int
    requires off + ENTRY <= |s|
  {
    65536 * (s[off + 20] + 256 * s[off + 21]) + (s[off + 26] + 256 * s[off + 27])
  }

  function EntrySize(s: Sector, off: nat): int
    requires off + ENTRY <= |s|
  {
    Buffers.Word32(s[off + 28..off + 32])
  }

  function SetEntryFirst(s: Sector, off: nat, n: int): (r: Sector)
    requires off + ENTRY <= |s|
    ensures |r| == |s|
  {
    var high, low := n / 65536 % 65536, n % 65536;
    Buffers.Splice(Buffers.Splice(s, off + 20, [high % 256, high / 256]), off + 26, [low % 256, low / 256])
  }

  function SetEntrySize(s: Sector, off: nat, n: int): (r: Sector)
    requires off + ENTRY <= |s|
    ensures |r| == |s|
  {
    Buffers.Splice(s, off + 28, Buffers.Bytes32(n))
  }

  /** Setting the first cluster changes its four bytes and reads back. */
  lemma SetEntryFirstSpec(s: Sector, off: nat, n: int)
    requires off + ENTRY <= |s| && 0 <= n < Buffers.TWO_32
    ensures EntryFirst(SetEntryFirst(s, off, n), off) == n
    ensures EntrySize(SetEntryFirst(s, off, n), off) == EntrySize(s, off)
    ensures forall i | 0 <= i < |s| && !(off + 20 <= i < off + 22) && !(off + 26 <= i < off + 28) ::
              SetEntryFirst(s, off, n)[i] == s[i]
  {
    var s' := SetEntryFirst(s, off, n);
    HalfWords(n);
    assert s'[off + 28..off + 32] == s[off + 28..off + 32];
  }

  /** The high half is at offset 20 and the low half at offset 26. */
  lemma SetEntryFirstBytes(s: Sector, off: nat, n: int)
    requires off + ENTRY <= |s| && 0 <= n < Buffers.TWO_32
    ensures var s' := SetEntryFirst(s, off, n);
            && s'[off + 20] == n / 65536 % 256 && s'[off + 21] == n / 16777216
            && s'[off + 26] == n % 256 && s'[off + 27] == n / 256 % 256
  {
    ByteParts(n);
  }

  lemma ByteParts(n: int)
    requires 0 <= n < Buffers.TWO_32
    ensures n / 65536 % 65536 % 256 == n / 65536 % 256 && n / 65536 % 65536 / 256 == n / 16777216
    ensures n % 65536 % 256 == n % 256 && n % 65536 / 256 == n / 256 % 256
  {
    var q := n / 65536;
    assert q % 65536 == q && q / 256 == n / 16777216;
    var r := n / 256;
    assert r / 256 == q && n % 65536 == r % 256 * 256 + n % 256;
  }

  lemma HalfWords(n: int)
    requires 0 <= n < Buffers.TWO_32
    ensures var high, low := n / 65536 % 65536, n % 65536;
            65536 * (high % 256 + 256 * (high / 256)) + (low % 256 + 256 * (low / 256)) == n
  {
  }

  /** Setting the size changes its four bytes and reads back. */
  lemma SetEntrySizeSpec(s: Sector, off: nat, n: int)
    requires off + ENTRY <= |s| && 0 <= n < Buffers.TWO_32
    ensures EntryFirst(SetEntrySize(s, off, n), off) == EntryFirst(s, off)
    ensures EntrySize(SetEntrySize(s, off, n), off) == n
    ensures SetEntrySize(s, off, n)[off + 28..off + 32] == Buffers.Bytes32(n)
    ensures forall i | 0 <= i < |s| && !(off + 28 <= i < off + 32) :: SetEntrySize(s, off, n)[i] == s[i]
  {
    Buffers.Word32Stored(n);
    Buffers.SpliceSlice(s, off + 28, Buffers.Bytes32(n));
  }

  // ---- building a chain --------------------------------------------------------------

  /** From `l[0]` the table leads through `l` to an end-of-chain mark. */
  ghost predicate Chain(g: Geometry, d: Disk, l: seq<int>)
    requires DiskOk(g, d)
  {
    && l != [] && Distinct(l)
    && (forall i | 0 <= i < |l| :: OnDisk(g, d, l[i]))
    && (forall i | 0 <= i < |l| :: LinkOk(g, d, l, i))
  }

  /** The same of the table alone: clusters may lie past the end of the disk. */
  ghost predicate Linked(g: Geometry, d: Disk, l: seq<int>)
    requires DiskOk(g, d)
  {
    l != [] && forall i {:trigger LinkOk(g, d, l, i)} | 0 <= i < |l| :: LinkOk(g, d, l, i) && !IsFree(g, d, l[i])
  }

  ghost predicate LinkOk(g: Geometry, d: Disk, l: seq<int>, i: int)
    requires DiskOk(g, d) && 0 <= i < |l|
  {
    0 <= l[i] < NrEntries(g) && if i + 1 < |l| then Fat(g, d, l[i]) == l[i + 1] else IsEoc(Fat(g, d, l[i]))
  }

  function Block(content: seq<int>, i: nat): Sector
    requires 512 * i + 512 <= |content|
  {
    content[512 * i..512 * i + 512]
  }

  /** `l` holds the first blocks of `content`; it took entries that were free
      in `d0` and touched no other entry, and no other cluster except `skip`. */
  ghost predicate Written(g: Geometry, d0: Disk, d: Disk, l: seq<int>, content: seq<int>, skip: int) {
    && DiskOk(g, d0) && DiskOk(g, d) && |d| == |d0| && 512 * |l| <= |content|
    && Distinct(l)
    && (forall i {:trigger BlockOk(g, d0, d, l, content, i)} | 0 <= i < |l| :: BlockOk(g, d0, d, l, content, i))
    && (forall i {:trigger LinkOk(g, d, l, i)} | 0 <= i < |l| :: LinkOk(g, d, l, i))
    && (forall j | 0 <= j < NrEntries(g) && j !in l :: Fat(g, d, j) == Fat(g, d0, j))
    && (forall m | OnDisk(g, d, m) && m !in l && m != skip :: Cluster(g, d, m) == Cluster(g, d0, m))
  }

  /** Entry `l[i]` was free; its cluster holds block `i`, if it has a sector at all. */
  ghost predicate BlockOk(g: Geometry, d0: Disk, d: Disk, l: seq<int>, content: seq<int>, i: int)
    requires DiskOk(g, d0) && DiskOk(g, d) && 0 <= i < |l| && 512 * |l| <= |content|
  {
    && 2 <= l[i] && IsFree(g, d0, l[i])
    && (OnDisk(g, d, l[i]) ==> Cluster(g, d, l[i]) == Block(content, i))
  }

  /** Everything still free lies above everything in `l`. */
  ghost predicate Lowest(g: Geometry, d: Disk, l: seq<int>)
    requires DiskOk(g, d)
  {
    forall i, f | 0 <= i < |l| && IsFree(g, d, f) :: l[i] < f
  }

  /** A write to a cluster past the end of the disk is dropped. */
  function StoreCluster(g: Geometry, d: Disk, n: int, block: Sector): Disk {
    if OnDisk(g, d, n) then PutCluster(g, d, n, block) else d
  }

  lemma StoreClusterSpec(g: Geometry, d: Disk, n: int, block: Sector)
    requires DiskOk(g, d) && |block| == SECTOR
    ensures var d' := StoreCluster(g, d, n, block);
            && DiskOk(g, d') && |d'| == |d|
            && (forall j | 0 <= j < NrEntries(g) :: Fat(g, d', j) == Fat(g, d, j))
            && (forall m | OnDisk(g, d, m) :: Cluster(g, d', m) == if m == n then block else Cluster(g, d, m))
  {
    if OnDisk(g, d, n) { PutClusterSpec(g, d, n, block); }
  }

  /** One more block: its cluster is written and marked, then the one before is
      linked to it. */
  function Extend(g: Geometry, d: Disk, prev: int, curr: int, block: Sector): Disk
    requires DiskOk(g, d) && 2 <= curr < NrEntries(g) && |block| == SECTOR && 0 <= prev < NrEntries(g)
  {
    StoreClusterSpec(g, d, curr, block);
    PutFatSpec(g, StoreCluster(g, d, curr, block), curr, EOC_MAX);
    var d2 := PutFat(g, StoreCluster(g, d, curr, block), curr, EOC_MAX);
    if prev != 0 then PutFat(g, d2, prev, curr) else d2
  }

  lemma ExtendSpec(g: Geometry, d: Disk, prev: int, curr: int, block: Sector)
    requires DiskOk(g, d) && 2 <= curr < NrEntries(g) && |block| == SECTOR && 0 <= prev < NrEntries(g) && prev != curr
    ensures Extended(g, d, Extend(g, d, prev, curr, block), prev, curr, block)
  {
    StoreClusterSpec(g, d, curr, block);
    var d1 := StoreCluster(g, d, curr, block);
    PutFatSpec(g, d1, curr, EOC_MAX);
    var d2 := PutFat(g, d1, curr, EOC_MAX);
    if prev != 0 { PutFatSpec(g, d2, prev, curr); }
    forall m | OnDisk(g, d, m)
      ensures Cluster(g, Extend(g, d, prev, curr, block), m) == if m == curr then block else Cluster(g, d, m)
    {
      ClusterSectorInData(g, m);
    }
  }

  lemma ExtendLink(g: Geometry, d: Disk, d': Disk, l: seq<int>, curr: int, i: int)
    requires DiskOk(g, d) && DiskOk(g, d') && Distinct(l) && curr !in l && 0 <= curr < NrEntries(g)
    requires forall j {:trigger LinkOk(g, d, l, j)} | 0 <= j < |l| :: LinkOk(g, d, l, j)
    requires var prev := if l == [] then 0 else l[|l| - 1];
             forall j | 0 <= j < NrEntries(g) :: Fat(g, d', j) ==
               if j == curr then EOC_MAX else if prev != 0 && j == prev then curr else Fat(g, d, j)
    requires 0 <= i <= |l| && (l != [] ==> l[|l| - 1] != 0)
    ensures LinkOk(g, d', l + [curr], i)
  {
    if i < |l| {
      assert LinkOk(g, d, l, i) && (l + [curr])[i] == l[i];
      if i + 1 < |l| { assert l[i] != l[|l| - 1] && (l + [curr])[i + 1] == l[i + 1]; }
    }
  }

  /** Entries of the chain are in use, so a free one is none of them. */
  lemma ChainInUse(g: Geometry, d0: Disk, d: Disk, l: seq<int>, content: seq<int>, skip: int, i: int)
    requires Written(g, d0, d, l, content, skip) && 0 <= i < |l|
    ensures 2 <= l[i] < NrEntries(g) && IsFree(g, d0, l[i]) && !IsFree(g, d, l[i])
  {
    assert LinkOk(g, d, l, i) && BlockOk(g, d0, d, l, content, i);
    if i + 1 < |l| { assert BlockOk(g, d0, d, l, content, i + 1); }
  }

  /** `d'` is `d` with `curr` written and marked behind `prev`. */
  ghost predicate Extended(g: Geometry, d: Disk, d': Disk, prev: int, curr: int, block: Sector) {
    && DiskOk(g, d) && DiskOk(g, d') && |d'| == |d|
    && (forall j | 0 <= j < NrEntries(g) :: Fat(g, d', j) ==
          if j == curr then EOC_MAX else if prev != 0 && j == prev then curr else Fat(g, d, j))
    && (forall m | OnDisk(g, d, m) :: Cluster(g, d', m) == if m == curr then block else Cluster(g, d, m))
  }

  lemma ExtendBlocks(g: Geometry, d0: Disk, d: Disk, d': Disk, l: seq<int>, content: seq<int>, skip: int, curr: int)
    requires Written(g, d0, d, l, content, skip) && 512 * |l| + 512 <= |content| && curr !in l
    requires Extended(g, d, d', if l == [] then 0 else l[|l| - 1], curr, Block(content, |l|))
    requires 2 <= curr && IsFree(g, d0, curr)
    ensures forall i {:trigger BlockOk(g, d0, d', l + [curr], content, i)} | 0 <= i < |l| + 1 ::
              BlockOk(g, d0, d', l + [curr], content, i)
  {
    var l' := l + [curr];
    forall i | 0 <= i < |l'| ensures BlockOk(g, d0, d', l', content, i) {
      if i < |l| { assert BlockOk(g, d0, d, l, content, i) && l'[i] == l[i]; }
    }
  }

  lemma ExtendWritten(g: Geometry, d0: Disk, d: Disk, l: seq<int>, content: seq<int>, skip: int, curr: int)
    requires Written(g, d0, d, l, content, skip) && 512 * |l| + 512 <= |content|
    requires 2 <= curr < NrEntries(g) && IsFree(g, d, curr)
    ensures var prev := if l == [] then 0 else l[|l| - 1];
            && 0 <= prev < NrEntries(g)
            && Written(g, d0, Extend(g, d, prev, curr, Block(content, |l|)), l + [curr], content, skip)
  {
    var prev := if l == [] then 0 else l[|l| - 1];
    forall i | 0 <= i < |l| ensures l[i] != curr { ChainInUse(g, d0, d, l, content, skip, i); }
    if l != [] { ChainInUse(g, d0, d, l, content, skip, |l| - 1); }
    ExtendSpec(g, d, prev, curr, Block(content, |l|));
    var d' := Extend(g, d, prev, curr, Block(content, |l|));
    forall i | 0 <= i < |l| + 1 ensures LinkOk(g, d', l + [curr], i) {
      ExtendLink(g, d, d', l, curr, i);
    }
    ExtendBlocks(g, d0, d, d', l, content, skip, curr);
  }

  lemma ExtendLowest(g: Geometry, d0: Disk, d: Disk, l: seq<int>, content: seq<int>, skip: int, curr: int)
    requires Written(g, d0, d, l, content, skip) && 512 * |l| + 512 <= |content|
    requires Lowest(g, d, l) && IsFirstFree(g, d, curr) && 2 <= curr < NrEntries(g)
    ensures var prev := if l == [] then 0 else l[|l| - 1];
            && 0 <= prev < NrEntries(g)
            && var d' := Extend(g, d, prev, curr, Block(content, |l|));
            && DiskOk(g, d') && Lowest(g, d', l + [curr])
            && !IsFree(g, d', 0) == !IsFree(g, d, 0) && !IsFree(g, d', 1) == !IsFree(g, d, 1)
  {
    var prev := if l == [] then 0 else l[|l| - 1];
    if l != [] { ChainInUse(g, d0, d, l, content, skip, |l| - 1); }
    ExtendSpec(g, d, prev, curr, Block(content, |l|));
    var d' := Extend(g, d, prev, curr, Block(content, |l|));
    forall i, f | 0 <= i <= |l| && IsFree(g, d', f) ensures (l + [curr])[i] < f {
      assert IsFree(g, d, f) && curr <= f && curr != f;
    }
  }

  // ---- what was saved -------------------------------------------------------------------

  ghost function FreeEntries(g: Geometry, d: Disk): set<int>
    requires DiskOk(g, d)
  {
    set i | 0 <= i < NrEntries(g) && IsFree(g, d, i)
  }

  /** From `first` the volume holds exactly `blocks` blocks, those of `content`. */
  ghost predicate Stores(g: Geometry, d: Disk, first: int, content: seq<int>, blocks: nat)
    requires DiskOk(g, d) && 512 * blocks <= |content|
  {
    exists l :: Chain(g, d, l) && l[0] == first && |l| == blocks && Holds(g, d, l, content)
  }

  ghost predicate Holds(g: Geometry, d: Disk, l: seq<int>, content: seq<int>)
    requires DiskOk(g, d) && Chain(g, d, l) && 512 * |l| <= |content|
  {
    forall i | 0 <= i < |l| :: Cluster(g, d, l[i]) == Block(content, i)
  }

  /** A chain is determined by its first cluster. */
  lemma {:induction false} SameLinks(g: Geometry, d: Disk, k: seq<int>, l: seq<int>, i: nat)
    requires DiskOk(g, d)
    requires forall i | 0 <= i < |k| :: LinkOk(g, d, k, i)
    requires forall i | 0 <= i < |l| :: LinkOk(g, d, l, i)
    requires k != [] && l != [] && k[0] == l[0] && i < |k|
    ensures i < |l| && k[i] == l[i]
  {
    if i > 0 {
      SameLinks(g, d, k, l, i - 1);
      assert LinkOk(g, d, k, i - 1) && LinkOk(g, d, l, i - 1) && LinkOk(g, d, k, i);
    }
  }

  lemma ChainUnique(g: Geometry, d: Disk, k: seq<int>, l: seq<int>)
    requires DiskOk(g, d)
    requires forall i | 0 <= i < |k| :: LinkOk(g, d, k, i)
    requires forall i | 0 <= i < |l| :: LinkOk(g, d, l, i)
    requires k != [] && l != [] && k[0] == l[0]
    ensures k == l
  {
    SameLinks(g, d, k, l, |k| - 1);
    SameLinks(g, d, l, k, |l| - 1);
    forall i | 0 <= i < |k| ensures k[i] == l[i] { SameLinks(g, d, k, l, i); }
  }

  /** Taking the lowest free entries first, the whole chain is on the disk
      exactly when the disk had that many free clusters. */
  lemma AllOnDiskIff(g: Geometry, d0: Disk, d: Disk, l: seq<int>, content: seq<int>, skip: int)
    requires Written(g, d0, d, l, content, skip) && Lowest(g, d, l) && ReservedInUse(g, d0)
    ensures (forall i | 0 <= i < |l| :: OnDisk(g, d, l[i])) <==> |l| <= |FreeOnDisk(g, d0)|
  {
    var taken := set x | x in l;
    DistinctSize(l);
    forall i | 0 <= i < |l| ensures IsFree(g, d0, l[i]) { ChainInUse(g, d0, d, l, content, skip, i); }
    if forall i | 0 <= i < |l| :: OnDisk(g, d, l[i]) {
      SubsetSize(taken, FreeOnDisk(g, d0));
    } else {
      var i :| 0 <= i < |l| && !OnDisk(g, d, l[i]);
      ChainInUse(g, d0, d, l, content, skip, i);
      forall f | f in FreeOnDisk(g, d0) ensures f in taken - {l[i]} {
        if f >= l[i] && f != l[i] { ClusterSectorsApart(g, l[i], f); }
        assert f < l[i];
        if f !in l { assert IsFree(g, d, f); }
      }
      SubsetSize(FreeOnDisk(g, d0), taken - {l[i]});
      assert |taken - {l[i]}| == |taken| - 1;
    }
  }

  /** The free entries left are those not taken. */
  lemma FreeLeft(g: Geometry, d0: Disk, d: Disk, l: seq<int>, content: seq<int>, skip: int)
    requires Written(g, d0, d, l, content, skip)
    ensures |FreeEntries(g, d)| == |FreeEntries(g, d0)| - |l|
  {
    var taken := set x | x in l;
    forall i | 0 <= i < |l| ensures l[i] in FreeEntries(g, d0) && l[i] !in FreeEntries(g, d) {
      ChainInUse(g, d0, d, l, content, skip, i);
    }
    assert FreeEntries(g, d) == FreeEntries(g, d0) - taken;
    DistinctSize(l);
  }
}
