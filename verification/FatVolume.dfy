/** A FAT32 volume as an array of 512-byte sectors: where table entries and
    clusters live in it, and what one write changes. */
module FatVolume {
  import opened Buffers

  const SECTOR: nat := 512
  const PER_SECTOR: nat := 128
  const EOC_MIN: nat := 0x0fff_fff8
  const EOC_MAX: nat := 0x0fff_ffff
  /** `static_cast<uint32_t>(-1)`: no free cluster. */
  const NO_CLUSTER: nat := 0xffff_ffff

  predicate IsEoc(x: int) { EOC_MIN <= x <= EOC_MAX }

  /** The fields of the boot sector that the file code uses. */
  datatype Geometry = Geometry(reserved: nat, tableSize: nat, sectorsPerCluster: nat)

  type Sector = seq<int>
  type Disk = seq<Sector>

  function NrEntries(g: Geometry): nat { g.tableSize * PER_SECTOR }

  function DataStart(g: Geometry): nat { g.reserved + g.tableSize + g.tableSize }

  function EntrySector(g: Geometry, i: nat): nat { g.reserved + i / PER_SECTOR }

  function ClusterSector(g: Geometry, n: int): int { DataStart(g) + (n - 2) * g.sectorsPerCluster }

  /** Both tables are on the disk, sectors have their size, the table has fewer
      entries than there are cluster numbers, and sector numbers fit 32 bits. */
  ghost predicate DiskOk(g: Geometry, d: Disk) {
    && g.sectorsPerCluster >= 1 && NrEntries(g) <= EOC_MIN && DataStart(g) <= |d|
    && DataStart(g) + NrEntries(g) * g.sectorsPerCluster <= TWO_32
    && forall s {:trigger d[s]} | 0 <= s < |d| :: |d[s]| == SECTOR
  }

  /** A cluster number with a sector on the disk. */
  predicate OnDisk(g: Geometry, d: Disk, n: int) {
    2 <= n < NrEntries(g) && ClusterSector(g, n) < |d|
  }

  /** Two tables follow the reserved sectors, and the clusters, numbered from 2 on,
      follow the tables. */
  lemma Regions(g: Geometry, i: nat, n: int)
    ensures EntrySector(g, i) == g.reserved + i / 128
    ensures ClusterSector(g, 2) == g.reserved + 2 * g.tableSize
    ensures ClusterSector(g, n + 1) == ClusterSector(g, n) + g.sectorsPerCluster
    ensures ClusterSector(g, n) == g.reserved + 2 * g.tableSize + (n - 2) * g.sectorsPerCluster
  {
    assert (n + 1 - 2) * g.sectorsPerCluster == (n - 2) * g.sectorsPerCluster + g.sectorsPerCluster;
  }

  /** The sector number as computed, in 32 bits, for any number. */
  function SectorOf(g: Geometry, n: nat): nat { (DataStart(g) + (n - 2) * g.sectorsPerCluster) % TWO_32 }

  lemma SectorOfCluster(g: Geometry, n: int)
    requires 2 <= n < NrEntries(g) && g.sectorsPerCluster >= 1
    requires DataStart(g) + NrEntries(g) * g.sectorsPerCluster <= TWO_32
    ensures SectorOf(g, n) == ClusterSector(g, n) >= DataStart(g)
  {
    ProductBelow(n - 2, NrEntries(g), g.sectorsPerCluster);
  }

  lemma ProductBelow(x: int, y: int, k: int)
    requires 0 <= x < y && k >= 1
    ensures 0 <= x * k < y * k
  {
    assert (y - x) * k >= 1;
  }

  // ---- reading --------------------------------------------------------------------

  /** Entry `i` of the first table. */
  function Fat(g: Geometry, d: Disk, i: int): int
    requires DiskOk(g, d) && 0 <= i < NrEntries(g)
  {
    SectorInTable(g, i);
    Word32(d[EntrySector(g, i)][4 * (i % PER_SECTOR)..4 * (i % PER_SECTOR) + 4])
  }

  function Cluster(g: Geometry, d: Disk, n: int): (r: Sector)
    requires DiskOk(g, d) && OnDisk(g, d, n)
    ensures |r| == SECTOR
  {
    ClusterSectorInData(g, n);
    d[ClusterSector(g, n)]
  }

  lemma SectorInTable(g: Geometry, i: int)
    requires 0 <= i < NrEntries(g)
    ensures g.reserved <= EntrySector(g, i) < g.reserved + g.tableSize
  {
    assert i / PER_SECTOR < g.tableSize;
  }

  lemma ClusterSectorInData(g: Geometry, n: int)
    requires n >= 2
    ensures ClusterSector(g, n) >= DataStart(g)
  {
    assert (n - 2) * g.sectorsPerCluster >= 0;
  }

  lemma ClusterSectorsApart(g: Geometry, m: int, n: int)
    requires g.sectorsPerCluster >= 1 && m < n
    ensures ClusterSector(g, m) < ClusterSector(g, n)
  {
    assert (n - 2) * g.sectorsPerCluster - (m - 2) * g.sectorsPerCluster == (n - m) * g.sectorsPerCluster;
    assert (n - m) * g.sectorsPerCluster >= 1;
  }

  // ---- writing --------------------------------------------------------------------

  function PutFat(g: Geometry, d: Disk, i: int, v: int): Disk
    requires DiskOk(g, d) && 0 <= i < NrEntries(g)
  {
    SectorInTable(g, i);
    d[EntrySector(g, i) := Splice(d[EntrySector(g, i)], 4 * (i % PER_SECTOR), Bytes32(v))]
  }

  /** Writing a table entry changes that entry and no other, and no cluster. */
  lemma PutFatSpec(g: Geometry, d: Disk, i: int, v: int)
    requires DiskOk(g, d) && 0 <= i < NrEntries(g) && 0 <= v < TWO_32
    ensures DiskOk(g, PutFat(g, d, i, v)) && |PutFat(g, d, i, v)| == |d|
    ensures forall j | 0 <= j < NrEntries(g) :: Fat(g, PutFat(g, d, i, v), j) == if j == i then v else Fat(g, d, j)
    ensures forall s | DataStart(g) <= s < |d| :: PutFat(g, d, i, v)[s] == d[s]
  {
    SectorInTable(g, i);
    var d' := PutFat(g, d, i, v);
    var was := d[EntrySector(g, i)];
    SpliceSlice(was, 4 * (i % PER_SECTOR), Bytes32(v));
    Word32Stored(v);
    forall j | 0 <= j < NrEntries(g)
      ensures Fat(g, d', j) == if j == i then v else Fat(g, d, j)
    {
      SectorInTable(g, j);
      if j != i && EntrySector(g, j) == EntrySector(g, i) {
        assert j % PER_SECTOR != i % PER_SECTOR;
      }
    }
  }

  function PutCluster(g: Geometry, d: Disk, n: int, block: Sector): (r: Disk)
    requires OnDisk(g, d, n)
    ensures |r| == |d|
  {
    ClusterSectorInData(g, n);
    d[ClusterSector(g, n) := block]
  }

  lemma PutClusterOther(g: Geometry, d: Disk, n: int, block: Sector, m: int)
    requires DiskOk(g, d) && OnDisk(g, d, n) && OnDisk(g, d, m) && m != n
    ensures 0 <= ClusterSector(g, m) < |d|
    ensures PutCluster(g, d, n, block)[ClusterSector(g, m)] == d[ClusterSector(g, m)]
  {
    ClusterSectorInData(g, m);
    if m < n { ClusterSectorsApart(g, m, n); } else { ClusterSectorsApart(g, n, m); }
  }

  lemma PutClusterSpec(g: Geometry, d: Disk, n: int, block: Sector)
    requires DiskOk(g, d) && OnDisk(g, d, n) && |block| == SECTOR
    ensures DiskOk(g, PutCluster(g, d, n, block)) && |PutCluster(g, d, n, block)| == |d|
    ensures forall j | 0 <= j < NrEntries(g) :: Fat(g, PutCluster(g, d, n, block), j) == Fat(g, d, j)
    ensures forall m | OnDisk(g, d, m) ::
              Cluster(g, PutCluster(g, d, n, block), m) == if m == n then block else Cluster(g, d, m)
  {
    ClusterSectorInData(g, n);
    var d' := PutCluster(g, d, n, block);
    assert DiskOk(g, d');
    forall j | 0 <= j < NrEntries(g) ensures Fat(g, d', j) == Fat(g, d, j) {
      SectorInTable(g, j);
    }
    forall m | OnDisk(g, d, m) ensures Cluster(g, d', m) == if m == n then block else Cluster(g, d, m) {
      if m != n { PutClusterOther(g, d, n, block, m); }
    }
  }

  // ---- free clusters ---------------------------------------------------------------

  ghost predicate IsFree(g: Geometry, d: Disk, i: int)
    requires DiskOk(g, d)
  {
    0 <= i < NrEntries(g) && Fat(g, d, i) == 0
  }

  /** Free clusters that have a sector on the disk. */
  ghost function FreeOnDisk(g: Geometry, d: Disk): set<int>
    requires DiskOk(g, d)
  {
    set i | 0 <= i < NrEntries(g) && OnDisk(g, d, i) && IsFree(g, d, i)
  }

  /** The lowest free entry, or NO_CLUSTER. */
  ghost predicate IsFirstFree(g: Geometry, d: Disk, n: int)
    requires DiskOk(g, d)
  {
    if n == NO_CLUSTER then forall i | 0 <= i < NrEntries(g) :: !IsFree(g, d, i)
    else IsFree(g, d, n) && forall i | 0 <= i < n :: !IsFree(g, d, i)
  }

  /** The first two entries are reserved and never zero. */
  ghost predicate ReservedInUse(g: Geometry, d: Disk)
    requires DiskOk(g, d)
  {
    !IsFree(g, d, 0) && !IsFree(g, d, 1)
  }

}
