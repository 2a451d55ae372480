/** Physical memory seen as page tables and data frames, the invariant that the
    kernel keeps over it, and what each elementary update does to it. */
module PageTables {

  const NR_FRAMES: nat := 512
  const NR_ENTRIES: nat := 512
  const PAGE_SIZE: nat := 4096
  /** No space is being torn down. */
  const NONE: int := -1

  type Byte = bv8

  /** What the MMU takes an entry for: it refuses some, follows others to the next
      table, and lets programs use normal memory through user pages. */
  datatype Kind = Unusable | NextTable | UserPage

  /** A page descriptor: the bits that the kernel and the MMU look at. */
  datatype Desc = Desc(valid: bool, kind: Kind, frame: int, readOnly: bool, cow: bool, execNever: bool)

  const EMPTY: Desc := Desc(false, Unusable, 0, false, false, false)

  function TableDesc(c: int): Desc { Desc(true, NextTable, c, false, false, false) }

  /** What fork writes for both sides of a shared page. */
  function SharedDesc(f: int): Desc { Desc(true, UserPage, f, true, true, false) }

  /** What the fault step writes for a page that gets a frame of its own. */
  function PrivateDesc(f: int): Desc { Desc(true, UserPage, f, false, false, false) }

  datatype Content = Table(entries: seq<Desc>) | Data(bytes: seq<Byte>)

  function EmptyTable(): Content { Table(seq(NR_ENTRIES, _ => EMPTY)) }

  /** A place in the page tables of a space, which is named by its top-level
      frame: the table indices from the top. One to three indices name a
      table entry or the table below it, four name a leaf. */
  datatype Key = Key(space: int, path: seq<int>)

  function Parent(k: Key): Key
    requires k.path != []
  {
    Key(k.space, k.path[..|k.path| - 1])
  }

  function Last(k: Key): int
    requires k.path != []
  {
    k.path[|k.path| - 1]
  }

  function Child(k: Key, i: int): Key { Key(k.space, k.path + [i]) }

  lemma ChildParent(k: Key, i: int)
    ensures Child(k, i).path != [] && Parent(Child(k, i)) == k && Last(Child(k, i)) == i
  {
  }

  lemma ParentChild(k: Key)
    requires k.path != []
    ensures Child(Parent(k), Last(k)) == k
  {
    assert k.path == k.path[..|k.path| - 1] + [k.path[|k.path| - 1]];
  }

  /** Memory, reference counts and free frames, together with what the tables
      mean: the frame of each table, and the descriptor of each mapped page.*/
  datatype Sys = Sys(
    mem: seq<Content>,
    refs: seq<int>,
    free: set<int>,
    at: map<Key, int>,
    leaf: map<Key, Desc>)

  ghost predicate Sized(s: Sys) {
    && |s.mem| == |s.refs| == NR_FRAMES
    && (forall f | f in s.free :: 0 <= f < NR_FRAMES)
  }

  ghost predicate IsTable(s: Sys, t: int)
    requires Sized(s)
  {
    0 <= t < NR_FRAMES && t !in s.free && s.mem[t].Table? && |s.mem[t].entries| == NR_ENTRIES
  }

  ghost predicate IsData(s: Sys, f: int)
    requires Sized(s)
  {
    0 <= f < NR_FRAMES && f !in s.free && s.mem[f].Data? && |s.mem[f].bytes| == PAGE_SIZE
  }

  ghost predicate HasTable(s: Sys, k: Key)
    requires Sized(s)
  {
    k in s.at && IsTable(s, s.at[k])
  }

  function Entry(s: Sys, k: Key, i: int): Desc
    requires Sized(s) && HasTable(s, k) && 0 <= i < NR_ENTRIES
  {
    s.mem[s.at[k]].entries[i]
  }

  /** A lower table is what its parent's entry points to. */
  ghost predicate TableOk(s: Sys, k: Key)
    requires Sized(s) && k in s.at
  {
    && HasTable(s, k) && |k.path| <= 3
    && (k.path == [] ==> s.at[k] == k.space)
    && (k.path != [] ==>
          && 0 <= Last(k) < NR_ENTRIES && HasTable(s, Parent(k))
          && Entry(s, Parent(k), Last(k)) == TableDesc(s.at[k]))
  }

  ghost predicate LeafOk(s: Sys, k: Key)
    requires Sized(s) && k in s.leaf
  {
    && |k.path| == 4 && 0 <= Last(k) < NR_ENTRIES && HasTable(s, Parent(k))
    && Entry(s, Parent(k), Last(k)) == s.leaf[k]
    && s.leaf[k].valid && s.leaf[k].kind.UserPage? && IsData(s, s.leaf[k].frame)
  }

  /** A valid entry leads to a known table or a known leaf; others are zero. */
  ghost predicate EntryKnown(s: Sys, k: Key, i: int)
    requires Sized(s) && 0 <= i < NR_ENTRIES
  {
    && HasTable(s, k)
    && (if !Entry(s, k, i).valid then Entry(s, k, i) == EMPTY
        else if |k.path| < 3 then Child(k, i) in s.at else Child(k, i) in s.leaf)
  }

  /** Different keys have different table frames. */
  ghost predicate Apart(s: Sys, j: Key, k: Key)
    requires j in s.at && k in s.at
  {
    s.at[j] == s.at[k] ==> j == k
  }

  ghost predicate Structured(s: Sys)
    requires Sized(s)
  {
    && (forall k {:trigger TableOk(s, k)} | k in s.at :: TableOk(s, k))
    && (forall k {:trigger LeafOk(s, k)} | k in s.leaf :: LeafOk(s, k))
    && (forall j, k {:trigger Apart(s, j, k)} | j in s.at && k in s.at :: Apart(s, j, k))
  }

  ghost predicate Complete(s: Sys, busy: int)
    requires Sized(s) && Structured(s)
  {
    forall k, i {:trigger EntryKnown(s, k, i)} | k in s.at && k.space != busy && 0 <= i < NR_ENTRIES ::
      EntryKnown(s, k, i)
  }

  ghost function Holders(leaf: map<Key, Desc>, f: int): set<Key> {
    set k | k in leaf && leaf[k].frame == f
  }

  ghost predicate CountedAt(s: Sys, f: int)
    requires Sized(s) && 0 <= f < NR_FRAMES
  {
    s.refs[f] == |Holders(s.leaf, f)|
  }

  /** Each count is the number of leaf entries that point at the frame. */
  ghost predicate Counted(s: Sys)
    requires Sized(s)
  {
    forall f {:trigger CountedAt(s, f)} | 0 <= f < NR_FRAMES :: CountedAt(s, f)
  }

  ghost predicate SolePair(leaf: map<Key, Desc>, j: Key, k: Key)
    requires j in leaf && k in leaf
  {
    j != k && leaf[j].frame == leaf[k].frame ==> leaf[j].readOnly
  }

  /** Two leaves that share a frame are both read-only: a writable leaf is the
      only reference to its frame. */
  ghost predicate Sole(leaf: map<Key, Desc>) {
    forall j, k {:trigger SolePair(leaf, j, k)} | j in leaf && k in leaf :: SolePair(leaf, j, k)
  }

  /** The invariant; `busy` names the space being torn down, if any. */
  ghost predicate Inv(s: Sys, busy: int) {
    Sized(s) && Structured(s) && Complete(s, busy) && Counted(s) && Sole(s.leaf)
  }

  lemma ApartFrame(s: Sys, s': Sys)
    requires Sized(s) && Structured(s)
    requires forall k | k in s'.at :: k in s.at && s'.at[k] == s.at[k]
    ensures forall j, k | j in s'.at && k in s'.at :: Apart(s', j, k)
  {
    forall j, k | j in s'.at && k in s'.at ensures Apart(s', j, k) {
      assert Apart(s, j, k);
    }
  }

  // ---- counting ------------------------------------------------------------

  function Bump(refs: seq<int>, f: int, d: int): seq<int>
    requires 0 <= f < |refs|
  {
    refs[f := refs[f] + d]
  }

  lemma SameCounts(s: Sys, s': Sys)
    requires Sized(s) && Sized(s') && Counted(s) && s'.refs == s.refs && s'.leaf == s.leaf
    ensures Counted(s')
  {
    forall f | 0 <= f < NR_FRAMES ensures CountedAt(s', f) {
      assert CountedAt(s, f);
    }
  }

  lemma HoldersAdd(leaf: map<Key, Desc>, k: Key, d: Desc, f: int)
    requires k !in leaf
    ensures |Holders(leaf[k := d], f)| == |Holders(leaf, f)| + (if d.frame == f then 1 else 0)
  {
    var h := Holders(leaf, f);
    assert Holders(leaf[k := d], f) == if d.frame == f then h + {k} else h;
  }

  lemma HoldersDrop(leaf: map<Key, Desc>, k: Key, f: int)
    requires k in leaf
    ensures |Holders(leaf - {k}, f)| == |Holders(leaf, f)| - (if leaf[k].frame == f then 1 else 0)
  {
    var h := Holders(leaf, f);
    assert Holders(leaf - {k}, f) == h - {k};
  }

  // ---- writing a leaf entry --------------------------------------------------

  /** Table slot (k, i) gets descriptor d. */
  function PutEntry(s: Sys, k: Key, i: int, d: Desc): seq<Content>
    requires Sized(s) && HasTable(s, k) && 0 <= i < NR_ENTRIES
  {
    s.mem[s.at[k] := Table(s.mem[s.at[k]].entries[i := d])]
  }

  /** The slot of leaf key `k` exists. */
  ghost predicate Slot(s: Sys, k: Key) {
    Sized(s) && |k.path| == 4 && 0 <= Last(k) < NR_ENTRIES && HasTable(s, Parent(k))
  }

  /** Set or replace a leaf, moving one reference from the old frame, if any,
      to the new one. */
  ghost function PutLeaf(s: Sys, k: Key, d: Desc): Sys
    requires Slot(s, k) && 0 <= d.frame < NR_FRAMES
    requires k in s.leaf ==> 0 <= s.leaf[k].frame < NR_FRAMES
  {
    var refs := if k in s.leaf then Bump(s.refs, s.leaf[k].frame, -1) else s.refs;
    s.(mem := PutEntry(s, Parent(k), Last(k), d), refs := Bump(refs, d.frame, 1), leaf := s.leaf[k := d])
  }

  /** Clear a leaf and drop its reference. */
  ghost function ClearLeaf(s: Sys, k: Key): Sys
    requires Slot(s, k) && k in s.leaf && 0 <= s.leaf[k].frame < NR_FRAMES
  {
    s.(mem := PutEntry(s, Parent(k), Last(k), EMPTY), refs := Bump(s.refs, s.leaf[k].frame, -1), leaf := s.leaf - {k})
  }

  /** `d` may become the leaf at `k`: nobody else writes to its frame, and it
      writes only if nobody else has the frame. */
  ghost predicate MayPut(s: Sys, k: Key, d: Desc) {
    && Slot(s, k) && d.valid && d.kind.UserPage? && IsData(s, d.frame)
    && (forall j | j in s.leaf && j != k && s.leaf[j].frame == d.frame :: s.leaf[j].readOnly && d.readOnly)
  }

  /** Entries of other slots keep their value. */
  lemma PutEntryFrame(s: Sys, s': Sys, k: Key, i: int, d: Desc, j: Key, e: int)
    requires Sized(s) && Structured(s) && Sized(s') && k in s.at && 0 <= i < NR_ENTRIES && j in s.at &&
             0 <= e < NR_ENTRIES
    requires TableOk(s, k) && TableOk(s, j)
    requires s'.mem == PutEntry(s, k, i, d) && s'.at == s.at && s'.free == s.free
    ensures HasTable(s', j) && Entry(s', j, e) == if j == k && e == i then d else Entry(s, j, e)
  {
    assert Apart(s, j, k);
  }

  lemma PutKeepsTables(s: Sys, s': Sys, k: Key, d: Desc)
    requires Sized(s) && Structured(s) && Slot(s, k) && Sized(s')
    requires s'.mem == PutEntry(s, Parent(k), Last(k), d) && s'.at == s.at && s'.free == s.free
    ensures forall j | j in s'.at :: TableOk(s', j)
  {
    forall j | j in s'.at
      ensures TableOk(s', j)
    {
      assert TableOk(s, j) && TableOk(s, Parent(k));
      if j.path != [] {
        assert TableOk(s, Parent(j));
        PutEntryFrame(s, s', Parent(k), Last(k), d, Parent(j), Last(j));
      }
    }
  }

  lemma PutKeepsLeaves(s: Sys, s': Sys, k: Key, d: Desc, j: Key)
    requires Sized(s) && Structured(s) && Slot(s, k) && Sized(s')
    requires s'.mem == PutEntry(s, Parent(k), Last(k), d) && s'.at == s.at && s'.free == s.free
    requires j in s.leaf && j != k && j in s'.leaf && s'.leaf[j] == s.leaf[j]
    ensures LeafOk(s', j)
  {
    assert LeafOk(s, j) && TableOk(s, Parent(k)) && TableOk(s, Parent(j));
    PutEntryFrame(s, s', Parent(k), Last(k), d, Parent(j), Last(j));
    ParentChild(j);
    ParentChild(k);
  }

  lemma PutKeepsComplete(s: Sys, s': Sys, k: Key, d: Desc, busy: int)
    requires Sized(s) && Structured(s) && Complete(s, busy) && Slot(s, k) && Sized(s') && Structured(s')
    requires s'.mem == PutEntry(s, Parent(k), Last(k), d) && s'.at == s.at && s'.free == s.free
    requires forall j | j in s.leaf && j != k :: j in s'.leaf
    requires if d.valid then k in s'.leaf else d == EMPTY
    ensures Complete(s', busy)
  {
    forall j, i | j in s'.at && j.space != busy && 0 <= i < NR_ENTRIES
      ensures EntryKnown(s', j, i)
    {
      assert TableOk(s, j) && TableOk(s, Parent(k)) && EntryKnown(s, j, i);
      PutEntryFrame(s, s', Parent(k), Last(k), d, j, i);
      ParentChild(k);
      ChildParent(j, i);
    }
  }

  lemma PutLeafStructured(s: Sys, k: Key, d: Desc)
    requires Sized(s) && Structured(s) && MayPut(s, k, d)
    requires k in s.leaf ==> 0 <= s.leaf[k].frame < NR_FRAMES
    ensures Structured(PutLeaf(s, k, d))
  {
    var s' := PutLeaf(s, k, d);
    PutKeepsTables(s, s', k, d);
    ApartFrame(s, s');
    assert TableOk(s, Parent(k));
    forall j | j in s'.leaf
      ensures LeafOk(s', j)
    {
      if j == k {
        PutEntryFrame(s, s', Parent(k), Last(k), d, Parent(k), Last(k));
      } else {
        PutKeepsLeaves(s, s', k, d, j);
      }
    }
  }

  lemma PutLeafKeepsInv(s: Sys, k: Key, d: Desc, busy: int)
    requires Inv(s, busy) && MayPut(s, k, d)
    ensures k in s.leaf ==> 0 <= s.leaf[k].frame < NR_FRAMES
    ensures Inv(PutLeaf(s, k, d), busy)
  {
    if k in s.leaf { assert LeafOk(s, k); }
    PutLeafStructured(s, k, d);
    PutKeepsComplete(s, PutLeaf(s, k, d), k, d, busy);
    PutLeafCounts(s, k, d);
    PutLeafSole(s, k, d);
  }

  lemma PutLeafSole(s: Sys, k: Key, d: Desc)
    requires Sole(s.leaf) && MayPut(s, k, d)
    ensures Sole(s.leaf[k := d])
  {
    var leaf := s.leaf[k := d];
    forall i, j | i in leaf && j in leaf ensures SolePair(leaf, i, j) {
      if i in s.leaf && j in s.leaf { assert SolePair(s.leaf, i, j); }
    }
  }

  lemma PutLeafCounts(s: Sys, k: Key, d: Desc)
    requires Sized(s) && Counted(s) && Slot(s, k) && 0 <= d.frame < NR_FRAMES
    requires k in s.leaf ==> 0 <= s.leaf[k].frame < NR_FRAMES
    ensures Counted(PutLeaf(s, k, d))
  {
    var s' := PutLeaf(s, k, d);
    forall f | 0 <= f < NR_FRAMES
      ensures CountedAt(s', f)
    {
      assert CountedAt(s, f);
      if k in s.leaf {
        HoldersDrop(s.leaf, k, f);
        HoldersAdd(s.leaf - {k}, k, d, f);
        assert (s.leaf - {k})[k := d] == s.leaf[k := d];
      } else {
        HoldersAdd(s.leaf, k, d, f);
      }
    }
  }

  lemma DropSole(leaf: map<Key, Desc>, k: Key)
    requires Sole(leaf)
    ensures Sole(leaf - {k})
  {
    forall i, j | i in leaf - {k} && j in leaf - {k} ensures SolePair(leaf - {k}, i, j) {
      assert SolePair(leaf, i, j);
    }
  }

  lemma ClearLeafStructured(s: Sys, k: Key)
    requires Sized(s) && Structured(s) && k in s.leaf && LeafOk(s, k)
    ensures Structured(ClearLeaf(s, k))
  {
    var s' := ClearLeaf(s, k);
    PutKeepsTables(s, s', k, EMPTY);
    ApartFrame(s, s');
    forall j | j in s'.leaf
      ensures LeafOk(s', j)
    {
      PutKeepsLeaves(s, s', k, EMPTY, j);
    }
  }

  lemma ClearLeafKeepsInv(s: Sys, k: Key, busy: int)
    requires Inv(s, busy) && k in s.leaf
    ensures Slot(s, k) && 0 <= s.leaf[k].frame < NR_FRAMES
    ensures Inv(ClearLeaf(s, k), busy)
  {
    assert LeafOk(s, k);
    var s' := ClearLeaf(s, k);
    ClearLeafStructured(s, k);
    PutKeepsComplete(s, s', k, EMPTY, busy);
    DropSole(s.leaf, k);
    forall f | 0 <= f < NR_FRAMES
      ensures CountedAt(s', f)
    {
      assert CountedAt(s, f);
      HoldersDrop(s.leaf, k, f);
    }
  }

  // ---- growing the tables ----------------------------------------------------

  /** A new, empty table `c` below entry (k, i). */
  ghost function AddTable(s: Sys, k: Key, i: int, c: int): Sys
    requires Sized(s) && HasTable(s, k) && 0 <= i < NR_ENTRIES && 0 <= c < NR_FRAMES && c != s.at[k]
  {
    s.(mem := s.mem[c := EmptyTable()][s.at[k] := Table(s.mem[s.at[k]].entries[i := TableDesc(c)])],
       free := s.free - {c}, at := s.at[Child(k, i) := c])
  }

  ghost predicate MayAdd(s: Sys, k: Key, i: int, c: int) {
    && Sized(s) && HasTable(s, k) && |k.path| < 3 && 0 <= i < NR_ENTRIES && c in s.free
    && !Entry(s, k, i).valid
  }

  lemma AddTableEntries(s: Sys, k: Key, i: int, c: int, j: Key, e: int)
    requires MayAdd(s, k, i, c) && Structured(s) && j in s.at && 0 <= e < NR_ENTRIES
    ensures Child(k, i) !in s.at && HasTable(s, j)
    ensures var s' := AddTable(s, k, i, c);
            HasTable(s', j) && Entry(s', j, e) == if j == k && e == i then TableDesc(c) else Entry(s, j, e)
  {
    assert TableOk(s, j) && TableOk(s, k) && Apart(s, j, k);
    ChildParent(k, i);
    assert Child(k, i) in s.at ==> TableOk(s, Child(k, i));
  }

  lemma AddTableTables(s: Sys, k: Key, i: int, c: int, j: Key)
    requires MayAdd(s, k, i, c) && Structured(s) && j in AddTable(s, k, i, c).at
    ensures TableOk(AddTable(s, k, i, c), j)
  {
    ChildParent(k, i);
    AddTableEntries(s, k, i, c, k, i);
    if j != Child(k, i) {
      assert TableOk(s, j);
      AddTableEntries(s, k, i, c, j, 0);
      if j.path != [] {
        ParentChild(j);
        AddTableEntries(s, k, i, c, Parent(j), Last(j));
      }
    }
  }

  lemma AddTableLeaves(s: Sys, k: Key, i: int, c: int, j: Key)
    requires MayAdd(s, k, i, c) && Structured(s) && j in s.leaf
    ensures LeafOk(AddTable(s, k, i, c), j)
  {
    assert LeafOk(s, j) && TableOk(s, k);
    AddTableEntries(s, k, i, c, Parent(j), Last(j));
  }

  lemma AddTableStructured(s: Sys, k: Key, i: int, c: int)
    requires MayAdd(s, k, i, c) && Structured(s)
    ensures Structured(AddTable(s, k, i, c))
  {
    var s' := AddTable(s, k, i, c);
    forall j | j in s'.at ensures TableOk(s', j) { AddTableTables(s, k, i, c, j); }
    forall j | j in s'.leaf ensures LeafOk(s', j) { AddTableLeaves(s, k, i, c, j); }
    forall j, e | j in s'.at && e in s'.at
      ensures Apart(s', j, e)
    {
      if j in s.at { assert TableOk(s, j); }
      if e in s.at { assert TableOk(s, e); }
      if j in s.at && e in s.at { assert Apart(s, j, e); }
    }
  }

  lemma AddTableComplete(s: Sys, k: Key, i: int, c: int, busy: int)
    requires MayAdd(s, k, i, c) && Structured(s) && Complete(s, busy) && Structured(AddTable(s, k, i, c))
    ensures Complete(AddTable(s, k, i, c), busy)
  {
    var s' := AddTable(s, k, i, c);
    forall j, e | j in s'.at && j.space != busy && 0 <= e < NR_ENTRIES
      ensures EntryKnown(s', j, e)
    {
      assert TableOk(s', j);
      ChildParent(k, i);
      if j in s.at {
        assert EntryKnown(s, j, e);
        AddTableEntries(s, k, i, c, j, e);
      } else {
        assert TableOk(s, k);
      }
    }
  }

  lemma AddTableKeepsInv(s: Sys, k: Key, i: int, c: int, busy: int)
    requires Inv(s, busy) && MayAdd(s, k, i, c)
    ensures c != s.at[k] && Child(k, i) !in s.at && Inv(AddTable(s, k, i, c), busy)
  {
    AddTableEntries(s, k, i, c, k, i);
    AddTableStructured(s, k, i, c);
    AddTableComplete(s, k, i, c, busy);
    SameCounts(s, AddTable(s, k, i, c));
  }

  // ---- the walk refines a flat map -------------------------------------------

  /** What the MMU finds from table `t` along `path`, looking at memory only;
      EMPTY when the walk hits an entry that is invalid or that it refuses. */
  function Resolve(mem: seq<Content>, t: int, path: seq<int>): Desc
    decreases |path|
  {
    if path == [] || !(0 <= t < |mem|) || mem[t].Data? || !(0 <= path[0] < |mem[t].entries|) then EMPTY
    else
      var d := mem[t].entries[path[0]];
      if !d.valid || d.kind.Unusable? || (|path| == 1 && !d.kind.UserPage?) then EMPTY
      else if |path| == 1 then d
      else Resolve(mem, d.frame, path[1..])
  }

  predicate PathOk(path: seq<int>) {
    |path| == 4 && forall i | 0 <= i < 4 :: 0 <= path[i] < NR_ENTRIES
  }

  /** Every mapped page has its tables: all prefixes of its path are tables. */
  lemma {:induction false} PrefixesAreTables(s: Sys, k: Key, n: nat)
    requires Sized(s) && Structured(s) && (k in s.at || k in s.leaf) && n < |k.path|
    ensures Key(k.space, k.path[..n]) in s.at
    decreases |k.path| - n
  {
    if k in s.leaf { assert LeafOk(s, k); } else { assert TableOk(s, k); }
    if n + 1 < |k.path| {
      PrefixesAreTables(s, k, n + 1);
      var up := Key(k.space, k.path[..n + 1]);
      assert TableOk(s, up);
      assert Parent(up) == Key(k.space, k.path[..n]);
    }
  }

  /** From any table on the way, the walk over memory ends where the flat map
      says; an unmapped page ends in an invalid descriptor. */
  lemma {:induction false} ResolveFrom(s: Sys, k: Key, n: nat, busy: int)
    requires Inv(s, busy) && PathOk(k.path) && n <= 3 && k.space != busy
    requires Key(k.space, k.path[..n]) in s.at
    ensures var d := Resolve(s.mem, s.at[Key(k.space, k.path[..n])], k.path[n..]);
            d.valid == (k in s.leaf) && (d.valid ==> d == s.leaf[k])
    decreases 4 - n
  {
    var here := Key(k.space, k.path[..n]);
    assert TableOk(s, here) && EntryKnown(s, here, k.path[n]);
    assert k.path[n..][0] == k.path[n] && k.path[n..][1..] == k.path[n + 1..];
    assert Child(here, k.path[n]).path == k.path[..n + 1];
    ChildParent(here, k.path[n]);
    if n == 3 {
      assert k.path[..4] == k.path;
      if k in s.leaf { assert LeafOk(s, k); }
    } else if Entry(s, here, k.path[n]).valid {
      assert TableOk(s, Child(here, k.path[n]));
      ResolveFrom(s, k, n + 1, busy);
    } else {
      assert Child(here, k.path[n]) in s.at ==> TableOk(s, Child(here, k.path[n]));
      if k in s.leaf { PrefixesAreTables(s, k, n + 1); }
    }
  }

  /** The four-level walk refines the flat map from pages to descriptors. */
  lemma ResolveIsLookup(s: Sys, k: Key)
    requires Inv(s, NONE) && PathOk(k.path) && Key(k.space, []) in s.at && k.space != NONE
    ensures Resolve(s.mem, k.space, k.path).valid <==> k in s.leaf
    ensures k in s.leaf ==> Resolve(s.mem, k.space, k.path) == s.leaf[k]
  {
    assert k.path[..0] == [] && k.path[0..] == k.path;
    assert TableOk(s, Key(k.space, []));
    ResolveFrom(s, k, 0, NONE);
  }

  // ---- tearing a space down --------------------------------------------------

  /** Teardown gives a leaf's reference back without touching its entry, and
      frees the frame with the last reference. */
  ghost function DropLeaf(s: Sys, k: Key): Sys
    requires Sized(s) && k in s.leaf && 0 <= s.leaf[k].frame < NR_FRAMES
  {
    var f := s.leaf[k].frame;
    s.(refs := Bump(s.refs, f, -1), leaf := s.leaf - {k},
       free := if s.refs[f] == 1 then s.free + {f} else s.free)
  }

  /** Memory unchanged, fewer tables and leaves known, none of them freed. */
  ghost predicate Shrinks(s: Sys, s': Sys) {
    && Sized(s) && Sized(s') && s'.mem == s.mem
    && (forall j | j in s'.at :: j in s.at && s'.at[j] == s.at[j] && s.at[j] !in s'.free &&
                                 (j.path != [] ==> Parent(j) in s'.at))
    && (forall j | j in s'.leaf :: j in s.leaf && s'.leaf[j] == s.leaf[j] && s.leaf[j].frame !in s'.free &&
                                   (j.path != [] ==> Parent(j) in s'.at))
  }

  lemma ShrinkStructured(s: Sys, s': Sys)
    requires Shrinks(s, s') && Structured(s)
    ensures Structured(s')
  {
    ApartFrame(s, s');
    forall j | j in s'.at
      ensures TableOk(s', j)
    {
      assert TableOk(s, j);
      if j.path != [] { assert TableOk(s, Parent(j)); }
    }
    forall j | j in s'.leaf
      ensures LeafOk(s', j)
    {
      assert LeafOk(s, j) && TableOk(s, Parent(j));
    }
  }

  lemma ShrinkComplete(s: Sys, s': Sys, busy: int)
    requires Shrinks(s, s') && Structured(s) && Structured(s') && Complete(s, busy)
    requires forall j | j in s.at && j.space != busy :: j in s'.at
    requires forall j | j in s.leaf && j.space != busy :: j in s'.leaf
    ensures Complete(s', busy)
  {
    forall j, i | j in s'.at && j.space != busy && 0 <= i < NR_ENTRIES
      ensures EntryKnown(s', j, i)
    {
      assert EntryKnown(s, j, i);
    }
  }

  /** A count of one means nobody else holds the frame. */
  lemma LastReference(s: Sys, k: Key)
    requires Sized(s) && Counted(s) && k in s.leaf && 0 <= s.leaf[k].frame < NR_FRAMES
    ensures s.refs[s.leaf[k].frame] == 1 <==> forall j | j in s.leaf && j != k :: s.leaf[j].frame != s.leaf[k].frame
  {
    var f := s.leaf[k].frame;
    assert CountedAt(s, f);
    HoldersDrop(s.leaf, k, f);
    var rest := Holders(s.leaf - {k}, f);
    if s.refs[f] == 1 {
      forall j | j in s.leaf && j != k ensures s.leaf[j].frame != f {
        assert j !in rest;
      }
    } else {
      assert (forall j :: j !in rest) ==> rest == {};
    }
  }

  lemma DropLeafShrinks(s: Sys, k: Key)
    requires Sized(s) && Structured(s) && k in s.leaf && LeafOk(s, k)
    requires s.refs[s.leaf[k].frame] == 1 ==> forall j | j in s.leaf && j != k :: s.leaf[j].frame != s.leaf[k].frame
    ensures Shrinks(s, DropLeaf(s, k))
  {
    var s' := DropLeaf(s, k);
    forall j | j in s'.leaf
      ensures s.leaf[j].frame !in s'.free && j.path != [] && Parent(j) in s'.at
    {
      assert LeafOk(s, j);
    }
    forall j | j in s'.at
      ensures s.at[j] !in s'.free && (j.path != [] ==> Parent(j) in s'.at)
    {
      assert TableOk(s, j);
    }
  }

  lemma DropLeafStructure(s: Sys, k: Key)
    requires Sized(s) && Structured(s) && Complete(s, k.space) && k in s.leaf && LeafOk(s, k)
    requires s.refs[s.leaf[k].frame] == 1 ==> forall j | j in s.leaf && j != k :: s.leaf[j].frame != s.leaf[k].frame
    ensures Sized(DropLeaf(s, k)) && Structured(DropLeaf(s, k)) && Complete(DropLeaf(s, k), k.space)
  {
    DropLeafShrinks(s, k);
    ShrinkStructured(s, DropLeaf(s, k));
    ShrinkComplete(s, DropLeaf(s, k), k.space);
  }

  lemma DropLeafKeepsInv(s: Sys, k: Key)
    requires Inv(s, k.space) && k in s.leaf
    ensures LeafOk(s, k) && Inv(DropLeaf(s, k), k.space)
  {
    assert LeafOk(s, k);
    LastReference(s, k);
    DropLeafStructure(s, k);
    DropLeafCounts(s, k);
  }

  lemma DropLeafCounts(s: Sys, k: Key)
    requires Sized(s) && Counted(s) && k in s.leaf && 0 <= s.leaf[k].frame < NR_FRAMES
    ensures Sized(DropLeaf(s, k)) && Counted(DropLeaf(s, k))
    ensures Sole(s.leaf) ==> Sole(DropLeaf(s, k).leaf)
  {
    forall g | 0 <= g < NR_FRAMES
      ensures CountedAt(DropLeaf(s, k), g)
    {
      assert CountedAt(s, g);
      HoldersDrop(s.leaf, k, g);
    }
    if Sole(s.leaf) { DropSole(s.leaf, k); }
  }

  /** A table whose contents have been given back is freed. */
  ghost function DropTable(s: Sys, k: Key): Sys
    requires k in s.at
  {
    s.(at := s.at - {k}, free := s.free + {s.at[k]})
  }

  ghost predicate Childless(s: Sys, k: Key) {
    && (forall j | j in s.at && j.path != [] :: Parent(j) != k)
    && (forall j | j in s.leaf && j.path != [] :: Parent(j) != k)
  }

  lemma DropTableShrinks(s: Sys, k: Key)
    requires Sized(s) && Structured(s) && k in s.at && Childless(s, k)
    ensures Shrinks(s, DropTable(s, k))
  {
    assert TableOk(s, k);
    var s' := DropTable(s, k);
    forall j | j in s'.at
      ensures s.at[j] !in s'.free && (j.path != [] ==> Parent(j) in s'.at)
    {
      assert TableOk(s, j) && Apart(s, j, k);
    }
    forall j | j in s'.leaf
      ensures s.leaf[j].frame !in s'.free && j.path != [] && Parent(j) in s'.at
    {
      assert LeafOk(s, j);
    }
  }

  lemma DropTableKeepsInv(s: Sys, k: Key)
    requires Inv(s, k.space) && k in s.at && Childless(s, k)
    ensures Inv(DropTable(s, k), k.space)
  {
    DropTableShrinks(s, k);
    ShrinkStructured(s, DropTable(s, k));
    ShrinkComplete(s, DropTable(s, k), k.space);
    SameCounts(s, DropTable(s, k));
  }

  /** The emptied top-level table is zeroed. */
  ghost function ZeroRoot(s: Sys, space: int): Sys
    requires Sized(s) && 0 <= space < NR_FRAMES
  {
    s.(mem := s.mem[space := EmptyTable()])
  }

  ghost predicate OnlyRoot(s: Sys, space: int) {
    && Key(space, []) in s.at
    && (forall j | j in s.at && j.space == space :: j.path == [])
    && (forall j | j in s.leaf :: j.space != space)
  }

  lemma ZeroRootStructured(s: Sys, space: int)
    requires Sized(s) && Structured(s) && OnlyRoot(s, space) && 0 <= space < NR_FRAMES
    ensures Structured(ZeroRoot(s, space))
  {
    var root := Key(space, []);
    assert TableOk(s, root);
    var s' := ZeroRoot(s, space);
    ApartFrame(s, s');
    forall j | j in s'.at
      ensures TableOk(s', j)
    {
      assert TableOk(s, j) && Apart(s, j, root);
      if j.path != [] { assert TableOk(s, Parent(j)) && Parent(j) != root && Apart(s, Parent(j), root); }
    }
    forall j | j in s'.leaf
      ensures LeafOk(s', j)
    {
      assert LeafOk(s, j) && TableOk(s, Parent(j)) && Parent(j) != root && Apart(s, Parent(j), root);
    }
  }

  lemma ZeroRootKeepsInv(s: Sys, space: int)
    requires Inv(s, space) && OnlyRoot(s, space)
    ensures 0 <= space < NR_FRAMES && Inv(ZeroRoot(s, space), NONE)
  {
    var root := Key(space, []);
    assert TableOk(s, root);
    var s' := ZeroRoot(s, space);
    ZeroRootStructured(s, space);
    SameCounts(s, s');
    forall j, i | j in s'.at && j.space != NONE && 0 <= i < NR_ENTRIES
      ensures EntryKnown(s', j, i)
    {
      assert TableOk(s, j) && Apart(s, j, root);
      if j != root { assert EntryKnown(s, j, i); }
    }
  }

  // ---- spaces and data frames ------------------------------------------------

  ghost function NewSpace(s: Sys, t: int): Sys
    requires Sized(s) && t in s.free
  {
    s.(mem := s.mem[t := EmptyTable()], free := s.free - {t}, at := s.at[Key(t, []) := t])
  }

  lemma NewSpaceStructured(s: Sys, t: int)
    requires Sized(s) && Structured(s) && t in s.free
    ensures Structured(NewSpace(s, t)) && OnlyRoot(NewSpace(s, t), t)
  {
    var s' := NewSpace(s, t);
    forall j | j in s.at
      ensures TableOk(s', j) && s.at[j] != t && j.space != t
    {
      assert TableOk(s, j);
      if j.path != [] { assert TableOk(s, Parent(j)); }
      NoSpaceAt(s, j);
    }
    assert TableOk(s', Key(t, []));
    forall j, k | j in s'.at && k in s'.at ensures Apart(s', j, k) {
      if j in s.at && k in s.at { assert Apart(s, j, k); }
    }
    forall j | j in s.leaf
      ensures j.space != t && LeafOk(s', j)
    {
      assert LeafOk(s, j) && TableOk(s, Parent(j));
      NoSpaceAt(s, Parent(j));
    }
  }

  lemma NewSpaceKeepsInv(s: Sys, t: int)
    requires Inv(s, NONE) && t in s.free
    ensures Inv(NewSpace(s, t), NONE) && OnlyRoot(NewSpace(s, t), t)
  {
    var s' := NewSpace(s, t);
    NewSpaceStructured(s, t);
    SameCounts(s, s');
    forall j, i | j in s'.at && j.space != NONE && 0 <= i < NR_ENTRIES
      ensures EntryKnown(s', j, i)
    {
      assert TableOk(s', j);
      if j in s.at { assert TableOk(s, j) && EntryKnown(s, j, i); }
    }
  }

  /** The top-level table of any table's space is in use. */
  lemma NoSpaceAt(s: Sys, j: Key)
    requires Sized(s) && Structured(s) && j in s.at
    ensures j.space !in s.free
  {
    if j.path != [] {
      PrefixesAreTables(s, j, 0);
      assert j.path[..0] == [];
    }
    assert TableOk(s, Key(j.space, []));
  }

  /** Data frame `f` gets new contents. */
  ghost function Poke(s: Sys, f: int, bytes: seq<Byte>): Sys
    requires Sized(s) && 0 <= f < NR_FRAMES
  {
    s.(mem := s.mem[f := Data(bytes)], free := s.free - {f})
  }

  lemma PokeStructured(s: Sys, f: int, bytes: seq<Byte>)
    requires Sized(s) && Structured(s) && (f in s.free || IsData(s, f)) && |bytes| == PAGE_SIZE
    ensures Structured(Poke(s, f, bytes))
  {
    var s' := Poke(s, f, bytes);
    ApartFrame(s, s');
    forall j | j in s'.at
      ensures TableOk(s', j)
    {
      assert TableOk(s, j);
      if j.path != [] { assert TableOk(s, Parent(j)); }
    }
    forall j | j in s'.leaf
      ensures LeafOk(s', j)
    {
      assert LeafOk(s, j) && TableOk(s, Parent(j));
    }
  }

  /** Writing a data frame, or taking a free one for data, keeps everything. */
  lemma PokeKeepsInv(s: Sys, f: int, bytes: seq<Byte>, busy: int)
    requires Inv(s, busy) && (f in s.free || IsData(s, f)) && |bytes| == PAGE_SIZE
    ensures 0 <= f < NR_FRAMES && Inv(Poke(s, f, bytes), busy)
  {
    var s' := Poke(s, f, bytes);
    PokeStructured(s, f, bytes);
    SameCounts(s, s');
    forall j, i | j in s'.at && j.space != busy && 0 <= i < NR_ENTRIES
      ensures EntryKnown(s', j, i)
    {
      assert TableOk(s, j) && EntryKnown(s, j, i);
    }
  }

  /** Nothing refers to a free frame. */
  lemma FreeUnreferenced(s: Sys, f: int)
    requires Sized(s) && Structured(s) && Counted(s) && f in s.free
    ensures s.refs[f] == 0
  {
    assert CountedAt(s, f);
    forall j | j in s.leaf ensures s.leaf[j].frame != f {
      assert LeafOk(s, j);
    }
    assert Holders(s.leaf, f) == {};
  }
}
