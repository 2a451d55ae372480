/** What the two depth-first traversals of a page-table tree have done when they
    have got as far as entry `i` of the table at path `p`. */
module TreeWalks {
  import opened Lists
  import opened PageTables

  /** `q` goes through `p`. */
  predicate Through(p: seq<int>, q: seq<int>) {
    |p| <= |q| && q[..|p|] == p
  }

  /** `q` goes through one of the entries of `p` before `i`. */
  predicate Below(p: seq<int>, i: int, q: seq<int>) {
    |p| < |q| && q[..|p|] == p && q[|p|] < i
  }

  lemma BelowStep(p: seq<int>, i: int, q: seq<int>)
    ensures Below(p, i + 1, q) <==> Below(p, i, q) || Through(p + [i], q)
  {
    if |p| < |q| {
      assert q[..|p| + 1] == q[..|p|] + [q[|p|]];
      if Through(p + [i], q) {
        assert q[..|p|] == (p + [i])[..|p|] == p;
      }
    }
  }

  lemma ThroughStep(p: seq<int>, q: seq<int>, n: int)
    requires |q| > |p| ==> q[|p|] < n
    ensures Through(p, q) <==> q == p || Below(p, n, q)
  {
  }

  // ---- teardown ----------------------------------------------------------------

  ghost predicate Gone(k: Key, space: int, p: seq<int>, i: int) {
    k.space == space && Below(p, i, k.path)
  }

  /** Frame `f` was given back: it held a table that is gone, or the last leaf
      that pointed at it is gone. */
  ghost predicate GivenBack(s0: Sys, s: Sys, f: int) {
    || (exists k :: k in s0.at && k !in s.at && s0.at[k] == f)
    || (exists k :: k in s0.leaf && k !in s.leaf && s0.leaf[k].frame == f && Unheld(s, f))
  }

  ghost predicate Unheld(s: Sys, f: int) {
    forall j | j in s.leaf :: s.leaf[j].frame != f
  }

  /** Tables and leaves below the first `i` entries of table `p` are gone, the
      rest of the system is untouched, and exactly the right frames are free. */
  ghost predicate FreeRel(s0: Sys, s: Sys, space: int, p: seq<int>, i: int) {
    && Sized(s0) && Sized(s) && s.mem == s0.mem
    && (forall k :: k in s.at <==> k in s0.at && !Gone(k, space, p, i))
    && (forall k | k in s.at :: s.at[k] == s0.at[k])
    && (forall k :: k in s.leaf <==> k in s0.leaf && !Gone(k, space, p, i))
    && (forall k | k in s.leaf :: s.leaf[k] == s0.leaf[k])
    && (forall f :: f in s.free <==> f in s0.free || GivenBack(s0, s, f))
  }

  /** Nothing below the table has been given back: all its entries are known. */
  ghost predicate Full(s: Sys, space: int, p: seq<int>) {
    && Sized(s) && Structured(s)
    && forall k, e {:trigger EntryKnown(s, k, e)}
         | k in s.at && k.space == space && Through(p, k.path) && 0 <= e < NR_ENTRIES :: EntryKnown(s, k, e)
  }

  lemma FreeRelStart(s: Sys, space: int, p: seq<int>)
    requires Sized(s) && Structured(s)
    ensures FreeRel(s, s, space, p, 0)
  {
    forall k | k in s.at || k in s.leaf
      ensures !Gone(k, space, p, 0)
    {
      PathInRange(s, k);
    }
  }

  lemma {:induction false} PathInRange(s: Sys, k: Key)
    requires Sized(s) && Structured(s) && (k in s.at || k in s.leaf)
    ensures forall n | 0 <= n < |k.path| :: 0 <= k.path[n] < NR_ENTRIES
    decreases |k.path|
  {
    if k in s.leaf { assert LeafOk(s, k); } else { assert TableOk(s, k); }
    if k.path != [] {
      PathInRange(s, Parent(k));
      ParentChild(k);
      assert forall n | 0 <= n < |k.path| - 1 :: k.path[n] == Parent(k).path[n];
    }
  }

  lemma InvalidEntryChild(s: Sys, here: Key, i: int)
    requires Sized(s) && Structured(s) && here in s.at && 0 <= i < NR_ENTRIES && HasTable(s, here)
    requires !Entry(s, here, i).valid
    ensures Child(here, i) !in s.at && Child(here, i) !in s.leaf
  {
    var c := Child(here, i);
    ChildParent(here, i);
    assert c in s.at ==> TableOk(s, c);
    assert c in s.leaf ==> LeafOk(s, c);
  }

  lemma NothingThrough(s: Sys, c: Key, k: Key)
    requires Sized(s) && Structured(s) && c !in s.at && c !in s.leaf
    requires (k in s.at || k in s.leaf) && k.space == c.space
    ensures !Through(c.path, k.path)
  {
    if |k.path| > |c.path| {
      PrefixesAreTables(s, k, |c.path|);
    } else {
      assert k.path[..|k.path|] == k.path;
    }
  }

  /** An entry that leads nowhere has nothing below it. */
  lemma InvalidEntryEmpty(s: Sys, here: Key, i: int, k: Key)
    requires Sized(s) && Structured(s) && here in s.at && 0 <= i < NR_ENTRIES && HasTable(s, here)
    requires !Entry(s, here, i).valid && (k in s.at || k in s.leaf) && k.space == here.space
    ensures !Through(here.path + [i], k.path)
  {
    InvalidEntryChild(s, here, i);
    NothingThrough(s, Child(here, i), k);
  }

  lemma FreeRelSkip(s0: Sys, s: Sys, space: int, p: seq<int>, i: int)
    requires FreeRel(s0, s, space, p, i) && Structured(s0) && 0 <= i < NR_ENTRIES
    requires HasTable(s0, Key(space, p)) && !Entry(s0, Key(space, p), i).valid
    ensures FreeRel(s0, s, space, p, i + 1)
  {
    forall k | k in s0.at || k in s0.leaf
      ensures Gone(k, space, p, i + 1) <==> Gone(k, space, p, i)
    {
      BelowStep(p, i, k.path);
      if k.space == space { InvalidEntryEmpty(s0, Key(space, p), i, k); }
    }
  }

  /** Only the leaf itself goes through its own path. */
  lemma ThroughLeaf(s: Sys, c: Key, k: Key)
    requires Sized(s) && Structured(s) && |c.path| == 4 && (k in s.at || k in s.leaf) && k.space == c.space
    ensures Through(c.path, k.path) <==> k == c
  {
    if k in s.leaf { assert LeafOk(s, k); } else { assert TableOk(s, k); }
  }

  lemma GoneLeafStep(s: Sys, space: int, p: seq<int>, i: int, j: Key)
    requires Sized(s) && Structured(s) && |p| == 3 && (j in s.at || j in s.leaf)
    ensures Gone(j, space, p, i + 1) <==> Gone(j, space, p, i) || j == Key(space, p + [i])
  {
    BelowStep(p, i, j.path);
    if j.space == space { ThroughLeaf(s, Key(space, p + [i]), j); }
  }

  lemma FreeRelLeafFrame(s0: Sys, s: Sys, s': Sys, k: Key, f: int)
    requires Sized(s) && k in s.leaf && k in s0.leaf && s.leaf[k] == s0.leaf[k] && 0 <= s.leaf[k].frame < NR_FRAMES
    requires s' == DropLeaf(s, k) && (s.refs[s.leaf[k].frame] == 1 <==> Unheld(s', s.leaf[k].frame))
    requires f in s.free <==> f in s0.free || GivenBack(s0, s, f)
    requires forall j | j in s0.at :: s0.at[j] != s0.leaf[k].frame
    requires s0.leaf[k].frame !in s0.free
    ensures f in s'.free <==> f in s0.free || GivenBack(s0, s', f)
  {
    if f != s0.leaf[k].frame {
      assert forall j :: j in s'.leaf <==> j in s.leaf && j != k;
      assert Unheld(s, f) <==> Unheld(s', f);
    }
  }

  lemma FreeRelLeaf(s0: Sys, s: Sys, s': Sys, space: int, p: seq<int>, i: int)
    requires FreeRel(s0, s, space, p, i) && Structured(s0) && |p| == 3 && 0 <= i < NR_ENTRIES
    requires var k := Key(space, p + [i]);
             && k in s.leaf && 0 <= s.leaf[k].frame < NR_FRAMES && s' == DropLeaf(s, k)
             && (s.refs[s.leaf[k].frame] == 1 <==> Unheld(s', s.leaf[k].frame))
    ensures FreeRel(s0, s', space, p, i + 1)
  {
    var k := Key(space, p + [i]);
    forall j | j in s0.at || j in s0.leaf
      ensures Gone(j, space, p, i + 1) <==> Gone(j, space, p, i) || j == k
    {
      GoneLeafStep(s0, space, p, i, j);
    }
    assert LeafOk(s0, k);
    assert k !in s0.at by { assert k in s0.at ==> TableOk(s0, k); }
    forall j | j in s0.at ensures s0.at[j] != s0.leaf[k].frame {
      assert TableOk(s0, j);
    }
    FreeRelLeafCore(s0, s, s', space, p, i, k);
  }

  lemma FreeRelLeafCore(s0: Sys, s: Sys, s': Sys, space: int, p: seq<int>, i: int, k: Key)
    requires FreeRel(s0, s, space, p, i) && k in s.leaf && 0 <= s.leaf[k].frame < NR_FRAMES && s' == DropLeaf(s, k)
    requires s.refs[s.leaf[k].frame] == 1 <==> Unheld(s', s.leaf[k].frame)
    requires forall j | j in s0.at || j in s0.leaf :: Gone(j, space, p, i + 1) <==> Gone(j, space, p, i) || j == k
    requires k !in s0.at && s0.leaf[k].frame !in s0.free
    requires forall j | j in s0.at :: s0.at[j] != s0.leaf[k].frame
    ensures FreeRel(s0, s', space, p, i + 1)
  {
    assert forall j :: j in s'.leaf <==> j in s.leaf && j != k;
    forall f ensures f in s'.free <==> f in s0.free || GivenBack(s0, s', f) {
      FreeRelLeafFrame(s0, s, s', k, f);
    }
  }

  lemma GoneChildStep(s: Sys, space: int, p: seq<int>, i: int, k: Key)
    requires Sized(s) && Structured(s) && (k in s.at || k in s.leaf)
    ensures Gone(k, space, p, i + 1) <==>
              Gone(k, space, p, i) || Gone(k, space, p + [i], NR_ENTRIES) || k == Key(space, p + [i])
  {
    BelowStep(p, i, k.path);
    PathInRange(s, k);
    ThroughStep(p + [i], k.path, NR_ENTRIES);
  }

  lemma FreeRelChild(s0: Sys, s: Sys, s1: Sys, space: int, p: seq<int>, i: int)
    requires FreeRel(s0, s, space, p, i) && Structured(s0) && 0 <= i < NR_ENTRIES
    requires FreeRel(s, s1, space, p + [i], NR_ENTRIES) && Key(space, p + [i]) in s1.at
    requires 0 <= s1.at[Key(space, p + [i])] < NR_FRAMES && |p| < 3
    ensures FreeRel(s0, DropTable(s1, Key(space, p + [i])), space, p, i + 1)
  {
    var c := Key(space, p + [i]);
    assert c !in s0.leaf by { assert c in s0.leaf ==> LeafOk(s0, c); }
    forall k | k in s0.at || k in s0.leaf
      ensures Gone(k, space, p, i + 1) <==> Gone(k, space, p, i) || Gone(k, space, c.path, NR_ENTRIES) || k == c
    {
      GoneChildStep(s0, space, p, i, k);
    }
    FreeRelChildCore(s0, s, s1, space, p, i, c);
  }

  lemma FreeRelChildCore(s0: Sys, s: Sys, s1: Sys, space: int, p: seq<int>, i: int, c: Key)
    requires FreeRel(s0, s, space, p, i) && FreeRel(s, s1, space, c.path, NR_ENTRIES) && c in s1.at && c !in s0.leaf
    requires 0 <= s1.at[c] < NR_FRAMES
    requires forall k | k in s0.at || k in s0.leaf ::
               Gone(k, space, p, i + 1) <==> Gone(k, space, p, i) || Gone(k, space, c.path, NR_ENTRIES) || k == c
    ensures FreeRel(s0, DropTable(s1, c), space, p, i + 1)
  {
    var s' := DropTable(s1, c);
    assert forall k :: k in s'.at <==> k in s1.at && k != c;
    forall f ensures f in s'.free <==> f in s0.free || GivenBack(s0, s', f) {
      FreeRelTransitive(s0, s, s1, s', c, f);
    }
  }

  lemma FreeRelTransitive(s0: Sys, s: Sys, s1: Sys, s': Sys, c: Key, f: int)
    requires forall k | k in s.at :: k in s0.at && s.at[k] == s0.at[k]
    requires forall k | k in s1.at :: k in s.at && s1.at[k] == s.at[k]
    requires forall k | k in s.leaf :: k in s0.leaf && s.leaf[k] == s0.leaf[k]
    requires forall k | k in s1.leaf :: k in s.leaf && s1.leaf[k] == s.leaf[k]
    requires f in s.free <==> f in s0.free || GivenBack(s0, s, f)
    requires f in s1.free <==> f in s.free || GivenBack(s, s1, f)
    requires c in s1.at && s' == DropTable(s1, c)
    ensures f in s'.free <==> f in s0.free || GivenBack(s0, s', f)
  {
    if k :| k in s0.leaf && k !in s'.leaf && s0.leaf[k].frame == f && Unheld(s', f) {
      if !Unheld(s, f) {
        var j :| j in s.leaf && s.leaf[j].frame == f;
        assert j !in s1.leaf;
      }
    }
  }

  lemma NotYet(p: seq<int>, i: int, q: seq<int>)
    ensures Through(p + [i], q) ==> !Below(p, i, q)
    ensures !Below(p, i, p)
  {
    NotBoth(p, i, q);
  }

  /** Nothing below entry `i` has been given back before the walk gets there. */
  lemma StillFull(s0: Sys, s: Sys, here: Key, i: int, k: Key, e: int)
    requires FreeRel(s0, s, here.space, here.path, i) && Full(s0, here.space, here.path) && Structured(s)
    requires k in s.at && k.space == here.space && Through(here.path + [i], k.path) && 0 <= e < NR_ENTRIES
    ensures EntryKnown(s, k, e)
  {
    ThroughDeeper(here.path, i, k.path);
    assert TableOk(s, k) && EntryKnown(s0, k, e);
    var c := Child(k, e);
    assert Through(here.path + [i], c.path) by {
      assert c.path[..|here.path| + 1] == k.path[..|here.path| + 1];
    }
    NotYet(here.path, i, c.path);
  }

  lemma StillThere(s0: Sys, s: Sys, here: Key, i: int)
    requires FreeRel(s0, s, here.space, here.path, i) && Full(s0, here.space, here.path) && Structured(s)
    requires here in s0.at && TableOk(s0, here) && 0 <= i < NR_ENTRIES
    ensures here in s.at && HasTable(s, here) && Entry(s, here, i) == Entry(s0, here, i)
    ensures Entry(s, here, i).valid && |here.path| == 3 ==> Child(here, i) in s.leaf && LeafOk(s, Child(here, i))
    ensures Entry(s, here, i).valid && |here.path| < 3 ==>
              && Child(here, i) in s.at && s.at[Child(here, i)] == Entry(s, here, i).frame
              && Full(s, here.space, here.path + [i])
  {
    var c := Child(here, i);
    NotYet(here.path, i, here.path);
    NotYet(here.path, i, c.path);
    ChildParent(here, i);
    assert TableOk(s, here) && EntryKnown(s0, here, i);
    if Entry(s, here, i).valid {
      if |here.path| == 3 {
        assert LeafOk(s, c);
      } else {
        assert TableOk(s, c);
        forall k, e | k in s.at && k.space == here.space && Through(here.path + [i], k.path) && 0 <= e < NR_ENTRIES
          ensures EntryKnown(s, k, e)
        {
          StillFull(s0, s, here, i, k, e);
        }
      }
    }
  }

  /** After the walk of a subtree its table has nothing below it. */
  lemma SubtreeGone(s: Sys, s1: Sys, c: Key)
    requires FreeRel(s, s1, c.space, c.path, NR_ENTRIES) && Sized(s) && Structured(s) && c in s.at && Structured(s1)
    ensures c in s1.at && s1.at[c] == s.at[c] && Childless(s1, c) && TableOk(s1, c)
  {
    NotYet(c.path, NR_ENTRIES, c.path);
    assert TableOk(s1, c);
    forall j | (j in s1.at || j in s1.leaf) && j.path != [] ensures Parent(j) != c {
      ChildGone(s, s1, c, j);
    }
  }

  lemma ChildGone(s: Sys, s1: Sys, c: Key, j: Key)
    requires FreeRel(s, s1, c.space, c.path, NR_ENTRIES) && Structured(s1)
    requires (j in s1.at || j in s1.leaf) && j.path != []
    ensures Parent(j) != c
  {
    PathInRange(s1, j);
    if Parent(j) == c {
      ParentChild(j);
      assert Below(c.path, NR_ENTRIES, j.path);
    }
  }

  // ---- fork ----------------------------------------------------------------------

  ghost function Lookup(leaf: map<Key, Desc>, k: Key): Desc {
    if k in leaf then leaf[k] else EMPTY
  }

  /** Once fork has passed a page, parent and child both have it read-only and
      copy-on-write, on the parent's frame. */
  ghost function ForkAt(leaf: map<Key, Desc>, parent: int, child: int, p: seq<int>, i: int, k: Key): Desc {
    if (k.space == parent || k.space == child) && Below(p, i, k.path) then
      var o := Key(parent, k.path);
      if o in leaf then SharedDesc(leaf[o].frame) else EMPTY
    else Lookup(leaf, k)
  }

  /** The parent's tables that fork has had to duplicate so far. */
  ghost function Passed(at: map<Key, int>, parent: int, p: seq<int>, i: int): set<Key> {
    set k | k in at && k.space == parent && Below(p, i, k.path)
  }

  /** Leaves below the first `i` entries of table `p` are shared, new tables are
      the child's own, data is untouched, and each new table cost one frame. */
  ghost predicate CopyRel(s0: Sys, s: Sys, parent: int, child: int, p: seq<int>, i: int) {
    && Sized(s0) && Sized(s)
    && (forall k :: Lookup(s.leaf, k) == ForkAt(s0.leaf, parent, child, p, i, k))
    && (forall k | k in s0.at :: k in s.at && s.at[k] == s0.at[k])
    && (forall k | k in s.at && k !in s0.at :: k.space == child && Below(p, i, k.path))
    && (forall f | IsData(s0, f) :: IsData(s, f) && s.mem[f] == s0.mem[f])
    && s.free <= s0.free
    && |s.free| == |s0.free| - |Passed(s0.at, parent, p, i)|
  }

  /** The child has nothing below table `p` yet. */
  ghost predicate Bare(s: Sys, child: int, p: seq<int>) {
    && (forall k | k in s.at && k.space == child :: !(Through(p, k.path) && k.path != p))
    && (forall k | k in s.leaf && k.space == child :: !Through(p, k.path))
  }

  lemma NonePassed(s: Sys, space: int, p: seq<int>)
    requires Sized(s) && Structured(s)
    ensures Passed(s.at, space, p, 0) == {}
  {
    FreeRelStart(s, space, p);
  }

  /** An entry that is invalid, or leads to a page, has no tables below it. */
  lemma NothingPassed(s: Sys, here: Key, i: int)
    requires Sized(s) && Structured(s) && HasTable(s, here) && 0 <= i < NR_ENTRIES
    requires !Entry(s, here, i).valid || |here.path| == 3
    ensures Child(here, i) !in s.at && Passed(s.at, here.space, here.path + [i], NR_ENTRIES) == {}
  {
    var c := Child(here, i);
    ChildParent(here, i);
    assert c in s.at ==> TableOk(s, c);
    forall k | k in s.at && k.space == here.space ensures !Below(c.path, NR_ENTRIES, k.path) {
      if Entry(s, here, i).valid { assert TableOk(s, k); } else { InvalidEntryEmpty(s, here, i, k); }
    }
  }

  lemma CopyRelStart(s: Sys, parent: int, child: int, p: seq<int>)
    requires Sized(s) && Structured(s)
    ensures CopyRel(s, s, parent, child, p, 0)
  {
    NonePassed(s, parent, p);
    forall k ensures Lookup(s.leaf, k) == ForkAt(s.leaf, parent, child, p, 0, k) {
      if k in s.leaf { PathInRange(s, k); }
      if Key(parent, k.path) in s.leaf { PathInRange(s, Key(parent, k.path)); }
    }
  }

  lemma PassedMember(s: Sys, parent: int, p: seq<int>, i: int, k: Key)
    requires Sized(s) && Structured(s) && k in s.at && k.space == parent
    ensures var c := Key(parent, p + [i]);
            && (Below(p, i + 1, k.path) <==> Below(p, i, k.path) || Below(c.path, NR_ENTRIES, k.path) || k == c)
            && !(Below(p, i, k.path) && Through(c.path, k.path))
  {
    GoneChildStep(s, parent, p, i, k);
    NotBoth(p, i, k.path);
  }

  lemma PassedStep(s: Sys, parent: int, p: seq<int>, i: int)
    requires Sized(s) && Structured(s) && 0 <= i < NR_ENTRIES
    ensures var c := Key(parent, p + [i]);
            |Passed(s.at, parent, p, i + 1)| ==
              |Passed(s.at, parent, p, i)| + |Passed(s.at, parent, c.path, NR_ENTRIES)| + (if c in s.at then 1 else 0)
  {
    var c := Key(parent, p + [i]);
    var a, b := Passed(s.at, parent, p, i), Passed(s.at, parent, c.path, NR_ENTRIES);
    var e := if c in s.at then {c} else {};
    forall k | k in s.at && k.space == parent
      ensures k in Passed(s.at, parent, p, i + 1) <==> k in a + b + e
      ensures !(k in a && k in b) && (k == c ==> k !in a && k !in b)
    {
      PassedMember(s, parent, p, i, k);
    }
    assert Passed(s.at, parent, p, i + 1) == a + b + e;
    assert a !! b;
    assert (a + b) !! e;
  }

  lemma NotBoth(p: seq<int>, i: int, q: seq<int>)
    ensures !(Below(p, i, q) && Through(p + [i], q))
  {
    if Through(p + [i], q) {
      assert q[|p|] == q[..|p| + 1][|p|] == (p + [i])[|p|] == i;
    }
  }

  lemma CopyRelSkip(s0: Sys, s: Sys, parent: int, child: int, p: seq<int>, i: int)
    requires CopyRel(s0, s, parent, child, p, i) && Structured(s0) && Bare(s0, child, p) && 0 <= i < NR_ENTRIES
    requires HasTable(s0, Key(parent, p)) && !Entry(s0, Key(parent, p), i).valid
    ensures CopyRel(s0, s, parent, child, p, i + 1)
  {
    forall k
      ensures ForkAt(s0.leaf, parent, child, p, i + 1, k) == ForkAt(s0.leaf, parent, child, p, i, k)
      ensures Below(p, i, k.path) ==> Below(p, i + 1, k.path)
    {
      BelowStep(p, i, k.path);
      var o := Key(parent, k.path);
      if o in s0.leaf { InvalidEntryEmpty(s0, Key(parent, p), i, o); }
      ThroughDeeper(p, i, k.path);
    }
    PassedStep(s0, parent, p, i);
    NothingPassed(s0, Key(parent, p), i);
  }

  lemma ThroughDeeper(p: seq<int>, i: int, q: seq<int>)
    ensures Through(p + [i], q) ==> Through(p, q) && q != p
  {
    if Through(p + [i], q) {
      assert q[..|p|] == q[..|p| + 1][..|p|] == (p + [i])[..|p|] == p;
    }
  }

  lemma LeafLookup(s: Sys, k: Key)
    requires Sized(s) && Structured(s)
    ensures k in s.leaf <==> Lookup(s.leaf, k) != EMPTY
  {
    if k in s.leaf { assert LeafOk(s, k); }
  }

  /** Page `p + [i]` of parent and child both get the shared descriptor. */
  ghost predicate Shares(s: Sys, s': Sys, parent: int, child: int, q: seq<int>) {
    && Sized(s) && Sized(s') && Key(parent, q) in s.leaf
    && (forall k :: Lookup(s'.leaf, k) ==
          if (k.space == parent || k.space == child) && k.path == q then SharedDesc(s.leaf[Key(parent, q)].frame)
          else Lookup(s.leaf, k))
    && s'.at == s.at && s'.free == s.free
    && (forall f | IsData(s, f) :: IsData(s', f) && s'.mem[f] == s.mem[f])
  }

  lemma CopyRelLeaf(s0: Sys, s: Sys, s': Sys, parent: int, child: int, p: seq<int>, i: int)
    requires CopyRel(s0, s, parent, child, p, i) && Structured(s0) && |p| == 3 && 0 <= i < NR_ENTRIES
    requires Bare(s0, child, p) && Structured(s) && Shares(s, s', parent, child, p + [i]) &&
             HasTable(s0, Key(parent, p))
    ensures CopyRel(s0, s', parent, child, p, i + 1)
  {
    var q := p + [i];
    forall k
      ensures Lookup(s'.leaf, k) == ForkAt(s0.leaf, parent, child, p, i + 1, k)
      ensures Below(p, i, k.path) ==> Below(p, i + 1, k.path)
    {
      CopyRelLeafAt(s0, s, s', parent, child, p, i, k);
    }
    PassedStep(s0, parent, p, i);
    NothingPassed(s0, Key(parent, p), i);
  }

  lemma CopyRelLeafAt(s0: Sys, s: Sys, s': Sys, parent: int, child: int, p: seq<int>, i: int, k: Key)
    requires Sized(s0) && Structured(s0) && |p| == 3 && 0 <= i < NR_ENTRIES
    requires Bare(s0, child, p) && Sized(s) && Structured(s) && Shares(s, s', parent, child, p + [i])
    requires Lookup(s.leaf, k) == ForkAt(s0.leaf, parent, child, p, i, k)
    requires Lookup(s.leaf, Key(parent, p + [i])) == ForkAt(s0.leaf, parent, child, p, i, Key(parent, p + [i]))
    ensures Lookup(s'.leaf, k) == ForkAt(s0.leaf, parent, child, p, i + 1, k)
    ensures Below(p, i, k.path) ==> Below(p, i + 1, k.path)
  {
    var q := p + [i];
    BelowStep(p, i, k.path);
    BelowStep(p, i, q);
    NotBoth(p, i, k.path);
    NotBoth(p, i, q);
    ThroughDeeper(p, i, k.path);
    LeafLookup(s0, Key(parent, q));
    LeafLookup(s, Key(parent, q));
    var o := Key(parent, k.path);
    if o in s0.leaf { ThroughLeaf(s0, Key(parent, q), o); }
  }

  /** The child gets an empty table below entry `i` of its copy of `p`. */
  ghost predicate Extends(s: Sys, s': Sys, child: int, q: seq<int>) {
    && Sized(s) && Sized(s') && s'.leaf == s.leaf && s'.at.Keys == s.at.Keys + {Key(child, q)}
    && (forall k | k in s.at :: s'.at[k] == s.at[k])
    && s'.free <= s.free && |s'.free| == |s.free| - 1
    && (forall f | IsData(s, f) :: IsData(s', f) && s'.mem[f] == s.mem[f])
  }

  lemma BareBelow(s0: Sys, s: Sys, s': Sys, parent: int, child: int, p: seq<int>, i: int)
    requires CopyRel(s0, s, parent, child, p, i) && Structured(s) && Bare(s0, child, p)
    requires Extends(s, s', child, p + [i])
    ensures Bare(s', child, p + [i])
  {
    forall k | (k in s'.at || k in s'.leaf) && k.space == child
      ensures k in s'.at ==> !(Through(p + [i], k.path) && k.path != p + [i])
      ensures k in s'.leaf ==> !Through(p + [i], k.path)
    {
      NotBoth(p, i, k.path);
      ThroughDeeper(p, i, k.path);
      LeafLookup(s, k);
    }
  }

  lemma SamePassed(s0: Sys, s: Sys, s': Sys, parent: int, child: int, p: seq<int>, i: int)
    requires CopyRel(s0, s, parent, child, p, i) && Extends(s, s', child, p + [i]) && parent != child
    ensures Passed(s'.at, parent, p + [i], NR_ENTRIES) == Passed(s0.at, parent, p + [i], NR_ENTRIES)
  {
  }

  lemma CopyRelChildAt(s0: Sys, s: Sys, s1: Sys, s2: Sys, parent: int, child: int, p: seq<int>, i: int, k: Key)
    requires Sized(s0) && Structured(s0) && Sized(s) && Structured(s) && Bare(s0, child, p) && 0 <= i < NR_ENTRIES
    requires s1.leaf == s.leaf && |p| < 3
    requires Lookup(s.leaf, k) == ForkAt(s0.leaf, parent, child, p, i, k)
    requires Lookup(s.leaf, Key(parent, k.path)) == ForkAt(s0.leaf, parent, child, p, i, Key(parent, k.path))
    requires Lookup(s2.leaf, k) == ForkAt(s1.leaf, parent, child, p + [i], NR_ENTRIES, k)
    ensures Lookup(s2.leaf, k) == ForkAt(s0.leaf, parent, child, p, i + 1, k)
    ensures Below(p, i, k.path) || Below(p + [i], NR_ENTRIES, k.path) ==> Below(p, i + 1, k.path)
  {
    var o := Key(parent, k.path);
    BelowStep(p, i, k.path);
    NotBoth(p, i, k.path);
    ThroughDeeper(p, i, k.path);
    LeafLookup(s0, o);
    LeafLookup(s, o);
    if o in s0.leaf {
      PathInRange(s0, o);
      ThroughStep(p + [i], k.path, NR_ENTRIES);
      assert LeafOk(s0, o);
    }
    if k in s0.leaf {
      PathInRange(s0, k);
      ThroughStep(p + [i], k.path, NR_ENTRIES);
    }
  }

  lemma CopyRelChildFree(s0: Sys, s: Sys, s1: Sys, s2: Sys, parent: int, child: int, p: seq<int>, i: int)
    requires CopyRel(s0, s, parent, child, p, i) && Structured(s0)
    requires 0 <= i < NR_ENTRIES && parent != child && Key(parent, p + [i]) in s0.at
    requires Extends(s, s1, child, p + [i]) && CopyRel(s1, s2, parent, child, p + [i], NR_ENTRIES)
    ensures |s2.free| == |s0.free| - |Passed(s0.at, parent, p, i + 1)|
  {
    PassedStep(s0, parent, p, i);
    SamePassed(s0, s, s1, parent, child, p, i);
  }

  lemma CopyRelChildTables(s0: Sys, s: Sys, s1: Sys, s2: Sys, parent: int, child: int, p: seq<int>, i: int)
    requires CopyRel(s0, s, parent, child, p, i)
    requires Extends(s, s1, child, p + [i]) && CopyRel(s1, s2, parent, child, p + [i], NR_ENTRIES)
    ensures forall k | k in s0.at :: k in s2.at && s2.at[k] == s0.at[k]
    ensures forall k | k in s2.at && k !in s0.at :: k.space == child && Below(p, i + 1, k.path)
    ensures forall f | IsData(s0, f) :: IsData(s2, f) && s2.mem[f] == s0.mem[f]
  {
    forall k | k in s2.at && k !in s0.at
      ensures k.space == child && Below(p, i + 1, k.path)
    {
      BelowStep(p, i, k.path);
      assert Below(p + [i], NR_ENTRIES, k.path) ==> Through(p + [i], k.path);
      assert k in s1.at && k !in s.at ==> k == Key(child, p + [i]);
    }
  }

  lemma CopyRelChild(s0: Sys, s: Sys, s1: Sys, s2: Sys, parent: int, child: int, p: seq<int>, i: int)
    requires CopyRel(s0, s, parent, child, p, i) && Structured(s0) && Structured(s) && Bare(s0, child, p)
    requires 0 <= i < NR_ENTRIES && |p| < 3 && parent != child && Key(parent, p + [i]) in s0.at
    requires Extends(s, s1, child, p + [i]) && CopyRel(s1, s2, parent, child, p + [i], NR_ENTRIES)
    ensures CopyRel(s0, s2, parent, child, p, i + 1)
  {
    forall k
      ensures Lookup(s2.leaf, k) == ForkAt(s0.leaf, parent, child, p, i + 1, k)
    {
      CopyRelChildAt(s0, s, s1, s2, parent, child, p, i, k);
    }
    CopyRelChildTables(s0, s, s1, s2, parent, child, p, i);
    CopyRelChildFree(s0, s, s1, s2, parent, child, p, i);
  }

  lemma PassedMonotone(at: map<Key, int>, parent: int, p: seq<int>, i: int, j: int)
    requires i <= j
    ensures |Passed(at, parent, p, i)| <= |Passed(at, parent, p, j)|
  {
    SubsetSize(Passed(at, parent, p, i), Passed(at, parent, p, j));
  }

  /** Entry `i` of the parent's table is still as it was when the walk began. */
  lemma EntryAgrees(s0: Sys, s: Sys, parent: int, child: int, p: seq<int>, i: int)
    requires CopyRel(s0, s, parent, child, p, i) && Structured(s0) && Structured(s) && parent != child
    requires Key(parent, p) in s0.at && 0 <= i < NR_ENTRIES
    requires EntryKnown(s0, Key(parent, p), i) && EntryKnown(s, Key(parent, p), i)
    ensures Entry(s, Key(parent, p), i).valid <==> Entry(s0, Key(parent, p), i).valid
    ensures Entry(s, Key(parent, p), i).valid && |p| == 3 ==> Key(parent, p + [i]) in s.leaf
    ensures Entry(s, Key(parent, p), i).valid && |p| < 3 ==>
              Key(parent, p + [i]) in s0.at && s.at[Key(parent, p + [i])] == Entry(s, Key(parent, p), i).frame
  {
    var here := Key(parent, p);
    var c := Child(here, i);
    ChildParent(here, i);
    NotYet(p, i, c.path);
    assert TableOk(s0, here);
    assert c in s0.at ==> TableOk(s0, c);
    assert c in s.at ==> TableOk(s, c);
    LeafLookup(s0, c);
    LeafLookup(s, c);
    assert Lookup(s.leaf, c) == ForkAt(s0.leaf, parent, child, p, i, c);
    assert c in s0.leaf ==> LeafOk(s0, c);
    assert c in s.leaf ==> LeafOk(s, c);
  }

  /** The child has nothing at entry `i` before the walk gets there. */
  lemma BareEntry(s0: Sys, s: Sys, parent: int, child: int, p: seq<int>, i: int)
    requires CopyRel(s0, s, parent, child, p, i) && Structured(s) && Bare(s0, child, p)
    requires 0 <= i < NR_ENTRIES && EntryKnown(s, Key(child, p), i) && |p| <= 3
    ensures !Entry(s, Key(child, p), i).valid
    ensures |p| == 3 ==> Key(child, p + [i]) !in s.leaf && Slot(s, Key(child, p + [i]))
  {
    var c := Child(Key(child, p), i);
    ChildParent(Key(child, p), i);
    NotYet(p, i, c.path);
    ThroughDeeper(p, i, c.path);
    LeafLookup(s, c);
    assert Lookup(s.leaf, c) == ForkAt(s0.leaf, parent, child, p, i, c);
  }

  ghost function Shared(s: Sys, a: Key, b: Key): Sys
    requires Slot(s, a) && Slot(s, b) && a in s.leaf && 0 <= s.leaf[a].frame < NR_FRAMES && b !in s.leaf
  {
    var d := SharedDesc(s.leaf[a].frame);
    PutLeaf(PutLeaf(s, a, d), b, d)
  }

  lemma MayShare(s: Sys, a: Key)
    requires Sized(s) && Sole(s.leaf) && a in s.leaf && LeafOk(s, a)
    ensures MayPut(s, a, SharedDesc(s.leaf[a].frame))
  {
    forall j | j in s.leaf && j != a && s.leaf[j].frame == s.leaf[a].frame
      ensures s.leaf[j].readOnly
    {
      assert SolePair(s.leaf, j, a);
    }
  }

  lemma PutData(s: Sys, k: Key, d: Desc)
    requires Slot(s, k) && 0 <= d.frame < NR_FRAMES && (k in s.leaf ==> 0 <= s.leaf[k].frame < NR_FRAMES)
    ensures forall f | IsData(s, f) :: IsData(PutLeaf(s, k, d), f) && PutLeaf(s, k, d).mem[f] == s.mem[f]
    ensures forall j | HasTable(s, j) :: HasTable(PutLeaf(s, k, d), j)
  {
  }

  lemma ShareKeepsInv(s: Sys, a: Key, b: Key)
    requires Inv(s, NONE) && a in s.leaf && Slot(s, b) && b !in s.leaf
    ensures LeafOk(s, a) && Slot(s, a) && Inv(Shared(s, a, b), NONE)
  {
    assert LeafOk(s, a);
    var d := SharedDesc(s.leaf[a].frame);
    MayShare(s, a);
    PutLeafKeepsInv(s, a, d, NONE);
    var s1 := PutLeaf(s, a, d);
    PutData(s, a, d);
    assert LeafOk(s1, a);
    MayShare(s1, a);
    assert MayPut(s1, b, d);
    PutLeafKeepsInv(s1, b, d, NONE);
  }

  lemma ShareShares(s: Sys, parent: int, child: int, q: seq<int>)
    requires Sized(s) && Key(parent, q) in s.leaf && LeafOk(s, Key(parent, q)) && parent != child
    requires Slot(s, Key(child, q)) && Key(child, q) !in s.leaf
    ensures Slot(s, Key(parent, q)) && Shares(s, Shared(s, Key(parent, q), Key(child, q)), parent, child, q)
  {
    var a, b := Key(parent, q), Key(child, q);
    var d := SharedDesc(s.leaf[a].frame);
    PutData(s, a, d);
    PutData(PutLeaf(s, a, d), b, d);
    assert forall k :: k in Shared(s, a, b).leaf <==> k in s.leaf || k == b;
  }

  lemma AddExtends(s: Sys, child: int, p: seq<int>, i: int, c: int)
    requires MayAdd(s, Key(child, p), i, c) && Structured(s)
    ensures c != s.at[Key(child, p)] && Extends(s, AddTable(s, Key(child, p), i, c), child, p + [i])
  {
    AddTableEntries(s, Key(child, p), i, c, Key(child, p), i);
    assert Key(child, p + [i]) == Child(Key(child, p), i);
  }
}
