/** The table of live pointers of mm/AddressSanitizer.cc. */
module Kasan {

  const NR_SLOTS: nat := 1000

  ghost function Recorded(t: seq<int>): set<int> { set x | x in t && x != 0 }

  /** No pointer occupies two slots. */
  ghost predicate OnceEach(t: seq<int>) {
    forall i, j | 0 <= i < j < |t| && t[i] != 0 :: t[i] != t[j]
  }

  /** The table lists exactly the live pointers. */
  ghost predicate Exact(t: seq<int>, live: set<int>) {
    OnceEach(t) && Recorded(t) == live
  }

  /** The table lists live pointers, not necessarily all of them. */
  ghost predicate Tracks(t: seq<int>, live: set<int>) {
    |t| == NR_SLOTS && OnceEach(t) && Recorded(t) <= live
  }

  lemma RecordKeepsExact(t: seq<int>, live: set<int>, i: nat, p: int)
    requires Exact(t, live) && i < |t| && t[i] == 0 && p != 0 && p !in t
    ensures Exact(t[i := p], live + {p})
  {
    var t' := t[i := p];
    assert Recorded(t') == live + {p} by {
      forall x | x in live ensures x in t' {
        var k :| 0 <= k < |t| && t[k] == x;
        assert t'[k] == x;
      }
      assert t'[i] == p;
    }
  }

  lemma EraseKeepsExact(t: seq<int>, live: set<int>, i: nat)
    requires Exact(t, live) && i < |t| && t[i] != 0
    ensures Exact(t[i := 0], live - {t[i]})
  {
    var t' := t[i := 0];
    assert Recorded(t') == live - {t[i]} by {
      forall x | x in live && x != t[i] ensures x in t' {
        var k :| 0 <= k < |t| && t[k] == x;
        assert t'[k] == x;
      }
    }
  }

  /** The table has a free slot exactly when it lists fewer pointers than slots. */
  lemma {:induction false} FreeSlotIff(t: seq<int>)
    requires OnceEach(t)
    ensures |Recorded(t)| <= |t| && (0 in t <==> |Recorded(t)| < |t|)
  {
    if t != [] {
      var rest, x := t[..|t| - 1], t[|t| - 1];
      assert t == rest + [x];
      FreeSlotIff(rest);
      assert Recorded(t) == if x == 0 then Recorded(rest) else Recorded(rest) + {x};
    }
  }

  /** The table after it was told of `p`: null and, without a free slot, any
      pointer leave it as it is. */
  ghost predicate Noted(t: seq<int>, t': seq<int>, p: int) {
    if p == 0 || 0 !in t then t' == t else Exact(t', Recorded(t) + {p})
  }

  /** As long as the table is exact, one more live pointer keeps it so exactly if
      fewer pointers are live than there are slots. */
  lemma ExactIffRoom(t: seq<int>, t': seq<int>, live: set<int>, p: int)
    requires Exact(t, live) && p != 0 && p !in live && Noted(t, t', p)
    ensures Exact(t', live + {p}) <==> |live| < |t|
  {
    FreeSlotIff(t);
  }

  /** As long as the table is exact, it knows live pointers and, while a slot is
      free, null. */
  lemma KnownIffLive(t: seq<int>, live: set<int>, p: int)
    requires Exact(t, live) && 0 !in live
    ensures p in t <==> p in live || (p == 0 && |live| < |t|)
  {
    FreeSlotIff(t);
  }

  class AddressSanitizer {
    const slots: array<int>

    constructor ()
      ensures slots.Length == NR_SLOTS && fresh(slots) && Exact(slots[..], {})
    {
      slots := new int[NR_SLOTS](_ => 0);
    }

    /** False is the kernel panic for a pointer that is not on record. */
    method MarkFreeChk(p: int) returns (ok: bool, ghost i: nat)
      requires slots.Length == NR_SLOTS
      modifies slots
      ensures ok <==> p in old(slots[..])
      ensures ok ==> i < NR_SLOTS && old(slots[i]) == p && slots[..] == old(slots[..])[i := 0]
      ensures !ok ==> slots[..] == old(slots[..])
    {
      i := 0;
      for k := 0 to NR_SLOTS
        invariant slots[..] == old(slots[..]) && p !in slots[..k]
      {
        if p == slots[k] {
          slots[k] := 0;
          return true, k;
        }
      }
      ok := false;
    }

    /** False is the kernel panic for a pointer already on record. Without a
        free slot the pointer is not recorded. */
    method MarkAllocated(p: int) returns (ok: bool, ghost i: nat)
      requires slots.Length == NR_SLOTS
      modifies slots
      ensures ok <==> p !in old(slots[..])
      ensures ok && 0 in old(slots[..]) ==> i < NR_SLOTS && old(slots[i]) == 0 && slots[..] == old(slots[..])[i := p]
      ensures !ok || 0 !in old(slots[..]) ==> slots[..] == old(slots[..])
    {
      i := 0;
      for k := 0 to NR_SLOTS
        invariant slots[..] == old(slots[..]) && p !in slots[..k]
      {
        if slots[k] == p {
          return false, 0;
        }
      }
      assert slots[..NR_SLOTS] == slots[..];
      ok := true;
      for k := 0 to NR_SLOTS
        invariant slots[..] == old(slots[..]) && 0 !in slots[..k]
      {
        if slots[k] == 0 {
          slots[k] := p;
          return true, k;
        }
      }
    }
  }
}
