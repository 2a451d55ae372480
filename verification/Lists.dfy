/** Lists of indices without repetition, and a few facts about finite sets. */
module Lists {

  /** First element, or -1 where the source has a null pointer. */
  function Head(list: seq<int>): int { if list == [] then -1 else list[0] }

  ghost predicate Distinct(list: seq<int>) {
    forall i, j | 0 <= i < j < |list| :: list[i] != list[j]
  }

  function RemoveAt(l: seq<int>, i: nat): seq<int>
    requires i < |l|
  {
    l[..i] + l[i + 1..]
  }

  lemma RemoveAtIndex(l: seq<int>, i: nat)
    requires i < |l|
    ensures |RemoveAt(l, i)| == |l| - 1
    ensures forall j | 0 <= j < |l| - 1 :: RemoveAt(l, i)[j] == if j < i then l[j] else l[j + 1]
  {
  }

  lemma RemoveAtElements(l: seq<int>, i: nat)
    requires i < |l| && Distinct(l)
    ensures Distinct(RemoveAt(l, i))
    ensures forall x :: x in RemoveAt(l, i) <==> x in l && x != l[i]
  {
    var m := RemoveAt(l, i);
    RemoveAtIndex(l, i);
    forall x | x in l && x != l[i]
      ensures x in m
    {
      var j :| 0 <= j < |l| && l[j] == x;
      assert m[if j < i then j else j - 1] == x;
    }
  }

  function RemoveFirst(l: seq<int>, x: int): seq<int> {
    if l == [] then [] else if l[0] == x then l[1..] else [l[0]] + RemoveFirst(l[1..], x)
  }

  lemma {:induction false} RemoveFirstSpec(l: seq<int>, x: int)
    requires Distinct(l)
    ensures Distinct(RemoveFirst(l, x))
    ensures forall y :: y in RemoveFirst(l, x) <==> y in l && y != x
  {
    if l != [] {
      assert l == [l[0]] + l[1..];
      assert l[0] !in l[1..];
      RemoveFirstSpec(l[1..], x);
      if l[0] != x {
        DistinctCons(l[0], RemoveFirst(l[1..], x));
      }
    }
  }

  lemma DistinctCons(x: int, l: seq<int>)
    requires Distinct(l) && x !in l
    ensures Distinct([x] + l)
  {
  }

  lemma {:induction false} RemoveAbsent(l: seq<int>, x: int)
    requires x !in l
    ensures RemoveFirst(l, x) == l
  {
    if l != [] {
      assert l == [l[0]] + l[1..];
      RemoveAbsent(l[1..], x);
    }
  }

  lemma {:induction false} RemoveAtIsFirst(l: seq<int>, i: nat)
    requires i < |l| && Distinct(l)
    ensures RemoveAt(l, i) == RemoveFirst(l, l[i])
  {
    if i > 0 {
      var rest := l[1..];
      assert rest[i - 1] == l[i] && l[0] != l[i];
      RemoveAtIsFirst(rest, i - 1);
      assert RemoveAt(l, i) == [l[0]] + RemoveAt(rest, i - 1);
    }
  }

  lemma {:induction false} DistinctSize(l: seq<int>)
    requires Distinct(l)
    ensures |set x | x in l| == |l|
  {
    if l != [] {
      var rest := l[..|l| - 1];
      assert l == rest + [l[|l| - 1]];
      DistinctSize(rest);
      assert (set x | x in l) == (set x | x in rest) + {l[|l| - 1]};
    }
  }

  /** `v` at the indices from `lo` up to `hi`. */
  function Fill(l: seq<int>, lo: int, hi: int, v: int): seq<int> {
    seq(|l|, f requires 0 <= f < |l| => if lo <= f < hi then v else l[f])
  }

  lemma SubsetSize<T>(a: set<T>, b: set<T>)
    requires a <= b
    ensures |a| <= |b|
  {
    assert b == a + (b - a);
  }

  lemma SomeMember(pool: set<int>)
    requires pool != {}
    ensures exists p :: p in pool
  {
    assert (forall p :: p !in pool) ==> pool == {};
  }
}
