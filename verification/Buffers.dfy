/** Overwriting part of a buffer, and numbers in it. */
module Buffers {

  /** `bytes` over the elements of `s` from `at` on. */
  function Splice(s: seq<int>, at: nat, bytes: seq<int>): (r: seq<int>)
    requires at + |bytes| <= |s|
    ensures |r| == |s|
    ensures forall i | 0 <= i < |s| :: r[i] == if at <= i < at + |bytes| then bytes[i - at] else s[i]
  {
    s[..at] + bytes + s[at + |bytes|..]
  }

  lemma SpliceSlice(s: seq<int>, at: nat, bytes: seq<int>)
    requires at + |bytes| <= |s|
    ensures Splice(s, at, bytes)[at..at + |bytes|] == bytes
    ensures forall lo, hi | 0 <= lo <= hi <= |s| && (hi <= at || at + |bytes| <= lo) ::
              Splice(s, at, bytes)[lo..hi] == s[lo..hi]
  {
  }

  /** `b` lies in `s` at `at`. */
  ghost predicate Holds(s: seq<int>, at: int, b: seq<int>) {
    0 <= at && at + |b| <= |s| && s[at..at + |b|] == b
  }

  lemma SpliceHolds(s: seq<int>, at: nat, bytes: seq<int>)
    requires at + |bytes| <= |s|
    ensures Holds(Splice(s, at, bytes), at, bytes)
  {
  }

  /** What lies elsewhere stays. */
  lemma SpliceKeeps(s: seq<int>, at: nat, bytes: seq<int>, lo: int, b: seq<int>)
    requires at + |bytes| <= |s| && Holds(s, lo, b) && (lo + |b| <= at || at + |bytes| <= lo)
    ensures Holds(Splice(s, at, bytes), lo, b)
  {
    SpliceSlice(s, at, bytes);
  }

  /** Copies `bytes` into the array. */
  method Copy(a: array<int>, at: nat, bytes: seq<int>)
    requires at + |bytes| <= a.Length
    modifies a
    ensures a[..] == Splice(old(a[..]), at, bytes)
  {
    for i := 0 to |bytes|
      invariant forall k | 0 <= k < a.Length :: a[k] == if at <= k < at + i then bytes[k - at] else old(a[k])
    {
      a[at + i] := bytes[i];
    }
  }

  // ---- little-endian words -----------------------------------------------------------

  const TWO_32: nat := 0x1_0000_0000

  function Bytes32(v: int): (b: seq<int>)
    ensures |b| == 4
  {
    [v % 256, v / 256 % 256, v / 65536 % 256, v / 16777216 % 256]
  }

  function Word32(b: seq<int>): int
    requires |b| == 4
  {
    b[0] + 256 * b[1] + 65536 * b[2] + 16777216 * b[3]
  }

  lemma Word32Stored(v: int)
    requires 0 <= v < TWO_32
    ensures Word32(Bytes32(v)) == v
  {
    var a := v / 256;
    var b := a / 256;
    assert v / 65536 == b;
    assert v / 16777216 == b / 256;
  }

  /** The first byte is the least significant one. */
  function LittleEndian(b: seq<int>): int { if b == [] then 0 else b[0] + 256 * LittleEndian(b[1..]) }

  lemma Word32IsLittleEndian(b: seq<int>)
    requires |b| == 4
    ensures Word32(b) == LittleEndian(b)
  {
    assert b[1..][1..] == b[2..] && b[2..][1..] == b[3..] && b[3..][1..] == [];
    assert LittleEndian(b[3..]) == b[3] && LittleEndian(b[2..]) == b[2] + 256 * b[3];
    assert LittleEndian(b[1..]) == b[1] + 256 * b[2] + 65536 * b[3];
  }

  lemma Word64IsLittleEndian(b: seq<int>)
    requires |b| == 8
    ensures Word64(b) == LittleEndian(b)
  {
    var low, high := b[..4], b[4..];
    Word32IsLittleEndian(low);
    Word32IsLittleEndian(high);
    LittleEndianJoin(b, 4);
  }

  lemma {:induction false} LittleEndianJoin(b: seq<int>, n: nat)
    requires n <= |b| && n <= 4
    ensures LittleEndian(b) == LittleEndian(b[..n]) + Weight(n) * LittleEndian(b[n..])
  {
    if n > 0 {
      LittleEndianJoin(b[1..], n - 1);
      assert b[..n][1..] == b[1..][..n - 1] && b[n..] == b[1..][n - 1..];
    }
  }

  /** The weight of byte `n`. */
  function Weight(n: nat): nat
    requires n <= 4
  {
    if n == 0 then 1 else if n == 1 then 256 else if n == 2 then 65536 else if n == 3 then 16777216 else TWO_32
  }

  /** The low word comes first. */
  function Bytes64(v: int): (b: seq<int>)
    ensures |b| == 8
  {
    Bytes32(v % TWO_32) + Bytes32(v / TWO_32)
  }

  function Word64(b: seq<int>): int
    requires |b| == 8
  {
    Word32(b[..4]) + TWO_32 * Word32(b[4..])
  }

  lemma Word64Stored(v: int)
    requires 0 <= v < TWO_32 * TWO_32
    ensures Word64(Bytes64(v)) == v
  {
    var low, high := Bytes32(v % TWO_32), Bytes32(v / TWO_32);
    Word32Stored(v % TWO_32);
    Word32Stored(v / TWO_32);
    assert Bytes64(v)[..4] == low && Bytes64(v)[4..] == high;
  }
}
