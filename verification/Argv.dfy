/** Passing arguments to a new program: Task::copy_arguments_to_user_stack of
    proc/Task.cc and the way the program reads them back. */
module Argv {
  import opened KMath
  import opened Buffers

  const PAGE: nat := 4096
  /** Where the page is mapped for the program. */
  const USER_STACK_PAGE: nat := 0x0000_7fff_ffff_f000

  /** `argv` may be null. */
  datatype Arguments = NullArgv | Argv(strings: seq<seq<int>>)

  // ---- what the program sees ----------------------------------------------------------

  /** `n` bytes at a user address. */
  function Peek(page: seq<int>, addr: int, n: nat): seq<int>
    requires |page| == PAGE && USER_STACK_PAGE <= addr && addr + n <= USER_STACK_PAGE + PAGE
  {
    page[addr - USER_STACK_PAGE..addr - USER_STACK_PAGE + n]
  }

  ghost predicate ZeroFree(s: seq<int>) { forall i | 0 <= i < |s| :: s[i] != 0 }

  /** A C string equal to `s` lies at `addr`: its first zero ends it. */
  ghost predicate StringAt(page: seq<int>, addr: int, s: seq<int>)
    requires |page| == PAGE
  {
    && ZeroFree(s)
    && USER_STACK_PAGE <= addr && addr + |s| + 1 <= USER_STACK_PAGE + PAGE
    && Peek(page, addr, |s| + 1) == s + [0]
  }

  ghost predicate PointerAt(page: seq<int>, addr: int, v: int)
    requires |page| == PAGE
  {
    && USER_STACK_PAGE <= addr && addr + 8 <= USER_STACK_PAGE + PAGE
    && Word64(Peek(page, addr, 8)) == v
  }

  /** argc at the stack pointer, argv above it. */
  ghost predicate FrameAt(page: seq<int>, sp: int, argc: int, argv: int)
    requires |page| == PAGE
  {
    && USER_STACK_PAGE <= sp && sp + 16 <= USER_STACK_PAGE + PAGE && sp % 16 == 0
    && Word32(Peek(page, sp, 4)) == argc
    && PointerAt(page, sp + 8, argv)
  }

  /** Through argv the program finds the strings, then a null. */
  ghost predicate VectorAt(page: seq<int>, args: seq<seq<int>>, argv: int, ptrs: seq<int>)
    requires |page| == PAGE && |ptrs| == |args|
  {
    && (forall i {:trigger ArgumentAt(page, args, argv, ptrs, i)} | 0 <= i < |args| ::
          ArgumentAt(page, args, argv, ptrs, i))
    && PointerAt(page, argv + 8 * |args|, 0)
  }

  ghost predicate ArgumentAt(page: seq<int>, args: seq<seq<int>>, argv: int, ptrs: seq<int>, i: nat)
    requires |page| == PAGE && i < |args| == |ptrs|
  {
    PointerAt(page, argv + 8 * i, ptrs[i]) && StringAt(page, ptrs[i], args[i])
  }

  /** No string shares a byte with another one or with the pointers below. */
  ghost predicate Apart(sp: int, args: seq<seq<int>>, argv: int, ptrs: seq<int>) {
    && |ptrs| == |args| && sp + 16 <= argv
    && (forall i | 0 <= i < |args| :: argv + 8 * |args| + 8 <= ptrs[i])
    && (forall i, j | 0 <= i < j < |args| :: ptrs[i] + |args[i]| + 1 <= ptrs[j])
  }

  // ---- how much room is needed ---------------------------------------------------------

  function Round16(n: nat): nat { if n <= 16 then 16 else (n + 15) / 16 * 16 }

  function StringsSize(args: seq<seq<int>>): nat {
    if args == [] then 0 else Round16(|args[0]| + 1) + StringsSize(args[1..])
  }

  function Needed(args: seq<seq<int>>): nat { StringsSize(args) + Round16(8 * (|args| + 2)) + 16 }

  /** Offset of string `i` in the page. */
  function Offset(args: seq<seq<int>>, i: nat): int
    requires i <= |args|
  {
    PAGE - StringsSize(args[i..])
  }

  lemma OffsetStep(args: seq<seq<int>>, i: nat)
    requires i < |args|
    ensures Offset(args, i) == Offset(args, i + 1) - Round16(|args[i]| + 1)
    ensures Offset(args, i) + |args[i]| + 1 <= Offset(args, i + 1)
  {
    assert args[i..][1..] == args[i + 1..];
  }

  lemma {:induction false} OffsetsAscend(args: seq<seq<int>>, i: nat, j: nat)
    requires i <= j <= |args|
    ensures Offset(args, i) <= Offset(args, j) <= PAGE && Offset(args, j) % 16 == 0
    decreases |args| - i
  {
    if i < j {
      OffsetStep(args, i);
      OffsetsAscend(args, i + 1, j);
    } else if i < |args| {
      OffsetStep(args, i);
      OffsetsAscend(args, i + 1, i + 1);
    }
  }

  lemma Rounded(n: nat, result: nat, q: nat)
    requires result == q * 16 && q >= 1 && n <= result && (q > 1 ==> result - 16 < n)
    ensures result == Round16(n) && result % 16 == 0
  {
  }

  /** Strings from `i` on are in place. */
  ghost predicate Placed(page: seq<int>, args: seq<seq<int>>, i: int)
    requires 0 <= i <= |args|
  {
    forall j {:trigger PlacedAt(page, args, j)} | i <= j < |args| :: PlacedAt(page, args, j)
  }

  ghost predicate PlacedAt(page: seq<int>, args: seq<seq<int>>, j: nat)
    requires j < |args|
  {
    Holds(page, Offset(args, j), args[j] + [0])
  }

  /** Writing below string `i` leaves the strings from `i` on. */
  lemma PlacedKept(page: seq<int>, args: seq<seq<int>>, i: nat, at: nat, bytes: seq<int>)
    requires i <= |args| && Placed(page, args, i) && |page| == PAGE && at + |bytes| <= Offset(args, i)
    ensures at + |bytes| <= |page| && Placed(Splice(page, at, bytes), args, i)
  {
    OffsetsAscend(args, i, |args|);
    forall j | i <= j < |args| ensures PlacedAt(Splice(page, at, bytes), args, j) {
      OffsetsAscend(args, i, j);
      assert PlacedAt(page, args, j);
      SpliceKeeps(page, at, bytes, Offset(args, j), args[j] + [0]);
    }
  }

  lemma PlaceNext(page: seq<int>, args: seq<seq<int>>, i: nat)
    requires i < |args| && Placed(page, args, i + 1) && |page| == PAGE && Offset(args, i) >= 0
    ensures Offset(args, i) + |args[i]| + 1 <= PAGE
    ensures Placed(Splice(page, Offset(args, i), args[i] + [0]), args, i)
  {
    OffsetStep(args, i);
    OffsetsAscend(args, i + 1, |args|);
    PlacedKept(page, args, i + 1, Offset(args, i), args[i] + [0]);
    SpliceHolds(page, Offset(args, i), args[i] + [0]);
    assert PlacedAt(Splice(page, Offset(args, i), args[i] + [0]), args, i);
  }

  /** Copies the strings below `PAGE`, the last one highest. */
  method CopyStrings(page: array<int>, base: nat, args: seq<seq<int>>) returns (sp: int, addrs: seq<int>)
    requires page.Length == PAGE && Offset(args, 0) >= 0
    modifies page
    ensures sp == base + Offset(args, 0)
    ensures |addrs| == |args| && forall j | 0 <= j < |args| :: addrs[j] == base + Offset(args, j)
    ensures Placed(page[..], args, 0)
  {
    sp := base + PAGE;
    addrs := seq(|args|, _ => 0);
    var i := |args| - 1;
    while i >= 0
      invariant -1 <= i < |args| && |addrs| == |args|
      invariant sp == base + Offset(args, i + 1)
      invariant forall j | i < j < |args| :: addrs[j] == base + Offset(args, j)
      invariant Placed(page[..], args, i + 1)
    {
      sp := CopyString(page, base, args, i, sp);
      addrs := addrs[i := sp];
      i := i - 1;
    }
  }

  method CopyString(page: array<int>, base: nat, args: seq<seq<int>>, i: nat, top: int) returns (sp: int)
    requires page.Length == PAGE && Offset(args, 0) >= 0 && i < |args| && top == base + Offset(args, i + 1)
    requires Placed(page[..], args, i + 1)
    modifies page
    ensures sp == base + Offset(args, i) && Placed(page[..], args, i)
  {
    var len, q := RoundUpToMultipleOfN(|args[i]| + 1, 16);
    Rounded(|args[i]| + 1, len, q);
    OffsetStep(args, i);
    OffsetsAscend(args, 0, i);
    PlaceNext(page[..], args, i);
    sp := top - len;
    Copy(page, sp - base, args[i] + [0]);
  }

  // ---- the pointer array -----------------------------------------------------------------

  function UserAddr(addr: int): int { USER_STACK_PAGE + addr % PAGE }

  lemma UserAddrOf(base: nat, off: nat)
    requires base % PAGE == 0 && off < PAGE
    ensures UserAddr(base + off) == USER_STACK_PAGE + off
  {
    assert (base + off) % PAGE == off;
  }

  ghost predicate PointersDone(page: seq<int>, args: seq<seq<int>>, arr: int, n: int)
    requires 0 <= n <= |args|
  {
    forall k {:trigger PointerDone(page, args, arr, k)} | 0 <= k < n :: PointerDone(page, args, arr, k)
  }

  ghost predicate PointerDone(page: seq<int>, args: seq<seq<int>>, arr: int, k: nat)
    requires k < |args|
  {
    Offset(args, k) >= 0 && Holds(page, arr + 8 * k, Bytes64(USER_STACK_PAGE + Offset(args, k)))
  }

  lemma PointersKept(page: seq<int>, args: seq<seq<int>>, arr: int, n: nat, at: nat, bytes: seq<int>)
    requires n <= |args| && PointersDone(page, args, arr, n) && at + |bytes| <= |page|
    requires arr + 8 * n <= at || at + |bytes| <= arr
    ensures PointersDone(Splice(page, at, bytes), args, arr, n)
  {
    forall k | 0 <= k < n ensures PointerDone(Splice(page, at, bytes), args, arr, k) {
      assert PointerDone(page, args, arr, k);
      SpliceKeeps(page, at, bytes, arr + 8 * k, Bytes64(USER_STACK_PAGE + Offset(args, k)));
    }
  }

  /** One more pointer, below everything placed so far. */
  lemma PointerNext(page: seq<int>, args: seq<seq<int>>, arr: nat, i: nat)
    requires |page| == PAGE && Offset(args, 0) >= 0 && i < |args| && arr + 8 * |args| + 8 <= Offset(args, 0)
    requires Placed(page, args, 0) && PointersDone(page, args, arr, i)
    ensures 0 <= Offset(args, i) < PAGE
    ensures var page' := Splice(page, arr + 8 * i, Bytes64(USER_STACK_PAGE + Offset(args, i)));
            Placed(page', args, 0) && PointersDone(page', args, arr, i + 1)
  {
    OffsetsAscend(args, 0, i);
    OffsetsAscend(args, i + 1, |args|);
    OffsetStep(args, i);
    var bytes := Bytes64(USER_STACK_PAGE + Offset(args, i));
    PlacedKept(page, args, 0, arr + 8 * i, bytes);
    PointersKept(page, args, arr, i, arr + 8 * i, bytes);
    SpliceHolds(page, arr + 8 * i, bytes);
    assert PointerDone(Splice(page, arr + 8 * i, bytes), args, arr, i);
  }

  lemma NullNext(page: seq<int>, args: seq<seq<int>>, arr: nat)
    requires |page| == PAGE && 0 <= Offset(args, 0) <= PAGE && arr + 8 * |args| + 8 <= Offset(args, 0)
    requires Placed(page, args, 0) && PointersDone(page, args, arr, |args|)
    ensures var page' := Splice(page, arr + 8 * |args|, Bytes64(0));
            && Placed(page', args, 0) && PointersDone(page', args, arr, |args|)
            && Holds(page', arr + 8 * |args|, Bytes64(0))
  {
    PlacedKept(page, args, 0, arr + 8 * |args|, Bytes64(0));
    PointersKept(page, args, arr, |args|, arr + 8 * |args|, Bytes64(0));
    SpliceHolds(page, arr + 8 * |args|, Bytes64(0));
  }

  /** Writes the user addresses of the strings, then a null. */
  method CopyPointers(page: array<int>, base: nat, args: seq<seq<int>>, addrs: seq<int>, arr: nat)
    requires page.Length == PAGE && base % PAGE == 0 && Offset(args, 0) >= 0
    requires |addrs| == |args| && forall j | 0 <= j < |args| :: addrs[j] == base + Offset(args, j)
    requires Placed(page[..], args, 0) && arr + 8 * |args| + 8 <= Offset(args, 0)
    modifies page
    ensures Placed(page[..], args, 0) && PointersDone(page[..], args, arr, |args|)
    ensures Holds(page[..], arr + 8 * |args|, Bytes64(0))
  {
    OffsetsAscend(args, 0, |args|);
    for i := 0 to |args|
      invariant Placed(page[..], args, 0) && PointersDone(page[..], args, arr, i)
    {
      CopyPointer(page, base, args, addrs[i], arr, i);
    }
    NullNext(page[..], args, arr);
    Copy(page, arr + 8 * |args|, Bytes64(0));
  }

  method CopyPointer(page: array<int>, base: nat, args: seq<seq<int>>, addr: int, arr: nat, i: nat)
    requires page.Length == PAGE && base % PAGE == 0 && Offset(args, 0) >= 0
    requires i < |args| && addr == base + Offset(args, i) && arr + 8 * |args| + 8 <= Offset(args, 0)
    requires Placed(page[..], args, 0) && PointersDone(page[..], args, arr, i)
    modifies page
    ensures Placed(page[..], args, 0) && PointersDone(page[..], args, arr, i + 1)
  {
    PointerNext(page[..], args, arr, i);
    UserAddrOf(base, Offset(args, i));
    OffsetsAscend(args, 0, |args|);
    Copy(page, arr + 8 * i, Bytes64(UserAddr(addr)));
  }

  // ---- the whole frame ---------------------------------------------------------------------

  function Pointers(args: seq<seq<int>>): (r: seq<int>)
    ensures |r| == |args|
  {
    seq(|args|, i requires 0 <= i < |args| => USER_STACK_PAGE + Offset(args, i))
  }

  /** Two words below `top`: argv, then argc in the low half of the lower one. */
  method PushFrame(page: array<int>, top: nat, argv: nat, argc: nat)
    requires page.Length == PAGE && 16 <= top <= PAGE
    modifies page
    ensures page[..] == Splice(Splice(old(page[..]), top - 8, Bytes64(argv)), top - 16, Bytes32(argc))
  {
    Copy(page, top - 8, Bytes64(argv));
    Copy(page, top - 16, Bytes32(argc));
  }

  lemma FrameHolds(s: seq<int>, top: nat, argv: nat, argc: nat)
    requires |s| == PAGE && 16 <= top <= PAGE
    ensures var s' := Splice(Splice(s, top - 8, Bytes64(argv)), top - 16, Bytes32(argc));
            && Holds(s', top - 8, Bytes64(argv)) && Holds(s', top - 16, Bytes32(argc))
  {
    var s1 := Splice(s, top - 8, Bytes64(argv));
    SpliceHolds(s, top - 8, Bytes64(argv));
    SpliceHolds(s1, top - 16, Bytes32(argc));
    SpliceKeeps(s1, top - 16, Bytes32(argc), top - 8, Bytes64(argv));
  }

  lemma FrameKeeps(s: seq<int>, args: seq<seq<int>>, arr: nat, argv: nat, argc: nat)
    requires |s| == PAGE && 16 <= arr && arr + 8 * |args| + 8 <= Offset(args, 0)
    requires Placed(s, args, 0) && PointersDone(s, args, arr, |args|) && Holds(s, arr + 8 * |args|, Bytes64(0))
    ensures arr <= PAGE
    ensures var s' := Splice(Splice(s, arr - 8, Bytes64(argv)), arr - 16, Bytes32(argc));
            && Placed(s', args, 0) && PointersDone(s', args, arr, |args|) && Holds(s', arr + 8 * |args|, Bytes64(0))
  {
    OffsetsAscend(args, 0, |args|);
    var s1 := Splice(s, arr - 8, Bytes64(argv));
    PlacedKept(s, args, 0, arr - 8, Bytes64(argv));
    PointersKept(s, args, arr, |args|, arr - 8, Bytes64(argv));
    SpliceKeeps(s, arr - 8, Bytes64(argv), arr + 8 * |args|, Bytes64(0));
    PlacedKept(s1, args, 0, arr - 16, Bytes32(argc));
    PointersKept(s1, args, arr, |args|, arr - 16, Bytes32(argc));
    SpliceKeeps(s1, arr - 16, Bytes32(argc), arr + 8 * |args|, Bytes64(0));
  }

  lemma ReadPointer(page: seq<int>, off: int, v: nat)
    requires |page| == PAGE && Holds(page, off, Bytes64(v)) && v < 0x1_0000_0000_0000_0000
    ensures PointerAt(page, USER_STACK_PAGE + off, v)
  {
    Word64Stored(v);
  }

  /** A page laid out this way is what the program expects. */
  lemma LayoutReceived(page: seq<int>, args: seq<seq<int>>, arr: nat)
    requires |page| == PAGE && 16 <= arr && arr + 8 * |args| + 8 <= Offset(args, 0) && arr % 16 == 0
    requires Placed(page, args, 0) && PointersDone(page, args, arr, |args|)
    requires Holds(page, arr + 8 * |args|, Bytes64(0))
    requires Holds(page, arr - 8, Bytes64(USER_STACK_PAGE + arr)) && Holds(page, arr - 16, Bytes32(|args|))
    requires forall i | 0 <= i < |args| :: ZeroFree(args[i])
    ensures FrameAt(page, USER_STACK_PAGE + arr - 16, |args|, USER_STACK_PAGE + arr)
    ensures VectorAt(page, args, USER_STACK_PAGE + arr, Pointers(args))
    ensures Apart(USER_STACK_PAGE + arr - 16, args, USER_STACK_PAGE + arr, Pointers(args))
  {
    OffsetsAscend(args, 0, |args|);
    FrameReceived(page, arr, |args|, USER_STACK_PAGE + arr);
    VectorReceived(page, args, arr);
    LayoutApart(args, arr);
  }

  lemma VectorReceived(page: seq<int>, args: seq<seq<int>>, arr: nat)
    requires |page| == PAGE && Placed(page, args, 0) && PointersDone(page, args, arr, |args|)
    requires Holds(page, arr + 8 * |args|, Bytes64(0))
    requires forall i | 0 <= i < |args| :: ZeroFree(args[i])
    ensures VectorAt(page, args, USER_STACK_PAGE + arr, Pointers(args))
  {
    ReadPointer(page, arr + 8 * |args|, 0);
    AllReceived(page, args, arr, USER_STACK_PAGE + arr);
  }

  lemma FrameReceived(page: seq<int>, top: nat, argc: nat, argv: nat)
    requires |page| == PAGE && 16 <= top <= PAGE && top % 16 == 0
    requires Holds(page, top - 8, Bytes64(argv)) && Holds(page, top - 16, Bytes32(argc))
    requires argc < PAGE && argv < 0x1_0000_0000_0000_0000
    ensures FrameAt(page, USER_STACK_PAGE + top - 16, argc, argv)
  {
    CountReceived(page, top - 16, argc);
    ReadPointer(page, top - 8, argv);
  }

  lemma AllReceived(page: seq<int>, args: seq<seq<int>>, arr: nat, argv: int)
    requires |page| == PAGE && Placed(page, args, 0) && PointersDone(page, args, arr, |args|)
    requires (forall i | 0 <= i < |args| :: ZeroFree(args[i])) && argv == USER_STACK_PAGE + arr
    ensures forall i {:trigger ArgumentAt(page, args, argv, Pointers(args), i)} | 0 <= i < |args| ::
              ArgumentAt(page, args, argv, Pointers(args), i)
  {
    var ptrs := Pointers(args);
    forall i | 0 <= i < |args| ensures ArgumentAt(page, args, argv, ptrs, i) {
      StringReceived(page, args, arr, i);
    }
  }

  lemma CountReceived(page: seq<int>, off: int, n: nat)
    requires |page| == PAGE && Holds(page, off, Bytes32(n)) && n < PAGE
    ensures Word32(Peek(page, USER_STACK_PAGE + off, 4)) == n
  {
    Word32Stored(n);
  }

  lemma StringReceived(page: seq<int>, args: seq<seq<int>>, arr: nat, i: nat)
    requires |page| == PAGE && i < |args| && Placed(page, args, 0) && PointersDone(page, args, arr, |args|)
    requires ZeroFree(args[i])
    ensures PointerAt(page, USER_STACK_PAGE + arr + 8 * i, USER_STACK_PAGE + Offset(args, i))
    ensures StringAt(page, USER_STACK_PAGE + Offset(args, i), args[i])
  {
    OffsetsAscend(args, i, |args|);
    assert PlacedAt(page, args, i) && PointerDone(page, args, arr, i);
    ReadPointer(page, arr + 8 * i, USER_STACK_PAGE + Offset(args, i));
  }

  lemma LayoutApart(args: seq<seq<int>>, arr: nat)
    requires 16 <= arr && arr + 8 * |args| + 8 <= Offset(args, 0)
    ensures Apart(USER_STACK_PAGE + arr - 16, args, USER_STACK_PAGE + arr, Pointers(args))
  {
    var ptrs := Pointers(args);
    forall i | 0 <= i < |args| ensures USER_STACK_PAGE + arr + 8 * |args| + 8 <= ptrs[i] {
      OffsetsAscend(args, 0, i);
    }
    forall i, j | 0 <= i < j < |args| ensures ptrs[i] + |args[i]| + 1 <= ptrs[j] {
      OffsetStep(args, i);
      OffsetsAscend(args, i + 1, j);
    }
  }

  lemma PageAligned16(base: nat, off: nat)
    requires base % PAGE == 0 && off % 16 == 0
    ensures (base + off) % 16 == 0
  {
    assert base == base / PAGE * 256 * 16;
  }

  /** What the program finds at its stack pointer: argc, argv, every string and
      the closing null, with nothing overlapping. */
  ghost predicate Received(page: seq<int>, argv: Arguments, user: nat)
    requires |page| == PAGE
  {
    match argv
    case NullArgv => FrameAt(page, user, 0, 0)
    case Argv(strings) =>
      && FrameAt(page, user, |strings|, user + 16)
      && VectorAt(page, strings, user + 16, Pointers(strings))
      && Apart(user, strings, user + 16, Pointers(strings))
  }

  method PushNull(page: array<int>) returns (off: nat)
    requires page.Length == PAGE
    modifies page
    ensures off + 16 <= PAGE && off % 16 == 0 && Received(page[..], NullArgv, USER_STACK_PAGE + off)
  {
    FrameHolds(page[..], PAGE, 0, 0);
    PushFrame(page, PAGE, 0, 0);
    FrameReceived(page[..], PAGE, 0, 0);
    off := PAGE - 16;
  }

  /** Lays the arguments out on the stack page at physical address `base`; the
      stack pointer is returned as a physical address. */
  method CopyArguments(page: array<int>, base: nat, argv: Arguments) returns (sp: nat)
    requires page.Length == PAGE && base % PAGE == 0
    requires argv.Argv? ==>
               Needed(argv.strings) <= PAGE && forall i | 0 <= i < |argv.strings| :: ZeroFree(argv.strings[i])
    modifies page
    ensures base <= sp && sp + 16 <= base + PAGE && sp % 16 == 0
    ensures Received(page[..], argv, USER_STACK_PAGE + sp - base)
  {
    var off := LayOut(page, base, argv);
    PageAligned16(base, off);
    sp := base + off;
  }

  method LayOut(page: array<int>, base: nat, argv: Arguments) returns (off: nat)
    requires page.Length == PAGE && base % PAGE == 0
    requires argv.Argv? ==>
               Needed(argv.strings) <= PAGE && forall i | 0 <= i < |argv.strings| :: ZeroFree(argv.strings[i])
    modifies page
    ensures off + 16 <= PAGE && off % 16 == 0
    ensures Received(page[..], argv, USER_STACK_PAGE + off)
  {
    match argv {
      case NullArgv => off := PushNull(page);
      case Argv(strings) => off := CopyVector(page, base, strings);
    }
  }

  /** The array starts at a multiple of 16 with room for it above and for the
      frame below. */
  lemma ArrayFits(args: seq<seq<int>>, room: nat, q: nat, arr: int)
    requires room == q * 16 && q >= 1 && 8 * (|args| + 2) <= room && (q > 1 ==> room - 16 < 8 * (|args| + 2))
    requires Needed(args) <= PAGE && arr == Offset(args, 0) - room
    ensures 16 <= arr <= PAGE && arr % 16 == 0 && arr + 8 * |args| + 8 <= Offset(args, 0)
  {
    assert args[0..] == args;
    Rounded(8 * (|args| + 2), room, q);
    OffsetsAscend(args, 0, 0);
  }

  method CopyVector(page: array<int>, base: nat, args: seq<seq<int>>) returns (off: nat)
    requires page.Length == PAGE && base % PAGE == 0 && Needed(args) <= PAGE
    requires forall i | 0 <= i < |args| :: ZeroFree(args[i])
    modifies page
    ensures off + 16 <= PAGE && off % 16 == 0 && Received(page[..], Argv(args), USER_STACK_PAGE + off)
  {
    var room, q := RoundUpToMultipleOfN(8 * (|args| + 2), 16);
    ArrayFits(args, room, q, Offset(args, 0) - room);
    var top, addrs := CopyStrings(page, base, args);
    off := CopyArray(page, base, args, addrs, top - room - base);
  }

  method CopyArray(page: array<int>, base: nat, args: seq<seq<int>>, addrs: seq<int>, arr: nat) returns (off: nat)
    requires page.Length == PAGE && base % PAGE == 0 && 16 <= arr <= PAGE && arr % 16 == 0
    requires forall i | 0 <= i < |args| :: ZeroFree(args[i])
    requires |addrs| == |args| && forall j | 0 <= j < |args| :: addrs[j] == base + Offset(args, j)
    requires Placed(page[..], args, 0) && arr + 8 * |args| + 8 <= Offset(args, 0)
    modifies page
    ensures off + 16 <= PAGE && off % 16 == 0 && Received(page[..], Argv(args), USER_STACK_PAGE + off)
  {
    CopyPointers(page, base, args, addrs, arr);
    FrameAndRead(page, base, args, arr);
    off := arr - 16;
  }

  method FrameAndRead(page: array<int>, base: nat, args: seq<seq<int>>, arr: nat)
    requires page.Length == PAGE && base % PAGE == 0 && arr % 16 == 0
    requires 16 <= arr && arr + 8 * |args| + 8 <= Offset(args, 0)
    requires Placed(page[..], args, 0) && PointersDone(page[..], args, arr, |args|)
    requires Holds(page[..], arr + 8 * |args|, Bytes64(0))
    requires forall i | 0 <= i < |args| :: ZeroFree(args[i])
    modifies page
    ensures Received(page[..], Argv(args), USER_STACK_PAGE + (arr - 16))
  {
    ghost var was := page[..];
    FrameKeeps(was, args, arr, USER_STACK_PAGE + arr, |args|);
    UserAddrOf(base, arr);
    FrameHolds(was, arr, USER_STACK_PAGE + arr, |args|);
    PushFrame(page, arr, UserAddr(base + arr), |args|);
    LayoutReceived(page[..], args, arr);
  }
}
