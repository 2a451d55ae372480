/** The 64-bit page descriptors of include/mm/mmu.h: what a word means, and that
    the words mm/VirtualMemoryMap.cc computes mean what they should. */
module Descriptors {
  import opened PageTables

  const PD_COW_PAGE: bv64 := 0x0080_0000_0000_0000
  const PD_EL0_EXEC_NEVER: bv64 := 0x0040_0000_0000_0000
  const PD_RDONLY: bv64 := 0x80
  const PD_TABLE: bv64 := 3
  const PD_PAGE_MASK: bv64 := 0x0000_7fff_ffff_f000
  const PD_ATTR_MASK: bv64 := 0xfff
  /** Memory type 1, access flag, user access, page. */
  const USER_PAGE: bv64 := 0x447
  /** Where zone 0 begins; a frame is known by its number in the zone. */
  const ZONE_BEGIN: bv64 := 0x1000_0000

  // ---- where the frames are ---------------------------------------------------------------

  /** The physical address of each frame, and the frame at an address. */
  datatype Placement = Placement(addr: int -> bv64, frame: bv64 -> int)

  /** Number and address of a frame determine each other, and the address fits
      the address field of a descriptor. */
  ghost predicate PlacementOk(m: Placement) {
    forall f {:trigger m.addr(f)} | 0 <= f < NR_FRAMES ::
      m.addr(f) & PD_PAGE_MASK == m.addr(f) && m.frame(m.addr(f)) == f
  }

  // ---- zone 0 ---------------------------------------------------------------------------

  /** An octal digit as a word. */
  function Digit(d: nat): bv64 {
    if d == 0 then 0 else if d == 1 then 1 else if d == 2 then 2 else if d == 3 then 3
    else if d == 4 then 4 else if d == 5 then 5 else if d == 6 then 6 else 7
  }

  lemma DigitSmall(d: nat)
    ensures Digit(d) <= 7
  {
  }

  lemma DigitsApart(d: nat, e: nat)
    requires d < 8 && e < 8 && Digit(d) == Digit(e)
    ensures d == e
  {
  }

  /** The address of the frame whose number has these three digits. */
  function Octal(x: bv64, y: bv64, z: bv64): bv64 { ZONE_BEGIN + x * 0x4_0000 + y * 0x8000 + z * 0x1000 }

  lemma OctalBits(x: bv64, y: bv64, z: bv64)
    requires x <= 7 && y <= 7 && z <= 7
    ensures Octal(x, y, z) & PD_PAGE_MASK == Octal(x, y, z)
  {
  }

  lemma OctalApart(x: bv64, y: bv64, z: bv64, x': bv64, y': bv64, z': bv64)
    requires x <= 7 && y <= 7 && z <= 7 && x' <= 7 && y' <= 7 && z' <= 7 && Octal(x, y, z) == Octal(x', y', z')
    ensures x == x' && y == y' && z == z'
  {
  }

  /** Frames lie side by side from the start of the zone. */
  function FrameAddr(f: int): bv64
    requires 0 <= f < NR_FRAMES
  {
    Octal(Digit(f / 64), Digit(f / 8 % 8), Digit(f % 8))
  }

  lemma FrameAddrBits(f: int)
    requires 0 <= f < NR_FRAMES
    ensures FrameAddr(f) & PD_PAGE_MASK == FrameAddr(f)
  {
    DigitSmall(f / 64);
    DigitSmall(f / 8 % 8);
    DigitSmall(f % 8);
    OctalBits(Digit(f / 64), Digit(f / 8 % 8), Digit(f % 8));
  }

  lemma SameDigits(a: nat, b: nat, c: nat, a': nat, b': nat, c': nat)
    requires a < 8 && b < 8 && c < 8 && a' < 8 && b' < 8 && c' < 8
    requires Octal(Digit(a), Digit(b), Digit(c)) == Octal(Digit(a'), Digit(b'), Digit(c'))
    ensures a == a' && b == b' && c == c'
  {
    DigitSmall(a);
    DigitSmall(b);
    DigitSmall(c);
    DigitSmall(a');
    DigitSmall(b');
    DigitSmall(c');
    OctalApart(Digit(a), Digit(b), Digit(c), Digit(a'), Digit(b'), Digit(c'));
    DigitsApart(a, a');
    DigitsApart(b, b');
    DigitsApart(c, c');
  }

  lemma FramesApart(f: int, e: int)
    requires 0 <= f < NR_FRAMES && 0 <= e < NR_FRAMES && FrameAddr(f) == FrameAddr(e)
    ensures f == e
  {
    SameDigits(f / 64, f / 8 % 8, f % 8, e / 64, e / 8 % 8, e % 8);
    ThreeDigits(f);
    ThreeDigits(e);
  }

  lemma ThreeDigits(f: int)
    ensures f == 64 * (f / 64) + 8 * (f / 8 % 8) + f % 8
  {
  }

  lemma AllFramesApart()
    ensures forall f, e | 0 <= f < NR_FRAMES && 0 <= e < NR_FRAMES && FrameAddr(f) == FrameAddr(e) :: f == e
  {
    forall f, e | 0 <= f < NR_FRAMES && 0 <= e < NR_FRAMES && FrameAddr(f) == FrameAddr(e) ensures f == e {
      FramesApart(f, e);
    }
  }

  /** The frame at a physical address; other addresses halt the kernel. */
  function FrameAt(a: bv64): int {
    if exists f | 0 <= f < NR_FRAMES :: FrameAddr(f) == a then
      AllFramesApart();
      var f :| 0 <= f < NR_FRAMES && FrameAddr(f) == a;
      f
    else 0
  }

  function ZoneZero(): Placement {
    Placement(f => if 0 <= f < NR_FRAMES then FrameAddr(f) else 0, a => FrameAt(a))
  }

  /** The kernel's frames lie side by side from the start of the zone. */
  lemma ZoneZeroOk()
    ensures PlacementOk(ZoneZero())
  {
    var m := ZoneZero();
    forall f | 0 <= f < NR_FRAMES ensures m.addr(f) & PD_PAGE_MASK == m.addr(f) && m.frame(m.addr(f)) == f {
      FrameAddrBits(f);
      AllFramesApart();
    }
  }

  // ---- what a word means ------------------------------------------------------------------

  predicate Valid(w: bv64) { w & 1 == 1 }

  /** A page or table entry, by its two low bits. */
  predicate IsEntry(w: bv64) { w & 3 == 3 }

  /** A page of normal memory that has been marked accessed and is open to
      programs: bits 0, 1, 6 and 10, and memory type 1 in bits 2 to 4. */
  predicate IsUserPage(w: bv64) { w & 0x45f == 0x447 }

  function KindOf(w: bv64): Kind { if IsUserPage(w) then UserPage else if IsEntry(w) then NextTable else Unusable }

  function Decode(m: Placement, w: bv64): Desc {
    Desc(Valid(w), KindOf(w), if Valid(w) then m.frame(w & PD_PAGE_MASK) else 0,
         w & PD_RDONLY != 0, w & PD_COW_PAGE != 0, w & PD_EL0_EXEC_NEVER != 0)
  }

  lemma EntryBits(w: bv64)
    ensures IsEntry(w) ==> Valid(w)
    ensures IsUserPage(w) ==> IsEntry(w)
    ensures Valid(w) && !IsEntry(w) ==> KindOf(w).Unusable?
  {
  }

  /** What the MMU sees in a word is what its meaning says. */
  lemma DecodeKinds(m: Placement, w: bv64)
    ensures IsEntry(w) <==> Decode(m, w).valid && !Decode(m, w).kind.Unusable?
    ensures IsUserPage(w) <==> Decode(m, w).valid && Decode(m, w).kind.UserPage?
    ensures IsEntry(w) ==> Decode(m, w).frame == m.frame(w & PD_PAGE_MASK)
  {
    EntryBits(w);
  }

  lemma ZeroWord(m: Placement)
    ensures Decode(m, 0) == EMPTY
  {
  }

  /** Address and flags do not disturb each other. */
  lemma OrBits(a: bv64, low: bv64)
    requires a & PD_PAGE_MASK == a && low & PD_PAGE_MASK == 0
    ensures (a | low) & PD_PAGE_MASK == a && (a | low) & 1 == low & 1
    ensures (a | low) & PD_RDONLY == low & PD_RDONLY && (a | low) & PD_COW_PAGE == low & PD_COW_PAGE
    ensures (a | low) & PD_EL0_EXEC_NEVER == low & PD_EL0_EXEC_NEVER
  {
  }

  lemma OrKind(a: bv64, low: bv64)
    requires a & PD_PAGE_MASK == a
    ensures KindOf(a | low) == KindOf(low)
  {
    OrLow(a, low);
  }

  lemma OrLow(a: bv64, low: bv64)
    requires a & PD_PAGE_MASK == a
    ensures (a | low) & 0x45f == low & 0x45f && (a | low) & 3 == low & 3
  {
  }

  /** Two words with the same flags differ in their frames only. */
  lemma DecodeAs(m: Placement, w: bv64, low: bv64)
    requires w & 1 == low & 1 && KindOf(w) == KindOf(low) && w & PD_RDONLY == low & PD_RDONLY
    requires w & PD_COW_PAGE == low & PD_COW_PAGE && w & PD_EL0_EXEC_NEVER == low & PD_EL0_EXEC_NEVER
    ensures Decode(m, w) == Desc(Valid(low), KindOf(low), if Valid(low) then m.frame(w & PD_PAGE_MASK) else 0,
                                 low & PD_RDONLY != 0, low & PD_COW_PAGE != 0, low & PD_EL0_EXEC_NEVER != 0)
  {
  }

  lemma DecodeOr(m: Placement, a: bv64, low: bv64)
    requires a & PD_PAGE_MASK == a && low & PD_PAGE_MASK == 0 && Valid(low)
    ensures Decode(m, a | low) == Desc(true, KindOf(low), m.frame(a), low & PD_RDONLY != 0,
                                       low & PD_COW_PAGE != 0, low & PD_EL0_EXEC_NEVER != 0)
  {
    OrBits(a, low);
    OrKind(a, low);
    DecodeAs(m, a | low, low);
  }

  lemma DecodeJoined(m: Placement, f: int, low: bv64)
    requires PlacementOk(m) && 0 <= f < NR_FRAMES && low & PD_PAGE_MASK == 0 && Valid(low)
    ensures Decode(m, m.addr(f) | low) ==
            Desc(true, KindOf(low), f, low & PD_RDONLY != 0, low & PD_COW_PAGE != 0, low & PD_EL0_EXEC_NEVER != 0)
  {
    DecodeOr(m, m.addr(f), low);
  }

  // ---- the words the kernel writes -----------------------------------------------------------

  lemma TableWord(m: Placement, c: int)
    requires PlacementOk(m) && 0 <= c < NR_FRAMES
    ensures Decode(m, m.addr(c) | PD_TABLE) == TableDesc(c)
  {
    DecodeJoined(m, c, PD_TABLE);
  }

  /** Permissions a page is mapped with; the page is always valid. */
  datatype Attr = Attr(readOnly: bool, execNever: bool)

  /** A writable page is marked copy-on-write from the start. */
  function MappedDesc(f: int, attr: Attr): Desc {
    Desc(true, UserPage, f, attr.readOnly, !attr.readOnly, attr.execNever)
  }

  function Flags(readOnly: bool, execNever: bool): bv64 {
    USER_PAGE | (if readOnly then PD_RDONLY else 0) | (if execNever then PD_EL0_EXEC_NEVER else 0)
  }

  /** The attribute bits map() ends up with. */
  function MapFlags(attr: Attr): bv64 {
    var flags := Flags(attr.readOnly, attr.execNever);
    if flags & PD_RDONLY == 0 then flags | PD_COW_PAGE else flags
  }

  lemma MapFlagsBits(attr: Attr) returns (low: bv64)
    ensures low == MapFlags(attr)
    ensures low & PD_PAGE_MASK == 0 && IsUserPage(low) && Valid(low)
    ensures (low & PD_RDONLY != 0) == attr.readOnly && (low & PD_COW_PAGE != 0) == !attr.readOnly
    ensures (low & PD_EL0_EXEC_NEVER != 0) == attr.execNever
  {
    if attr.readOnly {
      if attr.execNever { low := 0x0040_0000_0000_04c7; } else { low := 0x4c7; }
    } else {
      if attr.execNever { low := 0x00c0_0000_0000_0447; } else { low := 0x0080_0000_0000_0447; }
    }
  }

  /** A new page has the asked permissions, and copy-on-write when writable. */
  lemma MapWord(m: Placement, f: int, attr: Attr) returns (low: bv64)
    requires PlacementOk(m) && 0 <= f < NR_FRAMES
    ensures low == MapFlags(attr) && Decode(m, m.addr(f) | low) == MappedDesc(f, attr)
  {
    low := MapFlagsBits(attr);
    DecodeJoined(m, f, low);
  }

  function ShareWord(w: bv64): bv64 { (w & PD_PAGE_MASK) | USER_PAGE | PD_RDONLY | PD_COW_PAGE }

  /** Fork keeps the frame and makes the page read-only, copy-on-write and
      executable, whatever it was. */
  lemma ShareWordMeans(m: Placement, w: bv64)
    requires Valid(w)
    ensures Decode(m, ShareWord(w)) == SharedDesc(Decode(m, w).frame)
  {
    ShareBits(w);
  }

  lemma ShareBits(w: bv64)
    ensures var r := ShareWord(w);
            && r & PD_PAGE_MASK == w & PD_PAGE_MASK && r & 1 == 1 && r & PD_RDONLY != 0 && r & PD_COW_PAGE != 0
            && r & PD_EL0_EXEC_NEVER == 0 && IsUserPage(r)
  {
  }

  function CopyWord(m: Placement, f: int, w: bv64): bv64 { (m.addr(f) | (w & PD_ATTR_MASK)) & !PD_RDONLY }

  /** The private copy in frame `f` keeps the twelve low bits of the page's word
      except the read-only one, so it can be used as before and be written. */
  lemma CopyWordMeans(m: Placement, f: int, w: bv64)
    requires PlacementOk(m) && 0 <= f < NR_FRAMES && IsUserPage(w)
    ensures Decode(m, CopyWord(m, f, w)) == PrivateDesc(f)
  {
    CopyBits(m.addr(f), w);
  }

  lemma CopyWordKeeps(m: Placement, f: int, w: bv64)
    requires PlacementOk(m) && 0 <= f < NR_FRAMES
    ensures CopyWord(m, f, w) & 0xfff == w & 0xf7f && CopyWord(m, f, w) & PD_PAGE_MASK == m.addr(f)
  {
    CopyLow(m.addr(f), w);
  }

  lemma CopyLow(a: bv64, w: bv64)
    requires a & PD_PAGE_MASK == a
    ensures var r := (a | (w & PD_ATTR_MASK)) & !PD_RDONLY;
            r & 0xfff == w & 0xf7f && r & PD_PAGE_MASK == a
  {
  }

  lemma CopyBits(a: bv64, w: bv64)
    requires a & PD_PAGE_MASK == a && IsUserPage(w)
    ensures var r := (a | (w & PD_ATTR_MASK)) & !PD_RDONLY;
            && r & PD_PAGE_MASK == a && r & 1 == 1 && r & PD_RDONLY == 0 && r & PD_COW_PAGE == 0
            && r & PD_EL0_EXEC_NEVER == 0 && IsUserPage(r)
  {
  }

  function ReclaimWord(w: bv64): bv64 { w & !PD_COW_PAGE & !PD_RDONLY }

  /** The sole user of a frame may write it; all else stays. */
  lemma ReclaimWordMeans(m: Placement, w: bv64)
    requires Valid(w)
    ensures Decode(m, ReclaimWord(w)) == Decode(m, w).(cow := false, readOnly := false)
  {
    ReclaimBits(w);
    ReclaimKind(w);
  }

  lemma ReclaimBits(w: bv64)
    ensures var r := ReclaimWord(w);
            && r & PD_PAGE_MASK == w & PD_PAGE_MASK && r & 1 == w & 1 && r & PD_RDONLY == 0 && r & PD_COW_PAGE == 0
            && r & PD_EL0_EXEC_NEVER == w & PD_EL0_EXEC_NEVER
  {
  }

  lemma ReclaimKind(w: bv64)
    ensures KindOf(ReclaimWord(w)) == KindOf(w)
  {
    assert ReclaimWord(w) & 0x45f == w & 0x45f;
    assert ReclaimWord(w) & 3 == w & 3;
  }

  /** No bit changes but those two. */
  lemma ReclaimWordKeeps(w: bv64)
    ensures ReclaimWord(w) | PD_COW_PAGE | PD_RDONLY == w | PD_COW_PAGE | PD_RDONLY
  {
  }
}
