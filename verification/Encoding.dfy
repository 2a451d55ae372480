/** UCS-2 and UTF-8 conversion, lib/Encoding.cc. Masks and shifts of the source
    are written as remainders and quotients; the fields it joins with `|` never
    overlap, so joining is addition. */
module Encoding {
  import opened Buffers

  datatype Decoded = OutOfBounds | Chars(chars: seq<int>)

  ghost predicate IsUcs2(s: seq<int>) { forall i | 0 <= i < |s| :: 0 < s[i] < 0x1_0000 }

  predicate TwoByte(c: int) { 0x80 <= c < 0x800 }

  // ---- ucs2utf ---------------------------------------------------------------------

  function EncodeChar(c: int): (b: seq<int>)
    ensures 1 <= |b| <= 3
  {
    if c < 0x80 then [c]
    else if c < 0x800 then [c % 64 % 32 + 0xC0, c % 64 + 0x80]
    else [c / 4096 % 16 + 0xE0, c / 64 % 64 + 0x80, c % 64 + 0x80]
  }

  function Encode(s: seq<int>): seq<int> {
    if s == [] then [] else EncodeChar(s[0]) + Encode(s[1..])
  }

  /** No byte of an encoded string can be taken for its terminator. */
  lemma {:induction false} EncodeZeroFree(s: seq<int>)
    requires IsUcs2(s)
    ensures forall i | 0 <= i < |Encode(s)| :: 0 < Encode(s)[i] < 256
  {
    if s != [] {
      EncodeZeroFree(s[1..]);
      assert forall i | 0 <= i < |EncodeChar(s[0])| :: 0 < EncodeChar(s[0])[i] < 256;
    }
  }

  // ---- against section 3 of RFC 3629 -----------------------------------------------------

  /** The bits of a character, most significant first in each byte: one byte up to
      7 bits, 110xxxxx 10xxxxxx up to 11, 1110xxxx 10xxxxxx 10xxxxxx up to 16. */
  function Utf8Char(c: int): (b: seq<int>)
    ensures 1 <= |b| <= 3
  {
    if c <= 0x7F then [c]
    else if c <= 0x7FF then [0xC0 + c / 64, 0x80 + c % 64]
    else [0xE0 + c / 4096, 0x80 + c / 64 % 64, 0x80 + c % 64]
  }

  function Utf8(s: seq<int>): seq<int> {
    if s == [] then [] else Utf8Char(s[0]) + Utf8(s[1..])
  }

  /** Halves of surrogate pairs are no characters and have no UTF-8 form. */
  predicate IsSurrogate(c: int) { 0xD800 <= c <= 0xDFFF }

  /** `b` is the UTF-8 form of `s`. */
  ghost predicate IsUtf8Of(b: seq<int>, s: seq<int>) {
    (forall i | 0 <= i < |s| :: !IsSurrogate(s[i])) && b == Utf8(s)
  }

  /** The code puts the low bits of a two-byte character into its first byte. That
      is right only if they happen to be its high bits. */
  lemma CharConformsIff(c: int)
    requires 0 < c < 0x1_0000
    ensures |EncodeChar(c)| == |Utf8Char(c)|
    ensures EncodeChar(c) == Utf8Char(c) <==> (TwoByte(c) ==> c % 32 == c / 64)
  {
    if TwoByte(c) { assert EncodeChar(c)[0] == Utf8Char(c)[0] <==> c % 32 == c / 64; }
  }

  lemma {:induction false} EncodeIsUtf8Iff(s: seq<int>)
    requires IsUcs2(s)
    ensures Encode(s) == Utf8(s) <==> forall i | 0 <= i < |s| && TwoByte(s[i]) :: s[i] % 32 == s[i] / 64
  {
    if s != [] {
      var c, t := s[0], s[1..];
      EncodeIsUtf8Iff(t);
      CharConformsIff(c);
      assert Encode(s) == Utf8(s) <==> EncodeChar(c) == Utf8Char(c) && Encode(t) == Utf8(t) by {
        SplitEqual(EncodeChar(c), Utf8Char(c), Encode(t), Utf8(t));
      }
      assert forall i | 0 < i < |s| :: s[i] == t[i - 1];
      assert forall i | 0 <= i < |t| :: t[i] == s[i + 1];
    }
  }

  lemma SplitEqual(a: seq<int>, b: seq<int>, c: seq<int>, d: seq<int>)
    requires |a| == |b|
    ensures a + c == b + d <==> a == b && c == d
  {
    if a + c == b + d {
      assert a == (a + c)[..|a|] && b == (b + d)[..|a|];
      assert c == (a + c)[|a|..] && d == (b + d)[|a|..];
    }
  }

  /** What ucs2utf writes is the UTF-8 form of its input exactly if no character
      is a surrogate and no two-byte one has other high bits than low bits. */
  lemma ConformsIff(s: seq<int>)
    requires IsUcs2(s)
    ensures IsUtf8Of(Encode(s), s) <==>
            forall i | 0 <= i < |s| :: !IsSurrogate(s[i]) && (TwoByte(s[i]) ==> s[i] % 32 == s[i] / 64)
  {
    EncodeIsUtf8Iff(s);
  }

  /** U+00E9 ends up as C9 A9 and not as C3 A9. */
  lemma AccentLost()
    ensures Encode([0xE9]) == [0xC9, 0xA9] && Utf8([0xE9]) == [0xC3, 0xA9]
  {
    assert [0xE9][1..] == [];
  }

  // ---- utf2ucs ---------------------------------------------------------------------

  function Three(a: int, b: int, c: int): int { a % 16 * 4096 + b % 64 * 64 + c % 64 }

  function Two(a: int, b: int): int { a % 32 * 64 + b % 64 }

  /** The second byte the decoder looks at may be the terminator. */
  function Second(b: seq<int>): int { if |b| > 1 then b[1] else 0 }

  function Width(b: seq<int>): (w: int)
    requires b != []
    ensures 1 <= w <= 3
  {
    if b[0] >= 0x80 && Second(b) >= 0x80 then 3 else if b[0] >= 0x80 && Second(b) >= 0x40 then 2 else 1
  }

  function Value(b: seq<int>): int
    requires b != [] && Width(b) <= |b|
  {
    if Width(b) == 3 then Three(b[0], b[1], b[2]) else if Width(b) == 2 then Two(b[0], b[1]) else b[0]
  }

  function Prepend(c: int, d: Decoded): Decoded {
    if d.Chars? then Chars([c] + d.chars) else OutOfBounds
  }

  /** OutOfBounds: the decoder steps over the terminator. */
  function Decode(b: seq<int>): Decoded {
    if b == [] then Chars([])
    else if Width(b) > |b| then OutOfBounds
    else Prepend(Value(b), Decode(b[Width(b)..]))
  }

  // ---- the round trip ----------------------------------------------------------------

  /** The strings that come back: two-byte characters only as 0x410 followed by
      0x90 or 0xB0, which in turn is last or stands before a character under 0x40. */
  predicate Survives(s: seq<int>) {
    if s == [] then true
    else if !TwoByte(s[0]) then Survives(s[1..])
    else |s| >= 2 && s[0] == 0x410 && (s[1] == 0x90 || s[1] == 0xB0) && (|s| > 2 ==> s[2] < 0x40) && Survives(s[2..])
  }

  lemma Step3(a: int, b: int, c: int, t: seq<int>)
    requires a >= 0x80 && b >= 0x80
    ensures Decode([a, b, c] + t) == Prepend(Three(a, b, c), Decode(t))
  {
    var s := [a, b, c] + t;
    assert Width(s) == 3 && s[3..] == t;
  }

  lemma Step2(a: int, b: int, t: seq<int>)
    requires a >= 0x80 && 0x40 <= b < 0x80
    ensures Decode([a, b] + t) == Prepend(Two(a, b), Decode(t))
  {
    var s := [a, b] + t;
    assert Width(s) == 2 && s[2..] == t;
  }

  lemma Step1(a: int, t: seq<int>)
    requires a < 0x80 || t == [] || t[0] < 0x40
    ensures Decode([a] + t) == Prepend(a, Decode(t))
  {
    var s := [a] + t;
    assert Width(s) == 1 && s[1..] == t;
  }

  lemma PrependExact(c: int, d: Decoded, t: seq<int>)
    ensures forall x :: Prepend(c, d) == Chars([x] + t) <==> c == x && d == Chars(t)
  {
    if d.Chars? {
      assert ([c] + d.chars)[0] == c && ([c] + d.chars)[1..] == d.chars;
      forall x ensures Prepend(c, d) == Chars([x] + t) <==> c == x && d == Chars(t) {
        assert ([x] + t)[0] == x && ([x] + t)[1..] == t;
      }
    }
  }

  lemma ThreeStep(c: int, t: seq<int>)
    requires 0x800 <= c < 0x1_0000
    ensures Decode(EncodeChar(c) + t) == Prepend(c, Decode(t))
  {
    var e := EncodeChar(c);
    ThreeBytes(c);
    Step3(e[0], e[1], e[2], t);
    assert [e[0], e[1], e[2]] == e;
  }

  lemma TwoStep(c: int, y: int, t: seq<int>)
    requires TwoByte(c)
    ensures Decode(EncodeChar(c) + ([y] + t)) == Prepend(Three(c % 32, c % 64, y), Decode(t))
  {
    var e := EncodeChar(c);
    LowBits(c);
    Step3(e[0], e[1], y, t);
    assert e + ([y] + t) == [e[0], e[1], y] + t;
  }

  lemma LowBits(c: int)
    requires TwoByte(c)
    ensures forall y :: Three(EncodeChar(c)[0], EncodeChar(c)[1], y) == Three(c % 32, c % 64, y)
  {
    assert c % 64 % 32 == c % 32;
    assert (c % 32 + 0xC0) % 16 == c % 32 % 16;
    assert (c % 64 + 0x80) % 64 == c % 64;
  }

  lemma TwoEnd(c: int)
    requires TwoByte(c)
    ensures Decode(EncodeChar(c)).OutOfBounds?
  {
    assert Width(EncodeChar(c)) == 3;
  }

  lemma DecodeSingle(s: seq<int>)
    requires IsUcs2(s) && s != [] && !TwoByte(s[0])
    ensures Decode(Encode(s)) == Prepend(s[0], Decode(Encode(s[1..])))
  {
    var u := Encode(s[1..]);
    assert Encode(s) == EncodeChar(s[0]) + u;
    if s[0] < 0x80 { Step1(s[0], u); } else { ThreeStep(s[0], u); }
  }

  lemma ThreeBytes(c: int)
    requires 0x800 <= c < 0x1_0000
    ensures Three(c / 4096 % 16 + 0xE0, c / 64 % 64 + 0x80, c % 64 + 0x80) == c
  {
    assert c / 4096 % 16 == c / 4096 && (c / 4096 + 0xE0) % 16 == c / 4096;
    assert (c / 64 % 64 + 0x80) % 64 == c / 64 % 64;
    assert (c % 64 + 0x80) % 64 == c % 64;
    assert c / 64 / 64 == c / 4096;
  }

  /** A two-byte character takes the byte after it along. */
  lemma DecodeTwo(s: seq<int>)
    requires IsUcs2(s) && s != [] && TwoByte(s[0])
    ensures |s| == 1 ==> Decode(Encode(s)).OutOfBounds?
    ensures |s| > 1 ==> var rest := Encode(s[1..]);
            rest != [] && Decode(Encode(s)) == Prepend(Three(s[0] % 32, s[0] % 64, rest[0]), Decode(rest[1..]))
  {
    var rest := Encode(s[1..]);
    assert Encode(s) == EncodeChar(s[0]) + rest;
    if |s| == 1 {
      TwoEnd(s[0]);
      assert EncodeChar(s[0]) + rest == EncodeChar(s[0]);
    } else {
      EncodeNonempty(s[1..]);
      TwoStep(s[0], rest[0], rest[1..]);
      assert rest == [rest[0]] + rest[1..];
    }
  }

  lemma EncodeNonempty(s: seq<int>)
    requires s != []
    ensures Encode(s) != []
  {
  }

  /** One stray byte of a character before the rest of the string. */
  function Stray(x: int, t: seq<int>): seq<int> { [x] + Encode(t) }

  /** A stray byte before an ASCII character, and before the bytes of a longer one. */
  lemma StrayAscii(x: int, c: int, t: seq<int>)
    requires x >= 0x80 && 0 < c < 0x80
    ensures Decode([x] + (EncodeChar(c) + t)) ==
            if c < 0x40 then Prepend(x, Decode(EncodeChar(c) + t)) else Prepend(Two(x, c), Decode(t))
  {
    assert [x] + (EncodeChar(c) + t) == [x, c] + t;
    if c < 0x40 { Step1(x, EncodeChar(c) + t); } else { Step2(x, c, t); }
  }

  lemma StrayLong(x: int, c: int, t: seq<int>)
    requires x >= 0x80 && 0x80 <= c < 0x1_0000
    ensures var e := EncodeChar(c);
            Decode([x] + (e + t)) == Prepend(Three(x, e[0], e[1]), Decode(e[2..] + t))
  {
    var e := EncodeChar(c);
    assert [x] + (e + t) == [x, e[0], e[1]] + (e[2..] + t);
    Step3(x, e[0], e[1], e[2..] + t);
  }

  lemma DecodeStray(x: int, t: seq<int>)
    requires IsUcs2(t) && x >= 0x80
    ensures t == [] ==> Decode(Stray(x, t)) == Chars([x])
    ensures t != [] && t[0] < 0x80 ==>
      Decode(Stray(x, t)) ==
        if t[0] < 0x40 then Prepend(x, Decode(Encode(t))) else Prepend(Two(x, t[0]), Decode(Encode(t[1..])))
    ensures t != [] && t[0] >= 0x80 ==>
      var e := EncodeChar(t[0]);
      Decode(Stray(x, t)) == Prepend(Three(x, e[0], e[1]), Decode(e[2..] + Encode(t[1..])))
  {
    if t == [] {
      Step1(x, []);
      assert [x] + [] == [x];
    } else {
      assert Encode(t) == EncodeChar(t[0]) + Encode(t[1..]);
      if t[0] < 0x80 { StrayAscii(x, t[0], Encode(t[1..])); } else { StrayLong(x, t[0], Encode(t[1..])); }
    }
  }

  lemma LastBytes(c: int, t: seq<int>)
    requires 0x80 <= c < 0x1_0000
    ensures c < 0x800 ==> EncodeChar(c)[2..] + Encode(t) == Encode(t)
    ensures c >= 0x800 ==> EncodeChar(c)[2] >= 0x80 && EncodeChar(c)[2..] + Encode(t) == Stray(EncodeChar(c)[2], t)
  {
  }

  /** Decoding never yields more characters than were encoded. */
  lemma {:induction false} NoMoreChars(s: seq<int>)
    requires IsUcs2(s)
    ensures Decode(Encode(s)).Chars? ==> |Decode(Encode(s)).chars| <= |s|
    decreases |s|, 0
  {
    if s == [] {
    } else if !TwoByte(s[0]) {
      DecodeSingle(s);
      NoMoreChars(s[1..]);
    } else {
      DecodeTwo(s);
      if |s| > 1 {
        assert s[1..][1..] == s[2..];
        NoMoreBehind(s[1], s[2..]);
      }
    }
  }

  lemma NoMoreBehind(c: int, t: seq<int>)
    requires IsUcs2(t) && 0 < c < 0x1_0000
    ensures var d := Decode((EncodeChar(c) + Encode(t))[1..]);
            d.Chars? ==> |d.chars| <= 1 + |t|
    decreases |t|, 2
  {
    var e, rest := EncodeChar(c), EncodeChar(c) + Encode(t);
    if |e| == 1 {
      assert rest[1..] == Encode(t);
      NoMoreChars(t);
    } else if |e| == 2 {
      assert rest[1..] == Stray(e[1], t);
      NoMoreAfterStray(e[1], t);
    } else {
      assert rest[1..] == [e[1], e[2]] + Encode(t);
      NoMoreAfterTwoStrays(e[1], e[2], t);
    }
  }

  lemma {:induction false} NoMoreAfterStray(x: int, t: seq<int>)
    requires IsUcs2(t) && x >= 0x80
    ensures Decode(Stray(x, t)).Chars? ==> |Decode(Stray(x, t)).chars| <= 1 + |t|
    decreases |t|, 1
  {
    DecodeStray(x, t);
    if t != [] {
      if t[0] >= 0x80 { LastBytes(t[0], t[1..]); }
      if t[0] < 0x40 {
        NoMoreChars(t);
      } else if t[0] < 0x800 {
        NoMoreChars(t[1..]);
      } else {
        NoMoreAfterStray(EncodeChar(t[0])[2], t[1..]);
      }
    }
  }

  lemma NoMoreAfterTwoStrays(x: int, y: int, t: seq<int>)
    requires IsUcs2(t) && x >= 0x80 && y >= 0x80
    ensures Decode([x, y] + Encode(t)).Chars? ==> |Decode([x, y] + Encode(t)).chars| <= 1 + |t|
    decreases |t|, 1
  {
    var b := [x, y] + Encode(t);
    if t != [] {
      var e := EncodeChar(t[0]);
      assert b == [x, y] + (e + Encode(t[1..]));
      if |e| == 1 {
        assert b[3..] == Encode(t[1..]);
        NoMoreChars(t[1..]);
      } else if |e| == 2 {
        assert b[3..] == Stray(e[1], t[1..]);
        NoMoreAfterStray(e[1], t[1..]);
      } else {
        assert b[3..] == [e[1], e[2]] + Encode(t[1..]);
        NoMoreAfterTwoStrays(e[1], e[2], t[1..]);
      }
    }
  }

  lemma StraySwallows(x: int, t: seq<int>)
    requires IsUcs2(t) && x >= 0x80 && t != [] && 0x40 <= t[0] < 0x800
    ensures Decode(Stray(x, t)).Chars? ==> |Decode(Stray(x, t)).chars| <= |t|
  {
    DecodeStray(x, t);
    if t[0] >= 0x80 { LastBytes(t[0], t[1..]); }
    NoMoreChars(t[1..]);
  }

  lemma StrayAlone(x: int, t: seq<int>)
    requires IsUcs2(t) && x >= 0x80 && (t != [] ==> t[0] < 0x40)
    ensures forall c :: Decode(Stray(x, t)) == Chars([c] + t) <==> x == c && Decode(Encode(t)) == Chars(t)
  {
    DecodeStray(x, t);
    PrependExact(x, Decode(Encode(t)), t);
    if t == [] { assert Decode(Stray(x, t)) == Prepend(x, Decode(Encode(t))); }
  }

  /** When a stray byte decodes to the character `c` and leaves the rest intact. */
  lemma StrayExact(x: int, c: int, t: seq<int>)
    requires IsUcs2(t) && TwoByte(c) && x >= 0x80
    ensures Decode(Stray(x, t)) == Chars([c] + t) <==>
            x == c && (t != [] ==> t[0] < 0x40) && Decode(Encode(t)) == Chars(t)
  {
    if t == [] || t[0] < 0x40 {
      StrayAlone(x, t);
    } else if t[0] < 0x800 {
      StraySwallows(x, t);
    } else {
      StrayThree(x, t);
    }
  }

  lemma StrayThree(x: int, t: seq<int>)
    requires IsUcs2(t) && x >= 0x80 && t != [] && t[0] >= 0x800
    ensures forall c | TwoByte(c) :: Decode(Stray(x, t)) != Chars([c] + t)
  {
    DecodeStray(x, t);
    var e := EncodeChar(t[0]);
    LeadByte(t[0]);
    var d := Decode(e[2..] + Encode(t[1..]));
    forall c | TwoByte(c) ensures Decode(Stray(x, t)) != Chars([c] + t) {
      PrependExact(Three(x, e[0], e[1]), d, t);
    }
  }

  lemma LeadByte(c: int)
    requires 0x800 <= c < 0x1_0000
    ensures EncodeChar(c)[0] % 64 >= 0x20
    ensures forall x, y :: Three(x, EncodeChar(c)[0], y) >= 0x800
  {
  }

  /** The only two-byte character that its own bytes and one more give back. */
  lemma OnlySelfImage(c: int, y: int)
    requires TwoByte(c)
    ensures Three(c % 32, c % 64, y) == c <==> c == 0x410 && y % 64 == 0x10
  {
    var v := Three(c % 32, c % 64, y);
    assert v / 64 == c % 32 % 16 * 64 + c % 64;
    if v == c {
      assert c % 32 % 16 == 0 && c / 64 == c % 64 && c % 16 == 0;
    }
  }

  /** utf2ucs undoes ucs2utf on exactly the strings that Survives describes. */
  lemma {:induction false} RoundTripIff(s: seq<int>)
    requires IsUcs2(s)
    ensures Decode(Encode(s)) == Chars(s) <==> Survives(s)
    decreases |s|
  {
    if s == [] {
    } else if !TwoByte(s[0]) {
      DecodeSingle(s);
      RoundTripIff(s[1..]);
      assert s == [s[0]] + s[1..];
      PrependExact(s[0], Decode(Encode(s[1..])), s[1..]);
    } else if |s| == 1 {
      DecodeTwo(s);
    } else {
      RoundTripIff(s[2..]);
      RoundTripTwo(s);
    }
  }

  lemma RoundTripTwo(s: seq<int>)
    requires IsUcs2(s) && |s| > 1 && TwoByte(s[0])
    requires Decode(Encode(s[2..])) == Chars(s[2..]) <==> Survives(s[2..])
    ensures Decode(Encode(s)) == Chars(s) <==> Survives(s)
  {
    DecodeTwo(s);
    assert s == [s[0]] + s[1..] && s[1..] == [s[1]] + s[2..];
    var rest := Encode(s[1..]);
    assert rest == EncodeChar(s[1]) + Encode(s[2..]) by { assert s[1..][1..] == s[2..]; }
    OnlySelfImage(s[0], rest[0]);
    PrependExact(Three(s[0] % 32, s[0] % 64, rest[0]), Decode(rest[1..]), s[1..]);
    AfterPair(s[1], s[2..]);
  }

  /** What follows a swallowed first byte. */
  lemma AfterPair(c: int, t: seq<int>)
    requires IsUcs2(t) && 0 < c < 0x1_0000
    ensures var rest := EncodeChar(c) + Encode(t);
            rest[0] % 64 == 0x10 && Decode(rest[1..]) == Chars([c] + t) <==>
            (c == 0x90 || c == 0xB0) && (t != [] ==> t[0] < 0x40) && Decode(Encode(t)) == Chars(t)
  {
    var e, rest := EncodeChar(c), EncodeChar(c) + Encode(t);
    if c < 0x80 {
      assert rest[1..] == Encode(t);
      NoMoreChars(t);
    } else if c < 0x800 {
      assert rest[1..] == Stray(e[1], t);
      StrayExact(e[1], c, t);
      SecondOfPair(c);
    } else {
      LeadByte(c);
    }
  }

  lemma SecondOfPair(c: int)
    requires TwoByte(c)
    ensures EncodeChar(c)[1] == c && EncodeChar(c)[0] % 64 == 0x10 <==> c == 0x90 || c == 0xB0
  {
  }

  /** In particular every string without characters in 0x80-0x7FF comes back. */
  lemma {:induction false} WithoutTwoByteSurvives(s: seq<int>)
    requires forall i | 0 <= i < |s| :: !TwoByte(s[i])
    ensures Survives(s)
  {
    if s != [] { WithoutTwoByteSurvives(s[1..]); }
  }

  /** A Greek letter before `!` is lost; the pair 0x410, 0x90 comes back. */
  lemma Samples()
    ensures Decode(Encode([0x3B1, 0x21])) != Chars([0x3B1, 0x21])
    ensures Decode(Encode([0x410, 0x90])) == Chars([0x410, 0x90])
  {
    RoundTripIff([0x3B1, 0x21]);
    assert [0x410, 0x90][2..] == [];
    RoundTripIff([0x410, 0x90]);
  }

  // ---- the loops -----------------------------------------------------------------------

  /** The buffer starts with `s` and a terminating zero. */
  ghost predicate Terminated(buf: seq<int>, s: seq<int>) {
    && |s| < |buf| && buf[..|s|] == s && buf[|s|] == 0
    && forall i | 0 <= i < |s| :: s[i] != 0
  }

  lemma DecodeFrom(b: seq<int>, i: nat)
    requires i < |b| && Decode(b[i..]).Chars?
    ensures i + Width(b[i..]) <= |b|
    ensures Decode(b[i + Width(b[i..])..]).Chars?
    ensures Decode(b[i..]).chars == [Value(b[i..])] + Decode(b[i + Width(b[i..])..]).chars
  {
    assert b[i..][Width(b[i..])..] == b[i + Width(b[i..])..];
  }

  lemma NextOfTail(r: seq<int>, j: nat, x: int, rest: seq<int>)
    requires j <= |r| && r[j..] == [x] + rest
    ensures j < |r| && r[j] == x && r[j + 1..] == rest
  {
    assert r[j] == r[j..][0] && r[j + 1..] == r[j..][1..];
  }

  method ReadChar(src: seq<int>, ghost b: seq<int>, i: nat) returns (next: nat, temp: int)
    requires Terminated(src, b) && i < |b| && Width(b[i..]) <= |b| - i
    ensures next == Width(b[i..]) && temp == Value(b[i..])
  {
    assert forall k | i <= k < |b| :: src[k] == src[..|b|][k] == b[k];
    if src[i] >= 0x80 && src[i + 1] >= 0x80 {
      next, temp := 3, Three(src[i], src[i + 1], src[i + 2]);
    } else if src[i] >= 0x80 && src[i + 1] >= 0x40 {
      next, temp := 2, Two(src[i], src[i + 1]);
    } else {
      next, temp := 1, src[i];
    }
  }

  lemma DecodeNext(b: seq<int>, i: nat, r: seq<int>, j: nat)
    requires i < |b| && j <= |r| && Decode(b[i..]) == Chars(r[j..])
    ensures j < |r| && r[j] == Value(b[i..]) && 0 < Width(b[i..]) <= |b| - i
    ensures Decode(b[i + Width(b[i..])..]) == Chars(r[j + 1..])
  {
    DecodeFrom(b, i);
    NextOfTail(r, j, Value(b[i..]), Decode(b[i + Width(b[i..])..]).chars);
  }

  method Utf2Ucs(dst: array<int>, src: seq<int>, ghost b: seq<int>)
    requires Terminated(src, b)
    requires Decode(b).Chars? && |Decode(b).chars| < dst.Length
    modifies dst
    ensures dst[..|Decode(b).chars| + 1] == Decode(b).chars + [0]
    ensures dst[|Decode(b).chars| + 1..] == old(dst[|Decode(b).chars| + 1..])
  {
    ghost var r := Decode(b).chars;
    var i, j := 0, 0;
    assert b[0..] == b && r[0..] == r;
    while src[i] != 0
      invariant 0 <= i <= |b| && 0 <= j <= |r|
      invariant Decode(b[i..]) == Chars(r[j..])
      invariant forall k | 0 <= k < j :: dst[k] == r[k]
      invariant forall k | j <= k < dst.Length :: dst[k] == old(dst[k])
      decreases |b| - i
    {
      DecodeNext(b, i, r, j);
      var next, temp := ReadChar(src, b, i);
      dst[j] := temp;
      j := j + 1;
      i := i + next;
    }
    assert b[i..] == [];
    dst[j] := 0;
  }

  method WriteChar(dst: array<int>, j: nat, c: int) returns (next: nat)
    requires j + |EncodeChar(c)| <= dst.Length
    modifies dst
    ensures next == |EncodeChar(c)| && dst[..] == Splice(old(dst[..]), j, EncodeChar(c))
  {
    if c < 0x80 {
      next := 1;
      dst[j] := c;
    } else if c < 0x800 {
      next := 2;
      dst[j + 1] := c % 64 + 0x80;
      dst[j] := c % 64 % 32 + 0xC0;
    } else {
      next := 3;
      dst[j], dst[j + 1], dst[j + 2] := c / 4096 % 16 + 0xE0, c / 64 % 64 + 0x80, c % 64 + 0x80;
    }
  }

  method Ucs2Utf(dst: array<int>, src: seq<int>, ghost s: seq<int>)
    requires Terminated(src, s) && |Encode(s)| < dst.Length
    modifies dst
    ensures dst[..|Encode(s)| + 1] == Encode(s) + [0]
    ensures dst[|Encode(s)| + 1..] == old(dst[|Encode(s)| + 1..])
  {
    var i, j := 0, 0;
    assert s[0..] == s;
    while src[i] != 0
      invariant 0 <= i <= |s| && 0 <= j < dst.Length
      invariant Encode(s) == dst[..j] + Encode(s[i..])
      invariant dst[j..] == old(dst[j..])
      decreases |s| - i
    {
      assert src[i] == src[..|s|][i] == s[i];
      EncodeFrom(s, i);
      ghost var was := dst[..];
      var next := WriteChar(dst, j, src[i]);
      SpliceEnds(was, j, EncodeChar(src[i]));
      assert dst[..j + next] == dst[..][..j + next] && dst[j + next..] == dst[..][j + next..];
      EncodeOneMore(was[..j], s, i);
      j := j + next;
      i := i + 1;
    }
    assert s[i..] == [];
    dst[j] := 0;
  }

  lemma SpliceEnds(s: seq<int>, j: nat, bytes: seq<int>)
    requires j + |bytes| <= |s|
    ensures Splice(s, j, bytes)[..j + |bytes|] == s[..j] + bytes
    ensures Splice(s, j, bytes)[j + |bytes|..] == s[j..][|bytes|..]
  {
  }

  lemma EncodeOneMore(done: seq<int>, s: seq<int>, i: nat)
    requires i < |s| && Encode(s) == done + Encode(s[i..])
    ensures Encode(s) == done + EncodeChar(s[i]) + Encode(s[i + 1..])
  {
    EncodeFrom(s, i);
  }

  lemma EncodeFrom(s: seq<int>, i: nat)
    requires i < |s|
    ensures Encode(s[i..]) == EncodeChar(s[i]) + Encode(s[i + 1..])
  {
    assert s[i..][1..] == s[i + 1..];
  }
}
