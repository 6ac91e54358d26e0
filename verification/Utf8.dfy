/**
 UTF-8 as the font code reads and writes it: code points are 32-bit words, bytes are
 8-bit, and every conversion keeps the low bits.
 */
module Utf8 {

  type Byte = bv8
  type CodePoint = bv32

  function Low(n: bv32): Byte {
    (n & 0xff) as bv8
  }

  function Wide(b: Byte): bv32 {
    b as bv32
  }

  predicate IsFirstByte(b: Byte) {
    (b & 0x80) == 0 || (b & 0xc0) == 0xc0
  }

  /** The length a first byte announces, looked up in a packed table of two-bit entries. */
  function CharLength(first: Byte): bv32 {
    ((0xe500_0000 >> (((first >> 3) & 0x1e) as bv5)) & 3) + 1
  }

  /** The code point at the start of s; bytes beyond the end read as zero, as a terminator does. */
  function At(s: seq<Byte>, i: nat): Byte {
    if i < |s| then s[i] else 0
  }

  const REPLACEMENT: CodePoint := 0xfffd

  predicate Continuation(b: Byte) {
    (b & 0xc0) == 0x80
  }

  predicate Ascii(b: Byte) {
    (b & 0x80) == 0
  }

  /** For a byte that is not ASCII: it starts two bytes, not more. */
  predicate StartsTwo(b: Byte) {
    (b & 0x20) == 0
  }

  predicate StartsThree(b: Byte) {
    (b & 0x10) == 0
  }

  function TwoByteValue(b0: Byte, b1: Byte): CodePoint {
    (Wide(b0 & 0x1f) << 6) | Wide(b1 & 0x3f)
  }

  function ThreeByteValue(b0: Byte, b1: Byte, b2: Byte): CodePoint {
    (Wide(b0 & 0x0f) << 12) | (Wide(b1 & 0x3f) << 6) | Wide(b2 & 0x3f)
  }

  function FourByteValue(b0: Byte, b1: Byte, b2: Byte, b3: Byte): CodePoint {
    Pair((Wide(b0 & 0x07) << 18) | (Wide(b1 & 0x3f) << 12) | (Wide(b2 & 0x3f) << 6) | Wide(b3 & 0x3f))
  }

  function ToUnicode(s: seq<Byte>): CodePoint {
    var b0, b1, b2, b3 := At(s, 0), At(s, 1), At(s, 2), At(s, 3);
    if Ascii(b0) then Wide(b0)
    else if !Continuation(b1) then REPLACEMENT
    else if StartsTwo(b0) then TwoByteValue(b0, b1)
    else if !Continuation(b2) then REPLACEMENT
    else if StartsThree(b0) then ThreeByteValue(b0, b1, b2)
    else if !Continuation(b3) then REPLACEMENT
    else FourByteValue(b0, b1, b2, b3)
  }

  /** Two surrogates packed in one word. */
  function Pair(v: bv32): CodePoint {
    ((0xd7c0 + (v >> 10)) << 16) | (0xdc00 + (v & 0x3ff))
  }

  function Unpaired(c: CodePoint): bv32 {
    (((c << 16) - 0xd7c0) << 10) | (c & 0x3ff)
  }

  predicate FitsOne(c: CodePoint) {
    (c & 0xff80) == 0
  }

  predicate FitsTwo(c: CodePoint) {
    (c & 0xf800) == 0
  }

  predicate IsHigh(c: CodePoint) {
    (c & 0xfc00) == 0xd800
  }

  /** The byte with the six bits of n from the given shift up, after a lead. */
  function Lead(mark: Byte, n: bv32): Byte {
    mark | Low(n)
  }

  function Six(n: bv32): Byte {
    0x80 | Low(n & 0x3f)
  }

  function ToUtf8(c: CodePoint): (s: seq<Byte>) {
    if FitsOne(c) then [Low(c)]
    else if FitsTwo(c) then [Lead(0xc0, c >> 6), Six(c)]
    else if !IsHigh(c) then [Lead(0xe0, c >> 12), Six(c >> 6), Six(c)]
    else
      var v := Unpaired(c);
      [Lead(0xf0, v >> 18), Six(v >> 12), Six(v >> 6), Six(v)]
  }

  // ---------------------------------------------------------------------------
  // One character
  // ---------------------------------------------------------------------------

  /** In the basic plane, and not the first of a surrogate pair. */
  predicate Plain(c: CodePoint) {
    c <= 0xffff && !IsHigh(c)
  }

  lemma {:induction false} OneByte(c: CodePoint)
    requires c <= 0xffff && FitsOne(c)
    ensures Ascii(Low(c)) && Wide(Low(c)) == c && CharLength(Low(c)) == 1 && IsFirstByte(Low(c))
  {
  }

  lemma {:induction false} SixIsContinuation(n: bv32)
    ensures Continuation(Six(n)) && !IsFirstByte(Six(n))
  {
  }

  lemma {:induction false} TwoBytes(c: CodePoint, b0: Byte)
    requires c <= 0xffff && FitsTwo(c) && !FitsOne(c) && b0 == Lead(0xc0, c >> 6)
    ensures !Ascii(b0) && IsFirstByte(b0) && StartsTwo(b0) && CharLength(b0) == 2
    ensures TwoByteValue(b0, Six(c)) == c
  {
  }

  lemma {:induction false} ThreeBytes(c: CodePoint, b0: Byte)
    requires c <= 0xffff && !FitsTwo(c) && b0 == Lead(0xe0, c >> 12)
    ensures !Ascii(b0) && IsFirstByte(b0) && !StartsTwo(b0) && StartsThree(b0) && CharLength(b0) == 3
    ensures ThreeByteValue(b0, Six(c >> 6), Six(c)) == c
  {
  }

  lemma {:induction false} FourBytes(n: bv32)
    ensures var b0 := Lead(0xf0, n); !Ascii(b0) && !StartsTwo(b0) && !StartsThree(b0)
  {
  }

  /** An encoded plain character reads back whatever follows it; its first byte announces
      its length and is its only first byte. */
  lemma {:induction false} PlainRoundTrip(c: CodePoint, rest: seq<Byte>)
    requires Plain(c)
    ensures ToUnicode(ToUtf8(c) + rest) == c
    ensures 1 <= |ToUtf8(c)| <= 3 && CharLength(ToUtf8(c)[0]) as int == |ToUtf8(c)|
    ensures IsFirstByte(ToUtf8(c)[0])
    ensures forall i :: 1 <= i < |ToUtf8(c)| ==> !IsFirstByte(ToUtf8(c)[i])
  {
    var s := ToUtf8(c);
    var t := s + rest;
    assert forall i :: 0 <= i < |s| ==> At(t, i) == s[i];
    SixIsContinuation(c);
    SixIsContinuation(c >> 6);
    if FitsOne(c) {
      OneByte(c);
    } else if FitsTwo(c) {
      TwoBytes(c, s[0]);
    } else {
      ThreeBytes(c, s[0]);
    }
    hide CharLength, Low, Wide, IsFirstByte, Ascii, Continuation, StartsTwo, StartsThree, TwoByteValue, ThreeByteValue,
      FourByteValue, FitsOne, FitsTwo, IsHigh, Lead, Six;
  }

  /** The bytes of a plain code point: its bits from the top, six to a later byte, behind the
      marks of section 3 of RFC 3629. */
  lemma {:induction false} PlainBytes(c: CodePoint)
    requires Plain(c)
    ensures var s := ToUtf8(c);
            if c < 0x80 then |s| == 1 && Wide(s[0]) == c
            else if c < 0x800 then |s| == 2 && Wide(s[0]) == 0xc0 + c / 64 && Wide(s[1]) == 0x80 + c % 64
            else
              && |s| == 3 && Wide(s[0]) == 0xe0 + c / 4096
              && Wide(s[1]) == 0x80 + c / 64 % 64 && Wide(s[2]) == 0x80 + c % 64
  {
    Ranges(c);
    SixIs(c);
    SixIs(c >> 6);
    LeadIs(c);
    hide Low, Wide, FitsOne, FitsTwo, IsHigh, Lead, Six;
  }

  lemma {:induction false} Ranges(c: CodePoint)
    requires c <= 0xffff
    ensures (FitsOne(c) <==> c < 0x80) && (FitsTwo(c) <==> c < 0x800) && c >> 6 == c / 64
  {
  }

  lemma {:induction false} SixIs(n: bv32)
    ensures Wide(Six(n)) == 0x80 + n % 64
  {
  }

  lemma {:induction false} LeadIs(c: CodePoint)
    requires c <= 0xffff
    ensures c < 0x80 ==> Wide(Low(c)) == c
    ensures c < 0x800 ==> Wide(Lead(0xc0, c >> 6)) == 0xc0 + c / 64
    ensures Wide(Lead(0xe0, c >> 12)) == 0xe0 + c / 4096
  {
  }

  /** Only four bytes decode to something beyond the basic plane: a packed pair, with the
      second surrogate in its low half. */
  lemma {:induction false} DecodedRange(s: seq<Byte>)
    ensures ToUnicode(s) <= 0xffff || (|s| > 3 && IsLow(ToUnicode(s)))
  {
    ShortRange(At(s, 0), At(s, 1), At(s, 2));
    PairRange(At(s, 0), At(s, 1), At(s, 2), At(s, 3));
    assert !Continuation(0);
    hide Wide, Ascii, Continuation, StartsTwo, StartsThree, TwoByteValue, ThreeByteValue, FourByteValue, IsLow;
  }

  predicate IsLow(c: CodePoint) {
    (c & 0xfc00) == 0xdc00
  }

  lemma {:induction false} ShortRange(b0: Byte, b1: Byte, b2: Byte)
    ensures Wide(b0) <= 0xffff && TwoByteValue(b0, b1) <= 0xffff && ThreeByteValue(b0, b1, b2) <= 0xffff
  {
  }

  lemma {:induction false} PairRange(b0: Byte, b1: Byte, b2: Byte, b3: Byte)
    ensures IsLow(FourByteValue(b0, b1, b2, b3))
  {
    hide Wide;
  }

  lemma {:induction false} HighIsLong(c: CodePoint)
    requires IsHigh(c)
    ensures !FitsOne(c) && !FitsTwo(c) && !IsLow(c)
  {
  }

  lemma {:induction false} SurrogateDecodes(c: CodePoint)
    requires IsHigh(c)
    ensures ToUnicode(ToUtf8(c)) != c
  {
    var s, v := ToUtf8(c), Unpaired(c);
    HighIsLong(c);
    FourBytes(v >> 18);
    SixIsContinuation(v >> 12);
    SixIsContinuation(v >> 6);
    SixIsContinuation(v);
    PairRange(s[0], s[1], s[2], s[3]);
    hide Low, Wide, Pair, Unpaired, Ascii, Continuation, StartsTwo, StartsThree, FitsOne, FitsTwo, IsHigh,
      IsLow, Lead, Six, FourByteValue;
  }

  ghost predicate ReadsBack(c: CodePoint) {
    forall rest: seq<Byte> :: ToUnicode(ToUtf8(c) + rest) == c
  }

  /** Exactly the plain code points read back whatever follows them. */
  lemma {:induction false} ReadsBackExactlyWhenPlain(c: CodePoint)
    ensures ReadsBack(c) <==> Plain(c)
  {
    if Plain(c) {
      forall rest: seq<Byte> ensures ToUnicode(ToUtf8(c) + rest) == c {
        PlainRoundTrip(c, rest);
      }
    } else {
      var s := ToUtf8(c);
      assert s + [] == s;
      if IsHigh(c) {
        SurrogateDecodes(c);
      } else {
        DecodedRange(s);
      }
      hide ToUtf8, ToUnicode;
      assert ToUnicode(s + []) != c;
    }
  }

  // ---------------------------------------------------------------------------
  // Strings
  // ---------------------------------------------------------------------------

  function Encode(cs: seq<CodePoint>): seq<Byte> {
    if cs == [] then [] else ToUtf8(cs[0]) + Encode(cs[1..])
  }

  /** Where the next character starts; a walk never leaves the string. */
  function Step(s: seq<Byte>): (n: nat)
    requires s != []
    ensures 1 <= n <= |s|
  {
    var n := CharLength(s[0]);
    LengthIsPositive(s[0]);
    if n as int <= |s| then n as int else |s|
  }

  lemma {:induction false} LengthIsPositive(first: Byte)
    ensures 1 <= CharLength(first) <= 4
  {
  }

  /** A walk from character to character, decoding each. */
  function Decode(s: seq<Byte>): seq<CodePoint> {
    if s == [] then [] else [ToUnicode(s)] + Decode(s[Step(s)..])
  }

  /** Where the walk stops, counted from base. */
  function Stops(s: seq<Byte>, base: nat): seq<nat>
    decreases |s|
  {
    if s == [] then [] else [base] + Stops(s[Step(s)..], base + Step(s))
  }

  lemma {:induction false} StepOverFirst(c: CodePoint, rest: seq<Byte>)
    requires Plain(c)
    ensures ToUtf8(c) != [] && Step(ToUtf8(c) + rest) == |ToUtf8(c)|
    ensures (ToUtf8(c) + rest)[|ToUtf8(c)|..] == rest
  {
    PlainRoundTrip(c, rest);
    hide ToUtf8, CharLength;
  }

  /** Text of plain characters survives encoding and walking. */
  lemma {:induction false} TextRoundTrip(cs: seq<CodePoint>)
    requires forall i :: 0 <= i < |cs| ==> Plain(cs[i])
    ensures Decode(Encode(cs)) == cs
  {
    if cs != [] {
      TextRoundTrip(cs[1..]);
      PlainRoundTrip(cs[0], Encode(cs[1..]));
      StepOverFirst(cs[0], Encode(cs[1..]));
      hide ToUtf8, ToUnicode, Step, Plain;
    }
  }

  ghost predicate StopsAtFirstBytes(s: seq<Byte>, base: nat, stops: seq<nat>) {
    && (forall i :: base <= i < base + |s| ==> (i in stops <==> IsFirstByte(s[i - base])))
    && (forall i :: i in stops ==> base <= i < base + |s|)
  }

  lemma {:induction false} OneMoreStop(first: seq<Byte>, rest: seq<Byte>, base: nat, later: seq<nat>)
    requires first != [] && IsFirstByte(first[0]) && forall i :: 1 <= i < |first| ==> !IsFirstByte(first[i])
    requires StopsAtFirstBytes(rest, base + |first|, later)
    ensures StopsAtFirstBytes(first + rest, base, [base] + later)
  {
    hide IsFirstByte;
    var s := first + rest;
    forall i | base <= i < base + |s|
      ensures i in [base] + later <==> IsFirstByte(s[i - base])
    {
      if i >= base + |first| {
        assert s[i - base] == rest[i - (base + |first|)];
      } else {
        assert s[i - base] == first[i - base];
      }
    }
  }

  lemma {:induction false} WalkUnfolds(c: CodePoint, rest: seq<Byte>, base: nat)
    requires Plain(c)
    ensures Stops(ToUtf8(c) + rest, base) == [base] + Stops(rest, base + |ToUtf8(c)|)
  {
    StepOverFirst(c, rest);
    hide ToUtf8, ToUnicode, Step, Plain, IsFirstByte;
  }

  /** The walk stops at every first byte and nowhere else. */
  lemma {:induction false} WalkStopsAtFirstBytes(cs: seq<CodePoint>, base: nat)
    requires forall i :: 0 <= i < |cs| ==> Plain(cs[i])
    ensures StopsAtFirstBytes(Encode(cs), base, Stops(Encode(cs), base))
  {
    hide ToUtf8, ToUnicode, Step, Plain, IsFirstByte;
    if cs != [] {
      var first, rest := ToUtf8(cs[0]), Encode(cs[1..]);
      PlainRoundTrip(cs[0], rest);
      WalkUnfolds(cs[0], rest, base);
      WalkStopsAtFirstBytes(cs[1..], base + |first|);
      hide StopsAtFirstBytes, Stops;
      OneMoreStop(first, rest, base, Stops(rest, base + |first|));
    }
  }
}
