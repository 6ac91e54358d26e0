/**
 The Internet checksum of an IP header: 32-bit words added with the carry flag chained
 from one addition to the next, then folded to 16 bits, against the one's-complement
 sum of section 1 of RFC 1071.  Words are loaded little-endian.
 */
module Checksum {
  import opened Common

  const ONES: Half := 0xFFFF
  const W16 := 0x1_0000
  const W32 := 0x1_0000_0000

  /** The 16-bit word at position k, as the host loads it. */
  function HalfAt(b: seq<Byte>, k: nat): Half
    requires 2 * k + 1 < |b|
  {
    b[2 * k] as int + 0x100 * b[2 * k + 1] as int
  }

  /** The 32-bit word at position k, as the host loads it. */
  function WordAt(b: seq<Byte>, k: nat): Word
    requires 4 * k + 3 < |b|
  {
    HalfAt(b, 2 * k) + W16 * HalfAt(b, 2 * k + 1)
  }

  /** One's-complement addition: the carry comes back in at the low end. */
  function EndAroundAdd(x: Half, y: Half): Half {
    if x + y > ONES then x + y - ONES else x + y
  }

  /** The one's-complement sum of the first n 16-bit words. */
  function OnesSum(b: seq<Byte>, n: nat): Half
    requires 2 * n <= |b|
  {
    if n == 0 then 0 else EndAroundAdd(OnesSum(b, n - 1), HalfAt(b, n - 1))
  }

  /** The checksum of a whole header of 16-bit words. */
  function Sum16(b: seq<Byte>): Half {
    ONES - OnesSum(b, |b| / 2)
  }

  // ---------------------------------------------------------------------------
  // The one's-complement sum as a residue of the plain sum
  // ---------------------------------------------------------------------------

  function Total(b: seq<Byte>, n: nat): nat
    requires 2 * n <= |b|
  {
    if n == 0 then 0 else Total(b, n - 1) + HalfAt(b, n - 1)
  }

  /** x is what end-around folding makes of t: congruent modulo 2^16 - 1, and zero only for zero. */
  predicate Folds(t: nat, x: int, q: int) {
    0 <= x <= ONES && t == x + ONES * q && (x == 0 <==> t == 0)
  }

  lemma {:induction false} FoldIsUnique(t: nat, x: int, q: int, y: int, p: int)
    requires Folds(t, x, q) && Folds(t, y, p)
    ensures x == y
  {
  }

  lemma {:induction false} SumFolds(b: seq<Byte>, n: nat) returns (q: int)
    requires 2 * n <= |b|
    ensures Folds(Total(b, n), OnesSum(b, n), q)
  {
    if n == 0 {
      q := 0;
    } else {
      q := SumFolds(b, n - 1);
      if OnesSum(b, n - 1) + HalfAt(b, n - 1) > ONES { q := q + 1; }
    }
  }

  // ---------------------------------------------------------------------------
  // The routine
  // ---------------------------------------------------------------------------

  /** A 32-bit add with carry in; the result and the carry out. */
  function AddCarry(x: Word, y: Word, carry: int): (Word, int)
    requires 0 <= carry <= 1
  {
    var s := x as int + y as int + carry;
    if s < W32 then (s, 0) else (s - W32, 1)
  }

  /** The accumulator and carry after the words making up the first n 16-bit words; they
      never reach 2^32 together, so the carry in never overflows twice. */
  predicate Accumulated(b: seq<Byte>, n: nat, sum: Word, carry: int, q: int)
    requires 2 * n <= |b|
  {
    && 0 <= carry <= 1 && sum + carry < W32
    && Total(b, n) == sum + carry + ONES * q
    && (sum + carry == 0 <==> Total(b, n) == 0)
  }

  lemma {:induction false} AddWord(b: seq<Byte>, k: nat, sum: Word, carry: int, q: int) returns (p: int)
    requires 4 * k + 3 < |b|
    requires Accumulated(b, 2 * k, sum, carry, q)
    ensures var (s, c) := AddCarry(sum, WordAt(b, k), carry);
            Accumulated(b, 2 * k + 2, s, c, p)
  {
    var lo, hi := HalfAt(b, 2 * k), HalfAt(b, 2 * k + 1);
    assert Total(b, 2 * k + 2) == Total(b, 2 * k) + lo + hi;
    p := q - hi + if sum + WordAt(b, k) + carry < W32 then 0 else 0x1_0001;
  }

  lemma {:induction false} FirstWord(b: seq<Byte>) returns (q: int)
    requires 4 <= |b|
    ensures Accumulated(b, 2, WordAt(b, 0), 0, q)
  {
    assert Total(b, 1) == HalfAt(b, 0);
    q := -(HalfAt(b, 1) as int);
  }

  /** The fold at the end: high half added to low half, its carry added back in. */
  function FoldHalves(sum: Word): (x: Half)
    ensures sum == x + ONES * (sum / W16 + FoldCarry(sum)) && (x == 0 <==> sum == 0)
  {
    sum / W16 + sum % W16 - FoldCarry(sum) * ONES
  }

  function FoldCarry(sum: Word): int {
    if sum / W16 + sum % W16 < W16 then 0 else 1
  }

  lemma {:induction false} SumOfPrefix(b: seq<Byte>, m: nat, n: nat)
    requires 2 * n <= m <= |b|
    ensures OnesSum(b[..m], n) == OnesSum(b, n)
  {
    if n > 0 { SumOfPrefix(b, m, n - 1); }
  }

  method Adc(x: Word, y: Word, carry: int) returns (sum: Word, out: int)
    requires 0 <= carry <= 1
    ensures (sum, out) == AddCarry(x, y, carry)
  {
    var s := x as int + y as int + carry;
    if s < W32 { sum, out := s, 0; } else { sum, out := s - W32, 1; }
  }

  /** For headers of five words and more, the checksum; shorter ones leave by the early
      exit with the low half of their first word. */
  method IpFastCsum(iph: array<Byte>, ihl: nat) returns (r: Half)
    requires ihl < W32 && 4 <= iph.Length && 4 * ihl <= iph.Length
    ensures 5 <= ihl ==> r == Sum16(iph[..4 * ihl])
    ensures ihl <= 4 ==> r == HalfAt(iph[..], 0)
  {
    hide HalfAt, Total, OnesSum;
    var memory := iph[..];
    var sum: Word := WordAt(memory, 0);
    if ihl <= 4 {
      return sum % W16;
    }
    var carry := 0;
    ghost var q := FirstWord(memory);

    q := AddWord(memory, 1, sum, carry, q);
    sum, carry := Adc(sum, WordAt(memory, 1), carry);
    q := AddWord(memory, 2, sum, carry, q);
    sum, carry := Adc(sum, WordAt(memory, 2), carry);
    q := AddWord(memory, 3, sum, carry, q);
    sum, carry := Adc(sum, WordAt(memory, 3), carry);

    var ptr, left := 0, ihl - 4;
    while left != 0
      invariant 0 <= left && ptr + left == ihl - 4
      invariant Accumulated(memory, 2 * (ptr + 4), sum, carry, q)
    {
      q := AddWord(memory, ptr + 4, sum, carry, q);
      sum, carry := Adc(sum, WordAt(memory, ptr + 4), carry);
      ptr, left := ptr + 1, left - 1;
    }

    sum, carry := Adc(sum, 0, carry);
    r := FoldHalves(sum);
    ghost var n: nat := 2 * ihl;
    ghost var p := q + sum / W16 + FoldCarry(sum);
    SumOfPrefix(memory, 4 * ihl, n);
    ghost var p' := SumFolds(memory, n);
    FoldIsUnique(Total(memory, n), r, p, OnesSum(memory, n), p');
    r := ONES - r;
  }

  // ---------------------------------------------------------------------------
  // What the checksum is for
  // ---------------------------------------------------------------------------

  function PutHalf(b: seq<Byte>, k: nat, v: Half): (r: seq<Byte>)
    requires 2 * k + 1 < |b|
    ensures |r| == |b|
  {
    b[2 * k := v % 0x100][2 * k + 1 := v / 0x100]
  }

  lemma {:induction false} TotalOfPut(b: seq<Byte>, k: nat, v: Half, n: nat)
    requires 2 * k + 1 < |b| && 2 * n <= |b|
    ensures Total(PutHalf(b, k, v), n) == Total(b, n) + if k < n then v - HalfAt(b, k) else 0
  {
    if n > 0 {
      TotalOfPut(b, k, v, n - 1);
      assert HalfAt(PutHalf(b, k, v), n - 1) == if k == n - 1 then v else HalfAt(b, n - 1);
    }
  }

  /** The checksum is zero exactly for a non-zero header whose plain sum is a multiple of 2^16 - 1. */
  lemma {:induction false} VerifiesIff(b: seq<Byte>)
    ensures Sum16(b) == 0 <==> Total(b, |b| / 2) > 0 && Total(b, |b| / 2) % ONES == 0
  {
    var q := SumFolds(b, |b| / 2);
  }

  lemma {:induction false} SumIsAllOnes(t: nat, x: int, q: int, v: Half, y: int, p: int)
    requires Folds(t, x, q) && Folds(t + v, y, p)
    ensures y == ONES <==> (v == ONES - x || (v == ONES && x == ONES))
  {
  }

  lemma {:induction false} AllOnesStays(t: nat, q: int, w: Half, v: Half, y: int, p: int)
    requires Folds(t, ONES, q) && w <= t && Folds(t - w + v, y, p)
    ensures y == ONES <==> (v == w || (v == ONES && w == 0) || (v == 0 && w == ONES && t > ONES))
  {
  }

  /** A header carrying its own checksum at word k (bytes 10 and 11 of an IP header are
      word 5), computed with that word zero, sums to zero; and no other value does. */
  lemma {:induction false} OwnChecksumVerifies(b: seq<Byte>, k: nat, v: Half)
    requires |b| % 2 == 0 && 2 * k + 1 < |b|
    ensures var blank := PutHalf(b, k, 0);
            Sum16(PutHalf(blank, k, v)) == 0
            <==> (v == Sum16(blank) || (v == ONES && Sum16(blank) == 0))
  {
    var blank, n := PutHalf(b, k, 0), |b| / 2;
    TotalOfPut(blank, k, v, n);
    assert HalfAt(blank, k) == 0;
    var q := SumFolds(blank, n);
    var p := SumFolds(PutHalf(blank, k, v), n);
    SumIsAllOnes(Total(blank, n), OnesSum(blank, n), q, v, OnesSum(PutHalf(blank, k, v), n), p);
  }

  /** A verifying header stops verifying when one 16-bit word changes, unless the change is
      between the two encodings of zero (and something else in the header is not zero). */
  lemma {:induction false} OneChangedWordIsDetected(b: seq<Byte>, k: nat, v: Half)
    requires |b| % 2 == 0 && 2 * k + 1 < |b| && Sum16(b) == 0
    ensures Sum16(PutHalf(b, k, v)) == 0
            <==> (v == HalfAt(b, k)
                  || (v == ONES && HalfAt(b, k) == 0)
                  || (v == 0 && HalfAt(b, k) == ONES && Total(b, |b| / 2) > ONES))
  {
    var n := |b| / 2;
    TotalOfPut(b, k, v, n);
    TotalOfPut(b, k, 0, n);
    hide HalfAt;
    var q := SumFolds(b, n);
    var p := SumFolds(PutHalf(b, k, v), n);
    AllOnesStays(Total(b, n), q, HalfAt(b, k), v, OnesSum(PutHalf(b, k, v), n), p);
  }

  // ---------------------------------------------------------------------------
  // Byte order: the little-endian computation stores the network-order checksum
  // ---------------------------------------------------------------------------

  function SwapBytes(x: Half): Half {
    x % 0x100 * 0x100 + x / 0x100
  }

  /** Word k in network byte order. */
  function NetworkHalfAt(b: seq<Byte>, k: nat): Half
    requires 2 * k + 1 < |b|
  {
    b[2 * k] as int * 0x100 + b[2 * k + 1] as int
  }

  /** The checksum of section 1 of RFC 1071, over words in network byte order. */
  function NetworkOnesSum(b: seq<Byte>, n: nat): Half
    requires 2 * n <= |b|
  {
    if n == 0 then 0 else EndAroundAdd(NetworkOnesSum(b, n - 1), NetworkHalfAt(b, n - 1))
  }

  /** A word by its bytes. */
  function Bytes(lo: int, hi: int): int {
    lo + 0x100 * hi
  }

  lemma {:induction false} SwapOfBytes(lo: Byte, hi: Byte)
    ensures SwapBytes(Bytes(lo, hi)) == Bytes(hi, lo)
  {
  }

  /** The end-around carry out of either byte goes into the other, in both orders alike. */
  lemma {:induction false} SwapIsAdditive(x: Half, y: Half)
    ensures SwapBytes(EndAroundAdd(x, y)) == EndAroundAdd(SwapBytes(x), SwapBytes(y))
  {
    var xl: Byte, xh: Byte := x % 0x100, x / 0x100;
    var yl: Byte, yh: Byte := y % 0x100, y / 0x100;
    SwapOfBytes(xl, xh);
    SwapOfBytes(yl, yh);
    var lo, hi := AddBytes(xl, xh, yl, yh);
    SwapOfBytes(lo, hi);
    hide SwapBytes;
  }

  lemma {:induction false} AddBytes(xl: Byte, xh: Byte, yl: Byte, yh: Byte) returns (lo: Byte, hi: Byte)
    ensures Bytes(lo, hi) == EndAroundAdd(Bytes(xl, xh), Bytes(yl, yh))
    ensures Bytes(hi, lo) == EndAroundAdd(Bytes(xh, xl), Bytes(yh, yl))
  {
    var l: int, h: int := xl as int + yl as int, xh as int + yh as int;
    var c: int := if l > 0xFF then 1 else 0;
    var d: int := if h + c > 0xFF then 1 else 0;
    if l - 0x100 * c + d > 0xFF {
      lo, hi := 0, h + c - 0x100 * d + 1;
    } else {
      lo, hi := l - 0x100 * c + d, h + c - 0x100 * d;
    }
  }

  lemma {:induction false} SwapOneWord(b: seq<Byte>, k: nat)
    requires 2 * k + 1 < |b|
    ensures SwapBytes(HalfAt(b, k)) == NetworkHalfAt(b, k)
  {
    SwapOfBytes(b[2 * k], b[2 * k + 1]);
    hide SwapBytes;
  }

  lemma {:induction false} SumCommutesWithSwap(b: seq<Byte>, n: nat)
    requires 2 * n <= |b|
    ensures SwapBytes(OnesSum(b, n)) == NetworkOnesSum(b, n)
  {
    if n > 0 {
      SumCommutesWithSwap(b, n - 1);
      SwapIsAdditive(OnesSum(b, n - 1), HalfAt(b, n - 1));
      SwapOneWord(b, n - 1);
      hide SwapBytes, EndAroundAdd, HalfAt, NetworkHalfAt;
    }
  }

  /** The two bytes the host stores are the network-order checksum, high byte first. */
  lemma {:induction false} ChecksumIsByteOrderIndependent(b: seq<Byte>)
    ensures SwapBytes(Sum16(b)) == ONES - NetworkOnesSum(b, |b| / 2)
  {
    SumCommutesWithSwap(b, |b| / 2);
    SwapOfComplement(OnesSum(b, |b| / 2));
    hide SwapBytes;
  }

  lemma {:induction false} BytesOfComplement(lo: Byte, hi: Byte)
    ensures 0 <= Bytes(lo, hi) <= ONES && ONES - Bytes(lo, hi) == Bytes(0xFF - lo, 0xFF - hi)
  {
  }

  lemma {:induction false} SplitHalf(x: Half) returns (lo: Byte, hi: Byte)
    ensures x == Bytes(lo, hi)
  {
    lo, hi := x % 0x100, x / 0x100;
  }

  lemma {:induction false} SwapOfComplement(x: Half)
    ensures SwapBytes(ONES - x) == ONES - SwapBytes(x)
  {
    hide SwapBytes, Bytes;
    var lo, hi := SplitHalf(x);
    BytesOfComplement(lo, hi);
    BytesOfComplement(hi, lo);
    SwapOfBytes(lo, hi);
    SwapOfBytes(0xFF - lo, 0xFF - hi);
  }
}
