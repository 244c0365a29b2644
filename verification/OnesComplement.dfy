/** The Internet sum of RFC 1071 and the arithmetic that lets it be computed
    on wide, byte-swapped accumulators. */
module OnesComplement {
  import opened Words

  // ---- The reference definition (RFC 1071, section 1) ----

  /** 16-bit one's-complement addition: add, then bring the carry back in. */
  function OnesAdd(a: u16, b: u16): u16 {
    if a + b > 0xFFFF then a + b - 0xFFFF else a + b
  }

  /** The 16-bit word whose bytes are sent in the order a, b. */
  function BeWord(a: byte, b: byte): u16 {
    0x100 * a + b
  }

  /** The one's-complement sum of adjacent octets paired to 16-bit big-endian words,
      a last odd octet being padded with zero. */
  function InternetSum(d: seq<byte>): u16 {
    if |d| == 0 then 0
    else if |d| == 1 then BeWord(d[0], 0)
    else OnesAdd(InternetSum(d[2..]), BeWord(d[0], d[1]))
  }

  /** What a checksum routine of this stack returns: the complement of the sum, as the
      u16 that puts the sum's bytes into memory in network order. */
  function InternetChecksum(d: seq<byte>): u16 {
    Complement16(Htons(InternetSum(d)))
  }

  /** The example of RFC 1071, section 3, and a last odd octet. */
  lemma Example()
    ensures InternetSum([0x00, 0x01, 0xF2, 0x03, 0xF4, 0xF5, 0xF6, 0xF7]) == 0xDDF2
    ensures InternetSum([0xAB]) == 0xAB00
  {
    var d := [0x00, 0x01, 0xF2, 0x03, 0xF4, 0xF5, 0xF6, 0xF7];
    assert d[2..] == [0xF2, 0x03, 0xF4, 0xF5, 0xF6, 0xF7];
    assert d[2..][2..] == [0xF4, 0xF5, 0xF6, 0xF7];
    assert d[2..][2..][2..] == [0xF6, 0xF7];
    assert InternetSum([0xF6, 0xF7]) == 0xF6F7;
    assert InternetSum([0xF4, 0xF5, 0xF6, 0xF7]) == 0xEBED;
    assert InternetSum([0xF2, 0x03, 0xF4, 0xF5, 0xF6, 0xF7]) == 0xDDF1;
  }

  // ---- Sums without carries ----

  /** The words of d, read big-endian, added as integers. */
  function BeSum(d: seq<byte>): nat {
    if |d| == 0 then 0
    else if |d| == 1 then BeWord(d[0], 0)
    else BeWord(d[0], d[1]) + BeSum(d[2..])
  }

  /** The words of d, read little-endian, added as integers. */
  function LeSum(d: seq<byte>): nat {
    if |d| == 0 then 0
    else if |d| == 1 then d[0]
    else Load16(d[0], d[1]) + LeSum(d[2..])
  }

  /** The 16-bit one's-complement form of an integer: a non-zero multiple of 65535 is 0xFFFF. */
  function Norm(n: nat): u16 {
    if n == 0 then 0 else (n - 1) % 0xFFFF + 1
  }

  // ---- Norm ----

  lemma NormMeaning(n: nat)
    ensures Norm(n) % 0xFFFF == n % 0xFFFF && (Norm(n) == 0 <==> n == 0)
  {
  }

  lemma ModShift(x: int, m: int)
    ensures (x + 0xFFFF * m) % 0xFFFF == x % 0xFFFF
  {
  }

  /** Multiples of 65535 do not count, as long as they do not hide a zero. */
  lemma NormShifted(n: nat, a: nat, m: int)
    requires n == a + 0xFFFF * m && (a == 0 <==> n == 0)
    ensures Norm(a) == Norm(n)
  {
    ModShift(a, m);
  }

  lemma NormUnique(r: nat, n: nat)
    requires r <= 0xFFFF && r % 0xFFFF == n % 0xFFFF && (r == 0 <==> n == 0)
    ensures r == Norm(n)
  {
  }

  lemma NormAllOnes(n: nat)
    ensures Norm(n) == 0xFFFF <==> n != 0 && n % 0xFFFF == 0
  {
  }

  lemma NormCongruent(a: nat, b: nat)
    requires a % 0xFFFF == b % 0xFFFF && (a == 0 <==> b == 0)
    ensures Norm(a) == Norm(b)
  {
  }

  lemma NormAdd(a: nat, b: nat)
    ensures Norm(Norm(a) + b) == Norm(a + b)
  {
    NormMeaning(a);
    NormCongruent(Norm(a) + b, a + b);
  }

  /** A fold takes away a multiple of 65535, and never turns a non-zero value into zero. */
  lemma FoldValue(x: u32) returns (q: nat)
    ensures x == Fold(x) as int + 0xFFFF * q && (Fold(x) == 0 <==> x == 0)
    ensures Fold(x) <= 0x1_FFFE && (x <= 0x1_FFFE ==> Fold(x) <= 0xFFFF)
  {
    q := x / 0x1_0000;
  }

  /** A sum in 16 bits is its own Norm. */
  lemma NormSmall(r: u16)
    ensures Norm(r) == r
  {
  }

  /** One fold is enough for the sum of two 16-bit words. */
  lemma FoldOnce(x: u32)
    requires x <= 0x1_FFFE
    ensures Fold(x) == Norm(x)
  {
    hide Fold, Norm;
    var q := FoldValue(x);
    NormShifted(x, Fold(x), q);
    NormSmall(Fold(x));
  }

  /** Two folds bring any u32 into 16 bits, and never turn a non-zero sum into zero. */
  lemma FoldTwice(x: u32)
    ensures Fold(x) <= 0x1_FFFE
    ensures Fold(Fold(x)) == Norm(x)
  {
    hide Fold, Norm;
    var q := FoldValue(x);
    NormShifted(x, Fold(x), q);
    FoldOnce(Fold(x));
  }

  /** Swapping the bytes of a 16-bit sum multiplies it by 256. */
  lemma SwapScales(n: nat)
    ensures SwapBytes(Norm(n)) == Norm(0x100 * n)
  {
    var k := NormQuotient(n);
    var hi := SwapValue(Norm(n));
    NormMeaning(n);
    NormShifted(0x100 * n, SwapBytes(Norm(n)), hi + 0x100 * k);
    NormUnique(SwapBytes(Norm(n)), SwapBytes(Norm(n)));
  }

  lemma NormQuotient(n: nat) returns (k: nat)
    ensures n == Norm(n) + 0xFFFF * k
  {
    k := if n == 0 then 0 else (n - 1) / 0xFFFF;
  }

  lemma SwapValue(w: u16) returns (hi: nat)
    ensures 0x100 * w as int == SwapBytes(w) as int + 0xFFFF * hi
    ensures SwapBytes(w) == 0 <==> w == 0
  {
    hi := w / 0x100;
  }

  lemma SwapTwice(w: u16)
    ensures SwapBytes(SwapBytes(w)) == w
  {
  }

  // ---- Sums of sequences ----

  /** The carried sum is the plain sum brought into 16 bits. */
  lemma {:induction false} InternetSumIsNorm(d: seq<byte>)
    ensures InternetSum(d) == Norm(BeSum(d))
  {
    if |d| == 1 {
      NormUnique(BeWord(d[0], 0), BeSum(d));
    } else if |d| > 1 {
      InternetSumIsNorm(d[2..]);
      var w := BeWord(d[0], d[1]);
      NormUnique(OnesAdd(InternetSum(d[2..]), w), Norm(BeSum(d[2..])) + w);
      NormAdd(BeSum(d[2..]), w);
    }
  }

  /** Reading the words the other way round multiplies the sum by 256 modulo 65535
      (RFC 1071, section 2(B)). */
  lemma {:induction false} ByteOrder(d: seq<byte>) returns (k: nat)
    ensures 0x100 * BeSum(d) == LeSum(d) + 0xFFFF * k
    ensures BeSum(d) == 0 <==> LeSum(d) == 0
  {
    if |d| == 0 {
      k := 0;
    } else if |d| == 1 {
      k := d[0];
    } else {
      k := ByteOrder(d[2..]);
      k := k + d[0];
    }
  }

  lemma NormByteOrder(d: seq<byte>)
    ensures Norm(LeSum(d)) == Htons(InternetSum(d))
    ensures Norm(BeSum(d)) == InternetSum(d)
  {
    InternetSumIsNorm(d);
    SwapScales(BeSum(d));
    var k := ByteOrder(d);
    ModShift(LeSum(d), k);
    NormCongruent(LeSum(d), 0x100 * BeSum(d));
  }

  /** Dropping the first byte turns one reading order into the other. */
  lemma {:induction false} ShiftByOne(d: seq<byte>)
    requires |d| > 0
    ensures BeSum(d) == 0x100 * d[0] + LeSum(d[1..])
    ensures LeSum(d) == d[0] + BeSum(d[1..])
  {
    if |d| > 1 {
      ShiftByOne(d[1..]);
      assert d[1..][1..] == d[2..];
    }
  }

  lemma {:induction false} SumsConcat(x: seq<byte>, y: seq<byte>)
    ensures LeSum(x + y) == LeSum(x) + if |x| % 2 == 0 then LeSum(y) else BeSum(y)
  {
    if |x| == 0 {
      assert x + y == y;
    } else if |x| == 1 {
      ShiftByOne(x + y);
      assert (x + y)[1..] == y;
    } else {
      SumsConcat(x[2..], y);
      assert (x + y)[2..] == x[2..] + y;
    }
  }

  lemma {:induction false} SumBound(d: seq<byte>)
    ensures LeSum(d) <= 0xFFFF * ((|d| + 1) / 2)
    ensures BeSum(d) <= 0xFFFF * ((|d| + 1) / 2)
  {
    if |d| > 1 {
      SumBound(d[2..]);
    }
  }
}
