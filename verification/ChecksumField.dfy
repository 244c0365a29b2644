/** inet_chksum, and what storing and checking its result achieves. */
module ChecksumField {
  import opened Words
  import opened OnesComplement
  import opened StandardChksum

  /** inet_chksum */
  method InetChksum(alg: Algorithm, data: seq<byte>, start: nat) returns (r: u16)
    requires |data| <= 0xFFFF
    ensures r == InternetChecksum(data)
  {
    var c := Chksum(alg, data, start);
    return Complement16(c);
  }

  /** The buffer after the host has stored w at an even offset. */
  function Store16(d: seq<byte>, off: nat, w: u16): (d': seq<byte>)
    requires off + 1 < |d|
    ensures |d'| == |d|
  {
    d[off := w % 0x100][off + 1 := w / 0x100]
  }

  /** The u16 the host loads from offset off. */
  function Field16(d: seq<byte>, off: nat): u16
    requires off + 1 < |d|
  {
    Load16(d[off], d[off + 1])
  }

  lemma {:induction false} StoreSum(d: seq<byte>, off: nat, w: u16)
    requires off + 1 < |d| && off % 2 == 0
    ensures LeSum(Store16(d, off, w)) == LeSum(d) - Field16(d, off) + w
  {
    var d' := Store16(d, off, w);
    if off == 0 {
      assert d'[2..] == d[2..];
    } else {
      StoreSum(d[2..], off - 2, w);
      assert d'[2..] == Store16(d[2..], off - 2, w);
    }
  }

  /** A buffer verifies exactly when the sum of its words is a positive multiple of 65535. */
  lemma VerifiesIff(d: seq<byte>)
    ensures InternetChecksum(d) == 0 <==> LeSum(d) != 0 && LeSum(d) % 0xFFFF == 0
  {
    hide LeSum, InternetSum, Norm, Htons;
    NormByteOrder(d);
    NormAllOnes(LeSum(d));
  }

  /** RFC 1071, section 1: with the checksum stored in its zeroed field, the whole buffer
      sums to all ones, so inet_chksum over it is zero. */
  lemma StoredChecksumVerifies(d: seq<byte>, off: nat)
    requires off + 1 < |d| && off % 2 == 0 && Field16(d, off) == 0
    ensures InternetChecksum(Store16(d, off, InternetChecksum(d))) == 0
  {
    hide Htons, InternetSum, LeSum, Norm, Store16;
    var w := InternetChecksum(d);
    StoreSum(d, off, w);
    NormByteOrder(d);
    var k := NormQuotient(LeSum(d));
    ModShift(0xFFFF, k);
    VerifiesIff(Store16(d, off, w));
  }

  /** What one changed word does to a buffer that verifies: the change goes unnoticed exactly
      when the word kept its value, or went between 0 and 0xFFFF without leaving all zeros. */
  lemma ChangedWord(d: seq<byte>, off: nat, w: u16)
    requires off + 1 < |d| && off % 2 == 0 && InternetChecksum(d) == 0
    ensures InternetChecksum(Store16(d, off, w)) == 0
       <==> || w == Field16(d, off)
            || (w == 0xFFFF && Field16(d, off) == 0)
            || (w == 0 && Field16(d, off) == 0xFFFF && LeSum(d) != 0xFFFF)
  {
    hide InternetChecksum, LeSum, Store16;
    var before := Field16(d, off);
    StoreSum(d, off, w);
    VerifiesIff(d);
    VerifiesIff(Store16(d, off, w));
    var k := LeSum(d) / 0xFFFF;
    ModShift(w as int - before, k);
    SmallMultiple(w as int - before);
  }

  lemma SmallMultiple(x: int)
    requires -0xFFFF <= x <= 0xFFFF
    ensures x % 0xFFFF == 0 <==> x == 0 || x == 0xFFFF || x == -0xFFFF
  {
  }
}
