/** Checksums over pbuf chains, with and without a pseudo header. */
module ChainChksum {
  import opened Words
  import opened OnesComplement
  import opened StandardChksum

  /** A buffer of a chain: q->payload (its address and its q->len bytes). */
  datatype Pbuf = Pbuf(addr: nat, payload: seq<byte>)

  /** A chain in memory; q->len is a u16. */
  ghost predicate IsChain(chain: seq<Pbuf>) {
    forall q | q in chain :: |q.payload| <= 0xFFFF
  }

  /** The bytes of a chain, in order. */
  function Flatten(chain: seq<Pbuf>): seq<byte> {
    if chain == [] then [] else Flatten(chain[..|chain| - 1]) + chain[|chain| - 1].payload
  }

  /** The first n of some bytes, or all of them. */
  function Prefix(bytes: seq<byte>, n: nat): seq<byte> {
    if n < |bytes| then bytes[..n] else bytes
  }

  // ---- The loop over the chain ----

  /** What the accumulator holds when the bytes in `seen` have been added to `acc0`:
      their sum, byte-swapped after an odd number of bytes. */
  ghost function Accumulator(acc0: nat, seen: seq<byte>, swapped: bool): u16 {
    if swapped then Norm(0x100 * (acc0 + LeSum(seen))) else Norm(acc0 + LeSum(seen))
  }

  lemma EmptyChain(acc0: u16)
    ensures Accumulator(acc0, [], false) == acc0
  {
    NormUnique(acc0, acc0);
  }

  /** One turn of the loops over a chain, up to the swap. */
  lemma AddBuffer(acc0: nat, seen: seq<byte>, swapped: bool, payload: seq<byte>)
    requires swapped <==> |seen| % 2 == 1
    ensures var acc := Accumulator(acc0, seen, swapped) as int + Htons(InternetSum(payload));
      acc < 0x1_0000_0000 && Fold(acc) == Accumulator(acc0, seen + payload, swapped)
  {
    hide Norm, LeSum, BeSum, InternetSum, Htons, SwapBytes, Fold;
    SumsConcat(seen, payload);
    NormByteOrder(payload);
    var base := acc0 + LeSum(seen);
    FoldOnce(Accumulator(acc0, seen, swapped) as int + Norm(LeSum(payload)));
    if swapped {
      NormSum(0x100 * base, LeSum(payload));
      var k := ByteOrder(payload);
      NormShifted(0x100 * (base + BeSum(payload)), 0x100 * base + LeSum(payload), k);
    } else {
      NormSum(base, LeSum(payload));
    }
  }

  lemma NormSum(a: nat, b: nat)
    ensures Norm(Norm(a) + Norm(b)) == Norm(a + b)
  {
    NormAdd(a, Norm(b));
    NormAdd(b, a);
  }

  /** A swap of the accumulator moves it to the other byte order. */
  lemma SwapAccumulator(acc0: nat, seen: seq<byte>, swapped: bool)
    ensures SwapBytes(Accumulator(acc0, seen, swapped)) == Accumulator(acc0, seen, !swapped)
  {
    SwapScales(acc0 + LeSum(seen));
    SwapTwice(Norm(acc0 + LeSum(seen)));
  }

  // ---- The tail that adds protocol and length ----

  /** The complemented sum of acc0, the bytes, the protocol number and the length. */
  ghost function PseudoSum(acc0: nat, bytes: seq<byte>, proto: u8, protoLen: u16): u16 {
    Complement16(Norm(acc0 + LeSum(bytes) + Htons(proto) + Htons(protoLen)))
  }

  lemma AddTrailer(acc0: nat, bytes: seq<byte>, proto: u8, protoLen: u16)
    ensures var acc := Accumulator(acc0, bytes, false) as int + Htons(proto) + Htons(protoLen);
      acc < 0x1_0000_0000 && Complement16(Low16(Fold(Fold(acc)))) == PseudoSum(acc0, bytes, proto, protoLen)
  {
    hide Fold, Htons, LeSum, Norm, SwapBytes;
    FoldTwice(Accumulator(acc0, bytes, false) as int + Htons(proto) + Htons(protoLen));
    var trailer: nat := Htons(proto) as int + Htons(protoLen);
    NormAdd(acc0 + LeSum(bytes), trailer);
  }

  /** The body that all loops over a chain share: add the sum of `part`, fold once, and swap
      if the length of the buffer it was taken from is odd. */
  method AddPart(alg: Algorithm, q: Pbuf, part: seq<byte>, acc: u32, swapped: bool,
                 ghost acc0: nat, ghost seen: seq<byte>) returns (acc': u32, swapped': bool)
    requires |part| <= 0xFFFF
    requires swapped <==> |seen| % 2 == 1
    requires acc == Accumulator(acc0, seen, swapped)
    ensures swapped' == (swapped != (|q.payload| % 2 == 1))
    ensures acc' == Accumulator(acc0, seen + part, swapped')
  {
    hide Accumulator, Complement16, Fold, Htons, InternetChecksum, InternetSum, LeSum, Low16, Norm, PseudoSum, SwapBytes;
    AddBuffer(acc0, seen, swapped, part);
    SwapAccumulator(acc0, seen + part, swapped);
    var c := Chksum(alg, part, q.addr);
    acc', swapped' := Add32(acc, c), swapped;
    acc' := Fold(acc');
    if |q.payload| % 2 != 0 {
      swapped' := !swapped';
      acc' := SwapBytes(acc');
    }
  }

  /** What follows the loops of both pseudo-header functions. */
  method AddTail(acc: u32, swapped: bool, proto: u8, protoLen: u16, ghost acc0: nat, ghost seen: seq<byte>)
      returns (r: u16)
    requires acc == Accumulator(acc0, seen, swapped)
    ensures r == PseudoSum(acc0, seen, proto, protoLen)
  {
    hide Accumulator, Complement16, Fold, Htons, InternetChecksum, InternetSum, LeSum, Low16, Norm, PseudoSum, SwapBytes;
    var acc := acc;
    if swapped {
      SwapAccumulator(acc0, seen, true);
      acc := SwapBytes(acc);
    }
    AddTrailer(acc0, seen, proto, protoLen);
    acc := Add32(acc, Htons(proto));
    acc := Add32(acc, Htons(protoLen));
    acc := Fold(acc);
    acc := Fold(acc);
    return Complement16(Low16(acc));
  }

  /** inet_cksum_pseudo_base */
  method InetCksumPseudoBase(alg: Algorithm, p: seq<Pbuf>, proto: u8, protoLen: u16, acc0: u32)
      returns (r: u16)
    requires IsChain(p) && acc0 <= 0xFFFF
    ensures r == PseudoSum(acc0, Flatten(p), proto, protoLen)
  {
    hide Accumulator, PseudoSum;
    var acc: u32, swapped := acc0, false;
    EmptyChain(acc0);
    for i := 0 to |p|
      invariant swapped <==> |Flatten(p[..i])| % 2 == 1
      invariant acc == Accumulator(acc0, Flatten(p[..i]), swapped)
    {
      assert p[..i + 1][..i] == p[..i];
      acc, swapped := AddPart(alg, p[i], p[i].payload, acc, swapped, acc0, Flatten(p[..i]));
    }
    assert p[..|p|] == p;
    r := AddTail(acc, swapped, proto, protoLen, acc0, Flatten(p));
  }

  /** inet_cksum_pseudo_partial_base: only the first chksumLen bytes count. The swap test
      looks at the whole length of the buffer the cut falls into; `asserted` tells that the
      loop's LWIP_ASSERT would have fired. */
  method InetCksumPseudoPartialBase(alg: Algorithm, p: seq<Pbuf>, proto: u8, protoLen: u16,
                                    chksumLen0: u16, acc0: u32) returns (r: u16, asserted: bool)
    requires IsChain(p) && acc0 <= 0xFFFF
    ensures r == PseudoSum(acc0, Prefix(Flatten(p), chksumLen0), proto, protoLen)
    ensures asserted <==> |p| > 0 && chksumLen0 - |p[0].payload| >= 0x7FFF
  {
    hide Accumulator, PseudoSum;
    var acc: u32, chksumLen: u16, swapped := acc0, chksumLen0, false;
    asserted := false;
    var i := 0;
    ghost var flat := Flatten(p);
    ghost var seen := [];
    ghost var over := |p| > 0 && chksumLen0 - |p[0].payload| >= 0x7FFF;
    EmptyChain(acc0);
    while i < |p| && chksumLen > 0
      invariant i <= |p| && seen <= flat && chksumLen == chksumLen0 - |seen|
      invariant chksumLen > 0 ==> seen == Flatten(p[..i]) && (swapped <==> |seen| % 2 == 1)
      invariant i == 0 ==> seen == []
      invariant acc == Accumulator(acc0, seen, swapped)
      invariant asserted <==> i > 0 && over
      invariant i > 0 && !over ==> chksumLen < 0x7FFF
    {
      ChainStep(p, i);
      var q := p[i];
      var chklen: u16 := |q.payload|;
      if chklen > chksumLen {
        chklen := chksumLen;
      }
      chksumLen := chksumLen - chklen;
      asserted := asserted || !(chksumLen < 0x7FFF);
      acc, swapped := AddPart(alg, q, q.payload[..chklen], acc, swapped, acc0, seen);
      seen := seen + q.payload[..chklen];
      i := i + 1;
    }
    assert i == |p| ==> p[..i] == p;
    assert seen == Prefix(flat, chksumLen0);
    r := AddTail(acc, swapped, proto, protoLen, acc0, seen);
  }

  /** The bytes of a longer prefix of a chain start with those of a shorter one. */
  lemma {:induction false} ChainStep(p: seq<Pbuf>, i: nat)
    requires i < |p|
    ensures Flatten(p[..i + 1]) == Flatten(p[..i]) + p[i].payload
    ensures Flatten(p[..i + 1]) <= Flatten(p)
    decreases |p| - i
  {
    assert p[..i + 1][..i] == p[..i];
    if i + 1 < |p| {
      ChainStep(p, i + 1);
    } else {
      assert p[..i + 1] == p;
    }
  }

  lemma WholeChain(bytes: seq<byte>)
    ensures Complement16(Low16(Accumulator(0, bytes, false))) == InternetChecksum(bytes)
  {
    NormByteOrder(bytes);
  }

  /** inet_chksum_pbuf */
  method InetChksumPbuf(alg: Algorithm, p: seq<Pbuf>) returns (r: u16)
    requires IsChain(p)
    ensures r == InternetChecksum(Flatten(p))
  {
    hide Accumulator, Complement16, Fold, Htons, InternetChecksum, InternetSum, LeSum, Low16, Norm, PseudoSum, SwapBytes;
    var acc: u32, swapped := 0, false;
    EmptyChain(0);
    for i := 0 to |p|
      invariant swapped <==> |Flatten(p[..i])| % 2 == 1
      invariant acc == Accumulator(0, Flatten(p[..i]), swapped)
    {
      assert p[..i + 1][..i] == p[..i];
      acc, swapped := AddPart(alg, p[i], p[i].payload, acc, swapped, 0, Flatten(p[..i]));
    }
    assert p[..|p|] == p;
    if swapped {
      SwapAccumulator(0, Flatten(p), true);
      acc := SwapBytes(acc);
    }
    WholeChain(Flatten(p));
    return Complement16(Low16(acc));
  }

  // ---- Pseudo headers ----

  /** The IPv4 pseudo header (RFC 793, section 3.1): addresses, zero, protocol, length. */
  function PseudoHeader4(src: u32, dest: u32, proto: u8, protoLen: u16): (h: seq<byte>)
    ensures |h| == 12
  {
    Bytes32(src) + Bytes32(dest) + [0, proto] + [protoLen / 0x100, protoLen % 0x100]
  }

  /** The IPv6 pseudo header (RFC 8200, section 8.1): addresses, 32-bit length, three
      zero bytes, next header. */
  function PseudoHeader6(src: seq<u32>, dest: seq<u32>, proto: u8, protoLen: u16): seq<byte>
    requires |src| == 4 && |dest| == 4
  {
    AddrBytes(src, 4) + AddrBytes(dest, 4) + [0, 0, protoLen / 0x100, protoLen % 0x100] + [0, 0, 0, proto]
  }

  /** The first n words of an address, as they are in memory. */
  function AddrBytes(addr: seq<u32>, n: nat): (bs: seq<byte>)
    requires n <= |addr|
    ensures |bs| == 4 * n
  {
    if n == 0 then [] else AddrBytes(addr, n - 1) + Bytes32(addr[n - 1])
  }

  /** The fields of both headers, in the places that the standards give them. */
  lemma HeaderFields(src4: u32, dest4: u32, src: seq<u32>, dest: seq<u32>, proto: u8, protoLen: u16, i: nat)
    requires |src| == 4 && |dest| == 4 && i < 4
    ensures var h := PseudoHeader4(src4, dest4, proto, protoLen);
      && h[..4] == Bytes32(src4) && h[4..8] == Bytes32(dest4) && h[8] == 0 && h[9] == proto
      && 0x100 * h[10] as int + h[11] as int == protoLen
    ensures var h := PseudoHeader6(src, dest, proto, protoLen);
      && |h| == 40 && h[4 * i..4 * i + 4] == Bytes32(src[i]) && h[16 + 4 * i..16 + 4 * i + 4] == Bytes32(dest[i])
      && h[32] == 0 && h[33] == 0 && 0x100 * h[34] as int + h[35] as int == protoLen
      && h[36] == 0 && h[37] == 0 && h[38] == 0 && h[39] == proto
  {
    hide Bytes32;
    var h, s, d := PseudoHeader6(src, dest, proto, protoLen), AddrBytes(src, 4), AddrBytes(dest, 4);
    WordAt(src, 4, i);
    WordAt(dest, 4, i);
    assert h[..16] == s && h[16..32] == d;
    assert h[4 * i..4 * i + 4] == s[4 * i..4 * i + 4] && h[16 + 4 * i..16 + 4 * i + 4] == d[4 * i..4 * i + 4];
  }

  lemma {:induction false} WordAt(addr: seq<u32>, n: nat, i: nat)
    requires i < n <= |addr|
    ensures AddrBytes(addr, n)[4 * i..4 * i + 4] == Bytes32(addr[i])
  {
    hide Bytes32;
    if i < n - 1 {
      WordAt(addr, n - 1, i);
      assert AddrBytes(addr, n)[4 * i..4 * i + 4] == AddrBytes(addr, n - 1)[4 * i..4 * i + 4];
    }
  }

  /** The two halves of a u32, added. */
  function Halves(w: u32): nat {
    w % 0x1_0000 + w / 0x1_0000
  }

  lemma Bytes32Sum(w: u32)
    ensures LeSum(Bytes32(w)) == Halves(w) <= 0x1_FFFE
  {
    SumsConcat(Bytes16(w % 0x1_0000), Bytes16(w / 0x1_0000));
  }

  /** The bytes of a word in network order, read back by the host, are its htons(). */
  lemma NetworkWord(w: u16)
    ensures LeSum([w / 0x100, w % 0x100]) == Htons(w)
  {
    assert [w / 0x100, w % 0x100][2..] == [];
  }

  lemma Header4Sum(src: u32, dest: u32, proto: u8, protoLen: u16, bytes: seq<byte>)
    ensures LeSum(PseudoHeader4(src, dest, proto, protoLen) + bytes)
         == Halves(src) + Halves(dest) + LeSum(bytes) + Htons(proto) + Htons(protoLen)
  {
    hide Halves, Htons, LeSum, Load16, Bytes16;
    var lo, hi := [0, proto], [protoLen / 0x100, protoLen % 0x100];
    NetworkWord(proto);
    NetworkWord(protoLen);
    assert lo == [proto / 0x100, proto % 0x100];
    Bytes32Sum(src);
    Bytes32Sum(dest);
    SumsConcat(Bytes32(src), Bytes32(dest));
    SumsConcat(Bytes32(src) + Bytes32(dest), lo);
    SumsConcat(Bytes32(src) + Bytes32(dest) + lo, hi);
    SumsConcat(PseudoHeader4(src, dest, proto, protoLen), bytes);
  }

  /** inet_chksum_pseudo: the checksum of pseudo header and payload taken as one message,
      however the payload is split and wherever its parts lie. */
  method InetChksumPseudo(alg: Algorithm, p: seq<Pbuf>, proto: u8, protoLen: u16, src: u32, dest: u32)
      returns (r: u16)
    requires IsChain(p)
    ensures r == InternetChecksum(PseudoHeader4(src, dest, proto, protoLen) + Flatten(p))
  {
    var acc := AddressSum4(src, dest);
    Header4Checksum(acc, src, dest, proto, protoLen, Flatten(p));
    r := InetCksumPseudoBase(alg, p, proto, protoLen, acc);
  }

  /** inet_chksum_pseudo_partial */
  method InetChksumPseudoPartial(alg: Algorithm, p: seq<Pbuf>, proto: u8, protoLen: u16, chksumLen: u16,
                                 src: u32, dest: u32) returns (r: u16, asserted: bool)
    requires IsChain(p)
    ensures r == InternetChecksum(PseudoHeader4(src, dest, proto, protoLen)
                                  + Prefix(Flatten(p), chksumLen))
    ensures asserted <==> |p| > 0 && chksumLen - |p[0].payload| >= 0x7FFF
  {
    var acc := AddressSum4(src, dest);
    Header4Checksum(acc, src, dest, proto, protoLen, Prefix(Flatten(p), chksumLen));
    r, asserted := InetCksumPseudoPartialBase(alg, p, proto, protoLen, chksumLen, acc);
  }

  /** The address part that both IPv4 entry points compute. */
  method AddressSum4(src: u32, dest: u32) returns (acc: u32)
    ensures acc == Norm(Halves(src) + Halves(dest))
  {
    hide Fold, Norm;
    acc := src % 0x1_0000;
    acc := Add32(acc, src / 0x1_0000);
    acc := Add32(acc, dest % 0x1_0000);
    acc := Add32(acc, dest / 0x1_0000);
    FoldTwice(acc);
    acc := Fold(acc);
    acc := Fold(acc);
  }

  lemma Header4Checksum(acc: u32, src: u32, dest: u32, proto: u8, protoLen: u16, bytes: seq<byte>)
    requires acc == Norm(Halves(src) + Halves(dest))
    ensures PseudoSum(acc, bytes, proto, protoLen)
         == InternetChecksum(PseudoHeader4(src, dest, proto, protoLen) + bytes)
  {
    hide Halves, Htons, LeSum, Norm, InternetSum, PseudoHeader4, SwapBytes, Complement16;
    Header4Sum(src, dest, proto, protoLen, bytes);
    NormAdd(Halves(src) + Halves(dest), LeSum(bytes) + Htons(proto) + Htons(protoLen));
    NormByteOrder(PseudoHeader4(src, dest, proto, protoLen) + bytes);
  }

  // ---- IPv6 ----

  /** The halves of the first n words of an address, added. */
  function AddrHalves(addr: seq<u32>, n: nat): nat
    requires n <= |addr|
  {
    if n == 0 then 0 else AddrHalves(addr, n - 1) + Halves(addr[n - 1])
  }

  lemma EvenConcat(x: seq<byte>, words: nat, y: seq<byte>)
    requires |x| == 2 * words
    ensures LeSum(x + y) == LeSum(x) + LeSum(y)
  {
    SumsConcat(x, y);
  }

  lemma EmptySum()
    ensures LeSum([]) == 0
  {
  }

  lemma {:induction false} AddrBytesSum(addr: seq<u32>, n: nat)
    requires n <= |addr|
    ensures LeSum(AddrBytes(addr, n)) == AddrHalves(addr, n) <= 0x1_FFFE * n
  {
    hide Bytes16, Bytes32, Halves, LeSum, Load16, Load32;
    if n == 0 {
      EmptySum();
    } else {
      AddrBytesSum(addr, n - 1);
      Bytes32Sum(addr[n - 1]);
      EvenConcat(AddrBytes(addr, n - 1), 2 * (n - 1), Bytes32(addr[n - 1]));
    }
  }

  /** The loop over the address words that both IPv6 entry points run. */
  method AddressSum6(src: seq<u32>, dest: seq<u32>) returns (acc: u32)
    requires |src| == 4 && |dest| == 4
    ensures acc == Norm(AddrHalves(src, 4) + AddrHalves(dest, 4))
  {
    acc := 0;
    for part := 0 to 4
      invariant acc == AddrHalves(src, part) + AddrHalves(dest, part) <= 0x3_FFFC * part
    {
      acc := Add32(acc, src[part] % 0x1_0000);
      acc := Add32(acc, src[part] / 0x1_0000);
      acc := Add32(acc, dest[part] % 0x1_0000);
      acc := Add32(acc, dest[part] / 0x1_0000);
    }
    FoldTwice(acc);
    acc := Fold(acc);
    acc := Fold(acc);
  }

  lemma Header6Sum(src: seq<u32>, dest: seq<u32>, proto: u8, protoLen: u16, bytes: seq<byte>)
    requires |src| == 4 && |dest| == 4
    ensures LeSum(PseudoHeader6(src, dest, proto, protoLen) + bytes)
         == AddrHalves(src, 4) + AddrHalves(dest, 4) + LeSum(bytes) + Htons(proto) + Htons(protoLen)
  {
    hide AddrHalves, AddrBytes, Halves, Htons, LeSum, Load16;
    var s, d := AddrBytes(src, 4), AddrBytes(dest, 4);
    var len, next := [protoLen / 0x100, protoLen % 0x100], [proto / 0x100, proto % 0x100];
    ZeroWord();
    NetworkWord(proto);
    NetworkWord(protoLen);
    AddrBytesSum(src, 4);
    AddrBytesSum(dest, 4);
    SumsConcat(s, d);
    SumsConcat(s + d, [0, 0]);
    SumsConcat(s + d + [0, 0], len);
    SumsConcat(s + d + [0, 0] + len, [0, 0]);
    SumsConcat(s + d + [0, 0] + len + [0, 0], next);
    assert PseudoHeader6(src, dest, proto, protoLen) == s + d + [0, 0] + len + [0, 0] + next;
    SumsConcat(PseudoHeader6(src, dest, proto, protoLen), bytes);
  }

  lemma ZeroWord()
    ensures LeSum([0, 0]) == 0
  {
    assert [0, 0][2..] == [];
  }

  lemma Header6Checksum(acc: u32, src: seq<u32>, dest: seq<u32>, proto: u8, protoLen: u16, bytes: seq<byte>)
    requires |src| == 4 && |dest| == 4
    requires acc == Norm(AddrHalves(src, 4) + AddrHalves(dest, 4))
    ensures PseudoSum(acc, bytes, proto, protoLen)
         == InternetChecksum(PseudoHeader6(src, dest, proto, protoLen) + bytes)
  {
    hide AddrHalves, Htons, LeSum, Norm, InternetSum, PseudoHeader6, SwapBytes, Complement16;
    Header6Sum(src, dest, proto, protoLen, bytes);
    NormAdd(AddrHalves(src, 4) + AddrHalves(dest, 4), LeSum(bytes) + Htons(proto) + Htons(protoLen));
    NormByteOrder(PseudoHeader6(src, dest, proto, protoLen) + bytes);
  }

  /** ip6_chksum_pseudo */
  method Ip6ChksumPseudo(alg: Algorithm, p: seq<Pbuf>, proto: u8, protoLen: u16, src: seq<u32>, dest: seq<u32>)
      returns (r: u16)
    requires IsChain(p) && |src| == 4 && |dest| == 4
    ensures r == InternetChecksum(PseudoHeader6(src, dest, proto, protoLen) + Flatten(p))
  {
    var acc := AddressSum6(src, dest);
    Header6Checksum(acc, src, dest, proto, protoLen, Flatten(p));
    r := InetCksumPseudoBase(alg, p, proto, protoLen, acc);
  }

  /** ip6_chksum_pseudo_partial */
  method Ip6ChksumPseudoPartial(alg: Algorithm, p: seq<Pbuf>, proto: u8, protoLen: u16, chksumLen: u16,
                                src: seq<u32>, dest: seq<u32>) returns (r: u16, asserted: bool)
    requires IsChain(p) && |src| == 4 && |dest| == 4
    ensures r == InternetChecksum(PseudoHeader6(src, dest, proto, protoLen)
                                  + Prefix(Flatten(p), chksumLen))
    ensures asserted <==> |p| > 0 && chksumLen - |p[0].payload| >= 0x7FFF
  {
    var acc := AddressSum6(src, dest);
    Header6Checksum(acc, src, dest, proto, protoLen, Prefix(Flatten(p), chksumLen));
    r, asserted := InetCksumPseudoPartialBase(alg, p, proto, protoLen, chksumLen, acc);
  }
}
