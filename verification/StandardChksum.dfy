/** The three versions of lwip_standard_chksum. A buffer is its bytes together with the
    address of the first one, of which only the alignment matters. */
module StandardChksum {
  import opened Words
  import opened OnesComplement

  /** LWIP_CHKSUM_ALGORITHM */
  datatype Algorithm = Bytewise | Halfwords | UnrolledWords

  /** The longest buffer whose words, however they are aligned and whatever they hold,
      add up without leaving a u32. */
  const MAX_EXACT_LEN := 0x2_0002

  /** What version 2 has in its accumulator before folding. */
  function Accumulated(data: seq<byte>, odd: bool): nat {
    if odd then BeSum(data) else LeSum(data)
  }

  /** The start of versions 2 and 3: the byte at an odd address is set apart. */
  lemma OddStart(data: seq<byte>, odd: bool)
    ensures Accumulated(data, odd) <= 0xFFFF * ((|data| + 1) / 2)
    ensures !odd || |data| == 0 ==> Accumulated(data, odd) == LeSum(data[0..])
    ensures odd && |data| > 0 ==>
      && Accumulated(data, odd) == PutHigh(0, data[0]) as int + LeSum(data[1..])
      && PutHigh(0, data[0]) == 0x100 * (data[0] as int)
  {
    SumBound(data);
    assert data[0..] == data;
    if |data| > 0 {
      ShiftByOne(data);
    }
  }

  /** The end of version 1: the second fold is skipped when the first left no carry. */
  lemma FoldedBytes(acc: u32, data: seq<byte>)
    requires acc == BeSum(data)
    ensures (if Fold(acc) / 0x1_0000 != 0 then Fold(Fold(acc)) else Fold(acc)) == InternetSum(data)
  {
    FoldTwice(acc);
    NormByteOrder(data);
  }

  /** The end of versions 2 and 3: two folds, and a swap if the start was odd. */
  lemma FoldedWords(sum: u32, m: int, data: seq<byte>, odd: bool)
    requires Accumulated(data, odd) == sum + 0xFFFF * m
    requires sum == 0 <==> Accumulated(data, odd) == 0
    ensures (if odd then SwapBytes(Fold(Fold(sum))) else Fold(Fold(sum))) == Htons(InternetSum(data))
  {
    NormShifted(Accumulated(data, odd), sum, m);
    FoldTwice(sum);
    NormByteOrder(data);
  }

  /** Version 1: assembles big-endian words byte by byte. */
  method Chksum1(data: seq<byte>) returns (r: u16)
    requires |data| <= MAX_EXACT_LEN
    ensures r == Htons(InternetSum(data))
  {
    SumBound(data);
    var acc: u32 := 0;
    var octet, len := 0, |data|;
    while len > 1
      invariant len >= 0 && octet + len == |data|
      invariant acc + BeSum(data[octet..]) == BeSum(data)
    {
      assert data[octet..][2..] == data[octet + 2..];
      var src: u16 := BeWord(data[octet], 0);
      octet := octet + 1;
      src := src + data[octet];
      octet := octet + 1;
      acc := Add32(acc, src);
      len := len - 2;
    }
    if len > 0 {
      acc := Add32(acc, BeWord(data[octet], 0));
    }
    FoldedBytes(acc, data);
    acc := Fold(acc);
    if acc / 0x1_0000 != 0 {
      acc := Fold(acc);
    }
    return Htons(Low16(acc));
  }

  /** The halfword loop that versions 2 and 3 share. */
  method AddHalfwords(data: seq<byte>, from: nat, length: nat, acc: u32)
      returns (sum: u32, pb: nat, len: nat)
    requires from + length == |data|
    requires acc as int + LeSum(data[from..]) < 0x1_0000_0000
    ensures pb + len == |data| && len == length % 2
    ensures sum as int + LeSum(data[pb..]) == acc as int + LeSum(data[from..])
  {
    sum, pb, len := acc, from, length;
    while len > 1
      invariant pb + len == |data| && len % 2 == length % 2
      invariant sum as int + LeSum(data[pb..]) == acc as int + LeSum(data[from..])
    {
      assert data[pb..][2..] == data[pb + 2..];
      sum := Add32(sum, Load16(data[pb], data[pb + 1]));
      pb := pb + 2;
      len := len - 2;
    }
  }

  /** The dangling byte that versions 2 and 3 may have left. */
  method AddTail(data: seq<byte>, pb: nat, len: nat, t: u16, ghost high: byte) returns (t': u16)
    requires len <= 1 && pb + len == |data| && t == 0x100 * (high as int)
    ensures t' == t as int + LeSum(data[pb..])
  {
    t' := t;
    if len > 0 {
      t' := PutLow(t, data[pb]);
    }
  }

  /** Version 2: adds host-order halfwords; a buffer at an odd address is summed as if it
      started one byte earlier, and the sum is swapped at the end. */
  method Chksum2(data: seq<byte>, start: nat) returns (r: u16)
    requires |data| <= MAX_EXACT_LEN
    ensures r == Htons(InternetSum(data))
  {
    hide Accumulated, BeSum, Fold, Htons, InternetSum, Low16, PutHigh, SwapBytes;
    var pb, len := 0, |data|;
    var t: u16, sum: u32 := 0, 0;
    var odd := start % 2 == 1;
    OddStart(data, odd);
    ghost var high: byte := if odd && len > 0 then data[0] else 0;
    if odd && len > 0 {
      t := PutHigh(t, data[pb]);
      pb := pb + 1;
      len := len - 1;
    }
    sum, pb, len := AddHalfwords(data, pb, len, sum);
    t := AddTail(data, pb, len, t, high);
    sum := Add32(sum, t);
    FoldedWords(sum, 0, data, odd);
    sum := Fold(sum);
    sum := Fold(sum);
    if odd {
      sum := SwapBytes(sum);
    }
    return Low16(sum);
  }

  /** The addition of version 3's inner loop: a carry out of the u32 is added back in. */
  function CarryAdd(sum: u32, w: u32): u32 {
    var tmp := Add32(sum, w);
    if tmp < sum then Add32(tmp, 1) else tmp
  }

  /** A carry out of 32 bits is worth 1, because 2^32 - 1 is a multiple of 65535. */
  lemma CarryAddValue(sum: u32, w: u32) returns (c: nat)
    ensures CarryAdd(sum, w) as int + 0xFFFF * c == sum as int + w
    ensures CarryAdd(sum, w) == 0 <==> sum == 0 && w == 0
  {
    c := if sum as int + w < 0x1_0000_0000 then 0 else 0x1_0001;
  }

  /** A 32-bit load stands for the two 16-bit words it holds: after it, the sum of all
      words differs by a multiple of 65535 from the sum before. */
  lemma WordPair(sum: u32, d: seq<byte>) returns (k: int)
    requires |d| >= 4
    ensures var tmp := CarryAdd(sum, Load32(d[0], d[1], d[2], d[3]));
      && tmp as int + LeSum(d[4..]) + 0xFFFF * k == sum as int + LeSum(d)
      && (tmp as int + LeSum(d[4..]) == 0 <==> sum as int + LeSum(d) == 0)
  {
    assert d[2..][2..] == d[4..];
    var w := Load32(d[0], d[1], d[2], d[3]);
    k := CarryAddValue(sum, w);
    k := k - Load16(d[2], d[3]);
  }

  /** The unrolled loop of version 3. */
  method AddWords(data: seq<byte>, from: nat, length: nat, acc: u32)
      returns (sum: u32, pb: nat, len: nat, ghost m: int)
    requires from + length == |data|
    ensures pb + len == |data| && len < 8
    ensures sum as int + LeSum(data[pb..]) + 0xFFFF * m == acc as int + LeSum(data[from..])
    ensures sum as int + LeSum(data[pb..]) == 0 <==> acc as int + LeSum(data[from..]) == 0
  {
    hide LeSum, Load16, Load32;
    sum, pb, len, m := acc, from, length, 0;
    while len > 7
      invariant pb + len == |data|
      invariant sum as int + LeSum(data[pb..]) + 0xFFFF * m == acc as int + LeSum(data[from..])
      invariant sum as int + LeSum(data[pb..]) == 0 <==> acc as int + LeSum(data[from..]) == 0
    {
      ghost var k := WordPair(sum, data[pb..]);
      assert data[pb..][4..] == data[pb + 4..];
      var tmp := Add32(sum, Load32(data[pb], data[pb + 1], data[pb + 2], data[pb + 3])); // ping
      if tmp < sum {
        tmp := Add32(tmp, 1);
      }
      pb := pb + 4;
      ghost var k' := WordPair(tmp, data[pb..]);
      assert data[pb..][4..] == data[pb + 4..];
      sum := Add32(tmp, Load32(data[pb], data[pb + 1], data[pb + 2], data[pb + 3])); // pong
      if sum < tmp {
        sum := Add32(sum, 1);
      }
      pb := pb + 4;
      len := len - 8;
      m := m + k + k';
    }
  }

  /** Version 3: two 32-bit loads a turn, with end-around carries. */
  method Chksum3(data: seq<byte>, start: nat) returns (r: u16)
    ensures r == Htons(InternetSum(data))
  {
    hide Accumulated, BeSum, Fold, Htons, InternetSum, Low16, PutHigh, SwapBytes;
    var pb, len := 0, |data|;
    var t: u16, sum: u32 := 0, 0;
    var odd := start % 2 == 1;
    OddStart(data, odd);
    ghost var high: byte := if odd && len > 0 then data[0] else 0;
    if odd && len > 0 {
      t := PutHigh(t, data[pb]);
      pb := pb + 1;
      len := len - 1;
    }
    if (start + pb) % 4 != 0 && len > 1 {
      assert data[pb..][2..] == data[pb + 2..];
      sum := Add32(sum, Load16(data[pb], data[pb + 1]));
      pb := pb + 2;
      len := len - 2;
    }
    ghost var m;
    sum, pb, len, m := AddWords(data, pb, len, sum);
    ghost var q := FoldValue(sum);
    m := m + q;
    sum := Fold(sum);
    SumBound(data[pb..]);
    sum, pb, len := AddHalfwords(data, pb, len, sum);
    t := AddTail(data, pb, len, t, high);
    sum := Add32(sum, t);
    FoldedWords(sum, m, data, odd);
    sum := Fold(sum);
    sum := Fold(sum);
    if odd {
      sum := SwapBytes(sum);
    }
    return Low16(sum);
  }

  /** LWIP_CHKSUM, for every choice of algorithm: one specification, bit for bit. */
  method Chksum(alg: Algorithm, data: seq<byte>, start: nat) returns (r: u16)
    requires |data| <= MAX_EXACT_LEN
    ensures r == Htons(InternetSum(data))
  {
    match alg
    case Bytewise => r := Chksum1(data);
    case Halfwords => r := Chksum2(data, start);
    case UnrolledWords => r := Chksum3(data, start);
  }

  // ---- How far the 32-bit accumulator of versions 1 and 2 reaches ----

  lemma {:induction false} AllOnesSum(d: seq<byte>)
    requires forall i | 0 <= i < |d| :: d[i] == 0xFF
    ensures BeSum(d) >= 0xFFFF * (|d| / 2) && LeSum(d) >= 0xFFFF * (|d| / 2)
    ensures |d| % 2 == 1 ==> BeSum(d) > 0xFFFF * (|d| / 2) && LeSum(d) > 0xFFFF * (|d| / 2)
  {
    if |d| > 1 {
      AllOnesSum(d[2..]);
    }
  }

  /** The accumulator never wraps on buffers of n bytes exactly when n is at most
      MAX_EXACT_LEN, at either alignment; the source promises 0x20000. */
  lemma AccumulatorReach(n: nat, odd: bool)
    ensures (forall d: seq<byte> | |d| == n :: Accumulated(d, odd) < 0x1_0000_0000)
       <==> n <= MAX_EXACT_LEN
  {
    if n <= MAX_EXACT_LEN {
      forall d: seq<byte> | |d| == n ensures Accumulated(d, odd) < 0x1_0000_0000 {
        SumBound(d);
      }
    } else {
      var d: seq<byte> := seq(n, _ => 0xFF);
      AllOnesSum(d);
      assert |d| == n && Accumulated(d, odd) >= 0x1_0000_0000;
    }
  }
}
