/** Domain names in DNS messages: the encoder of dns_send and the two walkers dns_compare_name and
    dns_skip_name. A packet is its bytes, at most 65535 of them; a host name in memory is a function
    from positions to bytes, since the comparison may read past its terminator. */
module DnsName {
  import opened Words
  import opened CStrings

  const DOT: byte := 46
  const FAIL: u16 := 0xFFFF

  /** pbuf_try_get_at */
  function TryGetAt(p: seq<byte>, offset: nat): int {
    if offset < |p| then p[offset] else -1
  }

  // ---- Encoding (RFC 1035, section 3.1) ----

  /** Where the label starting at i ends: at a dot or at the end of the name. */
  function LabelEnd(name: seq<byte>, i: nat): (j: nat)
    requires i <= |name|
    ensures i <= j <= |name|
    decreases |name| - i
  {
    if i == |name| || name[i] == DOT then i else LabelEnd(name, i + 1)
  }

  /** The labels from position i on, each after its length, and the final zero. */
  function Encode(name: seq<byte>, i: nat): (e: seq<byte>)
    requires i <= |name| <= 255
    ensures |e| == |name| - i + 2
    decreases |name| - i
  {
    var j := LabelEnd(name, i);
    [j - i] + name[i..j] + if j == |name| then [0] else Encode(name, j + 1)
  }

  /** From position i on, this many characters make up a label: no dot is among them, and a dot or the end follows. */
  ghost predicate IsLabel(name: seq<byte>, i: nat, n: nat) {
    && i + n <= |name| && (forall k | i <= k < i + n :: name[k] != DOT)
    && (i + n < |name| ==> name[i + n] == DOT)
  }

  /** The bytes of an encoded name, one by one: each character stands one place behind its own; each dot is replaced by
      the length of the label behind it, the first length stands in front, and a zero at the end. */
  lemma {:induction false} EncodedBytes(name: seq<byte>, i: nat, k: nat)
    requires i <= k <= |name| <= 255
    ensures Encode(name, i)[|name| - i + 1] == 0
    ensures k == i || name[k - 1] == DOT ==> IsLabel(name, k, Encode(name, i)[k - i] as int)
    ensures k < |name| && name[k] != DOT ==> Encode(name, i)[k - i + 1] == name[k]
    decreases |name| - i
  {
    hide LabelEnd, Encode, IsLabel;
    var j := LabelEnd(name, i);
    LabelStops(name, i);
    NoDots(name, i, j);
    var tail := if j == |name| then [0] else Encode(name, j + 1);
    Unfolded(name, i, j, tail);
    var front := [j - i] + name[i..j];
    if j < |name| {
      EncodedBytes(name, j + 1, if k > j then k else j + 1);
      Behind(front, tail, |name| - j);
    }
    if k > j {
      Behind(front, tail, k - (j + 1));
      if k < |name| {
        Behind(front, tail, k - j);
      }
    } else if k < j {
      assert front[k - i + 1] == name[k];
    }
  }

  lemma Behind(a: seq<byte>, b: seq<byte>, n: nat)
    requires n < |b|
    ensures (a + b)[|a| + n] == b[n]
  {
  }

  lemma NoDots(name: seq<byte>, i: nat, j: nat)
    requires i <= j <= |name| && IsLabel(name, i, j - i)
    ensures (forall k | i <= k < j :: name[k] != DOT) && (j < |name| ==> name[j] == DOT)
  {
  }

  /** For instance "ab.c". */
  lemma EncodeExample()
    ensures Encode([0x61, 0x62, 0x2E, 0x63], 0) == [2, 0x61, 0x62, 1, 0x63, 0]
  {
    var name: seq<byte> := [0x61, 0x62, 0x2E, 0x63];
    assert LabelEnd(name, 2) == 2 && LabelEnd(name, 1) == 2 && LabelEnd(name, 0) == 2;
    assert LabelEnd(name, 4) == 4 && LabelEnd(name, 3) == 4;
    assert Encode(name, 3) == [1, 0x63, 0];
  }

  lemma {:induction false} LabelStops(name: seq<byte>, i: nat)
    requires i <= |name|
    ensures IsLabel(name, i, LabelEnd(name, i) - i)
    decreases |name| - i
  {
    if i < |name| && name[i] != DOT {
      LabelStops(name, i + 1);
    }
  }

  /** A buffer after some bytes have been put into it. */
  function PutAt(p: seq<byte>, at: nat, part: seq<byte>): (p': seq<byte>)
    requires at + |part| <= |p|
    ensures |p'| == |p|
  {
    p[..at] + part + p[at + |part|..]
  }

  lemma PutBehind(p: seq<byte>, at: nat, done: seq<byte>, part: seq<byte>)
    requires at + |done| + |part| <= |p|
    ensures PutAt(PutAt(p, at, done), at + |done|, part) == PutAt(p, at, done + part)
  {
  }

  lemma PutNothing(p: seq<byte>, at: nat)
    requires at <= |p|
    ensures PutAt(p, at, []) == p
  {
  }

  /** pbuf_put_at of the length and pbuf_take_at of the characters of one label. */
  method PutLabel(p: array<byte>, at: nat, text: seq<byte>)
    requires |text| <= 255 && at + |text| + 1 <= p.Length
    modifies p
    ensures p[..] == PutAt(old(p[..]), at, [|text|] + text)
  {
    p[at] := |text|;
    forall k | 0 <= k < |text| {
      p[at + 1 + k] := text[k];
    }
  }

  /** The loop of dns_send that measures a label. */
  method ScanLabel(name: seq<byte>, part: nat) returns (hostname: nat, n: nat)
    requires part <= |name|
    ensures hostname == LabelEnd(name, part) && n == hostname - part
  {
    hostname, n := part, 0;
    while hostname < |name| && name[hostname] != DOT
      invariant part <= hostname <= |name| && n == hostname - part
      invariant LabelEnd(name, part) == LabelEnd(name, hostname)
    {
      n := n + 1;
      hostname := hostname + 1;
    }
  }

  lemma Unfolded(name: seq<byte>, i: nat, j: nat, tail: seq<byte>)
    requires i <= |name| <= 255 && j == LabelEnd(name, i)
    requires tail == if j == |name| then [0] else Encode(name, j + 1)
    ensures Encode(name, i) == ([j - i] + name[i..j]) + tail
  {
    hide LabelEnd;
  }

  lemma EncodeStep(name: seq<byte>, i: nat, done: seq<byte>)
    requires i <= |name| <= 255
    ensures var j := LabelEnd(name, i);
      done + Encode(name, i) == done + ([j - i] + name[i..j]) + if j == |name| then [0] else Encode(name, j + 1)
  {
    hide LabelEnd, Encode;
    var j := LabelEnd(name, i);
    Unfolded(name, i, j, if j == |name| then [0] else Encode(name, j + 1));
  }

  /** The loop of dns_send that writes the host name; it fills exactly the strlen + 2 bytes that
      were allocated for it. */
  method PutName(p: array<byte>, start: nat, name: seq<byte>) returns (queryIdx: nat)
    requires |name| <= 255 && start + |name| + 2 <= p.Length <= 0xFFFF
    modifies p
    ensures queryIdx == start + |name| + 2
    ensures p[..] == PutAt(old(p[..]), start, Encode(name, 0))
  {
    hide Encode, LabelEnd, PutAt;
    queryIdx := start;
    var hostname := 0;
    ghost var whole, done: seq<byte> := p[..], [];
    PutNothing(whole, start);
    assert done + Encode(name, 0) == Encode(name, 0);
    while true
      invariant hostname <= |name| && |done| == hostname && queryIdx == start + hostname
      invariant done + Encode(name, hostname) == Encode(name, 0)
      invariant p[..] == PutAt(whole, start, done)
      decreases |name| - hostname
    {
      var part := hostname;
      var n;
      EncodeStep(name, part, done);
      hostname, n := ScanLabel(name, part);
      PutBehind(whole, start, done, [n] + name[part..hostname]);
      PutLabel(p, queryIdx, name[part..hostname]);
      queryIdx := queryIdx + n + 1;
      done := done + ([n] + name[part..hostname]);
      if hostname == |name| {
        break;
      }
      hostname := hostname + 1;
    }
    PutBehind(whole, start, done, [0]);
    assert [0] + [] == [0];
    PutLabel(p, queryIdx, []);
    queryIdx := queryIdx + 1;
  }

  // ---- Walking (RFC 1035, section 4.1.4) ----

  /** The offset behind an uncompressed name, or FAIL if there is no such name within the packet. */
  function NameEnd(p: seq<byte>, offset: nat): u16
    requires |p| <= 0xFFFF
    decreases |p| - offset
  {
    if offset >= |p| || p[offset] >= 0xC0 then FAIL
    else
      var next := offset + 1 + p[offset] as int;
      if next >= |p| then FAIL
      else if p[next] == 0 then next + 1
      else NameEnd(p, next)
  }

  /** The n bytes at an offset are, without regard to case, the characters of the query from q on. */
  ghost predicate SameText(query: nat -> byte, q: nat, p: seq<byte>, offset: nat, n: nat)
    decreases n
  {
    n == 0 ||
    (offset < |p| && ToLower(query(q)) == ToLower(p[offset]) && SameText(query, q + 1, p, offset + 1, n - 1))
  }

  /** The name at an offset is uncompressed, within the packet, and its labels are, without regard to
      case, the characters of the query from position q on, with one character skipped after each. */
  ghost predicate Accepts(query: nat -> byte, q: nat, p: seq<byte>, offset: nat)
    decreases |p| - offset
  {
    && offset < |p| && p[offset] < 0xC0
    && var n := p[offset] as int;
       var next := offset + 1 + n;
       && next < |p|
       && SameText(query, q, p, offset + 1, n)
       && (p[next] == 0 || Accepts(query, q + n + 1, p, next))
  }

  lemma SameTextFits(query: nat -> byte, q: nat, p: seq<byte>, offset: nat, n: nat)
    requires n > 0 && SameText(query, q, p, offset, n)
    ensures offset + n <= |p|
    decreases n
  {
    if n > 1 {
      SameTextFits(query, q + 1, p, offset + 1, n - 1);
    }
  }

  /** One label of dns_compare_name, from its first character on. */
  method CompareLabel(query: nat -> byte, start: nat, p: seq<byte>, startOffset: nat, length: nat)
      returns (ok: bool, q: nat, responseOffset: nat)
    requires startOffset <= |p| <= 0xFFFF
    ensures ok == SameText(query, start, p, startOffset, length)
    ensures ok ==> q == start + length && responseOffset == startOffset + length <= |p|
  {
    var n := length;
    q, responseOffset := start, startOffset;
    while n > 0
      invariant 0 <= n <= length && responseOffset == startOffset + length - n <= |p| && q == start + length - n
      invariant SameText(query, start, p, startOffset, length) == SameText(query, q, p, responseOffset, n)
    {
      var c := TryGetAt(p, responseOffset);
      if c < 0 {
        return false, q, responseOffset;
      }
      if ToLower(query(q)) != ToLower(c) {
        return false, q, responseOffset;
      }
      if responseOffset == 0xFFFF {
        return false, q, responseOffset;
      }
      responseOffset := responseOffset + 1;
      q := q + 1;
      n := n - 1;
    }
    ok := true;
  }

  /** dns_compare_name */
  method DnsCompareName(query: nat -> byte, p: seq<byte>, startOffset: u16) returns (r: u16)
    requires |p| <= 0xFFFF
    ensures r == if Accepts(query, 0, p, startOffset) then NameEnd(p, startOffset) else FAIL
  {
    hide SameText;
    var responseOffset: nat := startOffset;
    var q := 0;
    while true
      invariant responseOffset <= 0xFFFF
      invariant Accepts(query, 0, p, startOffset) <==> Accepts(query, q, p, responseOffset)
      invariant Accepts(query, q, p, responseOffset) ==> NameEnd(p, startOffset) == NameEnd(p, responseOffset)
      decreases |p| - responseOffset
    {
      var n := TryGetAt(p, responseOffset);
      if n < 0 || responseOffset == 0xFFFF {
        return FAIL;
      }
      responseOffset := responseOffset + 1;
      if n >= 0xC0 {
        return FAIL;
      }
      var ok;
      ok, q, responseOffset := CompareLabel(query, q, p, responseOffset, n);
      if !ok {
        return FAIL;
      }
      q := q + 1;
      n := TryGetAt(p, responseOffset);
      if n < 0 {
        return FAIL;
      }
      if n == 0 {
        break;
      }
    }
    if responseOffset == 0xFFFF {
      return FAIL;
    }
    return responseOffset + 1;
  }

  /** The offset behind a name that may end in a compression pointer, or FAIL. */
  function SkipEnd(p: seq<byte>, offset: nat): u16
    requires |p| <= 0xFFFF
    decreases |p| - offset
  {
    if offset >= |p| then FAIL
    else if p[offset] >= 0xC0 then if offset + 2 > 0xFFFF then FAIL else offset + 2
    else
      var next := offset + 1 + p[offset] as int;
      if next >= |p| then FAIL
      else if p[next] == 0 then next + 1
      else SkipEnd(p, next)
  }

  /** dns_skip_name; its u16 offset wraps at the first increment only beyond the packet. */
  method DnsSkipName(p: seq<byte>, queryIdx: u16) returns (r: u16)
    requires |p| <= 0xFFFF
    ensures r == SkipEnd(p, queryIdx)
  {
    var offset: u16 := queryIdx;
    while true
      invariant SkipEnd(p, queryIdx) == SkipEnd(p, offset)
      decreases |p| - offset
    {
      var n := TryGetAt(p, offset);
      offset := if offset == 0xFFFF then 0 else offset + 1;
      if n < 0 || offset == 0 {
        return FAIL;
      }
      if n >= 0xC0 {
        break;
      }
      if offset + n >= |p| {
        return FAIL;
      }
      offset := offset + n;
      n := TryGetAt(p, offset);
      if n < 0 {
        return FAIL;
      }
      if n == 0 {
        break;
      }
    }
    if offset == 0xFFFF {
      return FAIL;
    }
    return offset + 1;
  }

  /** Whenever the comparison accepts a name, skipping it leads to the same place. */
  lemma {:induction false} AcceptedIsSkipped(query: nat -> byte, q: nat, p: seq<byte>, offset: nat)
    requires |p| <= 0xFFFF && Accepts(query, q, p, offset)
    ensures offset < SkipEnd(p, offset) == NameEnd(p, offset) <= |p|
    decreases |p| - offset
  {
    var n := p[offset] as int;
    if p[offset + 1 + n] != 0 {
      AcceptedIsSkipped(query, q + n + 1, p, offset + 1 + n);
    }
  }

  // ---- Encoded names read back ----

  /** The name in memory, as the comparison reads it. */
  ghost predicate Holds(query: nat -> byte, name: seq<byte>) {
    forall i | 0 <= i < |name| :: query(i) == name[i]
  }

  /** No label from i on looks like a compression pointer, and only the very first may be empty. */
  predicate Readable(name: seq<byte>, i: nat)
    requires i <= |name|
    decreases |name| - i
  {
    var j := LabelEnd(name, i);
    && j - i < 0xC0 && (i == 0 || i < j)
    && (j == |name| || Readable(name, j + 1))
  }

  ghost predicate PartAt(p: seq<byte>, offset: nat, part: seq<byte>) {
    offset + |part| <= |p| && p[offset..offset + |part|] == part
  }

  lemma PartsAt(p: seq<byte>, offset: nat, a: seq<byte>, b: seq<byte>)
    requires PartAt(p, offset, a + b)
    ensures PartAt(p, offset, a) && PartAt(p, offset + |a|, b)
  {
    assert (a + b)[..|a|] == a && (a + b)[|a|..] == b;
  }

  lemma ByteAt(p: seq<byte>, offset: nat, b: byte)
    requires PartAt(p, offset, [b])
    ensures p[offset] == b
  {
    assert p[offset] == p[offset..offset + 1][0];
  }

  lemma Fits(p: seq<byte>, offset: nat, part: seq<byte>)
    requires PartAt(p, offset, part)
    ensures offset + |part| <= |p|
  {
  }

  lemma FirstByte(p: seq<byte>, offset: nat, name: seq<byte>, i: nat)
    requires i <= |name| <= 255 && PartAt(p, offset, Encode(name, i))
    ensures offset < |p| && p[offset] == LabelEnd(name, i) - i
  {
    hide LabelEnd;
    var e := Encode(name, i);
    assert e[0] == p[offset..offset + |e|][0];
  }

  /** What the first label of an encoded name puts into a packet. */
  lemma LabelAt(p: seq<byte>, offset: nat, name: seq<byte>, i: nat, j: nat, next: nat)
    requires i <= |name| <= 255 && PartAt(p, offset, Encode(name, i))
    requires j == LabelEnd(name, i) && next == offset + 1 + (j - i)
    ensures offset < next < |p| && p[offset] == j - i
    ensures PartAt(p, offset + 1, name[i..j])
    ensures j == |name| ==> p[next] == 0
    ensures j < |name| ==> PartAt(p, next, Encode(name, j + 1)) && p[next] == LabelEnd(name, j + 1) - (j + 1)
  {
    hide PartAt, LabelEnd, Encode;
    var tail := if j == |name| then [0] else Encode(name, j + 1);
    FirstByte(p, offset, name, i);
    Unfolded(name, i, j, tail);
    PartsAt(p, offset, [j - i] + name[i..j], tail);
    PartsAt(p, offset, [j - i], name[i..j]);
    Fits(p, next, tail);
    if j < |name| {
      FirstByte(p, next, name, j + 1);
    } else {
      ByteAt(p, next, 0);
    }
  }

  lemma TextAt(query: nat -> byte, name: seq<byte>, i: nat, j: nat, p: seq<byte>, offset: nat)
    requires Holds(query, name) && i <= j <= |name| && PartAt(p, offset, name[i..j])
    ensures SameText(query, i, p, offset, j - i)
    decreases j - i
  {
    if i < j {
      assert name[i..j] == [name[i]] + name[i + 1..j];
      PartsAt(p, offset, [name[i]], name[i + 1..j]);
      ByteAt(p, offset, name[i]);
      TextAt(query, name, i + 1, j, p, offset + 1);
    }
  }

  /** An encoded name is found equal to itself, up to its end, exactly when it is readable; otherwise
      the comparison fails or stops before the end. */
  lemma {:induction false} ReadBack(query: nat -> byte, name: seq<byte>, i: nat, p: seq<byte>, offset: nat)
    requires Holds(query, name) && |p| <= 0xFFFF
    requires i <= |name| <= 255 && PartAt(p, offset, Encode(name, i))
    requires i == 0 || i < LabelEnd(name, i)
    ensures Readable(name, i) ==> Accepts(query, i, p, offset) && NameEnd(p, offset) == offset + (|name| - i) + 2
    ensures !Readable(name, i) && Accepts(query, i, p, offset) ==> NameEnd(p, offset) < offset + (|name| - i) + 2
    decreases |name| - i
  {
    hide SameText, Encode, LabelEnd, PartAt;
    var j := LabelEnd(name, i);
    var next := offset + 1 + (j - i);
    LabelAt(p, offset, name, i, j, next);
    TextAt(query, name, i, j, p, offset + 1);
    if j < |name| && p[next] > 0 {
      ReadBack(query, name, j + 1, p, next);
    } else if j < |name| {
      assert !Readable(name, j + 1);
    }
  }

  /** dns_compare_name on the name that dns_send wrote: the offset just behind it, exactly when no
      label looks like a pointer and only the first may be empty. */
  lemma EncodedNameCompares(query: nat -> byte, name: seq<byte>, p: seq<byte>, offset: nat)
    requires Holds(query, name) && |name| <= 255 && |p| <= 0xFFFF && PartAt(p, offset, Encode(name, 0))
    requires offset + |name| + 2 != FAIL
    ensures (if Accepts(query, 0, p, offset) then NameEnd(p, offset) else FAIL) == offset + |name| + 2 <==>
            Readable(name, 0)
  {
    hide SameText, Encode, Accepts, NameEnd, Readable, LabelEnd;
    ReadBack(query, name, 0, p, offset);
  }

  // ---- Other names ----

  /** The characters of a name, dots apart, stand in the query at the same places, without regard to case. */
  ghost predicate Matches(query: nat -> byte, other: seq<byte>, i: nat) {
    forall k | i <= k < |other| && other[k] != DOT :: ToLower(query(k)) == ToLower(other[k])
  }

  lemma {:induction false} TextMatches(query: nat -> byte, other: seq<byte>, i: nat, j: nat, p: seq<byte>, offset: nat)
    requires i <= j <= |other| && PartAt(p, offset, other[i..j])
    ensures SameText(query, i, p, offset, j - i) <==> forall k | i <= k < j :: ToLower(query(k)) == ToLower(other[k])
    decreases j - i
  {
    if i < j {
      assert other[i..j] == [other[i]] + other[i + 1..j];
      PartsAt(p, offset, [other[i]], other[i + 1..j]);
      ByteAt(p, offset, other[i]);
      TextMatches(query, other, i + 1, j, p, offset + 1);
    }
  }

  lemma {:induction false} NoDotBefore(name: seq<byte>, i: nat)
    requires i <= |name|
    ensures var j := LabelEnd(name, i);
      && (forall k | i <= k < j :: name[k] != DOT) && (j < |name| ==> name[j] == DOT)
    decreases |name| - i
  {
    if i < |name| && name[i] != DOT {
      NoDotBefore(name, i + 1);
    }
  }

  lemma MatchesLabel(query: nat -> byte, other: seq<byte>, i: nat, j: nat)
    requires i <= |other| && j == LabelEnd(other, i)
    ensures Matches(query, other, i) <==>
      (forall k | i <= k < j :: ToLower(query(k)) == ToLower(other[k])) && (j < |other| ==> Matches(query, other, j + 1))
  {
    hide LabelEnd, ToLower;
    NoDotBefore(other, i);
    if (forall k | i <= k < j :: ToLower(query(k)) == ToLower(other[k])) && (j < |other| ==> Matches(query, other, j + 1)) {
      forall k | i <= k < |other| && other[k] != DOT ensures ToLower(query(k)) == ToLower(other[k]) {
        if k >= j {
          assert k >= j + 1;
        }
      }
    }
  }

  /** Any encoded name, the query's or another one: it is accepted, up to its end, exactly when its characters are
      those of the query. */
  lemma {:induction false} OtherNameCompares(query: nat -> byte, other: seq<byte>, i: nat, p: seq<byte>, offset: nat)
    requires |p| <= 0xFFFF && i <= |other| <= 255 && PartAt(p, offset, Encode(other, i)) && Readable(other, i)
    ensures Accepts(query, i, p, offset) <==> Matches(query, other, i)
    ensures NameEnd(p, offset) == offset + (|other| - i) + 2
    decreases |other| - i
  {
    hide SameText, Encode, LabelEnd, PartAt, Matches, ToLower;
    var j := LabelEnd(other, i);
    var next := offset + 1 + (j - i);
    LabelAt(p, offset, other, i, j, next);
    TextMatches(query, other, i, j, p, offset + 1);
    MatchesLabel(query, other, i, j);
    if j < |other| {
      OtherNameCompares(query, other, j + 1, p, next);
    }
  }
}
