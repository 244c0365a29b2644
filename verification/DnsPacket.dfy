/** DNS messages: the query that dns_send builds, and how dns_recv judges a reply
    (RFC 1035, section 4.1). */
module DnsPacket {
  import opened Words
  import opened DnsName
  import opened CStrings
  import OnesComplement

  const SIZEOF_DNS_HDR := 12
  const SIZEOF_DNS_QUERY := 4
  const SIZEOF_DNS_ANSWER := 10
  const DNS_RRTYPE_A: u16 := 1
  const DNS_RRCLASS_IN: u16 := 1
  const DNS_FLAG1_RESPONSE: byte := 0x80
  const DNS_FLAG1_RD: byte := 0x01

  // ---- Numbers in network byte order ----

  function Be16(p: seq<byte>, k: nat): u16
    requires k + 2 <= |p|
  {
    0x100 * (p[k] as int) + p[k + 1]
  }

  function Be32(p: seq<byte>, k: nat): u32
    requires k + 4 <= |p|
  {
    0x1_0000 * (Be16(p, k) as int) + Be16(p, k + 2)
  }

  function Net16(w: u16): (bs: seq<byte>)
    ensures |bs| == 2 && Be16(bs, 0) == w
  {
    [w / 0x100, w % 0x100]
  }

  function Net32(w: u32): (bs: seq<byte>)
    ensures |bs| == 4 && Be32(bs, 0) == w
  {
    Net16(w / 0x1_0000) + Net16(w % 0x1_0000)
  }

  /** lwip_ntohl on a little-endian host. */
  function Ntohl(n: u32): u32 {
    0x1_0000 * (SwapBytes(n % 0x1_0000) as int) + SwapBytes(n / 0x1_0000)
  }

  lemma SwappedPair(a: byte, b: byte)
    ensures SwapBytes(Load16(a, b)) == 0x100 * (a as int) + b
  {
    assert Load16(a, b) % 0x100 == a && Load16(a, b) / 0x100 == b;
  }

  lemma LoadedHtons(p: seq<byte>, k: nat)
    requires k + 2 <= |p|
    ensures Htons(Load16(p[k], p[k + 1])) == Be16(p, k)
  {
    SwappedPair(p[k], p[k + 1]);
  }

  lemma StoredHtons(w: u16)
    ensures Bytes16(Htons(w)) == Net16(w)
  {
    hide SwapBytes;
    var low, high := w % 0x100, w / 0x100;
    SwappedPair(low, high);
    var swapped := 0x100 * low + high;
    assert Htons(w) == swapped;
    assert swapped % 0x100 == high && swapped / 0x100 == low;
  }

  lemma LoadedNtohl(p: seq<byte>, k: nat)
    requires k + 4 <= |p|
    ensures Ntohl(Load32(p[k], p[k + 1], p[k + 2], p[k + 3])) == Be32(p, k)
  {
    hide SwapBytes;
    var low, high := Load16(p[k], p[k + 1]) as int, Load16(p[k + 2], p[k + 3]) as int;
    var n := Load32(p[k], p[k + 1], p[k + 2], p[k + 3]);
    assert n == low + 0x1_0000 * high;
    assert n % 0x1_0000 == low && n / 0x1_0000 == high;
    SwappedPair(p[k], p[k + 1]);
    SwappedPair(p[k + 2], p[k + 3]);
  }

  // ---- Building a query ----

  function Question(name: seq<byte>): seq<byte>
    requires |name| <= 255
  {
    Encode(name, 0) + (Net16(DNS_RRTYPE_A) + Net16(DNS_RRCLASS_IN))
  }

  /** A header with one question; the last two counts are given as bytes. */
  function Header(txid: u16, flags1: byte, flags2: byte, nanswers: u16, counts: seq<byte>): (h: seq<byte>)
    ensures |h| == 8 + |counts|
  {
    Net16(txid) + [flags1, flags2] + Net16(1) + Net16(nanswers) + counts
  }

  /** A standard query with recursion desired and one question. */
  function QueryPacket(txid: u16, name: seq<byte>): seq<byte>
    requires |name| <= 255
  {
    Header(txid, DNS_FLAG1_RD, 0, 0, [0, 0, 0, 0]) + Question(name)
  }

  /** pbuf_take_at */
  method TakeAt(p: array<byte>, at: nat, part: seq<byte>)
    requires at + |part| <= p.Length
    modifies p
    ensures p[..] == PutAt(old(p[..]), at, part)
  {
    forall k | 0 <= k < |part| {
      p[at + k] := part[k];
    }
  }

  lemma PutThree(p: seq<byte>, a: seq<byte>, b: seq<byte>, c: seq<byte>)
    requires |p| == |a| + |b| + |c|
    ensures PutAt(PutAt(PutAt(p, 0, a), |a|, b), |a| + |b|, c) == a + b + c
  {
    PutBehind(p, 0, a, b);
    PutBehind(p, 0, a + b, c);
  }

  /** dns_send up to udp_sendto, when the allocation succeeds. */
  method BuildQuery(txid: u16, name: seq<byte>) returns (p: array<byte>)
    requires |name| <= 255
    ensures fresh(p) && p[..] == QueryPacket(txid, name)
  {
    hide Encode, PutAt, Bytes16, Net16, Htons;
    p := new byte[SIZEOF_DNS_HDR + |name| + 2 + SIZEOF_DNS_QUERY];
    ghost var p0 := p[..];
    var hdr := Bytes16(Htons(txid)) + [DNS_FLAG1_RD, 0] + Bytes16(Htons(1)) + Bytes16(0) + [0, 0, 0, 0];
    TakeAt(p, 0, hdr);
    var queryIdx := PutName(p, SIZEOF_DNS_HDR, name);
    var qry := Bytes16(Htons(DNS_RRTYPE_A)) + Bytes16(Htons(DNS_RRCLASS_IN));
    TakeAt(p, queryIdx, qry);
    PutThree(p0, hdr, Encode(name, 0), qry);
    StoredHtons(txid);
    StoredHtons(1);
    Zeros();
  }

  lemma Zeros()
    ensures Bytes16(0) == Net16(0)
  {
  }

  // ---- Judging a reply ----

  type Quad = s: seq<byte> | |s| == 4 witness [0, 0, 0, 0]

  /** What dns_recv makes of a packet whose identifier belongs to a pending query. */
  datatype Verdict = Ignore | ServerError | NoAnswer | Answer(addr: Quad, ttl: u32)

  /** The first of n resource records from an offset on that is an Internet address of 4 bytes. */
  function FirstAnswer(p: seq<byte>, idx: nat, n: nat): Verdict
    requires |p| <= 0xFFFF
    decreases n
  {
    if n == 0 || idx >= |p| then NoAnswer
    else
      var fixed := SkipEnd(p, idx) as int;
      var data := fixed + SIZEOF_DNS_ANSWER;
      if fixed == FAIL || data > |p| then Ignore
      else
        var length := Be16(p, fixed + 8) as int;
        if Be16(p, fixed) == DNS_RRTYPE_A && Be16(p, fixed + 2) == DNS_RRCLASS_IN && length == 4 then
          if data + 4 > |p| then Ignore else Answer(p[data..data + 4], Be32(p, fixed + 4))
        else if data + length > 0xFFFF then Ignore
        else FirstAnswer(p, data + length, n - 1)
  }

  /** The question behind a name asks for an Internet address. */
  predicate AsksForAddress(p: seq<byte>, idx: nat) {
    && idx + SIZEOF_DNS_QUERY <= |p|
    && Be16(p, idx) == DNS_RRTYPE_A && Be16(p, idx + 2) == DNS_RRCLASS_IN
  }

  ghost function Judge(p: seq<byte>, query: nat -> byte, fromServer: bool): Verdict
    requires |p| <= 0xFFFF
  {
    if |p| < SIZEOF_DNS_HDR + SIZEOF_DNS_QUERY then Ignore
    else if p[2] < DNS_FLAG1_RESPONSE || Be16(p, 4) != 1 || !fromServer then Ignore
    else if !Accepts(query, 0, p, SIZEOF_DNS_HDR) then Ignore
    else
      var end := NameEnd(p, SIZEOF_DNS_HDR) as int;
      if end == FAIL || !AsksForAddress(p, end) then Ignore
      else if p[3] % 16 != 0 then ServerError
      else FirstAnswer(p, end + SIZEOF_DNS_QUERY, Be16(p, 6))
  }

  /** The loop of dns_recv over the answers. */
  method ScanAnswers(p: seq<byte>, start: u16, nanswers: u16) returns (v: Verdict)
    requires |p| <= 0xFFFF
    ensures v == FirstAnswer(p, start, nanswers)
  {
    hide SkipEnd, Htons, Be16, Be32, Ntohl, Load32;
    var resIdx: u16, n: u16 := start, nanswers;
    while n > 0 && resIdx < |p|
      invariant FirstAnswer(p, start, nanswers) == FirstAnswer(p, resIdx, n)
      decreases n
    {
      resIdx := DnsSkipName(p, resIdx);
      if resIdx == FAIL {
        return Ignore;
      }
      if resIdx + SIZEOF_DNS_ANSWER > |p| {
        return Ignore;
      }
      if resIdx + SIZEOF_DNS_ANSWER > 0xFFFF {
        return Ignore;
      }
      ghost var fixed := resIdx as int;
      var rtype := Load16(p[resIdx], p[resIdx + 1]);
      var cls := Load16(p[resIdx + 2], p[resIdx + 3]);
      var ttl := Load32(p[resIdx + 4], p[resIdx + 5], p[resIdx + 6], p[resIdx + 7]);
      var length := Load16(p[resIdx + 8], p[resIdx + 9]);
      NumberAt(p, fixed, DNS_RRTYPE_A);
      NumberAt(p, fixed + 2, DNS_RRCLASS_IN);
      NumberAt(p, fixed + 8, 4);
      LoadedHtons(p, fixed + 8);
      LoadedNtohl(p, fixed + 4);
      resIdx := resIdx + SIZEOF_DNS_ANSWER;
      if cls == Htons(DNS_RRCLASS_IN) {
        if rtype == Htons(DNS_RRTYPE_A) && length == Htons(4) {
          if resIdx + 4 > |p| {
            return Ignore;
          }
          return Answer(p[resIdx..resIdx + 4], Ntohl(ttl));
        }
      }
      if resIdx as int + Htons(length) > 0xFFFF {
        return Ignore;
      }
      resIdx := resIdx + Htons(length);
      n := n - 1;
    }
    v := NoAnswer;
  }

  /** Comparing a loaded number with a swapped constant compares the number on the wire. */
  lemma NumberAt(p: seq<byte>, k: nat, w: u16)
    requires k + 2 <= |p|
    ensures Load16(p[k], p[k + 1]) == Htons(w) <==> Be16(p, k) == w
  {
    hide SwapBytes;
    LoadedHtons(p, k);
    OnesComplement.SwapTwice(w);
    OnesComplement.SwapTwice(Load16(p[k], p[k + 1]));
  }

  /** dns_recv for the entry whose query has the identifier of the packet. */
  method JudgeReply(p: seq<byte>, query: nat -> byte, fromServer: bool) returns (v: Verdict)
    requires SIZEOF_DNS_HDR + SIZEOF_DNS_QUERY <= |p| <= 0xFFFF
    ensures v == Judge(p, query, fromServer)
  {
    hide Accepts, NameEnd, Htons, Be16, FirstAnswer;
    LoadedHtons(p, 4);
    LoadedHtons(p, 6);
    var nquestions := Htons(Load16(p[4], p[5]));
    var nanswers := Htons(Load16(p[6], p[7]));
    if p[2] < DNS_FLAG1_RESPONSE {
      return Ignore;
    }
    if nquestions != 1 {
      return Ignore;
    }
    if !fromServer {
      return Ignore;
    }
    var resIdx := DnsCompareName(query, p, SIZEOF_DNS_HDR);
    if resIdx == FAIL {
      return Ignore;
    }
    if resIdx + SIZEOF_DNS_QUERY > |p| {
      return Ignore;
    }
    NumberAt(p, resIdx, DNS_RRTYPE_A);
    NumberAt(p, resIdx + 2, DNS_RRCLASS_IN);
    if Load16(p[resIdx + 2], p[resIdx + 3]) != Htons(DNS_RRCLASS_IN) ||
       Load16(p[resIdx], p[resIdx + 1]) != Htons(DNS_RRTYPE_A)
    {
      return Ignore;
    }
    if resIdx + SIZEOF_DNS_QUERY > 0xFFFF {
      return Ignore;
    }
    resIdx := resIdx + SIZEOF_DNS_QUERY;
    if p[3] % 16 != 0 {
      return ServerError;
    }
    v := ScanAnswers(p, resIdx, nanswers);
  }

  // ---- Replies as a server writes them ----

  datatype NameTail = Zero | Pointer(high: byte, low: byte)

  /** The owner of a record: some labels, closed by a zero or by a compression pointer. */
  datatype Owner = Owner(labels: seq<seq<byte>>, tail: NameTail) {
    /** Labels have their legal sizes and pointers their mark. */
    predicate WellFormed() {
      && (forall l | l in labels :: 0 < |l| < 0xC0)
      && (tail.Pointer? ==> tail.high >= 0xC0)
    }

    predicate IsRoot() {
      labels == [] && tail.Zero?
    }

    function Bytes(): (bs: seq<byte>)
      requires WellFormed()
      ensures |bs| > 0
      decreases |labels|
    {
      if labels == [] then if tail.Zero? then [0] else [tail.high, tail.low]
      else [|labels[0]|] + labels[0] + if Last() then [0] else Rest().Bytes()
    }

    predicate Last() {
      |labels| == 1 && tail.Zero?
    }

    function Rest(): Owner
      requires labels != []
    {
      Owner(labels[1..], tail)
    }
  }

  /** A resource record (RFC 1035, section 4.1.3). */
  datatype Record = Record(owner: Owner, rtype: u16, cls: u16, ttl: u32, data: seq<byte>) {
    predicate WellFormed() {
      owner.WellFormed() && |data| <= 0xFFFF
    }

    function Fixed(): seq<byte>
      requires WellFormed()
    {
      Net16(rtype) + Net16(cls) + Net32(ttl) + Net16(|data|)
    }

    predicate IsAddress() {
      rtype == DNS_RRTYPE_A && cls == DNS_RRCLASS_IN && |data| == 4
    }
  }

  ghost predicate AllWellFormed(rs: seq<Record>) {
    forall r | r in rs :: r.WellFormed()
  }

  /** No record is owned by the root, up to and including the first address. */
  predicate NoRoots(rs: seq<Record>) {
    rs == [] || (!rs[0].owner.IsRoot() && (rs[0].IsAddress() || NoRoots(rs[1..])))
  }

  ghost function RecordsBytes(rs: seq<Record>): seq<byte>
    requires AllWellFormed(rs)
  {
    if rs == [] then []
    else
      assert rs[0] in rs;
      rs[0].owner.Bytes() + (rs[0].Fixed() + (rs[0].data + RecordsBytes(rs[1..])))
  }

  /** The address record that a reader of the list is looking for. */
  function Chosen(rs: seq<Record>): Verdict {
    if rs == [] then NoAnswer
    else if rs[0].IsAddress() then Answer(rs[0].data, rs[0].ttl)
    else Chosen(rs[1..])
  }

  /** What the packet holds where an owner name begins. */
  lemma OwnerStart(p: seq<byte>, offset: nat, o: Owner)
    requires o.WellFormed() && PartAt(p, offset, o.Bytes())
    ensures 0 <= offset < |p|
    ensures o.labels == [] ==> p[offset] == if o.tail.Zero? then 0 else o.tail.high
    ensures o.labels != [] ==> p[offset] == |o.labels[0]|
  {
    assert p[offset] == p[offset..offset + |o.Bytes()|][0];
  }

  lemma RestWellFormed(o: Owner)
    requires o.WellFormed() && o.labels != [] && !o.Last()
    ensures o.Rest().WellFormed() && !o.Rest().IsRoot() && |o.Rest().labels| < |o.labels|
  {
  }

  /** dns_skip_name passes over every owner name that is not the root. */
  lemma {:induction false} SkipOwner(p: seq<byte>, offset: nat, o: Owner)
    requires o.WellFormed() && PartAt(p, offset, o.Bytes())
    requires offset + |o.Bytes()| < |p| <= 0xFFFF
    requires !o.IsRoot()
    ensures SkipEnd(p, offset) == offset + |o.Bytes()|
    decreases |o.labels|
  {
    hide PartAt;
    OwnerStart(p, offset, o);
    if o.labels != [] {
      var label_ := o.labels[0];
      assert label_ in o.labels;
      var next := offset + 1 + |label_|;
      if o.Last() {
        PartsAt(p, offset, [|label_|] + label_, [0]);
        ByteAt(p, next, 0);
      } else {
        RestWellFormed(o);
        var rest := o.Rest();
        PartsAt(p, offset, [|label_|] + label_, rest.Bytes());
        OwnerStart(p, next, rest);
        assert rest.labels != [] ==> rest.labels[0] in rest.labels;
        SkipOwner(p, next, rest);
      }
    }
  }

  /** dns_skip_name finds the end of an owner name exactly when it is not the root, whose one byte it
      takes for an empty label. */
  lemma OwnerSkipped(p: seq<byte>, offset: nat, o: Owner)
    requires o.WellFormed() && PartAt(p, offset, o.Bytes())
    requires offset + |o.Bytes()| < |p| <= 0xFFFF
    ensures SkipEnd(p, offset) == offset + |o.Bytes()| <==> !o.IsRoot()
  {
    hide SkipEnd, PartAt;
    if o.IsRoot() {
      SkipsFurther(p, offset);
    } else {
      SkipOwner(p, offset, o);
    }
  }

  lemma {:induction false} SkipsFurther(p: seq<byte>, offset: nat)
    requires offset + 1 < |p| <= 0xFFFF
    ensures SkipEnd(p, offset) > offset + 1
    decreases |p| - offset
  {
    if p[offset] < 0xC0 {
      var next := offset + 1 + p[offset] as int;
      if next + 1 < |p| {
        SkipsFurther(p, next);
      } else if next < |p| {
        assert SkipEnd(p, next) > next;
      }
    }
  }

  /** The fixed part of a record as it is read back. */
  lemma FixedAt(p: seq<byte>, k: nat, r: Record)
    requires r.WellFormed() && PartAt(p, k, r.Fixed())
    ensures k + SIZEOF_DNS_ANSWER <= |p|
    ensures Be16(p, k) == r.rtype && Be16(p, k + 2) == r.cls && Be32(p, k + 4) == r.ttl && Be16(p, k + 8) == |r.data|
  {
    hide Net16, Net32, Be16, Be32, PartAt;
    var t, c, l, d := Net16(r.rtype), Net16(r.cls), Net32(r.ttl), Net16(|r.data|);
    PartsAt(p, k, t + c + l, d);
    PartsAt(p, k, t + c, l);
    PartsAt(p, k, t, c);
    NumberRead(p, k, t);
    NumberRead(p, k + 2, c);
    NumberRead(p, k + 8, d);
    LongRead(p, k + 4, l);
  }

  lemma NumberRead(p: seq<byte>, k: nat, bs: seq<byte>)
    requires |bs| == 2 && PartAt(p, k, bs)
    ensures k + 2 <= |p| && Be16(p, k) == Be16(bs, 0)
  {
    assert p[k] == p[k..k + 2][0] && p[k + 1] == p[k..k + 2][1];
  }

  lemma LongRead(p: seq<byte>, k: nat, bs: seq<byte>)
    requires |bs| == 4 && PartAt(p, k, bs)
    ensures k + 4 <= |p| && Be32(p, k) == Be32(bs, 0)
  {
    var s := p[k..k + 4];
    assert p[k] == s[0] && p[k + 1] == s[1] && p[k + 2] == s[2] && p[k + 3] == s[3];
  }

  /** From any list of records in which the root owns none up to the first address, that address is found. */
  lemma {:induction false} AnswersRead(p: seq<byte>, idx: nat, rs: seq<Record>)
    requires NoRoots(rs) && AllWellFormed(rs) && |p| <= 0xFFFF && PartAt(p, idx, RecordsBytes(rs))
    ensures FirstAnswer(p, idx, |rs|) == Chosen(rs)
    decreases |rs|
  {
    hide PartAt, SkipEnd, Be16, Be32, Net16, Net32, Owner.Bytes, Owner.WellFormed;
    if rs != [] {
      var r := rs[0];
      assert r in rs;
      var owner, rest := r.owner.Bytes(), RecordsBytes(rs[1..]);
      var fixed := idx + |owner|;
      var data := fixed + SIZEOF_DNS_ANSWER;
      PartsAt(p, idx, owner, r.Fixed() + (r.data + rest));
      PartsAt(p, fixed, r.Fixed(), r.data + rest);
      PartsAt(p, data, r.data, rest);
      FixedAt(p, fixed, r);
      SkipOwner(p, idx, r.owner);
      Located(p, data, r.data);
      if !r.IsAddress() {
        AnswersRead(p, data + |r.data|, rs[1..]);
      }
    }
  }

  lemma Located(p: seq<byte>, k: nat, part: seq<byte>)
    requires PartAt(p, k, part)
    ensures k + |part| <= |p| && p[k..k + |part|] == part
  {
  }

  // ---- A query and its reply ----

  /** A reply to a query: its identifier and its question, a list of answers, and whatever else. */
  ghost function Response(txid: u16, flags1: byte, flags2: byte, name: seq<byte>, rs: seq<Record>, counts: seq<byte>,
      rest: seq<byte>): seq<byte>
    requires |name| <= 255 && AllWellFormed(rs) && |rs| <= 0xFFFF && |counts| == 4
  {
    Header(txid, flags1, flags2, |rs|, counts) + (Question(name) + (RecordsBytes(rs) + rest))
  }

  /** The question of a query stands behind its header. */
  ghost predicate Echoes(p: seq<byte>, name: seq<byte>) {
    && |name| <= 255
    && PartAt(p, SIZEOF_DNS_HDR, Encode(name, 0))
    && PartAt(p, SIZEOF_DNS_HDR + |name| + 2, Net16(DNS_RRTYPE_A) + Net16(DNS_RRCLASS_IN))
    && p[2] >= DNS_FLAG1_RESPONSE && Be16(p, 4) == 1
  }

  lemma PrefixAt(p: seq<byte>, a: seq<byte>, b: seq<byte>)
    requires p == a + b
    ensures PartAt(p, 0, a) && PartAt(p, |a|, b)
  {
  }

  lemma ResponseParts(txid: u16, flags1: byte, flags2: byte, name: seq<byte>, rs: seq<Record>, counts: seq<byte>,
      rest: seq<byte>, p: seq<byte>)
    requires |name| <= 255 && AllWellFormed(rs) && |rs| <= 0xFFFF && |counts| == 4
    requires p == Response(txid, flags1, flags2, name, rs, counts, rest) && flags1 >= DNS_FLAG1_RESPONSE
    ensures |p| >= SIZEOF_DNS_HDR && Be16(p, 0) == txid && p[3] == flags2 && Be16(p, 6) == |rs|
    ensures Echoes(p, name) && PartAt(p, SIZEOF_DNS_HDR + |name| + 2 + SIZEOF_DNS_QUERY, RecordsBytes(rs))
  {
    hide Encode, RecordsBytes, PartAt, Be16, Header, Question;
    var q, a := Question(name), RecordsBytes(rs);
    PrefixAt(p, Header(txid, flags1, flags2, |rs|, counts), q + (a + rest));
    HeaderAt(p, txid, flags1, flags2, |rs|, counts);
    PartsAt(p, SIZEOF_DNS_HDR, q, a + rest);
    QuestionParts(p, SIZEOF_DNS_HDR, name);
    PartsAt(p, SIZEOF_DNS_HDR + |q|, a, rest);
  }

  lemma QuestionParts(p: seq<byte>, k: nat, name: seq<byte>)
    requires |name| <= 255 && PartAt(p, k, Question(name))
    ensures |Question(name)| == |name| + 2 + SIZEOF_DNS_QUERY
    ensures PartAt(p, k, Encode(name, 0))
    ensures PartAt(p, k + |name| + 2, Net16(DNS_RRTYPE_A) + Net16(DNS_RRCLASS_IN))
  {
    hide Encode, PartAt, Net16;
    PartsAt(p, k, Encode(name, 0), Net16(DNS_RRTYPE_A) + Net16(DNS_RRCLASS_IN));
  }

  lemma HeaderAt(p: seq<byte>, txid: u16, flags1: byte, flags2: byte, n: u16, counts: seq<byte>)
    requires |counts| == 4
    requires PartAt(p, 0, Header(txid, flags1, flags2, n, counts))
    ensures |p| >= SIZEOF_DNS_HDR && Be16(p, 0) == txid && p[2] == flags1 && p[3] == flags2
    ensures Be16(p, 4) == 1 && Be16(p, 6) == n
  {
    hide PartAt, Net16, Be16;
    var t, f, o, c := Net16(txid), [flags1, flags2], Net16(1), Net16(n);
    PartsAt(p, 0, t + f + o + c, counts);
    PartsAt(p, 0, t + f + o, c);
    PartsAt(p, 0, t + f, o);
    PartsAt(p, 0, t, f);
    assert f == [flags1] + [flags2];
    PartsAt(p, 2, [flags1], [flags2]);
    ByteAt(p, 2, flags1);
    ByteAt(p, 3, flags2);
    NumberRead(p, 0, t);
    NumberRead(p, 4, o);
    NumberRead(p, 6, c);
    Fits(p, 8, counts);
  }

  /** A name that is not readable and yet accepted stops at an empty label behind its first. */
  lemma {:induction false} StopsEarly(query: nat -> byte, name: seq<byte>, i: nat, p: seq<byte>, offset: nat)
      returns (k: nat)
    requires Holds(query, name) && |p| <= 0xFFFF
    requires i <= |name| <= 255 && PartAt(p, offset, Encode(name, i))
    requires i == 0 || i < LabelEnd(name, i)
    requires !Readable(name, i) && Accepts(query, i, p, offset)
    ensures i < k <= |name| && LabelEnd(name, k) == k
    ensures NameEnd(p, offset) == offset + (k - i) + 1 && PartAt(p, offset + (k - i), Encode(name, k))
    decreases |name| - i
  {
    hide SameText, Encode, LabelEnd, PartAt;
    var j := LabelEnd(name, i);
    var next := offset + 1 + (j - i);
    LabelAt(p, offset, name, i, j, next);
    k := j + 1;
    if p[next] > 0 {
      k := StopsEarly(query, name, j + 1, p, next);
    }
  }

  /** What follows an empty label is not the question that the resolver asked. */
  lemma NoQuestionInside(p: seq<byte>, s: nat, name: seq<byte>, k: nat)
    requires 0 !in name && k <= |name| <= 255 && LabelEnd(name, k) == k
    requires PartAt(p, s, Encode(name, k))
    requires PartAt(p, s + (|name| - k) + 2, Net16(DNS_RRTYPE_A) + Net16(DNS_RRCLASS_IN))
    ensures !AsksForAddress(p, s + 1)
  {
    hide Encode, PartAt, LabelEnd;
    LabelAt(p, s, name, k, k, s + 1);
    if k == |name| {
      QuestionStart(p, s + 2);
    } else if p[s + 1] == 0 {
      LabelAt(p, s + 1, name, k + 1, k + 1, s + 2);
      if k + 1 < |name| && p[s + 2] == 1 {
        LabelAt(p, s + 2, name, k + 2, k + 3, s + 4);
        OneByte(p, s + 3, name, k + 2);
      }
    }
  }

  lemma QuestionStart(p: seq<byte>, k: nat)
    requires PartAt(p, k, Net16(DNS_RRTYPE_A) + Net16(DNS_RRCLASS_IN))
    ensures k < |p| && p[k] == 0
  {
    assert p[k] == p[k..k + 4][0];
  }

  lemma OneByte(p: seq<byte>, k: nat, name: seq<byte>, i: nat)
    requires i < |name| && PartAt(p, k, name[i..i + 1]) && 0 !in name
    ensures k < |p| && p[k] != 0
  {
    assert p[k] == p[k..k + 1][0] == name[i];
  }

  /** What becomes of a reply that echoes the question: it is judged by its flags and its answers
      exactly when the name is readable, and ignored otherwise. */
  lemma EchoJudged(p: seq<byte>, query: nat -> byte, name: seq<byte>)
    requires Echoes(p, name) && Holds(query, name) && 0 !in name && |p| <= 0xFFFF
    ensures Judge(p, query, true) ==
      if !Readable(name, 0) then Ignore
      else if p[3] % 16 != 0 then ServerError
      else FirstAnswer(p, SIZEOF_DNS_HDR + |name| + 2 + SIZEOF_DNS_QUERY, Be16(p, 6))
  {
    hide Accepts, NameEnd, Readable, Encode, LabelEnd, Holds, FirstAnswer, PartAt, Net16, Be16;
    ReadBack(query, name, 0, p, SIZEOF_DNS_HDR);
    QuestionRead(p, SIZEOF_DNS_HDR + |name| + 2);
    if !Readable(name, 0) && Accepts(query, 0, p, SIZEOF_DNS_HDR) {
      var k := StopsEarly(query, name, 0, p, SIZEOF_DNS_HDR);
      NoQuestionInside(p, SIZEOF_DNS_HDR + k, name, k);
    }
  }

  /** What becomes of a packet with any question, from any host: it is ignored unless it is a response with one
      question, from the server that was asked, for an Internet address and with the characters of the query;
      then it is judged by its flags and its answers. */
  lemma QuestionJudged(p: seq<byte>, query: nat -> byte, fromServer: bool, other: seq<byte>, qtype: u16, qclass: u16)
    requires |other| <= 255 && Readable(other, 0) && |p| <= 0xFFFF
    requires PartAt(p, SIZEOF_DNS_HDR, Encode(other, 0))
    requires PartAt(p, SIZEOF_DNS_HDR + |other| + 2, Net16(qtype) + Net16(qclass))
    ensures Judge(p, query, fromServer) ==
      if p[2] < DNS_FLAG1_RESPONSE || Be16(p, 4) != 1 || !fromServer then Ignore
      else if !Matches(query, other, 0) || qtype != DNS_RRTYPE_A || qclass != DNS_RRCLASS_IN then Ignore
      else if p[3] % 16 != 0 then ServerError
      else FirstAnswer(p, SIZEOF_DNS_HDR + |other| + 2 + SIZEOF_DNS_QUERY, Be16(p, 6))
  {
    hide Accepts, NameEnd, Readable, Encode, Matches, FirstAnswer, PartAt, Net16;
    var k := SIZEOF_DNS_HDR + |other| + 2;
    OtherNameCompares(query, other, 0, p, SIZEOF_DNS_HDR);
    PartsAt(p, k, Net16(qtype), Net16(qclass));
    NumberRead(p, k, Net16(qtype));
    NumberRead(p, k + 2, Net16(qclass));
    Fits(p, k + 2, Net16(qclass));
  }

  /** A reply about a name that differs from the one that was asked for in one character is ignored. */
  lemma OtherNameIgnored(p: seq<byte>, query: nat -> byte, fromServer: bool, other: seq<byte>, k: nat)
    requires |other| <= 255 && Readable(other, 0) && |p| <= 0xFFFF && PartAt(p, SIZEOF_DNS_HDR, Encode(other, 0))
    requires k < |other| && other[k] != DOT && ToLower(query(k)) != ToLower(other[k])
    ensures Judge(p, query, fromServer) == Ignore
  {
    hide Accepts, NameEnd, Readable, Encode, PartAt, FirstAnswer, ToLower;
    OtherNameCompares(query, other, 0, p, SIZEOF_DNS_HDR);
  }

  lemma QuestionRead(p: seq<byte>, k: nat)
    requires PartAt(p, k, Net16(DNS_RRTYPE_A) + Net16(DNS_RRCLASS_IN))
    ensures AsksForAddress(p, k)
  {
    hide PartAt, Net16;
    PartsAt(p, k, Net16(DNS_RRTYPE_A), Net16(DNS_RRCLASS_IN));
    NumberRead(p, k, Net16(DNS_RRTYPE_A));
    NumberRead(p, k + 2, Net16(DNS_RRCLASS_IN));
  }

  /** A query, answered by any server with any list of records, yields the first address of the list
      exactly as the server wrote it; an error code is reported as such. */
  lemma ReplyUnderstood(txid: u16, flags1: byte, flags2: byte, name: seq<byte>, rs: seq<Record>, counts: seq<byte>,
      rest: seq<byte>, query: nat -> byte)
    requires |name| <= 255 && NoRoots(rs) && AllWellFormed(rs) && |rs| <= 0xFFFF && |counts| == 4 && flags1 >= DNS_FLAG1_RESPONSE
    requires Holds(query, name) && 0 !in name
    requires |Response(txid, flags1, flags2, name, rs, counts, rest)| <= 0xFFFF
    ensures var p := Response(txid, flags1, flags2, name, rs, counts, rest);
      && Be16(p, 0) == txid
      && Judge(p, query, true) ==
         if !Readable(name, 0) then Ignore else if flags2 % 16 != 0 then ServerError else Chosen(rs)
  {
    hide Response, Judge, FirstAnswer, RecordsBytes, Echoes, PartAt, Be16, Readable, Holds, Chosen;
    var p := Response(txid, flags1, flags2, name, rs, counts, rest);
    ResponseParts(txid, flags1, flags2, name, rs, counts, rest, p);
    EchoJudged(p, query, name);
    AnswersRead(p, SIZEOF_DNS_HDR + |name| + 2 + SIZEOF_DNS_QUERY, rs);
  }

  lemma RestOfHeader(txid: u16, p: seq<byte>)
    requires PartAt(p, 0, Header(txid, DNS_FLAG1_RD, 0, 0, [0, 0, 0, 0]))
    ensures |p| >= SIZEOF_DNS_HDR && Be16(p, 8) == 0 && Be16(p, 10) == 0
  {
    hide Net16;
    var h := Header(txid, DNS_FLAG1_RD, 0, 0, [0, 0, 0, 0]);
    assert p[..12] == h && h[8] == 0 && h[9] == 0 && h[10] == 0 && h[11] == 0;
  }

  /** The query itself carries the question that a reply has to echo. */
  lemma QueryAsks(txid: u16, name: seq<byte>)
    requires |name| <= 255
    ensures var p := QueryPacket(txid, name);
      && |p| == SIZEOF_DNS_HDR + |name| + 2 + SIZEOF_DNS_QUERY
      && Be16(p, 0) == txid && p[2] == DNS_FLAG1_RD && p[3] == 0 && Be16(p, 4) == 1
      && Be16(p, 6) == 0 && Be16(p, 8) == 0 && Be16(p, 10) == 0
      && PartAt(p, SIZEOF_DNS_HDR, Encode(name, 0))
      && Be16(p, SIZEOF_DNS_HDR + |name| + 2) == DNS_RRTYPE_A && Be16(p, SIZEOF_DNS_HDR + |name| + 4) == DNS_RRCLASS_IN
  {
    hide PartAt, Net16, Be16, Encode, Header;
    var p := QueryPacket(txid, name);
    PrefixAt(p, Header(txid, DNS_FLAG1_RD, 0, 0, [0, 0, 0, 0]), Question(name));
    HeaderAt(p, txid, DNS_FLAG1_RD, 0, 0, [0, 0, 0, 0]);
    QuestionParts(p, SIZEOF_DNS_HDR, name);
    QuestionRead(p, SIZEOF_DNS_HDR + |name| + 2);
    RestOfHeader(txid, p);
  }
}
