/** Ethernet to CAN: received bytes are echoed to their sender and sent on as CAN frames of up to
    eight bytes. A pbuf chain is the sequence of its payloads; the empty one is the null pointer. */
module CanFrames {
  import opened Words
  import opened Types
  import opened Vectors

  // ---- Segmentation ----

  /** Bytes cut into frames of eight, the last of which may be shorter. */
  function Frames(d: seq<byte>): seq<seq<byte>> {
    if d == [] then [] else if |d| <= 8 then [d] else [d[..8]] + Frames(d[8..])
  }

  /** Frames of one to eight bytes, all but the last of them full. */
  predicate Packed(fs: seq<seq<byte>>) {
    forall k | 0 <= k < |fs| :: 1 <= |fs[k]| <= 8 && (k < |fs| - 1 ==> |fs[k]| == 8)
  }

  /** The frames carry exactly the bytes, in order, in the least number of frames. */
  lemma {:induction false} FramesCarry(d: seq<byte>)
    ensures Packed(Frames(d)) && Concat(Frames(d)) == d && |Frames(d)| == (|d| + 7) / 8
  {
    if |d| > 8 {
      FramesCarry(d[8..]);
      var fs := Frames(d);
      assert fs[1..] == Frames(d[8..]);
      forall k | 0 < k < |fs| ensures 1 <= |fs[k]| <= 8 && (k < |fs| - 1 ==> |fs[k]| == 8) {
        assert fs[k] == fs[1..][k - 1];
      }
    } else if d != [] {
      assert [d][1..] == [];
    }
  }

  /** There is no other way to pack the bytes. */
  lemma {:induction false} PackedUnique(fs: seq<seq<byte>>)
    requires Packed(fs)
    ensures Frames(Concat(fs)) == fs
  {
    if fs != [] {
      var rest := fs[1..];
      forall k | 0 <= k < |rest| ensures 1 <= |rest[k]| <= 8 && (k < |rest| - 1 ==> |rest[k]| == 8) {
        assert rest[k] == fs[k + 1];
      }
      PackedUnique(rest);
      var d := Concat(fs);
      if rest == [] {
        assert d == fs[0];
      } else {
        assert |fs[0]| == 8 && |rest[0]| > 0;
        assert d[..8] == fs[0] && d[8..] == Concat(rest);
      }
    }
  }

  ghost predicate AllFull(fs: seq<seq<byte>>) {
    forall k | 0 <= k < |fs| :: |fs[k]| == 8
  }

  /** One pbuf of the repacking loop of can_eth_recv. */
  method RepackPbuf(data: seq<byte>, canData: array<byte>, index: nat, sent: seq<seq<byte>>)
      returns (canIndex: nat, sent': seq<seq<byte>>)
    requires canData.Length == 8 && index < 8 && AllFull(sent)
    modifies canData
    ensures canIndex < 8 && AllFull(sent')
    ensures Concat(sent') + canData[..canIndex] == Concat(sent) + old(canData[..index]) + data
  {
    hide Concat;
    canIndex, sent' := index, sent;
    ghost var start := Concat(sent) + canData[..index];
    for i := 0 to |data|
      invariant canIndex < 8 && AllFull(sent')
      invariant Concat(sent') + canData[..canIndex] == start + data[..i]
    {
      ghost var part := canData[..canIndex];
      canData[canIndex] := data[i];
      canIndex := canIndex + 1;
      assert canData[..canIndex] == part + [data[i]];
      assert data[..i + 1] == data[..i] + [data[i]];
      calc {
        Concat(sent') + canData[..canIndex];
        (Concat(sent') + part) + [data[i]];
        (start + data[..i]) + [data[i]];
        start + data[..i + 1];
      }
      if canIndex == 8 {
        ConcatLast(sent', canData[..]);
        assert canData[..8] == canData[..];
        sent' := sent' + [canData[..]];
        canIndex := 0;
      }
    }
    assert data[..|data|] == data;
  }

  /** The repacking loop of can_eth_recv: however the chain is split, the frames are those of its bytes. */
  method Repack(p: seq<seq<byte>>) returns (sent: seq<seq<byte>>)
    ensures sent == Frames(Concat(p))
  {
    hide Concat, Frames;
    var canData := new byte[8];
    var canIndex: nat := 0;
    sent := [];
    NoBytes();
    assert p[..0] == [];
    for q := 0 to |p|
      invariant canIndex < 8 && AllFull(sent)
      invariant Concat(sent) + canData[..canIndex] == Concat(p[..q])
    {
      ConcatLast(p[..q], p[q]);
      assert p[..q + 1] == p[..q] + [p[q]];
      canIndex, sent := RepackPbuf(p[q], canData, canIndex, sent);
    }
    assert p[..|p|] == p;
    if canIndex > 0 {
      ConcatLast(sent, canData[..canIndex]);
      sent := sent + [canData[..canIndex]];
    } else {
      assert Concat(sent) + canData[..0] == Concat(sent);
    }
    assert Concat(sent) == Concat(p);
    PackedUnique(sent);
  }

  lemma MoveFirst(done: seq<byte>, p: seq<seq<byte>>)
    requires p != []
    ensures done + Concat(p) == (done + p[0]) + Concat(p[1..])
  {
  }

  lemma NoBytes()
    ensures Concat([]) == []
  {
  }

  // ---- EthToCAN1 ----

  /** n bytes of memory from an address on. */
  function Bytes(memory: nat -> byte, at: nat, n: nat): (bs: seq<byte>)
    ensures |bs| == n && forall k | 0 <= k < n :: bs[k] == memory(at + k)
  {
    seq(n, k requires 0 <= k => memory(at + k))
  }

  lemma FullFrame(memory: nat -> byte, at: nat, n: nat)
    requires n >= 8
    ensures Frames(Bytes(memory, at, n)) == [Bytes(memory, at, 8)] + Frames(Bytes(memory, at + 8, n - 8))
  {
    var d := Bytes(memory, at, n);
    assert d[..8] == Bytes(memory, at, 8);
    assert d[8..] == Bytes(memory, at + 8, n - 8);
    if n == 8 {
      assert d == d[..8];
    }
  }

  lemma ShortFrame(memory: nat -> byte, at: nat, n: nat)
    requires n < 8
    ensures Frames(Bytes(memory, at, n)) == if n > 0 then [Bytes(memory, at, n)] else []
  {
  }

  /** EthToCAN1, for a pbuf with its payload at address 0 of the memory: the frames of the payload,
      except that an empty payload makes one frame of the eight bytes behind it. */
  method EthToCAN1(memory: nat -> byte, len: u16) returns (sent: seq<seq<byte>>)
    ensures sent == if len > 0 then Frames(Bytes(memory, 0, len)) else [Bytes(memory, 0, 8)]
    ensures sent == Frames(Bytes(memory, 0, len)) <==> len > 0
  {
    hide Frames, Bytes;
    ShortFrame(memory, 0, 0);
    var txCnt: int;
    if len <= 8 {
      txCnt := 1;
    } else {
      txCnt := len / 8;
      if len % 8 != 0 {
        txCnt := txCnt + 1;
      }
    }
    sent := [];
    var i := 0;
    while i < txCnt
      invariant 0 <= i <= txCnt && (len > 0 ==> 8 * (txCnt - 1) < len <= 8 * txCnt)
      invariant len > 0 && i < txCnt ==> sent + Frames(Bytes(memory, 8 * i, len - 8 * i)) == Frames(Bytes(memory, 0, len))
      invariant len > 0 && i == txCnt ==> sent == Frames(Bytes(memory, 0, len))
      invariant len == 0 ==> txCnt == 1 && sent == if i == 0 then [] else [Bytes(memory, 0, 8)]
    {
      var dlc;
      if len % 8 != 0 && i == txCnt - 1 {
        dlc := len - i * 8;
        ShortFrame(memory, 8 * i, dlc);
      } else {
        dlc := 8;
        if len > 0 {
          FullFrame(memory, 8 * i, len - 8 * i);
          ShortFrame(memory, len, 0);
        }
      }
      sent := sent + [Bytes(memory, i * 8, dlc)];
      i := i + 1;
    }
  }

  // ---- The session ----

  datatype State = ES_NONE | ES_ACCEPTED | ES_RECEIVING | ES_CLOSING

  /** What tcp_sndbuf and tcp_write return, call by call. */
  datatype Tcp = Tcp(sndbuf: nat -> nat, write: nat -> Err)

  /** How many pbufs at the front of a chain TCP takes, from its call number k on. */
  function Taken(p: seq<seq<byte>>, tcp: Tcp, k: nat): (n: nat)
    ensures n <= |p|
  {
    if p == [] || |p[0]| > tcp.sndbuf(k) || tcp.write(k) != OK then 0 else 1 + Taken(p[1..], tcp, k + 1)
  }

  /** These pbufs are taken, and the next one is not: it does not fit or is refused. */
  lemma {:induction false} TakenExactly(p: seq<seq<byte>>, tcp: Tcp, k: nat)
    ensures var n := Taken(p, tcp, k);
      && (forall i | 0 <= i < n :: |p[i]| <= tcp.sndbuf(k + i) && tcp.write(k + i) == OK)
      && (n < |p| ==> |p[n]| > tcp.sndbuf(k + n) || tcp.write(k + n) != OK)
    decreases |p|
  {
    if p != [] && |p[0]| <= tcp.sndbuf(k) && tcp.write(k) == OK {
      TakenExactly(p[1..], tcp, k + 1);
      var n := Taken(p, tcp, k);
      forall i | 0 <= i < n ensures |p[i]| <= tcp.sndbuf(k + i) && tcp.write(k + i) == OK {
        if i > 0 {
          assert p[i] == p[1..][i - 1] && k + i == (k + 1) + (i - 1);
        }
      }
      if n < |p| {
        assert p[n] == p[1..][n - 1] && k + n == (k + 1) + (n - 1);
      }
    }
  }

  /** TCP takes all that it is offered. */
  ghost predicate TakesAll(p: seq<seq<byte>>, tcp: Tcp) {
    forall i | 0 <= i < |p| :: |p[i]| <= tcp.sndbuf(i) && tcp.write(i) == OK
  }

  /** A callback of the session's connection. */
  datatype Event = Received(chain: seq<seq<byte>>, err: Err, tcp: Tcp) | SentOrPoll(tcp: Tcp)

  /** A session as a value: its fields, and for bookkeeping what has been echoed, what has been received and
      not dropped, how much has been trashed, the frames sent, and whether the connection is closed. */
  datatype View = View(state: State, p: seq<seq<byte>>, echoed: seq<byte>, kept: seq<byte>, trashed: nat,
    frames: seq<seq<byte>>, closed: bool)
  {
    /** What a callback does. */
    function Next(event: Event): View {
      if closed then this
      else
        match event
        case SentOrPoll(tcp) =>
          if p != [] then Echo(tcp) else if state.ES_CLOSING? then this.(closed := true) else this
        case Received(chain, err, tcp) =>
          if chain == [] then
            if p == [] then this.(state := ES_CLOSING, closed := true) else this.(state := ES_CLOSING).Echo(tcp)
          else if err != OK then this.(p := [], kept := echoed)
          else if state.ES_ACCEPTED? then
            this.(state := ES_RECEIVING, p := chain, kept := echoed + Concat(chain)).Echo(tcp)
          else if state.ES_RECEIVING? then
            this.(p := p + chain, kept := kept + Concat(chain), frames := frames + if p == [] then Frames(Concat(chain)) else [])
          else this.(p := [], kept := echoed, trashed := trashed + |Concat(chain)|)
    }

    /** Whole pbufs go out from the front of the chain, as far as TCP takes them. */
    function Echo(tcp: Tcp): View {
      var n := Taken(p, tcp, 0);
      this.(p := p[n..], echoed := echoed + Concat(p[..n]))
    }

    function After(events: seq<Event>): View
      decreases |events|
    {
      if events == [] then this else After(events[..|events| - 1]).Next(events[|events| - 1])
    }
  }

  const FRESH_SESSION := View(ES_RECEIVING, [], [], [], 0, [], false)

  class Session {
    var state: State
    var p: seq<seq<byte>>
    var echoed: seq<byte>
    ghost var kept: seq<byte>
    ghost var trashed: nat
    var credit: nat                     // window given back to TCP
    var frames: seq<seq<byte>>
    var closed: bool

    /** Everything kept is echoed in order or still held, and the credit covers what is gone. */
    ghost predicate Valid()
      reads this
    {
      kept == echoed + Concat(p) && credit == |echoed| + trashed
    }

    ghost function Now(): View
      reads this
    {
      View(state, p, echoed, kept, trashed, frames, closed)
    }

    /** can_eth_accept */
    constructor ()
      ensures Valid() && Now() == FRESH_SESSION
    {
      state, p, echoed, kept, credit, trashed, frames, closed := ES_ACCEPTED, [], [], [], 0, 0, [], false;
      state := ES_RECEIVING;
    }

    /** can_eth_send */
    method Send(tcp: Tcp)
      requires Valid()
      modifies this`p, this`echoed, this`credit
      ensures Valid() && Now() == old(Now()).Echo(tcp)
    {
      hide Concat;
      var err, n := OK, 0;
      ghost var p0 := p;
      NoBytes();
      assert p0[..0] == [] && p0[0..] == p0;
      assert echoed + [] == echoed;
      while err == OK && p != [] && |p[0]| <= tcp.sndbuf(n)
        invariant Valid() && n <= |p0| && p == p0[n..]
        invariant echoed == old(echoed) + Concat(p0[..n])
        invariant Taken(p0, tcp, 0) == n + if err == OK then Taken(p, tcp, n) else 0
        decreases |p|, err == OK
      {
        err := tcp.write(n);
        if err == OK {
          ConcatLast(p0[..n], p0[n]);
          assert p0[..n + 1] == p0[..n] + [p0[n]];
          MoveFirst(echoed, p);
          echoed := echoed + p[0];
          credit := credit + |p[0]|;
          p := p[1..];
          n := n + 1;
        }
      }
    }

    /** can_eth_close */
    method Close()
      modifies this`closed
      ensures closed
    {
      closed := true;
    }

    /** can_eth_recv. A chain is sent on as CAN frames exactly when it comes in good order and nothing
        is held for echoing. */
    method Recv(chain: seq<seq<byte>>, err: Err, tcp: Tcp) returns (ret: Err)
      requires Valid() && !closed
      modifies this
      ensures Valid() && Now() == old(Now()).Next(Received(chain, err, tcp))
      ensures ret == if chain == [] then OK else err
      ensures closed <==> chain == [] && old(p) == []
      ensures state == if chain == [] then ES_CLOSING else if err == OK && old(state) == ES_ACCEPTED then ES_RECEIVING else old(state)
      ensures credit - old(credit) == |echoed| - |old(echoed)| +
        if chain != [] && err == OK && old(state) != ES_ACCEPTED && old(state) != ES_RECEIVING then |Concat(chain)| else 0
      ensures chain == [] ==> p == old(p)[Taken(old(p), tcp, 0)..] && echoed == old(echoed) + Concat(old(p)[..Taken(old(p), tcp, 0)])
      ensures chain != [] && err == OK && old(state) == ES_ACCEPTED ==>
        p == chain[Taken(chain, tcp, 0)..] && echoed == old(echoed) + Concat(chain[..Taken(chain, tcp, 0)])
      ensures chain != [] && (err != OK || old(state) == ES_CLOSING) ==> p == [] && echoed == old(echoed) && frames == old(frames)
      ensures chain != [] && err == OK && old(state) == ES_RECEIVING ==>
        && p == old(p) + chain && echoed == old(echoed)
        && frames == old(frames) + if old(p) == [] then Frames(Concat(chain)) else []
    {
      hide Concat, Frames, Taken;
      NoBytes();
      ret := OK;
      if chain == [] {
        state := ES_CLOSING;
        if p == [] {
          Close();
        } else {
          Send(tcp);
        }
      } else if err != OK {
        p, kept := [], echoed;
        assert echoed + [] == echoed;
        ret := err;
      } else if state.ES_ACCEPTED? {
        state := ES_RECEIVING;
        p, kept := chain, echoed + Concat(chain);
        Send(tcp);
      } else if state.ES_RECEIVING? {
        kept := kept + Concat(chain);
        ConcatBoth(p, chain);
        assert echoed + (Concat(p) + Concat(chain)) == (echoed + Concat(p)) + Concat(chain);
        if p == [] {
          assert p + chain == chain;
          p := chain;
          var sent := Repack(p);
          frames := frames + sent;
        } else {
          p := p + chain;
        }
      } else {
        credit, trashed := credit + |Concat(chain)|, trashed + |Concat(chain)|;
        p, kept := [], echoed;
        assert echoed + [] == echoed;
      }
    }

    /** can_eth_sent and can_eth_poll */
    method Continue(tcp: Tcp)
      requires Valid() && !closed
      modifies this`p, this`echoed, this`credit, this`closed
      ensures Valid() && Now() == old(Now()).Next(SentOrPoll(tcp))
      ensures closed <==> old(p) == [] && state == ES_CLOSING
      ensures p == old(p)[Taken(old(p), tcp, 0)..] && echoed == old(echoed) + Concat(old(p)[..Taken(old(p), tcp, 0)])
    {
      hide Concat, Frames, Taken;
      NoBytes();
      assert echoed + [] == echoed;
      if p != [] {
        Send(tcp);
      } else if state.ES_CLOSING? {
        Close();
      }
    }
  }

  // ---- Runs ----

  /** Every run until the close comes to the state that its events say; in it, what was kept is what was
      echoed and what is held, and the credit covers what was echoed or trashed. */
  method Run(events: seq<Event>) returns (es: Session, n: nat)
    ensures n <= |events| && (n < |events| ==> es.closed)
    ensures es.Valid() && es.Now() == FRESH_SESSION.After(events[..n])
  {
    es := new Session();
    n := 0;
    assert events[..0] == [];
    while n < |events| && !es.closed
      invariant n <= |events| && fresh(es) && es.Valid()
      invariant es.Now() == FRESH_SESSION.After(events[..n])
    {
      if events[n].Received? {
        var _ := es.Recv(events[n].chain, events[n].err, events[n].tcp);
      } else {
        es.Continue(events[n].tcp);
      }
      assert events[..n + 1][..n] == events[..n];
      n := n + 1;
    }
  }

  /** No error and no close comes from the connection. */
  ghost predicate Smooth(events: seq<Event>) {
    forall e | e in events :: e.Received? ==> e.err == OK && e.chain != []
  }

  /** All bytes received. */
  function Data(events: seq<Event>): seq<byte> {
    if events == [] then []
    else
      var e := events[|events| - 1];
      Data(events[..|events| - 1]) + if e.Received? then Concat(e.chain) else []
  }

  /** The frames of the chains that come while nothing is held. */
  function FramesWhenIdle(events: seq<Event>): seq<seq<byte>> {
    if events == [] then []
    else
      var before, e := events[..|events| - 1], events[|events| - 1];
      FramesWhenIdle(before) +
        if e.Received? && FRESH_SESSION.After(before).p == [] then Frames(Concat(e.chain)) else []
  }

  /** In a smooth run all bytes received are kept, and none is trashed; the frames sent are those of the
      chains that came while nothing was held. */
  lemma {:induction false} SmoothRun(events: seq<Event>)
    requires Smooth(events)
    ensures var s := FRESH_SESSION.After(events);
      && s.state.ES_RECEIVING? && !s.closed && s.trashed == 0
      && s.kept == Data(events) && s.frames == FramesWhenIdle(events)
  {
    hide Concat, Frames, Taken;
    if events != [] {
      var before, e := events[..|events| - 1], events[|events| - 1];
      assert e in events && forall x | x in before :: x in events;
      SmoothRun(before);
      assert FRESH_SESSION.After(events) == FRESH_SESSION.After(before).Next(e);
    }
  }

  /** In every run, what has been kept is what has been echoed and what is held. */
  lemma {:induction false} KeptIsEchoedOrHeld(events: seq<Event>)
    ensures var s := FRESH_SESSION.After(events);
      s.kept == s.echoed + Concat(s.p)
  {
    hide Concat, Frames;
    NoBytes();
    if events != [] {
      var before, e := events[..|events| - 1], events[|events| - 1];
      KeptIsEchoedOrHeld(before);
      NextKeeps(FRESH_SESSION.After(before), e);
    }
  }

  lemma NextKeeps(v: View, e: Event)
    requires v.kept == v.echoed + Concat(v.p)
    ensures var s := v.Next(e);
      s.kept == s.echoed + Concat(s.p)
  {
    hide Concat, Frames, Taken;
    NoBytes();
    assert v.echoed + [] == v.echoed;
    EchoKeeps(v.echoed, v.p, Taken(v.p, e.tcp, 0));
    if e.Received? && e.chain != [] {
      EchoKeeps(v.echoed, e.chain, Taken(e.chain, e.tcp, 0));
      ConcatBoth(v.p, e.chain);
      assert v.echoed + (Concat(v.p) + Concat(e.chain)) == (v.echoed + Concat(v.p)) + Concat(e.chain);
    }
  }

  lemma EchoKeeps(echoed: seq<byte>, p: seq<seq<byte>>, n: nat)
    requires n <= |p|
    ensures (echoed + Concat(p[..n])) + Concat(p[n..]) == echoed + Concat(p)
  {
    hide Concat;
    ConcatBoth(p[..n], p[n..]);
    assert p[..n] + p[n..] == p;
    Assoc(echoed, Concat(p[..n]), Concat(p[n..]));
  }

  lemma Assoc(x: seq<byte>, y: seq<byte>, z: seq<byte>)
    ensures x + (y + z) == (x + y) + z
  {
  }

  /** Where TCP takes all that it is offered, everything held is echoed. */
  lemma EchoesAll(v: View, tcp: Tcp)
    requires TakesAll(v.p, tcp) && v.kept == v.echoed + Concat(v.p)
    ensures v.Echo(tcp).p == [] && v.Echo(tcp).echoed == v.kept
  {
    hide Concat;
    TakenExactly(v.p, tcp, 0);
    assert Taken(v.p, tcp, 0) == |v.p|;
    assert v.p[..|v.p|] == v.p;
  }

  /** Once TCP takes all that it is offered, everything received in a smooth run has been echoed; the session is then
      closed by the close of the peer, and not before. */
  lemma EchoedAtLast(events: seq<Event>, tcp: Tcp, err: Err)
    requires Smooth(events) && TakesAll(FRESH_SESSION.After(events).p, tcp)
    ensures var polled := events + [SentOrPoll(tcp)];
      var s := FRESH_SESSION.After(polled);
      && s.echoed == Data(events) && s.p == [] && !s.closed
      && FRESH_SESSION.After(polled + [Received([], err, tcp)]).closed
  {
    hide Concat, Frames, Taken, Smooth, TakesAll, View.Echo, Data;
    var polled := events + [SentOrPoll(tcp)];
    var v, closing := FRESH_SESSION.After(events), polled + [Received([], err, tcp)];
    SmoothRun(events);
    KeptIsEchoedOrHeld(events);
    EchoesAll(v, tcp);
    EchoKeepsTheRest(v, tcp);
    assert polled[..|events|] == events && closing[..|polled|] == polled;
    assert FRESH_SESSION.After(polled) == v.Next(SentOrPoll(tcp));
    NoBytes();
    assert v.echoed + [] == v.echoed;
    assert FRESH_SESSION.After(closing) == FRESH_SESSION.After(polled).Next(Received([], err, tcp));
  }

  lemma EchoKeepsTheRest(v: View, tcp: Tcp)
    ensures v.Echo(tcp).state == v.state && v.Echo(tcp).closed == v.closed && v.Echo(tcp).frames == v.frames
  {
  }

  /** A session that is closed holds nothing, and its peer has closed. */
  lemma {:induction false} ClosedIsDone(events: seq<Event>)
    ensures var s := FRESH_SESSION.After(events);
      s.closed ==> s.p == [] && s.state == ES_CLOSING && exists e :: e in events && e.Received? && e.chain == []
    ensures FRESH_SESSION.After(events).state == ES_CLOSING ==> exists e :: e in events && e.Received? && e.chain == []
  {
    hide Concat, Frames, Taken;
    if events != [] {
      var before, e := events[..|events| - 1], events[|events| - 1];
      ClosedIsDone(before);
      assert e in events && forall x | x in before :: x in events;
    }
  }

  /** A chain that comes while an earlier one is held is held, too, and never becomes frames. */
  lemma HeldIsNotFramed(a: seq<seq<byte>>, b: seq<seq<byte>>, tcp: Tcp)
    requires a != [] && b != []
    ensures var s := FRESH_SESSION.After([Received(a, OK, tcp), Received(b, OK, tcp)]);
      s.p == a + b && s.echoed == [] && s.frames == Frames(Concat(a))
  {
    hide Concat, Frames, Taken;
    var x, y := Received(a, OK, tcp), Received(b, OK, tcp);
    assert [x, y][..1] == [x] && [x][..0] == [];
    var s := FRESH_SESSION.After([x]);
    assert s == FRESH_SESSION.After([]).Next(x);
    assert s.p == a;
    assert FRESH_SESSION.After([x, y]) == s.Next(y);
  }
}
