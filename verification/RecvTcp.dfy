/** Receiving from a TCP socket: lwip_recv_tcp over netconn_recv_data_tcp, with the pbuf a partial
    read leaves behind and a FIN that is kept back while there is data to return. */
module RecvTcp {
  import opened Words
  import opened Types
  import opened TcpPcb
  import opened Vectors

  const SSIZE_MAX := 0x7FFF_FFFF

  /** What the TCP side puts into recvmbox: a pbuf, or an error that is passed as a message. */
  datatype Msg = Data(bytes: seq<byte>) | Failure(err: Err)

  /** The result of a receive call: data, end of stream (0) or an errno (-1). */
  datatype Outcome = Received(bytes: seq<byte>) | EndOfStream | Failed(err: Err)

  function ErrOf(out: Outcome): Err {
    match out
    case Received(_) => OK
    case EndOfStream => CLSD
    case Failed(e) => e
  }

  /** The stream that messages carry. */
  function Bytes(msgs: seq<Msg>): seq<byte> {
    if msgs == [] then [] else Carried(msgs[0]) + Bytes(msgs[1..])
  }

  function Carried(m: Msg): seq<byte> {
    if m.Data? then m.bytes else []
  }

  lemma {:induction false} BytesConcat(a: seq<Msg>, b: seq<Msg>)
    ensures Bytes(a + b) == Bytes(a) + Bytes(b)
  {
    hide Carried;
    if a == [] {
      assert a + b == b;
    } else {
      var all := a + b;
      BytesConcat(a[1..], b);
      assert all[1..] == a[1..] + b && all[0] == a[0];
      Assoc(Carried(a[0]), Bytes(a[1..]), Bytes(b));
    }
  }

  lemma Assoc(x: seq<byte>, y: seq<byte>, z: seq<byte>)
    ensures x + (y + z) == (x + y) + z
  {
  }

  lemma NoMessages()
    ensures Bytes([]) == []
  {
  }

  lemma BytesOfOne(m: Msg)
    ensures Bytes([m]) == if m.Data? then m.bytes else []
  {
  }

  lemma {:induction false} FailuresCarryNothing(msgs: seq<Msg>)
    requires forall m | m in msgs :: m.Failure?
    ensures Bytes(msgs) == []
  {
    if msgs != [] {
      assert msgs[0] in msgs;
      FailuresCarryNothing(msgs[1..]);
    }
  }

  /** A mailbox as the TCP side fills it: pbufs are not empty and come before any failure; there is
      a failure only if the stream has ended, and no pbuf once a failure has been fetched. */
  ghost predicate Orderly(mbox: seq<Msg>, ended: bool, endTaken: bool) {
    && (forall m | m in mbox :: m.Data? ==> 0 < |m.bytes| <= 0xFFFF && !endTaken)
    && (forall m | m in mbox :: m.Failure? ==> ended)
    && (forall i, j | 0 <= i < j < |mbox| :: mbox[i].Failure? ==> mbox[j].Failure?)
  }

  lemma AppendData(mbox: seq<Msg>, p: seq<byte>)
    requires Orderly(mbox, false, false) && 0 < |p| <= 0xFFFF
    ensures Orderly(mbox + [Data(p)], false, false)
    ensures Bytes(mbox + [Data(p)]) == Bytes(mbox) + p
  {
    BytesConcat(mbox, [Data(p)]);
    assert Bytes([Data(p)]) == p;
    forall i | 0 <= i < |mbox| ensures !mbox[i].Failure? {
      assert mbox[i] in mbox;
    }
  }

  lemma AppendFailure(mbox: seq<Msg>, ended: bool, endTaken: bool, err: Err)
    requires Orderly(mbox, ended, endTaken)
    ensures Orderly(mbox + [Failure(err)], true, endTaken)
    ensures Bytes(mbox + [Failure(err)]) == Bytes(mbox)
  {
    BytesConcat(mbox, [Failure(err)]);
    assert Bytes([Failure(err)]) == [];
  }

  /** Taking the first message. */
  lemma TakeFirst(mbox: seq<Msg>, ended: bool, endTaken: bool)
    requires Orderly(mbox, ended, endTaken) && mbox != []
    ensures mbox[0].Data? ==> Orderly(mbox[1..], ended, endTaken) && !endTaken && 0 < |mbox[0].bytes| <= 0xFFFF
    ensures mbox[0].Data? ==> Bytes(mbox) == mbox[0].bytes + Bytes(mbox[1..])
    ensures mbox[0].Failure? ==> Orderly(mbox[1..], ended, true) && ended && Bytes(mbox) == Bytes(mbox[1..]) == []
  {
    assert mbox[0] in mbox;
    if mbox[0].Failure? {
      forall m | m in mbox[1..] ensures m.Failure? {
        var j :| 0 <= j < |mbox[1..]| && mbox[1..][j] == m;
        assert mbox[j + 1].Failure?;
      }
      FailuresCarryNothing(mbox[1..]);
    }
  }

  lemma NoDataLeft(mbox: seq<Msg>, ended: bool)
    requires Orderly(mbox, ended, true)
    ensures Bytes(mbox) == []
  {
    FailuresCarryNothing(mbox);
  }

  // ---- How a stream ends ----

  /** What has become of the end of a stream: whether the peer's FIN has been posted; which error has been stored, and
      whether the mailbox has taken it, too; how many of these messages have been fetched; and whether a
      receive call has reported an end. */
  datatype Ending = Ending(fin: bool, stored: Option<Err>, errPosted: bool, taken: nat, reported: bool) {
    /** The messages that end the stream, in order. */
    function All(): seq<Err> {
      (if fin then [CLSD] else []) + (if errPosted && stored.Some? then [stored.value] else [])
    }

    predicate Comes() {
      fin || stored.Some?
    }
  }

  function Failures(msgs: seq<Msg>): seq<Err> {
    if msgs == [] then [] else (if msgs[0].Failure? then [msgs[0].err] else []) + Failures(msgs[1..])
  }

  lemma NoFailures()
    ensures Failures([]) == []
  {
  }

  lemma {:induction false} FailuresAppend(msgs: seq<Msg>, m: Msg)
    ensures Failures(msgs + [m]) == Failures(msgs) + if m.Failure? then [m.err] else []
  {
    if msgs == [] {
      assert msgs + [m] == [m];
      assert [m][1..] == [];
    } else {
      FailuresAppend(msgs[1..], m);
      assert (msgs + [m])[1..] == msgs[1..] + [m];
    }
  }

  lemma FailuresFirst(msgs: seq<Msg>)
    requires msgs != []
    ensures msgs[0].Data? ==> Failures(msgs[1..]) == Failures(msgs)
    ensures msgs[0].Failure? ==> Failures(msgs) != [] && Failures(msgs)[0] == msgs[0].err && Failures(msgs)[1..] == Failures(msgs[1..])
  {
  }

  predicate IsError(err: Err) {
    err == ABRT || err == RST || err == CLSD
  }

  /** The stored error has been lost before any call reported it: the mailbox had no room for it, and a call that
      had data to return has taken it from where it was stored. */
  predicate IsLost(h: Ending, pendingErr: Err) {
    h.stored.Some? && !h.reported && pendingErr == OK
  }

  /** An end that has come stays as it is, but for an error behind the FIN. */
  predicate Grows(h: Ending, h': Ending) {
    && (h.fin ==> h'.fin) && (h.Comes() ==> h'.fin == h.fin)
    && (h.stored.Some? ==> h'.stored == h.stored && h'.errPosted == h.errPosted)
  }

  lemma FinalIs(out: Outcome)
    ensures Final(out) <==> !out.Received? && out != Failed(WOULDBLOCK)
  {
  }

  lemma GrowsSame(h: Ending)
    ensures Grows(h, h)
  {
  }

  lemma GrowsOn(a: Ending, b: Ending, c: Ending)
    requires Grows(a, b) && Grows(b, c)
    ensures Grows(a, c)
  {
  }

  /** What is in the mailbox and in the flags of an ending that has not been reported yet, and of one that has.
      `fetched` tells that a message for an orderly close has just been fetched. */
  ghost predicate EndsOk(h: Ending, fails: seq<Err>, pendingErr: Err, finPending: bool, mboxValid: bool, fetched: bool) {
    && (h.errPosted ==> h.stored.Some?) && (h.stored.Some? ==> IsError(h.stored.value))
    && (pendingErr != OK ==> h.stored == Some(pendingErr))
    && (h.reported ==> h.Comes())
    && (mboxValid ==> h.taken <= |h.All()| && fails == h.All()[h.taken..])
    && (!mboxValid ==> h.reported)
    && (h.taken > 0 ==> h.fin || h.errPosted)
    && (finPending ==> h.taken > 0 && !h.reported)
    && (fetched || finPending ==> h.taken > 0 && (h.fin || h.stored == Some(CLSD)))
    && (!h.reported && h.stored.Some? ==> pendingErr == h.stored.value || (!h.fin && !h.errPosted))
    && (!h.reported && h.taken > 0 ==> finPending || fetched || (!h.fin && h.stored != Some(CLSD)))
  }

  lemma ErrorEnds(h: Ending, fails: seq<Err>, err: Err, posted: bool, pendingErr: Err, finPending: bool, mboxValid: bool)
    requires EndsOk(h, fails, pendingErr, finPending, mboxValid, false) && h.stored.None? && IsError(err) && (posted ==> mboxValid)
    ensures EndsOk(h.(stored := Some(err), errPosted := posted), fails + if posted then [err] else [], err, finPending,
      mboxValid, false)
  {
    var h' := h.(stored := Some(err), errPosted := posted);
    assert h'.All() == h.All() + if posted then [err] else [];
  }

  /** Fetching the first message that ends the stream. */
  lemma TakenEnds(h: Ending, fails: seq<Err>, pendingErr: Err)
    requires EndsOk(h, fails, pendingErr, false, true, false) && fails != []
    ensures EndsOk(h.(taken := h.taken + 1), fails[1..], pendingErr, false, true, fails[0] == CLSD)
    ensures fails[0] != CLSD ==> h.stored == Some(fails[0])
    ensures IsError(fails[0]) && (h.fin || h.errPosted)
    ensures !IsLost(h, pendingErr)
  {
    assert fails[0] == h.All()[h.taken];
  }

  /** What an empty mailbox says: the stored error, which is thereby taken from where it was, or that there is
      nothing yet. */
  lemma EmptyEnds(h: Ending, pendingErr: Err, reports: bool)
    requires EndsOk(h, [], pendingErr, false, true, false) && (reports || h.taken == 0)
    ensures var err := if pendingErr != OK then pendingErr else if h.stored.Some? then CONN else WOULDBLOCK;
      var h' := h.(reported := h.reported || (reports && err != WOULDBLOCK));
      && EndsOk(h', [], OK, false, true, false) && Told(err, h.reported, IsLost(h, pendingErr), h')
      && (IsLost(h', OK) <==> !h.reported && !h'.reported && h.stored.Some? && !h.fin && !h.errPosted)
  {
  }

  /** A message for an orderly close is kept back. */
  lemma PendingEnds(h: Ending, fails: seq<Err>, pendingErr: Err)
    requires EndsOk(h, fails, pendingErr, false, true, true) && !h.reported
    ensures EndsOk(h, fails, pendingErr, true, true, false) && (h.fin || h.errPosted) && !IsLost(h, pendingErr)
  {
  }

  /** It is taken up again. */
  lemma FetchedEnds(h: Ending, fails: seq<Err>, pendingErr: Err, mboxValid: bool)
    requires EndsOk(h, fails, pendingErr, true, mboxValid, false)
    ensures EndsOk(h, fails, pendingErr, false, mboxValid, true)
  {
  }

  /** Without a mailbox, the end has been reported. */
  lemma GoneEnds(h: Ending, fails: seq<Err>, pendingErr: Err, finPending: bool)
    requires EndsOk(h, fails, pendingErr, finPending, false, false)
    ensures Told(CONN, h.reported, IsLost(h, pendingErr), h) && h.reported
  {
  }

  /** The end of the receive side. */
  lemma FinEnds(h: Ending, fails: seq<Err>, pendingErr: Err, mboxValid: bool)
    requires EndsOk(h, fails, pendingErr, false, mboxValid, true)
    ensures var err := if h.stored.None? then CLSD else if pendingErr != OK then pendingErr else RST;
      var h' := h.(reported := true);
      && EndsOk(h', fails, if h.stored.None? then pendingErr else OK, false, mboxValid, false)
      && EndsOk(h', [], if h.stored.None? then pendingErr else OK, false, false, false)
      && Told(err, h.reported, false, h') && !IsLost(h, pendingErr) && err != OK && err != WOULDBLOCK
  {
  }

  /** A report is kept in mind. */
  lemma Reported(h: Ending, fails: seq<Err>, pendingErr: Err, fetched: bool)
    requires EndsOk(h, fails, pendingErr, false, true, fetched) && h.taken > 0
    ensures EndsOk(h.(reported := true), fails, pendingErr, false, true, fetched)
    ensures !IsLost(h, pendingErr)
  {
  }

  lemma IsStored(h: Ending, fails: seq<Err>, pendingErr: Err, finPending: bool, mboxValid: bool)
    requires EndsOk(h, fails, pendingErr, finPending, mboxValid, false)
    ensures pendingErr != OK ==> h.stored == Some(pendingErr) && pendingErr != WOULDBLOCK
  {
  }

  /** Why a receive call returns no data, by the ending as it is then. The first report of an end is that of the peer's
      FIN while the connection is there, and otherwise the error that was stored, unless that has been lost. */
  predicate Told(err: Err, wasReported: bool, wasLost: bool, h: Ending) {
    if err == WOULDBLOCK then h.stored.None? && (!h.fin || wasReported)
    else if !wasReported then
      if h.stored.None? then err == CLSD && h.fin
      else err == if wasLost then CONN else h.stored.value
    else
      err == CONN || err == RST || h.stored == Some(err) || (err == CLSD && h.fin && h.stored.None?)
  }

  function Held(p: Option<seq<byte>>): seq<byte> {
    if p.Some? then p.value else []
  }

  /** The receive side of a netconn together with the socket's lastdata. */
  class Receiver {
    var mbox: seq<Msg>
    var mboxValid: bool
    var mboxClosed: bool            // NETCONN_FLAG_MBOXCLOSED
    var finPending: bool            // NETCONN_FIN_RX_PENDING
    var nonBlocking: bool           // NETCONN_FLAG_NON_BLOCKING
    var pendingErr: Err
    var pcbPresent: bool
    var lastdata: Option<seq<byte>> // sock->lastdata.pbuf
    var credit: nat                 // all bytes handed to tcp_recved
    ghost var posted: seq<Msg>      // everything ever put into the mailbox
    ghost var returned: seq<byte>   // everything receive calls have consumed
    ghost var owed: nat             // bytes the running call has yet to report to TCP
    var ended: bool                 // TCP has seen a FIN or an error
    ghost var endTaken: bool        // ... and has been fetched from the mailbox
    ghost var h: Ending             // what has become of it
    var waited: nat                 // how often a thread has waited for a message (not in the source)

    /** What later calls can still return. */
    ghost function Unread(): seq<byte>
      reads this
    {
      Held(lastdata) + Bytes(mbox)
    }

    /** Consistency, when `held` is the pbuf taken from the mailbox but not used up. */
    ghost predicate Carries(held: Option<seq<byte>>)
      reads this
    {
      && Bytes(posted) == returned + (Held(held) + Bytes(mbox))
      && credit + owed <= |returned| && (pcbPresent ==> credit + owed == |returned|)
      && (held.Some? ==> 0 < |held.value| <= 0xFFFF)
      && (finPending ==> endTaken && held.None?)
      && (endTaken || pendingErr != OK ==> ended)
      && Orderly(mbox, ended, endTaken)
      && (!pcbPresent ==> mboxClosed && ended)
      && (mboxClosed ==> ended)
      && (!mboxValid ==> mbox == [] && ended)
    }

    /** The end of the stream is where it belongs. */
    ghost predicate Ends(fetched: bool)
      reads this
    {
      && EndsOk(h, Failures(mbox), pendingErr, finPending, mboxValid, fetched)
      && (Lost() ==> mbox == [])
      && (pcbPresent <==> h.stored.None?) && (mboxClosed <==> !pcbPresent) && (ended <==> h.Comes()) && (endTaken <==> h.taken > 0)
    }

    ghost predicate ValidWith(held: Option<seq<byte>>, fetched: bool)
      reads this
    {
      && Carries(held) && Ends(fetched) && (held.Some? ==> !endTaken && !Lost())
      && (h.reported ==> held.None? && Bytes(mbox) == [])
    }

    ghost predicate Valid()
      reads this
    {
      ValidWith(lastdata, false)
    }

    ghost predicate Lost()
      reads this
    {
      IsLost(h, pendingErr)
    }

    constructor (nonBlocking: bool)
      ensures Valid() && posted == [] && returned == [] && owed == 0 && mboxValid && pcbPresent && !ended
      ensures this.nonBlocking == nonBlocking && h == Ending(false, None, false, 0, false)
    {
      mbox, mboxValid, mboxClosed, finPending, pendingErr, pcbPresent := [], true, false, false, OK, true;
      this.nonBlocking, lastdata, credit := nonBlocking, None, 0;
      posted, returned, owed, ended, endTaken := [], [], 0, false, false;
      h, waited := Ending(false, None, false, 0, false), 0;
    }

    // ---- The TCP side ----

    /** recv_tcp with data; TCP delivers none after a FIN or an error. */
    method DataArrives(p: seq<byte>)
      requires Valid() && !ended && mboxValid && 0 < |p| <= 0xFFFF
      modifies this`mbox, this`posted
      ensures Valid() && posted == old(posted) + [Data(p)] && mbox == old(mbox) + [Data(p)]
    {
      hide Bytes, Orderly, Failures;
      FailuresAppend(mbox, Data(p));
      BytesConcat(posted, [Data(p)]);
      BytesOfOne(Data(p));
      AppendData(mbox, p);
      assert returned + (Held(lastdata) + Bytes(mbox)) + p == returned + (Held(lastdata) + (Bytes(mbox) + p));
      mbox, posted := mbox + [Data(p)], posted + [Data(p)];
    }

    /** recv_tcp with a null pbuf: the FIN of the peer. */
    method FinArrives()
      requires Valid() && !ended && mboxValid
      modifies this`mbox, this`posted, this`ended, this`h
      ensures Valid() && ended && posted == old(posted) + [Failure(CLSD)] && mbox == old(mbox) + [Failure(CLSD)]
      ensures h == old(h).(fin := true)
    {
      hide Bytes, Orderly, Failures;
      PostFailure(CLSD);
      h := h.(fin := true);
    }

    /** err_tcp: the error is stored, and posted if the mailbox takes it, which an empty one does. */
    method ErrorArrives(err: Err, room: bool)
      requires Valid() && pcbPresent && IsError(err) && (mbox == [] ==> room)
      modifies this`mbox, this`posted, this`ended, this`pendingErr, this`mboxClosed, this`pcbPresent, this`h
      ensures Valid() && !pcbPresent && pendingErr == err
      ensures h == old(h).(stored := Some(err), errPosted := mboxValid && room)
      ensures if mboxValid && room then mbox == old(mbox) + [Failure(err)] && posted == old(posted) + [Failure(err)]
              else mbox == old(mbox) && posted == old(posted)
      ensures old(ended) ==> ended && Bytes(posted) == old(Bytes(posted))
    {
      hide Bytes, Failures, EndsOk, Told;
      if mboxValid && room {
        PostFailure(err);
      }
      pcbPresent, pendingErr, mboxClosed, ended := false, err, true, true;
      assert old(Failures(mbox)) + [] == old(Failures(mbox));
      ErrorEnds(h, old(Failures(mbox)), err, mboxValid && room, old(pendingErr), finPending, mboxValid);
      h := h.(stored := Some(err), errPosted := mboxValid && room);
    }

    method PostFailure(err: Err)
      requires Carries(lastdata) && mboxValid
      modifies this`mbox, this`posted, this`ended
      ensures Carries(lastdata) && ended && posted == old(posted) + [Failure(err)] && mbox == old(mbox) + [Failure(err)]
      ensures Failures(mbox) == old(Failures(mbox)) + [err] && Bytes(mbox) == old(Bytes(mbox))
      ensures old(ended) ==> ended && Bytes(posted) == old(Bytes(posted))
    {
      hide Bytes, Orderly, Failures;
      FailuresAppend(mbox, Failure(err));
      BytesConcat(posted, [Failure(err)]);
      BytesOfOne(Failure(err));
      AppendFailure(mbox, ended, endTaken, err);
      mbox, posted, ended := mbox + [Failure(err)], posted + [Failure(err)], true;
    }

    /** What arrivals do to the ending: an error that is stored is the last thing that arrives. */
    twostate predicate OnlyArrivals()
      reads this
    {
      && h.reported == old(h).reported && h.taken == old(h).taken && Grows(old(h), h)
      && (old(h).stored.Some? ==> h == old(h) && mbox == old(mbox) && pendingErr == old(pendingErr))
      && (h.stored.None? ==> pendingErr == old(pendingErr))
      && (old(h).stored.None? && h.stored.Some? ==> pendingErr == h.stored.value != OK)
    }

    /** Any number of arrivals, at any moment. */
    method Arrivals()
      requires Valid()
      modifies this`mbox, this`posted, this`ended, this`pendingErr, this`mboxClosed, this`pcbPresent, this`h
      ensures Valid() && OnlyArrivals() && old(posted) <= posted && old(Unread()) <= Unread()
      ensures old(mbox) <= mbox && (old(ended) ==> ended)
      ensures mbox == [] && mboxValid && old(pcbPresent) ==> pcbPresent
      ensures old(ended) ==> ended && Bytes(posted) == old(Bytes(posted))
    {
      hide Bytes, Orderly, Failures;
      var n: nat := *;
      while n > 0
        invariant Valid() && OnlyArrivals() && old(posted) <= posted && old(mbox) <= mbox && (old(ended) ==> ended)
        invariant mbox == [] && mboxValid && old(pcbPresent) ==> pcbPresent
        invariant old(ended) ==> Bytes(posted) == old(Bytes(posted))
      {
        Arrival();
        n := n - 1;
      }
      ghost var more := mbox[|old(mbox)|..];
      assert mbox == old(mbox) + more;
      BytesConcat(old(mbox), more);
    }

    /** One arrival, or none. */
    method Arrival()
      requires Valid()
      modifies this`mbox, this`posted, this`ended, this`pendingErr, this`mboxClosed, this`pcbPresent, this`h
      ensures Valid() && OnlyArrivals() && old(posted) <= posted && old(mbox) <= mbox && (old(ended) ==> ended)
      ensures mbox == [] && mboxValid && old(pcbPresent) ==> pcbPresent
      ensures old(ended) ==> Bytes(posted) == old(Bytes(posted))
    {
      hide Bytes, Orderly, Failures, EndsOk;
      var p: seq<byte> := *;
      var err: Err := *;
      var room: bool := *;
      var fin: bool := *;
      if !ended && mboxValid && 0 < |p| <= 0xFFFF {
        DataArrives(p);
      } else if !ended && mboxValid && fin {
        FinArrives();
      } else if pcbPresent && IsError(err) {
        ErrorArrives(err, room || mbox == []);
      }
    }

    // ---- The application side ----

    /** netconn_err */
    method TakePendingErr() returns (err: Err)
      modifies this`pendingErr
      ensures err == old(pendingErr) && pendingErr == OK
    {
      err, pendingErr := pendingErr, OK;
    }

    /** sys_arch_mbox_fetch without a timeout: arrivals go on until there is a message. A mailbox that
        is waited on can still get one: the connection has not been torn down. */
    method WaitForMessage()
      requires Valid() && mboxValid && pcbPresent
      modifies this`mbox, this`posted, this`ended, this`pendingErr, this`mboxClosed, this`pcbPresent, this`h, this`waited
      ensures Valid() && OnlyArrivals() && old(posted) <= posted && mbox != []
      ensures waited == old(waited) + if old(mbox) == [] then 1 else 0
      ensures old(mbox) <= mbox && (old(ended) ==> ended)
      ensures old(ended) ==> ended && Bytes(posted) == old(Bytes(posted))
    {
      hide Bytes, Orderly, Failures, EndsOk;
      if mbox == [] {
        waited := waited + 1;
      }
      Arrivals();
      if mbox == [] {
        if !ended {
          var p: seq<byte> := *;
          if 0 < |p| <= 0xFFFF {
            DataArrives(p);
          } else {
            FinArrives();
          }
        } else {
          ErrorArrives(RST, true);
        }
      }
    }

    /** netconn_recv_data for a TCP netconn. OK without a pbuf stands for a FIN. `reports` tells whether the caller
        has nothing else to return. */
    method RecvData(dontBlock: bool, ghost reports: bool) returns (err: Err, buf: Option<seq<byte>>)
      requires Valid() && lastdata.None? && !finPending && mboxValid && (reports || !endTaken)
      modifies this`mbox, this`posted, this`ended, this`endTaken, this`pendingErr, this`mboxClosed, this`pcbPresent, this`h, this`waited
      ensures ValidWith(buf, err == OK && buf.None?) && old(posted) <= posted
      ensures err != OK ==> buf.None?
      ensures err == OK && buf.None? ==> endTaken
      ensures buf.None? ==> Bytes(mbox) == []
      ensures err != OK ==> ended || (err == WOULDBLOCK && (nonBlocking || dontBlock))
      ensures (nonBlocking || dontBlock) && old(mbox) == [] ==> buf.None?
      ensures old(ended) ==> ended && Bytes(posted) == old(Bytes(posted))
      ensures Grows(old(h), h)
      ensures h.reported == (old(h.reported) || (reports && err != OK && err != WOULDBLOCK))
      ensures err != OK ==> Told(err, old(h.reported), old(Lost()), h)
      ensures err == OK ==> !old(Lost())
      ensures Lost() <==> !old(h.reported) && !h.reported && h.stored.Some? && !h.fin && !h.errPosted && err != OK
      ensures waited == old(waited) + if old(mbox) == [] && !nonBlocking && !dontBlock && !old(mboxClosed) && old(pendingErr) == OK then 1 else 0
    {
      hide Bytes, Orderly, Failures, EndsOk, Told;
      if nonBlocking || dontBlock || mboxClosed || pendingErr != OK {
        if mbox == [] {
          buf := None;
          err := NothingThere(reports);
          return;
        }
      } else {
        WaitForMessage();
      }
      err, buf := TakeMessage(reports);
    }

    /** A mailbox that is found empty: netconn_err, or the reason why there is nothing. */
    method NothingThere(ghost reports: bool) returns (err: Err)
      requires Valid() && lastdata.None? && !finPending && mboxValid && mbox == [] && (reports || !endTaken)
      modifies this`pendingErr, this`h
      ensures Valid() && Bytes(mbox) == [] && err != OK && (err != WOULDBLOCK ==> ended)
      ensures h == old(h).(reported := h.reported)
      ensures h.reported == (old(h.reported) || (reports && err != WOULDBLOCK))
      ensures Told(err, old(h.reported), old(Lost()), h)
      ensures Lost() <==> !old(h.reported) && !h.reported && h.stored.Some? && !h.fin && !h.errPosted
    {
      hide Bytes, Orderly, Failures, EndsOk, Told;
      NoMessages();
      NoFailures();
      EmptyEnds(h, pendingErr, reports);
      IsStored(h, Failures(mbox), pendingErr, finPending, mboxValid);
      err := TakePendingErr();
      if err == OK {
        err := if mboxClosed then CONN else WOULDBLOCK;
      }
      h := h.(reported := h.reported || (reports && err != WOULDBLOCK));
    }

    /** The message that has been fetched: the next pbuf, or what ended the stream. */
    method TakeMessage(ghost reports: bool) returns (err: Err, buf: Option<seq<byte>>)
      requires Valid() && lastdata.None? && !finPending && mboxValid && mbox != [] && (reports || !endTaken)
      modifies this`mbox, this`endTaken, this`h
      ensures ValidWith(buf, err == OK && buf.None?) && !Lost() && !old(Lost())
      ensures if buf.None? then endTaken && ended && Bytes(mbox) == [] else err == OK
      ensures Grows(old(h), h) && h.stored == old(h.stored) && h.reported == (old(h.reported) || (reports && err != OK))
      ensures if buf.None? then h.fin || h.errPosted else !h.reported
      ensures err != CLSD && err != WOULDBLOCK && (err != OK ==> Told(err, old(h.reported), false, h))
    {
      hide Bytes, Orderly, Failures, EndsOk;
      TakeFirst(mbox, ended, endTaken);
      FailuresFirst(mbox);
      var msg := mbox[0];
      if msg.Failure? {
        TakenEnds(h, Failures(mbox), pendingErr);
        Reported(h.(taken := h.taken + 1), Failures(mbox[1..]), pendingErr, msg.err == CLSD);
      }
      mbox := mbox[1..];
      match msg
      case Failure(e) =>
        endTaken, h := true, h.(taken := h.taken + 1, reported := h.reported || (reports && e != CLSD));
        NoDataLeft(mbox, ended);
        return if e == CLSD then OK else e, None;
      case Data(p) =>
        return OK, Some(p);
    }

    /** The end of the receive side (handle_fin): ERR_CLSD, unless the connection is already gone.
        netconn_close_shutdown drains and frees the mailbox unless the netconn is busy. */
    method HandleFin(busy: bool) returns (err: Err)
      requires Carries(lastdata) && Ends(true) && lastdata.None? && endTaken && !finPending
      modifies this`mbox, this`mboxValid, this`pendingErr, this`h
      ensures Valid() && Bytes(mbox) == [] && h == old(h).(reported := true)
      ensures pcbPresent ==> err == CLSD && (!busy ==> !mboxValid)
      ensures !pcbPresent ==> err == if old(pendingErr) != OK then old(pendingErr) else RST
      ensures Told(err, old(h.reported), false, h) && !old(Lost()) && err != OK && err != WOULDBLOCK
    {
      hide Failures, EndsOk, Told, Bytes;
      NoDataLeft(mbox, ended);
      NoMessages();
      NoFailures();
      FinEnds(h, Failures(mbox), pendingErr, mboxValid);
      h := h.(reported := true);
      if !pcbPresent {
        err := TakePendingErr();
        if err == OK {
          err := RST;
        }
        return;
      }
      if !busy {
        mbox, mboxValid := [], false;
      }
      return CLSD;
    }

    /** netconn_recv_data_tcp with NETCONN_NOAUTORCVD */
    method RecvDataTcp(dontBlock: bool, noFin: bool, busy: bool) returns (err: Err, buf: Option<seq<byte>>)
      requires Valid() && lastdata.None? && (noFin ==> !endTaken && !h.reported)
      modifies this`mbox, this`mboxValid, this`posted, this`ended, this`endTaken, this`finPending,
        this`pendingErr, this`mboxClosed, this`pcbPresent, this`h, this`waited
      ensures ValidWith(buf, false) && old(posted) <= posted
      ensures err == OK <==> buf.Some?
      ensures err != OK ==> Bytes(mbox) == []
      ensures err != OK ==> ended || (err == WOULDBLOCK && (nonBlocking || dontBlock))
      ensures noFin && !old(finPending) && finPending ==> err == WOULDBLOCK
      ensures old(ended) ==> ended && Bytes(posted) == old(Bytes(posted))
      ensures Grows(old(h), h)
      ensures h.reported == (old(h.reported) || (!noFin && err != OK && err != WOULDBLOCK))
      ensures !noFin && err != OK ==> Told(err, old(h.reported), old(Lost()), h)
      ensures err == OK ==> !endTaken && !h.reported && !Lost() && !old(Lost())
      ensures noFin && err != OK ==> (Lost() <==> !h.reported && h.stored.Some? && !h.fin && !h.errPosted)
      ensures waited != old(waited) ==> waited == old(waited) + 1 && !nonBlocking && !dontBlock && old(mbox) == []
    {
      hide Bytes, Orderly, Failures, EndsOk, Told;
      NoMessages();
      buf := None;
      if !mboxValid {
        GoneEnds(h, Failures(mbox), pendingErr, finPending);
        err := CONN;
        return;
      }
      if finPending {
        FetchedEnds(h, Failures(mbox), pendingErr, mboxValid);
        finPending := false;
        err := HandleFin(busy);
        return;
      }
      err, buf := RecvData(dontBlock, !noFin);
      if err == OK && buf.None? {
        if noFin {
          PendingEnds(h, Failures(mbox), pendingErr);
          finPending := true;
          err := WOULDBLOCK;
        } else {
          err := HandleFin(busy);
        }
      }
    }

    /** lwip_netconn_do_recv: tells TCP, if it is still there, in pieces that fit a u16. */
    method TcpRecvd(len: nat)
      modifies this`credit
      ensures credit == if pcbPresent then old(credit) + len else old(credit)
    {
      if pcbPresent {
        var remaining := len;
        while true
          invariant remaining <= len && credit == old(credit) + len - remaining
          decreases remaining
        {
          var recved := if remaining > 0xFFFF then 0xFFFF else remaining;
          credit := credit + recved;
          remaining := remaining - recved;
          if remaining == 0 {
            break;
          }
        }
      }
    }

    /** The start of a turn, after whatever has arrived: unless data is left from before, the next
        pbuf is fetched. */
    method Refill(dontBlock: bool, noFin: bool, busy: bool) returns (err: Err)
      requires Valid() && (noFin ==> !endTaken && !h.reported && lastdata.None?)
      modifies this`mbox, this`mboxValid, this`posted, this`ended, this`endTaken, this`finPending,
        this`pendingErr, this`mboxClosed, this`pcbPresent, this`lastdata, this`h, this`waited
      ensures Valid() && old(posted) <= posted
      ensures err == OK <==> lastdata.Some?
      ensures err == OK ==> lastdata.value != []
      ensures err != OK ==> returned == Bytes(posted)
      ensures err != OK ==> ended || (err == WOULDBLOCK && (nonBlocking || dontBlock))
      ensures old(ended) ==> ended && Bytes(posted) == old(Bytes(posted))
      ensures Grows(old(h), h)
      ensures h.reported == (old(h.reported) || (!noFin && err != OK && err != WOULDBLOCK))
      ensures !noFin && err != OK ==> Told(err, old(h.reported), old(Lost()), h)
      ensures err == OK ==> !endTaken && !h.reported && !Lost() && !old(Lost())
      ensures noFin && err != OK ==> (Lost() <==> !h.reported && h.stored.Some? && !h.fin && !h.errPosted)
      ensures waited != old(waited) ==> waited == old(waited) + 1 && !nonBlocking && !dontBlock && old(Unread()) == []
    {
      hide Bytes, Orderly, Failures, EndsOk, Told;
      NoMessages();
      Arrivals();
      err := OK;
      if lastdata.None? {
        var e, buf := RecvDataTcp(dontBlock, noFin, busy);
        err := e;
        if err == OK {
          lastdata := buf;
        }
      }
    }

    /** One turn's use of the held pbuf: its first n bytes are consumed, the rest stays. */
    method Consume(n: nat)
      requires Valid() && lastdata.Some? && n <= |lastdata.value|
      modifies this`lastdata, this`returned, this`owed
      ensures Valid() && !endTaken && !h.reported && !Lost()
      ensures returned == old(returned) + old(lastdata).value[..n] && owed == old(owed) + n
      ensures lastdata == if n < |old(lastdata).value| then Some(old(lastdata).value[n..]) else None
    {
      hide Bytes, Orderly, Failures, EndsOk, Told;
      var p := lastdata.value;
      returned, owed := returned + p[..n], owed + n;
      if |p| - n > 0 {
        lastdata := Some(p[n..]);
      } else {
        lastdata := None;
      }
      assert p == p[..n] + Held(lastdata);
      assert old(returned) + (p + Bytes(mbox)) == returned + Unread();
    }

    /** What a turn returns: as much of the held pbuf as is asked for; a peek leaves it where it is. */
    method TakePart(recvLeft: nat, peek: bool) returns (part: seq<byte>)
      requires Valid() && lastdata.Some?
      modifies this`lastdata, this`returned, this`owed
      ensures Valid() && !endTaken && !h.reported && !Lost()
      ensures |part| <= recvLeft && (part == [] ==> recvLeft == 0)
      ensures peek ==> lastdata == old(lastdata) && returned == old(returned) && owed == old(owed) && part <= Unread()
      ensures !peek ==> returned == old(returned) + part && owed == old(owed) + |part| && (|part| < recvLeft ==> lastdata.None?)
    {
      hide Bytes, Orderly, Receiver.Carries, Receiver.Ends;
      var p := lastdata.value;
      HeldData();
      var copylen := if recvLeft > |p| then |p| else recvLeft;
      part := p[..copylen];
      if !peek {
        Consume(copylen);
      } else {
        assert p == part + p[copylen..];
      }
    }

    /** One turn of the loop: what is fetched, or left from before, and what the call gets of it. */
    method Turn(recvLeft: nat, dontBlock: bool, noFin: bool, peek: bool, busy: bool) returns (err: Err, part: seq<byte>)
      requires Valid() && (noFin ==> !endTaken && !h.reported && lastdata.None?)
      modifies this`mbox, this`mboxValid, this`posted, this`ended, this`endTaken, this`finPending, this`pendingErr,
        this`mboxClosed, this`pcbPresent, this`lastdata, this`h, this`waited, this`returned, this`owed
      ensures Valid() && old(posted) <= posted && Grows(old(h), h)
      ensures old(ended) ==> ended && Bytes(posted) == old(Bytes(posted))
      ensures err == OK ==> |part| <= recvLeft && (part == [] ==> recvLeft == 0)
      ensures err == OK ==> !endTaken && !h.reported && !Lost() && !old(h.reported)
      ensures err == OK && peek ==> returned == old(returned) && owed == old(owed) && part <= Unread()
      ensures err == OK && !peek ==>
        returned == old(returned) + part && owed == old(owed) + |part| && (|part| < recvLeft ==> lastdata.None?)
      ensures err != OK ==> returned == old(returned) == Bytes(posted) && owed == old(owed) && lastdata.None?
      ensures err != OK ==> ended || (err == WOULDBLOCK && (nonBlocking || dontBlock))
      ensures h.reported == (old(h.reported) || (!noFin && err != OK && err != WOULDBLOCK))
      ensures !noFin && err != OK ==> Told(err, old(h.reported), old(Lost()), h)
      ensures noFin && err != OK ==> (Lost() <==> !h.reported && h.stored.Some? && !h.fin && !h.errPosted)
      ensures waited != old(waited) ==> waited == old(waited) + 1 && !nonBlocking && !dontBlock && old(Unread()) == []
    {
      hide Bytes, Orderly, Receiver.ValidWith, Told, EndsOk, Grows;
      part := [];
      err := Refill(dontBlock, noFin, busy);
      if err == OK {
        part := TakePart(recvLeft, peek);
      }
    }

    lemma HeldData()
      requires Valid() && lastdata.Some?
      ensures lastdata.value != [] && !endTaken && !h.reported && !Lost()
    {
    }

    /** The end of lwip_recv_tcp: TCP is credited with what has been consumed. */
    method Settle(recvd: nat)
      requires Valid() && owed == recvd
      modifies this`credit, this`owed
      ensures Valid() && owed == 0 && Lost() == old(Lost())
    {
      hide Bytes, Orderly;
      if recvd > 0 {
        TcpRecvd(recvd);
      }
      owed := 0;
    }

    lemma StreamSplit()
      requires Valid()
      ensures Bytes(posted) == returned + Unread()
      ensures pcbPresent ==> credit + owed == |returned|
    {
    }

    /** The loop of lwip_recv_tcp. It ends with data, or with the reason why there is none. */
    method ReceiveUpTo(limit: nat, dontWait: bool, peek: bool, busy: bool) returns (err: Err, recvd: seq<byte>)
      requires Valid() && owed == 0 && limit <= SSIZE_MAX
      modifies this`mbox, this`mboxValid, this`posted, this`ended, this`endTaken, this`finPending, this`pendingErr,
        this`mboxClosed, this`pcbPresent, this`lastdata, this`h, this`waited, this`returned, this`owed
      ensures Valid() && old(posted) <= posted && Grows(old(h), h)
      ensures old(ended) ==> ended && Bytes(posted) == old(Bytes(posted))
      ensures |recvd| <= limit && (err == OK && recvd == [] ==> limit == 0)
      ensures if peek then returned == old(returned) && owed == 0 else returned == old(returned) + recvd && owed == |recvd|
      ensures peek && err == OK ==> recvd <= Unread()
      ensures err != OK ==> recvd == [] && lastdata.None? && returned == Bytes(posted)
      ensures err != OK ==> Told(err, old(h.reported), old(Lost()), h)
      ensures err != OK ==> ended || (err == WOULDBLOCK && (nonBlocking || dontWait))
      ensures h.reported == (old(h.reported) || (err != OK && err != WOULDBLOCK))
      ensures err == OK ==> (Lost() <==> h.stored.Some? && !h.fin && !h.errPosted && !peek && |recvd| < limit)
      ensures waited != old(waited) ==> waited == old(waited) + 1 && !dontWait && !nonBlocking && old(Unread()) == []
    {
      hide Bytes, Orderly, Receiver.ValidWith, Receiver.Carries, Receiver.Ends, Told, EndsOk, Grows, Receiver.Lost;
      hide Receiver.Unread;
      GrowsSame(h);
      ghost var unread := Unread();
      recvd := [];
      var recvLeft := limit;
      var dontBlock, noFin := dontWait, false;
      while true
        invariant Valid() && old(posted) <= posted && Grows(old(h), h)
        invariant |recvd| + recvLeft == limit
        invariant returned == old(returned) + recvd && owed == |recvd|
        invariant old(ended) ==> ended && Bytes(posted) == old(Bytes(posted))
        invariant recvd == [] ==> dontBlock == dontWait && !noFin && h.reported == old(h.reported) && Lost() == old(Lost())
        invariant recvd == [] ==> waited == old(waited) && Unread() == unread
        invariant recvd != [] ==> !peek && noFin && recvLeft > 0 && !old(h.reported)
        invariant waited != old(waited) ==> waited == old(waited) + 1 && !dontWait && !nonBlocking && unread == []
        invariant noFin ==> dontBlock && !endTaken && !h.reported && lastdata.None? && !Lost()
        decreases recvLeft
      {
        ghost var h0 := h;
        var part;
        err, part := Turn(recvLeft, dontBlock, noFin, peek, busy);
        GrowsOn(old(h), h0, h);
        if err != OK {
          if |recvd| > 0 {
            err := OK;
          }
          return;
        }
        assert |recvd| + |part| <= SSIZE_MAX; // the overflow case of the source cannot occur
        Assoc(old(returned), recvd, part);
        recvd := recvd + part;
        recvLeft := recvLeft - |part|;
        if peek {
          return;
        }
        dontBlock, noFin := true, true;
        if recvLeft == 0 {
          return;
        }
      }
    }

    /** lwip_recv_tcp. Whatever arrives meanwhile: the bytes returned are the next ones of the stream
        and TCP is credited with exactly them; a peek only looks; the end of the stream is reported
        when everything posted has been returned. */
    method LwipRecvTcp(len: nat, dontWait: bool, peek: bool, busy: bool) returns (out: Outcome)
      requires Valid() && owed == 0
      modifies this
      ensures Valid() && owed == 0 && old(posted) <= posted && nonBlocking == old(nonBlocking)
      ensures out.Received? ==> |out.bytes| <= len && (len > 0 ==> out.bytes != [])
      ensures out.Received? && !peek ==> returned == old(returned) + out.bytes
      ensures out.Received? && peek ==> returned == old(returned) && out.bytes <= Unread()
      ensures !out.Received? ==> returned == old(returned)
      ensures !out.Received? ==> lastdata.None? && returned == Bytes(posted)
      ensures old(Unread()) != [] ==> out.Received?
      ensures out.EndOfStream? ==> ended
      ensures out.Failed? ==> out.err != OK && out.err != CLSD
      ensures out.Failed? ==> (out.err == WOULDBLOCK && (dontWait || nonBlocking)) || ended
      ensures old(ended) ==> ended && Bytes(posted) == old(Bytes(posted))
      ensures !out.Received? ==> Told(ErrOf(out), old(h.reported), old(Lost()), h)
      ensures h.reported == (old(h.reported) || Final(out))
      ensures Grows(old(h), h)
      ensures out.Received? ==>
        (Lost() <==> h.stored.Some? && !h.fin && !h.errPosted && !peek && |out.bytes| < len && |out.bytes| < SSIZE_MAX)
      ensures waited != old(waited) ==> waited == old(waited) + 1 && !dontWait && !nonBlocking && old(Unread()) == []
    {
      hide Bytes, Orderly, Carried, Receiver.ValidWith, Receiver.Carries, Receiver.Ends, Told, EndsOk, Grows, Receiver.Lost;
      ghost var before, unread := posted, Unread();
      StreamSplit();
      var recvLeft := if len <= SSIZE_MAX then len else SSIZE_MAX;
      var err, recvd := ReceiveUpTo(recvLeft, dontWait, peek, busy);
      if err != OK {
        BytesPrefix(before, posted);
        NoneUnread(old(returned), unread, Bytes(before), Bytes(posted));
        return if err == CLSD then EndOfStream else Failed(err);
      }
      if !peek {
        Settle(|recvd|);
      }
      return Received(recvd);
    }
  }

  lemma NoneUnread(returned: seq<byte>, unread: seq<byte>, stream: seq<byte>, more: seq<byte>)
    requires stream == returned + unread && stream <= more && more == returned
    ensures unread == []
  {
  }

  /** A receive call of an application. */
  datatype Call = Call(len: nat, dontWait: bool, peek: bool, busy: bool)

  /** What the first n calls have returned and consumed. */
  function Got(calls: seq<Call>, outs: seq<Outcome>, n: nat): seq<byte>
    requires n <= |outs| <= |calls|
  {
    if n == 0 then []
    else Got(calls, outs, n - 1) + if outs[n - 1].Received? && !calls[n - 1].peek then outs[n - 1].bytes else []
  }

  /** A result after which no data comes: the end of the stream or an error other than having to wait. */
  predicate Final(out: Outcome) {
    !out.Received? && out != Failed(WOULDBLOCK)
  }

  /** The result of a call, given the stream that has come in: the next bytes of it, at least one if the caller
      asks for any and no more than that; or its end or an error, when all of it has been returned. */
  ghost predicate Explained(calls: seq<Call>, outs: seq<Outcome>, i: nat, stream: seq<byte>)
    requires i < |outs| <= |calls|
  {
    && (outs[i].Received? ==>
          && |outs[i].bytes| <= calls[i].len && (calls[i].len > 0 ==> outs[i].bytes != [])
          && Got(calls, outs, i) + outs[i].bytes <= stream)
    && (outs[i] == Failed(WOULDBLOCK) ==> Got(calls, outs, i) <= stream)
    && (Final(outs[i]) ==> Got(calls, outs, i) == stream)
  }

  /** The result for an end of the stream, by what ended it: the end of the stream only for a FIN of the peer, or an
      error of that kind. The first report is for the FIN, or for the error that was stored, unless that has
      been lost. */
  predicate EndTold(out: Outcome, first: bool, h: Ending) {
    Final(out) ==>
      && h.Comes()
      && (out.EndOfStream? ==> h.fin || h.stored == Some(CLSD))
      && (out.Failed? ==> out.err == CONN || out.err == RST || h.stored == Some(out.err))
      && (first && h.stored.None? ==> out.EndOfStream?)
      && (first && h.stored.Some? ==>
            || (out.EndOfStream? && h.fin)
            || ErrOf(out) == h.stored.value
            || (ErrOf(out) == CONN && !h.fin && !h.errPosted))
  }

  lemma EndMeans(out: Outcome, first: bool, h: Ending)
    requires EndTold(out, first, h)
    ensures out == EndOfStream ==> h.fin || h.stored == Some(CLSD)
    ensures out != Failed(WOULDBLOCK) && !out.Received? && first && h.stored.None? ==> out == EndOfStream && h.fin
  {
  }

  lemma StillTold(out: Outcome, first: bool, h: Ending, h': Ending)
    requires EndTold(out, first, h) && Grows(h, h')
    ensures EndTold(out, first, h')
  {
  }

  lemma ToldEnd(out: Outcome, wasReported: bool, wasLost: bool, h: Ending)
    requires !out.Received? && Told(ErrOf(out), wasReported, wasLost, h) && (out.Failed? ==> out.err != CLSD)
    requires Final(out) ==> h.Comes()
    requires wasLost ==> !wasReported && !h.fin && !h.errPosted
    requires h.stored.Some? ==> IsError(h.stored.value)
    ensures EndTold(out, !wasReported, h)
  {
  }

  lemma DataTold(out: Outcome, first: bool, h: Ending)
    requires out.Received?
    ensures EndTold(out, first, h)
  {
  }

  /** The first of the results that reports an end. */
  predicate IsFirst(outs: seq<Outcome>, i: nat)
    requires i < |outs|
  {
    forall j | 0 <= j < i :: !Final(outs[j])
  }

  lemma {:induction false} GotSame(calls: seq<Call>, a: seq<Outcome>, b: seq<Outcome>, n: nat)
    requires n <= |a| <= |b| <= |calls| && a == b[..|a|]
    ensures Got(calls, a, n) == Got(calls, b, n)
  {
    if n > 0 {
      GotSame(calls, a, b, n - 1);
      assert a[n - 1] == b[n - 1];
    }
  }

  /** Later results and later data do not change what explains an earlier result; after an end or an
      error there is no later data. */
  lemma StillExplained(calls: seq<Call>, a: seq<Outcome>, b: seq<Outcome>, i: nat, stream: seq<byte>, more: seq<byte>)
    requires i < |a| <= |b| <= |calls| && a == b[..|a|] && Explained(calls, a, i, stream)
    requires stream <= more && (Final(a[i]) ==> more == stream)
    ensures Explained(calls, b, i, more)
  {
    hide Got;
    GotSame(calls, a, b, i);
    assert b[i] == a[i];
  }

  lemma {:induction false} Explain(calls: seq<Call>, outs: seq<Outcome>, i: nat, unread: seq<byte>, stream: seq<byte>)
    requires i < |outs| <= |calls|
    requires outs[i].Received? ==>
      && |outs[i].bytes| <= calls[i].len && (calls[i].len > 0 ==> outs[i].bytes != [])
      && stream == Got(calls, outs, i + 1) + unread && (calls[i].peek ==> outs[i].bytes <= unread)
    requires !outs[i].Received? ==> stream == Got(calls, outs, i)
    ensures Explained(calls, outs, i, stream)
  {
    if outs[i].Received? && calls[i].peek {
      assert Got(calls, outs, i + 1) == Got(calls, outs, i);
      assert unread == outs[i].bytes + unread[|outs[i].bytes|..];
    }
  }

  lemma GotNext(calls: seq<Call>, outs: seq<Outcome>, n: nat)
    requires n < |outs| <= |calls|
    ensures Got(calls, outs, 0) == []
    ensures Got(calls, outs, n + 1) ==
      Got(calls, outs, n) + if outs[n].Received? && !calls[n].peek then outs[n].bytes else []
  {
  }

  lemma BytesPrefix(a: seq<Msg>, b: seq<Msg>)
    requires a <= b
    ensures Bytes(a) <= Bytes(b)
  {
    hide Bytes;
    var more := b[|a|..];
    assert b == a + more;
    BytesConcat(a, more);
  }

  /** Some pbufs arrive. */
  method PostAll(r: Receiver, pbufs: seq<seq<byte>>)
    requires r.Valid() && !r.ended && r.mboxValid
    requires forall k | 0 <= k < |pbufs| :: 0 < |pbufs[k]| <= 0xFFFF
    modifies r`mbox, r`posted
    ensures r.Valid() && Bytes(r.posted) == old(Bytes(r.posted)) + Concat(pbufs)
  {
    hide Bytes, Orderly, Concat, Receiver.ValidWith;
    ghost var start := Bytes(r.posted);
    NothingYet();
    assert pbufs[..0] == [] && start + [] == start;
    for k := 0 to |pbufs|
      invariant r.Valid() && Bytes(r.posted) == start + Concat(pbufs[..k])
    {
      BytesConcat(r.posted, [Data(pbufs[k])]);
      BytesOfOne(Data(pbufs[k]));
      r.DataArrives(pbufs[k]);
      ConcatLast(pbufs[..k], pbufs[k]);
      assert pbufs[..k + 1] == pbufs[..k] + [pbufs[k]];
      Assoc(start, Concat(pbufs[..k]), pbufs[k]);
    }
    assert pbufs[..|pbufs|] == pbufs;
  }

  lemma NothingYet()
    ensures Concat([]) == []
  {
  }

  /** A call that returns no data has a reason, and comes after all that was there at first has been returned. */
  ghost predicate Reasonable(calls: seq<Call>, outs: seq<Outcome>, i: nat, first: seq<byte>, nonBlocking: bool, ended: bool)
    requires i < |outs| <= |calls|
  {
    !outs[i].Received? ==>
      && (ended || (outs[i] == Failed(WOULDBLOCK) && (calls[i].dontWait || nonBlocking)))
      && first <= Got(calls, outs, i)
  }

  /** What becomes of all earlier results with one more call. */
  lemma OneMoreCall(calls: seq<Call>, a: seq<Outcome>, b: seq<Outcome>, stream: seq<byte>, more: seq<byte>,
      first: seq<byte>, nonBlocking: bool, was: bool, ended: bool)
    requires |a| + 1 == |b| <= |calls| && a == b[..|a|]
    requires forall i | 0 <= i < |a| :: Explained(calls, a, i, stream) && Reasonable(calls, a, i, first, nonBlocking, was)
    requires stream <= more && (was ==> ended && more == stream)
    ensures forall i | 0 <= i < |a| :: Explained(calls, b, i, more) && Reasonable(calls, b, i, first, nonBlocking, ended)
  {
    hide Got, Explained;
    forall i | 0 <= i < |a| ensures Explained(calls, b, i, more) && Reasonable(calls, b, i, first, nonBlocking, ended) {
      assert Reasonable(calls, a, i, first, nonBlocking, was);
      StillExplained(calls, a, b, i, stream, more);
      GotSame(calls, a, b, i);
      assert b[i] == a[i];
    }
  }

  /** Any sequence of receive calls on a connection that some pbufs have come in on, with arrivals at any
      moment: each call returns the next bytes of the stream or its end, the consuming calls together return
      an initial part of it, in order, and TCP is credited with exactly that. A call that returns no data
      has a reason, and none does before all that was there has been returned. */
  method Receive(calls: seq<Call>, nonBlocking: bool, first: seq<seq<byte>>) returns (r: Receiver, outs: seq<Outcome>)
    requires forall k | 0 <= k < |first| :: 0 < |first[k]| <= 0xFFFF
    ensures r.Valid() && |outs| == |calls|
    ensures r.returned == Got(calls, outs, |calls|) && Bytes(r.posted) == Got(calls, outs, |calls|) + r.Unread()
    ensures r.pcbPresent ==> r.credit == |Got(calls, outs, |calls|)|
    ensures Concat(first) <= Bytes(r.posted)
    ensures forall i | 0 <= i < |calls| ::
      Explained(calls, outs, i, Bytes(r.posted)) && Reasonable(calls, outs, i, Concat(first), nonBlocking, r.ended)
    ensures forall i | 0 <= i < |calls| :: EndTold(outs[i], IsFirst(outs, i), r.h)
    ensures forall i | 0 <= i < |calls| && outs[i] == EndOfStream :: r.h.fin || r.h.stored == Some(CLSD)
    ensures forall i | 0 <= i < |calls| && outs[i] != Failed(WOULDBLOCK) && !outs[i].Received? && IsFirst(outs, i) ::
      r.h.stored.None? ==> outs[i] == EndOfStream && r.h.fin
  {
    hide Bytes, Orderly, Got, Explained, Concat, Reasonable, EndTold, Grows, IsFirst, Final;
    hide Receiver.Carries, Receiver.Ends;
    r := new Receiver(nonBlocking);
    NoMessages();
    PostAll(r, first);
    assert [] + Concat(first) == Concat(first);
    outs := [];
    GotNone(calls);
    while |outs| < |calls|
      invariant r.Valid() && r.owed == 0 && fresh(r) && |outs| <= |calls| && r.nonBlocking == nonBlocking
      invariant r.returned == Got(calls, outs, |outs|) && Concat(first) <= Bytes(r.posted)
      invariant forall i | 0 <= i < |outs| ::
        Explained(calls, outs, i, Bytes(r.posted)) && Reasonable(calls, outs, i, Concat(first), nonBlocking, r.ended)
      invariant forall i | 0 <= i < |outs| :: EndTold(outs[i], IsFirst(outs, i), r.h)
      invariant r.h.reported <==> exists i :: 0 <= i < |outs| && Final(outs[i])
    {
      ghost var before, posted, was, h := outs, r.posted, r.ended, r.h;
      outs := NextCall(r, calls, outs, Concat(first));
      GotSame(calls, before, outs, |before|);
      BytesPrefix(posted, r.posted);
      OneMoreCall(calls, before, outs, Bytes(posted), Bytes(r.posted), Concat(first), nonBlocking, was, r.ended);
      OneMoreEnd(before, outs, h, r.h);
    }
    r.StreamSplit();
    forall i | 0 <= i < |calls|
      ensures outs[i] == EndOfStream ==> r.h.fin || r.h.stored == Some(CLSD)
      ensures outs[i] != Failed(WOULDBLOCK) && !outs[i].Received? && IsFirst(outs, i) && r.h.stored.None? ==>
        outs[i] == EndOfStream && r.h.fin
    {
      EndMeans(outs[i], IsFirst(outs, i), r.h);
    }
  }

  lemma OneMoreEnd(a: seq<Outcome>, b: seq<Outcome>, h: Ending, h': Ending)
    requires |b| == |a| + 1 && a == b[..|a|] && Grows(h, h')
    requires forall i | 0 <= i < |a| :: EndTold(a[i], IsFirst(a, i), h)
    requires h.reported <==> exists i :: 0 <= i < |a| && Final(a[i])
    requires h'.reported == (h.reported || Final(b[|a|])) && EndTold(b[|a|], !h.reported, h')
    ensures forall i | 0 <= i < |b| :: EndTold(b[i], IsFirst(b, i), h')
    ensures h'.reported <==> exists i :: 0 <= i < |b| && Final(b[i])
  {
    hide EndTold, Grows, Final;
    var n := |a|;
    forall i | 0 <= i < n ensures b[i] == a[i] {
    }
    forall i | 0 <= i < |b| ensures EndTold(b[i], IsFirst(b, i), h') {
      if i < n {
        assert EndTold(a[i], IsFirst(a, i), h);
        assert IsFirst(b, i) <==> IsFirst(a, i);
        StillTold(a[i], IsFirst(a, i), h, h');
      } else {
        assert IsFirst(b, n) <==> !h.reported;
      }
    }
    if Final(b[n]) {
      assert h'.reported;
    }
    if i :| 0 <= i < n && Final(a[i]) {
      assert Final(b[i]);
    }
  }

  /** One call more. */
  method NextCall(r: Receiver, calls: seq<Call>, outs: seq<Outcome>, ghost first: seq<byte>) returns (outs': seq<Outcome>)
    requires r.Valid() && r.owed == 0 && |outs| < |calls|
    requires r.returned == Got(calls, outs, |outs|) && first <= Bytes(r.posted)
    modifies r
    ensures r.Valid() && r.owed == 0 && r.nonBlocking == old(r.nonBlocking) && old(r.posted) <= r.posted
    ensures old(r.ended) ==> r.ended && Bytes(r.posted) == old(Bytes(r.posted))
    ensures |outs'| == |outs| + 1 && outs'[..|outs|] == outs
    ensures r.returned == Got(calls, outs', |outs'|) && first <= Bytes(r.posted)
    ensures Explained(calls, outs', |outs|, Bytes(r.posted))
    ensures Reasonable(calls, outs', |outs|, first, r.nonBlocking, r.ended)
    ensures Grows(old(r.h), r.h) && r.h.reported == (old(r.h.reported) || Final(outs'[|outs|]))
    ensures EndTold(outs'[|outs|], !old(r.h.reported), r.h)
  {
    hide Bytes, Orderly, Got, Explained, Receiver.ValidWith, EndTold, Told;
    ghost var posted := r.posted;
    var c := calls[|outs|];
    ghost var h, lost := r.h, r.Lost();
    LostBefore(r);
    var out := r.LwipRecvTcp(c.len, c.dontWait, c.peek, c.busy);
    LostBefore(r);
    if out.Received? {
      DataTold(out, !h.reported, r.h);
    } else {
      ToldEnd(out, h.reported, lost, r.h);
    }
    outs' := outs + [out];
    GotSame(calls, outs, outs', |outs|);
    GotNext(calls, outs', |outs|);
    BytesPrefix(posted, r.posted);
    r.StreamSplit();
    Explain(calls, outs', |outs|, r.Unread(), Bytes(r.posted));
  }

  lemma LostBefore(r: Receiver)
    requires r.Valid()
    ensures r.Lost() ==> !r.h.reported && !r.h.fin && !r.h.errPosted && r.h.stored.Some?
    ensures r.ended <==> r.h.Comes()
    ensures r.h.stored.Some? ==> IsError(r.h.stored.value)
  {
    hide Bytes, Orderly, Failures;
  }

  lemma GotNone(calls: seq<Call>)
    ensures Got(calls, [], 0) == []
  {
  }
}
