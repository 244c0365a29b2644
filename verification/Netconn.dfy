/** The message protocol between application threads and a TCP netconn: lwip_netconn_do_* and the
    TCP callbacks, for messages that wait on a semaphore of their own. */
module Netconn {
  import opened Words
  import opened Types
  import opened TcpPcb
  import opened Vectors

  /** enum netconn_state */
  datatype State = NONE | WRITE | LISTENING | CONNECT | CLOSE

  /** enum netconn_evt, as far as this layer raises them */
  datatype Event = RcvPlus | SendPlus | SendMinus | Error

  /** What a thread asks for: the function it sends, and its arguments. */
  datatype Request =
    | Newconn
    | WriteVectors(vectors: seq<seq<byte>>, len: nat, dontBlock: bool)
    | CloseRequest(rd: bool, wr: bool, polls: u8)
    | DelconnRequest(polls: u8)
    | ConnectRequest
    | ListenRequest

  /** A write that has been answered: its vectors, and how many of their bytes TCP has taken. */
  datatype Write = Write(vectors: seq<seq<byte>>, offset: nat) {
    function Taken(): seq<byte> {
      if offset <= |Concat(vectors)| then Concat(vectors)[..offset] else Concat(vectors)
    }
  }

  /** The bytes of several writes, one after the other. */
  function Joined(ws: seq<Write>): seq<byte> {
    if ws == [] then [] else Joined(ws[..|ws| - 1]) + ws[|ws| - 1].Taken()
  }

  lemma JoinedLast(ws: seq<Write>, w: Write)
    ensures Joined(ws + [w]) == Joined(ws) + w.Taken()
  {
    assert (ws + [w])[..|ws|] == ws;
  }

  /** A write in progress, as it is before lwip_netconn_do_writemore is called. */
  datatype Situation = Situation(tcp: Pcb, heard: bool, calls: seq<TcpCall>, wrote: Err, dontBlock: bool, reach: nat,
    willStick: bool, stuck: bool, overrun: bool, finished: seq<Write>, offset: nat, base: seq<byte>)

  /** What the answer to a write of `len` bytes says of the bytes that TCP has taken. */
  predicate TellsWriter(err: Err, offset: nat, len: nat, dontBlock: bool) {
    && (err == OK ==> if dontBlock then offset > 0 else offset == len)
    && (err == WOULDBLOCK ==> dontBlock && offset == 0)
    && (err == OK || err == WOULDBLOCK || err == CONN || err == RTE)
  }

  /** What TCP was asked, beyond n earlier calls, when lwip_netconn_do_writemore has come to its end: `wrote` is what
      stopped the loop, and `answer` what the message is answered with, if it is. Data is sent out unless tcp_write
      has refused it or there was no room for a byte; ERR_RTE is the answer exactly when there is no route for it. */
  predicate AsksToWrite(calls: seq<TcpCall>, n: nat, wrote: Err, answer: Option<Err>) {
    var k := |calls|;
    && n <= k
    && if wrote == CONN then k > n && calls[k - 1] == Wrote(CONN)
       else if answer == Some(WOULDBLOCK) && wrote == OK then k == n || calls[k - 1] == Wrote(OK)
       else
         && k > n && calls[k - 1].SentOut? && (calls[k - 1].err == RTE <==> answer == Some(RTE))
         && (wrote == MEM <==> k > n + 1 && calls[k - 2] == Wrote(MEM))
  }

  /** What TCP is asked to close, and what becomes of the message: a full close asks tcp_close, and aborts where memory
      is short and no polls are left; closing one direction asks tcp_shutdown for just that. */
  predicate AsksToClose(asked: seq<TcpCall>, shutClose: bool, rd: bool, wr: bool, polls: nat, waits: bool, answer: Err) {
    if shutClose then
      || (asked == [Closes(OK)] && !waits && answer == OK)
      || (asked == [Closes(MEM)] && waits && polls > 0)
      || (asked == [Closes(MEM), Aborts] && !waits && polls == 0 && answer == OK)
    else
      && |asked| == 1 && asked[0].Shuts? && asked[0].rx == rd && asked[0].tx == wr
      && (waits <==> asked[0].err == MEM && polls > 0) && (!waits ==> answer == asked[0].err)
  }

  /** What TCP is asked to connect, and what becomes of the message. */
  predicate AsksToConnect(asked: seq<TcpCall>, nonBlocking: bool, waits: bool, answer: Err) {
    && |asked| == 1 && asked[0].Connects?
    && (waits <==> asked[0].err == OK && !nonBlocking)
    && (!waits ==> answer == if asked[0].err == OK then INPROGRESS else asked[0].err)
  }

  /** What TCP is asked to listen, and the answer: where there is no mailbox for connections, the new control block is
      closed again. */
  predicate AsksToListen(asked: seq<TcpCall>, mbox: bool, answer: Err) {
    || (asked == [] && answer == VAL)
    || (|asked| == 1 && asked[0].Listens? && asked[0].err == answer && (answer == OK ==> mbox))
    || (asked == [Listens(OK), Closes(OK)] && !mbox && answer == MEM)
  }

  /** struct api_msg: the request of one blocked thread. */
  class ApiMsg {
    const request: Request
    var err: Err
    var signals: nat                    // how often op_completed has been signalled
    // msg.w, as the request asks
    const vectors: seq<seq<byte>> := if request.WriteVectors? then request.vectors else []
    const len: nat := if request.WriteVectors? then request.len else 0
    const dontBlock: bool := request.WriteVectors? && request.dontBlock     // NETCONN_DONTBLOCK
    var vector: nat                     // index of the current vector
    var vectorCnt: nat
    var vectorOff: nat
    var offset: nat
    ghost var base: seq<byte>           // what the connection had queued before this write
    // msg.sd
    var shutRd: bool
    var shutWr: bool
    var pollsLeft: u8

    /** The message netconn_write_vectors_partly sends; `len` may be less than the vectors hold. */
    constructor ForWrite(vectors: seq<seq<byte>>, len: nat, dontBlock: bool)
      ensures request == WriteVectors(vectors, len, dontBlock)
      ensures signals == 0 && vector == 0 && vectorCnt == |vectors| && vectorOff == 0 && offset == 0
      ensures 0 < len <= |Concat(vectors)| ==> Unfinished()
    {
      request := WriteVectors(vectors, len, dontBlock);
      vector, vectorCnt, vectorOff, offset := 0, |vectors|, 0, 0;
      err, signals, shutRd, shutWr, pollsLeft := VAL, 0, false, false, 0;
    }

    /** The message of any other request; netconn_close_shutdown and netconn_prepare_delete set the shut
        flags and the polls. */
    constructor ForOther(request: Request)
      ensures this.request == request && signals == 0
      ensures request.CloseRequest? ==> shutRd == request.rd && shutWr == request.wr && pollsLeft == request.polls
      ensures request.DelconnRequest? ==> pollsLeft == request.polls
    {
      this.request := request;
      vector, vectorCnt, vectorOff, offset := 0, 0, 0, 0;
      err, signals := VAL, 0;
      shutRd, shutWr := request.CloseRequest? && request.rd, request.CloseRequest? && request.wr;
      pollsLeft := if request.CloseRequest? || request.DelconnRequest? then request.polls else 0;
    }

    /** A message that closes what its request asks for: some directions, or all when the netconn is deleted. */
    predicate AsAsked()
      reads this`shutRd, this`shutWr
    {
      || (request.CloseRequest? && shutRd == request.rd && shutWr == request.wr)
      || (request.DelconnRequest? && shutRd && shutWr)
    }

    /** TCPIP_APIMSG_ACK */
    method Signal()
      modifies this`signals
      ensures signals == old(signals) + 1
    {
      signals := signals + 1;
    }

    /** The write cursor is consistent: offset counts the finished vectors and the part of the
        current one. */
    ghost predicate Cursor()
      reads this
    {
      && vector < |vectors| && vectorOff <= |vectors[vector]|
      && len <= |Concat(vectors)| && offset <= |Concat(vectors)|
      && offset == Before(vectors, vector) + vectorOff
      && (vectorCnt == |vectors| - vector
          || (vectorCnt == 0 && vector == |vectors| - 1 && vectorOff == |vectors[vector]|))
    }

    /** Moves the cursor over n bytes that tcp_write has taken. */
    method Advance(n: nat)
      requires Cursor() && vectorCnt > 0 && n <= Diff()
      modifies this`offset, this`vectorOff, this`vectorCnt, this`vector
      ensures Cursor() && offset == old(offset) + n
      ensures vectorCnt == if n == old(Diff()) then old(vectorCnt) - 1 else old(vectorCnt)
      ensures vectorCnt == 0 ==> offset == |Concat(vectors)|
      ensures old(vectorOff) + n < |vectors[old(vector)]| ==> vector == old(vector) && vectorOff == old(vectorOff) + n
      ensures Concat(vectors)[..offset]
           == Concat(vectors)[..old(offset)] + vectors[old(vector)][old(vectorOff)..old(vectorOff) + n]
    {
      hide Concat, Before;
      NextBefore(vectors, vector);
      VectorInConcat(vectors, vector);
      ConcatLength(vectors);
      ExtendPrefix(vectors, vector, vectorOff, n);
      offset := offset + n;
      vectorOff := vectorOff + n;
      if vectorOff == |vectors[vector]| {
        vectorCnt := vectorCnt - 1;
        if vectorCnt > 0 {
          vector := vector + 1;
          vectorOff := 0;
        }
      }
    }

    /** What is left of the current vector is left of the whole. */
    lemma RestOfVector()
      requires Cursor()
      ensures offset + Diff() <= |Concat(vectors)|
      ensures vectorCnt == 0 || (vectorCnt == 1 && Diff() == 0) ==> offset == |Concat(vectors)|
    {
      VectorInConcat(vectors, vector);
      ConcatLength(vectors);
    }

    /** There is something left to write. */
    ghost predicate Unfinished()
      reads this
    {
      Cursor() && vectorCnt > 0 && offset < len
    }

    /** The write was meant to stop within its vectors and has come to its end or past it without an
        answer; lwip_netconn_do_writemore asserts that this does not happen. */
    ghost predicate Overrun()
      reads this
    {
      Cursor() && len <= offset && len < |Concat(vectors)|
    }

    /** Bytes of the current vector that are not written yet. */
    function Diff(): nat
      requires vector < |vectors| && vectorOff <= |vectors[vector]|
      reads this
    {
      |vectors[vector]| - vectorOff
    }
  }

  class Conn {
    var state: State
    var pcb: Pcb?
    var currentMsg: ApiMsg?
    var pendingErr: Err
    var nonBlocking: bool               // NETCONN_FLAG_NON_BLOCKING
    var inNonblockingConnect: bool      // NETCONN_FLAG_IN_NONBLOCKING_CONNECT
    var checkWritespace: bool           // NETCONN_FLAG_CHECK_WRITESPACE
    var mboxClosed: bool                // NETCONN_FLAG_MBOXCLOSED
    var acceptMbox: bool                // the acceptmbox is valid
    var events: seq<Event>              // API_EVENT calls so far
    var hung: bool                      // the tcpip thread never leaves lwip_netconn_do_writemore
    var asserted: bool                  // an assertion at its start has failed
    var wrote: Err                      // the last answer of tcp_write (bookkeeping)
    var tcp: Pcb?                       // the control block, also after it has been given up (bookkeeping)
    ghost var finished: seq<Write>      // the writes to this control block that have been answered
    ghost var msgs: set<ApiMsg>         // all messages handed to this netconn
    ghost var begun: set<ApiMsg>        // the writes among them that were taken on
    ghost var lost: set<ApiMsg>         // the closes among them that another close has overwritten

    /** Each message has been acknowledged once, except the current one and those that were lost, which
        have not. */
    ghost predicate Accounted()
      reads this, msgs
    {
      && (currentMsg != null ==> currentMsg in msgs && currentMsg !in lost)
      && lost <= msgs && begun <= msgs && Answered(msgs, Silent())
    }

    ghost function Silent(): set<ApiMsg>
      reads this
    {
      if currentMsg == null then lost else lost + {currentMsg}
    }

    /** Of some messages, all have been acknowledged once, except the silent ones. */
    static ghost predicate Answered(messages: set<ApiMsg>, silent: set<ApiMsg>)
      reads messages
    {
      forall m | m in messages :: m.signals == if m in silent then 0 else 1
    }

    static lemma TakenOn(messages: set<ApiMsg>, silent: set<ApiMsg>, msg: ApiMsg)
      requires Answered(messages, silent) && msg !in messages && msg.signals == 0
      ensures Answered(messages + {msg}, silent + {msg})
    {
    }

    /** What state, current_msg, the flag and the control block say about each other. */
    ghost predicate Coupled()
      reads this, pcb
    {
      && (currentMsg != null <==> state == WRITE || state == CLOSE || (state == CONNECT && !inNonblockingConnect))
      && (state != NONE ==> pcb != null) && (pcb != null ==> tcp == pcb)
      && (state == CONNECT <==> pcb != null && pcb.state == SYN_SENT)
      && (state == LISTENING <==> pcb != null && pcb.state == TcpState.LISTEN)
      && (inNonblockingConnect ==> state == CONNECT || pcb == null)
      && (pcb != null && state != LISTENING ==> pcb.argSet && pcb.pollCb && pcb.errCb)
      && (pcb != null && pcb.state == CLOSED ==> pcb.queued == [])
      && (state == WRITE <==> currentMsg != null && currentMsg in begun)
    }

    /** A write in progress has queued exactly the bytes its cursor says. */
    ghost predicate WriteInProgress()
      reads this, pcb, currentMsg
    {
      && pcb != null && currentMsg != null && (currentMsg.Unfinished() || currentMsg.Overrun())
      && currentMsg.base == Joined(finished)
      && pcb.queued == currentMsg.base + Concat(currentMsg.vectors)[..currentMsg.offset]
    }

    ghost predicate Valid()
      reads this, msgs, pcb, currentMsg
    {
      && !hung && !asserted && Accounted() && Coupled()
      && (state == WRITE ==> WriteInProgress())
      && (state != WRITE && pcb != null ==> pcb.queued == Joined(finished))
      && (state == CLOSE ==> currentMsg.pollsLeft > 0 && currentMsg.AsAsked() && Synchronized(pcb.state))
      && (state == CONNECT && currentMsg != null ==> currentMsg.request.ConnectRequest?)
    }

    /** What TCP was asked to do for this netconn. */
    function Calls(): seq<TcpCall>
      reads this, tcp
    {
      if tcp == null then [] else tcp.calls
    }

    /** The room in the send buffer. */
    function Room(): nat
      reads this, pcb
    {
      if pcb == null then 0 else pcb.sndBuf
    }

    /** The sent callback is registered. */
    predicate Heard()
      reads this, pcb
    {
      pcb != null && pcb.sentCb
    }

    constructor (nonBlocking: bool)
      ensures Valid() && msgs == {} && state == NONE && pcb == null && fresh(this) && finished == [] && begun == {} && lost == {}
      ensures this.nonBlocking == nonBlocking && !checkWritespace && !inNonblockingConnect && pendingErr == OK && wrote == OK && Calls() == []
    {
      state, pcb, currentMsg, pendingErr, msgs := NONE, null, null, OK, {};
      this.nonBlocking, inNonblockingConnect, checkWritespace, mboxClosed := nonBlocking, false, false, false;
      acceptMbox, tcp := false, null;
      events, hung, asserted, wrote, finished, begun, lost := [], false, false, OK, [], {}, {};
    }

    /** The netconn accept_function makes for a new connection. */
    constructor Accepted(newpcb: Pcb)
      requires Synchronized(newpcb.state) && newpcb.queued == []
      modifies newpcb
      ensures Valid() && msgs == {} && state == NONE && pcb == newpcb && fresh(this) && !nonBlocking && finished == []
      ensures begun == {} && lost == {} && pendingErr == OK && wrote == OK && Heard() && Room() == old(newpcb.sndBuf)
      ensures Calls() == old(newpcb.calls)
    {
      state, pcb, currentMsg, pendingErr, msgs := NONE, newpcb, null, OK, {};
      nonBlocking, inNonblockingConnect, checkWritespace, mboxClosed := false, false, false, false;
      acceptMbox, tcp := false, newpcb;
      events, hung, asserted, wrote, finished, begun, lost := [], false, false, OK, [], {}, {};
      new;
      newpcb.Setup();
    }

    /** lwip_netconn_do_newconn, the first message to a netconn an application creates; `memory` tells whether
        there is memory for a control block. */
    method DoNewconn(msg: ApiMsg, memory: bool)
      requires Valid() && Fresh(msg) && msgs == {} && !inNonblockingConnect && finished == []
      modifies this, msg
      ensures Valid() && msgs == {msg} && msg.signals == 1 && state == old(state) && finished == []
      ensures begun == old(begun) && lost == old(lost) && pendingErr == old(pendingErr) && nonBlocking == old(nonBlocking)
      ensures wrote == old(wrote)
      ensures old(pcb) != null ==> pcb == old(pcb) && msg.err == OK
      ensures old(pcb) == null ==> (pcb != null <==> memory) && Calls() == if memory then [] else old(Calls())
      ensures old(pcb) == null ==> if pcb == null then msg.err == MEM else msg.err == OK && pcb.state == CLOSED && fresh(pcb) && Heard()
    {
      hide Answered;
      hide Concat, ApiMsg.Cursor;
      msgs := msgs + {msg};
      assert msgs - {msg} == old(msgs);
      var err := OK;
      if pcb == null {
        if memory {
          pcb := new Pcb(CLOSED);
          tcp := pcb;
          pcb.Setup();
        } else {
          err := MEM;
        }
      }
      Ack(msg, err);
    }

    /** netconn_err: reads and clears the pending error. */
    method TakePendingErr() returns (err: Err)
      modifies this`pendingErr
      ensures err == old(pendingErr) && pendingErr == OK && (old(Valid()) ==> Valid())
    {
      err, pendingErr := pendingErr, OK;
    }

    // ---- Writing ----

    /** What every turn of the write loop keeps. */
    ghost predicate Writing()
      reads this, pcb, currentMsg
    {
      && state == WRITE && pcb != null && currentMsg != null
      && currentMsg.Cursor() && currentMsg.vectorCnt > 0
      && pcb.queued == currentMsg.base + Concat(currentMsg.vectors)[..currentMsg.offset]
    }

    /** netconn_is_nonblocking(conn) || (apiflags & NETCONN_DONTBLOCK) */
    predicate DontBlock()
      requires currentMsg != null
      reads this, currentMsg
    {
      nonBlocking || currentMsg.dontBlock
    }

    /** The offset to which the room in the send buffer takes a write. */
    ghost function Reach(): nat
      requires pcb != null && currentMsg != null
      reads this, pcb, currentMsg
    {
      currentMsg.offset + pcb.sndBuf
    }

    /** How many bytes of the vectors there are up to an offset. */
    static function TakenUpTo(vectors: seq<seq<byte>>, reach: nat): nat {
      if reach < |Concat(vectors)| then reach else |Concat(vectors)|
    }

    /** The write will come to stand where the u16 comparison takes the rest of a vector for zero. */
    ghost predicate WillStick()
      requires pcb != null && currentMsg != null
      reads this, pcb, currentMsg
    {
      !DontBlock() && MaySend(pcb.state) && Sticks(currentMsg.vectors, Reach())
    }

    /** The write loop turns without end: there is no room, and the rest of the current vector is a
        multiple of 65536 bytes. */
    ghost predicate Stuck()
      requires Writing()
      reads this, pcb, currentMsg
    {
      && !DontBlock() && MaySend(pcb.state) && pcb.sndBuf == 0
      && currentMsg.vectorCnt > 1 && currentMsg.Diff() > 0 && currentMsg.Diff() % 0x1_0000 == 0
    }

    lemma StuckSticks()
      requires Writing()
      ensures Stuck() ==> WillStick()
    {
      hide Concat, Before, Sticks;
      var m := currentMsg;
      if m.Diff() > 0 {
        SticksHere(m.vectors, m.vector, m.vectorOff, m.offset);
      }
    }

    /** What one turn of the write loop offers to TCP, and whether it asks for another turn. */
    method PlanChunk() returns (len: u16, more: bool, noRoom: bool)
      requires Writing()
      ensures noRoom <==> DontBlock() && pcb.sndBuf == 0 && currentMsg.Diff() > 0
      ensures len <= currentMsg.Diff() && len <= pcb.sndBuf
      ensures !noRoom ==> len == currentMsg.Diff() || len == pcb.sndBuf || len == 0xFFFF
      ensures !noRoom && len < currentMsg.Diff() ==>
        (more <==> len == 0xFFFF || (currentMsg.vectorCnt > 1 && (currentMsg.Diff() - len) % 0x1_0000 == 0))
      ensures !noRoom && len == currentMsg.Diff() ==> (more <==> currentMsg.vectorCnt > 1)
    {
      hide Concat, Before;
      more, noRoom := false, false;
      var diff := currentMsg.Diff();
      len := if diff > 0xFFFF then 0xFFFF else diff;
      var available := pcb.sndBuf;
      if available < len {
        len := available;
        if DontBlock() && len == 0 {
          noRoom := true;
          return;
        }
      }
      more := (len == 0xFFFF && diff > 0xFFFF) || (len == diff % 0x1_0000 && currentMsg.vectorCnt > 1);
    }

    /** One turn of the write loop, up to its loop test. */
    method WriteChunk() returns (err: Err, more: bool, noRoom: bool)
      requires Writing()
      modifies currentMsg, pcb
      ensures currentMsg.signals == old(currentMsg.signals) && currentMsg.base == old(currentMsg.base)
      ensures pcb.state == old(pcb.state) && pcb.argSet == old(pcb.argSet) && pcb.sentCb == old(pcb.sentCb)
      ensures pcb.pollCb == old(pcb.pollCb) && pcb.errCb == old(pcb.errCb)
      ensures currentMsg.Cursor() && currentMsg.offset >= old(currentMsg.offset) && Reach() == old(Reach())
      ensures err == OK && !noRoom ==> MaySend(pcb.state)
      ensures pcb.state == CLOSED ==> pcb.queued == old(pcb.queued)
      ensures pcb.queued == currentMsg.base + Concat(currentMsg.vectors)[..currentMsg.offset]
      ensures pcb.calls == old(pcb.calls) + if noRoom then [] else [Wrote(err)]
      ensures noRoom ==> !more && DontBlock() && err == if currentMsg.offset == 0 then WOULDBLOCK else OK
      ensures !noRoom ==> err == OK || err == MEM || (err == CONN && !MaySend(pcb.state))
      ensures more ==> err == OK && Writing()
      ensures err == MEM ==> currentMsg.offset < |Concat(currentMsg.vectors)|
      ensures err == OK && !more && DontBlock() && Concat(currentMsg.vectors) != [] ==> currentMsg.offset > 0
      ensures noRoom || (err == OK && !more) ==>
        currentMsg.offset == TakenUpTo(currentMsg.vectors, Reach())
      ensures err == OK && !more && !DontBlock() ==> !Sticks(currentMsg.vectors, Reach())
      ensures old(Stuck()) <==> more && currentMsg.offset == old(currentMsg.offset) && currentMsg.vectorCnt == old(currentMsg.vectorCnt)
      ensures old(Stuck()) ==> Stuck()
      ensures more ==> currentMsg.vectorCnt <= old(currentMsg.vectorCnt)
      ensures old(Accounted()) ==> Accounted()
      ensures old(Coupled()) ==> Coupled()
    {
      hide Answered, Concat, Before, Sticks, MaySend, Accounted, Coupled;
      var m := currentMsg;
      m.RestOfVector();
      var len;
      len, more, noRoom := PlanChunk();
      if noRoom {
        err, more := if m.offset == 0 then WOULDBLOCK else OK, false;
        return;
      }
      err := TakeChunk(len);
      EndOfLoop();
      more := more && err == OK;
    }

    /** tcp_write of the chunk, and the cursor behind it. */
    method TakeChunk(len: u16) returns (err: Err)
      requires Writing() && len <= currentMsg.Diff()
      modifies pcb`queued, pcb`sndBuf, pcb`queueLen, pcb`calls, currentMsg`offset, currentMsg`vectorOff, currentMsg`vectorCnt, currentMsg`vector
      ensures currentMsg.Cursor() && Reach() == old(Reach())
      ensures pcb.queued == currentMsg.base + Concat(currentMsg.vectors)[..currentMsg.offset]
      ensures err == OK || err == MEM || err == CONN
      ensures pcb.calls == old(pcb.calls) + [Wrote(err)]
      ensures err == CONN <==> !MaySend(pcb.state)
      ensures pcb.state == CLOSED ==> pcb.queued == old(pcb.queued)
      ensures err == MEM ==> len > 0
      ensures err == OK ==> currentMsg.offset == old(currentMsg.offset) + len
      ensures err != OK ==> currentMsg.offset == old(currentMsg.offset)
      ensures err == OK && len == old(currentMsg.Diff()) ==> currentMsg.vectorCnt == old(currentMsg.vectorCnt) - 1
      ensures err == OK && len < old(currentMsg.Diff()) ==>
        currentMsg.vectorCnt == old(currentMsg.vectorCnt) && currentMsg.Diff() == old(currentMsg.Diff()) - len
      ensures old(Accounted()) ==> Accounted()
      ensures old(Coupled()) ==> Coupled()
    {
      hide Concat, Before;
      var m := currentMsg;
      err := pcb.Write(m.vectors[m.vector][m.vectorOff..m.vectorOff + len]);
      if err == OK {
        m.Advance(len);
      }
    }

    /** Where no more can be written without room, its own rest decides whether a write sticks. */
    lemma EndOfLoop()
      requires pcb != null && currentMsg != null && currentMsg.Cursor()
      ensures var m := currentMsg;
        && (m.vectorCnt == 0 ==> m.offset == |Concat(m.vectors)| && !WillStick())
        && (m.vectorCnt > 0 && m.Diff() > 0 && pcb.sndBuf == 0 ==>
              (WillStick() <==> !DontBlock() && MaySend(pcb.state) && m.vectorCnt > 1 && m.Diff() % 0x1_0000 == 0))
    {
      hide Concat, Before, Sticks;
      var m := currentMsg;
      m.RestOfVector();
      if m.vectorCnt == 0 {
        NoStickBeyond(m.vectors, Reach());
      } else if m.Diff() > 0 && pcb.sndBuf == 0 {
        SticksHere(m.vectors, m.vector, m.vectorOff, m.offset);
      }
    }

    /** Hands the result to the waiting thread and leaves the state that kept it waiting. */
    method Complete(err: Err)
      requires currentMsg != null && Accounted()
      modifies this`currentMsg, this`state, currentMsg`err, currentMsg`signals
      ensures currentMsg == null && state == NONE && Accounted()
      ensures old(currentMsg).err == err && old(currentMsg).signals == 1
      ensures old(currentMsg.Cursor()) ==> old(currentMsg).Cursor()
    {
      var m := currentMsg;
      m.err, currentMsg, state := err, null, NONE;
      m.Signal();
    }

    /** Between two tests of lwip_netconn_do_writemore: the write has come to its cursor and is not answered. */
    ghost predicate Paused()
      reads this, msgs, pcb, currentMsg
    {
      && !hung && !asserted && Accounted() && Coupled() && state == WRITE && pcb != null && currentMsg != null
      && currentMsg.Cursor() && currentMsg.base == Joined(finished)
      && pcb.queued == currentMsg.base + Concat(currentMsg.vectors)[..currentMsg.offset]
    }

    lemma StillWaiting()
      requires Paused()
      requires currentMsg.offset < |Concat(currentMsg.vectors)| ==> currentMsg.vectorCnt > 0
      requires currentMsg.offset != currentMsg.len || currentMsg.offset < |Concat(currentMsg.vectors)|
      ensures Valid()
    {
      hide Concat, Before, Joined;
    }

    /** The last answer of tcp_write has let the loop go on. */
    static predicate Goes(calls: seq<TcpCall>, n: nat) {
      |calls| == n || (|calls| > n && calls[|calls| - 1] == Wrote(OK))
    }

    /** It has ended the loop, if that was not for want of room. */
    static predicate Stops(calls: seq<TcpCall>, n: nat, err: Err, noRoom: bool) {
      if noRoom then Goes(calls, n) else |calls| > n && calls[|calls| - 1] == Wrote(err)
    }

    static lemma TurnAsked(before: seq<TcpCall>, calls: seq<TcpCall>, n: nat, err: Err, more: bool, noRoom: bool)
      requires Goes(before, n) && calls == before + if noRoom then [] else [Wrote(err)]
      requires more ==> err == OK && !noRoom
      ensures if more then Goes(calls, n) else Stops(calls, n, err, noRoom)
    {
    }

    static lemma NothingGoes(calls: seq<TcpCall>)
      ensures Goes(calls, |calls|)
    {
    }

    /** Bookkeeping at the end of the write loop. */
    method LeaveLoop(hangs: bool, last: Err)
      modifies this`hung, this`wrote
      ensures hung == hangs && wrote == last
      ensures old(Accounted()) ==> Accounted()
      ensures old(Coupled()) ==> Coupled()
    {
      hung, wrote := hangs, last;
    }

    /** The write loop: it ends with an answer from tcp_write, without room for a byte of a write
        that must not wait, or never. Unless TCP lacks memory it never ends exactly when the write
        will stick, and otherwise takes the write as far as the room reaches. */
    method WriteLoop() returns (err: Err, noRoom: bool)
      requires Valid() && state == WRITE && currentMsg.Unfinished()
      modifies this`hung, this`wrote, pcb, currentMsg
      ensures hung ==> Writing() && Stuck() && old(WillStick()) && !DontBlock() && Accounted()
      ensures pcb != null && currentMsg != null && !asserted
      ensures if hung then wrote == OK else Paused() && wrote == if noRoom then OK else err
      ensures old(Stuck()) ==> hung
      ensures old(WillStick()) ==> hung || err == MEM
      ensures currentMsg.base == old(currentMsg.base) && pcb.sentCb == old(pcb.sentCb)
      ensures currentMsg.offset + pcb.sndBuf == old(currentMsg.offset + pcb.sndBuf)
      ensures old(pcb.calls) <= pcb.calls && (!hung ==> Stops(pcb.calls, |old(pcb.calls)|, err, noRoom))
      ensures !hung && err == OK && !DontBlock() ==> !Sticks(currentMsg.vectors, old(Reach()))
      ensures currentMsg.Cursor() && currentMsg.offset >= old(currentMsg.offset)
      ensures pcb.queued == currentMsg.base + Concat(currentMsg.vectors)[..currentMsg.offset]
      ensures noRoom ==> DontBlock() && err == if currentMsg.offset == 0 then WOULDBLOCK else OK
      ensures !noRoom ==> err == OK || err == MEM || (err == CONN && !MaySend(pcb.state))
      ensures err == MEM ==> currentMsg.offset < |Concat(currentMsg.vectors)|
      ensures !hung && (noRoom || err == OK) ==> currentMsg.offset == TakenUpTo(currentMsg.vectors, old(Reach()))
      ensures !hung && err == OK && DontBlock() ==> currentMsg.offset > 0
      ensures currentMsg.offset < |Concat(currentMsg.vectors)| ==> currentMsg.vectorCnt > 0
    {
      hide Concat, Before, Sticks, MaySend, Accounted, Coupled, Goes, Stops, Answered, Joined;
      var m := currentMsg;
      var more := true;
      err, noRoom := OK, false;
      NothingGoes(pcb.calls);
      while more
        invariant Accounted() && Coupled() && !hung
        invariant m.Cursor() && m.offset >= old(m.offset) && m.base == old(m.base) && Reach() == old(Reach())
        invariant pcb.queued == m.base + Concat(m.vectors)[..m.offset]
        invariant noRoom ==> !more && DontBlock() && err == if m.offset == 0 then WOULDBLOCK else OK
        invariant !noRoom ==> err == OK || err == MEM || (err == CONN && !MaySend(pcb.state))
        invariant more ==> err == OK && !noRoom && Writing()
        invariant err == MEM ==> m.offset < |Concat(m.vectors)|
        invariant err == OK && !more && DontBlock() ==> m.offset > 0
        invariant !more && (noRoom || err == OK) ==> m.offset == TakenUpTo(m.vectors, Reach())
        invariant !more && err == OK && !DontBlock() ==> !Sticks(m.vectors, Reach())
        invariant pcb.state == old(pcb.state) && pcb.sentCb == old(pcb.sentCb)
        invariant old(Stuck()) ==> more && Stuck()
        invariant old(pcb.calls) <= pcb.calls && (if more then Goes(pcb.calls, |old(pcb.calls)|) else Stops(pcb.calls, |old(pcb.calls)|, err, noRoom))
        decreases more, |Concat(m.vectors)| - m.offset + m.vectorCnt
      {
        var offset, cnt := m.offset, m.vectorCnt;
        ghost var calls := pcb.calls;
        err, more, noRoom := WriteChunk();
        TurnAsked(calls, pcb.calls, |old(pcb.calls)|, err, more, noRoom);
        if more && m.offset == offset && m.vectorCnt == cnt {
          StuckSticks();
          LeaveLoop(true, OK);
          return;
        }
      }
      m.RestOfVector();
      LeaveLoop(false, if noRoom then OK else err);
    }

    /** All bytes queued so far, in order: those of the writes that were answered, and those that the
        one in progress has come to. */
    ghost predicate Stream()
      reads this, pcb, currentMsg
    {
      pcb != null ==>
        if state != WRITE then pcb.queued == Joined(finished)
        else currentMsg != null && pcb.queued == Joined(finished) + Write(currentMsg.vectors, currentMsg.offset).Taken()
    }

    lemma ValidStream()
      requires Valid()
      ensures Stream()
    {
      hide Concat, Before, Joined;
    }

    lemma ContinuedStream(m: ApiMsg, s: Situation)
      requires Continued(m, s) && s.base == Joined(s.finished)
      ensures Stream() && Accounted()
    {
      hide Concat, Before, Joined, Stuck;
    }

    /** What the result of a finished write tells its caller. */
    static ghost predicate WriteResult(m: ApiMsg, dontBlock: bool)
      reads m
    {
      TellsWriter(m.err, m.offset, m.len, dontBlock)
    }

    /** The part of lwip_netconn_do_writemore that tells about the room left for writing. */
    method NoteRoom()
      requires currentMsg != null && pcb != null
      modifies this`events, this`checkWritespace
      ensures var short := DontBlock() && currentMsg.offset < currentMsg.len;
        && checkWritespace == (old(checkWritespace) || short)
        && events == old(events) + if short || !pcb.Writable() then [SendMinus] else []
      ensures old(Paused()) ==> Paused()
    {
      if DontBlock() && currentMsg.offset < currentMsg.len {
        events, checkWritespace := events + [SendMinus], true;
      } else if pcb.sndBuf <= TCP_SNDLOWAT || pcb.queueLen >= TCP_SNDQUEUELOWAT {
        events := events + [SendMinus];
      }
    }

    /** The part of lwip_netconn_do_writemore that sends what is queued and decides whether the write is
        finished, and with what result. */
    method WriteOutcome(loopErr: Err) returns (err: Err, writeFinished: bool)
      requires currentMsg != null && pcb != null
      modifies pcb`calls
      ensures if loopErr == OK || loopErr == MEM then
          && |pcb.calls| == |old(pcb.calls)| + 1 && pcb.calls[..|old(pcb.calls)|] == old(pcb.calls)
          && pcb.calls[|old(pcb.calls)|].SentOut?
          && (writeFinished && err == RTE <==> pcb.calls[|old(pcb.calls)|].err == RTE)
        else pcb.calls == old(pcb.calls) && writeFinished && err == loopErr
      ensures old(Paused()) ==> Paused()
      ensures !writeFinished ==> !DontBlock() && err == loopErr && (err == MEM || (err == OK && currentMsg.offset != currentMsg.len))
      ensures writeFinished && err == OK ==> loopErr == OK || (loopErr == MEM && currentMsg.offset != 0 && DontBlock())
      ensures writeFinished && err == OK && !DontBlock() ==> currentMsg.offset == currentMsg.len
      ensures err == WOULDBLOCK ==> loopErr == WOULDBLOCK || (DontBlock() && currentMsg.offset == 0)
      ensures writeFinished ==> err == OK || err == WOULDBLOCK || err == RTE || (err == loopErr && err != MEM)
      ensures loopErr == CONN ==> err == CONN
    {
      err, writeFinished := loopErr, false;
      if err == OK {
        if currentMsg.offset == currentMsg.len || DontBlock() {
          writeFinished := true;
        }
        var outErr := pcb.Output();
        if outErr == RTE {
          err, writeFinished := outErr, true;
        }
      } else if err == MEM {
        var outErr := pcb.Output();
        if outErr == RTE {
          err, writeFinished := outErr, true;
        } else if DontBlock() {
          err, writeFinished := if currentMsg.offset == 0 then WOULDBLOCK else OK, true;
        }
      } else {
        writeFinished := true;
      }
    }

    ghost function Now(): Situation
      requires pcb != null && currentMsg != null
      reads this, pcb, currentMsg
    {
      Situation(pcb, Heard(), pcb.calls, wrote, DontBlock(), Reach(), WillStick(), Writing() && Stuck(), currentMsg.Overrun(), finished,
        currentMsg.offset, currentMsg.base)
    }

    /** What a call of lwip_netconn_do_writemore leaves behind: either the message is answered, or it is
        blocking and goes on waiting; in both cases exactly the bytes counted by its offset have been
        queued and have used up as much of the room. Unless TCP lacks memory, the write has come as far as
        the room reaches; a blocking one is then answered, with success or for want of a route, if that is
        its length, and with success only then. It never ends exactly when the write will stick, and
        tcp_write does not lack memory. */
    ghost predicate Resumed(m: ApiMsg, s: Situation)
      reads this, msgs, pcb, currentMsg, m
    {
      && pcb == s.tcp && !asserted && m.Cursor() && pcb.queued == m.base + Concat(m.vectors)[..m.offset]
      && m.offset + pcb.sndBuf == s.reach && pcb.sentCb == s.heard
      && (hung ==> Writing() && Stuck() && currentMsg == m && Accounted() && finished == s.finished && s.willStick)
      && (s.stuck ==> hung)
      && (s.willStick ==> hung || wrote == MEM)
      && (!hung ==> Valid())
      && (!hung && state != NONE ==> state == WRITE && currentMsg == m && !s.dontBlock && finished == s.finished)
      && (!hung && state == NONE ==> WriteResult(m, s.dontBlock) && finished == s.finished + [Write(m.vectors, m.offset)])
      && (!hung && wrote == OK ==> m.offset == TakenUpTo(m.vectors, s.reach))
      && (!hung && wrote == OK && !s.dontBlock ==>
            if MeetsLength(m.vectors, m.len, s.reach) then state == NONE && (m.err == OK || m.err == RTE)
            else state == WRITE || m.err == RTE)
      && (!hung && wrote == OK && !s.dontBlock ==> !Sticks(m.vectors, s.reach))
      && (!hung && wrote == CONN ==> !MaySend(pcb.state))
      && (wrote == OK || wrote == MEM || wrote == CONN)
      && (wrote == CONN <==> !hung && state == NONE && m.err == CONN)
      && s.calls <= pcb.calls
      && (!hung ==> AsksToWrite(pcb.calls, |s.calls|, wrote, if state == NONE then Some(m.err) else None))
    }

    /** Room of this reach takes a write exactly to its length: enough room for a length that is that of
        the vectors, and just as much for one that is less. */
    static predicate MeetsLength(vectors: seq<seq<byte>>, len: nat, reach: nat) {
      if len == |Concat(vectors)| then reach >= len else reach == len
    }

    static lemma MeetsWhenTaken(m: ApiMsg, reach: nat)
      requires m.Cursor()
      ensures MeetsLength(m.vectors, m.len, reach) <==> TakenUpTo(m.vectors, reach) == m.len
    {
      hide Concat, Before;
    }

    /** The write that an assertion has stopped is still the current message, with its bytes queued. */
    ghost predicate Stopped(m: ApiMsg, s: Situation)
      reads this, msgs, pcb, m
    {
      && asserted && !hung && Accounted() && state == WRITE && currentMsg == m && pcb == s.tcp
      && m.Overrun() && m.offset == s.offset && finished == s.finished && wrote == s.wrote && pcb.calls == s.calls
      && pcb.queued == s.base + Concat(m.vectors)[..s.offset]
      && m.offset + pcb.sndBuf == s.reach && pcb.sentCb == s.heard
    }

    /** The assertions fail exactly on a write that has overrun its length. */
    ghost predicate Continued(m: ApiMsg, s: Situation)
      reads this, msgs, pcb, currentMsg, m
    {
      && m.base == s.base && m.offset >= s.offset
      && if s.overrun then Stopped(m, s) else Resumed(m, s)
    }

    /** lwip_netconn_do_writemore behind its assertions. */
    method ContinueWrite()
      requires Valid() && state == WRITE && currentMsg.Unfinished()
      modifies this`state, this`currentMsg, this`checkWritespace, this`events, this`hung, this`wrote, this`finished,
        pcb, currentMsg
      ensures Resumed(old(currentMsg), old(Now())) && old(currentMsg).base == old(currentMsg.base)
      ensures old(currentMsg).offset >= old(currentMsg.offset) && old(pcb.calls) <= pcb.calls
      ensures events == old(events) || events == old(events) + [SendMinus]
      ensures old(DontBlock()) && old(currentMsg).offset < old(currentMsg).len && old(currentMsg).err != CONN
          ==> checkWritespace && events == old(events) + [SendMinus]
    {
      hide Answered, Concat, Before, Sticks, Joined, WillStick, Stuck, MaySend, TakenUpTo, MeetsLength, Valid, Paused, ApiMsg.Cursor;
      hide Accounted, Coupled, TellsWriter;
      var err, noRoom := WriteLoop();
      if hung {
        return;
      }
      MeetsWhenTaken(currentMsg, old(Reach()));
      ghost var calls := pcb.calls;
      EndCall(err, noRoom);
      EndsAsked(calls, pcb.calls, |old(pcb.calls)|, err, noRoom, if state == NONE then Some(old(currentMsg).err) else None);
    }

    static lemma EndsAsked(a: seq<TcpCall>, b: seq<TcpCall>, n: nat, loopErr: Err, noRoom: bool, answer: Option<Err>)
      requires Stops(a, n, loopErr, noRoom) && a <= b
      requires noRoom ==> loopErr == OK || loopErr == WOULDBLOCK
      requires !noRoom ==> loopErr == OK || loopErr == MEM || loopErr == CONN
      requires if loopErr == OK || loopErr == MEM then
          |b| == |a| + 1 && b[|a|].SentOut? && (answer == Some(RTE) <==> b[|a|].err == RTE)
        else b == a && answer == Some(loopErr)
      requires answer == Some(WOULDBLOCK) ==> loopErr == WOULDBLOCK || loopErr == MEM
      ensures AsksToWrite(b, n, if noRoom then OK else loopErr, answer)
    {
    }

    /** What follows the write loop: the message is answered, or goes on waiting. */
    method EndCall(loopErr: Err, noRoom: bool)
      requires pcb != null && currentMsg != null && state == WRITE && Paused()
      requires noRoom ==> DontBlock() && loopErr == if currentMsg.offset == 0 then WOULDBLOCK else OK
      requires !noRoom ==> loopErr == OK || loopErr == MEM || loopErr == CONN
      requires loopErr == MEM ==> currentMsg.offset < |Concat(currentMsg.vectors)|
      requires loopErr == OK && DontBlock() ==> currentMsg.offset > 0
      requires currentMsg.offset < |Concat(currentMsg.vectors)| ==> currentMsg.vectorCnt > 0
      modifies this`state, this`currentMsg, this`checkWritespace, this`events, this`finished, pcb`calls, currentMsg`err,
        currentMsg`signals
      ensures Valid() && old(currentMsg).Cursor() && old(pcb.calls) <= pcb.calls
      ensures var n := |old(pcb.calls)|;
        if loopErr == OK || loopErr == MEM then
          |pcb.calls| == n + 1 && pcb.calls[n].SentOut? && (state == NONE && old(currentMsg).err == RTE <==> pcb.calls[n].err == RTE)
        else pcb.calls == old(pcb.calls) && state == NONE && old(currentMsg).err == loopErr
      ensures state == NONE || (state == WRITE && currentMsg == old(currentMsg) && !old(DontBlock()) && finished == old(finished))
      ensures state == NONE ==>
        && WriteResult(old(currentMsg), old(DontBlock()))
        && finished == old(finished) + [Write(old(currentMsg).vectors, old(currentMsg).offset)]
      ensures loopErr == CONN <==> state == NONE && old(currentMsg).err == CONN
      ensures state == NONE && old(currentMsg).err == WOULDBLOCK ==> loopErr == WOULDBLOCK || loopErr == MEM
      ensures !old(DontBlock()) && loopErr == OK ==>
        if old(currentMsg).offset == old(currentMsg).len then
          state == NONE && (old(currentMsg).err == OK || old(currentMsg).err == RTE)
        else state == WRITE || old(currentMsg).err == RTE
      ensures events == old(events) || events == old(events) + [SendMinus]
      ensures old(DontBlock()) && old(currentMsg).offset < old(currentMsg).len && loopErr != CONN
          ==> checkWritespace && events == old(events) + [SendMinus]
    {
      hide Concat, Before, Joined, Valid, Paused, ApiMsg.Cursor;
      var err := loopErr;
      if noRoom || err == OK || err == MEM {
        NoteRoom();
      }
      var writeFinished;
      err, writeFinished := WriteOutcome(err);
      if writeFinished {
        FinishWrite(err);
      } else {
        StillWaiting();
      }
    }

    /** A write that is finished: the message is answered, and its bytes are those of the stream. */
    method FinishWrite(err: Err)
      requires Paused()
      modifies this`state, this`currentMsg, this`finished, currentMsg`err, currentMsg`signals
      ensures Valid() && state == NONE && old(currentMsg).Cursor()
      ensures finished == old(finished) + [Write(old(currentMsg).vectors, old(currentMsg).offset)]
      ensures old(currentMsg).err == err
    {
      hide Concat, Before, Joined;
      var m := currentMsg;
      Complete(err);
      JoinedLast(finished, Write(m.vectors, m.offset));
      finished := finished + [Write(m.vectors, m.offset)];
    }

    /** lwip_netconn_do_writemore */
    method WriteMore()
      requires Valid() && state == WRITE
      modifies this`state, this`currentMsg, this`checkWritespace, this`events, this`hung, this`asserted, this`wrote,
        this`finished, pcb, currentMsg
      ensures Continued(old(currentMsg), old(Now())) && pcb == old(pcb) && old(pcb.calls) <= pcb.calls
      ensures events == old(events) || events == old(events) + [SendMinus]
      ensures !asserted && old(DontBlock()) && old(currentMsg).offset < old(currentMsg).len && old(currentMsg).err != CONN
          ==> checkWritespace && events == old(events) + [SendMinus]
    {
      hide Answered, Concat, Before, Sticks, Joined, WillStick, Stuck, Resumed;
      if !(currentMsg.offset < currentMsg.len && currentMsg.vectorCnt > 0) {
        currentMsg.RestOfVector();
        asserted := true;
        return;
      }
      ContinueWrite();
      NotAsserted(old(currentMsg), old(Now()));
    }

    lemma NotAsserted(m: ApiMsg, s: Situation)
      requires Resumed(m, s)
      ensures !asserted
    {
    }

    // ---- Closing ----

    /** A close message has been taken on and is about to be tried. */
    ghost predicate Closing()
      reads this, msgs, pcb, currentMsg
    {
      && !hung && Accounted() && state == CLOSE && currentMsg != null && currentMsg !in begun && pcb != null
      && (pcb.state != TcpState.LISTEN ==> pcb.argSet && pcb.pollCb && pcb.errCb)
      && (pcb.state == SYN_SENT || pcb.state == TcpState.LISTEN || inNonblockingConnect
          ==> currentMsg.shutRd && currentMsg.shutWr)
      && (inNonblockingConnect ==> !Synchronized(pcb.state)) && tcp == pcb
      && !asserted && pcb.queued == Joined(finished) && (pcb.state == CLOSED ==> pcb.queued == [])
      && currentMsg.AsAsked()
    }

    /** shut_close: closing both directions, or the one that is left. */
    predicate ShutClose()
      requires currentMsg != null && pcb != null
      reads this, currentMsg, pcb
    {
      ShutsAll(currentMsg)
    }

    predicate ShutsAll(m: ApiMsg)
      requires pcb != null
      reads this, m, pcb
    {
      || (m.shutRd && m.shutWr)
      || (m.shutRd && (pcb.state == FIN_WAIT_1 || pcb.state == FIN_WAIT_2 || pcb.state == CLOSING))
      || (m.shutWr && pcb.rxClosed)
    }

    /** The first half of lwip_netconn_do_close_internal: the callbacks are taken off and TCP is asked to
        close or shut down. */
    method TryClose() returns (err: Err)
      requires Closing()
      modifies pcb
      ensures pcb.calls == old(pcb.calls) + [if old(ShutClose()) then Closes(err) else Shuts(currentMsg.shutRd, currentMsg.shutWr, err)]
      ensures err == CONN <==> !old(ShutClose()) && RefusesShutdown(old(pcb.state), currentMsg.shutWr)
      ensures old(ShutClose()) <==>
        || (currentMsg.shutRd && currentMsg.shutWr)
        || (currentMsg.shutRd && (old(pcb.state) == FIN_WAIT_1 || old(pcb.state) == FIN_WAIT_2 || old(pcb.state) == CLOSING))
        || (currentMsg.shutWr && old(pcb.rxClosed))
      ensures err == OK || err == MEM || err == CONN
      ensures err == MEM ==> Synchronized(old(pcb.state)) && Synchronized(pcb.state)
      ensures old(ShutClose()) ==> err != CONN && !pcb.argSet
      ensures old(ShutClose()) && old(pcb.state) != TcpState.LISTEN ==> !pcb.pollCb && !pcb.errCb
      ensures pcb.sentCb == (old(pcb.sentCb) && !(currentMsg.shutWr && old(pcb.state) != TcpState.LISTEN))
      ensures !old(ShutClose()) ==>
        && pcb.argSet == old(pcb.argSet) && pcb.pollCb == old(pcb.pollCb) && pcb.errCb == old(pcb.errCb)
        && pcb.state != SYN_SENT && pcb.state != TcpState.LISTEN && (pcb.state == CLOSED ==> old(pcb.state) == CLOSED)
      ensures pcb.queued == old(pcb.queued) && pcb.sndBuf == old(pcb.sndBuf)
    {
      hide Answered;
      var m, tpcb := currentMsg, pcb;
      var shutClose := ShutClose();
      if shutClose {
        tpcb.argSet := false;
      }
      if tpcb.state != TcpState.LISTEN {
        if m.shutWr {
          tpcb.sentCb := false;
        }
        if shutClose {
          tpcb.pollCb := false;
          tpcb.errCb := false;
        }
      }
      if shutClose {
        err := tpcb.Close();
      } else {
        err := tpcb.Shutdown(m.shutRd, m.shutWr);
      }
    }

    /** A close that is finished: the message is answered and, after a success, the events are raised. */
    method FinishClose(err: Err, shutClose: bool)
      requires currentMsg != null && Accounted()
      modifies this`state, this`pcb, this`currentMsg, this`events, currentMsg`err, currentMsg`signals
      ensures state == NONE && currentMsg == null && Accounted()
      ensures old(currentMsg).err == err && old(currentMsg).signals == 1
      ensures pcb == if err == OK && shutClose then null else old(pcb)
      ensures err != OK ==> events == old(events)
      ensures err == OK ==>
        events == old(events) + (if shutClose then [Error] else []) +
          (if old(currentMsg.shutRd) then [RcvPlus] else []) + (if old(currentMsg.shutWr) then [SendPlus] else [])
    {
      hide Answered;
      var m := currentMsg;
      Complete(err);
      if err == OK {
        if shutClose {
          pcb := null;
          events := events + [Error];
        }
        if m.shutRd {
          events := events + [RcvPlus];
        }
        if m.shutWr {
          events := events + [SendPlus];
        }
      }
    }

    /** A close that is to be tried again gets its callbacks back. */
    method RestoreCallbacks()
      requires currentMsg != null && pcb != null && pcb.state != TcpState.LISTEN
      modifies pcb`argSet, pcb`sentCb, pcb`pollCb, pcb`errCb
      ensures pcb.argSet && pcb.pollCb && pcb.errCb && pcb.sentCb == (old(pcb.sentCb) || currentMsg.shutWr)
    {
      if currentMsg.shutWr {
        pcb.sentCb := true;
      }
      pcb.pollCb := true;
      pcb.errCb := true;
      pcb.argSet := true;
    }

    static lemma ClosingAsked(calls: seq<TcpCall>, shutClose: bool, rd: bool, wr: bool, polls: nat, err: Err)
      requires err == OK || err == MEM || (err == CONN && !shutClose)
      ensures var now := calls + [if shutClose then Closes(err) else Shuts(rd, wr, err)];
        if err == MEM && polls == 0 && shutClose then
          calls <= now + [Aborts] && AsksToClose(Since(now + [Aborts], calls), shutClose, rd, wr, polls, false, OK)
        else
          && calls <= now && AsksToClose(Since(now, calls), shutClose, rd, wr, polls, err == MEM && polls > 0, err)
          && (err == MEM && polls > 0 ==> forall answer :: AsksToClose(Since(now, calls), shutClose, rd, wr, polls, true, answer))
    {
      SinceIs(calls, [if shutClose then Closes(err) else Shuts(rd, wr, err)]);
      SinceIs(calls, [Closes(MEM), Aborts]);
      assert calls + [Closes(MEM)] + [Aborts] == calls + [Closes(MEM), Aborts];
    }

    /** lwip_netconn_do_close_internal: the message is answered, unless memory is short and polls
        are left; then the callbacks that will try again are in place. */
    method CloseInternal()
      requires Closing()
      modifies this`state, this`pcb, this`currentMsg, this`events, pcb, currentMsg
      ensures Valid()
      ensures state == NONE || (state == CLOSE && currentMsg == old(currentMsg) && pcb == old(pcb))
      ensures old(currentMsg).pollsLeft == old(currentMsg.pollsLeft)
      ensures old(currentMsg).shutRd == old(currentMsg.shutRd) && old(currentMsg).shutWr == old(currentMsg.shutWr)
      ensures old(currentMsg.pollsLeft) == 0 || !Synchronized(old(pcb.state)) ==> state == NONE
      ensures state == NONE ==> old(currentMsg).err == OK || old(currentMsg).err == MEM || old(currentMsg).err == CONN
      ensures state == CLOSE ==> events == old(events) && pcb.sentCb == old(pcb.sentCb || currentMsg.shutWr)
      ensures state == NONE && old(ShutClose()) ==> pcb == null && old(currentMsg).err == OK
      ensures state == NONE && !old(ShutClose()) ==> pcb == old(pcb)
      ensures state == NONE && old(currentMsg).err == OK ==>
        events == old(events) + (if old(ShutClose()) then [Error] else []) +
          (if old(currentMsg.shutRd) then [RcvPlus] else []) + (if old(currentMsg.shutWr) then [SendPlus] else [])
      ensures state == NONE && old(currentMsg).err != OK ==> events == old(events)
      ensures state == NONE && old(currentMsg).err == MEM ==> old(currentMsg.pollsLeft) == 0
      ensures pcb != null ==> Room() == old(Room())
      ensures tcp == old(tcp) && old(Calls()) <= Calls()
      ensures AsksToClose(Since(Calls(), old(Calls())), old(ShutClose()), old(currentMsg.shutRd), old(currentMsg.shutWr),
        old(currentMsg.pollsLeft), state == CLOSE, old(currentMsg).err)
      ensures tcp != null && |tcp.calls| > 0
      ensures state == NONE && pcb == null ==>
        tcp.calls[|tcp.calls| - 1] == Closes(OK) || (tcp.calls[|tcp.calls| - 1] == Aborts && old(currentMsg.pollsLeft) == 0)
      ensures state == NONE && pcb != null ==>
        tcp.calls[|tcp.calls| - 1] == Shuts(old(currentMsg.shutRd), old(currentMsg.shutWr), old(currentMsg).err)
      ensures state == NONE ==>
        (old(currentMsg).err == CONN <==> !old(ShutClose()) && RefusesShutdown(old(pcb.state), old(currentMsg.shutWr)))
    {
      hide Answered, Concat, Before, ApiMsg.Cursor;
      hide AsksToClose, Since, RefusesShutdown, Joined, ApiMsg.Unfinished, ApiMsg.Overrun;
      ghost var calls := pcb.calls;
      var m := currentMsg;
      var closeFinished := false;
      var shutClose := ShutClose();
      var err := TryClose();
      ClosingAsked(calls, shutClose, m.shutRd, m.shutWr, m.pollsLeft, err);
      if err == OK {
        closeFinished := true;
      } else if err == MEM {
        if m.pollsLeft == 0 {
          closeFinished := true;
          if shutClose {
            pcb.Abort();
            err := OK;
          }
        }
      } else {
        closeFinished := true;
      }
      if closeFinished {
        FinishClose(err, shutClose);
        return;
      }
      RestoreCallbacks();
    }

    /** The answers of a close; one of both directions succeeds and gives up the control block. */
    predicate ClosedBy(m: ApiMsg)
      reads this, m
    {
      && (m.err == OK || m.err == MEM || m.err == CONN)
      && (m.shutRd && m.shutWr ==> pcb == null && m.err == OK)
      && m.AsAsked()
    }

    // ---- Messages from application threads ----

    /** A message no thread has sent yet. */
    ghost predicate Fresh(msg: ApiMsg)
      reads this, msg
    {
      msg !in msgs && msg.signals == 0
    }

    /** Answers a message at once. */
    method Ack(msg: ApiMsg, err: Err)
      requires msg in msgs && msg.signals == 0 && msg != currentMsg
      requires Answered(msgs - {msg}, Silent()) && lost <= msgs - {msg} && begun <= msgs
      requires currentMsg != null ==> currentMsg in msgs && currentMsg !in lost
      modifies msg`err, msg`signals
      ensures Accounted() && msg.err == err && msg.signals == 1
    {
      msg.err := err;
      msg.Signal();
    }

    /** API_EVENT */
    method Raise(es: seq<Event>)
      modifies this`events
      ensures events == old(events) + es && (old(Valid()) ==> Valid())
    {
      events := events + es;
    }

    /** A message that is answered at once, without any other effect. */
    method Refuse(msg: ApiMsg, err: Err)
      requires Valid() && Fresh(msg)
      modifies this`msgs, msg`err, msg`signals
      ensures Valid() && msgs == old(msgs) + {msg} && msg.err == err && msg.signals == 1
    {
      hide Answered, Concat, Before, Joined, ApiMsg.Cursor, ApiMsg.Unfinished, ApiMsg.Overrun;
      msgs := msgs + {msg};
      assert msgs - {msg} == old(msgs);
      Ack(msg, err);
    }

    lemma Basics()
      requires Valid()
      ensures currentMsg != null ==> currentMsg in msgs
      ensures currentMsg != null <==> state == WRITE || state == CLOSE || (state == CONNECT && !inNonblockingConnect)
      ensures state != NONE ==> pcb != null
      ensures pcb != null ==> tcp == pcb
      ensures begun <= msgs
    {
      hide Answered, Concat, Before, Joined, ApiMsg.Cursor;
    }

    /** Why a write message is not taken on. */
    predicate RefusesWrite()
      reads this
    {
      pendingErr != OK || state != NONE || pcb == null
    }

    /** A write that is just about to begin. */
    ghost function Beginning(vectors: seq<seq<byte>>, dontBlock: bool): Situation
      requires pcb != null
      reads this, pcb
    {
      var waits := !(nonBlocking || dontBlock) && MaySend(pcb.state);
      Situation(pcb, Heard(), pcb.calls, wrote, nonBlocking || dontBlock, pcb.sndBuf, waits && Sticks(vectors, pcb.sndBuf),
        waits && pcb.sndBuf == 0 && LongFirst(vectors), false, finished, 0, pcb.queued)
    }

    /** lwip_netconn_do_write */
    method DoWrite(msg: ApiMsg)
      requires Valid() && Fresh(msg) && msg.Unfinished() && msg.offset == 0
      modifies this, pcb, msg
      ensures msgs == old(msgs) + {msg} && pendingErr == OK && nonBlocking == old(nonBlocking) && pcb == old(pcb)
      ensures tcp == old(tcp)
      ensures lost == old(lost) && begun == if old(RefusesWrite()) then old(begun) else old(begun) + {msg}
      ensures old(RefusesWrite()) ==>
        && Valid() && state == old(state) && currentMsg == old(currentMsg) && pcb == old(pcb) && finished == old(finished)
        && events == old(events) && checkWritespace == old(checkWritespace)
        && Room() == old(Room()) && Heard() == old(Heard()) && wrote == old(wrote) && msg.offset == 0
        && tcp == old(tcp) && Calls() == old(Calls())
        && msg.err == if old(pendingErr) != OK then old(pendingErr) else if old(state) != NONE then INPROGRESS else CONN
      ensures !old(RefusesWrite()) ==> Continued(msg, old(Beginning(msg.vectors, msg.dontBlock)))
      ensures old(pendingErr) != OK ==> msg.err == old(pendingErr) && msg.signals == 1
      ensures old(pendingErr) == OK && old(state) != NONE ==> msg.err == INPROGRESS && msg.signals == 1
    {
      hide Valid, Accounted, Coupled, Answered, AsksToClose, Since, RefusesShutdown, ApiMsg.Unfinished, Continued;
      Basics();
      var err := TakePendingErr();
      if err == OK {
        if state != NONE {
          err := INPROGRESS;
        } else if pcb != null {
          BeginWrite(msg);
          return;
        } else {
          err := CONN;
        }
      }
      Refuse(msg, err);
    }

    /** The part of lwip_netconn_do_write that makes the message the current one. */
    method BeginWrite(msg: ApiMsg)
      requires Valid() && Fresh(msg) && state == NONE && pcb != null && msg.Unfinished() && msg.offset == 0
      modifies this`state, this`currentMsg, this`checkWritespace, this`events, this`hung, this`asserted, this`wrote,
        this`finished, this`begun, this`msgs, pcb, msg
      ensures msgs == old(msgs) + {msg} && lost == old(lost) && pcb == old(pcb)
      ensures tcp == old(tcp)
      ensures begun == old(begun) + {msg}
      ensures Continued(msg, old(Beginning(msg.vectors, msg.dontBlock)))
    {
      hide Concat, Before, Stuck, Sticks, Joined, Resumed;
      hide AsksToWrite;
      hide Continued, Stopped;
      TakenOn(msgs, Silent(), msg);
      msgs := msgs + {msg};
      begun := begun + {msg};
      state := WRITE;
      currentMsg := msg;
      msg.base := pcb.queued;
      ghost var s := Now();
      ghost var w := old(Beginning(msg.vectors, msg.dontBlock));
      if w.stuck {
        LongFirstStuck();
      }
      WriteMore();
      Weaken(msg, s, w);
    }

    lemma LongFirstStuck()
      requires Writing() && currentMsg.offset == 0 && currentMsg.vectorCnt > 0
      requires !DontBlock() && MaySend(pcb.state) && pcb.sndBuf == 0 && LongFirst(currentMsg.vectors)
      ensures Stuck()
    {
      var m := currentMsg;
      if m.vector > 0 {
        BeforeMonotone(m.vectors, 1, m.vector);
      }
    }

    lemma Weaken(m: ApiMsg, s: Situation, w: Situation)
      requires Continued(m, s) && w == s.(stuck := w.stuck) && (w.stuck ==> s.stuck)
      ensures Continued(m, w)
    {
    }

    /** A close message that is taken on. */
    predicate ClosesWith(msg: ApiMsg)
      reads this, msg
    {
      pcb != null && (state == NONE || state == CLOSE || (state == LISTENING && msg.shutRd && msg.shutWr))
    }

    /** lwip_netconn_do_close. While a close is in progress, an assertion fails (which does not stop on this
        port), and the message replaces the one of that close, which is lost. */
    method DoClose(msg: ApiMsg)
      requires Valid() && Fresh(msg) && msg.request.CloseRequest? && msg.AsAsked()
      modifies this, pcb, msg
      ensures Valid() && msgs == old(msgs) + {msg} && pendingErr == old(pendingErr) && (pcb == null || pcb == old(pcb))
      ensures nonBlocking == old(nonBlocking) && finished == old(finished) && begun == old(begun)
      ensures lost == if old(state) == CLOSE then old(lost) + {old(currentMsg)} else old(lost)
      ensures wrote == old(wrote)
      ensures !old(ClosesWith(msg)) ==>
        && state == old(state) && pcb == old(pcb) && currentMsg == old(currentMsg) && events == old(events)
        && Heard() == old(Heard())
        && msg.err == if old(pcb) != null && old(state) == WRITE then INPROGRESS else CONN
      ensures pcb != null ==> Room() == old(Room())
      ensures old(ClosesWith(msg)) ==>
        || (state == NONE && currentMsg == null && (msg.err == OK || msg.err == MEM || msg.err == CONN)
            && (old(msg.shutRd) && old(msg.shutWr) ==> pcb == null && msg.err == OK))
        || (state == CLOSE && currentMsg == msg && msg.pollsLeft == old(msg.pollsLeft) > 0)
      ensures tcp == old(tcp) && old(Calls()) <= Calls()
      ensures if old(ClosesWith(msg)) then
          && AsksToClose(Since(Calls(), old(Calls())), old(ShutsAll(msg)), old(msg.shutRd), old(msg.shutWr), old(msg.pollsLeft),
               state == CLOSE, msg.err)
          && (state == NONE ==> (msg.err == CONN <==> !old(ShutsAll(msg)) && RefusesShutdown(old(pcb.state), old(msg.shutWr))))
          && (state == NONE ==> (pcb == null <==> old(ShutsAll(msg))))
        else Calls() == old(Calls())
      ensures msg.shutRd == old(msg.shutRd) && msg.shutWr == old(msg.shutWr)
      ensures old(ClosesWith(msg)) && state == NONE && pcb == null ==>
        |tcp.calls| > 0 && (tcp.calls[|tcp.calls| - 1] == Closes(OK) || tcp.calls[|tcp.calls| - 1] == Aborts)
      ensures old(ClosesWith(msg)) && state == NONE && pcb != null ==>
        |tcp.calls| > 0 && tcp.calls[|tcp.calls| - 1] == Shuts(old(msg.shutRd), old(msg.shutWr), msg.err)
    {
      hide Valid, Accounted, Coupled, Answered, AsksToClose, Since, RefusesShutdown, ApiMsg.Unfinished, Continued;
      Basics();
      var err;
      if pcb != null && ((msg.shutRd && msg.shutWr) || state != LISTENING) {
        if state == CONNECT {
          err := CONN;
        } else if state == WRITE {
          err := INPROGRESS;
        } else {
          BeginClose(msg);
          return;
        }
      } else {
        err := CONN;
      }
      Refuse(msg, err);
    }

    /** lwip_netconn_do_delconn */
    method DoDelconn(msg: ApiMsg)
      requires Valid() && Fresh(msg) && msg.request.DelconnRequest?
      modifies this, pcb, msg
      ensures Valid() && msgs == old(msgs) + {msg} && pendingErr == old(pendingErr) && (pcb == null || pcb == old(pcb))
      ensures nonBlocking == old(nonBlocking) && finished == old(finished) && begun == old(begun) && lost == old(lost)
      ensures wrote == old(wrote)
      ensures old(currentMsg) != null ==> msg.err == INPROGRESS && state == old(state) && pcb == old(pcb)
                                          && currentMsg == old(currentMsg) && events == old(events) && Heard() == old(Heard())
      ensures pcb != null ==> Room() == old(Room())
      ensures old(currentMsg) == null ==>
        || (state == NONE && pcb == null && msg.err == OK)
        || (state == CLOSE && currentMsg == msg && msg.pollsLeft == old(msg.pollsLeft) > 0)
      ensures old(state) == CONNECT || old(state) == LISTENING ==> state != CLOSE
      ensures tcp == old(tcp) && old(Calls()) <= Calls()
      ensures if old(currentMsg) == null && old(pcb) != null then
          AsksToClose(Since(Calls(), old(Calls())), true, true, true, old(msg.pollsLeft), state == CLOSE, msg.err)
        else Calls() == old(Calls())
      ensures old(currentMsg) == null && old(pcb) != null && state == NONE ==>
        |tcp.calls| > 0 && (tcp.calls[|tcp.calls| - 1] == Closes(OK) || tcp.calls[|tcp.calls| - 1] == Aborts)
      ensures old(currentMsg) == null && old(pcb) == null ==> events == old(events) + [RcvPlus] + [SendPlus]
    {
      hide Valid, Accounted, Coupled, Answered, AsksToClose, Since, RefusesShutdown, ApiMsg.Unfinished, Continued;
      Basics();
      if (state != NONE && state != LISTENING && state != CONNECT) || (state == CONNECT && !inNonblockingConnect) {
        Refuse(msg, INPROGRESS);
        return;
      }
      if pcb != null {
        msg.shutRd, msg.shutWr := true, true;
        BeginClose(msg);
        return;
      }
      Raise([RcvPlus] + [SendPlus]);
      Refuse(msg, OK);
    }

    /** The part of both that makes the message the current one, whether there is one or not. */
    method BeginClose(msg: ApiMsg)
      requires Valid() && Fresh(msg) && pcb != null && msg.AsAsked() && (currentMsg != null ==> state == CLOSE)
      requires state == NONE || state == CLOSE || (msg.shutRd && msg.shutWr)
      modifies this`state, this`pcb, this`currentMsg, this`events, this`lost, this`msgs, pcb, msg
      ensures msgs == old(msgs) + {msg} && (state == NONE ==> currentMsg == null)
      ensures Valid() && (pcb == null || pcb == old(pcb))
      ensures lost == if old(currentMsg) != null then old(lost) + {old(currentMsg)} else old(lost)
      ensures msg.pollsLeft == old(msg.pollsLeft)
      ensures pcb != null ==> Room() == old(Room())
      ensures state == NONE || (state == CLOSE && currentMsg == msg && msg.pollsLeft > 0)
      ensures state == NONE ==> msg.err == OK || msg.err == MEM || msg.err == CONN
      ensures state == NONE && old(msg.shutRd) && old(msg.shutWr) ==> pcb == null && msg.err == OK
      ensures old(state) == CONNECT || old(state) == LISTENING ==> state == NONE
      ensures tcp == old(tcp) && old(Calls()) <= Calls()
      ensures AsksToClose(Since(Calls(), old(Calls())), old(ShutsAll(msg)), old(msg.shutRd), old(msg.shutWr), old(msg.pollsLeft),
        state == CLOSE, msg.err)
      ensures state == NONE ==> (msg.err == CONN <==> !old(ShutsAll(msg)) && RefusesShutdown(old(pcb.state), old(msg.shutWr)))
      ensures state == NONE ==> (pcb == null <==> old(ShutsAll(msg)))
      ensures msg.shutRd == old(msg.shutRd) && msg.shutWr == old(msg.shutWr)
      ensures state == NONE && pcb == null ==>
        |tcp.calls| > 0 && (tcp.calls[|tcp.calls| - 1] == Closes(OK) || tcp.calls[|tcp.calls| - 1] == Aborts)
      ensures state == NONE && pcb != null ==>
        |tcp.calls| > 0 && tcp.calls[|tcp.calls| - 1] == Shuts(old(msg.shutRd), old(msg.shutWr), msg.err)
    {
      hide Answered, Concat, Before, Joined;
      hide AsksToClose, Since, RefusesShutdown;
      TakenOn(msgs, Silent(), msg);
      msgs := msgs + {msg};
      if currentMsg != null {
        lost := lost + {currentMsg};
      }
      state := CLOSE;
      currentMsg := msg;
      CloseInternal();
    }

    /** lwip_netconn_do_connect */
    method DoConnect(msg: ApiMsg)
      requires Valid() && Fresh(msg) && msg.request.ConnectRequest?
      modifies this, pcb, msg
      ensures Valid() && msgs == old(msgs) + {msg} && pcb == old(pcb) && events == old(events) && finished == old(finished)
      ensures pendingErr == old(pendingErr) && nonBlocking == old(nonBlocking) && begun == old(begun) && lost == old(lost)
      ensures wrote == old(wrote)
      ensures old(pcb) == null ==> msg.err == CLSD
      ensures old(state) == CONNECT ==> msg.err == ALREADY
      ensures old(pcb) != null && old(state) != CONNECT && old(state) != NONE ==> msg.err == ISCONN
      ensures old(pcb) == null || old(state) != NONE ==> state == old(state) && currentMsg == old(currentMsg)
      ensures old(pcb) != null && old(state) == NONE ==>
        || (state == NONE && msg.err != OK && msg.err != INPROGRESS)
        || (state == CONNECT && if nonBlocking then msg.err == INPROGRESS && msg.signals == 1 && currentMsg == null
            else currentMsg == msg)
      ensures Room() == old(Room()) && Heard() == (old(Heard()) || (old(pcb) != null && old(state) == NONE))
      ensures tcp == old(tcp) && old(Calls()) <= Calls()
      ensures if old(pcb) == null || old(state) != NONE then Calls() == old(Calls())
        else AsksToConnect(Since(Calls(), old(Calls())), nonBlocking, currentMsg == msg, msg.err)
    {
      hide Valid, Accounted, Coupled, Answered, AsksToListen, AsksToConnect, Since;
      Basics();
      var err;
      if pcb == null {
        err := CLSD;
      } else if state == CONNECT {
        err := ALREADY;
      } else if state != NONE {
        err := ISCONN;
      } else {
        TryConnect(msg);
        return;
      }
      Refuse(msg, err);
    }

    /** The part of lwip_netconn_do_connect that answers the message, or makes it the current one. */
    method TryConnect(msg: ApiMsg)
      requires Valid() && Fresh(msg) && state == NONE && pcb != null && msg.request.ConnectRequest?
      modifies this`state, this`inNonblockingConnect, this`currentMsg, this`msgs, pcb, msg`err, msg`signals
      ensures msgs == old(msgs) + {msg}
      ensures Valid() && Heard() && Room() == old(Room())
      ensures old(pcb.calls) <= pcb.calls
      ensures AsksToConnect(Since(pcb.calls, old(pcb.calls)), nonBlocking, currentMsg == msg, msg.err)
      ensures
        || (state == NONE && currentMsg == null && msg.err != OK && msg.err != INPROGRESS)
        || (state == CONNECT && if nonBlocking then msg.err == INPROGRESS && msg.signals == 1 && currentMsg == null
            else currentMsg == msg)
    {
      hide Answered, Concat, Before, Joined;
      msgs := msgs + {msg};
      assert msgs - {msg} == old(msgs);
      var err := StartConnect();
      if err == OK {
        TakenOn(old(msgs), Silent(), msg);
        currentMsg := msg;
        return;
      }
      Ack(msg, err);
    }

    /** The part of lwip_netconn_do_connect that calls TCP; OK means that the caller has to wait. */
    method StartConnect() returns (err: Err)
      requires Coupled() && state == NONE && pcb != null
      modifies this`state, this`inNonblockingConnect, pcb
      ensures old(pcb.calls) <= pcb.calls
      ensures var asked := Since(pcb.calls, old(pcb.calls));
        |asked| == 1 && asked[0].Connects? && err == if asked[0].err == OK && nonBlocking then INPROGRESS else asked[0].err
      ensures pcb.queued == old(pcb.queued) && Heard() && Room() == old(Room())
      ensures err == OK ==> state == CONNECT && pcb.state == SYN_SENT && !inNonblockingConnect && !nonBlocking
      ensures err == OK ==> pcb.argSet && pcb.pollCb && pcb.errCb
      ensures err != OK ==> Coupled()
      ensures err == INPROGRESS ==> state == CONNECT && nonBlocking
      ensures err != OK && err != INPROGRESS ==> state == NONE
    {
      ghost var calls := pcb.calls;
      pcb.Setup();
      err := pcb.Connect();
      SinceIs(calls, [Connects(err)]);
      if err == OK {
        state := CONNECT;
        inNonblockingConnect := nonBlocking;
        if nonBlocking {
          err := INPROGRESS;
        }
      }
    }

    /** lwip_netconn_do_listen; the listening control block, if any, replaces the old one. */
    method DoListen(msg: ApiMsg, memory: bool)
      requires Valid() && Fresh(msg)
      modifies this, pcb, msg
      ensures Valid() && msgs == old(msgs) + {msg} && msg.signals == 1 && events == old(events)
      ensures pendingErr == old(pendingErr) && nonBlocking == old(nonBlocking)
      ensures finished == old(finished) && begun == old(begun) && lost == old(lost) && wrote == old(wrote)
      ensures currentMsg == old(currentMsg) && (pcb == null || pcb == old(pcb) || fresh(pcb))
      ensures old(state) == LISTENING ==> msg.err == OK && state == LISTENING && pcb == old(pcb)
      ensures msg.err == OK <==> state == LISTENING
      ensures state != LISTENING ==> state == old(state) && (pcb == old(pcb) || pcb == null)
      ensures old(pcb) == null || (old(state) != NONE && old(state) != LISTENING) ==> pcb == old(pcb) && msg.err == CONN
      ensures pcb == old(pcb) ==> Room() == old(Room()) && Heard() == old(Heard())
      ensures old(Calls()) <= Calls()
      ensures if old(pcb) == null || old(state) != NONE then Calls() == old(Calls())
        else AsksToListen(Since(Calls(), old(Calls())), acceptMbox, msg.err) && (msg.err == VAL <==> old(pcb.state) != CLOSED)
      ensures acceptMbox && !old(acceptMbox) ==> memory
      ensures msg.err == OK && old(state) != LISTENING ==> pcb.argSet
    {
      hide Valid, Accounted, Coupled, Answered, AsksToListen, AsksToConnect, Since;
      Basics();
      var err;
      if pcb == null {
        err := CONN;
      } else if state == LISTENING {
        err := OK;
      } else if state != NONE {
        err := CONN;
      } else if pcb.state != CLOSED {
        NothingAsked(Calls(), acceptMbox);
        err := VAL;
      } else {
        TryListen(msg, memory);
        return;
      }
      Refuse(msg, err);
    }

    /** The part of lwip_netconn_do_listen for a closed control block. */
    method TryListen(msg: ApiMsg, memory: bool)
      requires Valid() && Fresh(msg) && state == NONE && pcb != null && pcb.state == CLOSED
      modifies this`state, this`pcb, this`tcp, this`acceptMbox, this`msgs, pcb, msg`err, msg`signals
      ensures Valid() && msgs == old(msgs) + {msg} && msg.signals == 1
      ensures if msg.err == OK then state == LISTENING && fresh(pcb) && pcb.argSet else state == NONE && (pcb == old(pcb) || pcb == null)
      ensures pcb == old(pcb) ==> Room() == old(Room()) && Heard() == old(Heard())
      ensures old(Calls()) <= Calls() && AsksToListen(Since(Calls(), old(Calls())), acceptMbox, msg.err) && msg.err != VAL
      ensures acceptMbox && !old(acceptMbox) ==> memory
    {
      hide Answered, Concat, Before, Joined, AsksToListen, Since, ApiMsg.Cursor;
      msgs := msgs + {msg};
      assert msgs - {msg} == old(msgs);
      var err := StartListen(memory);
      Ack(msg, err);
    }

    static lemma NothingAsked(calls: seq<TcpCall>, mbox: bool)
      ensures AsksToListen(Since(calls, calls), mbox, VAL)
    {
    }

    /** The part of lwip_netconn_do_listen that calls TCP; `memory` tells whether there is memory for a mailbox. */
    method StartListen(memory: bool) returns (err: Err)
      requires Coupled() && state == NONE && pcb != null && pcb.state == CLOSED && pcb.queued == Joined(finished)
      modifies this`state, this`pcb, this`tcp, this`acceptMbox, pcb
      ensures Coupled() && (pcb == null || pcb == old(pcb) || fresh(pcb))
      ensures if err == OK then state == LISTENING && fresh(pcb) else state == NONE && (pcb == old(pcb) || pcb == null)
      ensures pcb != null ==> pcb.queued == Joined(finished)
      ensures pcb == old(pcb) ==> Room() == old(Room()) && Heard() == old(Heard())
      ensures old(Calls()) <= Calls() && AsksToListen(Since(Calls(), old(Calls())), acceptMbox, err) && err != VAL
      ensures acceptMbox == (old(acceptMbox) || (memory && Since(Calls(), old(Calls()))[0].err == OK))
      ensures err == OK ==> pcb.argSet
    {
      ghost var calls := pcb.calls;
      var lpcb;
      err, lpcb := pcb.Listen();
      SinceIs(calls, [Listens(err)]);
      SinceIs(calls, [Listens(OK), Closes(OK)]);
      assert calls + [Listens(OK)] + [Closes(OK)] == calls + [Listens(OK), Closes(OK)];
      if lpcb != null {
        tcp := lpcb;
        if !acceptMbox {
          if memory {
            acceptMbox := true;
          } else {
            err := MEM;
          }
        }
        if err == OK {
          state := LISTENING;
          pcb := lpcb;
          pcb.argSet := true;
        } else {
          var _ := lpcb.Close();
          pcb := null;
        }
      }
    }

    /** netconn_set_nonblocking, at any moment. */
    method SetNonblocking(val: bool)
      requires Valid()
      modifies this`nonBlocking
      ensures Valid() && nonBlocking == val
    {
      nonBlocking := val;
    }

    // ---- Callbacks from the TCP layer ----

    /** There is room again for whoever waits for it. */
    predicate CanWrite()
      reads this, pcb
    {
      pcb != null && pcb.Writable()
    }

    /** The end of poll_tcp and sent_tcp: when there is room again, whoever waits for it is told. */
    method AnnounceRoom(ghost m: ApiMsg?, ghost s: Option<Situation>)
      modifies this`checkWritespace, this`events
      ensures events == old(events) + if CanWrite() then [SendPlus] else []
      ensures checkWritespace == (old(checkWritespace) && !CanWrite()) && CanWrite() == old(CanWrite())
      ensures old(Valid()) ==> Valid()
      ensures m != null && s.Some? && old(Continued(m, s.value)) ==> Continued(m, s.value)
    {
      hide Answered, Concat, Before, Sticks, Joined, ApiMsg.Cursor, ApiMsg.Unfinished, ApiMsg.Overrun, WriteResult;
      hide TakenUpTo, MeetsLength, TellsWriter, WillStick, AsksToWrite;
      if pcb != null && pcb.sndBuf > TCP_SNDLOWAT && pcb.queueLen < TCP_SNDQUEUELOWAT {
        checkWritespace := false;
        events := events + [SendPlus];
      }
    }

    /** The part of poll_tcp for a close. */
    method PollClose()
      requires Valid() && state == CLOSE
      modifies this`state, this`pcb, this`currentMsg, this`events, pcb, currentMsg
      ensures Valid() && (pcb == null || pcb == old(pcb)) && tcp == old(tcp) && old(Calls()) <= Calls()
      ensures state == NONE || (state == CLOSE && currentMsg == old(currentMsg))
      ensures old(currentMsg).pollsLeft == old(currentMsg.pollsLeft) - 1
      ensures old(currentMsg.pollsLeft) == 1 ==> state == NONE
      ensures state == NONE ==> ClosedBy(old(currentMsg)) && (pcb == null <==> old(ShutClose()))
      ensures AsksToClose(Since(Calls(), old(Calls())), old(ShutClose()), old(currentMsg.shutRd), old(currentMsg.shutWr),
        old(currentMsg.pollsLeft) - 1, state == CLOSE, old(currentMsg).err)
      ensures pcb != null ==> Room() == old(Room())
    {
      hide Concat, Before, Joined, AsksToClose, Since, RefusesShutdown, ApiMsg.Cursor;
      if currentMsg.pollsLeft > 0 {
        currentMsg.pollsLeft := currentMsg.pollsLeft - 1;
      }
      CloseInternal();
    }

    /** poll_tcp: retries what is pending; each poll uses up one of a close's polls. */
    method PollTcp()
      requires Valid() && pcb != null && pcb.pollCb && pcb.argSet
      modifies this, pcb, currentMsg
      ensures old(state) == WRITE ==> Continued(old(currentMsg), old(Now()))
      ensures old(state) != WRITE ==> Valid() && finished == old(finished) && wrote == old(wrote)
      ensures msgs == old(msgs) && nonBlocking == old(nonBlocking) && pendingErr == old(pendingErr)
      ensures begun == old(begun) && lost == old(lost)
      ensures pcb == null || pcb == old(pcb)
      ensures old(state) != WRITE && old(state) != CLOSE ==>
        state == old(state) && currentMsg == old(currentMsg) && pcb == old(pcb) && Heard() == old(Heard()) &&
        (currentMsg != null ==> currentMsg.offset == old(currentMsg.offset))
      ensures old(state) != WRITE && pcb != null ==> Room() == old(Room())
      ensures tcp == old(tcp) && old(Calls()) <= Calls()
      ensures old(state) != WRITE && old(state) != CLOSE ==> Calls() == old(Calls())
      ensures old(state) == CLOSE ==>
        && (state == NONE || (state == CLOSE && currentMsg == old(currentMsg)))
        && old(currentMsg).pollsLeft == old(currentMsg.pollsLeft) - 1
        && (old(currentMsg.pollsLeft) == 1 ==> state == NONE)
        && (state == NONE ==> ClosedBy(old(currentMsg)) && (pcb == null <==> old(ShutClose())))
        && AsksToClose(Since(Calls(), old(Calls())), old(ShutClose()), old(currentMsg.shutRd), old(currentMsg.shutWr),
             old(currentMsg.pollsLeft) - 1, state == CLOSE, old(currentMsg).err)
      ensures !old(checkWritespace) && old(state) != WRITE ==> !checkWritespace
      ensures !hung && !asserted && checkWritespace ==> !CanWrite()
      ensures old(state) != WRITE && old(state) != CLOSE ==>
        events == old(events) + if old(checkWritespace) && CanWrite() then [SendPlus] else []
    {
      hide Answered, Concat, Before, Stuck, Sticks, Joined, Resumed, Stopped, WillStick;
      hide AsksToClose, Since, RefusesShutdown, Writing;
      ghost var s := if state == WRITE then Some(Now()) else None;
      if state == WRITE {
        WriteMore();
        if hung || asserted {
          return;
        }
      } else if state == CLOSE {
        PollClose();
      }
      if checkWritespace {
        AnnounceRoom(old(currentMsg), s);
      }
    }

    /** sent_tcp */
    method SentTcp()
      requires Valid() && pcb != null && pcb.sentCb && pcb.argSet
      modifies this, pcb, currentMsg
      ensures old(state) == WRITE ==> Continued(old(currentMsg), old(Now()))
      ensures old(state) != WRITE ==> Valid() && finished == old(finished) && wrote == old(wrote)
      ensures msgs == old(msgs) && nonBlocking == old(nonBlocking) && pendingErr == old(pendingErr)
      ensures begun == old(begun) && lost == old(lost)
      ensures pcb == null || pcb == old(pcb)
      ensures old(state) != WRITE && old(state) != CLOSE ==>
        state == old(state) && currentMsg == old(currentMsg) && pcb == old(pcb) && Heard() == old(Heard()) &&
        (currentMsg != null ==> currentMsg.offset == old(currentMsg.offset))
      ensures old(state) != WRITE && pcb != null ==> Room() == old(Room())
      ensures tcp == old(tcp) && old(Calls()) <= Calls()
      ensures old(state) != WRITE && old(state) != CLOSE ==> Calls() == old(Calls())
      ensures old(state) == CLOSE ==>
        && (state == NONE || (state == CLOSE && currentMsg == old(currentMsg)))
        && old(currentMsg).pollsLeft == old(currentMsg.pollsLeft)
        && (state == NONE ==> ClosedBy(old(currentMsg)) && (pcb == null <==> old(ShutClose())))
        && AsksToClose(Since(Calls(), old(Calls())), old(ShutClose()), old(currentMsg.shutRd), old(currentMsg.shutWr),
             old(currentMsg.pollsLeft), state == CLOSE, old(currentMsg).err)
      ensures !hung && !asserted && CanWrite() ==> !checkWritespace && events != [] && events[|events| - 1] == SendPlus
      ensures old(state) != WRITE && old(state) != CLOSE ==> events == old(events) + if CanWrite() then [SendPlus] else []
    {
      hide Answered, Concat, Before, Stuck, Sticks, Joined, Resumed, Stopped, WillStick;
      hide AsksToClose, Since, RefusesShutdown, Writing;
      ghost var s := if state == WRITE then Some(Now()) else None;
      if state == WRITE {
        WriteMore();
        if hung || asserted {
          return;
        }
      } else if state == CLOSE {
        CloseInternal();
      }
      AnnounceRoom(old(currentMsg), s);
    }

    /** err_tcp: the control block is gone; whoever waits for it is answered. A close succeeds, a
        write or a blocking connect fails with the error. */
    method ErrTcp(err: Err)
      requires Valid() && pcb != null && pcb.errCb && pcb.argSet
      requires err == ABRT || err == RST || err == CLSD
      modifies this`pcb, this`pendingErr, this`mboxClosed, this`state, this`events, this`inNonblockingConnect,
        this`currentMsg, this`finished, currentMsg
      ensures Valid() && pcb == null && state == NONE && currentMsg == null
      ensures pendingErr == err && mboxClosed && events == old(events) + [Error, RcvPlus, SendPlus]
      ensures old(currentMsg) != null ==>
        && old(currentMsg).err == (if old(state) == CLOSE then OK else err)
        && old(currentMsg).offset == old(currentMsg.offset) && old(currentMsg).base == old(currentMsg.base)
      ensures tcp == old(tcp) && Calls() == old(Calls())
      ensures finished ==
        if old(state) == WRITE then old(finished) + [Write(old(currentMsg).vectors, old(currentMsg.offset))]
        else old(finished)
    {
      hide Answered, WriteInProgress, Synchronized;
      var oldState, wasNonblockingConnect := state, inNonblockingConnect;
      LosePcb(err);
      if oldState == WRITE || oldState == CLOSE || oldState == CONNECT {
        if !wasNonblockingConnect {
          FailWaiting(oldState, err);
        }
      } else {
        assert currentMsg == null;
      }
    }

    /** The part of err_tcp that does not depend on who waits. */
    method LosePcb(err: Err)
      modifies this`pcb, this`pendingErr, this`mboxClosed, this`state, this`events, this`inNonblockingConnect
      ensures pcb == null && pendingErr == err && mboxClosed && state == NONE
      ensures events == old(events) + [Error, RcvPlus, SendPlus]
      ensures old(state) == CONNECT || old(state) == WRITE || old(state) == CLOSE ==> !inNonblockingConnect
      ensures !(old(state) == CONNECT || old(state) == WRITE || old(state) == CLOSE) ==>
        inNonblockingConnect == old(inNonblockingConnect)
    {
      var oldState := state;
      pcb, pendingErr, mboxClosed := null, err, true;
      state := NONE;
      events := events + [Error];
      events := events + [RcvPlus];
      events := events + [SendPlus];
      if oldState == WRITE || oldState == CLOSE || oldState == CONNECT {
        inNonblockingConnect := false;
      }
    }

    /** The part of err_tcp that answers the thread that waits. */
    method FailWaiting(oldState: State, err: Err)
      requires currentMsg != null && Accounted()
      modifies this`currentMsg, this`state, this`finished, currentMsg`err, currentMsg`signals
      ensures currentMsg == null && state == NONE && Accounted()
      ensures old(currentMsg).err == if oldState == CLOSE then OK else err
      ensures finished ==
        if oldState == WRITE then old(finished) + [Write(old(currentMsg).vectors, old(currentMsg).offset)]
        else old(finished)
    {
      hide Answered;
      if oldState == WRITE {
        finished := finished + [Write(currentMsg.vectors, currentMsg.offset)];
      }
      Complete(if oldState == CLOSE then OK else err);
    }

    /** lwip_netconn_do_connected; the handshake has just made the control block synchronized. */
    method Connected(err: Err)
      requires Valid() && state == CONNECT
      modifies this`state, this`events, this`inNonblockingConnect, this`currentMsg, pcb, currentMsg
      ensures Valid() && state == NONE && currentMsg == null && events == old(events) + [SendPlus]
      ensures old(currentMsg) != null ==> old(currentMsg).err == err && old(currentMsg).offset == old(currentMsg.offset)
      ensures pcb.state == ESTABLISHED && !inNonblockingConnect
      ensures Room() == old(Room()) && Heard() == (old(Heard()) || err == OK)
      ensures tcp == old(tcp) && Calls() == old(Calls())
    {
      hide Answered, Concat, Before, Joined, ApiMsg.Cursor, ApiMsg.Unfinished, ApiMsg.Overrun;
      pcb.state := ESTABLISHED;
      if err == OK {
        pcb.Setup();
      }
      var wasBlocking := !inNonblockingConnect;
      inNonblockingConnect := false;
      events := events + [SendPlus];
      if wasBlocking {
        Complete(err);
      } else {
        state := NONE;
      }
    }

    /** What happens to the connection between two calls into this layer. */
    method Progress(room: u16)
      requires Valid() && pcb != null
      modifies pcb
      ensures Valid() && Heard() == old(Heard()) && Room() == room && tcp == old(tcp) && Calls() == old(Calls())
    {
      pcb.Progress(room);
    }
  }
}
