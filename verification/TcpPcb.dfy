/** The TCP layer as the netconn layer sees it: a control block whose results are chosen by the
    environment, within what the TCP functions promise. */
module TcpPcb {
  import opened Words
  import opened Types

  /** enum tcp_state */
  datatype TcpState = CLOSED | LISTEN | SYN_SENT | SYN_RCVD | ESTABLISHED | FIN_WAIT_1
                    | FIN_WAIT_2 | CLOSE_WAIT | CLOSING | LAST_ACK | TIME_WAIT

  /** A connection exists: the handshake was started by the peer or has ended. */
  predicate Synchronized(s: TcpState) {
    s != CLOSED && s != LISTEN && s != SYN_SENT
  }

  /** The states in which tcp_write takes data. */
  predicate MaySend(s: TcpState) {
    s == ESTABLISHED || s == CLOSE_WAIT || s == SYN_SENT || s == SYN_RCVD
  }

  const TCP_SNDLOWAT: u16 := 1071
  const TCP_SNDQUEUELOWAT: u16 := 5

  /** What TCP was asked to do, and its answer. */
  datatype TcpCall =
    | Wrote(err: Err)                           // tcp_write
    | SentOut(err: Err)                         // tcp_output
    | Closes(err: Err)                          // tcp_close
    | Shuts(rx: bool, tx: bool, err: Err)       // tcp_shutdown
    | Aborts                                    // tcp_abort
    | Connects(err: Err)                        // tcp_connect
    | Listens(err: Err)                         // tcp_listen_with_backlog_and_err

  /** The calls behind some earlier ones. */
  function Since(calls: seq<TcpCall>, before: seq<TcpCall>): seq<TcpCall> {
    if before <= calls then calls[|before|..] else []
  }

  lemma SinceIs(before: seq<TcpCall>, asked: seq<TcpCall>)
    ensures before <= before + asked && Since(before + asked, before) == asked
  {
  }

  /** Shutting down is refused: there is no connection whose sending side could be closed. */
  predicate RefusesShutdown(s: TcpState, tx: bool) {
    s == LISTEN || (tx && s != SYN_RCVD && s != ESTABLISHED && s != CLOSE_WAIT)
  }

  class Pcb {
    var state: TcpState
    var rxClosed: bool          // TF_RXCLOSED
    var argSet: bool            // tcp_arg is the netconn
    var sentCb: bool            // the callbacks are those of the netconn layer
    var pollCb: bool
    var errCb: bool
    var sndBuf: u16             // tcp_sndbuf
    var queueLen: u16           // tcp_sndqueuelen
    var queued: seq<byte>       // all bytes tcp_write has accepted so far
    var calls: seq<TcpCall>     // what TCP was asked so far (not in the source)

    constructor (s: TcpState)
      ensures state == s && queued == [] && calls == [] && !argSet && !sentCb && !pollCb && !errCb
    {
      state, rxClosed, argSet, sentCb, pollCb, errCb, queued := s, false, false, false, false, false, [];
      sndBuf, queueLen, calls := *, *, [];
    }

    /** There is enough room, and the queue is short enough, for a socket to be writable. */
    predicate Writable()
      reads this
    {
      sndBuf > TCP_SNDLOWAT && queueLen < TCP_SNDQUEUELOWAT
    }

    /** setup_tcp */
    method Setup()
      modifies this`argSet, this`sentCb, this`pollCb, this`errCb
      ensures argSet && sentCb && pollCb && errCb
    {
      argSet, sentCb, pollCb, errCb := true, true, true, true;
    }

    /** tcp_write: all of the data or none of it; nothing is always accepted where data would be. */
    method Write(data: seq<byte>) returns (err: Err)
      requires |data| <= 0xFFFF
      modifies this`queued, this`sndBuf, this`queueLen, this`calls
      ensures calls == old(calls) + [Wrote(err)]
      ensures err == CONN <==> !MaySend(state)
      ensures MaySend(state) && data == [] ==> err == OK
      ensures MaySend(state) && |data| > old(sndBuf) ==> err == MEM
      ensures err == OK || err == MEM || err == CONN
      ensures err == OK ==> queued == old(queued) + data && sndBuf == old(sndBuf) - |data|
      ensures err != OK ==> queued == old(queued) && sndBuf == old(sndBuf)
    {
      if !MaySend(state) {
        err := CONN;
      } else if data == [] {
        err := OK;
      } else if |data| > sndBuf {
        err := MEM;
      } else if * {
        err := MEM;
      } else {
        queued, sndBuf, queueLen := queued + data, sndBuf - |data|, *;
        err := OK;
      }
      calls := calls + [Wrote(err)];
    }

    /** tcp_output */
    method Output() returns (err: Err)
      modifies this`calls
      ensures calls == old(calls) + [SentOut(err)]
    {
      err := *;
      calls := calls + [SentOut(err)];
    }

    /** tcp_close, by its documentation: a control block without a connection is given up at once, and closing a
        connection may fail for lack of memory. (tcp_close_shutdown_fin reports success in that case and
        retries by itself; what holds for both results holds for that one.) */
    method Close() returns (err: Err)
      modifies this`state, this`rxClosed, this`calls
      ensures err == OK || (err == MEM && Synchronized(old(state)) && state == old(state))
      ensures err == OK ==> state == CLOSED
      ensures rxClosed == (old(rxClosed) || Synchronized(old(state)))
      ensures calls == old(calls) + [Closes(err)]
    {
      err := OK;
      if Synchronized(state) {
        rxClosed := true;
        if * {
          err := MEM;
        }
      }
      if err == OK {
        state := CLOSED;
      }
      calls := calls + [Closes(err)];
    }

    /** tcp_abort */
    method Abort()
      modifies this`state, this`calls
      ensures state == CLOSED && calls == old(calls) + [Aborts]
    {
      state := CLOSED;
      calls := calls + [Aborts];
    }

    /** tcp_shutdown, for one direction; the lack of memory as for tcp_close. */
    method Shutdown(rx: bool, tx: bool) returns (err: Err)
      requires !(rx && tx)
      modifies this`state, this`rxClosed, this`calls
      ensures calls == old(calls) + [Shuts(rx, tx, err)]
      ensures err == OK || err == MEM || err == CONN
      ensures err == MEM ==> tx && Synchronized(old(state))
      ensures err == CONN <==> RefusesShutdown(old(state), tx)
      ensures state == if err == OK && tx then (if old(state) == CLOSE_WAIT then LAST_ACK else FIN_WAIT_1) else old(state)
      ensures rxClosed == (old(rxClosed) || (rx && old(state) != LISTEN))
    {
      err := OK;
      if state == LISTEN {
        err := CONN;
      } else {
        if rx {
          rxClosed := true;
        }
        if tx {
          if state != SYN_RCVD && state != ESTABLISHED && state != CLOSE_WAIT {
            err := CONN;
          } else if * {
            err := MEM;
          } else {
            state := if state == CLOSE_WAIT then LAST_ACK else FIN_WAIT_1;
          }
        }
      }
      calls := calls + [Shuts(rx, tx, err)];
    }

    /** tcp_connect: only from CLOSED; the SYN is queued or nothing happens. */
    method Connect() returns (err: Err)
      modifies this`state, this`calls
      ensures calls == old(calls) + [Connects(err)]
      ensures old(state) != CLOSED ==> err == ISCONN
      ensures err != INPROGRESS
      ensures err == OK ==> state == SYN_SENT
      ensures err != OK ==> state == old(state)
    {
      err := OK;
      if state != CLOSED {
        err := ISCONN;
      } else if * {
        err :| err != OK && err != INPROGRESS;
      } else {
        state := SYN_SENT;
      }
      calls := calls + [Connects(err)];
    }

    /** tcp_listen_with_backlog_and_err: a smaller control block takes the place of this one, or it fails. */
    method Listen() returns (err: Err, lpcb: Pcb?)
      modifies this`calls
      ensures err == OK || err == MEM || err == USE
      ensures if err == OK then lpcb != null && fresh(lpcb) && lpcb.state == LISTEN && lpcb.queued == [] else lpcb == null
      ensures calls == old(calls) + [Listens(err)] && (lpcb != null ==> lpcb.calls == calls)
    {
      err :| err == OK || err == MEM || err == USE;
      calls := calls + [Listens(err)];
      lpcb := null;
      if err == OK {
        lpcb := new Pcb(LISTEN);
        lpcb.calls := calls;
      }
    }

    /** What the peer and the timers may do to a connection between two calls; `room` is the room in the send
        buffer afterwards. */
    method Progress(room: u16)
      modifies this`state, this`rxClosed, this`sndBuf, this`queueLen
      ensures if Synchronized(old(state)) then Synchronized(state) else state == old(state)
      ensures sndBuf == room
    {
      sndBuf, queueLen := room, *;
      if Synchronized(state) {
        assert Synchronized(ESTABLISHED);
        var s: TcpState :| Synchronized(s);
        state, rxClosed := s, *;
      }
    }
  }
}
