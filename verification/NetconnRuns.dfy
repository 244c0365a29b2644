/** Runs of a netconn: messages from application threads and callbacks from TCP, in any order. */
module NetconnRuns {
  import opened Words
  import opened Types
  import opened TcpPcb
  import opened Vectors
  import opened Netconn

  /** What can happen to a netconn. */
  datatype Step =
    | Send(request: Request)
    | SetNonblock(val: bool)
    | SentEvent
    | PollEvent
    | ErrEvent(e: Err)
    | ConnectedEvent(e: Err)
    | PeerEvent(room: u16)

  /** The step is a message; a write of no bytes sends none, and none asks for more than it brings. */
  predicate Sends(step: Step) {
    && step.Send?
    && match step.request {
         case WriteVectors(vectors, len, _) => 0 < len <= |Concat(vectors)|
         case Newconn => false
         case _ => true
       }
  }

  /** TCP makes this callback: it has it registered, and errors and handshakes come where they can. */
  predicate Delivers(c: Conn, step: Step)
    reads c, c.pcb
  {
    match step
    case SentEvent => c.pcb != null && c.pcb.sentCb && c.pcb.argSet
    case PollEvent => c.pcb != null && c.pcb.pollCb && c.pcb.argSet
    case ErrEvent(e) => c.pcb != null && c.pcb.errCb && c.pcb.argSet && IsLoss(e)
    case ConnectedEvent(_) => c.state == CONNECT
    case _ => false
  }

  predicate Resumes(step: Step) {
    step.SentEvent? || step.PollEvent?
  }

  /** What every step keeps. */
  ghost predicate InOrder(c: Conn)
    reads c, c.msgs, c.pcb, c.currentMsg
  {
    && c.Accounted() && c.Stream() && !(c.hung && c.asserted)
    && (!c.hung && !c.asserted ==> c.Valid())
    && (c.currentMsg != null ==> c.pcb != null) && (c.pcb != null ==> c.tcp == c.pcb)
    && (c.hung ==> c.Writing() && c.Stuck())
    && (c.asserted ==> c.state == WRITE && c.currentMsg != null && c.currentMsg.Overrun())
  }

  lemma StillInOrder(c: Conn, m: ApiMsg, s: Situation)
    requires c.Continued(m, s) && s.base == Joined(s.finished) && c.tcp == c.pcb
    ensures InOrder(c) && c.Accounted()
  {
    hide Concat, Before, Joined, Conn.Stuck;
    c.ContinuedStream(m, s);
  }

  lemma ValidInOrder(c: Conn)
    requires c.Valid()
    ensures InOrder(c)
  {
    hide Concat, Before, Joined;
    c.ValidStream();
  }

  // ---- A netconn as a value ----

  /** A message, with its answer if it has one, and how many bytes TCP has taken if it is a write. */
  datatype Message = Message(request: Request, answer: Option<Err>, offset: nat) {
    /** The bytes that TCP has taken. */
    function Taken(): seq<byte> {
      if request.WriteVectors? then Write(request.vectors, offset).Taken() else []
    }

    /** It asks for more than its length says, and has come to its length or beyond without an answer. */
    predicate Overran() {
      request.WriteVectors? && request.len <= offset && request.len < |Concat(request.vectors)|
    }
  }

  /** What a netconn looks like: `room` is the room in the send buffer, `heard` tells whether the sent callback is
      registered, `wrote` is the last answer of tcp_write, and `calls` is all that TCP was asked, with its answers. */
  datatype Status = Status(state: State, alive: bool, pendingErr: Err, nonBlocking: bool, room: nat, heard: bool, wrote: Err,
    calls: seq<TcpCall>)

  /** A netconn with all messages that were sent to it; `waiting` is the one being worked on. */
  datatype View = View(now: Status, waiting: Option<nat>, messages: seq<Message>)

  /** Which message waits after a step: none, the one that waited before it, or the one that it brings. */
  datatype Who = Nobody | Earlier | Later

  function StatusOf(c: Conn): Status
    reads c, c.pcb, c.tcp
  {
    Status(c.state, c.pcb != null, c.pendingErr, c.nonBlocking, c.Room(), c.Heard(), c.wrote, c.Calls())
  }

  function Seen(m: ApiMsg): Message
    reads m
  {
    Message(m.request, if m.signals == 0 then None else Some(m.err), if m.request.WriteVectors? then m.offset else 0)
  }

  function SeenIf(m: ApiMsg?): Option<Message>
    reads m
  {
    if m == null then None else Some(Seen(m))
  }

  function WhoWaits(c: Conn, m0: ApiMsg?): Who
    reads c
  {
    if c.currentMsg == null then Nobody else if c.currentMsg == m0 then Earlier else Later
  }

  /** The answer to a request that is refused, by the state of the netconn. */
  function Refusal(now: Status, busy: bool, request: Request): Option<Err> {
    match request
    case Newconn => None
    case WriteVectors(_, _, _) =>
      if now.pendingErr != OK then Some(now.pendingErr)
      else if now.state != NONE then Some(INPROGRESS)
      else if !now.alive then Some(CONN)
      else None
    case CloseRequest(rd, wr, _) =>
      if !now.alive || (now.state == LISTENING && !(rd && wr)) || now.state == CONNECT then Some(CONN)
      else if now.state == WRITE then Some(INPROGRESS)
      else None
    case DelconnRequest(_) => if busy then Some(INPROGRESS) else if !now.alive then Some(OK) else None
    case ConnectRequest =>
      if !now.alive then Some(CLSD)
      else if now.state == CONNECT then Some(ALREADY)
      else if now.state != NONE then Some(ISCONN)
      else None
    case ListenRequest =>
      if !now.alive then Some(CONN)
      else if now.state == LISTENING then Some(OK)
      else if now.state != NONE then Some(CONN)
      else None
  }

  /** The answers to a request that is taken on, at once or after it has waited, with the state that follows. For a
      write, `offset` is how many bytes TCP has taken. */
  predicate AnswersTo(request: Request, e: Err, offset: nat, now: Status) {
    match request
    case Newconn => false
    case WriteVectors(_, len, dontBlock) =>
      now.state == NONE && now.alive && TellsWriter(e, offset, len, now.nonBlocking || dontBlock)
    case CloseRequest(rd, wr, _) =>
      now.state == NONE && (e == OK || e == MEM || e == CONN) && (rd && wr ==> e == OK && !now.alive)
    case DelconnRequest(_) => now.state == NONE && !now.alive && e == OK
    case ConnectRequest =>
      && now.alive && now.heard
      && if now.state == CONNECT then now.nonBlocking && e == INPROGRESS
         else now.state == NONE && e != OK && e != INPROGRESS
    case ListenRequest => if e == OK then now.state == LISTENING && now.alive else now.state == NONE
  }

  /** The state in which a request waits. */
  predicate WaitsIn(request: Request, now: Status) {
    && now.alive
    && match request
       case WriteVectors(_, _, dontBlock) => now.state == WRITE && !(now.nonBlocking || dontBlock)
       case CloseRequest(_, _, _) => now.state == CLOSE
       case DelconnRequest(_) => now.state == CLOSE
       case ConnectRequest => now.state == CONNECT && now.heard
       case _ => false
  }

  /** The state of a netconn is that of the request that waits. */
  predicate Fits(request: Request, state: State) {
    match state
    case WRITE => request.WriteVectors?
    case CLOSE => request.CloseRequest? || request.DelconnRequest?
    case CONNECT => request.ConnectRequest?
    case _ => false
  }

  /** What happens to a request that is worked on: it is answered or waits. A write uses up as much room as TCP
      takes bytes. Unless TCP lacks memory or takes no data, it comes as far as the room reaches; it goes on
      waiting then only if that is not its length, or if it sticks. Other requests leave the room alone, unless the
      control block is replaced. */
  ghost predicate Works(f: Status, m: Message, f': Status, m': Message, waits: bool) {
    && m'.request == m.request && f'.nonBlocking == f.nonBlocking && f.calls <= f'.calls
    && Asks(m.request, f, f', m'.answer, waits)
    && (if waits then m'.answer == None && WaitsIn(m.request, f')
        else m'.answer.Some? && AnswersTo(m.request, m'.answer.value, m'.offset, f'))
    && if m.request.WriteVectors? then
         && m.offset <= m'.offset <= |Concat(m.request.vectors)| && m'.offset + f'.room == m.offset + f.room
         && f'.heard == f.heard && (f'.wrote == OK || f'.wrote == MEM || f'.wrote == CONN)
         && (f'.wrote == CONN <==> m'.answer == Some(CONN))
         && (AsksToWrite(f'.calls, |f.calls|, f'.wrote, m'.answer) || (waits && Sticks(m.request.vectors, m.offset + f.room)))
         && (f'.wrote == OK ==> m'.offset == Conn.TakenUpTo(m.request.vectors, m.offset + f.room))
         && (f'.wrote == OK && waits ==>
               || !Conn.MeetsLength(m.request.vectors, m.request.len, m.offset + f.room)
               || Sticks(m.request.vectors, m.offset + f.room))
       else
         m'.offset == m.offset && f'.wrote == f.wrote && (f'.alive && !m.request.ListenRequest? ==> f'.room == f.room)
  }

  /** What TCP is asked for a request, and that its answer is that of TCP. */
  predicate Asks(request: Request, f: Status, f': Status, answer: Option<Err>, waits: bool) {
    var asked, e := Since(f'.calls, f.calls), if answer.Some? then answer.value else OK;
    match request
    case Newconn => false
    case WriteVectors(_, _, _) => true
    case CloseRequest(rd, wr, _) =>
      if asked != [] && asked[0].Closes? then AsksForFullClose(asked, waits, e, f'.alive)
      else
        && asked == [Shuts(rd, wr, if waits then MEM else e)] && !(rd && wr) && f'.alive
    case DelconnRequest(_) => AsksForFullClose(asked, waits, e, f'.alive)
    case ConnectRequest => AsksToConnect(asked, f'.nonBlocking, waits, e)
    case ListenRequest => AsksToListen(asked, true, e) || AsksToListen(asked, false, e)
  }

  /** TCP closes; where it cannot, the close waits, or aborts after its last poll. */
  predicate AsksForFullClose(asked: seq<TcpCall>, waits: bool, e: Err, alive: bool) {
    if waits then asked == [Closes(MEM)]
    else e == OK && !alive && (asked == [Closes(OK)] || asked == [Closes(MEM), Aborts])
  }

  /** What a step does to a netconn: to its status, to the message that waits, if there is one, and to the message
      that the step brings, if it brings one. */
  ghost predicate Moves(f: Status, m: Option<Message>, step: Step, f': Status, m': Option<Message>, n: Option<Message>, who: Who) {
    && m'.Some? == m.Some? && (n.Some? <==> Sends(step)) && (who.Earlier? ==> m.Some?) && (who.Later? ==> n.Some?)
    && (m.Some? ==> Fits(m.value.request, f.state))
    && match step
       case Send(request) =>
         if Sends(step) then Takes(f, m, request, f', m', n.value, who) else Stays(f, m, f', m', who)
       case SetNonblock(val) => Stays(f.(nonBlocking := val), m, f', m', who)
       case PeerEvent(room) => Stays(if f.alive then f.(room := room) else f, m, f', m', who)
       case SentEvent => if f.heard then Continues(f, m, f', m', who) else Stays(f, m, f', m', who)
       case PollEvent => Continues(f, m, f', m', who)
       case ErrEvent(e) =>
         || (f.alive && IsLoss(e) && Ends(Status(NONE, false, e, f.nonBlocking, 0, false, f.wrote, f.calls), m,
               if f.state == CLOSE then OK else e, f', m', who))
         || ((f.alive && IsLoss(e) ==> f.state == LISTENING) && Stays(f, m, f', m', who))
       case ConnectedEvent(e) =>
         if f.state == CONNECT then Ends(f.(state := NONE, heard := f.heard || e == OK), m, e, f', m', who)
         else Stays(f, m, f', m', who)
  }

  /** The message that waits, if there is one, goes on waiting, as it is. */
  predicate Stays(f: Status, m: Option<Message>, f': Status, m': Option<Message>, who: Who) {
    f' == f && m' == m && who == if m.Some? then Earlier else Nobody
  }

  /** The message that waits, if there is one, gets this answer, and keeps what it has of its bytes. */
  predicate Ends(f: Status, m: Option<Message>, e: Err, f': Status, m': Option<Message>, who: Who) {
    f' == f && who.Nobody? && m' == if m.Some? then Some(m.value.(answer := Some(e))) else None
  }

  /** A message arrives. It is refused, or worked on; then another that waits is left behind without an answer,
      which can only be a close. */
  ghost predicate Takes(f: Status, m: Option<Message>, request: Request, f': Status, m': Option<Message>, n: Message, who: Who) {
    var refusal := Refusal(f, m.Some?, request);
    var g := if request.WriteVectors? then f.(pendingErr := OK) else f;
    && m' == m
    && if refusal.Some? then Stays(g, m, f', m', who) && n == Message(request, refusal, 0)
       else
         && f'.pendingErr == g.pendingErr && Works(g, Message(request, None, 0), f', n, who.Later?)
         && !who.Earlier? && (m.Some? ==> f.state == CLOSE)
  }

  /** A poll, or a sent callback: a write is continued, unless an assertion fails because it has overrun its length;
      a close is tried again. */
  ghost predicate Continues(f: Status, m: Option<Message>, f': Status, m': Option<Message>, who: Who) {
    if (f.state == WRITE || f.state == CLOSE) && m.Some? && m'.Some? && !m.value.Overran() then
      && f'.pendingErr == f.pendingErr && Works(f, m.value, f', m'.value, who.Earlier?) && !who.Later?
    else Stays(f, m, f', m', who)
  }

  predicate IsLoss(e: Err) {
    e == ABRT || e == RST || e == CLSD
  }

  /** A step leads from view to view: it moves status, waiting message and new message, and leaves all other messages
      as they are. */
  ghost predicate Leads(v: View, step: Step, v': View) {
    var k := |v.messages|;
    && |v'.messages| == (if Sends(step) then k + 1 else k)
    && (v.waiting.Some? ==> v.waiting.value < k)
    && (forall i | 0 <= i < k && v.waiting != Some(i) :: v'.messages[i] == v.messages[i])
    && (v'.waiting.None? || v'.waiting == v.waiting || v'.waiting == Some(k))
    && Moves(v.now, Waiting(v, v.waiting), step, v'.now, Waiting(v', v.waiting),
         if Sends(step) then Some(v'.messages[k]) else None,
         if v'.waiting.None? then Nobody else if v'.waiting == Some(k) then Later else Earlier)
  }

  function Waiting(v: View, at: Option<nat>): Option<Message> {
    if at.Some? && at.value < |v.messages| then Some(v.messages[at.value]) else None
  }

  /** A close message arrives while a close is in progress. */
  predicate Overwrites(v: View, step: Step) {
    step.Send? && step.request.CloseRequest? && v.now.state == CLOSE
  }

  // ---- Steps ----

  /** What a step adds to the log of finished writes: nothing, or the write that it ends. */
  ghost predicate Logs(c: Conn, before: seq<Write>, ended: ApiMsg?)
    reads c, ended
  {
    if ended == null then c.finished == before
    else c.currentMsg != ended && c.finished == before + [Write(ended.vectors, ended.offset)]
  }

  ghost function Ended(c: Conn, m: ApiMsg): ApiMsg?
    reads c
  {
    if c.currentMsg == null then m else null
  }

  lemma LogsWrite(c: Conn, m: ApiMsg, s: Situation)
    requires c.Continued(m, s)
    ensures c.pcb == s.tcp && c.asserted == s.overrun && s.calls <= c.pcb.calls
    ensures c.currentMsg == null || c.currentMsg == m
    ensures Logs(c, s.finished, Ended(c, m))
    ensures c.currentMsg == null ==> c.state == NONE && !c.asserted && c.Accounted()
    ensures c.currentMsg != null ==> c.state == WRITE
    ensures c.asserted ==>
      c.currentMsg == m && m.offset == s.offset && c.Room() == s.reach - s.offset && c.Heard() == s.heard && c.wrote == s.wrote &&
      c.pcb.calls == s.calls
  {
    hide Concat, Before, Joined, Conn.Stuck;
  }

  /** A call of lwip_netconn_do_writemore, seen as work on its request. */
  lemma WriteWorks(c: Conn, m: ApiMsg, s: Situation, f: Status, m0: Message)
    requires c.Continued(m, s) && c.Accounted() && m in c.msgs && m !in c.lost && !s.overrun
    requires m0 == Message(m.request, None, s.offset) && s.reach == s.offset + f.room && s.heard == f.heard
    requires c.tcp == c.pcb && f.calls == s.calls
    requires m.request.WriteVectors? && (s.willStick ==> Sticks(m.vectors, s.reach))
    requires s.dontBlock == (c.nonBlocking || m.dontBlock) && f.nonBlocking == c.nonBlocking
    ensures Works(f, m0, StatusOf(c), Seen(m), c.currentMsg == m)
  {
    hide Concat, Before, Joined;
  }

  lemma RefusesTo(f: Status, m: Option<Message>, request: Request)
    requires request.WriteVectors? && (f.pendingErr != OK || f.state != NONE || !f.alive)
    ensures var e := if f.pendingErr != OK then f.pendingErr else if f.state != NONE then INPROGRESS else CONN;
      Takes(f, m, request, f.(pendingErr := OK), m, Message(request, Some(e), 0), if m.Some? then Earlier else Nobody)
  {
  }

  lemma BeginsWith(f: Status, request: Request, f': Status, n: Message, waits: bool)
    requires request.WriteVectors? && f.pendingErr == OK && f.state == NONE && f.alive
    requires f'.pendingErr == OK && Works(f, Message(request, None, 0), f', n, waits)
    ensures Takes(f, None, request, f', None, n, if waits then Later else Nobody)
  {
    hide Works;
    assert f == f.(pendingErr := OK);
  }

  /** A write message. */
  method PerformWrite(c: Conn, vectors: seq<seq<byte>>, len: nat, dontBlock: bool)
      returns (msg: ApiMsg, ghost ended: ApiMsg?)
    requires c.Valid() && 0 < len <= |Concat(vectors)|
    modifies c, c.pcb
    ensures InOrder(c) && fresh(msg) && c.msgs == old(c.msgs) + {msg} && msg.request == WriteVectors(vectors, len, dontBlock)
    ensures c.lost == old(c.lost) && c.pcb == old(c.pcb) && !c.asserted
    ensures c.nonBlocking == old(c.nonBlocking)
    ensures Logs(c, old(c.finished), ended) && (ended == null || ended == msg)
    ensures Takes(old(StatusOf(c)), old(SeenIf(c.currentMsg)), msg.request, StatusOf(c), SeenIf(old(c.currentMsg)), Seen(msg),
      WhoWaits(c, old(c.currentMsg)))
    ensures c.currentMsg == null || c.currentMsg == old(c.currentMsg) || c.currentMsg == msg
    ensures if old(c.RefusesWrite()) then c.Valid() && c.currentMsg == old(c.currentMsg) && c.begun == old(c.begun) && ended == null
      else
        && c.begun == old(c.begun) + {msg} && c.Continued(msg, old(c.Beginning(vectors, dontBlock)))
        && (c.currentMsg == null ==> ended == msg)
  {
    hide Concat, Before, Joined, Conn.Stuck, Conn.Resumed, Conn.Stopped, Conn.Answered, TellsWriter;
    hide Works, Takes, Refusal, Conn.Accounted, Conn.Continued, InOrder, ApiMsg.Cursor;
    msg := new ApiMsg.ForWrite(vectors, len, dontBlock);
    Tied(c);
    ghost var f, m0 := StatusOf(c), SeenIf(c.currentMsg);
    c.DoWrite(msg);
    ended := null;
    if old(c.RefusesWrite()) {
      ValidInOrder(c);
      IsAccounted(c);
      SilentNow(c, msg);
      RefusesTo(f, m0, msg.request);
    } else {
      ghost var s := old(c.Beginning(vectors, dontBlock));
      StillInOrder(c, msg, s);
      LogsWrite(c, msg, s);
      WriteWorks(c, msg, s, f.(pendingErr := OK), Message(msg.request, None, 0));
      BeginsWith(f, msg.request, StatusOf(c), Seen(msg), c.currentMsg == msg);
      ended := Ended(c, msg);
    }
  }

  /** Any other message. */
  method PerformMessage(c: Conn, request: Request) returns (msg: ApiMsg)
    requires c.Valid() && Sends(Send(request)) && !request.WriteVectors?
    modifies c, c.pcb
    ensures c.Valid() && fresh(msg) && c.msgs == old(c.msgs) + {msg} && msg.request == request
    ensures c.pcb == null || c.pcb == old(c.pcb) || fresh(c.pcb)
    ensures c.finished == old(c.finished) && c.begun == old(c.begun) && c.nonBlocking == old(c.nonBlocking)
    ensures c.lost == if request.CloseRequest? && old(c.state) == CLOSE then old(c.lost) + {old(c.currentMsg)} else old(c.lost)
    ensures c.currentMsg == null || c.currentMsg == old(c.currentMsg) || c.currentMsg == msg
    ensures Takes(old(StatusOf(c)), old(SeenIf(c.currentMsg)), request, StatusOf(c), SeenIf(old(c.currentMsg)), Seen(msg),
      WhoWaits(c, old(c.currentMsg)))
    ensures c.currentMsg == msg && (request.CloseRequest? || request.DelconnRequest?) ==> msg.pollsLeft == request.polls
  {
    hide Conn.Valid, Takes;
    if request.CloseRequest? {
      msg := PerformClose(c, request);
    } else if request.DelconnRequest? {
      msg := PerformDelconn(c, request);
    } else if request.ConnectRequest? {
      msg := PerformConnect(c, request);
    } else {
      msg := PerformListen(c, request);
    }
  }

  /** A close that has been tried, as work on its request. */
  lemma CloseWorks(c: Conn, m: ApiMsg, f: Status, shutClose: bool, polls: nat)
    requires c.Accounted() && m in c.msgs && m !in c.lost && m.AsAsked() && (c.currentMsg == m || c.currentMsg == null)
    requires f.nonBlocking == c.nonBlocking && f.wrote == c.wrote && (c.pcb != null ==> c.Room() == f.room)
    requires f.calls <= c.Calls() && (m.shutRd && m.shutWr ==> shutClose)
    requires AsksToClose(Since(c.Calls(), f.calls), shutClose, m.shutRd, m.shutWr, polls, c.currentMsg == m, m.err)
    requires if c.currentMsg == m then c.state == CLOSE && c.pcb != null else c.state == NONE && (c.pcb == null <==> shutClose)
    requires c.currentMsg == null ==> c.ClosedBy(m)
    ensures Works(f, Message(m.request, None, 0), StatusOf(c), Seen(m), c.currentMsg == m)
  {
    hide Conn.Answered, Concat, Sticks;
    SilentNow(c, m);
  }

  /** A request that is taken on and worked on. */
  lemma WorkTakes(f: Status, m: Option<Message>, request: Request, f': Status, n: Message, waits: bool)
    requires !request.WriteVectors? && Refusal(f, m.Some?, request).None? && (m.Some? ==> f.state == CLOSE)
    requires f'.pendingErr == f.pendingErr && Works(f, Message(request, None, 0), f', n, waits)
    ensures Takes(f, m, request, f', m, n, if waits then Later else Nobody)
  {
    hide Works;
  }

  lemma RefusalTakes(f: Status, m: Option<Message>, request: Request)
    requires !request.WriteVectors? && Refusal(f, m.Some?, request).Some?
    ensures Takes(f, m, request, f, m, Message(request, Refusal(f, m.Some?, request), 0), if m.Some? then Earlier else Nobody)
  {
  }

  /** A message that closes. */
  method PerformClose(c: Conn, request: Request) returns (msg: ApiMsg)
    requires c.Valid() && request.CloseRequest?
    modifies c, c.pcb
    ensures c.Valid() && fresh(msg) && c.msgs == old(c.msgs) + {msg} && msg.request == request
    ensures c.pcb == null || c.pcb == old(c.pcb) || fresh(c.pcb)
    ensures c.finished == old(c.finished) && c.begun == old(c.begun) && c.nonBlocking == old(c.nonBlocking)
    ensures c.lost == if old(c.state) == CLOSE then old(c.lost) + {old(c.currentMsg)} else old(c.lost)
    ensures c.currentMsg == null || c.currentMsg == old(c.currentMsg) || c.currentMsg == msg
    ensures Takes(old(StatusOf(c)), old(SeenIf(c.currentMsg)), request, StatusOf(c), SeenIf(old(c.currentMsg)), Seen(msg),
      WhoWaits(c, old(c.currentMsg)))
    ensures c.currentMsg == msg ==> msg.pollsLeft == request.polls
  {
    hide Conn.Valid, Conn.Answered, Conn.Accounted, Conn.Coupled, Conn.Silent, AsksToClose, Works, Takes;
    msg := NewMessage(request);
    Tied(c);
    ghost var f, m0, all := StatusOf(c), SeenIf(c.currentMsg), c.pcb != null && c.ShutsAll(msg);
    c.DoClose(msg);
    Tied(c);
    IsAccounted(c);
    SilentNow(c, msg);
    if Refusal(f, m0.Some?, request).Some? {
      RefusalTakes(f, m0, request);
    } else {
      CloseWorks(c, msg, f, all, request.polls);
      WorkTakes(f, m0, request, StatusOf(c), Seen(msg), c.currentMsg == msg);
    }
  }

  /** A message that deletes. */
  method PerformDelconn(c: Conn, request: Request) returns (msg: ApiMsg)
    requires c.Valid() && request.DelconnRequest?
    modifies c, c.pcb
    ensures c.Valid() && fresh(msg) && c.msgs == old(c.msgs) + {msg} && msg.request == request
    ensures c.pcb == null || c.pcb == old(c.pcb) || fresh(c.pcb)
    ensures c.finished == old(c.finished) && c.begun == old(c.begun) && c.nonBlocking == old(c.nonBlocking)
    ensures c.lost == old(c.lost)
    ensures c.currentMsg == null || c.currentMsg == old(c.currentMsg) || c.currentMsg == msg
    ensures Takes(old(StatusOf(c)), old(SeenIf(c.currentMsg)), request, StatusOf(c), SeenIf(old(c.currentMsg)), Seen(msg),
      WhoWaits(c, old(c.currentMsg)))
    ensures c.currentMsg == msg ==> msg.pollsLeft == request.polls
  {
    hide Conn.Valid, Conn.Answered, Conn.Accounted, Conn.Coupled, TellsWriter, Concat, ApiMsg.Cursor, Conn.Silent;
    msg := NewMessage(request);
    Tied(c);
    c.DoDelconn(msg);
    Tied(c);
    IsAccounted(c);
    SilentNow(c, msg);
  }

  /** A message that connects. */
  method PerformConnect(c: Conn, request: Request) returns (msg: ApiMsg)
    requires c.Valid() && request.ConnectRequest?
    modifies c, c.pcb
    ensures c.Valid() && fresh(msg) && c.msgs == old(c.msgs) + {msg} && msg.request == request
    ensures c.pcb == null || c.pcb == old(c.pcb) || fresh(c.pcb)
    ensures c.finished == old(c.finished) && c.begun == old(c.begun) && c.nonBlocking == old(c.nonBlocking)
    ensures c.lost == old(c.lost)
    ensures c.currentMsg == null || c.currentMsg == old(c.currentMsg) || c.currentMsg == msg
    ensures Takes(old(StatusOf(c)), old(SeenIf(c.currentMsg)), request, StatusOf(c), SeenIf(old(c.currentMsg)), Seen(msg),
      WhoWaits(c, old(c.currentMsg)))
  {
    hide Conn.Valid, Conn.Answered, Conn.Accounted, Conn.Coupled, TellsWriter, Concat, ApiMsg.Cursor, Conn.Silent;
    msg := NewMessage(request);
    Tied(c);
    c.DoConnect(msg);
    Tied(c);
    IsAccounted(c);
    SilentNow(c, msg);
  }

  /** A message that listens; there may be memory for a mailbox or not. */
  method PerformListen(c: Conn, request: Request) returns (msg: ApiMsg)
    requires c.Valid() && request.ListenRequest?
    modifies c, c.pcb
    ensures c.Valid() && fresh(msg) && c.msgs == old(c.msgs) + {msg} && msg.request == request
    ensures c.pcb == null || c.pcb == old(c.pcb) || fresh(c.pcb)
    ensures c.finished == old(c.finished) && c.begun == old(c.begun) && c.nonBlocking == old(c.nonBlocking)
    ensures c.lost == old(c.lost)
    ensures c.currentMsg == null || c.currentMsg == old(c.currentMsg) || c.currentMsg == msg
    ensures Takes(old(StatusOf(c)), old(SeenIf(c.currentMsg)), request, StatusOf(c), SeenIf(old(c.currentMsg)), Seen(msg),
      WhoWaits(c, old(c.currentMsg)))
  {
    hide Conn.Valid, Conn.Answered, Conn.Accounted, Conn.Coupled, TellsWriter, Concat, ApiMsg.Cursor, Conn.Silent;
    msg := NewMessage(request);
    Tied(c);
    var memory: bool := *;
    c.DoListen(msg, memory);
    Tied(c);
    IsAccounted(c);
    SilentNow(c, msg);
  }

  method NewMessage(request: Request) returns (msg: ApiMsg)
    ensures fresh(msg) && msg.signals == 0 && msg.request == request
    ensures request.CloseRequest? ==> msg.shutRd == request.rd && msg.shutWr == request.wr && msg.pollsLeft == request.polls
    ensures request.DelconnRequest? ==> msg.pollsLeft == request.polls
  {
    msg := new ApiMsg.ForOther(request);
  }

  /** The same for a callback, which may find that the write has overrun its length. */
  lemma WriteContinues(c: Conn, m: ApiMsg, s: Situation, f: Status)
    requires c.Continued(m, s) && c.Accounted() && m in c.msgs && m !in c.lost && f.state == WRITE
    requires c.tcp == c.pcb && f.calls == s.calls
    requires s.reach == s.offset + f.room && s.heard == f.heard && s.wrote == f.wrote && f.pendingErr == c.pendingErr && f.alive
    requires m.request.WriteVectors? && (s.willStick ==> Sticks(m.vectors, s.reach))
    requires s.dontBlock == (c.nonBlocking || m.dontBlock) && f.nonBlocking == c.nonBlocking
    requires Message(m.request, None, s.offset).Overran() <==> s.overrun
    ensures Continues(f, Some(Message(m.request, None, s.offset)), StatusOf(c), Some(Seen(m)), WhoWaits(c, m))
  {
    hide Concat, Works, Conn.Resumed, ApiMsg.Cursor, Sticks, Joined, Before;
    LogsWrite(c, m, s);
    SilentNow(c, m);
    if !s.overrun {
      WriteWorks(c, m, s, f, Message(m.request, None, s.offset));
    }
  }

  lemma StickMeans(c: Conn)
    requires c.pcb != null && c.currentMsg != null
    ensures c.WillStick() ==> Sticks(c.currentMsg.vectors, c.Reach())
  {
  }

  /** poll_tcp or sent_tcp. */
  method PerformResume(c: Conn, step: Step) returns (ghost ended: ApiMsg?)
    requires c.Valid() && Delivers(c, step) && Resumes(step)
    modifies c, c.pcb, c.currentMsg
    ensures InOrder(c) && c.msgs == old(c.msgs) && c.begun == old(c.begun) && c.lost == old(c.lost)
    ensures c.currentMsg == null || c.currentMsg == old(c.currentMsg)
    ensures c.pcb == null || c.pcb == old(c.pcb)
    ensures Logs(c, old(c.finished), ended)
    ensures ended == if old(c.state) == WRITE && c.currentMsg == null then old(c.currentMsg) else null
    ensures c.nonBlocking == old(c.nonBlocking)
    ensures Continues(old(StatusOf(c)), old(SeenIf(c.currentMsg)), StatusOf(c), SeenIf(old(c.currentMsg)),
      WhoWaits(c, old(c.currentMsg)))
    ensures c.asserted <==> old(c.state) == WRITE && old(c.currentMsg.Overrun())
    ensures if old(c.state) == WRITE then c.Continued(old(c.currentMsg), old(c.Now())) else c.Valid()
    ensures old(c.state) == CLOSE && c.currentMsg != null ==>
      c.currentMsg.pollsLeft == old(c.currentMsg.pollsLeft) - (if step.PollEvent? then 1 else 0)
    ensures step.PollEvent? && old(c.state) == CLOSE && old(c.currentMsg.pollsLeft) == 1 ==> c.currentMsg == null
  {
    hide Concat, Before, Joined, ApiMsg.Cursor, Conn.Stuck, Conn.Resumed, Conn.Stopped, Conn.WillStick, Conn.Answered;
    hide ApiMsg.Overrun, TellsWriter, Conn.Accounted, Conn.Continued, Works, AsksToClose;
    ended := null;
    Tied(c);
    ghost var f := StatusOf(c);
    ghost var all := c.state == CLOSE && c.ShutClose();
    ghost var polls := if c.currentMsg == null then 0 else c.currentMsg.pollsLeft - if step.PollEvent? && c.state == CLOSE then 1 else 0;
    if c.state == WRITE {
      StickMeans(c);
    }
    if step.SentEvent? {
      c.SentTcp();
    } else {
      c.PollTcp();
    }
    ghost var m := old(c.currentMsg);
    if old(c.state) == WRITE {
      ghost var s := old(c.Now());
      LogsWrite(c, m, s);
      StillInOrder(c, m, s);
      WriteContinues(c, m, s, f);
      ended := Ended(c, m);
    } else {
      ValidInOrder(c);
      if old(c.state) == CLOSE {
        Tied(c);
        CloseWorks(c, m, f, all, polls);
      }
      if m != null {
        SilentNow(c, m);
      }
    }
  }

  /** A callback that TCP makes. */
  method PerformCallback(c: Conn, step: Step) returns (ghost ended: ApiMsg?)
    requires c.Valid() && Delivers(c, step)
    modifies c, c.pcb, c.currentMsg
    ensures InOrder(c) && c.msgs == old(c.msgs) && c.begun == old(c.begun) && c.lost == old(c.lost)
    ensures c.currentMsg == null || c.currentMsg == old(c.currentMsg)
    ensures c.pcb == null || c.pcb == old(c.pcb)
    ensures c.nonBlocking == old(c.nonBlocking)
    ensures Logs(c, old(c.finished), ended)
    ensures ended == if old(c.state) == WRITE && c.currentMsg == null then old(c.currentMsg) else null
    ensures Moves(old(StatusOf(c)), old(SeenIf(c.currentMsg)), step, StatusOf(c), SeenIf(old(c.currentMsg)), None,
      WhoWaits(c, old(c.currentMsg)))
    ensures c.asserted <==> Resumes(step) && old(c.state) == WRITE && old(c.currentMsg.Overrun())
    ensures Resumes(step) && old(c.state) == WRITE ==> c.Continued(old(c.currentMsg), old(c.Now()))
    ensures old(c.state) == CLOSE && c.currentMsg != null ==>
      c.currentMsg.pollsLeft == old(c.currentMsg.pollsLeft) - (if step.PollEvent? then 1 else 0)
    ensures step.PollEvent? && old(c.state) == CLOSE && old(c.currentMsg.pollsLeft) == 1 ==> c.currentMsg == null
    ensures step.ErrEvent? || step.ConnectedEvent? ==> c.currentMsg == null
    ensures c.Valid() || (Resumes(step) && old(c.state) == WRITE)
  {
    hide Concat, Before, Joined, ApiMsg.Cursor, ApiMsg.Overrun, Conn.Stuck, Conn.Resumed, Conn.Stopped, Conn.WillStick;
    hide Conn.Answered, Continues;
    ended := null;
    ghost var m := c.currentMsg;
    Tied(c);
    if Resumes(step) {
      ended := PerformResume(c, step);
      return;
    } else if step.ErrEvent? {
      ended := if c.state == WRITE then c.currentMsg else null;
      c.ErrTcp(step.e);
      ValidInOrder(c);
    } else {
      c.Connected(step.e);
      ValidInOrder(c);
    }
    if m != null {
      SilentNow(c, m);
    }
  }

  /** One step: a message arrives, a callback is made where TCP would make it, an application changes
      the mode, or the peer and the timers change the connection. `msg` is the message of the step, and
      `ended` the write that it ends. */
  method Perform(c: Conn, step: Step) returns (ghost msg: ApiMsg?, ghost ended: ApiMsg?)
    requires c.Valid()
    modifies c, c.pcb, c.currentMsg
    ensures InOrder(c) && Logs(c, old(c.finished), ended)
    ensures Moves(old(StatusOf(c)), old(SeenIf(c.currentMsg)), step, StatusOf(c), SeenIf(old(c.currentMsg)), SeenIf(msg),
      WhoWaits(c, old(c.currentMsg)))
    ensures Sends(step) <==> msg != null
    ensures if msg != null then fresh(msg) && c.msgs == old(c.msgs) + {msg} && msg.request == step.request else c.msgs == old(c.msgs)
    ensures c.pcb == null || c.pcb == old(c.pcb) || fresh(c.pcb)
    ensures c.currentMsg == null || c.currentMsg == old(c.currentMsg) || c.currentMsg == msg
    ensures c.lost == if Sends(step) && step.request.CloseRequest? && old(c.state) == CLOSE then old(c.lost) + {old(c.currentMsg)}
      else old(c.lost)
    ensures c.begun == if Sends(step) && step.request.WriteVectors? && !old(c.RefusesWrite()) then old(c.begun) + {msg}
      else old(c.begun)
    ensures ended == if old(c.state) == WRITE then (if c.currentMsg == null then old(c.currentMsg) else null)
      else if msg != null && msg in c.begun && c.currentMsg == null then msg
      else null
    ensures c.asserted <==> Resumes(step) && old(Delivers(c, step)) && old(c.state) == WRITE && old(c.currentMsg.Overrun())
    ensures c.nonBlocking == if step.SetNonblock? then step.val else old(c.nonBlocking)
    ensures
      || c.Valid()
      || (Sends(step) && step.request.WriteVectors? && !old(c.RefusesWrite()))
      || (Resumes(step) && old(Delivers(c, step)) && old(c.state) == WRITE)
    ensures !Sends(step) && !old(Delivers(c, step)) ==> c.currentMsg == old(c.currentMsg)
    ensures Sends(step) && step.request.WriteVectors? && !old(c.RefusesWrite()) ==>
      c.Continued(msg, old(c.Beginning(step.request.vectors, step.request.dontBlock)))
    ensures old(Delivers(c, step)) && Resumes(step) && old(c.state) == WRITE ==>
      c.Continued(old(c.currentMsg), old(c.Now()))
    ensures old(Delivers(c, step)) && (step.ErrEvent? || step.ConnectedEvent?) ==> c.currentMsg == null
    // polls of a close
    ensures Sends(step) && c.currentMsg == msg && (step.request.CloseRequest? || step.request.DelconnRequest?) ==>
      msg.pollsLeft == step.request.polls
    ensures old(c.state) == CLOSE && c.currentMsg != null && c.currentMsg == old(c.currentMsg) ==>
      c.currentMsg.pollsLeft == old(c.currentMsg.pollsLeft) - (if step.PollEvent? && old(Delivers(c, step)) then 1 else 0)
    // the cursor of a write that no callback continues
    ensures old(c.state) == WRITE && old(c.currentMsg.Overrun()) && c.currentMsg == old(c.currentMsg) ==> c.currentMsg.Overrun()
    ensures old(c.state) == WRITE && c.currentMsg == old(c.currentMsg) && !(old(Delivers(c, step)) && Resumes(step)) ==>
      && c.currentMsg.offset == old(c.currentMsg.offset)
      && (old(c.currentMsg.Unfinished()) ==> c.currentMsg.Unfinished())
  {
    hide Concat, Before, Joined, ApiMsg.Cursor, ApiMsg.Unfinished, ApiMsg.Overrun, Conn.Stuck, Conn.Continued, Conn.Resumed;
    hide Conn.Answered, Works, AnswersTo, WaitsIn;
    msg, ended := null, null;
    Tied(c);
    if Sends(step) {
      if step.request.WriteVectors? {
        msg, ended := PerformWrite(c, step.request.vectors, step.request.len, step.request.dontBlock);
        return;
      }
      msg := PerformMessage(c, step.request);
    } else if step.SetNonblock? {
      c.SetNonblocking(step.val);
    } else if step.PeerEvent? {
      if c.pcb != null {
        c.Progress(step.room);
      }
    } else if Delivers(c, step) {
      ended := PerformCallback(c, step);
      return;
    }
    ValidInOrder(c);
  }

  // ---- Histories ----

  /** The messages that some steps send. */
  function Requests(steps: seq<Step>): seq<Request> {
    if steps == [] then []
    else
      var step := steps[|steps| - 1];
      Requests(steps[..|steps| - 1]) + if Sends(step) then [step.request] else []
  }

  /** The messages, in order, are the ones that were asked for; they are different ones, and all that have
      been sent to the netconn. */
  ghost predicate Sent(sent: seq<ApiMsg>, requests: seq<Request>, msgs: set<ApiMsg>) {
    && |sent| == |requests|
    && (forall i | 0 <= i < |sent| :: sent[i] in msgs && sent[i].request == requests[i])
    && (forall m | m in msgs :: m in sent)
    && forall i, j | 0 <= i < j < |sent| :: sent[i] != sent[j]
  }

  /** The netconn and the messages look like this. */
  ghost predicate Shows(c: Conn, sent: seq<ApiMsg>, v: View)
    reads c, c.pcb, c.tcp, sent
  {
    && v.now == StatusOf(c)
    && |v.messages| == |sent| && (forall i | 0 <= i < |sent| :: v.messages[i] == Seen(sent[i]))
    && (v.waiting.None? <==> c.currentMsg == null)
    && (v.waiting.Some? ==> v.waiting.value < |sent| && sent[v.waiting.value] == c.currentMsg)
  }

  /** The bytes that TCP has taken of some messages, one after the other. */
  function Bytes(ms: seq<Message>): seq<byte> {
    if ms == [] then [] else Bytes(ms[..|ms| - 1]) + ms[|ms| - 1].Taken()
  }

  /** The bytes of all messages are those of the finished writes, and of the one in progress, behind which no bytes
      have been taken. */
  ghost predicate Counted(v: View, finished: seq<Write>) {
    if v.now.state == WRITE then
      LastOfAll(v) && Bytes(v.messages) == Joined(finished) + v.messages[v.waiting.value].Taken()
    else
      Bytes(v.messages) == Joined(finished)
  }

  predicate LastOfAll(v: View) {
    && v.waiting.Some? && v.waiting.value < |v.messages|
    && forall i | v.waiting.value < i < |v.messages| :: v.messages[i].Taken() == []
  }

  /** Everything that is recorded about a netconn. */
  ghost predicate Recorded(c: Conn, requests: seq<Request>, sent: seq<ApiMsg>, v: View)
    reads c, c.pcb, c.tcp, sent
  {
    Sent(sent, requests, c.msgs) && Shows(c, sent, v) && Counted(v, c.finished)
  }

  /** TCP has queued exactly the bytes taken of all messages, in the order in which these were sent. */
  lemma QueuedBytes(c: Conn, requests: seq<Request>, sent: seq<ApiMsg>, v: View)
    requires InOrder(c) && Recorded(c, requests, sent, v)
    ensures c.pcb != null ==> c.pcb.queued == Bytes(v.messages)
  {
    hide Concat, Before, Joined, Bytes, Conn.Valid, Conn.Stuck, ApiMsg.Overrun;
    if c.state == WRITE {
      WritesVectors(c);
    }
  }

  lemma WritesVectors(c: Conn)
    requires InOrder(c) && c.state == WRITE
    ensures c.currentMsg != null && c.currentMsg.request.WriteVectors?
  {
    hide Concat, Before, Joined;
  }

  /** The view behind a step. */
  ghost function Look(c: Conn, sent: seq<ApiMsg>, at: Option<nat>): View
    reads c, c.pcb, c.tcp, sent
  {
    View(StatusOf(c), at, seq(|sent|, i requires 0 <= i < |sent| reads sent => Seen(sent[i])))
  }

  lemma Tied(c: Conn)
    requires c.Valid()
    ensures c.currentMsg != null ==> c.currentMsg in c.msgs && c.currentMsg !in c.lost && c.currentMsg.signals == 0
    ensures c.begun <= c.msgs && c.lost <= c.msgs
    ensures c.state == WRITE <==> c.currentMsg != null && c.currentMsg in c.begun
    ensures c.state == NONE ==> c.currentMsg == null
    ensures c.state != NONE ==> c.pcb != null
    ensures c.pcb != null ==> c.tcp == c.pcb
    ensures c.currentMsg != null ==> c.pcb != null && (c.state == WRITE || c.state == CLOSE || c.state == CONNECT)
    ensures c.currentMsg != null ==> Fits(c.currentMsg.request, c.state)
    ensures c.state == CLOSE ==> c.currentMsg != null && c.pcb != null && c.currentMsg.AsAsked()
    ensures c.state == WRITE ==> c.currentMsg.request.WriteVectors? && (Seen(c.currentMsg).Overran() <==> c.currentMsg.Overrun())
  {
  }

  lemma IsAccounted(c: Conn)
    requires c.Valid()
    ensures c.Accounted()
  {
  }

  lemma SilentNow(c: Conn, m: ApiMsg)
    requires c.Accounted() && m in c.msgs
    ensures m.signals == if m == c.currentMsg || m in c.lost then 0 else 1
  {
  }

  lemma SentStep(sent: seq<ApiMsg>, requests: seq<Request>, msgs: set<ApiMsg>, msg: ApiMsg)
    requires Sent(sent, requests, msgs) && msg !in msgs
    ensures Sent(sent + [msg], requests + [msg.request], msgs + {msg})
  {
  }

  lemma {:induction false} BytesSame(a: seq<Message>, b: seq<Message>)
    requires |a| == |b| && forall i | 0 <= i < |a| :: a[i].Taken() == b[i].Taken()
    ensures Bytes(a) == Bytes(b)
  {
    if a != [] {
      BytesSame(a[..|a| - 1], b[..|b| - 1]);
    }
  }

  /** Where nothing has been taken behind a message, its bytes are the last ones. */
  lemma {:induction false} BytesAt(ms: seq<Message>, w: nat)
    requires w < |ms| && forall i | w < i < |ms| :: ms[i].Taken() == []
    ensures Bytes(ms) == Bytes(ms[..w]) + ms[w].Taken()
  {
    var n := |ms| - 1;
    if w < n {
      BytesAt(ms[..n], w);
      assert ms[..n][..w] == ms[..w];
    }
  }

  /** A write message that is taken on. */
  predicate TakesOn(v: View, step: Step) {
    Sends(step) && step.request.WriteVectors? && Refusal(v.now, v.waiting.Some?, step.request).None?
  }

  /** A step that meets no write in progress leaves the bytes of all messages as they are, and adds those of a write
      that it takes on. */
  lemma OtherMoves(v: View, step: Step, v': View)
    requires Leads(v, step, v') && v.now.state != WRITE
    ensures var k := |v.messages|;
      && |v'.messages| == (if Sends(step) then k + 1 else k)
      && (forall i | 0 <= i < k :: v'.messages[i].Taken() == v.messages[i].Taken())
      && (v'.now.state == WRITE <==> TakesOn(v, step) && v'.waiting == Some(k))
      && (TakesOn(v, step) ==> Sends(step)) && (TakesOn(v, step) ==> v'.waiting == None || v'.waiting == Some(k))
      && (Sends(step) && !TakesOn(v, step) ==> v'.messages[k].Taken() == [])
  {
    hide Concat, TellsWriter;
  }

  lemma OtherBytes(v: View, step: Step, v': View)
    requires Leads(v, step, v') && v.now.state != WRITE
    ensures Bytes(v'.messages) == Bytes(v.messages) + if TakesOn(v, step) then v'.messages[|v.messages|].Taken() else []
  {
    hide Leads, TakesOn, Sends, Message.Taken;
    var k := |v.messages|;
    OtherMoves(v, step, v');
    BytesSame(v.messages, v'.messages[..k]);
    if Sends(step) {
      assert v'.messages[..k] + [v'.messages[k]] == v'.messages;
    } else {
      assert v'.messages[..k] == v'.messages;
    }
  }

  /** A step of a write in progress takes bytes of its message only. */
  lemma WritingMoves(v: View, step: Step, v': View)
    requires Leads(v, step, v') && v.now.state == WRITE && LastOfAll(v)
    ensures v'.waiting == v.waiting || v'.waiting == None
    ensures v'.now.state == if v'.waiting.Some? then WRITE else NONE
    ensures Sends(step) ==> v'.messages[|v.messages|].Taken() == [] && !TakesOn(v, step)
  {
    hide Concat, TellsWriter;
  }

  lemma WritingBytes(v: View, step: Step, v': View)
    requires Leads(v, step, v') && v.now.state == WRITE && LastOfAll(v)
    ensures var w := v.waiting.value;
      && (v'.waiting.Some? ==> LastOfAll(v'))
      && Bytes(v.messages) == Bytes(v.messages[..w]) + v.messages[w].Taken()
      && Bytes(v'.messages) == Bytes(v.messages[..w]) + v'.messages[w].Taken()
  {
    hide Moves, TakesOn;
    var w := v.waiting.value;
    WritingMoves(v, step, v');
    BytesAt(v.messages, w);
    BytesAt(v'.messages, w);
    assert v'.messages[..w] == v.messages[..w];
  }

  lemma SameStart(a: seq<byte>, b: seq<byte>, rest: seq<byte>)
    requires a + rest == b + rest
    ensures a == b
  {
    assert a == (a + rest)[..|a|] && b == (b + rest)[..|b|];
  }

  /** The record of the bytes behind a step. `m0` is the message that waited before it. */
  lemma CountedStep(c: Conn, v: View, step: Step, v': View, m0: ApiMsg?, finished0: seq<Write>, msg: ApiMsg?, ended: ApiMsg?)
    requires Leads(v, step, v') && v'.now == StatusOf(c)
    requires v.waiting.None? <==> m0 == null
    requires v.waiting.Some? ==> v'.messages[v.waiting.value] == Seen(m0)
    requires Sends(step) <==> msg != null
    requires msg != null ==> v'.messages[|v.messages|] == Seen(msg)
    requires c.currentMsg == null || c.currentMsg == m0 || c.currentMsg == msg
    requires v'.waiting == if c.currentMsg == null then None else if c.currentMsg == m0 then v.waiting else Some(|v.messages|)
    requires Counted(v, finished0) && (v.now.state == WRITE ==> m0.request.WriteVectors?)
    requires Logs(c, finished0, ended)
    requires ended == if v.now.state == WRITE then (if c.currentMsg == null then m0 else null)
      else if TakesOn(v, step) && c.currentMsg == null then msg
      else null
    requires msg != null ==> msg.request == step.request
    ensures Counted(v', c.finished)
  {
    hide Concat, Bytes, Joined, Moves;
    if ended != null {
      JoinedLast(finished0, Write(ended.vectors, ended.offset));
    }
    if v.now.state == WRITE {
      WritingMoves(v, step, v');
      WritingBytes(v, step, v');
      SameStart(Bytes(v.messages[..v.waiting.value]), Joined(finished0), v.messages[v.waiting.value].Taken());
    } else {
      OtherMoves(v, step, v');
      OtherBytes(v, step, v');
    }
  }

  /** The view behind a step: its status and messages, and that the view before leads to it. */
  lemma LookLeads(c: Conn, v: View, step: Step, m0: ApiMsg?, msg: ApiMsg?, sent: seq<ApiMsg>, sent': seq<ApiMsg>,
      at: Option<nat>)
    requires Moves(v.now, Waiting(v, v.waiting), step, StatusOf(c), SeenIf(m0), SeenIf(msg), WhoWaits(c, m0))
    requires Sends(step) <==> msg != null
    requires sent' == if msg != null then sent + [msg] else sent
    requires msg != null ==> msg !in sent && msg != m0
    requires c.currentMsg == null || c.currentMsg == m0 || c.currentMsg == msg
    requires v.waiting.None? <==> m0 == null
    requires v.waiting.Some? ==> v.waiting.value < |sent| && sent[v.waiting.value] == m0
    requires forall i, j | 0 <= i < j < |sent| :: sent[i] != sent[j]
    requires |v.messages| == |sent| && forall i | 0 <= i < |sent| && sent[i] != m0 :: Seen(sent[i]) == v.messages[i]
    requires at == if c.currentMsg == null then None else if c.currentMsg == m0 then v.waiting else Some(|sent|)
    ensures var v' := Look(c, sent', at);
      && Leads(v, step, v') && Shows(c, sent', v')
      && (v.waiting.Some? ==> v'.messages[v.waiting.value] == Seen(m0)) && (msg != null ==> v'.messages[|sent|] == Seen(msg))
  {
    hide Moves;
  }

  /** A step, and that it leaves all other messages alone. */
  method PerformSeen(c: Conn, step: Step, ghost sent: seq<ApiMsg>, ghost v: View)
      returns (ghost msg: ApiMsg?, ghost ended: ApiMsg?)
    requires c.Valid() && Shows(c, sent, v) && forall i | 0 <= i < |sent| :: sent[i] in c.msgs
    modifies c, c.pcb, c.currentMsg
    ensures InOrder(c) && Logs(c, old(c.finished), ended)
    ensures Moves(v.now, Waiting(v, v.waiting), step, StatusOf(c), SeenIf(old(c.currentMsg)), SeenIf(msg),
      WhoWaits(c, old(c.currentMsg)))
    ensures forall i | 0 <= i < |sent| && sent[i] != old(c.currentMsg) :: Seen(sent[i]) == v.messages[i]
    ensures Sends(step) <==> msg != null
    ensures if msg != null then fresh(msg) && c.msgs == old(c.msgs) + {msg} && msg.request == step.request else c.msgs == old(c.msgs)
    ensures c.pcb == null || c.pcb == old(c.pcb) || fresh(c.pcb)
    ensures c.currentMsg == null || c.currentMsg == old(c.currentMsg) || c.currentMsg == msg
    ensures c.lost == if Overwrites(v, step) then old(c.lost) + {old(c.currentMsg)} else old(c.lost)
    ensures ended == if v.now.state == WRITE then (if c.currentMsg == null then old(c.currentMsg) else null)
      else if TakesOn(v, step) && c.currentMsg == null then msg
      else null
  {
    hide Concat, Before, Joined, Conn.Valid, Conn.Stuck, Conn.Continued, Conn.Stream, Conn.Accounted, Logs, Conn.Answered;
    hide Moves, InOrder;
    Tied(c);
    msg, ended := Perform(c, step);
  }

  /** A step, and what it adds to the record. */
  method PerformRecorded(c: Conn, step: Step, ghost requests: seq<Request>, ghost sent: seq<ApiMsg>, ghost v: View)
      returns (ghost sent': seq<ApiMsg>, ghost v': View)
    requires c.Valid() && Recorded(c, requests, sent, v)
    modifies c, c.pcb, c.currentMsg
    ensures InOrder(c)
    ensures c.currentMsg == null || c.currentMsg == old(c.currentMsg) || fresh(c.currentMsg)
    ensures c.pcb == null || c.pcb == old(c.pcb) || fresh(c.pcb)
    ensures Recorded(c, requests + if Sends(step) then [step.request] else [], sent', v')
    ensures Leads(v, step, v') && sent <= sent'
    ensures c.lost == if Overwrites(v, step) then old(c.lost) + {old(c.currentMsg)} else old(c.lost)
  {
    hide Concat, Before, Joined, Conn.Valid, Conn.Stuck, Conn.Continued, Conn.Stream, Conn.Accounted, Logs, Conn.Answered;
    hide Moves, Look, InOrder, Bytes, Leads, Counted, TakesOn;
    Tied(c);
    ghost var m0, finished0 := c.currentMsg, c.finished;
    ghost var msg, ended := PerformSeen(c, step, sent, v);
    sent' := if msg != null then sent + [msg] else sent;
    ghost var at := if c.currentMsg == null then None else if c.currentMsg == m0 then v.waiting else Some(|sent|);
    v' := Look(c, sent', at);
    if msg != null {
      SentStep(sent, requests, old(c.msgs), msg);
    }
    LookLeads(c, v, step, m0, msg, sent, sent', at);
    CountedStep(c, v, step, v', m0, finished0, msg, ended);
  }

  // ---- Runs ----

  /** Each view leads to the next by its step. */
  ghost predicate Traced(views: seq<View>, steps: seq<Step>) {
    |views| == |steps| + 1 && forall k | 0 <= k < |steps| :: Leads(views[k], steps[k], views[k + 1])
  }

  /** No close message arrives while a close is in progress. */
  ghost predicate NoneOverwrites(views: seq<View>, steps: seq<Step>)
    requires |views| >= |steps|
  {
    forall k | 0 <= k < |steps| :: !Overwrites(views[k], steps[k])
  }

  lemma TracedNext(views: seq<View>, steps: seq<Step>, step: Step, v: View)
    requires Traced(views, steps) && Leads(views[|steps|], step, v)
    ensures Traced(views + [v], steps + [step])
    ensures NoneOverwrites(views + [v], steps + [step]) <==> NoneOverwrites(views, steps) && !Overwrites(views[|steps|], step)
  {
    hide Leads, Overwrites;
    var views', steps' := views + [v], steps + [step];
    forall k | 0 <= k < |steps'| ensures Leads(views'[k], steps'[k], views'[k + 1]) {
      if k < |steps| {
        assert Leads(views[k], steps[k], views[k + 1]);
      }
    }
    assert steps'[|steps|] == step && views'[|steps|] == views[|steps|];
    if NoneOverwrites(views', steps') {
      forall k | 0 <= k < |steps| ensures !Overwrites(views[k], steps[k]) {
        assert !Overwrites(views'[k], steps'[k]);
      }
    }
  }

  /** What the answer to a write says of its bytes, where the netconn has been nonblocking at some time or never. */
  predicate Tells(m: Message, nonBlocking: bool) {
    m.request.WriteVectors? ==>
      && 0 < m.request.len
      && (m.answer == Some(OK) ==> m.offset > 0 && (!nonBlocking && !m.request.dontBlock ==> m.offset == m.request.len))
      && (m.answer == Some(WOULDBLOCK) ==> m.offset == 0)
  }

  lemma MovesTell(v: View, step: Step, v': View, nonBlocking: bool)
    requires Leads(v, step, v') && (v.now.nonBlocking ==> nonBlocking)
    requires forall i | 0 <= i < |v.messages| :: Tells(v.messages[i], nonBlocking)
    ensures forall i | 0 <= i < |v'.messages| :: Tells(v'.messages[i], nonBlocking)
  {
    hide Concat, Sticks;
  }

  /** In every run the answer to a write can be relied on: after success a blocking one has all its bytes taken, and
      a nonblocking one some; after ERR_WOULDBLOCK none has been taken. */
  lemma {:induction false} AnswersTell(views: seq<View>, steps: seq<Step>, nonBlocking: bool)
    requires Traced(views, steps)
    requires views[0].now.nonBlocking || SetNonblock(true) in steps ==> nonBlocking
    requires forall i | 0 <= i < |views[0].messages| :: Tells(views[0].messages[i], nonBlocking)
    ensures forall i | 0 <= i < |views[|steps|].messages| :: Tells(views[|steps|].messages[i], nonBlocking)
    ensures views[|steps|].now.nonBlocking ==> nonBlocking
  {
    hide Leads, Tells;
    if steps != [] {
      var n := |steps| - 1;
      TracedBefore(views, steps);
      AnswersTell(views[..n + 1], steps[..n], nonBlocking);
      MovesTell(views[n], steps[n], views[n + 1], nonBlocking);
      LeadsMode(views[n], steps[n], views[n + 1]);
      assert steps[n] in steps;
    }
  }

  lemma TracedBefore(views: seq<View>, steps: seq<Step>)
    requires Traced(views, steps) && steps != []
    ensures Traced(views[..|steps|], steps[..|steps| - 1]) && Leads(views[|steps| - 1], steps[|steps| - 1], views[|steps|])
  {
    hide Leads;
  }

  lemma LeadsMode(v: View, step: Step, v': View)
    requires Leads(v, step, v')
    ensures v'.now.nonBlocking == if step.SetNonblock? then step.val else v.now.nonBlocking
  {
    hide Concat, Sticks, AnswersTo, WaitsIn;
  }

  lemma RequestsNext(steps: seq<Step>, step: Step)
    ensures Requests(steps + [step]) == Requests(steps) + if Sends(step) then [step.request] else []
  {
    assert (steps + [step])[..|steps|] == steps;
  }

  /** Every history that goes on from a netconn in order. It is recorded by the messages sent, which are those that
      the steps ask for, in order, and by a view before and after each step, each of which leads to the next. TCP has
      queued what it has taken of the messages, in order. A history ends early only where the thread hangs or an
      assertion of a write fails. */
  method RunFrom(c: Conn, steps: seq<Step>, ghost requests: seq<Request>, ghost before: seq<ApiMsg>, ghost v: View)
      returns (n: nat, ghost sent: seq<ApiMsg>, ghost views: seq<View>)
    requires c.Valid() && Recorded(c, requests, before, v)
    modifies c, c.pcb, c.currentMsg
    ensures InOrder(c) && n <= |steps| && (n < |steps| ==> c.hung || c.asserted)
    ensures Traced(views, steps[..n]) && views[0] == v
    ensures Recorded(c, requests + Requests(steps[..n]), sent, views[n]) && before <= sent
    ensures c.pcb != null ==> c.pcb.queued == Bytes(views[n].messages)
    ensures old(c.lost) <= c.lost && (c.lost == old(c.lost) <==> NoneOverwrites(views, steps[..n]))
  {
    hide Concat, Before, Joined, Conn.Valid, Conn.Stuck, Conn.Stream, Recorded, Leads, Traced, NoneOverwrites, Requests, Overwrites;
    hide Bytes;
    n, sent, views := 0, before, [v];
    TracedNone(v);
    ValidInOrder(c);
    assert steps[..0] == [] && requests + [] == requests;
    while n < |steps| && !c.hung && !c.asserted
      invariant n <= |steps| && InOrder(c)
      invariant c.pcb == null || c.pcb == old(c.pcb) || fresh(c.pcb)
      invariant c.currentMsg == null || c.currentMsg == old(c.currentMsg) || fresh(c.currentMsg)
      invariant Traced(views, steps[..n]) && |views| == n + 1 && views[0] == v
      invariant Recorded(c, requests + Requests(steps[..n]), sent, views[n]) && before <= sent
      invariant old(c.lost) <= c.lost && (c.lost == old(c.lost) <==> NoneOverwrites(views, steps[..n]))
    {
      ghost var v';
      Unlost(c);
      sent, v' := PerformRecorded(c, steps[n], requests + Requests(steps[..n]), sent, views[n]);
      TracedNext(views, steps[..n], steps[n], v');
      RequestsNext(steps[..n], steps[n]);
      assert steps[..n + 1] == steps[..n] + [steps[n]];
      assert (requests + Requests(steps[..n])) + (if Sends(steps[n]) then [steps[n].request] else []) ==
        requests + Requests(steps[..n + 1]);
      views := views + [v'];
      n := n + 1;
    }
    QueuedBytes(c, requests + Requests(steps[..n]), sent, views[n]);
  }

  lemma TracedNone(v: View)
    ensures Traced([v], []) && NoneOverwrites([v], []) && Requests([]) == []
  {
  }

  lemma Unlost(c: Conn)
    requires c.Valid()
    ensures c.currentMsg != null ==> c.currentMsg !in c.lost
    ensures c.state == CLOSE ==> c.currentMsg != null
  {
  }

  /** Every message but the current one has been answered exactly when none was lost; in any case once at most. */
  lemma AnsweredOrLost(c: Conn, requests: seq<Request>, sent: seq<ApiMsg>, v: View)
    requires InOrder(c) && Recorded(c, requests, sent, v)
    ensures forall i | 0 <= i < |sent| :: sent[i].signals == if sent[i] == c.currentMsg || sent[i] in c.lost then 0 else 1
    ensures (forall i | 0 <= i < |sent| && sent[i] != c.currentMsg :: sent[i].signals == 1) <==> c.lost == {}
  {
    if m :| m in c.lost {
      var i :| 0 <= i < |sent| && sent[i] == m;
      assert sent[i].signals == 0 && sent[i] != c.currentMsg;
    }
  }

  /** The history of a netconn that an application has created. Every message but the current one has been
      answered, each of them once, exactly when no close message arrived while a close was in progress. */
  method Run(nonBlocking: bool, memory: bool, steps: seq<Step>)
      returns (c: Conn, n: nat, ghost sent: seq<ApiMsg>, ghost views: seq<View>)
    ensures InOrder(c) && n <= |steps| && (n < |steps| ==> c.hung || c.asserted)
    ensures Traced(views, steps[..n]) && Recorded(c, [Newconn] + Requests(steps[..n]), sent, views[n])
    ensures Created(views[0], nonBlocking, memory)
    ensures c.pcb != null ==> c.pcb.queued == Bytes(views[n].messages)
    ensures forall i | 0 <= i < |sent| :: sent[i].signals <= 1 && (sent[i] == c.currentMsg ==> sent[i].signals == 0)
    ensures (forall i | 0 <= i < |sent| && sent[i] != c.currentMsg :: sent[i].signals == 1) <==> NoneOverwrites(views, steps[..n])
  {
    hide Concat, Before, Conn.Stuck, Conn.Stream, Requests, Leads, Overwrites;
    c := new Conn(nonBlocking);
    var msg := new ApiMsg.ForOther(Newconn);
    c.DoNewconn(msg, memory);
    ghost var v := View(StatusOf(c), None, [Seen(msg)]);
    assert Bytes([]) == [] && v.messages[..0] == [];
    n, sent, views := RunFrom(c, steps, [Newconn], [msg], v);
    AnsweredOrLost(c, [Newconn] + Requests(steps[..n]), sent, views[n]);
  }

  /** A netconn that has just been created, with a control block unless memory was short. */
  ghost predicate Created(v: View, nonBlocking: bool, memory: bool) {
    if memory then
      v == View(Status(NONE, true, OK, nonBlocking, v.now.room, true, OK, []), None, [Message(Newconn, Some(OK), 0)])
    else
      v == View(Status(NONE, false, OK, nonBlocking, 0, false, OK, []), None, [Message(Newconn, Some(MEM), 0)])
  }

  lemma NothingRecorded(c: Conn)
    requires c.Valid() && c.msgs == {} && c.finished == [] && c.state == NONE && c.currentMsg == null
    ensures Recorded(c, [], [], View(StatusOf(c), None, []))
  {
  }

  /** The history of a netconn that accept_function has made. */
  method RunAccepted(newpcb: Pcb, steps: seq<Step>)
      returns (c: Conn, n: nat, ghost sent: seq<ApiMsg>, ghost views: seq<View>)
    requires Synchronized(newpcb.state) && newpcb.queued == []
    modifies newpcb
    ensures InOrder(c) && n <= |steps| && (n < |steps| ==> c.hung || c.asserted)
    ensures Traced(views, steps[..n]) && Recorded(c, Requests(steps[..n]), sent, views[n])
    ensures views[0] == View(Status(NONE, true, OK, false, old(newpcb.sndBuf), true, OK, old(newpcb.calls)), None, [])
    ensures c.pcb != null ==> c.pcb.queued == Bytes(views[n].messages)
    ensures forall i | 0 <= i < |sent| :: sent[i].signals <= 1 && (sent[i] == c.currentMsg ==> sent[i].signals == 0)
    ensures (forall i | 0 <= i < |sent| && sent[i] != c.currentMsg :: sent[i].signals == 1) <==> NoneOverwrites(views, steps[..n])
  {
    hide Concat, Before, Conn.Valid, Conn.Stuck, Conn.Stream, Requests, Leads, Overwrites, Recorded, InOrder, Bytes;
    c := new Conn.Accepted(newpcb);
    Tied(c);
    NothingRecorded(c);
    n, sent, views := RunFrom(c, steps, [], [], View(StatusOf(c), None, []));
    assert [] + Requests(steps[..n]) == Requests(steps[..n]);
    AnsweredOrLost(c, Requests(steps[..n]), sent, views[n]);
  }

  // ---- Closing ----

  predicate IsClose(step: Step) {
    step.Send? && step.request.CloseRequest?
  }

  /** How many polls a sequence of steps contains. */
  function Polls(steps: seq<Step>): nat {
    if steps == [] then 0 else Polls(steps[..|steps| - 1]) + if steps[|steps| - 1].PollEvent? then 1 else 0
  }

  lemma StaysClosing(f: Status, m: Option<Message>, step: Step, f': Status, m': Option<Message>, n: Option<Message>)
    requires Moves(f, m, step, f', m', n, Earlier) && f.state == CLOSE
    ensures f'.state == CLOSE
  {
  }

  /** A pending close, in every continuation that contains as many polls as its message has left: some step ends it,
      and it is answered by that step exactly when that is not another close message, which overwrites it. No
      close message comes before that step. */
  method CloseIsAnswered(c: Conn, steps: seq<Step>) returns (k: nat)
    requires c.Valid() && c.state == CLOSE && Polls(steps) >= c.currentMsg.pollsLeft
    modifies c, c.pcb, c.currentMsg
    ensures k < |steps| && forall j | 0 <= j < k :: !IsClose(steps[j])
    ensures c.currentMsg != old(c.currentMsg)
    ensures old(c.currentMsg).signals == if IsClose(steps[k]) then 0 else 1
    ensures old(c.currentMsg) in c.lost <==> IsClose(steps[k])
  {
    hide Concat, Before, Joined, Conn.Stuck, Conn.Stream, Conn.Continued, Conn.Answered, Moves, Logs, ApiMsg.Cursor;
    var m := c.currentMsg;
    ghost var polls := m.pollsLeft;
    k := 0;
    assert steps[..0] == [] && steps[..|steps|] == steps;
    while k < |steps|
      invariant k <= |steps| && c.Valid() && c.currentMsg == m && c.state == CLOSE
      invariant c.pcb == null || c.pcb == old(c.pcb) || fresh(c.pcb)
      invariant m.pollsLeft + Polls(steps[..k]) == polls
      invariant forall j | 0 <= j < k :: !IsClose(steps[j])
    {
      assert steps[..k + 1][..k] == steps[..k];
      ghost var f, m0 := StatusOf(c), SeenIf(m);
      ghost var msg, _ := Perform(c, steps[k]);
      if c.currentMsg != m {
        SilentNow(c, m);
        return;
      }
      StaysClosing(f, m0, steps[k], StatusOf(c), SeenIf(m), SeenIf(msg));
      k := k + 1;
    }
  }

  /** A message that has been lost is not answered. */
  lemma LostIsSilent(c: Conn, m: ApiMsg)
    requires InOrder(c) && m in c.lost
    ensures m.signals == 0
  {
  }

  /** A witness: a close message that arrives while another waits. The one that waited is not answered, neither then
      nor in any continuation, for as far as that goes without the thread hanging or an assertion of a write failing. */
  method SecondCloseLosesFirst(c: Conn, rd: bool, wr: bool, polls: u8, steps: seq<Step>) returns (n: nat)
    requires c.Valid() && c.state == CLOSE
    modifies c, c.pcb, c.currentMsg
    ensures InOrder(c) && n <= |steps| && (n < |steps| ==> c.hung || c.asserted)
    ensures old(c.currentMsg) in c.lost && old(c.currentMsg).signals == 0 && c.currentMsg != old(c.currentMsg)
  {
    hide Concat, Before, Joined, Conn.Stuck, Conn.Stream, Conn.Continued, AnswersTo, Refusal;
    ghost var m := c.currentMsg;
    var _, _ := Perform(c, Send(CloseRequest(rd, wr, polls)));
    n := 0;
    while n < |steps| && !c.hung && !c.asserted
      invariant n <= |steps| && InOrder(c) && m in c.lost
      invariant c.pcb == null || c.pcb == old(c.pcb) || fresh(c.pcb)
      invariant c.currentMsg == null || fresh(c.currentMsg)
    {
      var _, _ := Perform(c, steps[n]);
      n := n + 1;
    }
    LostIsSilent(c, m);
  }
}
