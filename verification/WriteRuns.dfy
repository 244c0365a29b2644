/** What becomes of a blocking write: when it is answered, when it hangs, and when it overruns its length. */
module WriteRuns {
  import opened Words
  import opened Types
  import opened TcpPcb
  import opened Vectors
  import opened Netconn
  import opened NetconnRuns
  import Prepare = WriteRequest

  // ---- When a blocking write is answered ----

  /** The write is met by the k-th of the calls that find this reach: all earlier ones leave it short of its
      length, and none sticks. */
  ghost predicate MetBy(vectors: seq<seq<byte>>, len: nat, finds: seq<nat>, k: int) {
    && 0 <= k < |finds| && Conn.MeetsLength(vectors, len, finds[k])
    && (forall j | 0 <= j < k :: finds[j] < len)
    && (forall j | 0 <= j <= k :: !Sticks(vectors, finds[j]))
  }

  /** The offsets up to which the calls so far have found room, and the room that is left now. */
  datatype Standing = Standing(finds: seq<nat>, room: nat)

  /** Where a call that finds room up to this offset takes a write. */
  function Reached(vectors: seq<seq<byte>>, finds: seq<nat>, reach: nat): Standing {
    Standing(finds + [reach], reach - Conn.TakenUpTo(vectors, reach))
  }

  /** A step that continues a write: a poll, or a sent callback, if that is registered. */
  predicate IsCall(step: Step, heard: bool) {
    step.PollEvent? || (step.SentEvent? && heard)
  }

  /** A call takes the write from where the last one left it as far as the room reaches, unless it has come to its
      length; the peer makes room. */
  function Next(vectors: seq<seq<byte>>, len: nat, heard: bool, st: Standing, step: Step): Standing
    requires st.finds != []
  {
    var offset := Conn.TakenUpTo(vectors, st.finds[|st.finds| - 1]);
    if step.PeerEvent? then st.(room := step.room)
    else if IsCall(step, heard) && offset < len then Reached(vectors, st.finds, offset + st.room)
    else st
  }

  /** Where a write stands after some steps, if it begins with this room and nothing lacks. */
  function Found(vectors: seq<seq<byte>>, len: nat, heard: bool, room: nat, steps: seq<Step>): (st: Standing)
    ensures st.finds != []
  {
    if steps == [] then Reached(vectors, [], room)
    else Next(vectors, len, heard, Found(vectors, len, heard, room, steps[..|steps| - 1]), steps[|steps| - 1])
  }

  lemma FoundNext(vectors: seq<seq<byte>>, len: nat, heard: bool, room: nat, steps: seq<Step>, n: nat)
    requires n < |steps|
    ensures Found(vectors, len, heard, room, steps[..n + 1]) ==
      Next(vectors, len, heard, Found(vectors, len, heard, room, steps[..n]), steps[n])
  {
    assert steps[..n + 1][..n] == steps[..n];
  }

  /** A message has been answered with success. */
  predicate Succeeded(m: ApiMsg)
    reads m
  {
    m.signals == 1 && m.err == OK
  }

  /** What is known of a write that goes on: it has found less than its length, or more in the last call. */
  ghost predicate GoesOn(c: Conn, m: ApiMsg, heard: bool, st: Standing)
    reads c, c.msgs, c.pcb, c.currentMsg, m
  {
    var finds := st.finds;
    && c.Valid() && c.state == WRITE && c.currentMsg == m && m.signals == 0 && finds != []
    && (forall j | 0 <= j < |finds| - 1 :: finds[j] < m.len)
    && (forall j | 0 <= j < |finds| :: !Conn.MeetsLength(m.vectors, m.len, finds[j]) && !Sticks(m.vectors, finds[j]))
    && m.Cursor() && m.offset == Conn.TakenUpTo(m.vectors, finds[|finds| - 1])
    && (m.Unfinished() ==> finds[|finds| - 1] < m.len)
    && (!m.Unfinished() ==> m.Overrun() && finds[|finds| - 1] > m.len)
    && c.Room() == st.room && c.Heard() == heard
  }

  /** No call meets a write that goes on. */
  lemma NotMetYet(c: Conn, m: ApiMsg, heard: bool, st: Standing)
    requires GoesOn(c, m, heard, st)
    ensures forall k :: !MetBy(m.vectors, m.len, st.finds, k)
  {
  }

  /** TCP has found no route for the data of the last call. */
  predicate NoRoute(c: Conn)
    reads c, c.tcp
  {
    c.Calls() != [] && c.Calls()[|c.Calls()| - 1] == SentOut(RTE)
  }

  /** After a call: TCP has taken the data, and found a route for it. */
  predicate Lasts(c: Conn)
    reads c, c.tcp
  {
    c.wrote == OK && !NoRoute(c)
  }

  /** What one more call makes of a write that has been short of its length so far. */
  lemma CallOutcome(c: Conn, m: ApiMsg, s: Situation, finds: seq<nat>)
    requires c.Resumed(m, s) && c.Accounted() && m in c.msgs && m !in c.lost && c.tcp == c.pcb
    requires !s.dontBlock && (s.willStick ==> Sticks(m.vectors, s.reach)) && c.wrote == OK
    requires forall j | 0 <= j < |finds| :: finds[j] < m.len && !Sticks(m.vectors, finds[j])
    ensures !c.hung && NoRoute(c) ==> m.signals == 1 && m.err == RTE
    ensures c.hung || !NoRoute(c) ==>
      var st := Reached(m.vectors, finds, s.reach);
      if c.hung then m.signals == 0 && forall k :: !MetBy(m.vectors, m.len, st.finds, k)
      else if m.signals == 1 then m.err == OK && MetBy(m.vectors, m.len, st.finds, |finds|) && m.offset == m.len
      else GoesOn(c, m, s.heard, st) && !Sticks(m.vectors, s.reach)
  {
    hide Concat, Before, Joined, Sticks;
    var finds' := finds + [s.reach];
    assert finds'[|finds|] == s.reach && forall j | 0 <= j < |finds| :: finds'[j] == finds[j];
    MeetsMeans(m, s.reach);
  }

  lemma MeetsMeans(m: ApiMsg, reach: nat)
    requires m.Cursor()
    ensures Conn.MeetsLength(m.vectors, m.len, reach) ==> reach >= m.len
    ensures !Conn.MeetsLength(m.vectors, m.len, reach) ==> reach != m.len
    ensures reach < m.len ==> Conn.TakenUpTo(m.vectors, reach) < m.len
    ensures reach > m.len && !Conn.MeetsLength(m.vectors, m.len, reach) ==> Conn.TakenUpTo(m.vectors, reach) > m.len
  {
    hide Concat, Before;
  }

  /** Why a write does not last: TCP lacks memory or does not take data, or finds no route; or the connection
      fails, or the application turns to nonblocking mode. */
  predicate Breaks(c: Conn, step: Option<Step>)
    reads c, c.tcp
  {
    || c.wrote != OK || NoRoute(c)
    || (step.Some? && (step.value.ErrEvent? || step.value == SetNonblock(true)))
  }

  /** What a write that is followed comes to. */
  ghost predicate Comes(c: Conn, m: ApiMsg, heard: bool, st: Standing)
    reads c, c.msgs, c.pcb, c.currentMsg, m
  {
    || GoesOn(c, m, heard, st)
    || (Succeeded(m) && c.currentMsg != m && MetBy(m.vectors, m.len, st.finds, |st.finds| - 1) && m.offset == m.len)
    || (c.hung && m.signals == 0 && forall k :: !MetBy(m.vectors, m.len, st.finds, k))
    || (c.asserted && m.signals == 0 && m.offset > m.len && forall k :: !MetBy(m.vectors, m.len, st.finds, k))
  }

  /** The write begins, and the first call finds what room there is. */
  method BeginFollowed(c: Conn, vectors: seq<seq<byte>>, len: nat)
      returns (msg: ApiMsg, lasts: bool)
    requires c.Valid() && !c.RefusesWrite() && !c.nonBlocking && 0 < len <= |Concat(vectors)|
    modifies c, c.pcb, c.currentMsg
    ensures fresh(msg) && msg.request == WriteVectors(vectors, len, false)
    ensures c.pcb == old(c.pcb) && !c.nonBlocking && !c.asserted
    ensures c.currentMsg == null || c.currentMsg == msg
    ensures if lasts then Comes(c, msg, old(c.Heard()), Reached(vectors, [], old(c.Room()))) && c.wrote == OK
      else Breaks(c, None)
    ensures c.hung ==> Sticks(vectors, old(c.Room()))
  {
    hide Concat, Before, Joined, Conn.Stuck, Conn.Valid, Sticks, MetBy, ApiMsg.Cursor, Takes, Refusal;
    ghost var s := c.Beginning(vectors, false);
    Tied(c);
    ghost var ended;
    msg, ended := PerformWrite(c, vectors, len, false);
    lasts := Lasts(c);
    if c.wrote == OK {
      CallOutcome(c, msg, s, []);
      if lasts && !c.hung && msg.signals == 0 {
        NotMetYet(c, msg, s.heard, Reached(vectors, [], s.reach));
      }
    }
  }

  /** One step more of a write that goes on. */
  method FollowStep(c: Conn, m: ApiMsg, step: Step, ghost heard: bool, ghost st: Standing) returns (lasts: bool)
    requires GoesOn(c, m, heard, st) && !c.nonBlocking && !m.dontBlock
    modifies c, c.pcb, c.currentMsg
    ensures InOrder(c) && (c.pcb == null || c.pcb == old(c.pcb) || fresh(c.pcb))
    ensures c.currentMsg == null || c.currentMsg == m
    ensures c.hung ==> Sticks(m.vectors, old(c.Reach()))
    ensures c.asserted <==> IsCall(step, heard) && old(m.Overrun())
    ensures if lasts then Comes(c, m, heard, Next(m.vectors, m.len, heard, st, step)) && !c.nonBlocking
      else Breaks(c, Some(step))
  {
    hide Concat, Before, Joined, Conn.Stuck, Conn.Valid, Sticks, MetBy, GoesOn, Conn.Continued, Conn.Resumed, ApiMsg.Cursor;
    hide Moves;
    CanMeet(c, m, heard, st);
    NotMetYet(c, m, heard, st);
    var calls := Delivers(c, step) && Resumes(step);
    assert calls <==> IsCall(step, heard);
    if !calls {
      lasts := QuietStep(c, m, step, heard, st);
      return;
    }
    ghost var s := c.Now();
    Tied(c);
    var _, _ := Perform(c, step);
    HungSticks(c, m, s);
    if c.asserted {
      lasts := true;
    } else {
      NotAsserted(c, m, s);
      lasts := Lasts(c);
      if c.wrote == OK {
        CallOutcome(c, m, s, st.finds);
      }
    }
  }

  /** A step that is not a call. */
  method QuietStep(c: Conn, m: ApiMsg, step: Step, ghost heard: bool, ghost st: Standing) returns (lasts: bool)
    requires GoesOn(c, m, heard, st) && !c.nonBlocking && !IsCall(step, heard)
    modifies c, c.pcb, c.currentMsg
    ensures InOrder(c) && (c.pcb == null || c.pcb == old(c.pcb) || fresh(c.pcb)) && !c.hung && !c.asserted
    ensures c.currentMsg == null || c.currentMsg == m
    ensures if lasts then GoesOn(c, m, heard, Next(m.vectors, m.len, heard, st, step)) && !c.nonBlocking
      else Breaks(c, Some(step))
  {
    hide Concat, Before, Joined, Conn.Stuck, Sticks, Conn.Continued, ApiMsg.Cursor, Works, Conn.MeetsLength, Conn.Answered;
    hide Conn.TakenUpTo;
    Tied(c);
    var _, _ := Perform(c, step);
    lasts := c.currentMsg == m && !c.nonBlocking;
  }

  lemma NotAsserted(c: Conn, m: ApiMsg, s: Situation)
    requires c.Continued(m, s) && !c.asserted
    ensures c.Resumed(m, s) && !s.overrun && c.pcb != null
  {
    hide Concat, Before, Sticks, Joined, Conn.Stuck;
  }

  lemma HungSticks(c: Conn, m: ApiMsg, s: Situation)
    requires c.Continued(m, s)
    ensures c.hung ==> s.willStick
    ensures c.asserted ==> m.offset == s.offset
  {
    hide Concat, Before, Sticks;
  }

  lemma CanMeet(c: Conn, m: ApiMsg, heard: bool, st: Standing)
    requires GoesOn(c, m, heard, st)
    ensures forall step :: IsCall(step, heard) <==> Resumes(step) && Delivers(c, step)
    ensures m.offset == Conn.TakenUpTo(m.vectors, st.finds[|st.finds| - 1])
    ensures m.Unfinished() <==> !m.Overrun()
    ensures if m.Overrun() then m.offset > m.len else m.offset < m.len
    ensures c.Valid() && c.state == WRITE && c.currentMsg == m && c.pcb != null && m.signals == 0
    ensures c.Room() == st.room && c.Heard() == heard
    ensures m.Unfinished() ==> forall j | 0 <= j < |st.finds| :: st.finds[j] < m.len && !Sticks(m.vectors, st.finds[j])
  {
    hide Concat, Before, Sticks;
    MeetsMeans(m, st.finds[|st.finds| - 1]);
  }

  /** A blocking write, whatever else happens meanwhile: as long as memory, route and connection last and the
      netconn stays blocking, it is answered with success, with all its bytes taken, exactly when some call finds
      room that takes it to its length, before any call finds more of it and before any sticks. What the calls
      find is a function of the room at the beginning and of the steps. The write is followed until it is
      answered, hangs, or fails an assertion. */
  method FollowWrite(c: Conn, vectors: seq<seq<byte>>, len: nat, steps: seq<Step>)
      returns (n: nat, msg: ApiMsg, lasts: bool)
    requires c.Valid() && !c.RefusesWrite() && !c.nonBlocking && 0 < len <= |Concat(vectors)|
    modifies c, c.pcb, c.currentMsg
    ensures n <= |steps| && msg.request == WriteVectors(vectors, len, false)
    ensures var finds := Found(vectors, len, old(c.Heard()), old(c.Room()), steps[..n]).finds;
      if lasts then Succeeded(msg) <==> exists k :: MetBy(vectors, len, finds, k)
      else Breaks(c, if n > 0 then Some(steps[n - 1]) else None)
    ensures lasts && Succeeded(msg) ==> msg.offset == len
    ensures lasts && n < |steps| ==> Succeeded(msg) || c.hung || c.asserted
  {
    hide Concat, Before, Joined, Conn.Stuck, Conn.Valid, Sticks, MetBy, ApiMsg.Cursor, Breaks, GoesOn, Comes;
    hide Next, Found, Succeeded, InOrder, Reached;
    ghost var heard, room := c.Heard(), c.Room();
    n := 0;
    msg, lasts := BeginFollowed(c, vectors, len);
    assert steps[..0] == [];
    NoneFound(vectors, len, heard, room);
    ghost var pcb := c.pcb;
    while n < |steps| && lasts && c.currentMsg == msg && !c.hung && !c.asserted
      invariant n <= |steps|
      invariant c.pcb == null || c.pcb == pcb || fresh(c.pcb)
      invariant c.currentMsg == null || fresh(c.currentMsg)
      invariant if lasts then Comes(c, msg, heard, Found(vectors, len, heard, room, steps[..n])) && !c.nonBlocking
        else Breaks(c, if n > 0 then Some(steps[n - 1]) else None)
    {
      ghost var st := Found(vectors, len, heard, room, steps[..n]);
      Waits(c, msg, heard, st);
      FoundNext(vectors, len, heard, room, steps, n);
      lasts := FollowStep(c, msg, steps[n], heard, st);
      n := n + 1;
    }
    assert msg.vectors == vectors && msg.len == len;
    if lasts {
      Ends(c, msg, heard, Found(vectors, len, heard, room, steps[..n]));
    }
  }

  lemma NoneFound(vectors: seq<seq<byte>>, len: nat, heard: bool, room: nat)
    ensures Found(vectors, len, heard, room, []) == Reached(vectors, [], room)
  {
  }

  lemma Waits(c: Conn, m: ApiMsg, heard: bool, st: Standing)
    requires Comes(c, m, heard, st) && c.currentMsg == m && !c.hung && !c.asserted
    ensures GoesOn(c, m, heard, st)
  {
  }

  lemma Ends(c: Conn, m: ApiMsg, heard: bool, st: Standing)
    requires Comes(c, m, heard, st)
    ensures Succeeded(m) <==> exists k :: MetBy(m.vectors, m.len, st.finds, k)
    ensures Succeeded(m) ==> m.offset == m.len
    ensures c.currentMsg != m ==> Succeeded(m) || c.hung || c.asserted
  {
    if GoesOn(c, m, heard, st) {
      NotMetYet(c, m, heard, st);
    }
  }

  // ---- Writes cut at SSIZE_MAX ----

  /** A blocking write of more than SSIZE_MAX bytes, as netconn_write_vectors_partly sends it: as long as memory,
      route and connection last and the netconn stays blocking, it is answered with success exactly when some
      call finds room for SSIZE_MAX bytes in all and not one more, before any call finds more, or sticks. */
  method FollowCutWrite(c: Conn, vectors: seq<seq<byte>>, steps: seq<Step>)
      returns (n: nat, msg: ApiMsg, lasts: bool)
    requires c.Valid() && !c.RefusesWrite() && !c.nonBlocking
    requires Prepare.SSIZE_MAX as int < |Concat(vectors)| <= 0xFFFF_FFFF
    requires forall k | 0 <= k < |vectors| :: |vectors[k]| <= 0xFFFF_FFFF
    modifies c, c.pcb, c.currentMsg
    ensures n <= |steps| && msg.request == WriteVectors(vectors, Prepare.SSIZE_MAX, false)
    ensures var finds := Found(vectors, Prepare.SSIZE_MAX, old(c.Heard()), old(c.Room()), steps[..n]).finds;
      if lasts then
        Succeeded(msg) <==> exists k :: 0 <= k < |finds| && finds[k] == Prepare.SSIZE_MAX && AllBelow(vectors, finds, k)
      else
        Breaks(c, if n > 0 then Some(steps[n - 1]) else None)
    ensures lasts && Succeeded(msg) ==> msg.offset == Prepare.SSIZE_MAX as int
    ensures lasts && n < |steps| ==> Succeeded(msg) || c.hung || c.asserted
  {
    hide Concat, Breaks, Sticks, Conn.Valid, Found;
    var r := Prepare.PrepareWrite(vectors, false, true);
    ghost var heard, room := c.Heard(), c.Room();
    n, msg, lasts := FollowWrite(c, vectors, r.size, steps);
    ghost var finds := Found(vectors, Prepare.SSIZE_MAX, heard, room, steps[..n]).finds;
    forall k | 0 <= k < |finds|
      ensures MetBy(vectors, Prepare.SSIZE_MAX, finds, k) <==> finds[k] == Prepare.SSIZE_MAX && AllBelow(vectors, finds, k)
    {
    }
    assert forall k :: MetBy(vectors, Prepare.SSIZE_MAX, finds, k) ==> 0 <= k < |finds|;
  }

  /** All calls before the k-th find less than SSIZE_MAX, and none up to it sticks. */
  ghost predicate AllBelow(vectors: seq<seq<byte>>, finds: seq<nat>, k: int)
    requires k < |finds|
  {
    && (forall j | 0 <= j < k :: finds[j] < Prepare.SSIZE_MAX)
    && (forall j | 0 <= j <= k :: !Sticks(vectors, finds[j]))
  }

  lemma OneVector(data: seq<byte>)
    ensures Concat([data]) == data && forall target: nat :: !Sticks([data], target)
  {
    assert [data][1..] == [];
  }

  /** A witness: one buffer of more than SSIZE_MAX bytes, sent by a blocking write, with room for 65535 bytes whenever
      a call comes. Unless memory or a route is lacking, the write comes to an offset behind the SSIZE_MAX bytes
      it was cut to, and is not answered. */
  method CutWriteOverruns(c: Conn, data: seq<byte>) returns (msg: ApiMsg)
    requires c.Valid() && !c.RefusesWrite() && !c.nonBlocking
    requires Prepare.SSIZE_MAX as int + 0xFFFF < |data| <= 0xFFFF_FFFF
    modifies c, c.pcb, c.currentMsg
    ensures msg.request == WriteVectors([data], Prepare.SSIZE_MAX, false)
    ensures Breaks(c, None) ||
      (c.Valid() && c.state == WRITE && c.currentMsg == msg && msg.Overrun() && msg.offset > Prepare.SSIZE_MAX as int)
  {
    hide Concat, Sticks, Conn.Valid, ApiMsg.Cursor, ApiMsg.Overrun, Conn.MeetsLength, GoesOn, Comes, Breaks;
    var vectors := [data];
    OneVector(data);
    Tied(c);
    ghost var _, _ := Perform(c, PeerEvent(0xFFFF));
    ghost var heard, st := c.Heard(), Reached(vectors, [], 0xFFFF);
    var lasts;
    msg, lasts := BeginFollowed(c, vectors, Prepare.SSIZE_MAX);
    ghost var pcb, k := c.pcb, 1;
    if lasts {
      NotMet(c, msg, heard, st, data, 1);
    }
    while lasts && msg.offset < Prepare.SSIZE_MAX as int
      invariant c.pcb == null || c.pcb == pcb || fresh(c.pcb)
      invariant c.currentMsg == null || c.currentMsg == msg
      invariant if lasts then GoesOn(c, msg, heard, st) && !c.nonBlocking && k > 0 && EndsAt(st, 0xFFFF * k)
        else Breaks(c, None)
      decreases 0x8002 - k, lasts
    {
      ShortOf(c, msg, heard, st, data, k);
      lasts := OneRound(c, msg, heard, st, data, k);
      st := Reached(vectors, st.finds, 0xFFFF * (k + 1));
      k := k + 1;
    }
    if lasts {
      Behind(c, msg, heard, st);
    }
  }

  /** The peer acknowledges everything, so that there is room for 65535 bytes again, and a poll finds it. */
  method OneRound(c: Conn, m: ApiMsg, ghost heard: bool, ghost st: Standing, data: seq<byte>, ghost k: nat)
      returns (lasts: bool)
    requires GoesOn(c, m, heard, st) && !c.nonBlocking && !m.dontBlock && m.vectors == [data] && m.len == Prepare.SSIZE_MAX
    requires |data| > Prepare.SSIZE_MAX as int && EndsAt(st, 0xFFFF * k) && m.offset < Prepare.SSIZE_MAX as int
    modifies c, c.pcb, c.currentMsg
    ensures (c.pcb == null || c.pcb == old(c.pcb) || fresh(c.pcb)) && (c.currentMsg == null || c.currentMsg == m)
    ensures if lasts then GoesOn(c, m, heard, Reached([data], st.finds, 0xFFFF * (k + 1))) && !c.nonBlocking
      else Breaks(c, None)
  {
    hide Concat, Sticks, Conn.Valid, ApiMsg.Cursor, ApiMsg.Overrun, Conn.MeetsLength, GoesOn, Comes, Breaks, InOrder;
    OneVector(data);
    CanMeet(c, m, heard, st);
    ShortOf(c, m, heard, st, data, k);
    lasts := FollowStep(c, m, PeerEvent(0xFFFF), heard, st);
    if lasts {
      ghost var st := st.(room := 0xFFFF);
      NotMet(c, m, heard, st, data, k);
      ShortOf(c, m, heard, st, data, k);
      lasts := FollowStep(c, m, PollEvent, heard, st);
      if lasts {
        NotMet(c, m, heard, Reached([data], st.finds, 0xFFFF * (k + 1)), data, k + 1);
      }
    }
    if !lasts {
      BreaksAnyway(c, m);
    }
  }

  predicate EndsAt(st: Standing, reach: nat) {
    st.finds != [] && st.finds[|st.finds| - 1] == reach
  }

  lemma BreaksAnyway(c: Conn, m: ApiMsg)
    requires Breaks(c, Some(PollEvent)) || Breaks(c, Some(PeerEvent(0xFFFF)))
    ensures Breaks(c, None)
  {
  }

  /** Multiples of 65535 do not meet SSIZE_MAX, and one buffer does not stick. */
  lemma NotMet(c: Conn, m: ApiMsg, heard: bool, st: Standing, data: seq<byte>, k: nat)
    requires Comes(c, m, heard, st) && m.vectors == [data] && m.len == Prepare.SSIZE_MAX && |data| > Prepare.SSIZE_MAX as int
    requires EndsAt(st, 0xFFFF * k) && !c.hung && !c.asserted
    ensures GoesOn(c, m, heard, st)
  {
    hide Concat, Sticks;
    OneVector(data);
    assert 0xFFFF * k != 0x7FFF_FFFF;
  }

  /** Where a write that is short of its length stands. */
  lemma ShortOf(c: Conn, m: ApiMsg, heard: bool, st: Standing, data: seq<byte>, k: nat)
    requires GoesOn(c, m, heard, st) && m.vectors == [data] && m.len == Prepare.SSIZE_MAX
    requires |data| > Prepare.SSIZE_MAX as int && EndsAt(st, 0xFFFF * k)
    requires m.offset < Prepare.SSIZE_MAX as int || 0xFFFF * k < Prepare.SSIZE_MAX as int
    ensures !m.Overrun() && m.offset == Conn.TakenUpTo(m.vectors, 0xFFFF * k) == 0xFFFF * k && k < 0x8002
  {
    hide Concat, Sticks;
    OneVector(data);
  }

  lemma Behind(c: Conn, m: ApiMsg, heard: bool, st: Standing)
    requires GoesOn(c, m, heard, st) && m.offset >= m.len
    ensures c.Valid() && c.state == WRITE && c.currentMsg == m && m.Overrun() && m.offset > m.len
  {
    hide Concat, Sticks;
    MeetsMeans(m, st.finds[|st.finds| - 1]);
  }

  /** A write that has overrun its length is answered by nothing but an error of the connection: in every
      continuation it goes on waiting, until an assertion fails or the connection is lost. */
  method OverrunIsNotAnswered(c: Conn, steps: seq<Step>) returns (n: nat)
    requires c.Valid() && c.state == WRITE && c.currentMsg.Overrun()
    modifies c, c.pcb, c.currentMsg
    ensures n <= |steps| && (n < |steps| ==> c.asserted || steps[n].ErrEvent?)
    ensures n == |steps| || c.asserted ==> c.currentMsg == old(c.currentMsg) && old(c.currentMsg).signals == 0
    ensures n < |steps| && !c.asserted ==>
      old(c.currentMsg).signals == 1 && steps[n].ErrEvent? && old(c.currentMsg).err == steps[n].e
  {
    hide Concat, Before, Joined, Conn.Stuck, Conn.Stream, ApiMsg.Cursor, ApiMsg.Overrun, Conn.Stopped, Conn.Resumed;
    hide AnswersTo;
    ghost var m := c.currentMsg;
    n := 0;
    while n < |steps|
      invariant n <= |steps| && c.Valid() && c.state == WRITE && c.currentMsg == m && m.Overrun() && m.signals == 0
      invariant c.pcb == null || c.pcb == old(c.pcb) || fresh(c.pcb)
    {
      var _, _ := Perform(c, steps[n]);
      if c.asserted || c.currentMsg == null {
        return;
      }
      n := n + 1;
    }
  }

  // ---- Writes that hang ----

  /** A witness: a write of several vectors, the first of which is a non-zero multiple of 65536 bytes, hangs where
      there is no room at all. */
  method HangsAtOnce(c: Conn, vectors: seq<seq<byte>>)
    requires c.Valid() && !c.RefusesWrite() && !c.nonBlocking && MaySend(c.pcb.state) && c.pcb.sndBuf == 0
    requires LongFirst(vectors)
    modifies c, c.pcb, c.currentMsg
    ensures c.hung && Sticks(vectors, 0)
  {
    hide Sticks, Moves, InOrder, Logs;
    LongFirstSticks(vectors);
    assert |Concat(vectors)| >= |vectors[0]|;
    var _, _ := Perform(c, Send(WriteVectors(vectors, |Concat(vectors)|, false)));
  }

  /** A witness: so does one whose first vector is a byte longer, where there is room for one byte and TCP has the
      memory for it, although it does not begin where it will stick. */
  method HangsLater(c: Conn, first: seq<byte>, second: seq<byte>)
    requires c.Valid() && !c.RefusesWrite() && !c.nonBlocking && MaySend(c.pcb.state) && c.pcb.sndBuf == 1
    requires |first| == 0x1_0001
    modifies c, c.pcb, c.currentMsg
    ensures c.hung || c.wrote == MEM
    ensures !Sticks([first, second], 0)
  {
    hide Moves, InOrder, Logs;
    var vectors := [first, second];
    SticksHere(vectors, 0, 1, 1);
    SticksHere(vectors, 0, 0, 0);
    assert |Concat(vectors)| >= |first|;
    var _, _ := Perform(c, Send(WriteVectors(vectors, |Concat(vectors)|, false)));
  }
}
