/** Receive events that come in while lwip_accept is still at work. Before a connection has a socket,
    event_callback counts them in conn->socket below -1; lwip_accept takes the count over and replays
    it. Each step below is one access to shared state: an unlocked read or one locked section. */
module AcceptEvents {

  /** The cast (s16_t)n. */
  function S16(n: int): int {
    (n + 0x8000) % 0x1_0000 - 0x8000
  }

  /** Where the accepting thread is. */
  datatype Acceptor =
    | Fetched                       // has the netconn, no socket yet
    | Allocated                     // alloc_socket has cleared rcvevent
    | Replaying(owed: int)          // has published the socket, owes this many callbacks
    | Returned

  /** Where the TCP thread is in event_callback(conn, NETCONN_EVT_RCVPLUS). */
  datatype Callback =
    | Idle
    | Recheck                       // has read a negative socket, waits for the lock
    | Count                         // knows the socket, is about to count in it

  datatype State = State(
    socket: int,                    // conn->socket
    rcvevent: int,                  // sock->rcvevent, an s16_t
    acceptor: Acceptor,
    callback: Callback)

  datatype Step =
    | Alloc                         // alloc_socket clears rcvevent, before anyone knows the socket
    | HandOver(fd: nat)             // takes the count over, in 16 bits, and publishes the socket
    | Replay                        // one turn of the loop, or its end
    | Plus                          // event_callback begins: s = conn->socket
    | Locked                        // its section under the lock
    | Minus                         // a receive call acknowledges an event

  /** A connection whose netconn has just been made by accept_function; its slot holds what an
      earlier socket left. */
  function Start(stale: int): State {
    State(-1, stale, Fetched, Idle)
  }

  /** One step; a step that cannot happen changes nothing. */
  function Next(s: State, step: Step): State {
    match step
    case Alloc =>
      if s.acceptor == Fetched then s.(rcvevent := 0, acceptor := Allocated) else s
    case HandOver(fd) =>
      if s.acceptor != Allocated then s
      else s.(acceptor := Replaying(S16(-1 - s.socket)), socket := fd)
    case Replay =>
      if !s.acceptor.Replaying? then s
      else if s.acceptor.owed > 0 then
        s.(acceptor := Replaying(s.acceptor.owed - 1), rcvevent := S16(s.rcvevent + 1))
      else s.(acceptor := Returned)
    case Plus =>
      if s.callback == Idle then s.(callback := if s.socket < 0 then Recheck else Count) else s
    case Locked =>
      match s.callback {
        case Idle => s
        case Recheck => if s.socket < 0 then s.(socket := s.socket - 1, callback := Idle) else s.(callback := Count)
        case Count => s.(rcvevent := S16(s.rcvevent + 1), callback := Idle)
      }
    case Minus =>
      if s.acceptor == Returned then s.(rcvevent := S16(s.rcvevent - 1)) else s
  }

  function Run(s: State, steps: seq<Step>): State
    decreases |steps|
  {
    if steps == [] then s else Next(Run(s, steps[..|steps| - 1]), steps[|steps| - 1])
  }

  // ---- What a schedule asks to be counted ----

  /** The events that TCP signals: callbacks that begin while none is running. */
  function Signalled(s: State, steps: seq<Step>): nat
    decreases |steps|
  {
    if steps == [] then 0
    else
      var n := |steps| - 1;
      Signalled(s, steps[..n]) + if steps[n] == Plus && Run(s, steps[..n]).callback == Idle then 1 else 0
  }

  /** The events that are acknowledged: receive calls on the socket, once accept has returned it. */
  function Acknowledged(s: State, steps: seq<Step>): nat
    decreases |steps|
  {
    if steps == [] then 0
    else
      var n := |steps| - 1;
      Acknowledged(s, steps[..n]) + if steps[n] == Minus && Run(s, steps[..n]).acceptor == Returned then 1 else 0
  }

  /** The events of callbacks that are over when the hand-over comes: those that it takes over. */
  function Early(s: State, steps: seq<Step>): int
    decreases |steps|
  {
    if steps == [] then 0
    else
      var n := |steps| - 1;
      if steps[n].HandOver? && Run(s, steps[..n]).acceptor == Allocated then
        Signalled(s, steps[..n]) - InFlight(Run(s, steps[..n]))
      else Early(s, steps[..n])
  }

  /** Events that have come in and were not acknowledged. */
  function Outstanding(s: State, steps: seq<Step>): int {
    Signalled(s, steps) - Acknowledged(s, steps)
  }

  /** Events counted before there was a socket. */
  function Waiting(s: State): int {
    if s.socket < 0 then -1 - s.socket else 0
  }

  /** Callbacks that the replay loop still has to make. */
  function Owed(s: State): nat {
    if s.acceptor.Replaying? && s.acceptor.owed > 0 then s.acceptor.owed else 0
  }

  /** Events that event_callback has not recorded anywhere yet. */
  function InFlight(s: State): int {
    if s.callback == Idle then 0 else 1
  }

  /** Events in the socket, once it has been cleared for this connection. */
  function Counted(s: State): int {
    if s.acceptor == Fetched then 0 else s.rcvevent
  }

  /** The events that the hand-over takes over but does not replay. */
  function Dropped(early: int): int {
    early - (if S16(early) > 0 then S16(early) else 0)
  }

  predicate InS16(n: int) {
    -0x8000 <= n <= 0x7FFF
  }

  /** Where every event is, up to what the 16-bit counter has wrapped around, k times. */
  ghost predicate Counts(s: State, plus: nat, minus: nat, early: int, k: int) {
    && plus - minus == Waiting(s) + Counted(s) + Owed(s) + InFlight(s) + Dropped(early) + 0x1_0000 * k
    && (s.socket < 0 <==> s.acceptor == Fetched || s.acceptor == Allocated)
    && (s.acceptor == Allocated ==> s.rcvevent == 0)
    && (s.acceptor != Fetched ==> InS16(s.rcvevent))
    && (s.socket < 0 ==> early == 0 && minus == 0 && k == 0)
    && (s.callback == Count ==> s.socket >= 0)
  }

  ghost predicate RunIsCounted(s: State, steps: seq<Step>, k: int) {
    Counts(Run(s, steps), Signalled(s, steps), Acknowledged(s, steps), Early(s, steps), k)
  }

  /** The cast changes a number by a multiple of 65536, into 16 bits. */
  lemma S16Wraps(n: int) returns (j: int)
    ensures S16(n) == n - 0x1_0000 * j && InS16(S16(n))
    ensures InS16(n) ==> j == 0
  {
    j := (n + 0x8000) / 0x1_0000;
  }

  lemma StepCounts(s: State, plus: nat, minus: nat, early: int, step: Step, k: int) returns (k': int)
    requires Counts(s, plus, minus, early, k)
    ensures Counts(Next(s, step),
      plus + if step == Plus && s.callback == Idle then 1 else 0,
      minus + if step == Minus && s.acceptor == Returned then 1 else 0,
      if step.HandOver? && s.acceptor == Allocated then plus - InFlight(s) else early, k')
  {
    hide S16;
    k' := k;
    var zero := S16Wraps(0);
    var up := S16Wraps(s.rcvevent + 1);
    var down := S16Wraps(s.rcvevent - 1);
    var s' := Next(s, step);
    if s'.rcvevent != s.rcvevent && !step.Alloc? {
      k' := k + if step.Minus? then down else up;
    }
  }

  lemma {:induction false} RunCounts(stale: int, steps: seq<Step>) returns (k: int)
    ensures RunIsCounted(Start(stale), steps, k)
    decreases |steps|
  {
    hide Counts, Next;
    k := 0;
    var s := Start(stale);
    if steps == [] {
      assert Counts(s, 0, 0, 0, 0) by { StartCounts(stale); }
    } else {
      var n := |steps| - 1;
      k := RunCounts(stale, steps[..n]);
      k := StepCounts(Run(s, steps[..n]), Signalled(s, steps[..n]), Acknowledged(s, steps[..n]), Early(s, steps[..n]),
        steps[n], k);
    }
  }

  lemma StartCounts(stale: int)
    ensures Counts(Start(stale), 0, 0, 0, 0)
  {
    var zero := S16Wraps(0);
  }

  /** All events are where they belong. */
  predicate Conserved(s: State, outstanding: int) {
    Waiting(s) + Counted(s) + Owed(s) + InFlight(s) == outstanding
  }

  /** In every interleaving and at every moment, no event is lost or doubled exactly when the count that was
      handed over is not negative in 16 bits, and what the socket has to count fits in 16 bits. All numbers are
      those of the schedule. */
  lemma ConservedExactly(stale: int, steps: seq<Step>)
    ensures var s0 := Start(stale);
      var s, n := Run(s0, steps), Outstanding(s0, steps);
      Conserved(s, n) <==> S16(Early(s0, steps)) >= 0 && InS16(n - Waiting(s) - Owed(s) - InFlight(s))
  {
    hide Run, Next, S16, Signalled, Acknowledged, Early;
    var s := Run(Start(stale), steps);
    var zero := S16Wraps(0);
    var k := RunCounts(stale, steps);
    var j := S16Wraps(Early(Start(stale), steps));
  }

  /** When accept has returned and no callback is running, rcvevent is the number of outstanding events exactly
      when the count that was handed over is not negative in 16 bits, and that number fits in 16 bits. */
  lemma NoEventLost(stale: int, steps: seq<Step>)
    ensures var s0 := Start(stale);
      var s, n := Run(s0, steps), Outstanding(s0, steps);
      s.acceptor == Returned && s.callback == Idle ==>
        (s.rcvevent == n <==> S16(Early(s0, steps)) >= 0 && InS16(n))
  {
    hide Run, Next, S16, Signalled, Acknowledged, Early;
    var s := Run(Start(stale), steps);
    var zero := S16Wraps(0);
    var k := RunCounts(stale, steps);
    ConservedExactly(stale, steps);
  }

  /** Nobody waits for ever: two sections under the lock end any callback, so that TCP can signal the next event,
      and in between accept can take all its steps. */
  lemma StepsGoOn(stale: int, steps: seq<Step>)
    ensures var s0 := Start(stale);
      var s := Run(s0, steps);
      && Next(Next(s, Locked), Locked).callback == Idle
      && (s.callback == Idle ==> Next(s, Plus).callback != Idle)
      && (s.acceptor == Fetched ==> Next(s, Alloc).acceptor == Allocated)
      && (s.acceptor == Allocated ==> forall fd :: Next(s, HandOver(fd)).acceptor.Replaying? && Next(s, HandOver(fd)).socket == fd)
      && (s.acceptor.Replaying? ==> Owed(Next(s, Replay)) < Owed(s) || Next(s, Replay).acceptor == Returned)
  {
    hide Run, Signalled, Acknowledged, Early, S16;
    var k := RunCounts(stale, steps);
  }

  // ---- What the width of the counter costs ----

  /** n events that all come in before accept gets to the hand-over. */
  function Burst(n: nat): seq<Step> {
    if n == 0 then [] else Burst(n - 1) + [Plus, Locked]
  }

  function Replays(n: nat): seq<Step> {
    if n == 0 then [] else Replays(n - 1) + [Replay]
  }

  lemma OneStep(s: State, steps: seq<Step>, step: Step)
    ensures Run(s, steps + [step]) == Next(Run(s, steps), step)
    ensures Signalled(s, steps + [step]) ==
      Signalled(s, steps) + if step == Plus && Run(s, steps).callback == Idle then 1 else 0
    ensures Acknowledged(s, steps + [step]) ==
      Acknowledged(s, steps) + if step == Minus && Run(s, steps).acceptor == Returned then 1 else 0
  {
    hide Next;
    assert (steps + [step])[..|steps|] == steps;
  }

  lemma TwoSteps(s: State, steps: seq<Step>, x: Step, y: Step)
    ensures var s1 := Run(s, steps);
      && Run(s, steps + [x, y]) == Next(Next(s1, x), y)
      && (s1.callback == Idle && x == Plus && y == Locked ==> Signalled(s, steps + [x, y]) == Signalled(s, steps) + 1)
      && (x != Plus && y != Plus ==> Signalled(s, steps + [x, y]) == Signalled(s, steps))
      && (x != Minus && y != Minus ==> Acknowledged(s, steps + [x, y]) == Acknowledged(s, steps))
  {
    hide Next, Run, Signalled, Acknowledged;
    OneStep(s, steps, x);
    OneStep(s, steps + [x], y);
    assert steps + [x, y] == steps + [x] + [y];
  }

  lemma {:induction false} BurstCounts(stale: int, n: nat)
    ensures var s := Start(stale);
      && Run(s, Burst(n)) == s.(socket := -1 - n)
      && Signalled(s, Burst(n)) == n && Acknowledged(s, Burst(n)) == 0
  {
    if n > 0 {
      BurstCounts(stale, n - 1);
      TwoSteps(Start(stale), Burst(n - 1), Plus, Locked);
    }
  }

  /** The replay loop adds what it owes, up to the capacity of the counter. */
  lemma {:induction false} ReplaysCount(s: State, before: seq<Step>, n: nat, m: nat)
    requires m <= n && Run(s, before).acceptor == Replaying(n)
    requires 0 <= Run(s, before).rcvevent && Run(s, before).rcvevent + n <= 0x7FFF
    ensures var s1 := Run(s, before);
      && Run(s, before + Replays(m)) == s1.(acceptor := Replaying(n - m), rcvevent := s1.rcvevent + m)
      && Outstanding(s, before + Replays(m)) == Outstanding(s, before)
    decreases m
  {
    hide Run, Signalled, Acknowledged;
    if m == 0 {
      assert before + Replays(0) == before;
    } else {
      ReplaysCount(s, before, n, m - 1);
      OneStep(s, before + Replays(m - 1), Replay);
      assert before + Replays(m) == before + Replays(m - 1) + [Replay];
    }
  }

  /** n events before the hand-over, and then an undisturbed accept. */
  function LateAccept(n: nat, fd: nat): seq<Step> {
    Burst(n) + [Alloc, HandOver(fd)] + Replays(if S16(n) > 0 then S16(n) else 0) + [Replay]
  }

  /** In such a run the events all reach the socket exactly when there are at most 32767 of them: a run in
      which one more is lost. */
  lemma LateAcceptIsExact(stale: int, n: nat, fd: nat)
    ensures var s0 := Start(stale);
      var s := Run(s0, LateAccept(n, fd));
      && s.acceptor == Returned && s.socket == fd && Outstanding(s0, LateAccept(n, fd)) == n
      && (s.rcvevent == n <==> n <= 0x7FFF)
  {
    hide Run, Signalled, Acknowledged;
    var k := if S16(n) > 0 then S16(n) else 0;
    var s0, start := Start(stale), Burst(n) + [Alloc, HandOver(fd)];
    BurstCounts(stale, n);
    TwoSteps(s0, Burst(n), Alloc, HandOver(fd));
    assert Run(s0, start) == State(fd, 0, Replaying(S16(n)), Idle);
    if k > 0 {
      ReplaysCount(s0, start, k, k);
    } else {
      assert start + Replays(0) == start;
    }
    OneStep(s0, start + Replays(k), Replay);
  }
}
