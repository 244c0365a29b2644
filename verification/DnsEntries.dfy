/** The entries and requests of the DNS resolver as values: what a timer tick makes of an entry, how
    long an entry can wait, and what is kept when one entry changes. */
module DnsEntries {
  import opened Words
  import opened Types
  import opened CStrings
  import opened DnsPacket

  type Addr = u32

  const ANY: Addr := 0
  const NULL: nat := 0
  const DNS_MAX_TTL: u32 := 604800

  datatype State = Unused | New | Asking | Done

  /** struct dns_table_entry; `since` is no field of the source but the timer tick at which the entry
      was filled. */
  datatype Entry = Entry(state: State, name: seq<byte>, ttl: u32, addr: Addr, txid: u16, serverIdx: nat,
    tmr: nat, retries: nat, seqno: u8, since: nat)
  {
    predicate Pending() {
      state.New? || state.Asking?
    }
  }

  /** struct dns_req_entry; callbacks are numbers, NULL is none. `since` as above. */
  datatype Request = Request(found: nat, tableIdx: nat, since: nat) {
    function AsTicket(): Ticket {
      Ticket(found, since)
    }
  }

  /** A callback as it was registered. */
  datatype Ticket = Ticket(found: nat, since: nat)

  /** One invocation of a callback. */
  datatype Call = Call(ticket: Ticket, name: seq<byte>, result: Option<Addr>)

  // ---- Retrying ----

  /** dns_send finds the server gone, and gives the entry up, or sends. */
  function Asked(e: Entry, servers: seq<Addr>): Entry
    requires e.serverIdx < |servers|
  {
    if servers[e.serverIdx] == ANY then e.(state := Unused) else e
  }

  /** dns_backupserver_available */
  predicate Backup(e: Entry, servers: seq<Addr>) {
    e.serverIdx + 1 < |servers| && servers[e.serverIdx + 1] != ANY
  }

  /** What dns_check_entry makes of an entry that is being asked for. */
  function Retried(e: Entry, servers: seq<Addr>, R: nat): Entry
    requires e.serverIdx < |servers| && e.tmr > 0
  {
    if e.tmr > 1 then e.(tmr := e.tmr - 1)
    else if e.retries + 1 != R then Asked(e.(tmr := e.retries + 1, retries := e.retries + 1), servers)
    else if Backup(e, servers) then Asked(e.(serverIdx := e.serverIdx + 1, tmr := 1, retries := 0), servers)
    else e.(state := Unused, tmr := 0, retries := R)
  }

  predicate Checkable(e: Entry, S: nat) {
    e.state.Asking? ==> e.serverIdx < S && e.tmr > 0
  }

  /** What dns_check_entry makes of any entry; a new one gets the given identifier. */
  function Checked(e: Entry, id: u16, servers: seq<Addr>, R: nat): Entry
    requires |servers| > 0 && Checkable(e, |servers|)
  {
    match e.state
    case New => Asked(e.(txid := id, state := Asking, serverIdx := 0, tmr := 1, retries := 0), servers)
    case Asking => Retried(e, servers, R)
    case Done => if e.ttl <= 1 then e.(ttl := 0, state := Unused) else e.(ttl := e.ttl - 1)
    case Unused => e
  }

  /** Whether dns_check_entry comes to send a query. */
  predicate Sends(e: Entry, id: u16, servers: seq<Addr>, R: nat)
    requires |servers| > 0 && Checkable(e, |servers|)
  {
    (e.state.New? || (e.state.Asking? && e.tmr == 1)) && Checked(e, id, servers, R).state.Asking?
  }

  /** The address as it lies in memory. */
  function AddrOf(bs: Quad): Addr {
    Load32(bs[0], bs[1], bs[2], bs[3])
  }

  /** What dns_recv makes of an entry being asked for, after the verdict on a reply. */
  function AfterReply(e: Entry, v: Verdict, servers: seq<Addr>, R: nat): Entry
    requires e.state.Asking? && e.serverIdx < |servers| && R > 0
  {
    match v
    case Ignore => e
    case ServerError =>
      if Backup(e, servers) then Checked(e.(retries := R - 1, tmr := 1), 0, servers, R) else e.(state := Unused)
    case NoAnswer => e.(state := Unused)
    case Answer(a, ttl) => Answered(e.(addr := AddrOf(a)), ttl)
  }

  /** dns_correct_response */
  function Answered(e: Entry, ttl: u32): Entry {
    var kept := if ttl > DNS_MAX_TTL then DNS_MAX_TTL else ttl;
    e.(ttl := kept, state := if kept == 0 then Unused else Done)
  }

  /** The address lies in memory as it does in the packet, first byte first. */
  lemma AddressKept(a: Quad)
    ensures AddrOf(a) == a[0] as int + 0x100 * a[1] as int + 0x1_0000 * a[2] as int + 0x100_0000 * a[3] as int
  {
  }

  function ResultOf(v: Verdict): Option<Addr> {
    if v.Answer? then Some(AddrOf(v.addr)) else None
  }

  // ---- How long an entry can wait ----

  /** The ticks from the retry number r, once sent, to the last one. */
  function RetryTicks(r: nat, R: nat): nat
    decreases R - r
  {
    if r + 1 >= R then 0 else (r + 1) + RetryTicks(r + 1, R)
  }

  function PerServer(R: nat): nat {
    1 + RetryTicks(0, R)
  }

  function ServerTicks(servers: nat, R: nat): nat {
    servers * PerServer(R)
  }

  /** The ticks that an entry being asked for has left. */
  function Remaining(e: Entry, S: nat, R: nat): nat
    requires e.serverIdx < S
  {
    e.tmr + RetryTicks(e.retries, R) + ServerTicks(S - 1 - e.serverIdx, R)
  }

  lemma {:induction false} RetryTicksClosed(r: nat, R: nat)
    requires r < R
    ensures 2 * RetryTicks(r, R) == R * (R - 1) - r * (r + 1)
    decreases R - r
  {
    if r + 1 < R {
      RetryTicksClosed(r + 1, R);
    }
  }

  /** With R retries a server is given 1 + R(R-1)/2 ticks. */
  lemma PerServerClosed(R: nat)
    requires R > 0
    ensures PerServer(R) == 1 + R * (R - 1) / 2
  {
    RetryTicksClosed(0, R);
  }

  lemma NextServer(n: nat, R: nat)
    ensures ServerTicks(n + 1, R) == PerServer(R) + ServerTicks(n, R)
  {
  }

  /** Every tick costs an entry that goes on waiting exactly one of its ticks. */
  lemma TickSpends(e: Entry, id: u16, servers: seq<Addr>, R: nat)
    requires e.state.Asking? && e.serverIdx < |servers| && e.tmr > 0 && e.retries < R
    ensures var e' := Checked(e, id, servers, R);
      e'.state.Asking? ==>
        && e'.serverIdx < |servers| && e'.tmr > 0 && e'.retries < R
        && Remaining(e', |servers|, R) + 1 == Remaining(e, |servers|, R)
  {
    if e.tmr == 1 && e.retries + 1 == R && e.serverIdx + 1 < |servers| {
      NextServer(|servers| - 2 - e.serverIdx, R);
    }
  }

  /** An entry after some ticks without an answer. */
  function AfterTicks(e: Entry, n: nat, servers: seq<Addr>, R: nat): Entry
    requires e.state.Asking? ==> e.serverIdx < |servers| && e.tmr > 0 && e.retries < R
    requires |servers| > 0 && e.Pending()
    decreases n
  {
    if n == 0 || !e.state.Asking? then e
    else
      TickSpends(e, 0, servers, R);
      var e' := Checked(e, 0, servers, R);
      if e'.state.Asking? then AfterTicks(e', n - 1, servers, R) else e'
  }

  /** While all servers are set, an unanswered entry waits for exactly its remaining ticks. */
  lemma {:induction false} WaitsExactly(e: Entry, n: nat, servers: seq<Addr>, R: nat)
    requires e.state.Asking? && e.serverIdx < |servers| && e.tmr > 0 && e.retries < R
    requires forall s | 0 <= s < |servers| :: servers[s] != ANY
    ensures AfterTicks(e, n, servers, R).state.Asking? <==> n < Remaining(e, |servers|, R)
    decreases n
  {
    hide ServerTicks;
    if n > 0 {
      TickSpends(e, 0, servers, R);
      var e' := Checked(e, 0, servers, R);
      if e'.state.Asking? {
        WaitsExactly(e', n - 1, servers, R);
      } else {
        LastTick(e, servers, R);
      }
    }
  }

  lemma LastTick(e: Entry, servers: seq<Addr>, R: nat)
    requires e.state.Asking? && e.serverIdx < |servers| && e.tmr > 0 && e.retries < R
    requires forall s | 0 <= s < |servers| :: servers[s] != ANY
    requires !Checked(e, 0, servers, R).state.Asking?
    ensures Remaining(e, |servers|, R) == 1
  {
    assert e.serverIdx + 1 == |servers|;
  }

  /** Queries only go to servers that are set; where the one to ask is gone, the entry is given up. */
  lemma SendsSomewhere(e: Entry, id: u16, servers: seq<Addr>, R: nat)
    requires |servers| > 0 && Checkable(e, |servers|)
    ensures var e' := Checked(e, id, servers, R);
      && (Sends(e, id, servers, R) ==> e'.serverIdx < |servers| && servers[e'.serverIdx] != ANY)
      && (e.state.New? ==> e'.serverIdx == 0 && (e'.state.Asking? <==> servers[0] != ANY) && (e'.state.Asking? ==> e'.txid == id))
      && (e.state.Asking? && e.tmr == 1 && servers[e.serverIdx] == ANY && e.retries + 1 != R ==> e'.state.Unused?)
  {
  }

  // ---- How long an address is kept ----

  /** A completed or unused entry after some ticks. */
  function Aged(e: Entry, n: nat): (e': Entry)
    requires !e.Pending()
    ensures !e'.Pending()
  {
    if n == 0 then e else Checked(Aged(e, n - 1), 0, [ANY], 1)
  }

  /** A completed entry keeps its name and address for exactly its time to live, in ticks, and is unused afterwards. */
  lemma {:induction false} CachedExactly(e: Entry, n: nat)
    requires e.state.Done? && e.ttl > 0
    ensures var e' := Aged(e, n);
      && e'.name == e.name && e'.addr == e.addr
      && (e'.state.Done? <==> n < e.ttl) && e'.ttl == if n < e.ttl then e.ttl - n else 0
  {
    if n > 0 {
      CachedExactly(e, n - 1);
    }
  }

  lemma AgedOnce(e: Entry, n: nat, servers: seq<Addr>, R: nat)
    requires !e.Pending() && |servers| > 0
    ensures Checked(Aged(e, n), 0, servers, R) == Aged(e, n + 1)
  {
  }

  // ---- What every operation keeps ----

  /** An entry's fields are in range, and what it has waited and what it may still wait make up at
      most the ticks that all servers together are given. */
  predicate EntryOk(e: Entry, S: nat, R: nat, clock: nat) {
    && |e.name| <= 255 && 0 !in e.name
    && (e.state.New? ==> e.since == clock)
    && (e.state.Asking? ==>
          && e.serverIdx < S && e.retries < R && e.tmr > 0
          && e.since <= clock
          && Remaining(e, S, R) + (clock - e.since) <= ServerTicks(S, R))
  }

  ghost predicate EntriesOk(t: seq<Entry>, S: nat, R: nat, clock: nat) {
    forall k | 0 <= k < |t| :: EntryOk(t[k], S, R, clock)
  }

  /** Two entries that are both waiting can be told apart. */
  ghost predicate Apart(a: Entry, b: Entry) {
    && (a.state.Asking? && b.state.Asking? ==> a.txid != b.txid)
    && (a.Pending() && b.Pending() ==> !SameName(a.name, b.name))
  }

  ghost predicate AllApart(t: seq<Entry>) {
    forall j, k | 0 <= j < |t| && 0 <= k < |t| && j != k :: Apart(t[j], t[k])
  }

  /** Every callback that is registered belongs to an entry that is waiting, and not for longer than
      the entry. */
  ghost predicate RequestsOk(rs: seq<Request>, t: seq<Entry>) {
    forall r | 0 <= r < |rs| && rs[r].found != NULL :: RequestOk(rs[r], t)
  }

  predicate RequestOk(q: Request, t: seq<Entry>) {
    q.tableIdx < |t| && t[q.tableIdx].Pending() && t[q.tableIdx].since <= q.since
  }

  function One(found: nat, since: nat): multiset<Ticket> {
    if found == NULL then multiset{} else multiset{Ticket(found, since)}
  }

  /** The callbacks registered. */
  function Waiting(rs: seq<Request>): multiset<Ticket> {
    if rs == [] then multiset{} else Waiting(rs[..|rs| - 1]) + One(rs[|rs| - 1].found, rs[|rs| - 1].since)
  }

  /** The callbacks called. */
  function Called(calls: seq<Call>): multiset<Ticket> {
    if calls == [] then multiset{} else Called(calls[..|calls| - 1]) + multiset{calls[|calls| - 1].ticket}
  }

  // ---- Calling back ----

  predicate Concerns(q: Request, idx: nat) {
    q.found != NULL && q.tableIdx == idx
  }

  /** The requests after those of an entry have been called back. */
  function Released(rs: seq<Request>, idx: nat): (rs': seq<Request>)
    ensures |rs'| == |rs|
    ensures forall r | 0 <= r < |rs| :: rs'[r] == if Concerns(rs[r], idx) then rs[r].(found := NULL) else rs[r]
  {
    if rs == [] then []
    else
      var q := rs[|rs| - 1];
      Released(rs[..|rs| - 1], idx) + [if Concerns(q, idx) then q.(found := NULL) else q]
  }

  /** The calls that this makes. */
  function Notices(rs: seq<Request>, idx: nat, name: seq<byte>, result: Option<Addr>): seq<Call> {
    if rs == [] then []
    else
      var q := rs[|rs| - 1];
      Notices(rs[..|rs| - 1], idx, name, result) + if Concerns(q, idx) then [Call(q.AsTicket(), name, result)] else []
  }

  lemma WaitingLast(rs: seq<Request>)
    requires rs != []
    ensures Waiting(rs) == Waiting(rs[..|rs| - 1]) + One(rs[|rs| - 1].found, rs[|rs| - 1].since)
  {
  }

  lemma CalledOne(c: Call)
    ensures Called([c]) == multiset{c.ticket}
  {
    assert [c][..0] == [];
  }

  /** Calling back turns registered callbacks into called ones and loses none. */
  lemma {:induction false} CallingConserves(rs: seq<Request>, idx: nat, name: seq<byte>, result: Option<Addr>)
    ensures Waiting(rs) == Waiting(Released(rs, idx)) + Called(Notices(rs, idx, name, result))
  {
    hide Waiting, Called;
    if rs == [] {
      NothingWaits();
    } else {
      var init, q := rs[..|rs| - 1], rs[|rs| - 1];
      CallingConserves(init, idx, name, result);
      WaitingLast(rs);
      WaitingLast(Released(rs, idx));
      assert Released(rs, idx)[..|rs| - 1] == Released(init, idx);
      if Concerns(q, idx) {
        var c := Call(q.AsTicket(), name, result);
        CalledConcat(Notices(init, idx, name, result), [c]);
        CalledOne(c);
      } else {
        assert Notices(rs, idx, name, result) == Notices(init, idx, name, result);
      }
    }
  }

  lemma NothingWaits()
    ensures Waiting([]) == multiset{} && Called([]) == multiset{}
  {
  }

  lemma {:induction false} CalledConcat(a: seq<Call>, b: seq<Call>)
    ensures Called(a + b) == Called(a) + Called(b)
  {
    if b == [] {
      assert a + b == a;
    } else {
      assert (a + b)[..|a + b| - 1] == a + b[..|b| - 1];
      CalledConcat(a, b[..|b| - 1]);
    }
  }

  lemma {:induction false} WaitingUpdate(rs: seq<Request>, r: nat, q: Request)
    requires r < |rs|
    ensures Waiting(rs[r := q]) + One(rs[r].found, rs[r].since) == Waiting(rs) + One(q.found, q.since)
  {
    hide Waiting, One;
    var n := |rs| - 1;
    var init, rs' := rs[..n], rs[r := q];
    WaitingLast(rs);
    WaitingLast(rs');
    if r == n {
      assert rs'[..n] == init;
    } else {
      assert rs'[..n] == init[r := q];
      WaitingUpdate(init, r, q);
      Shuffle(Waiting(rs'[..n]), Waiting(init), One(rs[r].found, rs[r].since), One(q.found, q.since), One(rs[n].found, rs[n].since));
    }
  }

  lemma Shuffle(a: multiset<Ticket>, b: multiset<Ticket>, x: multiset<Ticket>, y: multiset<Ticket>, z: multiset<Ticket>)
    requires a + x == b + y
    ensures (a + z) + x == (b + z) + y
  {
    assert (a + z) + x == (a + x) + z;
    assert (b + z) + y == (b + y) + z;
  }

  /** What waits is registered. */
  lemma {:induction false} WaitingHas(rs: seq<Request>, ticket: Ticket) returns (r: nat)
    requires Waiting(rs)[ticket] > 0
    ensures r < |rs| && rs[r].found != NULL && rs[r].AsTicket() == ticket
  {
    var n := |rs| - 1;
    if One(rs[n].found, rs[n].since)[ticket] > 0 {
      r := n;
    } else {
      r := WaitingHas(rs[..n], ticket);
    }
  }

  /** Each callback of an entry is called, with the entry's result. */
  lemma {:induction false} NoticeOfEach(rs: seq<Request>, r: nat, idx: nat, name: seq<byte>, result: Option<Addr>)
    requires r < |rs| && Concerns(rs[r], idx)
    ensures Call(rs[r].AsTicket(), name, result) in Notices(rs, idx, name, result)
  {
    if r < |rs| - 1 {
      NoticeOfEach(rs[..|rs| - 1], r, idx, name, result);
    }
  }

  // ---- One entry changes ----

  /** When an entry stops waiting its callbacks are called, and only then. */
  ghost predicate Reported(rs: seq<Request>, calls: seq<Call>, rs': seq<Request>, calls': seq<Call>, e: Entry,
      e': Entry, idx: nat, result: Option<Addr>)
  {
    if e.Pending() && !e'.Pending() then
      rs' == Released(rs, idx) && calls' == calls + Notices(rs, idx, e.name, result)
    else
      rs' == rs && calls' == calls
  }

  ghost predicate Balanced(accepted: multiset<Ticket>, rs: seq<Request>, calls: seq<Call>) {
    accepted == Waiting(rs) + Called(calls)
  }

  /** A checked entry is in order, now and when the tick is over. */
  lemma CheckedOk(e: Entry, id: u16, servers: seq<Addr>, R: nat, clock: nat)
    requires |servers| > 0 && R > 0 && EntryOk(e, |servers|, R, clock)
    ensures var e' := Checked(e, id, servers, R);
      && !e'.state.New? && EntryOk(e', |servers|, R, clock)
      && (e.state.Asking? ==> EntryOk(e', |servers|, R, clock + 1))
      && (!e.Pending() ==> EntryOk(e', |servers|, R, clock + 1))
      && e'.name == e.name
      && (e'.Pending() ==> e.Pending() && e'.since == e.since)
      && (e'.state.Asking? && e.state.Asking? ==> e'.txid == e.txid)
      && (e'.state.Asking? && e.state.New? ==> e'.txid == id)
  {
    if e.state.Asking? {
      hide ServerTicks, RetryTicks;
      TickSpends(e, id, servers, R);
    }
    if e.state.New? {
      NextServer(|servers| - 1, R);
    }
  }

  /** Making a server error look like a last retry keeps an entry in order. */
  lemma LastRetryOk(e: Entry, S: nat, R: nat, clock: nat)
    requires R > 0 && e.state.Asking? && EntryOk(e, S, R, clock)
    ensures EntryOk(e.(retries := R - 1, tmr := 1), S, R, clock)
  {
    hide ServerTicks;
    assert RetryTicks(R - 1, R) == 0;
  }

  /** A reply leaves an entry in order; it keeps waiting only under its own name and identifier. */
  lemma AfterReplyOk(e: Entry, v: Verdict, servers: seq<Addr>, R: nat, clock: nat)
    requires |servers| > 0 && R > 0 && e.state.Asking? && EntryOk(e, |servers|, R, clock)
    ensures var e' := AfterReply(e, v, servers, R);
      && !e'.state.New? && EntryOk(e', |servers|, R, clock)
      && e'.name == e.name
      && (e'.Pending() ==> e'.since == e.since && e'.txid == e.txid)
  {
    hide Remaining, ServerTicks, Checked;
    if v.ServerError? && Backup(e, servers) {
      LastRetryOk(e, |servers|, R, clock);
      CheckedOk(e.(retries := R - 1, tmr := 1), 0, servers, R, clock);
    }
  }

  /** A server error moves the entry on to the next server at once, and costs it time. */
  lemma ErrorChangesServer(e: Entry, servers: seq<Addr>, R: nat)
    requires e.state.Asking? && e.serverIdx < |servers| && e.tmr > 0 && 0 < R && e.retries < R
    requires Backup(e, servers)
    ensures var e' := AfterReply(e, ServerError, servers, R);
      && e'.state.Asking? && e'.serverIdx == e.serverIdx + 1
      && Remaining(e', |servers|, R) < Remaining(e, |servers|, R)
  {
    NextServer(|servers| - 2 - e.serverIdx, R);
  }

  // ---- The sweep of a timer tick ----

  /** The requests of the first n entries are released exactly when their entry has stopped waiting. */
  ghost predicate Swept(rs: seq<Request>, rs': seq<Request>, t': seq<Entry>, n: nat)
    requires n <= |t'|
  {
    && |rs'| == |rs|
    && forall r | 0 <= r < |rs| :: rs'[r] == if Over(rs[r], t', n) then rs[r].(found := NULL) else rs[r]
  }

  predicate Over(q: Request, t': seq<Entry>, n: nat)
    requires n <= |t'|
  {
    q.found != NULL && q.tableIdx < n && !t'[q.tableIdx].Pending()
  }

  /** Their callbacks have been told about the failure. */
  ghost predicate Told(rs: seq<Request>, calls': seq<Call>, t': seq<Entry>, n: nat)
    requires n <= |t'|
  {
    forall r | 0 <= r < |rs| && Over(rs[r], t', n) :: Call(rs[r].AsTicket(), t'[rs[r].tableIdx].name, None) in calls'
  }

  lemma SweepOne(rs: seq<Request>, t: seq<Entry>, i: nat, e': Entry, mid: seq<Request>, mids: seq<Call>,
      rs': seq<Request>, calls': seq<Call>)
    requires i < |t| && Swept(rs, mid, t, i) && Told(rs, mids, t, i)
    requires RequestsOk(mid, t)
    requires Reported(mid, mids, rs', calls', t[i], e', i, None) && e'.name == t[i].name
    requires !t[i].Pending() ==> !e'.Pending()
    ensures Swept(rs, rs', t[i := e'], i + 1) && Told(rs, calls', t[i := e'], i + 1)
  {
    hide Notices;
    forall r | 0 <= r < |rs| && rs[r].found != NULL && rs[r].tableIdx == i
      ensures mid[r] == rs[r] && t[i].Pending()
      ensures !e'.Pending() ==> Call(rs[r].AsTicket(), e'.name, None) in calls'
    {
      assert RequestOk(mid[r], t);
      if !e'.Pending() {
        NoticeOfEach(mid, r, i, e'.name, None);
      }
    }
    var t' := t[i := e'];
    forall r | 0 <= r < |rs| ensures Over(rs[r], t', i) == Over(rs[r], t, i) {
    }
  }

  // ---- A new request ----

  /** How many requests an entry is behind the newest, in 8 bits. */
  function Age(e: Entry, seqno: u8): u8 {
    if seqno >= e.seqno then seqno - e.seqno else seqno + 0x100 - e.seqno
  }

  /** dns_seqno++, n times. */
  function Advanced(seqno: u8, n: nat): u8 {
    if n == 0 then seqno else Following(Advanced(seqno, n - 1))
  }

  /** dns_seqno++ */
  function Following(seqno: u8): u8 {
    if seqno == 0xFF then 0 else seqno + 1
  }

  lemma {:induction false} AdvancedIs(seqno: u8, n: nat)
    requires n <= 0xFF
    ensures Advanced(seqno, n) == if seqno + n <= 0xFF then seqno + n else seqno + n - 0x100
  {
    if n > 0 {
      AdvancedIs(seqno, n - 1);
    }
  }

  /** The age of an entry is how many requests have filled entries since it was filled itself, up to 255; so the oldest
      entry is the one to fill. A new entry has the name, number and time of its request. */
  lemma AgeCounts(e: Entry, name: seq<byte>, seqno: u8, clock: nat, n: nat)
    requires n <= 0xFF
    ensures var e' := NewEntry(e, name, seqno, clock);
      && e'.state.New? && e'.name == name && e'.since == clock && e'.addr == e.addr
      && Age(e', Advanced(seqno, n)) == n
  {
    AdvancedIs(seqno, n);
  }

  predicate Usable(e: Entry, seqno: u8) {
    e.state.Unused? || (e.state.Done? && Age(e, seqno) > 0)
  }

  /** The entry to fill: an unused one, or the oldest completed one if none is unused. */
  ghost predicate Best(t: seq<Entry>, i: nat, seqno: u8) {
    && i < |t| && Usable(t[i], seqno)
    && (t[i].state.Done? ==>
          && (forall k | 0 <= k < |t| :: !t[k].state.Unused?)
          && (forall k | 0 <= k < |t| && t[k].state.Done? :: Age(t[k], seqno) <= Age(t[i], seqno)))
  }

  ghost predicate IsAsked(t: seq<Entry>, name: seq<byte>) {
    exists k :: 0 <= k < |t| && t[k].state.Asking? && SameName(name, t[k].name)
  }

  predicate Full(rs: seq<Request>) {
    forall r | 0 <= r < |rs| :: rs[r].found != NULL
  }

  function NewEntry(e: Entry, name: seq<byte>, seqno: u8, clock: nat): Entry {
    e.(state := New, seqno := seqno, name := name, since := clock)
  }

  lemma JoinRequest(t: seq<Entry>, rs: seq<Request>, calls: seq<Call>, accepted: multiset<Ticket>, r: nat, q: Request)
    requires r < |rs| && rs[r].found == NULL
    requires RequestsOk(rs, t) && Balanced(accepted, rs, calls) && RequestOk(q, t)
    ensures RequestsOk(rs[r := q], t) && Balanced(accepted + One(q.found, q.since), rs[r := q], calls)
  {
    hide Waiting, Called;
    WaitingUpdate(rs, r, q);
    assert Waiting(rs[r := q]) + One(NULL, rs[r].since) == Waiting(rs[r := q]);
    assert Waiting(rs) + One(q.found, q.since) + Called(calls) == Waiting(rs) + Called(calls) + One(q.found, q.since);
  }

  lemma AddEntry(t: seq<Entry>, rs: seq<Request>, i: nat, e: Entry)
    requires i < |t| && !t[i].Pending() && e.state.New?
    requires AllApart(t) && RequestsOk(rs, t)
    requires forall k | 0 <= k < |t| && t[k].Pending() :: !SameName(e.name, t[k].name)
    ensures AllApart(t[i := e]) && RequestsOk(rs, t[i := e])
  {
    hide SameName;
    forall k | 0 <= k < |t| && k != i ensures Apart(e, t[k]) && Apart(t[k], e) {
      SameNameBack(e.name, t[k].name);
    }
    forall r | 0 <= r < |rs| && rs[r].found != NULL ensures RequestOk(rs[r], t[i := e]) {
      assert RequestOk(rs[r], t);
    }
  }

  lemma SameNameBack(a: seq<byte>, b: seq<byte>)
    ensures SameName(a, b) <==> SameName(b, a)
  {
  }

  lemma ReportedBalanced(accepted: multiset<Ticket>, rs: seq<Request>, calls: seq<Call>, rs': seq<Request>,
      calls': seq<Call>, e: Entry, e': Entry, idx: nat, result: Option<Addr>)
    requires Balanced(accepted, rs, calls) && Reported(rs, calls, rs', calls', e, e', idx, result)
    ensures Balanced(accepted, rs', calls')
  {
    hide Waiting, Called, Released, Notices;
    CallingConserves(rs, idx, e.name, result);
    CalledConcat(calls, Notices(rs, idx, e.name, result));
  }

  lemma ReportedRequests(t: seq<Entry>, rs: seq<Request>, calls: seq<Call>, rs': seq<Request>, calls': seq<Call>,
      e': Entry, idx: nat, result: Option<Addr>)
    requires idx < |t| && RequestsOk(rs, t) && Reported(rs, calls, rs', calls', t[idx], e', idx, result)
    requires e'.Pending() && t[idx].Pending() ==> e'.since == t[idx].since
    ensures RequestsOk(rs', t[idx := e'])
  {
    hide Notices;
    forall r | 0 <= r < |rs'| && rs'[r].found != NULL ensures RequestOk(rs'[r], t[idx := e']) {
      assert RequestOk(rs[r], t);
    }
  }

  lemma EntriesUpdate(t: seq<Entry>, i: nat, e: Entry, S: nat, R: nat, clock: nat)
    requires i < |t| && EntriesOk(t, S, R, clock) && EntryOk(e, S, R, clock)
    ensures EntriesOk(t[i := e], S, R, clock)
  {
    hide EntryOk;
  }

  /** An entry may stop waiting, or go on under the same name and either the same identifier or one
      that no other waiting entry has. */
  lemma ApartUpdate(t: seq<Entry>, i: nat, e: Entry)
    requires i < |t| && AllApart(t)
    requires e.Pending() ==> t[i].Pending() && e.name == t[i].name
    requires e.state.Asking? ==> (t[i].state.Asking? && e.txid == t[i].txid) || e.txid !in AskingIds(t)
    ensures AllApart(t[i := e])
  {
    hide SameName;
    forall k | 0 <= k < |t| && k != i ensures Apart(e, t[k]) && Apart(t[k], e) {
      assert Apart(t[i], t[k]) && Apart(t[k], t[i]);
      assert t[k].state.Asking? ==> t[k].txid in AskingIds(t);
    }
  }

  // ---- Identifiers ----

  ghost function AskingIds(t: seq<Entry>): set<u16> {
    set k | 0 <= k < |t| && t[k].state.Asking? :: t[k].txid
  }

  lemma {:induction false} FewIds(t: seq<Entry>)
    ensures |AskingIds(t)| <= |t|
  {
    if t != [] {
      var init, e := t[..|t| - 1], t[|t| - 1];
      FewIds(init);
      var bound := AskingIds(init) + {e.txid};
      assert AskingIds(t) <= bound;
      Within(AskingIds(t), bound);
    }
  }

  /** An entry that is not asked for leaves fewer. */
  lemma FewerIds(t: seq<Entry>, i: nat)
    requires i < |t| && !t[i].state.Asking?
    ensures |AskingIds(t)| < |t|
  {
    var others := t[..i] + t[i + 1..];
    FewIds(others);
    forall id | id in AskingIds(t) ensures id in AskingIds(others) {
      var k :| 0 <= k < |t| && t[k].state.Asking? && t[k].txid == id;
      assert others[if k < i then k else k - 1] == t[k];
    }
    Within(AskingIds(t), AskingIds(others));
  }

  lemma {:induction false} Within<T>(a: set<T>, b: set<T>)
    requires a <= b
    ensures |a| <= |b|
    decreases |a|
  {
    if a != {} {
      var x :| x in a;
      Within(a - {x}, b - {x});
    }
  }

  /** A 16-bit counter, n steps on. */
  function Plus(start: u16, n: nat): u16
    requires n <= 0x1_0000
  {
    if start + n < 0x1_0000 then start + n else start + n - 0x1_0000
  }

  /** The n values that the counter takes after `start`. */
  function Drawn(start: u16, n: nat): set<u16>
    requires n <= 0x1_0000
  {
    if n == 0 then {} else Drawn(start, n - 1) + {Plus(start, n)}
  }

  /** The n-th value that the counter takes is the first one that no waiting entry has. */
  ghost predicate FreeAt(start: u16, t: seq<Entry>, id: u16, n: nat) {
    0 < n <= 0x1_0000 && id == Plus(start, n) && id !in AskingIds(t) && Drawn(start, n - 1) <= AskingIds(t)
  }

  /** The identifier that an entry gets in a table with an entry that is not asked for. */
  ghost predicate FirstFree(start: u16, t: seq<Entry>, id: u16) {
    exists n: nat :: n <= |t| && FreeAt(start, t, id, n)
  }

  /** An entry that is not asked for has no identifier. */
  lemma SameFree(start: u16, t: seq<Entry>, i: nat, e: Entry, id: u16)
    requires i < |t| && !t[i].state.Asking? && !e.state.Asking? && FirstFree(start, t[i := e], id)
    ensures FirstFree(start, t, id)
  {
    var t' := t[i := e];
    forall x ensures x in AskingIds(t) <==> x in AskingIds(t') {
      if x in AskingIds(t) {
        var k :| 0 <= k < |t| && t[k].state.Asking? && t[k].txid == x;
        assert t'[k] == t[k];
      }
      if x in AskingIds(t') {
        var k :| 0 <= k < |t| && t'[k].state.Asking? && t'[k].txid == x;
        assert t'[k] == t[k];
      }
    }
    assert AskingIds(t) == AskingIds(t');
    var n: nat :| n <= |t'| && FreeAt(start, t', id, n);
    assert FreeAt(start, t, id, n);
  }

  function Ahead(start: u16, x: u16): nat {
    if x > start then x - start else x + 0x1_0000 - start
  }

  lemma {:induction false} DrawnDiffer(start: u16, n: nat)
    requires n <= 0x1_0000
    ensures |Drawn(start, n)| == n
    ensures forall x | x in Drawn(start, n) :: Ahead(start, x) <= n
  {
    if n > 0 {
      DrawnDiffer(start, n - 1);
      assert Ahead(start, Plus(start, n)) == n;
    }
  }
}
