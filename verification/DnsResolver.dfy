/** The DNS resolver: its table of entries, its requests and its servers, changed in place by host name
    requests, by the timer, by replies and by changes of the servers. */
module DnsResolver {
  import opened Words
  import opened Types
  import opened CStrings
  import opened DnsName
  import opened DnsPacket
  import opened DnsEntries

  /** A packet handed to udp_sendto. */
  datatype Sent = Sent(server: Addr, packet: seq<byte>)

  /** The query for an entry to its server, if one goes out. */
  function QueryIf(goes: bool, e: Entry, servers: seq<Addr>): (q: seq<Sent>)
    ensures !goes ==> q == []
  {
    if goes && e.serverIdx < |servers| && |e.name| <= 255 then
      [Sent(servers[e.serverIdx], QueryPacket(e.txid, e.name))]
    else []
  }

  /** The queries of a timer tick, for the first n entries. */
  function TickQueries(t: seq<Entry>, alloc: nat -> bool, servers: seq<Addr>, R: nat, n: nat): seq<Sent>
    requires n <= |t| && |servers| > 0 && forall k | 0 <= k < |t| :: Checkable(t[k], |servers|)
  {
    if n == 0 then []
    else
      var goes := alloc(n - 1) && Sends(t[n - 1], 0, servers, R);
      TickQueries(t, alloc, servers, R, n - 1) + QueryIf(goes, Checked(t[n - 1], 0, servers, R), servers)
  }

  /** The resolver as a value. */
  datatype View = View(table: seq<Entry>, requests: seq<Request>, servers: seq<Addr>, seqno: u8, txid: u16, clock: nat,
    accepted: multiset<Ticket>, calls: seq<Call>, sent: seq<Sent>)

  ghost predicate NoneNew(t: seq<Entry>) {
    forall k | 0 <= k < |t| :: !t[k].state.New?
  }

  class Resolver {
    const table: array<Entry>
    const requests: array<Request>
    const servers: array<Addr>
    const maxRetries: nat
    var seqno: u8
    var txid: u16

    /** Bookkeeping of the model: timer ticks so far, the callbacks of all requests that were accepted,
        the callbacks called, and the packets sent. */
    var clock: nat
    ghost var accepted: multiset<Ticket>
    ghost var calls: seq<Call>
    ghost var sent: seq<Sent>

    ghost function Now(): View
      reads this, table, requests, servers
    {
      View(table[..], requests[..], servers[..], seqno, txid, clock, accepted, calls, sent)
    }

    predicate Shape() {
      && 0 < table.Length <= 255 && 0 < requests.Length <= 255 && 0 < servers.Length <= 255
      && 0 < maxRetries <= 255
    }

    ghost predicate Valid()
      reads this, table, requests, servers
    {
      && Shape()
      && EntriesOk(table[..], servers.Length, maxRetries, clock)
      && AllApart(table[..])
      && RequestsOk(requests[..], table[..])
      && Balanced(accepted, requests[..], calls)
    }

    constructor (tableSize: nat, maxRequests: nat, maxServers: nat, retries: nat)
      requires 0 < tableSize <= 255 && 0 < maxRequests <= 255 && 0 < maxServers <= 255 && 0 < retries <= 255
      ensures Valid() && NoneNew(table[..]) && fresh(table) && fresh(requests) && fresh(servers)
      ensures table.Length == tableSize && requests.Length == maxRequests && servers.Length == maxServers
      ensures maxRetries == retries && clock == 0 && accepted == multiset{} && calls == [] && sent == []
    {
      table := new Entry[tableSize](_ => Entry(Unused, [], 0, ANY, 0, 0, 0, 0, 0, 0));
      requests := new Request[maxRequests](_ => Request(NULL, 0, 0));
      servers := new Addr[maxServers](_ => ANY);
      maxRetries := retries;
      seqno, txid, clock := 0, 0, 0;
      accepted, calls, sent := multiset{}, [], [];
      new;
      NoneWaiting(requests[..]);
    }

    /** dns_call_found */
    method CallFound(idx: nat, result: Option<Addr>)
      requires idx < table.Length
      modifies requests, this`calls
      ensures requests[..] == Released(old(requests[..]), idx)
      ensures calls == old(calls) + Notices(old(requests[..]), idx, table[idx].name, result)
    {
      hide Released, Notices;
      ghost var rs, name := requests[..], table[idx].name;
      NoneReleased(idx, name, result);
      assert rs[..0] == [];
      for i := 0 to requests.Length
        invariant forall k | i <= k < requests.Length :: requests[k] == rs[k]
        invariant requests[..i] == Released(rs[..i], idx)
        invariant calls == old(calls) + Notices(rs[..i], idx, name, result)
      {
        OneMore(rs, i, idx, name, result);
        if requests[i].found != NULL && requests[i].tableIdx == idx {
          calls := calls + [Call(requests[i].AsTicket(), table[idx].name, result)];
          requests[i] := requests[i].(found := NULL);
        }
        assert requests[..i + 1] == requests[..i] + [requests[i]];
      }
      assert rs[..requests.Length] == rs && requests[..requests.Length] == requests[..];
    }

    /** dns_send; `alloc` tells whether there is memory for the packet. */
    method DnsSend(idx: nat, alloc: bool) returns (err: Err)
      requires Shape() && idx < table.Length && table[idx].state.Asking?
      requires table[idx].serverIdx < servers.Length && |table[idx].name| <= 255
      modifies table, requests, this`calls, this`sent
      ensures table[..] == old(table[..])[idx := Asked(old(table[idx]), servers[..])]
      ensures Reported(old(requests[..]), old(calls), requests[..], calls, old(table[idx]), table[idx], idx, None)
      ensures sent == old(sent) + QueryIf(table[idx].state.Asking? && alloc, table[idx], servers[..])
      ensures if alloc && servers[old(table[idx]).serverIdx] != ANY then
          sent == old(sent) + [Sent(servers[old(table[idx]).serverIdx], QueryPacket(old(table[idx]).txid, old(table[idx]).name))]
        else sent == old(sent)
    {
      hide QueryPacket, Released, Notices;
      var entry := table[idx];
      if servers[entry.serverIdx] == ANY {
        CallFound(idx, None);
        table[idx] := table[idx].(state := Unused);
        return OK;
      }
      if alloc {
        var p := BuildQuery(entry.txid, entry.name);
        sent := sent + [Sent(servers[entry.serverIdx], p[..])];
        err := OK;
      } else {
        err := MEM;
      }
    }

    /** dns_create_txid: an identifier that no waiting entry has, within as many draws of the counter
        as there are entries waiting, and one; for a new entry, as many as there are entries. */
    method CreateTxid() returns (id: u16, draws: nat)
      requires Shape()
      modifies this`txid
      ensures id == txid && id !in AskingIds(table[..])
      ensures 0 < draws <= |AskingIds(table[..])| + 1 <= table.Length + 1
      ensures id == Plus(old(txid), draws)
      ensures FreeAt(old(txid), table[..], id, draws)
      ensures (exists k :: 0 <= k < table.Length && table[k].state.New?) ==> draws <= table.Length
    {
      hide AskingIds, Drawn;
      ghost var start, t := txid, table[..];
      var again := true;
      id, draws := 0, 0;
      FewIds(t);
      forall k | 0 <= k < table.Length && table[k].state.New? ensures |AskingIds(t)| < |t| {
        FewerIds(t, k);
      }
      NoneDrawn(start);
      while again
        invariant draws <= |AskingIds(t)| + 1
        invariant again ==> Drawn(start, draws) <= AskingIds(t) && draws <= |AskingIds(t)|
        invariant txid == Plus(start, draws)
        invariant !again ==> draws > 0 && id == txid && id !in AskingIds(t) && Drawn(start, draws - 1) <= AskingIds(t)
        decreases again, |AskingIds(t)| + 1 - draws
      {
        txid := if txid == 0xFFFF then 0 else txid + 1;
        id := txid;
        draws := draws + 1;
        again := false;
        for i := 0 to table.Length
          invariant forall k | 0 <= k < i :: !(t[k].state.Asking? && t[k].txid == id)
          invariant !again
        {
          if table[i].state.Asking? && table[i].txid == id {
            again := true;
            UsedId(t, i);
            break;
          }
        }
        if again {
          DrawOne(start, draws);
          DrawnDiffer(start, draws);
          Within(Drawn(start, draws), AskingIds(t));
        } else {
          UnusedId(t, id);
        }
      }
    }

    /** The part of dns_check_entry for an entry that is being asked for. */
    method RetryEntry(i: nat, alloc: bool)
      requires Shape() && i < table.Length && table[i].state.Asking?
      requires table[i].serverIdx < servers.Length && table[i].tmr > 0 && |table[i].name| <= 255
      modifies table, requests, this`calls, this`sent
      ensures table[..] == old(table[..])[i := Retried(old(table[i]), servers[..], maxRetries)]
      ensures Reported(old(requests[..]), old(calls), requests[..], calls, old(table[i]), table[i], i, None)
      ensures sent == old(sent) + QueryIf(alloc && old(table[i]).tmr == 1 && table[i].state.Asking?, table[i], servers[..])
    {
      hide Released, Notices, QueryIf, QueryPacket;
      var entry := table[i];
      table[i] := entry.(tmr := entry.tmr - 1);
      if table[i].tmr == 0 {
        table[i] := table[i].(retries := table[i].retries + 1);
        if table[i].retries == maxRetries {
          var backup := DnsBackupserverAvailable(i);
          if backup {
            table[i] := table[i].(serverIdx := table[i].serverIdx + 1, tmr := 1, retries := 0);
            var _ := DnsSend(i, alloc);
          } else {
            CallFound(i, None);
            table[i] := table[i].(state := Unused);
          }
        } else {
          table[i] := table[i].(tmr := table[i].retries);
          var _ := DnsSend(i, alloc);
        }
      }
    }

    /** dns_check_entry */
    method DnsCheckEntry(i: nat, alloc: bool)
      requires Valid() && i < table.Length
      modifies table, requests, this`calls, this`sent, this`txid
      ensures Valid()
      ensures table[..] == old(table[..])[i := Checked(old(table[i]), txid, servers[..], maxRetries)]
      ensures Reported(old(requests[..]), old(calls), requests[..], calls, old(table[i]), table[i], i, None)
      ensures sent == old(sent) +
        QueryIf(alloc && Sends(old(table[i]), txid, servers[..], maxRetries), table[i], servers[..])
      ensures if old(table[i]).state.New? then FirstFree(old(txid), old(table[..]), txid) else txid == old(txid)
    {
      hide Released, Notices, AskingIds, Remaining, Waiting, Called, QueryIf, AllApart, RequestsOk, SameName;
      hide ServerTicks, QueryPacket, EntriesOk, Balanced, Retried, Asked, FreeAt;
      ghost var t, rs, e := table[..], requests[..], table[i];
      ghost var calls0 := calls;
      OkAt(t, i, servers.Length, maxRetries, clock);
      var entry := table[i];
      if entry.state.New? {
        var id, draws := CreateTxid();
        assert FirstFree(old(txid), t, id);
        table[i] := entry.(txid := id, state := Asking, serverIdx := 0, tmr := 1, retries := 0);
        var _ := DnsSend(i, alloc);
      } else if entry.state.Asking? {
        RetryEntry(i, alloc);
      } else if entry.state.Done? {
        if entry.ttl != 0 {
          table[i] := entry.(ttl := entry.ttl - 1);
        }
        if table[i].ttl == 0 {
          table[i] := table[i].(state := Unused);
        }
      }
      assert table[..] == t[i := Checked(e, txid, servers[..], maxRetries)];
      hide Checked, Reported, EntryOk;
      CheckedOk(e, txid, servers[..], maxRetries, clock);
      ChangeKeeps(t, rs, calls0, i, table[i], requests[..], None);
    }

    /** dns_check_entries, from dns_tmr: every entry is checked once, and all callbacks of an entry that
        gives up are told. */
    method DnsTmr(alloc: nat -> bool)
      requires Valid() && NoneNew(table[..])
      modifies table, requests, this`calls, this`sent, this`txid, this`clock
      ensures Valid() && NoneNew(table[..])
      ensures clock == old(clock) + 1 && txid == old(txid)
      ensures forall k | 0 <= k < table.Length :: table[k] == Checked(old(table[k]), 0, servers[..], maxRetries)
      ensures Swept(old(requests[..]), requests[..], table[..], table.Length)
      ensures Told(old(requests[..]), calls, table[..], table.Length)
      ensures old(calls) <= calls
      ensures Shape() && (forall k | 0 <= k < table.Length :: Checkable(old(table[k]), servers.Length))
      ensures sent == old(sent) + TickQueries(old(table[..]), alloc, servers[..], maxRetries, table.Length)
    {
      hide Checked, Swept, Told, Reported, EntryOk, AllApart, RequestsOk, Balanced, QueryIf, Sends, SameName;
      ghost var t, rs := table[..], requests[..];
      AllCheckable(t, servers.Length, maxRetries, clock);
      SweepNone(rs, calls, t);
      var i := 0;
      while i < table.Length
        invariant i <= table.Length
        invariant Valid() && clock == old(clock) && txid == old(txid)
        invariant forall k | 0 <= k < i :: table[k] == Checked(t[k], 0, servers[..], maxRetries)
        invariant forall k | i <= k < table.Length :: table[k] == t[k]
        invariant Swept(rs, requests[..], table[..], i) && Told(rs, calls, table[..], i)
        invariant old(calls) <= calls
        invariant sent == old(sent) + TickQueries(t, alloc, servers[..], maxRetries, i)
      {
        ghost var mid, mids, now := requests[..], calls, table[..];
        OkAt(t, i, servers.Length, maxRetries, clock);
        CheckedOk(t[i], 0, servers[..], maxRetries, clock);
        IdUnused(t[i], txid, servers[..], maxRetries);
        SendsSame(t[i], txid, servers[..], maxRetries);
        DnsCheckEntry(i, alloc(i));
        SweepOne(rs, now, i, table[i], mid, mids, requests[..], calls);
        ReportedGrows(mid, mids, requests[..], calls, now[i], table[i], i, None);
        i := i + 1;
      }
      forall k | 0 <= k < table.Length
        ensures !table[k].state.New? && EntryOk(table[k], servers.Length, maxRetries, clock + 1)
      {
        OkAt(t, k, servers.Length, maxRetries, clock);
        CheckedOk(t[k], 0, servers[..], maxRetries, clock);
      }
      clock := clock + 1;
    }

    /** dns_correct_response */
    method DnsCorrectResponse(idx: nat, ttl: u32)
      requires idx < table.Length && table[idx].state.Asking?
      modifies table, requests, this`calls
      ensures table[..] == old(table[..])[idx := Answered(old(table[idx]), ttl)]
      ensures Reported(old(requests[..]), old(calls), requests[..], calls, old(table[idx]), table[idx], idx,
        Some(table[idx].addr))
    {
      hide Released, Notices;
      table[idx] := table[idx].(state := Done, ttl := ttl);
      if table[idx].ttl > DNS_MAX_TTL {
        table[idx] := table[idx].(ttl := DNS_MAX_TTL);
      }
      CallFound(idx, Some(table[idx].addr));
      if table[idx].ttl == 0 {
        if table[idx].state.Done? {
          table[idx] := table[idx].(state := Unused);
        }
      }
    }

    /** The search of dns_recv for the entry that waits for an identifier. */
    method FindAsking(id: u16) returns (hit: bool, idx: nat)
      ensures hit <==> id in AskingIds(table[..])
      ensures hit ==> idx < table.Length && table[idx].state.Asking? && table[idx].txid == id
    {
      hit, idx := false, 0;
      while idx < table.Length
        invariant idx <= table.Length
        invariant forall k | 0 <= k < idx :: !(table[k].state.Asking? && table[k].txid == id)
      {
        if table[idx].state.Asking? && table[idx].txid == id {
          assert table[..][idx].txid in AskingIds(table[..]);
          return true, idx;
        }
        idx := idx + 1;
      }
      UnusedId(table[..], id);
    }

    /** The part of dns_recv that goes over to the next server after an error. */
    method AskNextServer(idx: nat, alloc: bool)
      requires Valid() && idx < table.Length && table[idx].state.Asking? && Backup(table[idx], servers[..])
      modifies table, requests, this`calls, this`sent, this`txid
      ensures Valid() && txid == old(txid)
      ensures table[..] == old(table[..])[idx := AfterReply(old(table[idx]), ServerError, servers[..], maxRetries)]
      ensures Reported(old(requests[..]), old(calls), requests[..], calls, old(table[idx]), table[idx], idx, None)
      ensures sent == old(sent) + QueryIf(alloc, table[idx], servers[..])
    {
      hide Released, Notices, EntriesOk, AllApart, RequestsOk, Balanced, AskingIds, QueryIf;
      hide Remaining, ServerTicks, RetryTicks, SameName;
      ghost var t, rs, calls0, entry := table[..], requests[..], calls, table[idx];
      OkAt(t, idx, servers.Length, maxRetries, clock);
      LastRetryOk(entry, servers.Length, maxRetries, clock);
      ErrorSends(entry, servers[..], maxRetries);
      table[idx] := table[idx].(retries := maxRetries - 1, tmr := 1);
      ChangeKeeps(t, rs, calls0, idx, table[idx], requests[..], None);
      DnsCheckEntry(idx, alloc);
    }

    /** dns_recv: a packet from `from`; `memory` is what stands in memory from the name of each entry on. */
    method DnsRecv(p: seq<byte>, from: Addr, memory: nat -> nat -> byte, alloc: bool) returns (hit: bool, idx: nat)
      requires Valid() && NoneNew(table[..]) && |p| <= 0xFFFF
      modifies table, requests, this`calls, this`sent, this`txid
      ensures Valid() && NoneNew(table[..]) && txid == old(txid) && old(calls) <= calls
      ensures hit <==> SIZEOF_DNS_HDR + SIZEOF_DNS_QUERY <= |p| && Be16(p, 0) in AskingIds(old(table[..]))
      ensures !hit ==>
        table[..] == old(table[..]) && requests[..] == old(requests[..]) && calls == old(calls) && sent == old(sent)
      ensures hit ==> idx < table.Length && old(table[idx]).state.Asking? && old(table[idx]).txid == Be16(p, 0)
      ensures hit ==>
        var e := old(table[idx]);
        var v := Judge(p, memory(idx), from == servers[e.serverIdx]);
        && table[..] == old(table[..])[idx := AfterReply(e, v, servers[..], maxRetries)]
        && Reported(old(requests[..]), old(calls), requests[..], calls, e, table[idx], idx, ResultOf(v))
        && sent == old(sent) + QueryIf(v.ServerError? && Backup(e, servers[..]) && alloc, table[idx], servers[..])
    {
      hide Judge, Be16, Released, Notices, EntriesOk, AllApart, RequestsOk, Balanced, AskingIds, QueryIf;
      hide Remaining, ServerTicks, RetryTicks, SameName;
      hit, idx := false, 0;
      if |p| < SIZEOF_DNS_HDR + SIZEOF_DNS_QUERY {
        return;
      }
      LoadedHtons(p, 0);
      hit, idx := FindAsking(Htons(Load16(p[0], p[1])));
      if !hit {
        return;
      }
      ghost var t, rs, calls0 := table[..], requests[..], calls;
      var entry := table[idx];
      OkAt(t, idx, servers.Length, maxRetries, clock);
      var v := JudgeReply(p, memory(idx), from == servers[entry.serverIdx]);
      if v.Ignore? {
        return;
      }
      if v.ServerError? {
        var backup := DnsBackupserverAvailable(idx);
        if backup {
          AskNextServer(idx, alloc);
          AfterReplyOk(entry, v, servers[..], maxRetries, clock);
          StillNoneNew(t, idx, table[idx]);
          return;
        }
      }
      EndRequest(idx, v);
      AfterReplyOk(entry, v, servers[..], maxRetries, clock);
      StillNoneNew(t, idx, table[idx]);
    }

    /** The end of dns_recv: the answer is taken, or the entry given up. */
    method EndRequest(idx: nat, v: Verdict)
      requires Valid() && idx < table.Length && table[idx].state.Asking?
      requires !v.Ignore? && !(v.ServerError? && Backup(table[idx], servers[..]))
      modifies table, requests, this`calls
      ensures Valid() && old(calls) <= calls
      ensures table[..] == old(table[..])[idx := AfterReply(old(table[idx]), v, servers[..], maxRetries)]
      ensures Reported(old(requests[..]), old(calls), requests[..], calls, old(table[idx]), table[idx], idx, ResultOf(v))
    {
      hide Released, Notices, EntriesOk, AllApart, RequestsOk, Balanced, AskingIds, Remaining, ServerTicks, RetryTicks, SameName;
      ghost var t, rs, calls0, e := table[..], requests[..], calls, table[idx];
      OkAt(t, idx, servers.Length, maxRetries, clock);
      AfterReplyOk(e, v, servers[..], maxRetries, clock);
      if v.Answer? {
        table[idx] := table[idx].(addr := AddrOf(v.addr));
        DnsCorrectResponse(idx, v.ttl);
      } else {
        CallFound(idx, None);
        table[idx] := table[idx].(state := Unused);
      }
      assert table[..] == t[idx := table[idx]];
      ChangeKeeps(t, rs, calls0, idx, table[idx], requests[..], ResultOf(v));
    }

    /** dns_lookup: the address of the first completed entry of that name. */
    method DnsLookup(name: seq<byte>) returns (addr: Option<Addr>)
      requires |name| <= 255 && 0 !in name
      requires forall k | 0 <= k < table.Length :: |table[k].name| <= 255 && 0 !in table[k].name
      ensures addr.Some? <==> exists k :: 0 <= k < table.Length && Caches(table[k], name)
      ensures addr.None? ==> forall k | 0 <= k < table.Length && table[k].state.Done? :: !SameName(name, table[k].name)
      ensures addr.Some? ==> exists k :: IsFirstCached(table[..], k, name) && table[k].addr == addr.value
    {
      hide SameName;
      for i := 0 to table.Length
        invariant forall k | 0 <= k < i :: !Caches(table[k], name)
      {
        if table[i].state.Done? {
          var r := Strnicmp(name, table[i].name, 256);
          if r == 0 {
            assert IsFirstCached(table[..], i, name);
            return Some(table[i].addr);
          }
        }
      }
      addr := None;
    }

    /** The search for a free request. */
    method FindFree() returns (r: nat)
      ensures r <= requests.Length
      ensures r == requests.Length <==> Full(requests[..])
      ensures r < requests.Length ==> requests[r].found == NULL
    {
      r := 0;
      while r < requests.Length
        invariant r <= requests.Length
        invariant forall k | 0 <= k < r :: requests[k].found != NULL
      {
        if requests[r].found == NULL {
          assert requests[..][r].found == NULL;
          return;
        }
        r := r + 1;
      }
    }

    /** The search of dns_enqueue for an entry that already asks for the name, with a free request. */
    method FindDuplicate(name: seq<byte>) returns (i: nat, r: nat)
      requires |name| <= 255 && 0 !in name
      requires forall k | 0 <= k < table.Length :: |table[k].name| <= 255 && 0 !in table[k].name
      ensures i < table.Length ==>
        && table[i].state.Asking? && SameName(name, table[i].name)
        && r < requests.Length && requests[r].found == NULL
        && IsAsked(table[..], name) && !Full(requests[..])
      ensures i >= table.Length ==> !IsAsked(table[..], name) || Full(requests[..])
    {
      hide SameName, Full;
      i, r := 0, 0;
      while i < table.Length
        invariant i <= table.Length
        invariant forall k | 0 <= k < i && table[k].state.Asking? && SameName(name, table[k].name) :: Full(requests[..])
      {
        if table[i].state.Asking? {
          var differ := Strnicmp(name, table[i].name, 256);
          if differ == 0 {
            r := FindFree();
            if r < requests.Length {
              assert table[..][i].state.Asking?;
              return;
            }
          }
        }
        i := i + 1;
      }
    }

    /** The search of dns_enqueue for the entry to fill. */
    method FindEntry() returns (i: nat)
      ensures i < table.Length ==> Best(table[..], i, seqno)
      ensures i >= table.Length <==> forall k | 0 <= k < table.Length :: !Usable(table[k], seqno)
    {
      var lseq: u8, lseqi := 0, table.Length;
      i := 0;
      while i < table.Length
        invariant i <= table.Length
        invariant forall k | 0 <= k < i :: !table[k].state.Unused?
        invariant forall k | 0 <= k < i && table[k].state.Done? :: Age(table[k], seqno) <= lseq
        invariant lseqi == table.Length ==> lseq == 0
        invariant lseqi != table.Length ==>
          0 <= lseqi < i && table[lseqi].state.Done? && Age(table[lseqi], seqno) == lseq > 0
      {
        if table[i].state.Unused? {
          return;
        }
        if table[i].state.Done? {
          var age := Age(table[i], seqno);
          if age > lseq {
            lseq, lseqi := age, i;
          }
        }
        i := i + 1;
      }
      i := lseqi;
    }

    /** The part of dns_enqueue that fills an entry and a request. */
    method FillEntry(i: nat, r: nat, name: seq<byte>, found: nat)
      requires Valid() && i < table.Length && r < requests.Length
      requires !table[i].Pending() && requests[r].found == NULL
      requires |name| <= 255 && 0 !in name
      requires NoneNew(table[..]) && !IsAsked(table[..], name)
      modifies table, requests, this`seqno, this`accepted
      ensures Valid()
      ensures table[..] == old(table[..])[i := NewEntry(old(table[i]), name, old(seqno), clock)]
      ensures requests[..] == old(requests[..])[r := Request(found, i, clock)]
      ensures accepted == old(accepted) + One(found, clock) && seqno == Following(old(seqno))
    {
      hide EntriesOk, AllApart, RequestsOk, Balanced, SameName, EntryOk, Waiting, Called;
      ghost var t, rs, q := table[..], requests[..], Request(found, i, clock);
      table[i] := NewEntry(table[i], name, seqno, clock);
      ghost var e := table[i];
      AddEntry(t, rs, i, e);
      NewEntryOk(t[i], name, seqno, servers.Length, maxRetries, clock);
      EntriesUpdate(t, i, e, servers.Length, maxRetries, clock);
      JoinRequest(t[i := e], rs, calls, accepted, r, q);
      requests[r] := Request(found, i, clock);
      accepted := accepted + One(found, clock);
      seqno := Following(seqno);
      assert table[..] == t[i := e] && requests[..] == rs[r := q];
    }

    /** dns_enqueue: joins the entry that already asks for the name, or fills an entry and asks. `i` and
        `r` are the entry and the request that it uses. */
    method DnsEnqueue(name: seq<byte>, found: nat, alloc: bool) returns (err: Err, i: nat, r: nat)
      requires Valid() && NoneNew(table[..]) && |name| <= 255 && 0 !in name
      modifies table, requests, this`calls, this`sent, this`txid, this`seqno, this`accepted
      ensures Valid() && NoneNew(table[..])
      ensures err.INPROGRESS? || err.MEM?
      ensures err.MEM? <==>
        || Full(old(requests[..]))
        || (!IsAsked(old(table[..]), name) && forall k | 0 <= k < table.Length :: !Usable(old(table[k]), old(seqno)))
      ensures err.MEM? ==>
        && table[..] == old(table[..]) && requests[..] == old(requests[..]) && calls == old(calls)
        && sent == old(sent) && accepted == old(accepted) && seqno == old(seqno) && txid == old(txid)
      ensures err.INPROGRESS? ==>
        && i < table.Length && r < requests.Length && old(requests[r]).found == NULL
        && accepted == old(accepted) + One(found, clock)
      ensures err.INPROGRESS? && IsAsked(old(table[..]), name) ==>
        && table[..] == old(table[..]) && table[i].state.Asking? && SameName(name, table[i].name)
        && requests[..] == old(requests[..])[r := Request(found, i, clock)]
        && calls == old(calls) && sent == old(sent) && seqno == old(seqno) && txid == old(txid)
      ensures err.INPROGRESS? && !IsAsked(old(table[..]), name) ==>
        var e := NewEntry(old(table[i]), name, old(seqno), clock);
        && Best(old(table[..]), i, old(seqno)) && seqno == Following(old(seqno))
        && FirstFree(old(txid), old(table[..]), txid)
        && table[..] == old(table[..])[i := Checked(e, txid, servers[..], maxRetries)]
        && Reported(old(requests[..])[r := Request(found, i, clock)], old(calls), requests[..], calls, e, table[i], i,
             None)
        && sent == old(sent) + QueryIf(alloc && Sends(e, txid, servers[..], maxRetries), table[i], servers[..])
    {
      hide Released, Notices, EntriesOk, AllApart, RequestsOk, Balanced, QueryIf, SameName, Reported, Best, Checked;
      hide EntryOk, Sends, Waiting, Called, Age, Usable, NoneNew, IsAsked, Full, One, FirstFree;
      ghost var t, rs, calls0 := table[..], requests[..], calls;
      NamesOk(t, servers.Length, maxRetries, clock);
      i, r := FindDuplicate(name);
      if i < table.Length {
        OkAt(t, i, servers.Length, maxRetries, clock);
        JoinOk(t, i, servers.Length, maxRetries, clock, found);
        JoinRequest(t, rs, calls, accepted, r, Request(found, i, clock));
        requests[r] := Request(found, i, clock);
        accepted := accepted + One(found, clock);
        assert requests[..] == rs[r := Request(found, i, clock)];
        return INPROGRESS, i, r;
      }
      i := FindEntry();
      if i >= table.Length {
        return MEM, i, r;
      }
      r := FindFree();
      if r >= requests.Length {
        return MEM, i, r;
      }
      ghost var e := NewEntry(table[i], name, seqno, clock);
      BestRests(t, i, seqno);
      NewEntryOk(t[i], name, seqno, servers.Length, maxRetries, clock);
      FillEntry(i, r, name, found);
      DnsCheckEntry(i, alloc);
      SameFree(old(txid), t, i, e, txid);
      CheckedOk(e, txid, servers[..], maxRetries, clock);
      assert table[..] == t[i := table[i]];
      StillNoneNew(t, i, table[i]);
      err := INPROGRESS;
    }

    /** dns_gethostbyname; `known` is the address if the host name is one in digits, the local host or
        in a local list. */
    method DnsGethostbyname(hostname: seq<byte>, known: Option<Addr>, found: nat, alloc: bool)
        returns (err: Err, addr: Option<Addr>)
      requires Valid() && NoneNew(table[..]) && 0 !in hostname
      modifies table, requests, this`calls, this`sent, this`txid, this`seqno, this`accepted
      ensures Valid() && NoneNew(table[..])
      ensures calls == old(calls)
      ensures accepted == if err.INPROGRESS? then old(accepted) + One(found, clock) else old(accepted)
      ensures !err.INPROGRESS? ==>
        table[..] == old(table[..]) && requests[..] == old(requests[..]) && sent == old(sent)
      ensures err.ARG? || err.OK? || err.VAL? || err.MEM? || err.INPROGRESS?
      ensures err.ARG? <==> |hostname| == 0 || |hostname| > 255
      ensures err.OK? <==> addr.Some?
      ensures err.OK? <==>
        !err.ARG? && (known.Some? || exists k :: 0 <= k < table.Length && Caches(old(table[k]), hostname))
      ensures err.OK? && known.Some? ==> addr == known
      ensures err.OK? && known.None? ==>
        exists k :: IsFirstCached(old(table[..]), k, hostname) && old(table[..])[k].addr == addr.value
      ensures err.VAL? <==> !err.ARG? && !err.OK? && servers[0] == ANY
      ensures err.MEM? ==>
        || Full(requests[..])
        || (!IsAsked(table[..], hostname) && forall k | 0 <= k < table.Length :: !Usable(table[k], seqno))
      ensures err.INPROGRESS? ==> IsAsked(table[..], hostname)
      ensures err.INPROGRESS? ==>
        exists i, r :: Joins(old(Now()), hostname, found, i, r, Now()) ||
                       Fills(old(Now()), hostname, found, alloc, maxRetries, i, r, Now())
      ensures !err.INPROGRESS? ==> Now() == old(Now())
    {
      hide Released, Notices, EntriesOk, AllApart, RequestsOk, Balanced, QueryIf, SameName, Reported, Best, Full, Usable;
      hide FirstFree;
      addr := None;
      if |hostname| == 0 {
        return ARG, addr;
      }
      if |hostname| >= 256 {
        return ARG, addr;
      }
      if known.Some? {
        return OK, known;
      }
      NamesOk(table[..], servers.Length, maxRetries, clock);
      addr := DnsLookup(hostname);
      if addr.Some? {
        return OK, addr;
      }
      if servers[0] == ANY {
        return VAL, addr;
      }
      ghost var t, rs, calls0 := table[..], requests[..], calls;
      var i, r;
      err, i, r := DnsEnqueue(hostname, found, alloc);
      if err.INPROGRESS? && IsAsked(t, hostname) {
        assert Joins(old(Now()), hostname, found, i, r, Now());
      } else if err.INPROGRESS? {
        ghost var e := NewEntry(t[i], hostname, old(seqno), clock);
        AskedNow(t, i, e, txid, servers[..], maxRetries);
        StillWaiting(rs[r := Request(found, i, clock)], calls0, requests[..], calls, e, table[i], i);
        assert Fills(old(Now()), hostname, found, alloc, maxRetries, i, r, Now());
      }
    }

    /** dns_setserver; None is a null pointer. */
    method DnsSetserver(numdns: nat, dnsserver: Option<Addr>)
      requires Valid()
      modifies servers
      ensures Valid()
      ensures servers[..] ==
        if numdns < servers.Length then
          old(servers[..])[numdns := if dnsserver.Some? then dnsserver.value else ANY]
        else
          old(servers[..])
    {
      if numdns < servers.Length {
        servers[numdns] := if dnsserver.Some? then dnsserver.value else ANY;
      }
    }

    method DnsBackupserverAvailable(i: nat) returns (ret: bool)
      requires i < table.Length
      ensures ret == Backup(table[i], servers[..])
    {
      ret := table[i].serverIdx + 1 < servers.Length && servers[table[i].serverIdx + 1] != ANY;
    }

    /** The invariant is kept when one entry changes in an admissible way. */
    lemma ChangeKeeps(t: seq<Entry>, rs: seq<Request>, calls0: seq<Call>, i: nat, e': Entry, rs': seq<Request>,
        result: Option<Addr>)
      requires Shape() && i < |t| && |t| == table.Length
      requires EntriesOk(t, servers.Length, maxRetries, clock) && AllApart(t) && RequestsOk(rs, t)
      requires Balanced(accepted, rs, calls0)
      requires EntryOk(e', servers.Length, maxRetries, clock)
      requires e'.Pending() ==> t[i].Pending() && e'.name == t[i].name && e'.since == t[i].since
      requires e'.state.Asking? ==> (t[i].state.Asking? && e'.txid == t[i].txid) || e'.txid !in AskingIds(t)
      requires Reported(rs, calls0, rs', calls, t[i], e', i, result)
      requires table[..] == t[i := e'] && requests[..] == rs'
      ensures Valid()
    {
      hide EntriesOk, AllApart, RequestsOk, Balanced, EntryOk, Reported, AskingIds;
      EntriesUpdate(t, i, e', servers.Length, maxRetries, clock);
      ApartUpdate(t, i, e');
      ReportedRequests(t, rs, calls0, rs', calls, e', i, result);
      ReportedBalanced(accepted, rs, calls0, rs', calls, t[i], e', i, result);
    }
  }

  lemma OkAt(t: seq<Entry>, i: nat, S: nat, R: nat, clock: nat)
    requires i < |t| && EntriesOk(t, S, R, clock)
    ensures EntryOk(t[i], S, R, clock)
  {
  }

  ghost predicate Caches(e: Entry, name: seq<byte>) {
    e.state.Done? && SameName(name, e.name)
  }

  ghost predicate IsFirstCached(t: seq<Entry>, k: int, name: seq<byte>) {
    0 <= k < |t| && Caches(t[k], name) && forall j | 0 <= j < k :: !Caches(t[j], name)
  }

  lemma NamesOk(t: seq<Entry>, S: nat, R: nat, clock: nat)
    requires EntriesOk(t, S, R, clock)
    ensures forall k | 0 <= k < |t| :: |t[k].name| <= 255 && 0 !in t[k].name
  {
    forall k | 0 <= k < |t| ensures |t[k].name| <= 255 && 0 !in t[k].name {
      OkAt(t, k, S, R, clock);
    }
  }

  lemma JoinOk(t: seq<Entry>, i: nat, S: nat, R: nat, clock: nat, found: nat)
    requires i < |t| && t[i].state.Asking? && EntryOk(t[i], S, R, clock)
    ensures RequestOk(Request(found, i, clock), t)
  {
  }

  lemma BestRests(t: seq<Entry>, i: nat, seqno: u8)
    requires Best(t, i, seqno)
    ensures i < |t| && !t[i].Pending()
  {
  }

  lemma AskedNow(t: seq<Entry>, i: nat, e: Entry, id: u16, servers: seq<Addr>, R: nat)
    requires i < |t| && e.state.New? && |servers| > 0 && servers[0] != ANY
    ensures var e' := Checked(e, id, servers, R);
      e'.state.Asking? && IsAsked(t[i := e'], e.name)
  {
    var e' := Checked(e, id, servers, R);
    assert t[i := e'][i] == e';
  }

  lemma StillWaiting(rs: seq<Request>, calls: seq<Call>, rs': seq<Request>, calls': seq<Call>, e: Entry, e': Entry,
      idx: nat)
    requires Reported(rs, calls, rs', calls', e, e', idx, None) && e'.Pending()
    ensures rs' == rs && calls' == calls
  {
  }

  lemma ReportedGrows(rs: seq<Request>, calls: seq<Call>, rs': seq<Request>, calls': seq<Call>, e: Entry, e': Entry,
      idx: nat, result: Option<Addr>)
    requires Reported(rs, calls, rs', calls', e, e', idx, result)
    ensures calls <= calls'
  {
  }

  lemma NewEntryOk(e: Entry, name: seq<byte>, seqno: u8, S: nat, R: nat, clock: nat)
    requires |name| <= 255 && 0 !in name
    ensures EntryOk(NewEntry(e, name, seqno, clock), S, R, clock)
  {
  }

  lemma AllCheckable(t: seq<Entry>, S: nat, R: nat, clock: nat)
    requires EntriesOk(t, S, R, clock)
    ensures forall k | 0 <= k < |t| :: Checkable(t[k], S)
  {
    forall k | 0 <= k < |t| ensures Checkable(t[k], S) {
      OkAt(t, k, S, R, clock);
    }
  }

  lemma SweepNone(rs: seq<Request>, calls: seq<Call>, t: seq<Entry>)
    ensures Swept(rs, rs, t, 0) && Told(rs, calls, t, 0)
  {
  }

  lemma StillNoneNew(t: seq<Entry>, i: nat, e: Entry)
    requires NoneNew(t) && i < |t| && !e.state.New?
    ensures NoneNew(t[i := e])
  {
  }

  /** Only a new entry takes the identifier it is offered. */
  lemma IdUnused(e: Entry, id: u16, servers: seq<Addr>, R: nat)
    requires |servers| > 0 && !e.state.New? && Checkable(e, |servers|)
    ensures Checked(e, id, servers, R) == Checked(e, 0, servers, R)
  {
  }

  lemma SendsSame(e: Entry, id: u16, servers: seq<Addr>, R: nat)
    requires |servers| > 0 && !e.state.New? && Checkable(e, |servers|)
    ensures Sends(e, id, servers, R) == Sends(e, 0, servers, R)
  {
  }

  /** After a server error the next server, if there is one, is asked at once. */
  lemma ErrorSends(e: Entry, servers: seq<Addr>, R: nat)
    requires e.state.Asking? && e.serverIdx < |servers| && R > 0 && Backup(e, servers)
    ensures var e1 := e.(retries := R - 1, tmr := 1);
      forall id: u16 ::
        Sends(e1, id, servers, R) && Checked(e1, id, servers, R) == Checked(e1, 0, servers, R)
  {
  }

  lemma NoneWaiting(rs: seq<Request>)
    requires forall r | 0 <= r < |rs| :: rs[r].found == NULL
    ensures Waiting(rs) == multiset{}
  {
    if rs != [] {
      NoneWaiting(rs[..|rs| - 1]);
    }
  }

  lemma NoneReleased(idx: nat, name: seq<byte>, result: Option<Addr>)
    ensures Released([], idx) == [] && Notices([], idx, name, result) == []
  {
  }

  lemma OneMore(rs: seq<Request>, i: nat, idx: nat, name: seq<byte>, result: Option<Addr>)
    requires i < |rs|
    ensures var q := rs[i];
      && Released(rs[..i + 1], idx) == Released(rs[..i], idx) + [if Concerns(q, idx) then q.(found := NULL) else q]
      && Notices(rs[..i + 1], idx, name, result) ==
         Notices(rs[..i], idx, name, result) + if Concerns(q, idx) then [Call(q.AsTicket(), name, result)] else []
  {
    assert rs[..i + 1][..i] == rs[..i];
  }

  lemma UsedId(t: seq<Entry>, i: nat)
    requires i < |t| && t[i].state.Asking?
    ensures t[i].txid in AskingIds(t)
  {
  }

  lemma UnusedId(t: seq<Entry>, id: u16)
    requires forall k | 0 <= k < |t| :: !(t[k].state.Asking? && t[k].txid == id)
    ensures id !in AskingIds(t)
  {
  }

  lemma NoneDrawn(start: u16)
    ensures Drawn(start, 0) == {}
  {
  }

  lemma DrawOne(start: u16, n: nat)
    requires 0 < n <= 0x1_0000
    ensures Drawn(start, n) == Drawn(start, n - 1) + {Plus(start, n)}
  {
  }

  // ---- Whole runs ----

  /** A request joins entry i, by request r. */
  ghost predicate Joins(v: View, name: seq<byte>, found: nat, i: nat, r: nat, v': View) {
    && IsAsked(v.table, name) && i < |v.table| && v.table[i].state.Asking? && SameName(name, v.table[i].name)
    && r < |v.requests| && v.requests[r].found == NULL
    && v' == v.(requests := v.requests[r := Request(found, i, v.clock)], accepted := v.accepted + One(found, v.clock))
  }

  /** A request fills entry i and request r, and the query goes out; its identifier is the
      first behind the counter that no waiting entry has. */
  ghost predicate Fills(v: View, name: seq<byte>, found: nat, alloc: bool, R: nat, i: nat, r: nat, v': View) {
    && !IsAsked(v.table, name) && Best(v.table, i, v.seqno) && r < |v.requests| && v.requests[r].found == NULL
    && |v.servers| > 0
    && FirstFree(v.txid, v.table, v'.txid)
    && var e := NewEntry(v.table[i], name, v.seqno, v.clock);
       && v' == View(v.table[i := Checked(e, v'.txid, v.servers, R)], v.requests[r := Request(found, i, v.clock)],
            v.servers, Following(v.seqno), v'.txid, v.clock, v.accepted + One(found, v.clock), v.calls,
            v.sent + QueryIf(alloc && Sends(e, v'.txid, v.servers, R), Checked(e, v'.txid, v.servers, R), v.servers))
  }

  /** What can happen to the resolver. */
  datatype Step =
    | Lookup(hostname: seq<byte>, known: Option<Addr>, found: nat, memory: bool)
    | Tick(memories: nat -> bool)
    | Packet(p: seq<byte>, from: Addr, contents: nat -> nat -> byte, memory: bool)
    | SetServer(numdns: nat, server: Option<Addr>)
  {
    /** Host names are C strings and packets have 16-bit lengths. */
    predicate Possible() {
      match this
      case Lookup(hostname, _, _, _) => 0 !in hostname
      case Packet(p, _, _, _) => |p| <= 0xFFFF
      case _ => true
    }
  }

  /** What a step returns: the result of a lookup, or the entry that a packet concerns. */
  datatype Result = LookedUp(err: Err, addr: Option<Addr>) | Hit(idx: nat) | Nothing

  /** A lookup: which result it has, and what it does. */
  ghost predicate Looks(v: View, hostname: seq<byte>, known: Option<Addr>, found: nat, memory: bool, R: nat, err: Err,
      addr: Option<Addr>, v': View)
  {
    && (err.ARG? <==> |hostname| == 0 || |hostname| > 255)
    && (err.OK? <==> !err.ARG? && (known.Some? || exists k :: IsFirstCached(v.table, k, hostname)))
    && (err.OK? <==> addr.Some?)
    && (err.OK? && known.Some? ==> addr == known)
    && (err.OK? && known.None? ==> exists k :: IsFirstCached(v.table, k, hostname) && v.table[k].addr == addr.value)
    && (err.VAL? <==> !err.ARG? && !err.OK? && |v.servers| > 0 && v.servers[0] == ANY)
    && (err.ARG? || err.OK? || err.VAL? || err.MEM? || err.INPROGRESS?)
    && (err.MEM? ==>
          || Full(v.requests)
          || (!IsAsked(v.table, hostname) && forall k | 0 <= k < |v.table| :: !Usable(v.table[k], v.seqno)))
    && (!err.INPROGRESS? ==> v' == v)
    && (err.INPROGRESS? ==>
          exists i, r :: Joins(v, hostname, found, i, r, v') || Fills(v, hostname, found, memory, R, i, r, v'))
  }

  /** A timer tick. */
  ghost predicate Ticked(v: View, memories: nat -> bool, R: nat, v': View) {
    && |v.servers| > 0 && |v'.table| == |v.table| && (forall k | 0 <= k < |v.table| :: Checkable(v.table[k], |v.servers|))
    && (forall k | 0 <= k < |v.table| :: v'.table[k] == Checked(v.table[k], 0, v.servers, R))
    && Swept(v.requests, v'.requests, v'.table, |v'.table|) && Told(v.requests, v'.calls, v'.table, |v'.table|)
    && v.calls <= v'.calls
    && v'.sent == v.sent + TickQueries(v.table, memories, v.servers, R, |v.table|)
    && v'.clock == v.clock + 1
    && (v'.servers, v'.seqno, v'.txid, v'.accepted) == (v.servers, v.seqno, v.txid, v.accepted)
  }

  /** A packet: it concerns the entry that waits with its identifier, if there is one. */
  ghost predicate Receives(v: View, p: seq<byte>, from: Addr, contents: nat -> nat -> byte, memory: bool, R: nat,
      result: Result, v': View)
    requires |p| <= 0xFFFF
  {
    && (result.Hit? <==> SIZEOF_DNS_HDR + SIZEOF_DNS_QUERY <= |p| && Be16(p, 0) in AskingIds(v.table))
    && (!result.Hit? ==> v' == v)
    && (result.Hit? ==>
          && result.idx < |v.table| && |p| >= 2 && R > 0
          && var e := v.table[result.idx];
             && e.state.Asking? && e.txid == Be16(p, 0) && e.serverIdx < |v.servers|
             && var verdict := Judge(p, contents(result.idx), from == v.servers[e.serverIdx]);
                var e' := AfterReply(e, verdict, v.servers, R);
                && v'.table == v.table[result.idx := e']
                && Reported(v.requests, v.calls, v'.requests, v'.calls, e, e', result.idx, ResultOf(verdict))
                && v'.sent == v.sent + QueryIf(verdict.ServerError? && Backup(e, v.servers) && memory, e', v.servers)
                && (v'.servers, v'.seqno, v'.txid, v'.clock, v'.accepted) == (v.servers, v.seqno, v.txid, v.clock, v.accepted))
  }

  /** What each step does. */
  ghost predicate Leads(v: View, step: Step, R: nat, result: Result, v': View)
    requires step.Possible()
  {
    match step
    case Lookup(hostname, known, found, memory) =>
      result.LookedUp? && Looks(v, hostname, known, found, memory, R, result.err, result.addr, v')
    case Tick(memories) => Ticked(v, memories, R, v')
    case Packet(p, from, contents, memory) => Receives(v, p, from, contents, memory, R, result, v')
    case SetServer(numdns, server) =>
      v' == v.(servers :=
        if numdns < |v.servers| then v.servers[numdns := if server.Some? then server.value else ANY] else v.servers)
  }

  /** A lookup. */
  method PerformLookup(d: Resolver, hostname: seq<byte>, known: Option<Addr>, found: nat, memory: bool)
      returns (err: Err, addr: Option<Addr>)
    requires d.Valid() && NoneNew(d.table[..]) && 0 !in hostname
    modifies d, d.table, d.requests
    ensures d.Valid() && NoneNew(d.table[..])
    ensures Looks(old(d.Now()), hostname, known, found, memory, d.maxRetries, err, addr, d.Now())
    ensures d.calls == old(d.calls) && d.clock == old(d.clock)
    ensures d.accepted == if err.INPROGRESS? then old(d.accepted) + One(found, d.clock) else old(d.accepted)
  {
    hide EntriesOk, AllApart, RequestsOk, Balanced, NoneNew, Full, Joins, Fills, Usable, Caches, IsAsked, One;
    ghost var v := d.Now();
    err, addr := d.DnsGethostbyname(hostname, known, found, memory);
    FirstCached(v.table, hostname);
  }

  /** A timer tick. */
  method PerformTick(d: Resolver, memories: nat -> bool)
    requires d.Valid() && NoneNew(d.table[..])
    modifies d, d.table, d.requests
    ensures d.Valid() && NoneNew(d.table[..])
    ensures Ticked(old(d.Now()), memories, d.maxRetries, d.Now())
    ensures old(d.calls) <= d.calls && d.accepted == old(d.accepted) && d.clock == old(d.clock) + 1
  {
    hide EntriesOk, AllApart, RequestsOk, Balanced, NoneNew, Checked, Swept, Told, TickQueries;
    ghost var v := d.Now();
    d.DnsTmr(memories);
    assert v.table == old(d.table[..]) && |v.table| == d.table.Length;
  }

  /** A packet. */
  method PerformPacket(d: Resolver, p: seq<byte>, from: Addr, contents: nat -> nat -> byte, memory: bool)
      returns (result: Result)
    requires d.Valid() && NoneNew(d.table[..]) && |p| <= 0xFFFF
    modifies d, d.table, d.requests
    ensures d.Valid() && NoneNew(d.table[..]) && !result.LookedUp?
    ensures Receives(old(d.Now()), p, from, contents, memory, d.maxRetries, result, d.Now())
    ensures old(d.calls) <= d.calls && d.accepted == old(d.accepted) && d.clock == old(d.clock)
  {
    hide EntriesOk, AllApart, RequestsOk, Balanced, NoneNew, Reported, AfterReply, Judge, Be16, AskingIds, QueryIf;
    ghost var v := d.Now();
    var hit, idx := d.DnsRecv(p, from, contents, memory);
    if hit {
      OkAt(v.table, idx, d.servers.Length, d.maxRetries, d.clock);
    }
    result := if hit then Hit(idx) else Nothing;
  }

  lemma FirstCached(t: seq<Entry>, name: seq<byte>)
    ensures (exists k :: 0 <= k < |t| && Caches(t[k], name)) <==> exists k :: IsFirstCached(t, k, name)
  {
    hide Caches;
    if k :| 0 <= k < |t| && Caches(t[k], name) {
      var j := 0;
      while !Caches(t[j], name)
        invariant j <= k && forall i | 0 <= i < j :: !Caches(t[i], name)
        decreases k - j
      {
        j := j + 1;
      }
      assert IsFirstCached(t, j, name);
    }
  }

  method Perform(d: Resolver, step: Step) returns (result: Result)
    requires d.Valid() && NoneNew(d.table[..]) && step.Possible()
    modifies d, d.table, d.requests, d.servers
    ensures d.Valid() && NoneNew(d.table[..])
    ensures Leads(old(d.Now()), step, d.maxRetries, result, d.Now())
    ensures old(d.calls) <= d.calls
    ensures d.accepted == old(d.accepted) + Accepts(step, result, old(d.clock))
    ensures d.clock == old(d.clock) + if step.Tick? then 1 else 0
  {
    hide EntriesOk, AllApart, RequestsOk, Balanced, NoneNew, Looks, Ticked, Receives, One;
    result := Nothing;
    match step
    case Lookup(hostname, known, found, memory) =>
      var err, addr := PerformLookup(d, hostname, known, found, memory);
      result := LookedUp(err, addr);
    case Tick(memories) =>
      PerformTick(d, memories);
    case Packet(p, from, contents, memory) =>
      result := PerformPacket(d, p, from, contents, memory);
    case SetServer(numdns, server) =>
      d.DnsSetserver(numdns, server);
  }

  /** The callback that a step gets accepted. */
  function Accepts(step: Step, result: Result, clock: nat): multiset<Ticket> {
    if step.Lookup? && result.LookedUp? && result.err.INPROGRESS? then One(step.found, clock) else multiset{}
  }

  function Ticks(steps: seq<Step>): nat {
    if steps == [] then 0 else Ticks(steps[..|steps| - 1]) + if steps[|steps| - 1].Tick? then 1 else 0
  }

  /** The callbacks accepted in some steps, with the times at which they were. */
  function AllAccepted(steps: seq<Step>, results: seq<Result>, clock: nat): multiset<Ticket>
    requires |results| == |steps|
  {
    if steps == [] then multiset{}
    else
      var n := |steps| - 1;
      AllAccepted(steps[..n], results[..n], clock) + Accepts(steps[n], results[n], clock + Ticks(steps[..n]))
  }

  /** Each view leads to the next by its step. */
  ghost predicate Traced(views: seq<View>, steps: seq<Step>, R: nat, results: seq<Result>) {
    && |views| == |steps| + 1 && |results| == |steps|
    && forall k | 0 <= k < |steps| :: steps[k].Possible() && Leads(views[k], steps[k], R, results[k], views[k + 1])
  }

  /** What some steps that return some results have made of a view. */
  ghost predicate Become(v: View, steps: seq<Step>, results: seq<Result>, v': View) {
    && |results| == |steps| && v.calls <= v'.calls && v'.clock == v.clock + Ticks(steps)
    && v'.accepted == v.accepted + AllAccepted(steps, results, v.clock)
  }

  lemma TracedNext(views: seq<View>, steps: seq<Step>, R: nat, results: seq<Result>, step: Step, result: Result, v: View)
    requires Traced(views, steps, R, results) && step.Possible() && Leads(views[|steps|], step, R, result, v)
    ensures Traced(views + [v], steps + [step], R, results + [result])
  {
    hide Leads;
    var views', steps', results' := views + [v], steps + [step], results + [result];
    forall k | 0 <= k < |steps'| ensures steps'[k].Possible() && Leads(views'[k], steps'[k], R, results'[k], views'[k + 1]) {
      if k < |steps| {
        assert steps[k].Possible() && Leads(views[k], steps[k], R, results[k], views[k + 1]);
      }
    }
  }

  lemma BecomeNext(v0: View, steps: seq<Step>, results: seq<Result>, v: View, step: Step, result: Result, v': View)
    requires Become(v0, steps, results, v) && v.calls <= v'.calls
    requires v'.accepted == v.accepted + Accepts(step, result, v.clock)
    requires v'.clock == v.clock + if step.Tick? then 1 else 0
    ensures Become(v0, steps + [step], results + [result], v')
  {
    hide Accepts;
    var n, steps', results' := |steps|, steps + [step], results + [result];
    assert steps'[..n] == steps && results'[..n] == results && steps'[n] == step && results'[n] == result;
  }

  lemma NothingTraced(v: View, R: nat)
    ensures Traced([v], [], R, []) && Become(v, [], [], v)
  {
  }

  /** Every run. Its steps lead from view to view, with their results; the callbacks accepted are those of the
      lookups that were answered with ERR_INPROGRESS; and each of them, accepted before the run or in it, has been
      called once the ticks of all servers have passed since. */
  method Run(d: Resolver, steps: seq<Step>) returns (results: seq<Result>, ghost views: seq<View>)
    requires d.Valid() && NoneNew(d.table[..])
    requires forall k | 0 <= k < |steps| :: steps[k].Possible()
    modifies d, d.table, d.requests, d.servers
    ensures d.Valid() && NoneNew(d.table[..])
    ensures Traced(views, steps, d.maxRetries, results) && views[0] == old(d.Now()) && views[|steps|] == d.Now()
    ensures Become(old(d.Now()), steps, results, d.Now())
    ensures forall ticket | ticket in d.accepted && ticket.since + ServerTicks(d.servers.Length, d.maxRetries) <= d.clock ::
      Called(d.calls)[ticket] == d.accepted[ticket]
  {
    hide Resolver.Valid, NoneNew, ServerTicks, Called, Leads, Become, Accepts, Step.Possible;
    results, views := [], [d.Now()];
    NothingTraced(d.Now(), d.maxRetries);
    ghost var start := d.Now();
    assert steps[..0] == [];
    for k := 0 to |steps|
      invariant d.Valid() && NoneNew(d.table[..])
      invariant Traced(views, steps[..k], d.maxRetries, results) && |views| == k + 1
      invariant views[0] == start && views[k] == d.Now() && Become(start, steps[..k], results, d.Now())
    {
      ghost var v := d.Now();
      var result := Perform(d, steps[k]);
      TracedNext(views, steps[..k], d.maxRetries, results, steps[k], result, d.Now());
      BecomeNext(start, steps[..k], results, v, steps[k], result, d.Now());
      assert steps[..k + 1] == steps[..k] + [steps[k]];
      results, views := results + [result], views + [d.Now()];
    }
    assert steps[..|steps|] == steps;
    forall ticket | ticket in d.accepted && ticket.since + ServerTicks(d.servers.Length, d.maxRetries) <= d.clock
      ensures Called(d.calls)[ticket] == d.accepted[ticket]
    {
      AnsweredInTime(d, ticket);
    }
  }

  /** A step leaves a completed or unused entry alone but for its age, unless it fills the entry anew. */
  lemma StepAges(v: View, step: Step, R: nat, result: Result, v': View, k: nat, e: Entry, n: nat)
    requires step.Possible() && Leads(v, step, R, result, v')
    requires k < |v.table| && !e.Pending() && v.table[k] == Aged(e, n)
    ensures |v'.table| == |v.table|
    ensures v'.table[k].state.Asking? || v'.table[k] == Aged(e, n + if step.Tick? then 1 else 0)
  {
    hide Judge, Accepts, QueryIf, SameName, FirstFree, Aged, IsAsked, Reported, Swept, Told, TickQueries, AfterReply;
    AgedOnce(e, n, if |v.servers| > 0 then v.servers else [ANY], R);
  }

  /** In every run, a completed entry gives its address for exactly its time to live, in ticks, and is unused
      afterwards, until it is filled anew. */
  lemma {:induction false} CachedInRuns(views: seq<View>, steps: seq<Step>, R: nat, results: seq<Result>, k: nat)
    requires Traced(views, steps, R, results) && k < |views[0].table| && !views[0].table[k].Pending()
    requires forall i | 0 <= i <= |steps| && k < |views[i].table| :: !views[i].table[k].state.Asking?
    ensures k < |views[|steps|].table| && views[|steps|].table[k] == Aged(views[0].table[k], Ticks(steps))
    ensures var e, e' := views[0].table[k], views[|steps|].table[k];
      e.state.Done? && e.ttl > 0 ==>
        e'.name == e.name && e'.addr == e.addr && (e'.state.Done? <==> Ticks(steps) < e.ttl)
    decreases |steps|
  {
    hide Leads, Aged;
    var e := views[0].table[k];
    if steps == [] {
      assert Aged(e, 0) == e by { AgedNone(e); }
    } else {
      var n := |steps| - 1;
      var views', steps', results' := views[..n + 1], steps[..n], results[..n];
      assert Traced(views', steps', R, results') by {
        forall i | 0 <= i < n ensures steps'[i].Possible() && Leads(views'[i], steps'[i], R, results'[i], views'[i + 1]) {
          assert steps[i].Possible() && Leads(views[i], steps[i], R, results[i], views[i + 1]);
        }
      }
      CachedInRuns(views', steps', R, results', k);
      assert steps[n].Possible() && Leads(views[n], steps[n], R, results[n], views[n + 1]);
      StepAges(views[n], steps[n], R, results[n], views[n + 1], k, e, Ticks(steps'));
    }
    if e.state.Done? && e.ttl > 0 {
      CachedExactly(e, Ticks(steps));
    }
  }

  lemma AgedNone(e: Entry)
    requires !e.Pending()
    ensures Aged(e, 0) == e
  {
  }

  /** At every moment, each registration of a callback that was accepted either waits on an entry that
      is new or being asked for, or has been called; it is never both, and never lost. */
  lemma WaitingOrCalled(d: Resolver, ticket: Ticket)
    requires d.Valid() && ticket in d.accepted
    ensures d.accepted[ticket] == Waiting(d.requests[..])[ticket] + Called(d.calls)[ticket]
    ensures Waiting(d.requests[..])[ticket] > 0 ==>
      exists r :: 0 <= r < d.requests.Length && d.requests[r].found != NULL && d.requests[r].AsTicket() == ticket &&
        d.requests[r].tableIdx < d.table.Length && d.table[d.requests[r].tableIdx].Pending()
  {
    hide Waiting, Called, EntriesOk, AllApart;
    if Waiting(d.requests[..])[ticket] > 0 {
      var r := WaitingHas(d.requests[..], ticket);
      assert RequestOk(d.requests[..][r], d.table[..]);
    }
  }

  /** No callback waits for longer than all servers together are given. */
  lemma AnsweredInTime(d: Resolver, ticket: Ticket)
    requires d.Valid() && NoneNew(d.table[..]) && ticket in d.accepted
    requires ticket.since + ServerTicks(d.servers.Length, d.maxRetries) <= d.clock
    ensures Called(d.calls)[ticket] == d.accepted[ticket]
  {
    hide Waiting, Called, EntriesOk, AllApart, ServerTicks, RetryTicks;
    if Waiting(d.requests[..])[ticket] > 0 {
      var r := WaitingHas(d.requests[..], ticket);
      var q, t := d.requests[..][r], d.table[..];
      assert RequestOk(q, t);
      OkAt(t, q.tableIdx, d.servers.Length, d.maxRetries, d.clock);
      assert false;
    }
  }

  /** A reply with any records to the query of an entry gives the entry the first address among them. */
  lemma ReplyResolves(e: Entry, flags1: byte, flags2: byte, rs: seq<Record>, counts: seq<byte>, rest: seq<byte>,
      memory: nat -> byte, servers: seq<Addr>, R: nat)
    requires e.state.Asking? && e.serverIdx < |servers| && R > 0 && |e.name| <= 255 && 0 !in e.name
    requires NoRoots(rs) && AllWellFormed(rs) && |rs| <= 0xFFFF && |counts| == 4
    requires flags1 >= DNS_FLAG1_RESPONSE && flags2 % 16 == 0
    requires Holds(memory, e.name) && Readable(e.name, 0)
    requires |Response(e.txid, flags1, flags2, e.name, rs, counts, rest)| <= 0xFFFF
    ensures var v := Judge(Response(e.txid, flags1, flags2, e.name, rs, counts, rest), memory, true);
      var e' := AfterReply(e, v, servers, R);
      && (Chosen(rs).NoAnswer? ==> e'.state.Unused? && ResultOf(v) == None)
      && (Chosen(rs).Answer? ==>
            && ResultOf(v) == Some(AddrOf(Chosen(rs).addr)) && e'.addr == AddrOf(Chosen(rs).addr)
            && e'.ttl == (if Chosen(rs).ttl > DNS_MAX_TTL then DNS_MAX_TTL else Chosen(rs).ttl)
            && (e'.state.Done? <==> Chosen(rs).ttl > 0) && (e'.state.Unused? <==> Chosen(rs).ttl == 0))
  {
    hide Response, Judge, Readable, Holds, Chosen;
    ReplyUnderstood(e.txid, flags1, flags2, e.name, rs, counts, rest, memory);
  }
}
