/** Reference counting of socket slots (LWIP_NETCONN_FULLDUPLEX). Every method is one section under
    the SYS_ARCH_PROTECT lock, so an interleaving of threads is a sequence of these calls. */
module SocketTable {
  import opened Words
  import opened Types

  /** A netconn, with what NETCONNTYPE_GROUP tells. */
  datatype Netconn = Netconn(id: nat, tcp: bool)

  /** struct lwip_sock */
  datatype Slot = Slot(conn: Option<Netconn>, fdUsed: u8, freePending: bool, freeTcp: bool)

  /** A detached netconn and the type its left-over data is freed as. */
  datatype Detached = Detached(conn: Netconn, isTcp: bool)

  const FREE_SLOT := Slot(None, 0, false, false)

  // ---- Where netconns are ----

  /** The netconns that slots refer to. */
  ghost function Held(slots: seq<Slot>): set<Netconn> {
    set s | s in slots && s.conn.Some? :: s.conn.value
  }

  /** The netconns that have been detached. */
  ghost function Gone(detached: seq<Detached>): set<Netconn> {
    set d | d in detached :: d.conn
  }

  /** Each placed netconn is in exactly one slot, or has been detached exactly once. */
  ghost predicate ConnsValid(slots: seq<Slot>, detached: seq<Detached>, placed: set<Netconn>) {
    && placed == Held(slots) + Gone(detached)
    && Held(slots) !! Gone(detached)
    && (forall i, j | 0 <= i < j < |slots| :: slots[i].conn.Some? ==> slots[i].conn != slots[j].conn)
    && (forall i, j | 0 <= i < j < |detached| :: detached[i].conn != detached[j].conn)
    && (forall d | d in detached :: d.isTcp == d.conn.tcp)
  }

  lemma HeldAt(slots: seq<Slot>, i: nat)
    requires i < |slots| && slots[i].conn.Some?
    ensures slots[i].conn.value in Held(slots)
  {
    assert slots[i] in slots;
  }

  /** Counters do not matter for where netconns are. */
  lemma SameConns(a: seq<Slot>, b: seq<Slot>, detached: seq<Detached>, placed: set<Netconn>)
    requires |a| == |b| && forall i | 0 <= i < |a| :: a[i].conn == b[i].conn
    requires ConnsValid(a, detached, placed)
    ensures ConnsValid(b, detached, placed)
  {
    forall c ensures c in Held(a) <==> c in Held(b) {
      if c in Held(a) {
        var i :| 0 <= i < |a| && a[i].conn == Some(c);
        HeldAt(b, i);
      }
      if c in Held(b) {
        var i :| 0 <= i < |b| && b[i].conn == Some(c);
        HeldAt(a, i);
      }
    }
    assert Held(a) == Held(b);
  }

  /** A netconn moves from its slot to the detached ones. */
  lemma MoveOut(a: seq<Slot>, b: seq<Slot>, s: nat, detached: seq<Detached>, placed: set<Netconn>)
    requires |a| == |b| && s < |a| && a[s].conn.Some? && b[s].conn.None?
    requires forall i | 0 <= i < |a| && i != s :: a[i].conn == b[i].conn
    requires ConnsValid(a, detached, placed)
    ensures ConnsValid(b, detached + [Detached(a[s].conn.value, a[s].conn.value.tcp)], placed)
  {
    var c := a[s].conn.value;
    var d' := detached + [Detached(c, c.tcp)];
    HeldAt(a, s);
    forall x ensures x in Held(b) <==> x in Held(a) && x != c {
      if x in Held(b) {
        var i :| 0 <= i < |b| && b[i].conn == Some(x);
        HeldAt(a, i);
      }
      if x in Held(a) && x != c {
        var i :| 0 <= i < |a| && a[i].conn == Some(x);
        HeldAt(b, i);
      }
    }
    assert Held(b) == Held(a) - {c};
    assert d'[|detached|] in d';
    assert Gone(d') == Gone(detached) + {c};
  }

  /** A new netconn gets an empty slot. */
  lemma MoveIn(a: seq<Slot>, b: seq<Slot>, s: nat, c: Netconn, detached: seq<Detached>, placed: set<Netconn>)
    requires |a| == |b| && s < |a| && a[s].conn.None? && b[s].conn == Some(c) && c !in placed
    requires forall i | 0 <= i < |a| && i != s :: a[i].conn == b[i].conn
    requires ConnsValid(a, detached, placed)
    ensures ConnsValid(b, detached, placed + {c})
  {
    HeldAt(b, s);
    forall x ensures x in Held(b) <==> x in Held(a) || x == c {
      if x in Held(b) && x != c {
        var i :| 0 <= i < |b| && b[i].conn == Some(x);
        HeldAt(a, i);
      }
      if x in Held(a) {
        var i :| 0 <= i < |a| && a[i].conn == Some(x);
        HeldAt(b, i);
      }
    }
    assert Held(b) == Held(a) + {c};
    forall i | 0 <= i < |a| && a[i].conn.Some? ensures a[i].conn != Some(c) {
      HeldAt(a, i);
    }
  }

  // ---- The table as a value ----

  /** A locked section of some thread. */
  datatype Step =
    | Get(s: nat)                       // tryget_socket*
    | Done(s: nat)                      // done_socket
    | Close(s: nat)                     // the free_socket of lwip_close
    | Take(s: nat, newconn: Netconn)    // one turn of alloc_socket

  datatype Slots = Slots(slots: seq<Slot>, refs: multiset<nat>, detached: seq<Detached>, placed: set<Netconn>) {
    /** What a step does, where it can happen: a reference is only dropped by someone who holds one, only
        an open socket is closed, and a counter at its limit is not counted up. */
    function Next(step: Step): Slots {
      var i := step.s;
      if i >= |slots| then this
      else
        var slot := slots[i];
        match step
        case Get(_) =>
          if slot.fdUsed < 255 && !slot.freePending then
            Slots(slots[i := slot.(fdUsed := slot.fdUsed + 1)], refs + multiset{i}, detached, placed)
          else this
        case Done(_) =>
          if i in refs && slot.fdUsed > 0 then Leave(i, slot.freePending, slot.freeTcp) else this
        case Close(_) =>
          if i in refs && slot.fdUsed > 0 && slot.conn.Some? then Leave(i, true, slot.conn.value.tcp) else this
        case Take(_, newconn) =>
          if newconn !in placed && slot.conn.None? && slot.fdUsed == 0 then
            Slots(slots[i := Slot(Some(newconn), 1, false, slot.freeTcp)], refs + multiset{i}, detached, placed + {newconn})
          else this
    }

    /** A reference to slot i is dropped. The last one takes the netconn along, if the slot is to be freed. */
    function Leave(i: nat, free: bool, isTcp: bool): Slots
      requires i < |slots| && slots[i].fdUsed > 0
    {
      var slot := slots[i];
      if slot.fdUsed > 1 then
        Slots(slots[i := Slot(slot.conn, slot.fdUsed - 1, free, isTcp)], refs - multiset{i}, detached, placed)
      else if free && slot.conn.Some? then
        Slots(slots[i := slot.(fdUsed := 0, conn := None)], refs - multiset{i}, detached + [Detached(slot.conn.value, isTcp)],
          placed)
      else
        Slots(slots[i := slot.(fdUsed := 0)], refs - multiset{i}, detached, placed)
    }

    function After(steps: seq<Step>): Slots
      decreases |steps|
    {
      if steps == [] then this else After(steps[..|steps| - 1]).Next(steps[|steps| - 1])
    }
  }

  /** Where one slot has changed. */
  lemma OneSlot(a: seq<Slot>, b: seq<Slot>, i: nat)
    requires |a| == |b| && i < |a| && forall j | 0 <= j < |a| && j != i :: b[j] == a[j]
    ensures b == a[i := b[i]]
  {
  }

  lemma GetStep(t: Slots, i: nat, b: seq<Slot>)
    requires i < |t.slots| && t.slots[i].fdUsed < 255 && !t.slots[i].freePending
    requires |b| == |t.slots| && b[i] == t.slots[i].(fdUsed := t.slots[i].fdUsed + 1)
    requires forall j | 0 <= j < |b| && j != i :: b[j] == t.slots[j]
    ensures t.Next(Get(i)) == Slots(b, t.refs + multiset{i}, t.detached, t.placed)
  {
    OneSlot(t.slots, b, i);
  }

  lemma DropStep(t: Slots, i: nat, b: seq<Slot>)
    requires i < |t.slots| && i in t.refs && t.slots[i].fdUsed > 0 && !(t.slots[i].fdUsed == 1 && t.slots[i].freePending)
    requires |b| == |t.slots| && b[i] == t.slots[i].(fdUsed := t.slots[i].fdUsed - 1)
    requires forall j | 0 <= j < |b| && j != i :: b[j] == t.slots[j]
    ensures t.Next(Done(i)) == Slots(b, t.refs - multiset{i}, t.detached, t.placed)
  {
    OneSlot(t.slots, b, i);
  }

  lemma DoneIsClose(t: Slots, i: nat)
    requires i < |t.slots| && i in t.refs && t.slots[i].fdUsed > 0 && t.slots[i].freePending && t.slots[i].conn.Some?
    requires t.slots[i].freeTcp == t.slots[i].conn.value.tcp
    ensures t.Next(Done(i)) == t.Next(Close(i))
  {
  }

  lemma CloseStep(t: Slots, i: nat, b: seq<Slot>, detached: seq<Detached>)
    requires i < |t.slots| && i in t.refs && t.slots[i].fdUsed > 0 && t.slots[i].conn.Some? && |b| == |t.slots|
    requires var slot := t.slots[i];
      if slot.fdUsed == 1 then
        b[i] == slot.(fdUsed := 0, conn := None) && detached == t.detached + [Detached(slot.conn.value, slot.conn.value.tcp)]
      else b[i] == Slot(slot.conn, slot.fdUsed - 1, true, slot.conn.value.tcp) && detached == t.detached
    requires forall j | 0 <= j < |b| && j != i :: b[j] == t.slots[j]
    ensures t.Next(Close(i)) == Slots(b, t.refs - multiset{i}, detached, t.placed)
  {
    OneSlot(t.slots, b, i);
  }

  lemma TakeStep(t: Slots, i: nat, newconn: Netconn, b: seq<Slot>)
    requires i < |t.slots| && newconn !in t.placed && t.slots[i].conn.None? && t.slots[i].fdUsed == 0
    requires |b| == |t.slots| && b[i] == Slot(Some(newconn), 1, false, t.slots[i].freeTcp)
    requires forall j | 0 <= j < |b| && j != i :: b[j] == t.slots[j]
    ensures t.Next(Take(i, newconn)) == Slots(b, t.refs + multiset{i}, t.detached, t.placed + {newconn})
  {
    OneSlot(t.slots, b, i);
  }

  /** fd_used counts the references; a slot that waits to be freed is still referenced. */
  ghost predicate SlotValid(s: Slot, held: nat) {
    && s.fdUsed == held
    && (s.freePending && s.conn.Some? ==> held > 0 && s.freeTcp == s.conn.value.tcp)
    && (s.freePending && s.conn.None? ==> held == 0)
  }

  ghost predicate CountsValid(slots: seq<Slot>, refs: multiset<nat>) {
    && (forall i | 0 <= i < |slots| :: SlotValid(slots[i], refs[i]))
    && (forall i | i in refs :: i < |slots|)
  }

  lemma CountAt(slots: seq<Slot>, refs: multiset<nat>, i: nat)
    requires CountsValid(slots, refs)
    ensures i in refs ==> i < |slots|
    ensures i < |slots| ==> SlotValid(slots[i], refs[i])
  {
  }

  lemma CountsChange(a: seq<Slot>, refs: multiset<nat>, b: seq<Slot>, refs': multiset<nat>, i: nat)
    requires CountsValid(a, refs) && i < |a| && |b| == |a| && SlotValid(b[i], refs'[i])
    requires refs' == refs - multiset{i} || refs' == refs + multiset{i}
    requires forall j | 0 <= j < |a| && j != i :: b[j] == a[j]
    ensures CountsValid(b, refs')
  {
  }

  /** The invariant survives a reference that is only counted down. */
  lemma DropKeeps(t: Slots, i: nat, b: seq<Slot>)
    requires CountsValid(t.slots, t.refs) && ConnsValid(t.slots, t.detached, t.placed)
    requires i in t.refs && i < |t.slots| && t.slots[i].fdUsed > 0 && !(t.slots[i].fdUsed == 1 && t.slots[i].freePending)
    requires |b| == |t.slots| && b[i] == t.slots[i].(fdUsed := t.slots[i].fdUsed - 1)
    requires forall j | 0 <= j < |b| && j != i :: b[j] == t.slots[j]
    ensures CountsValid(b, t.refs - multiset{i}) && ConnsValid(b, t.detached, t.placed)
    ensures t.Next(Done(i)) == Slots(b, t.refs - multiset{i}, t.detached, t.placed)
  {
    hide ConnsValid, Slots.Next, CountsValid;
    CountAt(t.slots, t.refs, i);
    SameConns(t.slots, b, t.detached, t.placed);
    CountsChange(t.slots, t.refs, b, t.refs - multiset{i}, i);
    DropStep(t, i, b);
  }

  /** A step that cannot happen. */
  predicate Idle(t: Slots, step: Step) {
    || step.s >= |t.slots|
    || match step {
         case Get(i) => t.slots[i].fdUsed == 255 || t.slots[i].freePending
         case Done(i) => i !in t.refs
         case Close(i) => i !in t.refs || t.slots[i].conn.None?
         case Take(i, newconn) => newconn in t.placed || t.slots[i].conn.Some? || t.slots[i].fdUsed > 0
       }
  }

  lemma IdleStays(t: Slots, step: Step)
    requires Idle(t, step)
    ensures t.Next(step) == t
  {
  }

  class Table {
    var sockets: array<Slot>
    var detached: seq<Detached>         // netconns given to netconn_delete, in order
    var refs: multiset<nat>             // the references threads hold, by slot (not in the source)
    var placed: set<Netconn>            // every netconn that got a slot (not in the source)

    ghost predicate Valid()
      reads this, sockets
    {
      && CountsValid(sockets[..], refs)
      && ConnsValid(sockets[..], detached, placed)
    }

    function Now(): Slots
      reads this, sockets
    {
      Slots(sockets[..], refs, detached, placed)
    }

    constructor (numSockets: nat)
      ensures Now() == Slots(seq(numSockets, _ => FREE_SLOT), multiset{}, [], {})
      ensures Valid() && refs == multiset{} && placed == {} && detached == []
      ensures fresh(sockets) && sockets.Length == numSockets
    {
      sockets := new Slot[numSockets](_ => FREE_SLOT);
      detached, refs, placed := [], multiset{}, {};
    }

    /** A slot that stays referenced keeps its netconn. */
    twostate predicate KeepsReferenced()
      requires old(Valid()) && Valid() && sockets == old(sockets)
      reads this, sockets
    {
      forall s | s in old(refs) && s in refs :: sockets[s].conn == old(sockets[s]).conn
    }

    /** Nothing is detached, or the netconn of slot s by the last reference to it. */
    twostate predicate DetachesAt(s: nat)
      requires old(Valid()) && s < sockets.Length && sockets == old(sockets)
      reads this, sockets
    {
      || detached == old(detached)
      || (old(refs)[s] == 1 && s !in refs && old(sockets[s]).conn.Some? && sockets[s].conn.None?
          && detached == old(detached) + [Detached(old(sockets[s]).conn.value, old(sockets[s]).conn.value.tcp)])
    }

    /** sock_inc_used and sock_inc_used_locked: a reference, unless the slot is to be freed. */
    method SockIncUsed(s: nat) returns (ret: bool)
      requires Valid() && s < sockets.Length && sockets[s].fdUsed < 255
      modifies this`refs, sockets
      ensures Valid() && ret == !old(sockets[s].freePending)
      ensures KeepsReferenced() && Now() == old(Now()).Next(Get(s))
      ensures refs == if ret then old(refs) + multiset{s} else old(refs)
      ensures sockets[s] == if ret then old(sockets[s]).(fdUsed := refs[s]) else old(sockets[s])
      ensures forall i | 0 <= i < sockets.Length && i != s :: sockets[i] == old(sockets[i])
    {
      hide ConnsValid, Slots.Next, CountsValid;
      CountAt(sockets[..], refs, s);
      if sockets[s].freePending {
        ret := false;
        IdleStays(Now(), Get(s));
      } else {
        sockets[s] := sockets[s].(fdUsed := sockets[s].fdUsed + 1);
        refs := refs + multiset{s};
        ret := true;
        SameConns(old(sockets[..]), sockets[..], detached, placed);
        CountsChange(old(sockets[..]), old(refs), sockets[..], refs, s);
        GetStep(old(Now()), s, sockets[..]);
      }
    }

    /** What dropping a reference leaves: the last holder of a slot to be freed detaches the netconn,
        any earlier one only counts down. */
    static ghost function Dropped(slot: Slot): Slot
      requires slot.fdUsed > 0
    {
      var s := slot.(fdUsed := slot.fdUsed - 1);
      if s.fdUsed == 0 && s.freePending then s.(conn := None) else s
    }

    /** free_socket_locked: gives up the caller's reference for good. */
    method FreeSocketLocked(s: nat, isTcp: bool) returns (freed: bool, conn: Option<Netconn>)
      requires s < sockets.Length && sockets[s].fdUsed > 0
      modifies sockets
      ensures freed == (old(sockets[s]).fdUsed == 1)
      ensures conn == if freed then old(sockets[s]).conn else None
      ensures sockets[s] == if freed then old(sockets[s]).(fdUsed := 0, conn := None)
        else old(sockets[s]).(fdUsed := old(sockets[s]).fdUsed - 1, freePending := true, freeTcp := isTcp)
      ensures forall i | 0 <= i < sockets.Length && i != s :: sockets[i] == old(sockets[i])
    {
      sockets[s] := sockets[s].(fdUsed := sockets[s].fdUsed - 1);
      if sockets[s].fdUsed > 0 {
        sockets[s] := sockets[s].(freePending := true, freeTcp := isTcp);
        return false, None;
      }
      conn := sockets[s].conn;
      sockets[s] := sockets[s].(conn := None);
      freed := true;
    }

    /** done_socket: drops the caller's reference; the last one out frees a closed socket. */
    method DoneSocket(s: nat)
      requires Valid() && s in refs
      modifies this`refs, this`detached, sockets
      ensures Valid() && refs == old(refs) - multiset{s}
      ensures KeepsReferenced() && DetachesAt(s) && Now() == old(Now()).Next(Done(s))
      ensures sockets[s] == Dropped(old(sockets[s]))
      ensures forall i | 0 <= i < sockets.Length && i != s :: sockets[i] == old(sockets[i])
      ensures old(sockets[s]).freePending ==> old(sockets[s]).conn.Some?
      ensures detached == old(detached) + if old(refs)[s] == 1 && old(sockets[s]).freePending
        then [Detached(old(sockets[s]).conn.value, old(sockets[s]).conn.value.tcp)] else []
    {
      hide ConnsValid, Slots.Next, CountsValid;
      CountAt(sockets[..], refs, s);
      sockets[s] := sockets[s].(fdUsed := sockets[s].fdUsed - 1);
      if sockets[s].fdUsed == 0 && sockets[s].freePending {
        sockets[s] := sockets[s].(fdUsed := 1);
        assert sockets[..] == old(sockets[..]);
        DoneIsClose(old(Now()), s);
        FreeSocket(s, sockets[s].freeTcp);
        return;
      }
      refs := refs - multiset{s};
      DropKeeps(old(Now()), s, sockets[..]);
    }

    /** free_socket_free_elements, for a netconn that is not null. */
    method FreeElements(isTcp: bool, conn: Option<Netconn>)
      requires conn.Some?
      modifies this`detached
      ensures detached == old(detached) + [Detached(conn.value, isTcp)]
    {
      detached := detached + [Detached(conn.value, isTcp)];
    }

    /** free_socket, at the end of lwip_close: the caller holds a reference to an open socket. */
    method FreeSocket(s: nat, isTcp: bool)
      requires Valid() && s in refs && sockets[s].conn.Some? && isTcp == sockets[s].conn.value.tcp
      modifies this`refs, this`detached, sockets
      ensures Valid() && refs == old(refs) - multiset{s}
      ensures KeepsReferenced() && DetachesAt(s) && Now() == old(Now()).Next(Close(s))
      ensures old(refs)[s] == 1 ==>
        && sockets[s] == old(sockets[s]).(fdUsed := 0, conn := None)
        && detached == old(detached) + [Detached(old(sockets[s]).conn.value, isTcp)]
      ensures old(refs)[s] > 1 ==> sockets[s] == Slot(old(sockets[s]).conn, refs[s], true, isTcp) && detached == old(detached)
      ensures forall i | 0 <= i < sockets.Length && i != s :: sockets[i] == old(sockets[i])
    {
      hide ConnsValid, Slots.Next, CountsValid;
      CountAt(sockets[..], refs, s);
      var freed, conn := FreeSocketLocked(s, isTcp);
      refs := refs - multiset{s};
      if freed {
        MoveOut(old(sockets[..]), sockets[..], s, detached, placed);
        FreeElements(isTcp, conn);
      } else {
        SameConns(old(sockets[..]), sockets[..], detached, placed);
      }
      CountsChange(old(sockets[..]), old(refs), sockets[..], refs, s);
      CloseStep(old(Now()), s, sockets[..], detached);
    }

    /** A slot alloc_socket may take: no netconn and nobody looking at it. */
    predicate Available(i: nat)
      requires i < sockets.Length
      reads this, sockets
    {
      sockets[i].conn.None? && sockets[i].fdUsed == 0
    }

    /** One turn of alloc_socket's loop: takes slot i if it is free, with a first reference. */
    method TakeSlot(i: nat, newconn: Netconn) returns (taken: bool)
      requires Valid() && i < sockets.Length && newconn !in placed
      modifies this`refs, this`placed, sockets
      ensures Valid() && taken == old(Available(i))
      ensures KeepsReferenced() && Now() == old(Now()).Next(Take(i, newconn))
      ensures taken ==> i !in old(refs) && placed == old(placed) + {newconn} && refs == old(refs) + multiset{i}
      ensures !taken ==> placed == old(placed) && refs == old(refs)
      ensures sockets[i] == if taken then Slot(Some(newconn), 1, false, old(sockets[i]).freeTcp) else old(sockets[i])
      ensures forall j | 0 <= j < sockets.Length && j != i :: sockets[j] == old(sockets[j])
    {
      hide ConnsValid, Slots.Next, CountsValid;
      CountAt(sockets[..], refs, i);
      taken := false;
      if !Available(i) {
        IdleStays(Now(), Take(i, newconn));
      }
      if sockets[i].conn.None? {
        if sockets[i].fdUsed != 0 {
          return;
        }
        sockets[i] := sockets[i].(fdUsed := 1, freePending := false);
        sockets[i] := sockets[i].(conn := Some(newconn));
        refs := refs + multiset{i};
        MoveIn(old(sockets[..]), sockets[..], i, newconn, detached, placed);
        placed := placed + {newconn};
        CountsChange(old(sockets[..]), old(refs), sockets[..], refs, i);
        TakeStep(old(Now()), i, newconn, sockets[..]);
        taken := true;
      }
    }

    /** alloc_socket, when no other thread runs in between: the first free slot, or -1. */
    method AllocSocket(newconn: Netconn) returns (fd: int)
      requires Valid() && newconn !in placed
      modifies this`refs, this`placed, sockets
      ensures Valid() && -1 <= fd < sockets.Length
      ensures fd == -1 ==> forall i | 0 <= i < sockets.Length :: !old(Available(i))
      ensures fd >= 0 ==> old(Available(fd)) && (forall i | 0 <= i < fd :: !old(Available(i)))
      ensures fd >= 0 ==>
        && placed == old(placed) + {newconn} && refs == old(refs) + multiset{fd}
        && sockets[fd] == Slot(Some(newconn), 1, false, old(sockets[fd]).freeTcp)
      ensures fd == -1 ==> placed == old(placed) && refs == old(refs)
      ensures forall i | 0 <= i < sockets.Length && i != fd :: sockets[i] == old(sockets[i])
    {
      for i := 0 to sockets.Length
        invariant Valid() && newconn !in placed
        invariant placed == old(placed) && refs == old(refs)
        invariant forall j | 0 <= j < sockets.Length :: sockets[j] == old(sockets[j])
        invariant forall j | 0 <= j < i :: !old(Available(j))
      {
        var taken := TakeSlot(i, newconn);
        if taken {
          return i;
        }
      }
      return -1;
    }
  }

  // ---- Runs ----

  /** One step of any thread. While a slot stays referenced its netconn stays; a netconn is only
      detached by the last reference; only unreferenced slots are taken. */
  method Perform(t: Table, step: Step)
    requires t.Valid()
    modifies t`refs, t`placed, t`detached, t.sockets
    ensures t.Valid() && t.Now() == old(t.Now()).Next(step)
    ensures t.KeepsReferenced()
    ensures step.s < t.sockets.Length ==> t.DetachesAt(step.s)
    ensures t.detached != old(t.detached) ==> step.s < t.sockets.Length && (step.Done? || step.Close?)
    ensures t.placed != old(t.placed) ==>
      && step.Take? && t.placed == old(t.placed) + {step.newconn} && step.s !in old(t.refs)
  {
    hide ConnsValid, CountsValid, Slots.Next, Table.Dropped;
    CountAt(t.sockets[..], t.refs, step.s);
    if Idle(t.Now(), step) {
      IdleStays(t.Now(), step);
      return;
    }
    match step
    case Get(s) => var _ := t.SockIncUsed(s);
    case Done(s) => t.DoneSocket(s);
    case Close(s) => t.FreeSocket(s, t.sockets[s].conn.value.tcp);
    case Take(s, newconn) => var _ := t.TakeSlot(s, newconn);
  }

  /** Some steps, of any threads in any order. */
  method PerformAll(t: Table, steps: seq<Step>)
    requires t.Valid()
    modifies t`refs, t`placed, t`detached, t.sockets
    ensures t.Valid() && t.Now() == old(t.Now()).After(steps)
  {
    hide ConnsValid, CountsValid, Slots.Next;
    ghost var start := t.Now();
    assert steps[..0] == [];
    for i := 0 to |steps|
      invariant t.Valid() && t.Now() == start.After(steps[..i])
    {
      Perform(t, steps[i]);
      assert steps[..i + 1][..i] == steps[..i];
    }
    assert steps[..|steps|] == steps;
  }

  /** Every interleaving of get, done, close and alloc from an empty table comes to the state that its
      steps say, in which fd_used is the number of references held, and each netconn placed is in one
      slot or has been detached exactly once. */
  method Run(numSockets: nat, steps: seq<Step>) returns (t: Table)
    ensures t.Valid()
    ensures t.Now() == Slots(seq(numSockets, _ => FREE_SLOT), multiset{}, [], {}).After(steps)
  {
    t := new Table(numSockets);
    PerformAll(t, steps);
  }

  // ---- alloc_socket among other threads ----

  /** The table after n turns of alloc_socket, each after what other threads do before it. */
  function AfterTurns(t: Slots, newconn: Netconn, others: seq<seq<Step>>, n: nat): Slots
    requires n <= |others|
    decreases n, 0
  {
    if n == 0 then t else AtTurn(t, newconn, others, n - 1).Next(Take(n - 1, newconn))
  }

  /** The table when turn n comes. */
  function AtTurn(t: Slots, newconn: Netconn, others: seq<seq<Step>>, n: nat): Slots
    requires n < |others|
    decreases n, 1
  {
    AfterTurns(t, newconn, others, n).After(others[n])
  }

  /** alloc_socket while other threads run between the turns of its loop: it takes the first slot that is free
      when its turn comes, and gives up when none is. */
  method AllocAmong(t: Table, newconn: Netconn, others: seq<seq<Step>>) returns (fd: int)
    requires t.Valid() && |others| == t.sockets.Length
    modifies t`refs, t`placed, t`detached, t.sockets
    ensures t.Valid() && -1 <= fd < t.sockets.Length
    ensures t.Now() == AfterTurns(old(t.Now()), newconn, others, if fd >= 0 then fd + 1 else t.sockets.Length)
    ensures forall i | 0 <= i < (if fd >= 0 then fd else t.sockets.Length) ::
      Idle(AtTurn(old(t.Now()), newconn, others, i), Take(i, newconn))
    ensures fd >= 0 ==> !Idle(AtTurn(old(t.Now()), newconn, others, fd), Take(fd, newconn))
    ensures fd >= 0 ==> t.sockets[fd].conn == Some(newconn) && t.refs[fd] == 1
  {
    hide ConnsValid, CountsValid, Slots.Next, Slots.After, Idle;
    ghost var start := t.Now();
    var i := 0;
    while i < t.sockets.Length
      invariant i <= t.sockets.Length && t.Valid()
      invariant t.Now() == AfterTurns(start, newconn, others, i)
      invariant forall k | 0 <= k < i :: Idle(AtTurn(start, newconn, others, k), Take(k, newconn))
    {
      PerformAll(t, others[i]);
      var taken := !Idle(t.Now(), Take(i, newconn));
      if taken {
        CanTake(t, i, newconn);
      }
      Perform(t, Take(i, newconn));
      if taken {
        return i;
      }
      i := i + 1;
    }
    fd := -1;
  }

  lemma CanTake(t: Table, i: nat, newconn: Netconn)
    requires t.Valid() && i < t.sockets.Length && !Idle(t.Now(), Take(i, newconn))
    ensures var s := t.Now().Next(Take(i, newconn)); i < |s.slots| && s.slots[i].conn == Some(newconn) && s.refs[i] == 1
  {
    CountAt(t.sockets[..], t.refs, i);
  }
}
