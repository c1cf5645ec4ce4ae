/**
 The registry as the firmware keeps it: one array of slots, updated in place.  A method that leaves
 the callback enabled takes, for each point where it can be interrupted, the callback runs that
 happen there; its contract says which run of the SlotMachine the call amounts to.
 */
module UdpSource {
  import opened Words
  import opened Registry
  import opened SlotMachine

  // ---------------------------------------------------------------------------------------------
  // Calls as event sequences

  function Arrivals(ds: seq<Delivery>): seq<Event> { seq(|ds|, i requires 0 <= i < |ds| => Deliver(ds[i])) }

  function AllDelivered(s: Slots, ds: seq<Delivery>): Slots {
    if ds == [] then s else Delivered(AllDelivered(s, ds[..|ds| - 1]), ds[|ds| - 1])
  }

  lemma {:induction false} ArrivalsRun(st: State, ds: seq<Delivery>)
    ensures Run(st, Arrivals(ds)) == st.(slots := AllDelivered(st.slots, ds))
  {
    if ds != [] {
      ArrivalsRun(st, ds[..|ds| - 1]);
      assert Arrivals(ds)[..|ds| - 1] == Arrivals(ds[..|ds| - 1]);
    }
  }

  /** No callback run changes who owns what. */
  lemma {:induction false} ArrivalsKeepShape(s: Slots, ds: seq<Delivery>)
    ensures Shape(AllDelivered(s, ds)) == Shape(s)
  {
    if ds != [] {
      ArrivalsKeepShape(s, ds[..|ds| - 1]);
    }
  }

  const OPEN_STORES: nat := 6

  /** The stores of an open from the k-th on, each preceded by the callback runs irq(k). */
  function StoreEvents(irq: nat -> seq<Delivery>, k: nat): seq<Event>
    decreases OPEN_STORES - k
  {
    if k >= OPEN_STORES then [] else Arrivals(irq(k)) + [Store] + StoreEvents(irq, k + 1)
  }

  function OpenEvents(st: State, owner: NetifPtr, want: Pcb, env: OpenEnv, irq: nat -> seq<Delivery>): seq<Event> {
    [BeginOpen(owner, want, env)]
    + if PlanOpen(Shape(st.slots), st.others, owner, want, env).Accepted? then StoreEvents(irq, 0) else []
  }

  function PollEvents(id: Word16, irq: seq<Delivery>): seq<Event> { [BeginPoll(id)] + Arrivals(irq) + [ReadBox] }

  function CloseEvents(id: Word16, irq: seq<Delivery>): seq<Event> { [BeginClose(id)] + Arrivals(irq) + [FreeSlot] }

  lemma RunOne(st: State, ev: Event, rest: seq<Event>)
    ensures Run(st, [ev] + rest) == Run(Next(st, ev).0, rest)
  {
    RunAppend(st, [ev], rest);
    assert [ev][..0] == [];
  }

  lemma RunArrivalsThen(st: State, ds: seq<Delivery>, ev: Event, rest: seq<Event>)
    ensures Run(st, Arrivals(ds) + [ev] + rest) == Run(Next(st.(slots := AllDelivered(st.slots, ds)), ev).0, rest)
  {
    assert Arrivals(ds) + [ev] + rest == Arrivals(ds) + ([ev] + rest);
    RunAppend(st, Arrivals(ds), [ev] + rest);
    ArrivalsRun(st, ds);
    RunOne(st.(slots := AllDelivered(st.slots, ds)), ev, rest);
  }

  /** One interrupted store of an open. */
  function Stored(st: State, ds: seq<Delivery>): State
    requires st.pc.Opening?
  {
    StoreField(st.(slots := AllDelivered(st.slots, ds))).0
  }

  lemma OpenEventsRun(st: State, owner: NetifPtr, want: Pcb, env: OpenEnv, irq: nat -> seq<Delivery>)
    requires st.pc.Idle?
    ensures var plan := PlanOpen(Shape(st.slots), st.others, owner, want, env);
            Run(st, OpenEvents(st, owner, want, env, irq)) ==
            if plan.Refused? then st
            else Run(st.(pc := Opening(plan.slot, 0, plan.pcb, owner)), StoreEvents(irq, 0))
  {
    var events := OpenEvents(st, owner, want, env, irq);
    RunOne(st, events[0], events[1..]);
  }

  /** What the first k stores of an open have done to the ownership view. */
  function PartlyOpened(es: Entries, i: SlotIndex, k: nat, pcb: Pcb, owner: NetifPtr): Entries {
    es[i := Entry(if k >= 1 then Some(pcb) else es[i].pcb, if k >= 2 then owner else es[i].owner,
                  es[i].gen, k >= 3 || es[i].inUse)]
  }

  lemma StoredShape(es: Entries, st: State, i: SlotIndex, k: nat, pcb: Pcb, owner: NetifPtr, ds: seq<Delivery>)
    requires k < OPEN_STORES && st.pc == Opening(i, k, pcb, owner) && Shape(st.slots) == PartlyOpened(es, i, k, pcb, owner)
    ensures var st' := Stored(st, ds);
            && Shape(st'.slots) == PartlyOpened(es, i, k + 1, pcb, owner)
            && st'.others == st.others
            && st'.pc == if k < 5 then Opening(i, k + 1, pcb, owner) else Idle
  {
    ArrivalsKeepShape(st.slots, ds);
    var st' := Stored(st, ds);
    var slots := AllDelivered(st.slots, ds);
    assert forall j :: 0 <= j < MAX_LISTENERS ==> slots[j].entry == Shape(slots)[j];
    assert forall j :: 0 <= j < MAX_LISTENERS && j != i ==> st'.slots[j] == slots[j];
    assert Shape(st'.slots) == PartlyOpened(es, i, k + 1, pcb, owner);
  }

  lemma StoreEventsStep(st: State, irq: nat -> seq<Delivery>, k: nat)
    requires st.pc.Opening? && k < OPEN_STORES
    ensures Run(st, StoreEvents(irq, k)) == Run(Stored(st, irq(k)), StoreEvents(irq, k + 1))
  {
    RunArrivalsThen(st, irq(k), Store, StoreEvents(irq, k + 1));
  }

  /** The stores of an open from the k-th up to the one numbered `to`, as one function of the state. */
  function Stores(st: State, irq: nat -> seq<Delivery>, k: nat, to: nat): State
    decreases to - k
  {
    if k >= to || !st.pc.Opening? then st else Stores(Stored(st, irq(k)), irq, k + 1, to)
  }

  lemma StoredPc(st: State, i: SlotIndex, k: nat, pcb: Pcb, owner: NetifPtr, ds: seq<Delivery>)
    requires k < OPEN_STORES && st.pc == Opening(i, k, pcb, owner)
    ensures Stored(st, ds).pc == if k < 5 then Opening(i, k + 1, pcb, owner) else Idle
  {
  }

  lemma {:induction false} StoreEventsAre(st: State, i: SlotIndex, k: nat, pcb: Pcb, owner: NetifPtr, irq: nat -> seq<Delivery>)
    requires k < OPEN_STORES && st.pc == Opening(i, k, pcb, owner)
    ensures Run(st, StoreEvents(irq, k)) == Stores(st, irq, k, OPEN_STORES)
    decreases OPEN_STORES - k
  {
    StoreEventsStep(st, irq, k);
    StoredPc(st, i, k, pcb, owner, irq(k));
    if k + 1 < OPEN_STORES {
      StoreEventsAre(Stored(st, irq(k)), i, k + 1, pcb, owner, irq);
    }
  }

  lemma {:induction false} StoresSplit(st: State, irq: nat -> seq<Delivery>, k: nat, mid: nat, to: nat)
    requires k <= mid <= to
    ensures Stores(Stores(st, irq, k, mid), irq, mid, to) == Stores(st, irq, k, to)
    decreases mid - k
  {
    if k < mid && st.pc.Opening? {
      StoresSplit(Stored(st, irq(k)), irq, k + 1, mid, to);
    }
  }

  lemma AllStored(es: Entries, i: SlotIndex, pcb: Pcb, owner: NetifPtr, irq: nat -> seq<Delivery>)
    ensures PartlyOpened(es, i, OPEN_STORES, pcb, owner) == Opened(es, i, owner, pcb)
    ensures StoreEvents(irq, OPEN_STORES) == []
  {
  }

  /** However an open is interrupted, the ownership view ends up as if it had run in one step. */
  lemma {:induction false} StoresOpen(es: Entries, st: State, i: SlotIndex, k: nat, pcb: Pcb, owner: NetifPtr,
                                      irq: nat -> seq<Delivery>)
    requires k < OPEN_STORES && st.pc == Opening(i, k, pcb, owner) && Shape(st.slots) == PartlyOpened(es, i, k, pcb, owner)
    ensures var st' := Run(st, StoreEvents(irq, k));
            st'.pc.Idle? && st'.others == st.others && Shape(st'.slots) == Opened(es, i, owner, pcb)
    decreases OPEN_STORES - k
  {
    StoreEventsStep(st, irq, k);
    StoredShape(es, st, i, k, pcb, owner, irq(k));
    var st1 := Stored(st, irq(k));
    if k + 1 < OPEN_STORES {
      StoresOpen(es, st1, i, k + 1, pcb, owner, irq);
    } else {
      assert Run(st, StoreEvents(irq, k)) == Run(st1, StoreEvents(irq, OPEN_STORES));
      AllStored(es, i, pcb, owner, irq);
    }
  }

  lemma OpenIsOneStepForOwners(st: State, owner: NetifPtr, want: Pcb, env: OpenEnv, irq: nat -> seq<Delivery>)
    requires st.pc.Idle?
    ensures var st' := Run(st, OpenEvents(st, owner, want, env, irq));
            st'.pc.Idle? && Shape(st'.slots) == Open(Shape(st.slots), st.others, owner, want, env)
  {
    OpenEventsRun(st, owner, want, env, irq);
    match PlanOpen(Shape(st.slots), st.others, owner, want, env)
    case Refused(_) =>
    case Accepted(i, pcb) =>
      var st1 := st.(pc := Opening(i, 0, pcb, owner));
      assert Shape(st1.slots) == PartlyOpened(Shape(st.slots), i, 0, pcb, owner);
      StoresOpen(Shape(st.slots), st1, i, 0, pcb, owner, irq);
  }

  // ---------------------------------------------------------------------------------------------
  // s_listeners and the functions that work on it

  class SocketRegistry {
    const listeners: array<Slot>
    var others: seq<Pcb>  // pcbs of the stack that are not in the registry

    ghost predicate Valid() reads this { listeners.Length == MAX_LISTENERS }

    ghost function View(): State
      requires Valid()
      reads this, listeners
    {
      State(listeners[..], others, Idle)
    }

    ghost function Owners(): Entries
      requires Valid()
      reads this, listeners
    {
      Shape(listeners[..])
    }

    constructor (others: seq<Pcb>)
      ensures Valid() && fresh(listeners) && View() == Boot(others)
    {
      listeners := new Slot[MAX_LISTENERS](_ => ZERO_SLOT);
      this.others := others;
    }

    /** udp_rx_callback */
    method Callback(d: Delivery)
      requires Valid()
      modifies listeners
      ensures listeners[..] == Delivered(old(listeners[..]), d)
    {
      var idx := d.slot;
      if !(idx < MAX_LISTENERS && listeners[idx].entry.inUse) { return; }
      if d.packet.None? { return; }
      var s, p := listeners[idx], d.packet.value;
      if s.box.valid {
        listeners[idx] := s.(rxDrop := Inc32(s.rxDrop));
      } else {
        var copyLen := |p.payload|;
        if copyLen > RX_BUF_SIZE {
          copyLen := RX_BUF_SIZE;
        }
        var data := p.payload[..copyLen] + s.box.data[copyLen..];
        listeners[idx] := s.(box := Box(p.srcIp, p.srcPort, data, copyLen, true));
      }
    }

    /** The callback runs that happen at one point of the main loop. */
    method Interrupts(ds: seq<Delivery>)
      requires Valid()
      modifies listeners
      ensures listeners[..] == AllDelivered(old(listeners[..]), ds)
    {
      for k := 0 to |ds|
        invariant listeners[..] == AllDelivered(old(listeners[..]), ds[..k])
      {
        assert ds[..k + 1][..|ds[..k + 1]| - 1] == ds[..k];
        Callback(ds[k]);
      }
      assert ds[..|ds|] == ds;
    }

    /** udp_source_add_listener; irq(k) are the callback runs before the k-th store. */
    method AddListener(owner: NetifPtr, want: Pcb, env: OpenEnv, irq: nat -> seq<Delivery>)
      returns (err: Err, id: Word16)
      requires Valid()
      modifies listeners
      ensures View() == Run(old(View()), OpenEvents(old(View()), owner, want, env, irq))
      ensures Owners() == Open(old(Owners()), others, owner, want, env)
      ensures OpenOutcome(old(Owners()), others, owner, want, env, Owners(), err, id)
    {
      err, id := ScanAndOpen(owner, want, env, irq);
      PlanHasOutcome(old(Owners()), others, owner, want, env, err, id);
    }

    method ScanAndOpen(owner: NetifPtr, want: Pcb, env: OpenEnv, irq: nat -> seq<Delivery>)
      returns (err: Err, id: Word16)
      requires Valid()
      modifies listeners
      ensures View() == Run(old(View()), OpenEvents(old(View()), owner, want, env, irq))
      ensures Owners() == Open(old(Owners()), others, owner, want, env)
      ensures match PlanOpen(old(Owners()), others, owner, want, env)
              case Refused(e) => err == e
              case Accepted(i, _) => err == ERR_OK && id == MakeId(Owners(), i)
    {
      id := ID_INVALID;
      OpenIsOneStepForOwners(View(), owner, want, env, irq);
      OpenEventsRun(View(), owner, want, env, irq);
      if owner == NULL { return ERR_VAL, id; }
      var idx := 0;
      while idx < MAX_LISTENERS
        invariant 0 <= idx <= MAX_LISTENERS
        invariant forall j :: 0 <= j < idx ==> listeners[j].entry.inUse
        invariant listeners[..] == old(listeners[..])
      {
        if !listeners[idx].entry.inUse {
          FirstFreeIs(Owners(), idx);
          if !env.pcbLeft { return ERR_MEM, id; }
          var bound := Bind(Shape(listeners[..]), others, MAX_LISTENERS, want, env.newPort);
          if bound.None? { return ERR_USE, id; }
          ghost var begun := View().(pc := Opening(idx, 0, bound.value, owner));
          StoreEventsAre(begun, idx, 0, bound.value, owner, irq);
          StoresSplit(begun, irq, 0, 3, OPEN_STORES);
          PlacePcb(idx, bound.value, owner, irq);
          ResetCounters(idx, bound.value, owner, irq);
          id := listeners[idx].entry.gen * 0x100 + idx;
          return ERR_OK, id;
        }
        idx := idx + 1;
      }
      return ERR_MEM, id;
    }

    /** The first three stores of udp_source_add_listener, outside any critical section. */
    method PlacePcb(i: SlotIndex, pcb: Pcb, owner: NetifPtr, irq: nat -> seq<Delivery>)
      requires Valid()
      modifies listeners
      ensures var st := old(View()).(pc := Opening(i, 0, pcb, owner));
              View().(pc := Opening(i, 3, pcb, owner)) == Stores(st, irq, 0, 3)
    {
      Interrupts(irq(0));
      listeners[i] := listeners[i].(entry := listeners[i].entry.(pcb := Some(pcb)));
      Interrupts(irq(1));
      listeners[i] := listeners[i].(entry := listeners[i].entry.(owner := owner));
      Interrupts(irq(2));
      listeners[i] := listeners[i].(entry := listeners[i].entry.(inUse := true));
    }

    /** Its last three stores; from here on packets are accepted. */
    method ResetCounters(i: SlotIndex, pcb: Pcb, owner: NetifPtr, irq: nat -> seq<Delivery>)
      requires Valid()
      modifies listeners
      ensures var st := old(View()).(pc := Opening(i, 3, pcb, owner));
              View() == Stores(st, irq, 3, OPEN_STORES)
    {
      Interrupts(irq(3));
      listeners[i] := listeners[i].(rxCount := 0);
      Interrupts(irq(4));
      listeners[i] := listeners[i].(rxDrop := 0);
      Interrupts(irq(5));
      listeners[i] := listeners[i].(box := listeners[i].box.(valid := false));
    }

    /** remove_slot, always called inside a critical section */
    method RemoveSlot(i: SlotIndex)
      requires Valid()
      modifies listeners
      ensures listeners[..] == old(listeners[..])[i := Emptied(old(listeners[i]))]
    {
      var s := listeners[i];
      if s.entry.pcb != None {
        s := s.(entry := s.entry.(pcb := None));
      }
      s := s.(box := s.box.(valid := false));
      s := s.(entry := s.entry.(inUse := false));
      s := s.(entry := s.entry.(gen := Inc8(s.entry.gen)));
      listeners[i] := s;
    }

    method ResolveId(id: Word16) returns (idx: Option<SlotIndex>)
      requires Valid()
      ensures idx == Resolve(Owners(), id)
    {
      var i, gen := id % 0x100, id / 0x100;
      if i >= MAX_LISTENERS || !listeners[i].entry.inUse || gen != listeners[i].entry.gen { return None; }
      return Some(i);
    }

    /** udp_source_remove_listener; irq are the callback runs between the check and the close. */
    method RemoveListener(id: Word16, irq: seq<Delivery>)
      requires Valid()
      modifies listeners
      ensures Resolve(old(Owners()), id).Some? ==> View() == Run(old(View()), CloseEvents(id, irq))
      ensures Resolve(old(Owners()), id).None? ==> View() == old(View())
      ensures Owners() == CloseId(old(Owners()), id)
    {
      var idx := ResolveId(id);
      if idx.None? { return; }
      ghost var st := View();
      RunOne(st, BeginClose(id), Arrivals(irq) + [FreeSlot]);
      assert CloseEvents(id, irq) == [BeginClose(id)] + (Arrivals(irq) + [FreeSlot]);
      RunArrivalsThen(Next(st, BeginClose(id)).0, irq, FreeSlot, []);
      assert Arrivals(irq) + [FreeSlot] + [] == Arrivals(irq) + [FreeSlot];
      ArrivalsKeepShape(st.slots, irq);
      Interrupts(irq);
      RemoveSlot(idx.value);
      assert Owners() == Close(old(Owners()), idx.value);
    }

    /** udp_source_remove_all_on_netif */
    method RemoveAllOnNetif(n: NetifPtr)
      requires Valid()
      modifies listeners
      ensures View() == Run(old(View()), [FreeAll(n)])
      ensures Owners() == CloseAll(old(Owners()), n)
    {
      RunOne(View(), FreeAll(n), []);
      assert [FreeAll(n)] + [] == [FreeAll(n)];
      if n != NULL {
        for idx := 0 to MAX_LISTENERS
          invariant forall j :: idx <= j < MAX_LISTENERS ==> listeners[j] == old(listeners[j])
          invariant forall j :: 0 <= j < idx ==>
                      listeners[j] == if Owns(old(Owners()), n, j) then Emptied(old(listeners[j])) else old(listeners[j])
        {
          if listeners[idx].entry.owner == n && listeners[idx].entry.inUse {
            RemoveSlot(idx);
          }
        }
      }
      assert listeners[..] == Next(old(View()), FreeAll(n)).0.slots;
      assert Owners() == CloseAll(old(Owners()), n);
    }

    /** udp_source_netif_ip_changed */
    method NetifIpChanged(n: NetifPtr, ip: Word32)
      requires Valid()
      modifies listeners
      ensures View() == Run(old(View()), [Rebind(n, ip)])
      ensures Owners() == RebindFrom(old(Owners()), others, n, ip, 0)
    {
      RunOne(View(), Rebind(n, ip), []);
      assert [Rebind(n, ip)] + [] == [Rebind(n, ip)];
      for idx := 0 to MAX_LISTENERS
        invariant forall j :: 0 <= j < MAX_LISTENERS ==> listeners[j] == old(listeners[j]).(entry := listeners[j].entry)
        invariant RebindFrom(old(Owners()), others, n, ip, 0) == RebindFrom(Owners(), others, n, ip, idx)
      {
        ghost var es := Owners();
        var e := listeners[idx].entry;
        if n != NULL && e.inUse && e.owner == n && e.pcb.Some? {
          var bound := Bind(Shape(listeners[..]), others, idx, Pcb(ip, e.pcb.value.port), 0);
          if bound.Some? {
            listeners[idx] := listeners[idx].(entry := e.(pcb := bound));
          }
        }
        assert Owners() == RebindOne(es, others, n, ip, idx);
      }
      assert listeners[..] == WithEntries(old(listeners[..]), Owners());
    }

    /** udp_source_poll_rx; irq are the callback runs between the check and the read. */
    method PollRx(id: Word16, irq: seq<Delivery>) returns (msg: Option<Message>)
      requires Valid()
      modifies listeners
      ensures Resolve(old(Owners()), id).None? ==> msg == None && View() == old(View())
      ensures Resolve(old(Owners()), id).Some? ==>
                var polling := Run(old(View()), [BeginPoll(id)] + Arrivals(irq));
                && View() == Run(old(View()), PollEvents(id, irq))
                && polling.pc == Polling(Resolve(old(Owners()), id).value)
                && match msg
                   case None => Next(polling, ReadBox).1 == Quiet
                   case Some(m) => Next(polling, ReadBox).1 == Taken(polling.pc.slot, m)
    {
      var idx := ResolveId(id);
      if idx.None? { return None; }
      ghost var st := View();
      RunOne(st, BeginPoll(id), Arrivals(irq));
      ArrivalsRun(Next(st, BeginPoll(id)).0, irq);
      RunAppend(st, [BeginPoll(id)] + Arrivals(irq), [ReadBox]);
      RunOne(Run(st, [BeginPoll(id)] + Arrivals(irq)), ReadBox, []);
      assert [ReadBox] + [] == [ReadBox];
      Interrupts(irq);
      var s := listeners[idx.value];
      if !s.box.valid {
        msg := None;
      } else {
        msg := Some(Shown(s.box));
        listeners[idx.value] := s.(box := s.box.(valid := false), rxCount := Inc32(s.rxCount));
      }
    }

    /** udp_source_count_sockets */
    method CountSockets(n: NetifPtr) returns (count: nat)
      requires Valid()
      ensures count == |Sockets(Owners(), n)|
    {
      count := 0;
      if n == NULL {
        NothingOwned(Owners(), n, 0, MAX_LISTENERS);
        return;
      }
      for idx := 0 to MAX_LISTENERS
        invariant count == |SocketsIn(Owners(), n, 0, idx)|
      {
        if listeners[idx].entry.owner == n && listeners[idx].entry.inUse {
          count := count + 1;
        }
      }
    }

    /** udp_source_get_socket: the owner, port and id found, or (NULL, 0, invalid) */
    method GetSocket(n: NetifPtr, nth: nat) returns (netif: NetifPtr, port: Word16, id: Word16)
      requires Valid()
      requires forall i :: 0 <= i < MAX_LISTENERS && Owns(Owners(), n, i) ==> Owners()[i].pcb.Some?
      ensures nth < |Sockets(Owners(), n)| ==>
                var i := Sockets(Owners(), n)[nth];
                && i < MAX_LISTENERS && Owns(Owners(), n, i)
                && netif == n && port == Owners()[i].pcb.value.port && id == MakeId(Owners(), i)
                && Resolve(Owners(), id) == Some(i)
      ensures nth >= |Sockets(Owners(), n)| ==> netif == NULL && port == 0 && id == ID_INVALID
    {
      ghost var es := Owners();
      netif, port, id := NULL, 0, ID_INVALID;
      if n == NULL {
        NothingOwned(es, n, 0, MAX_LISTENERS);
        return;
      }
      var count := 0;
      for idx := 0 to MAX_LISTENERS
        invariant count == |SocketsIn(es, n, 0, idx)| && count <= nth
      {
        if listeners[idx].entry.owner == n && listeners[idx].entry.inUse {
          if nth == count {
            assert Owns(es, n, idx);
            SocketsAt(es, n, idx);
            ResolveMakeId(es, es, idx, idx);
            netif, port, id := n, listeners[idx].entry.pcb.value.port, listeners[idx].entry.gen * 0x100 + idx;
            return;
          }
          count := count + 1;
        }
      }
    }

    /** udp_source_get_local_port: 0 for an id that does not resolve */
    method GetLocalPort(id: Word16) returns (port: Word16)
      requires Valid()
      requires forall i :: 0 <= i < MAX_LISTENERS && Owners()[i].inUse ==> Owners()[i].pcb.Some?
      ensures match Resolve(Owners(), id)
              case None => port == 0
              case Some(i) => port == Owners()[i].pcb.value.port
    {
      var idx := ResolveId(id);
      if idx.None? { return 0; }
      assert Owners()[idx.value].inUse;
      return listeners[idx.value].entry.pcb.value.port;
    }
  }
}
