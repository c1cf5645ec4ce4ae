/**
 The registry under interrupts.  The main loop advances one indivisible step at a time: a step is
 either one store of an unprotected section or one whole SYS_ARCH_PROTECT section.  The receive
 callback may run, to completion, between any two steps.  A run is a sequence of such events, its
 trace is what an outside observer sees, and the theorems relate the slots to the trace.
 */
module SlotMachine {
  import opened Words
  import opened Registry

  const RX_BUF_SIZE: nat := 256

  type SlotIndex = x: int | 0 <= x < MAX_LISTENERS
  type Buffer = b: seq<Byte> | |b| == RX_BUF_SIZE witness seq(RX_BUF_SIZE, _ => 0)
  type Length = x: int | 0 <= x <= RX_BUF_SIZE

  datatype Packet = Packet(srcIp: Word32, srcPort: Word16, payload: seq<Byte>)
  datatype Message = Message(srcIp: Word32, srcPort: Word16, data: seq<Byte>)
  datatype Box = Box(srcIp: Word32, srcPort: Word16, data: Buffer, dataLen: Length, valid: bool)
  datatype Slot = Slot(entry: Entry, box: Box, rxCount: Word32, rxDrop: Word32)

  type Slots = s: seq<Slot> | |s| == MAX_LISTENERS witness seq(MAX_LISTENERS, _ => ZERO_SLOT)

  const ZERO_BOX := Box(0, 0, seq(RX_BUF_SIZE, _ => 0), 0, false)
  const ZERO_SLOT := Slot(EMPTY_ENTRY, ZERO_BOX, 0, 0)

  function Shape(s: Slots): Entries { seq(MAX_LISTENERS, i requires 0 <= i < MAX_LISTENERS => s[i].entry) }

  /** What a reader of the box sees: data beyond dataLen is stale and not part of the message. */
  function Shown(b: Box): Message { Message(b.srcIp, b.srcPort, b.data[..b.dataLen]) }

  /** The message a packet should become. */
  function Copied(p: Packet): Message {
    Message(p.srcIp, p.srcPort, if |p.payload| > RX_BUF_SIZE then p.payload[..RX_BUF_SIZE] else p.payload)
  }

  // ---------------------------------------------------------------------------------------------
  // The callback

  // One run of udp_rx_callback: the slot number it was registered with, and the pbuf (or NULL).
  datatype Delivery = Delivery(slot: nat, packet: Option<Packet>)

  predicate Reaches(s: Slots, d: Delivery) {
    d.slot < MAX_LISTENERS && s[d.slot].entry.inUse && d.packet.Some?
  }

  function Filled(b: Box, p: Packet): Box {
    var n := if |p.payload| > RX_BUF_SIZE then RX_BUF_SIZE else |p.payload|;
    Box(p.srcIp, p.srcPort, p.payload[..n] + b.data[n..], n, true)
  }

  function Delivered(s: Slots, d: Delivery): Slots {
    if !Reaches(s, d) then s
    else if s[d.slot].box.valid then s[d.slot := s[d.slot].(rxDrop := Inc32(s[d.slot].rxDrop))]
    else s[d.slot := s[d.slot].(box := Filled(s[d.slot].box, d.packet.value))]
  }

  // ---------------------------------------------------------------------------------------------
  // The main loop

  datatype Pc =
    | Idle
    | Opening(slot: SlotIndex, stage: nat, pcb: Pcb, owner: NetifPtr)  // stage: stores already done
    | Polling(slot: SlotIndex)                                        // id resolved, box not yet read
    | Closing(slot: SlotIndex)                                        // id resolved, slot not yet freed

  datatype State = State(slots: Slots, others: seq<Pcb>, pc: Pc)

  datatype Event =
    | Deliver(d: Delivery)
    | BeginOpen(owner: NetifPtr, want: Pcb, env: OpenEnv)
    | Store
    | BeginPoll(id: Word16)
    | ReadBox
    | BeginClose(id: Word16)
    | FreeSlot
    | FreeAll(owner: NetifPtr)
    | Rebind(owner: NetifPtr, ip: Word32)

  datatype Obs =
    | Quiet
    | Handed(slot: SlotIndex, packet: Packet)  // the callback took a packet for a slot in use
    | MarkedInUse(slot: SlotIndex)
    | DropZeroed(slot: SlotIndex)
    | WentLive(slot: SlotIndex, id: Word16)    // box cleared, handle issued
    | Taken(slot: SlotIndex, msg: Message)
    | Freed(who: set<SlotIndex>)

  /** The stores of udp_source_add_listener, in program order. */
  function StoreField(st: State): (State, Obs)
    requires st.pc.Opening?
  {
    var i, s := st.pc.slot, st.slots[st.pc.slot];
    var next := st.(pc := st.pc.(stage := st.pc.stage + 1));
    match st.pc.stage
    case 0 => (next.(slots := st.slots[i := s.(entry := s.entry.(pcb := Some(st.pc.pcb)))]), Quiet)
    case 1 => (next.(slots := st.slots[i := s.(entry := s.entry.(owner := st.pc.owner))]), Quiet)
    case 2 => (next.(slots := st.slots[i := s.(entry := s.entry.(inUse := true))]), MarkedInUse(i))
    case 3 => (next.(slots := st.slots[i := s.(rxCount := 0)]), Quiet)
    case 4 => (next.(slots := st.slots[i := s.(rxDrop := 0)]), DropZeroed(i))
    case _ => (st.(slots := st.slots[i := s.(box := s.box.(valid := false))], pc := Idle),
               WentLive(i, MakeId(Shape(st.slots), i)))
  }

  /** remove_slot */
  function Emptied(s: Slot): Slot { s.(entry := Released(s.entry), box := s.box.(valid := false)) }

  function WithEntries(s: Slots, es: Entries): Slots {
    seq(MAX_LISTENERS, i requires 0 <= i < MAX_LISTENERS => s[i].(entry := es[i]))
  }

  /** An event that the program counter does not allow changes nothing. */
  function Next(st: State, ev: Event): (State, Obs) {
    match ev
    case Deliver(d) =>
      (st.(slots := Delivered(st.slots, d)),
       if Reaches(st.slots, d) then Handed(d.slot, d.packet.value) else Quiet)
    case BeginOpen(owner, want, env) =>
      if !st.pc.Idle? then (st, Quiet)
      else (match PlanOpen(Shape(st.slots), st.others, owner, want, env)
            case Refused(_) => (st, Quiet)
            case Accepted(i, pcb) => (st.(pc := Opening(i, 0, pcb, owner)), Quiet))
    case Store => if st.pc.Opening? then StoreField(st) else (st, Quiet)
    case BeginPoll(id) =>
      var r := Resolve(Shape(st.slots), id);
      if st.pc.Idle? && r.Some? then (st.(pc := Polling(r.value)), Quiet) else (st, Quiet)
    case ReadBox =>
      if !st.pc.Polling? then (st, Quiet)
      else
        var i, s := st.pc.slot, st.slots[st.pc.slot];
        if !s.box.valid then (st.(pc := Idle), Quiet)
        else (st.(slots := st.slots[i := s.(box := s.box.(valid := false), rxCount := Inc32(s.rxCount))], pc := Idle),
              Taken(i, Shown(s.box)))
    case BeginClose(id) =>
      var r := Resolve(Shape(st.slots), id);
      if st.pc.Idle? && r.Some? then (st.(pc := Closing(r.value)), Quiet) else (st, Quiet)
    case FreeSlot =>
      if !st.pc.Closing? then (st, Quiet)
      else (st.(slots := st.slots[st.pc.slot := Emptied(st.slots[st.pc.slot])], pc := Idle), Freed({st.pc.slot}))
    case FreeAll(n) =>
      if !st.pc.Idle? then (st, Quiet)
      else (st.(slots := seq(MAX_LISTENERS, i requires 0 <= i < MAX_LISTENERS =>
                  if Owns(Shape(st.slots), n, i) then Emptied(st.slots[i]) else st.slots[i])),
            Freed(set i: SlotIndex | Owns(Shape(st.slots), n, i)))
    case Rebind(n, ip) =>
      if !st.pc.Idle? then (st, Quiet)
      else (st.(slots := WithEntries(st.slots, RebindFrom(Shape(st.slots), st.others, n, ip, 0))), Quiet)
  }

  function Run(st: State, evs: seq<Event>): State {
    if evs == [] then st else Next(Run(st, evs[..|evs| - 1]), evs[|evs| - 1]).0
  }

  function Trace(st: State, evs: seq<Event>): (t: seq<Obs>)
    ensures |t| == |evs|
  {
    if evs == [] then []
    else Trace(st, evs[..|evs| - 1]) + [Next(Run(st, evs[..|evs| - 1]), evs[|evs| - 1]).1]
  }

  function Boot(others: seq<Pcb>): State { State(seq(MAX_LISTENERS, _ => ZERO_SLOT), others, Idle) }

  lemma RunSnoc(st: State, evs: seq<Event>, ev: Event)
    ensures Run(st, evs + [ev]) == Next(Run(st, evs), ev).0
    ensures Trace(st, evs + [ev]) == Trace(st, evs) + [Next(Run(st, evs), ev).1]
  {
    assert (evs + [ev])[..|evs + [ev]| - 1] == evs;
  }

  lemma {:induction false} RunAppend(st: State, a: seq<Event>, b: seq<Event>)
    ensures Run(st, a + b) == Run(Run(st, a), b)
    decreases |b|
  {
    if b == [] {
      assert a + b == a;
    } else {
      var front, ev := b[..|b| - 1], b[|b| - 1];
      RunAppend(st, a, front);
      assert a + b == (a + front) + [ev];
      RunSnoc(st, a + front, ev);
      assert b == front + [ev];
      RunSnoc(Run(st, a), front, ev);
    }
  }

  /** t is what is observed when b runs after a. */
  ghost predicate Continues(st: State, a: seq<Event>, b: seq<Event>, t: seq<Obs>) {
    t == Trace(Run(st, a), b) && Trace(st, a + b) == Trace(st, a) + t
  }

  lemma TraceStep(st: State, a: seq<Event>, b: seq<Event>, ev: Event, t: seq<Obs>) returns (t': seq<Obs>)
    requires Continues(st, a, b, t)
    ensures Continues(st, a, b + [ev], t')
  {
    RunAppend(st, a, b);
    RunSnoc(st, a + b, ev);
    RunSnoc(Run(st, a), b, ev);
    t' := t + [Next(Run(st, a + b), ev).1];
    assert (a + b) + [ev] == a + (b + [ev]);
  }

  lemma {:induction false} TraceAppend(st: State, a: seq<Event>, b: seq<Event>) returns (t: seq<Obs>)
    ensures Continues(st, a, b, t)
    decreases |b|
  {
    if b == [] {
      assert a + b == a;
      t := [];
    } else {
      var front := b[..|b| - 1];
      t := TraceAppend(st, a, front);
      t := TraceStep(st, a, front, b[|b| - 1], t);
      assert front + [b[|b| - 1]] == b;
    }
  }

  // ---------------------------------------------------------------------------------------------
  // What the trace says about one slot, independently of the slot's fields

  datatype Life = Free | Marked | Reset | Live

  // closings: times the slot was freed.  early / late / live: packets handed over since the slot was
  // last marked in use, split at the two later resets of udp_source_add_listener.  polls: successful
  // polls since then.  drops: packets that found the box full since the drop counter was reset.
  // pending: packets handed over since the box was last emptied.
  datatype History = History(closings: nat, life: Life, early: nat, late: nat, live: nat, polls: nat, drops: nat,
                             pending: seq<Packet>)

  const NO_HISTORY := History(0, Free, 0, 0, 0, 0, 0, [])

  function Recount(h: History, o: Obs, i: SlotIndex): History {
    match o
    case Quiet => h
    case Handed(j, p) =>
      if j != i then h
      else h.(pending := h.pending + [p],
              drops := if h.pending != [] then h.drops + 1 else h.drops,
              early := if h.life.Marked? then h.early + 1 else h.early,
              late := if h.life.Reset? then h.late + 1 else h.late,
              live := if h.life.Live? then h.live + 1 else h.live)
    case MarkedInUse(j) => if j == i then h.(life := Marked, early := 0, late := 0, live := 0, polls := 0) else h
    case DropZeroed(j) => if j == i then h.(life := Reset, drops := 0) else h
    case WentLive(j, _) => if j == i then h.(life := Live, pending := []) else h
    case Taken(j, _) => if j == i then h.(pending := [], polls := h.polls + 1) else h
    case Freed(who) => if i in who then h.(life := Free, pending := [], closings := h.closings + 1) else h
  }

  function HistoryOf(t: seq<Obs>, i: SlotIndex): History {
    if t == [] then NO_HISTORY else Recount(HistoryOf(t[..|t| - 1], i), t[|t| - 1], i)
  }

  lemma HistorySnoc(t: seq<Obs>, o: Obs, i: SlotIndex)
    ensures HistoryOf(t + [o], i) == Recount(HistoryOf(t, i), o, i)
  {
    assert (t + [o])[..|t + [o]| - 1] == t;
  }

  /** Packets that left no trace because they arrived between the stores of the open: all those before
      the drop counter was reset or, without any, the first one after. */
  function LostAtOpen(early: nat, late: nat): nat {
    if early > 0 then early else if late > 0 then 1 else 0
  }

  // ---------------------------------------------------------------------------------------------
  // The invariant

  ghost predicate PcFits(pc: Pc, i: SlotIndex, e: Entry, life: Life) {
    if pc.Opening? && pc.slot == i then
      && pc.stage <= 5
      && (life == if pc.stage <= 2 then Free else if pc.stage <= 4 then Marked else Reset)
      && (pc.stage >= 1 ==> e.pcb == Some(pc.pcb))
    else
      && life in {Free, Live}
      && (pc.Polling? || pc.Closing? ==> pc.slot == i ==> life.Live?)
  }

  /** Every packet handed over is read, dropped, in the box, or lost during the open. */
  ghost predicate Accounted(h: History) {
    var boxed := if h.pending != [] then 1 else 0;
    match h.life
    case Free => h.pending == []
    case Marked => h.late == 0 && h.live == 0 && h.polls == 0 && (h.pending != [] <==> h.early > 0)
    case Reset => h.live == 0 && h.polls == 0 && (h.pending != [] <==> h.early + h.late > 0)
                  && h.early + h.late == h.drops + LostAtOpen(h.early, h.late)
    case Live => h.early + h.late + h.live == h.polls + h.drops + boxed + LostAtOpen(h.early, h.late)
  }

  lemma WrapSuccessor(n: nat)
    ensures Inc32(n % TWO_32) == (n + 1) % TWO_32
  {
  }

  ghost predicate SlotGood(pc: Pc, s: Slot, h: History, i: SlotIndex) {
    && s.entry.gen == h.closings % 0x100
    && s.entry.inUse == !h.life.Free?
    && (s.entry.inUse ==> s.entry.pcb.Some?)
    && PcFits(pc, i, s.entry, h.life)
    && s.box.valid == (h.pending != [])
    && (s.box.valid ==> Shown(s.box) == Copied(h.pending[0]))
    && Accounted(h)
    && (h.life.Reset? || h.life.Live? ==> s.rxDrop == h.drops % TWO_32)
    && (h.life.Reset? || h.life.Live? || (h.life.Marked? && pc.Opening? && pc.stage == 4) ==> s.rxCount == h.polls % TWO_32)
  }

  lemma FilledShowsPacket(b: Box, p: Packet)
    ensures Shown(Filled(b, p)) == Copied(p) && Filled(b, p).valid
  {
  }

  /** The callback takes every packet for a slot in use: it becomes the message of an empty box, with its
      first 256 bytes, and counts as dropped when the box is full.  Anything else it leaves alone. */
  lemma CallbackTakes(st: State, i: nat, p: Option<Packet>)
    ensures var (st', o) := Next(st, Deliver(Delivery(i, p)));
            if i < 16 && st.slots[i].entry.inUse && p.Some? then
              var s, s' := st.slots[i], st'.slots[i];
              && o == Handed(i, p.value) && (forall j :: 0 <= j < 16 && j != i ==> st'.slots[j] == st.slots[j])
              && s'.entry == s.entry && s'.rxCount == s.rxCount && s'.box.valid
              && s'.rxDrop == (if s.box.valid then (s.rxDrop + 1) % 0x1_0000_0000 else s.rxDrop)
              && (s.box.valid ==> s'.box == s.box)
              && (!s.box.valid ==> Shown(s'.box) == Copied(p.value))
            else st' == st && o == Quiet
    ensures p.Some? ==>
              var m := Copied(p.value);
              && m.srcIp == p.value.srcIp && m.srcPort == p.value.srcPort && m.data <= p.value.payload
              && |m.data| == if |p.value.payload| <= 256 then |p.value.payload| else 256
  {
    if i < 16 && p.Some? { FilledShowsPacket(st.slots[i].box, p.value); }
  }

  lemma DeliveryToFullBox(st: State, d: Delivery, h: History)
    requires Reaches(st.slots, d) && st.slots[d.slot].box.valid
    requires SlotGood(st.pc, st.slots[d.slot], h, d.slot)
    ensures var (st', o) := Next(st, Deliver(d));
            SlotGood(st'.pc, st'.slots[d.slot], Recount(h, o, d.slot), d.slot)
  {
    var s := st.slots[d.slot];
    assert (h.pending + [d.packet.value])[0] == h.pending[0];
    WrapSuccessor(h.drops);
  }

  lemma DeliveryToEmptyBox(st: State, d: Delivery, h: History)
    requires Reaches(st.slots, d) && !st.slots[d.slot].box.valid
    requires SlotGood(st.pc, st.slots[d.slot], h, d.slot)
    ensures var (st', o) := Next(st, Deliver(d));
            SlotGood(st'.pc, st'.slots[d.slot], Recount(h, o, d.slot), d.slot)
  {
    var s := st.slots[d.slot];
    FilledShowsPacket(s.box, d.packet.value);
  }

  lemma DeliveryKeepsGood(st: State, d: Delivery, h: History, i: SlotIndex)
    requires SlotGood(st.pc, st.slots[i], h, i)
    ensures var (st', o) := Next(st, Deliver(d));
            SlotGood(st'.pc, st'.slots[i], Recount(h, o, i), i)
  {
    if Reaches(st.slots, d) && d.slot == i {
      if st.slots[i].box.valid { DeliveryToFullBox(st, d, h); } else { DeliveryToEmptyBox(st, d, h); }
    }
  }

  lemma StoreKeepsGood(st: State, h: History, i: SlotIndex)
    requires SlotGood(st.pc, st.slots[i], h, i)
    ensures var (st', o) := Next(st, Store);
            SlotGood(st'.pc, st'.slots[i], Recount(h, o, i), i)
  {
  }

  /** Rebinding never touches ownership or generations, and a bound slot stays bound. */
  lemma {:induction false} RebindKeepsOwnership(es: Entries, others: seq<Pcb>, n: NetifPtr, ip: Word32, from: nat, i: SlotIndex)
    requires from <= MAX_LISTENERS
    ensures var e, e' := es[i], RebindFrom(es, others, n, ip, from)[i];
            && e' == e.(pcb := e'.pcb)
            && (e.pcb.Some? ==> e'.pcb.Some?)
    decreases MAX_LISTENERS - from
  {
    if from < MAX_LISTENERS {
      RebindKeepsOwnership(RebindOne(es, others, n, ip, from), others, n, ip, from + 1, i);
    }
  }

  lemma RebindKeepsGood(st: State, n: NetifPtr, ip: Word32, h: History, i: SlotIndex)
    requires SlotGood(st.pc, st.slots[i], h, i)
    ensures var (st', o) := Next(st, Rebind(n, ip));
            SlotGood(st'.pc, st'.slots[i], Recount(h, o, i), i)
  {
    RebindKeepsOwnership(Shape(st.slots), st.others, n, ip, 0, i);
  }

  lemma ReadFromFullBox(st: State, h: History)
    requires st.pc.Polling? && st.slots[st.pc.slot].box.valid
    requires SlotGood(st.pc, st.slots[st.pc.slot], h, st.pc.slot)
    ensures var (st', o) := Next(st, ReadBox);
            SlotGood(st'.pc, st'.slots[st.pc.slot], Recount(h, o, st.pc.slot), st.pc.slot)
  {
    var s := st.slots[st.pc.slot];
    WrapSuccessor(h.polls);
  }

  lemma ReadKeepsGood(st: State, h: History, i: SlotIndex)
    requires SlotGood(st.pc, st.slots[i], h, i)
    ensures var (st', o) := Next(st, ReadBox);
            SlotGood(st'.pc, st'.slots[i], Recount(h, o, i), i)
  {
    if st.pc.Polling? && st.pc.slot == i && st.slots[i].box.valid {
      ReadFromFullBox(st, h);
    }
  }

  lemma BeginKeepsGood(st: State, ev: Event, h: History, i: SlotIndex)
    requires SlotGood(st.pc, st.slots[i], h, i) && (ev.BeginOpen? || ev.BeginPoll? || ev.BeginClose?)
    ensures var (st', o) := Next(st, ev);
            SlotGood(st'.pc, st'.slots[i], Recount(h, o, i), i)
  {
  }

  lemma FreeKeepsGood(st: State, ev: Event, h: History, i: SlotIndex)
    requires SlotGood(st.pc, st.slots[i], h, i) && (ev.FreeSlot? || ev.FreeAll?)
    ensures var (st', o) := Next(st, ev);
            SlotGood(st'.pc, st'.slots[i], Recount(h, o, i), i)
  {
  }

  lemma StepKeepsSlotGood(st: State, ev: Event, h: History, i: SlotIndex)
    requires SlotGood(st.pc, st.slots[i], h, i)
    ensures var (st', o) := Next(st, ev);
            SlotGood(st'.pc, st'.slots[i], Recount(h, o, i), i)
  {
    if ev.Deliver? {
      DeliveryKeepsGood(st, ev.d, h, i);
    } else if ev.Store? {
      StoreKeepsGood(st, h, i);
    } else if ev.Rebind? {
      RebindKeepsGood(st, ev.owner, ev.ip, h, i);
    } else if ev.ReadBox? {
      ReadKeepsGood(st, h, i);
    } else if ev.FreeSlot? || ev.FreeAll? {
      FreeKeepsGood(st, ev, h, i);
    } else {
      BeginKeepsGood(st, ev, h, i);
    }
  }

  /** The invariant holds in every run, for every slot. */
  lemma {:induction false} RunKeepsSlotGood(others: seq<Pcb>, evs: seq<Event>, i: SlotIndex)
    ensures var st := Run(Boot(others), evs);
            SlotGood(st.pc, st.slots[i], HistoryOf(Trace(Boot(others), evs), i), i)
  {
    if evs != [] {
      var front, ev := evs[..|evs| - 1], evs[|evs| - 1];
      RunKeepsSlotGood(others, front, i);
      var st, t := Run(Boot(others), front), Trace(Boot(others), front);
      HistorySnoc(t, Next(st, ev).1, i);
      StepKeepsSlotGood(st, ev, HistoryOf(t, i), i);
    }
  }

  // ---------------------------------------------------------------------------------------------
  // Mailbox: one packet, the first, of this incarnation

  predicate HandedTo(o: Obs, i: SlotIndex) { o.Handed? && o.slot == i }

  /** The box of slot i is emptied: by a poll, by a close, or by the last store of an open. */
  predicate Empties(o: Obs, i: SlotIndex) {
    match o
    case WentLive(j, _) => j == i
    case Taken(j, _) => j == i
    case Freed(who) => i in who
    case _ => false
  }

  /** Position d of the trace is the first packet handed to slot i since its box was last emptied. */
  ghost predicate FirstSinceEmptied(t: seq<Obs>, i: SlotIndex, d: int) {
    && 0 <= d < |t| && HandedTo(t[d], i)
    && (forall k :: d < k < |t| ==> !Empties(t[k], i))
    && (forall k :: 0 <= k < d && HandedTo(t[k], i) ==> exists e :: k < e < d && Empties(t[e], i))
  }

  lemma {:induction false} PendingPosition(t: seq<Obs>, i: SlotIndex) returns (d: int)
    ensures HistoryOf(t, i).pending != [] ==>
              FirstSinceEmptied(t, i, d) && t[d].packet == HistoryOf(t, i).pending[0]
    ensures HistoryOf(t, i).pending == [] ==>
              forall k :: 0 <= k < |t| && HandedTo(t[k], i) ==> exists e :: k < e < |t| && Empties(t[e], i)
  {
    d := -1;
    if t != [] {
      var front, o := t[..|t| - 1], t[|t| - 1];
      d := PendingPosition(front, i);
      assert t == front + [o];
      if HandedTo(o, i) && HistoryOf(front, i).pending == [] {
        d := |t| - 1;
      }
    }
  }

  /** A poll finds a message exactly when some packet was handed to the slot since its box was last
      emptied, and the message is a copy of the first such packet, whatever interrupted what. */
  lemma PollReturnsFirstPacket(others: seq<Pcb>, evs: seq<Event>)
    requires Run(Boot(others), evs).pc.Polling?
    ensures var st, t := Run(Boot(others), evs), Trace(Boot(others), evs);
            var i, o := st.pc.slot, Next(st, ReadBox).1;
            && (o.Taken? <==> exists d :: FirstSinceEmptied(t, i, d))
            && (o.Taken? ==> o.slot == i && exists d :: FirstSinceEmptied(t, i, d) && o.msg == Copied(t[d].packet))
  {
    var st, t := Run(Boot(others), evs), Trace(Boot(others), evs);
    RunKeepsSlotGood(others, evs, st.pc.slot);
    var d := PendingPosition(t, st.pc.slot);
  }

  // ---------------------------------------------------------------------------------------------
  // Conservation

  /** Packets read, dropped or still in the box. */
  function Found(h: History, s: Slot): nat { h.polls + h.drops + if s.box.valid then 1 else 0 }

  /** For every open socket: the packets handed over since it was marked in use are exactly those read,
      those dropped, the one in the box, and those lost during the unprotected open; and the two
      counters are the reads and the drops modulo 2^32. */
  lemma PacketsAreConserved(others: seq<Pcb>, evs: seq<Event>, i: SlotIndex)
    requires var st := Run(Boot(others), evs);
             st.slots[i].entry.inUse && !(st.pc.Opening? && st.pc.slot == i)
    ensures var s, h := Run(Boot(others), evs).slots[i], HistoryOf(Trace(Boot(others), evs), i);
            && h.early + h.late + h.live == Found(h, s) + LostAtOpen(h.early, h.late)
            && s.rxCount == h.polls % TWO_32 && s.rxDrop == h.drops % TWO_32
  {
    RunKeepsSlotGood(others, evs, i);
  }

  /** Nothing is lost if and only if no packet arrived between the in-use flag and the end of the open. */
  lemma NothingLostIff(others: seq<Pcb>, evs: seq<Event>, i: SlotIndex)
    requires var st := Run(Boot(others), evs);
             st.slots[i].entry.inUse && !(st.pc.Opening? && st.pc.slot == i)
    ensures var s, h := Run(Boot(others), evs).slots[i], HistoryOf(Trace(Boot(others), evs), i);
            h.early + h.late + h.live == Found(h, s) <==> h.early == 0 && h.late == 0
  {
    PacketsAreConserved(others, evs, i);
  }

  /** An open during which one packet arrives after the in-use flag is set. */
  function LossyOpen(owner: NetifPtr, want: Pcb, p: Packet): seq<Event> {
    [BeginOpen(owner, want, OpenEnv(true, 0)), Store, Store, Store, Deliver(Delivery(0, Some(p))), Store, Store, Store]
  }

  lemma RunPrefix(st: State, evs: seq<Event>, k: nat)
    requires k < |evs|
    ensures Run(st, evs[..k + 1]) == Next(Run(st, evs[..k]), evs[k]).0
    ensures Trace(st, evs[..k + 1]) == Trace(st, evs[..k]) + [Next(Run(st, evs[..k]), evs[k]).1]
  {
    assert evs[..k + 1][..k] == evs[..k];
  }

  /** The state and what is known of the packet after k events of that open. */
  ghost predicate Lossy(st: State, h: History, k: nat, owner: NetifPtr, want: Pcb) {
    && (if 1 <= k <= 3 then st.pc == Opening(0, k - 1, want, owner)
        else if 4 <= k <= 5 then st.pc == Opening(0, 3, want, owner)
        else if 6 <= k <= 7 then st.pc == Opening(0, k - 2, want, owner)
        else k == 8 && st.pc.Idle?)
    && (k >= 4 ==> st.slots[0].entry.inUse) && (k <= 4 ==> !st.slots[0].box.valid) && (k == 8 ==> !st.slots[0].box.valid)
    && h.early == (if k >= 5 then 1 else 0) && h.late == 0 && h.live == 0 && h.polls == 0
    && (k <= 4 ==> h.pending == []) && h.drops == 0
    && h.life == (if k <= 3 then Free else if k <= 6 then Marked else if k == 7 then Reset else Live)
  }

  lemma LossyStep(st: State, h: History, k: nat, owner: NetifPtr, want: Pcb, p: Packet)
    requires 1 <= k < 8 && Lossy(st, h, k, owner, want)
    ensures var (st', o) := Next(st, LossyOpen(owner, want, p)[k]);
            Lossy(st', Recount(h, o, 0), k + 1, owner, want)
  {
  }

  lemma {:induction false} LossyRun(k: nat, owner: NetifPtr, want: Pcb, p: Packet)
    requires 1 <= k <= 8 && owner != NULL && want.port != 0
    ensures var evs := LossyOpen(owner, want, p)[..k];
            Lossy(Run(Boot([]), evs), HistoryOf(Trace(Boot([]), evs), 0), k, owner, want)
  {
    var evs := LossyOpen(owner, want, p);
    RunPrefix(Boot([]), evs, k - 1);
    var st, t := Run(Boot([]), evs[..k - 1]), Trace(Boot([]), evs[..k - 1]);
    HistorySnoc(t, Next(st, evs[k - 1]).1, 0);
    if k == 1 {
      FirstFreeIs(Shape(Boot([]).slots), 0);
      assert evs[..0] == [];
    } else {
      LossyRun(k - 1, owner, want, p);
      LossyStep(st, HistoryOf(t, 0), k - 1, owner, want, p);
    }
  }

  /** From boot: the packet is handed to a slot in use, and the open ends with the socket live and the
      packet neither read nor dropped nor in the box. */
  lemma PacketLostInOpen(owner: NetifPtr, want: Pcb, p: Packet)
    requires owner != NULL && want.port != 0
    ensures var evs := LossyOpen(owner, want, p);
            var s, h := Run(Boot([]), evs).slots[0], HistoryOf(Trace(Boot([]), evs), 0);
            && Trace(Boot([]), evs)[4] == Handed(0, p)
            && s.entry.inUse && Run(Boot([]), evs).pc.Idle?
            && h.early + h.late + h.live == 1 && Found(h, s) == 0
  {
    var evs := LossyOpen(owner, want, p);
    LossyRun(8, owner, want, p);
    assert evs[..8] == evs;
    LossyRun(4, owner, want, p);
    RunPrefix(Boot([]), evs, 4);
    var t := TraceAppend(Boot([]), evs[..5], evs[5..]);
    assert evs[..5] + evs[5..] == evs;
  }

  // ---------------------------------------------------------------------------------------------
  // Generational handles

  function Closings(t: seq<Obs>, i: SlotIndex): nat {
    if t == [] then 0
    else Closings(t[..|t| - 1], i) + if t[|t| - 1].Freed? && i in t[|t| - 1].who then 1 else 0
  }

  lemma {:induction false} ClosingsAppend(a: seq<Obs>, b: seq<Obs>, i: SlotIndex)
    ensures Closings(a + b, i) == Closings(a, i) + Closings(b, i)
    decreases |b|
  {
    if b == [] {
      assert a + b == a;
    } else {
      ClosingsAppend(a, b[..|b| - 1], i);
      assert (a + b)[..|a + b| - 1] == a + b[..|b| - 1];
    }
  }

  lemma {:induction false} ClosingsAreCounted(t: seq<Obs>, i: SlotIndex)
    ensures HistoryOf(t, i).closings == Closings(t, i)
  {
    if t != [] {
      ClosingsAreCounted(t[..|t| - 1], i);
    }
  }

  lemma GenerationCounts(others: seq<Pcb>, evs: seq<Event>, i: SlotIndex)
    ensures Shape(Run(Boot(others), evs).slots)[i].gen == Closings(Trace(Boot(others), evs), i) % 0x100
  {
    RunKeepsSlotGood(others, evs, i);
    ClosingsAreCounted(Trace(Boot(others), evs), i);
  }

  /** An open ends with the slot in use and its own current handle. */
  lemma HandleIssued(others: seq<Pcb>, before: seq<Event>, ev: Event, i: SlotIndex, id: Word16)
    requires Next(Run(Boot(others), before), ev).1 == WentLive(i, id)
    ensures var es := Shape(Run(Boot(others), before + [ev]).slots); es[i].inUse && id == MakeId(es, i)
  {
    var st := Run(Boot(others), before);
    RunKeepsSlotGood(others, before, i);
    RunSnoc(Boot(others), before, ev);
    LastStoreIssues(st, ev, HistoryOf(Trace(Boot(others), before), i), i, id);
  }

  lemma LastStoreIssues(st: State, ev: Event, h: History, i: SlotIndex, id: Word16)
    requires SlotGood(st.pc, st.slots[i], h, i) && Next(st, ev).1 == WentLive(i, id)
    ensures var es := Shape(Next(st, ev).0.slots); es[i].inUse && id == MakeId(es, i)
  {
  }

  lemma HandleAges(es: Entries, es': Entries, i: SlotIndex, c: nat, more: nat)
    requires es[i].gen == c % 0x100 && es'[i].gen == (c + more) % 0x100
    ensures Resolve(es', MakeId(es, i)) == if es'[i].inUse && more % 0x100 == 0 then Some(i) else None
    ensures MakeId(es, i) != ID_INVALID
  {
    assert (c + more) % 0x100 == c % 0x100 <==> more % 0x100 == 0;
    ResolveMakeId(es, es', i, i);
  }

  lemma ClosingsSince(st: State, evs: seq<Event>, later: seq<Event>, i: SlotIndex)
    ensures Run(Run(st, evs), later) == Run(st, evs + later)
    ensures Closings(Trace(st, evs + later), i) == Closings(Trace(st, evs), i) + Closings(Trace(Run(st, evs), later), i)
  {
    RunAppend(st, evs, later);
    var t := TraceAppend(st, evs, later);
    ClosingsAppend(Trace(st, evs), Trace(Run(st, evs), later), i);
  }

  /** A handle issued now means its slot later exactly when that slot is in use and has been closed a
      multiple of 256 times in between: it is dead for the first 255 closings. */
  lemma HandleLifetime(others: seq<Pcb>, before: seq<Event>, ev: Event, later: seq<Event>, i: SlotIndex, id: Word16)
    requires Next(Run(Boot(others), before), ev).1 == WentLive(i, id)
    ensures var issued := Run(Boot(others), before + [ev]);
            var now := Shape(Run(issued, later).slots);
            var c := Closings(Trace(issued, later), i);
            && Run(issued, later) == Run(Boot(others), before + [ev] + later)
            && Resolve(now, id) == (if now[i].inUse && c % 0x100 == 0 then Some(i) else None)
            && id != ID_INVALID
  {
    HandleIssued(others, before, ev, i, id);
    var issued := Run(Boot(others), before + [ev]);
    HandleSince(others, before + [ev], later, i, issued, Run(issued, later));
  }

  lemma HandleSince(others: seq<Pcb>, evs: seq<Event>, later: seq<Event>, i: SlotIndex, issued: State, now: State)
    requires issued == Run(Boot(others), evs) && now == Run(issued, later)
    ensures now == Run(Boot(others), evs + later)
    ensures Resolve(Shape(now.slots), MakeId(Shape(issued.slots), i))
            == if Shape(now.slots)[i].inUse && Closings(Trace(issued, later), i) % 0x100 == 0 then Some(i) else None
    ensures MakeId(Shape(issued.slots), i) != ID_INVALID
  {
    var c, more := GenerationsSince(others, evs, later, i, issued, now);
    HandleAges(Shape(issued.slots), Shape(now.slots), i, c, more);
  }

  lemma GenerationsSince(others: seq<Pcb>, evs: seq<Event>, later: seq<Event>, i: SlotIndex, issued: State, now: State)
    returns (c: nat, more: nat)
    requires issued == Run(Boot(others), evs) && now == Run(issued, later)
    ensures now == Run(Boot(others), evs + later) && more == Closings(Trace(issued, later), i)
    ensures Shape(issued.slots)[i].gen == c % 0x100 && Shape(now.slots)[i].gen == (c + more) % 0x100
  {
    c, more := Closings(Trace(Boot(others), evs), i), Closings(Trace(issued, later), i);
    ClosingsSince(Boot(others), evs, later, i);
    assert Closings(Trace(Boot(others), evs + later), i) == c + more;
    GenerationIs(others, evs, i, issued);
    GenerationIs(others, evs + later, i, now);
  }

  lemma GenerationIs(others: seq<Pcb>, evs: seq<Event>, i: SlotIndex, st: State)
    requires st == Run(Boot(others), evs)
    ensures Shape(st.slots)[i].gen == Closings(Trace(Boot(others), evs), i) % 0x100
  {
    GenerationCounts(others, evs, i);
  }
}
