/**
 The socket registry as a value: which slots are taken, by which netif, bound to what, and under
 which generation.  Everything an interrupt can touch (mailbox, counters) is left to SlotMachine.
 */
module Registry {
  import opened Words

  const MAX_LISTENERS: nat := 16
  const ID_INVALID: Word16 := 0xFFFF

  // A `struct netif *`; 0 is NULL.
  type NetifPtr = nat
  const NULL: NetifPtr := 0

  datatype Pcb = Pcb(ip: Word32, port: Word16)
  datatype Entry = Entry(pcb: Option<Pcb>, owner: NetifPtr, gen: Byte, inUse: bool)

  const EMPTY_ENTRY := Entry(None, NULL, 0, false)
  type Entries = es: seq<Entry> | |es| == MAX_LISTENERS witness seq(MAX_LISTENERS, _ => EMPTY_ENTRY)

  datatype Err = ERR_OK | ERR_VAL | ERR_MEM | ERR_USE

  // What the stack decides during one open: is a pcb left in the pool, and which port would
  // udp_new_port propose when the caller asks for port 0 (0: none left).
  datatype OpenEnv = OpenEnv(pcbLeft: bool, newPort: Word16)

  // ---------------------------------------------------------------------------------------------
  // Handles

  /** `generation << 8 | idx` */
  function MakeId(es: Entries, i: nat): Word16
    requires i < MAX_LISTENERS
  {
    es[i].gen * 0x100 + i
  }

  function Resolve(es: Entries, id: Word16): Option<nat> {
    var i, gen := id % 0x100, id / 0x100;
    if i >= MAX_LISTENERS || !es[i].inUse || gen != es[i].gen then None else Some(i)
  }

  /** An id resolves to the slot it names and to nothing else, as long as that slot is in use under
      the same generation; ids of distinct slots differ, and the invalid id is never issued. */
  lemma ResolveMakeId(es: Entries, es': Entries, i: nat, j: nat)
    requires i < MAX_LISTENERS && j < MAX_LISTENERS
    ensures Resolve(es', MakeId(es, i)) ==
            if es'[i].inUse && es'[i].gen == es[i].gen then Some(i) else None
    ensures MakeId(es, i) == MakeId(es', j) ==> i == j && es[i].gen == es'[j].gen
    ensures MakeId(es, i) / 256 == es[i].gen && MakeId(es, i) % 256 == i
    ensures MakeId(es, i) != 0xFFFF && Resolve(es, 0xFFFF) == None
  {
    assert MakeId(es, i) % 0x100 == i && MakeId(es, i) / 0x100 == es[i].gen;
    assert MakeId(es', j) % 0x100 == j && MakeId(es', j) / 0x100 == es'[j].gen;
  }

  // ---------------------------------------------------------------------------------------------
  // udp_bind

  /** Two pcbs may not share a port on the same address; address 0 is every address. */
  predicate Clash(a: Pcb, b: Pcb) {
    a.port == b.port && (a.ip == 0 || b.ip == 0 || a.ip == b.ip)
  }

  /** Some pcb other than the one of slot `self` stands in the way of `want`. */
  predicate Blocked(es: Entries, others: seq<Pcb>, self: nat, want: Pcb) {
    || (exists j :: 0 <= j < MAX_LISTENERS && j != self && es[j].pcb.Some? && Clash(es[j].pcb.value, want))
    || (exists k :: 0 <= k < |others| && Clash(others[k], want))
  }

  predicate PortTaken(es: Entries, others: seq<Pcb>, port: Word16) {
    || (exists j :: 0 <= j < MAX_LISTENERS && es[j].pcb.Some? && es[j].pcb.value.port == port)
    || (exists k :: 0 <= k < |others| && others[k].port == port)
  }

  function Bind(es: Entries, others: seq<Pcb>, self: nat, want: Pcb, newPort: Word16): Option<Pcb> {
    if Blocked(es, others, self, want) then None
    else if want.port != 0 then Some(want)
    else if newPort == 0 || PortTaken(es, others, newPort) then None
    else Some(Pcb(want.ip, newPort))
  }

  // ---------------------------------------------------------------------------------------------
  // Operations

  function FirstFree(es: Entries, from: nat): (r: Option<nat>)
    requires from <= MAX_LISTENERS
    ensures r.Some? ==> from <= r.value < MAX_LISTENERS && !es[r.value].inUse
                        && forall j :: from <= j < r.value ==> es[j].inUse
    ensures r.None? ==> forall j :: from <= j < MAX_LISTENERS ==> es[j].inUse
    decreases |es| - from
  {
    if from == |es| then None
    else if !es[from].inUse then Some(from)
    else FirstFree(es, from + 1)
  }

  lemma FirstFreeIs(es: Entries, i: nat)
    requires i < MAX_LISTENERS && !es[i].inUse
    requires forall j :: 0 <= j < i ==> es[j].inUse
    ensures FirstFree(es, 0) == Some(i)
  {
    var r := FirstFree(es, 0);
    assert r.Some? && es[i].inUse == false;
  }

  /** The slot and pcb an open is going to use, or the reason it is refused. */
  datatype Plan = Refused(err: Err) | Accepted(slot: nat, pcb: Pcb)

  function PlanOpen(es: Entries, others: seq<Pcb>, owner: NetifPtr, want: Pcb, env: OpenEnv): (r: Plan)
    ensures r.Accepted? ==> owner != NULL && FirstFree(es, 0) == Some(r.slot)
    ensures r.Refused? ==> r.err != ERR_OK
  {
    if owner == NULL then Refused(ERR_VAL)
    else match FirstFree(es, 0)
      case None => Refused(ERR_MEM)
      case Some(i) =>
        if !env.pcbLeft then Refused(ERR_MEM)
        else match Bind(es, others, MAX_LISTENERS, want, env.newPort)
          case None => Refused(ERR_USE)
          case Some(pcb) => Accepted(i, pcb)
  }

  // ---------------------------------------------------------------------------------------------
  // When an open succeeds, in terms of slots and pcbs

  /** The lowest slot that is not in use. */
  ghost predicate LowestFree(es: Entries, i: nat) {
    i < 16 && !es[i].inUse && forall j :: 0 <= j < i ==> es[j].inUse
  }

  ghost predicate SomeSlotFree(es: Entries) { exists i :: 0 <= i < 16 && !es[i].inUse }

  /** No pcb has the port at that address, at address 0, or, when the address itself is 0, anywhere. */
  ghost predicate PortFree(es: Entries, others: seq<Pcb>, ip: Word32, port: Word16) {
    && (forall j :: 0 <= j < 16 && es[j].pcb.Some? && es[j].pcb.value.port == port ==>
          ip != 0 && es[j].pcb.value.ip != 0 && es[j].pcb.value.ip != ip)
    && (forall k :: 0 <= k < |others| && others[k].port == port ==> ip != 0 && others[k].ip != 0 && others[k].ip != ip)
  }

  /** No pcb has the port at any address. */
  ghost predicate PortUnused(es: Entries, others: seq<Pcb>, port: Word16) {
    && (forall j :: 0 <= j < 16 && es[j].pcb.Some? ==> es[j].pcb.value.port != port)
    && (forall k :: 0 <= k < |others| ==> others[k].port != port)
  }

  /** The wanted address can be bound; for port 0 the stack must have a port to propose. */
  ghost predicate CanBind(es: Entries, others: seq<Pcb>, want: Pcb, newPort: Word16) {
    && PortFree(es, others, want.ip, want.port)
    && (want.port == 0 ==> newPort != 0 && PortUnused(es, others, newPort))
  }

  function PortOf(want: Pcb, newPort: Word16): Word16 { if want.port != 0 then want.port else newPort }

  lemma BindIff(es: Entries, others: seq<Pcb>, want: Pcb, newPort: Word16)
    ensures Bind(es, others, MAX_LISTENERS, want, newPort)
            == if CanBind(es, others, want, newPort) then Some(Pcb(want.ip, PortOf(want, newPort))) else None
  {
    assert Blocked(es, others, MAX_LISTENERS, want) <==> !PortFree(es, others, want.ip, want.port);
    assert PortTaken(es, others, newPort) <==> !PortUnused(es, others, newPort);
  }

  lemma FreeSlotIff(es: Entries)
    ensures FirstFree(es, 0).Some? <==> SomeSlotFree(es)
    ensures forall i: nat :: LowestFree(es, i) <==> FirstFree(es, 0) == Some(i)
  {
    forall i: nat | LowestFree(es, i)
      ensures FirstFree(es, 0) == Some(i)
    {
      FirstFreeIs(es, i);
    }
  }

  /** Every outcome of an open by its cause. */
  lemma PlanIff(es: Entries, others: seq<Pcb>, owner: NetifPtr, want: Pcb, env: OpenEnv)
    ensures var plan := PlanOpen(es, others, owner, want, env);
            && (plan == Refused(ERR_VAL) <==> owner == 0)
            && (plan == Refused(ERR_MEM) <==> owner != 0 && (!SomeSlotFree(es) || !env.pcbLeft))
            && (plan == Refused(ERR_USE) <==>
                  owner != 0 && SomeSlotFree(es) && env.pcbLeft && !CanBind(es, others, want, env.newPort))
            && (plan.Accepted? <==>
                  owner != 0 && SomeSlotFree(es) && env.pcbLeft && CanBind(es, others, want, env.newPort))
            && (plan.Accepted? ==>
                  LowestFree(es, plan.slot) && plan.pcb == Pcb(want.ip, PortOf(want, env.newPort)))
  {
    BindIff(es, others, want, env.newPort);
    FreeSlotIff(es);
  }

  /** What an open of `want` for `owner` may do: each error has its cause and changes nothing; success takes
      the lowest free slot, binds it, and answers with its handle. */
  ghost predicate OpenOutcome(es: Entries, others: seq<Pcb>, owner: NetifPtr, want: Pcb, env: OpenEnv,
                              es': Entries, err: Err, id: Word16)
  {
    && (err == ERR_VAL <==> owner == 0)
    && (err == ERR_MEM <==> owner != 0 && (!SomeSlotFree(es) || !env.pcbLeft))
    && (err == ERR_USE <==> owner != 0 && SomeSlotFree(es) && env.pcbLeft && !CanBind(es, others, want, env.newPort))
    && (err != ERR_OK ==> es' == es)
    && (err == ERR_OK ==>
          exists i: nat :: LowestFree(es, i) && id == es[i].gen * 256 + i
            && es' == es[i := Entry(Some(Pcb(want.ip, PortOf(want, env.newPort))), owner, es[i].gen, true)])
  }

  lemma PlanHasOutcome(es: Entries, others: seq<Pcb>, owner: NetifPtr, want: Pcb, env: OpenEnv, err: Err, id: Word16)
    requires var plan := PlanOpen(es, others, owner, want, env);
             if plan.Refused? then err == plan.err
             else err == ERR_OK && id == MakeId(Open(es, others, owner, want, env), plan.slot)
    ensures OpenOutcome(es, others, owner, want, env, Open(es, others, owner, want, env), err, id)
  {
    PlanIff(es, others, owner, want, env);
    var plan := PlanOpen(es, others, owner, want, env);
    if plan.Accepted? {
      assert LowestFree(es, plan.slot) && id == es[plan.slot].gen * 256 + plan.slot;
    }
  }

  function Opened(es: Entries, i: nat, owner: NetifPtr, pcb: Pcb): Entries
    requires i < MAX_LISTENERS
  {
    es[i := Entry(Some(pcb), owner, es[i].gen, true)]
  }

  function Open(es: Entries, others: seq<Pcb>, owner: NetifPtr, want: Pcb, env: OpenEnv): Entries {
    match PlanOpen(es, others, owner, want, env)
    case Refused(_) => es
    case Accepted(i, pcb) => Opened(es, i, owner, pcb)
  }

  function Released(e: Entry): Entry { Entry(None, e.owner, Inc8(e.gen), false) }

  function Close(es: Entries, i: nat): Entries
    requires i < MAX_LISTENERS
  {
    es[i := Released(es[i])]
  }

  function CloseId(es: Entries, id: Word16): Entries {
    match Resolve(es, id)
    case None => es
    case Some(i) => Close(es, i)
  }

  predicate Owns(es: Entries, n: NetifPtr, i: nat)
    requires i < MAX_LISTENERS
  {
    n != NULL && es[i].owner == n && es[i].inUse
  }

  function CloseAll(es: Entries, n: NetifPtr): Entries {
    seq(MAX_LISTENERS, i requires 0 <= i < MAX_LISTENERS =>
      if Owns(es, n, i) then Released(es[i]) else es[i])
  }

  function RebindOne(es: Entries, others: seq<Pcb>, n: NetifPtr, ip: Word32, i: nat): Entries
    requires i < MAX_LISTENERS
  {
    if Owns(es, n, i) && es[i].pcb.Some? then
      match Bind(es, others, i, Pcb(ip, es[i].pcb.value.port), 0)
      case None => es
      case Some(pcb) => es[i := es[i].(pcb := Some(pcb))]
    else es
  }

  /** Slots are rebound in order; each bind sees the outcome of the ones before it. */
  function RebindFrom(es: Entries, others: seq<Pcb>, n: NetifPtr, ip: Word32, i: nat): Entries
    requires i <= MAX_LISTENERS
    decreases |es| - i
  {
    if i == |es| then es
    else RebindFrom(RebindOne(es, others, n, ip, i), others, n, ip, i + 1)
  }

  // ---------------------------------------------------------------------------------------------
  // "The sockets of a netif" is not stored: it is the ordered list of slots it owns.

  function SocketsIn(es: Entries, n: NetifPtr, lo: nat, hi: nat): seq<nat>
    requires lo <= hi <= MAX_LISTENERS
    decreases |es|, hi - lo
  {
    if lo == hi then []
    else SocketsIn(es, n, lo, hi - 1) + if Owns(es, n, hi - 1) then [hi - 1] else []
  }

  function Sockets(es: Entries, n: NetifPtr): seq<nat> {
    SocketsIn(es, n, 0, |es|)
  }

  lemma {:induction false} SocketsSplit(es: Entries, n: NetifPtr, lo: nat, mid: nat, hi: nat)
    requires lo <= mid <= hi <= MAX_LISTENERS
    ensures SocketsIn(es, n, lo, hi) == SocketsIn(es, n, lo, mid) + SocketsIn(es, n, mid, hi)
    decreases hi
  {
    if mid < hi {
      SocketsSplit(es, n, lo, mid, hi - 1);
    }
  }

  lemma {:induction false} SocketsFrame(es: Entries, es': Entries, n: NetifPtr, lo: nat, hi: nat)
    requires lo <= hi <= MAX_LISTENERS
    requires forall i :: lo <= i < hi ==> Owns(es, n, i) == Owns(es', n, i)
    ensures SocketsIn(es, n, lo, hi) == SocketsIn(es', n, lo, hi)
    decreases hi
  {
    if lo < hi {
      SocketsFrame(es, es', n, lo, hi - 1);
    }
  }

  /** Exactly the slots in use with that owner, once each, in slot order. */
  lemma SocketsAreItsSlots(es: Entries, n: NetifPtr)
    ensures var s := Sockets(es, n);
            && (forall k, l :: 0 <= k < l < |s| ==> s[k] < s[l])
            && (forall i: nat :: i in s <==> i < 16 && n != 0 && es[i].inUse && es[i].owner == n)
  {
    SocketsAreOwnedInOrder(es, n, 0, |es|);
    assert forall i: nat :: i in Sockets(es, n) ==> exists k :: 0 <= k < |Sockets(es, n)| && Sockets(es, n)[k] == i;
  }

  lemma {:induction false} SocketsAreOwnedInOrder(es: Entries, n: NetifPtr, lo: nat, hi: nat)
    requires lo <= hi <= MAX_LISTENERS
    ensures var s := SocketsIn(es, n, lo, hi);
            && |s| <= hi - lo
            && (forall k :: 0 <= k < |s| ==> lo <= s[k] < hi && Owns(es, n, s[k]))
            && (forall k, l :: 0 <= k < l < |s| ==> s[k] < s[l])
            && (forall i :: lo <= i < hi && Owns(es, n, i) ==> i in s)
    decreases hi
  {
    if lo < hi {
      SocketsAreOwnedInOrder(es, n, lo, hi - 1);
      var s, below := SocketsIn(es, n, lo, hi), SocketsIn(es, n, lo, hi - 1);
      assert forall k :: 0 <= k < |below| ==> s[k] == below[k];
      assert forall i :: i in below ==> i in s;
    }
  }

  lemma {:induction false} NothingOwned(es: Entries, n: NetifPtr, lo: nat, hi: nat)
    requires lo <= hi <= MAX_LISTENERS
    requires forall i :: lo <= i < hi ==> !Owns(es, n, i)
    ensures SocketsIn(es, n, lo, hi) == []
    decreases hi
  {
    if lo < hi {
      NothingOwned(es, n, lo, hi - 1);
    }
  }

  lemma SocketsAt(es: Entries, n: NetifPtr, i: nat)
    requires i < MAX_LISTENERS
    ensures Sockets(es, n) == SocketsIn(es, n, 0, i) + (if Owns(es, n, i) then [i] else [])
                              + SocketsIn(es, n, i + 1, |es|)
  {
    SocketsSplit(es, n, 0, i, |es|);
    SocketsSplit(es, n, i, i + 1, |es|);
    assert SocketsIn(es, n, i, i) == [];
  }

  /** Slots other than i keep their place when slot i changes hands. */
  lemma SocketsAfterChange(es: Entries, e: Entry, n: NetifPtr, i: nat)
    requires i < MAX_LISTENERS
    ensures var es' := es[i := e];
            Sockets(es', n) == SocketsIn(es, n, 0, i) + (if Owns(es', n, i) then [i] else [])
                               + SocketsIn(es, n, i + 1, |es|)
  {
    var es' := es[i := e];
    SocketsAt(es', n, i);
    SocketsFrame(es, es', n, 0, i);
    SocketsFrame(es, es', n, i + 1, |es|);
  }

  /** The socket at position k splits the list at its own slot. */
  lemma SocketsAround(es: Entries, n: NetifPtr, k: nat)
    requires k < |Sockets(es, n)|
    ensures var i := Sockets(es, n)[k];
            && i < MAX_LISTENERS && Owns(es, n, i)
            && Sockets(es, n)[..k] == SocketsIn(es, n, 0, i)
            && Sockets(es, n)[k + 1..] == SocketsIn(es, n, i + 1, |es|)
  {
    SocketsAreOwnedInOrder(es, n, 0, |es|);
    var s := Sockets(es, n);
    var i := s[k];
    SocketsAt(es, n, i);
    var below := SocketsIn(es, n, 0, i);
    assert s[|below|] == i;
    assert k == |below|;
  }

  /** Opening inserts one socket, at the place of the lowest free slot; nobody else's list moves. */
  lemma OpenInsertsOne(es: Entries, others: seq<Pcb>, owner: NetifPtr, want: Pcb, env: OpenEnv, m: NetifPtr)
    requires PlanOpen(es, others, owner, want, env).Accepted?
    ensures var i := PlanOpen(es, others, owner, want, env).slot;
            var es' := Open(es, others, owner, want, env);
            && (forall j :: 0 <= j < i ==> es[j].inUse) && !es[i].inUse
            && Sockets(es, owner) == SocketsIn(es, owner, 0, i) + SocketsIn(es, owner, i + 1, |es|)
            && Sockets(es', owner) == SocketsIn(es, owner, 0, i) + [i] + SocketsIn(es, owner, i + 1, |es|)
            && (m != owner ==> Sockets(es', m) == Sockets(es, m))
  {
    var Accepted(i, pcb) := PlanOpen(es, others, owner, want, env);
    SocketsAt(es, owner, i);
    SocketsAfterChange(es, Opened(es, i, owner, pcb)[i], owner, i);
    SocketsAt(es, m, i);
    SocketsAfterChange(es, Opened(es, i, owner, pcb)[i], m, i);
  }

  /** Closing the k-th socket deletes just that element; nobody else's list moves. */
  lemma CloseDeletesOne(es: Entries, n: NetifPtr, k: nat, m: NetifPtr)
    requires k < |Sockets(es, n)|
    ensures var i := Sockets(es, n)[k];
            && i < MAX_LISTENERS
            && Resolve(es, MakeId(es, i)) == Some(i)
            && Sockets(Close(es, i), n) == Sockets(es, n)[..k] + Sockets(es, n)[k + 1..]
            && (m != n ==> Sockets(Close(es, i), m) == Sockets(es, m))
  {
    SocketsAround(es, n, k);
    var i := Sockets(es, n)[k];
    ResolveMakeId(es, es, i, i);
    SocketsAfterChange(es, Released(es[i]), n, i);
    SocketsAt(es, m, i);
    SocketsAfterChange(es, Released(es[i]), m, i);
  }

  /** Remove-all empties one netif's list and leaves every slot of the others as it was. */
  lemma CloseAllEmpties(es: Entries, n: NetifPtr, m: NetifPtr)
    ensures Sockets(CloseAll(es, n), n) == []
    ensures m != n ==> Sockets(CloseAll(es, n), m) == Sockets(es, m)
    ensures forall i :: 0 <= i < MAX_LISTENERS && !Owns(es, n, i) ==> CloseAll(es, n)[i] == es[i]
  {
    var es' := CloseAll(es, n);
    NothingOwned(es', n, 0, |es|);
    if m != n { SocketsFrame(es, es', m, 0, |es|); }
  }
}
