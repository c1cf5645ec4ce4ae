/**
 Are the sockets bound where their interfaces are?  udp_source_netif_ip_changed does not look at the result
 of udp_bind; this module says exactly when the addresses agree all the same, on every board and over
 every run.
 */
module BoundAddresses {
  import opened Words
  import opened Registry
  import opened NetManager

  // ---------------------------------------------------------------------------------------------
  // Moving the sockets of one interface

  /** All sockets of n are bound to `ip`. */
  ghost predicate AllAt(es: Entries, n: NetifPtr, ip: Word32) {
    forall i :: 0 <= i < MAX_LISTENERS && Owns(es, n, i) ==> es[i].pcb.Some? && es[i].pcb.value.ip == ip
  }

  /** No pcb outside interface n stands in the way of moving n's sockets to `ip`. */
  ghost predicate RebindFree(es: Entries, others: seq<Pcb>, n: NetifPtr, ip: Word32) {
    forall i :: 0 <= i < MAX_LISTENERS && Owns(es, n, i) && es[i].pcb.Some? ==>
      var want := Pcb(ip, es[i].pcb.value.port);
      && (forall j :: 0 <= j < MAX_LISTENERS && !Owns(es, n, j) && es[j].pcb.Some? ==> !Clash(es[j].pcb.value, want))
      && (forall k :: 0 <= k < |others| ==> !Clash(others[k], want))
  }

  /** No two sockets of n share a port. */
  ghost predicate DistinctPorts(es: Entries, n: NetifPtr) {
    forall i, j :: 0 <= i < j < MAX_LISTENERS && Owns(es, n, i) && Owns(es, n, j) && es[i].pcb.Some? && es[j].pcb.Some? ==>
      es[i].pcb.value.port != es[j].pcb.value.port
  }

  /** What a caller can check before changing the address of n. */
  ghost predicate CanMove(es: Entries, others: seq<Pcb>, n: NetifPtr, ip: Word32) {
    RebindFree(es, others, n, ip) && DistinctPorts(es, n)
  }

  /** n's sockets below slot i have moved to `ip`. */
  function Moved(es: Entries, n: NetifPtr, ip: Word32, i: nat): Entries {
    seq(MAX_LISTENERS, j requires 0 <= j < MAX_LISTENERS =>
      if j < i && Owns(es, n, j) && es[j].pcb.Some? then es[j].(pcb := Some(Pcb(ip, es[j].pcb.value.port))) else es[j])
  }

  lemma MovedStep(es: Entries, others: seq<Pcb>, n: NetifPtr, ip: Word32, i: nat)
    requires i < MAX_LISTENERS && Exclusive(es, others) && CanMove(es, others, n, ip)
    ensures RebindOne(Moved(es, n, ip, i), others, n, ip, i) == Moved(es, n, ip, i + 1)
  {
    if Owns(es, n, i) {
      var want := Pcb(ip, es[i].pcb.value.port);
      forall j | 0 <= j < MAX_LISTENERS && j != i && Moved(es, n, ip, i)[j].pcb.Some?
        ensures !Clash(Moved(es, n, ip, i)[j].pcb.value, want)
      {
        assert Owns(es, n, j) ==> es[j].pcb.Some? && es[j].pcb.value.port != want.port;
      }
      assert !Blocked(Moved(es, n, ip, i), others, i, want);
    }
  }

  lemma {:induction false} AllMove(es: Entries, others: seq<Pcb>, n: NetifPtr, ip: Word32, i: nat)
    requires i <= MAX_LISTENERS && Exclusive(es, others) && CanMove(es, others, n, ip)
    ensures RebindFrom(Moved(es, n, ip, i), others, n, ip, i) == Moved(es, n, ip, MAX_LISTENERS)
    decreases MAX_LISTENERS - i
  {
    if i < MAX_LISTENERS {
      MovedStep(es, others, n, ip, i);
      AllMove(es, others, n, ip, i + 1);
    }
  }

  lemma {:induction false} OutsidersStay(es: Entries, others: seq<Pcb>, n: NetifPtr, ip: Word32, from: nat, j: nat)
    requires from <= MAX_LISTENERS && j < MAX_LISTENERS && !Owns(es, n, j)
    ensures RebindFrom(es, others, n, ip, from)[j] == es[j]
    decreases MAX_LISTENERS - from
  {
    if from < MAX_LISTENERS {
      OutsidersStay(RebindOne(es, others, n, ip, from), others, n, ip, from + 1, j);
    }
  }

  lemma ArrivedMeansFree(es: Entries, others: seq<Pcb>, n: NetifPtr, ip: Word32)
    requires Exclusive(es, others) && AllAt(RebindFrom(es, others, n, ip, 0), n, ip)
    ensures CanMove(es, others, n, ip)
  {
    var es' := RebindFrom(es, others, n, ip, 0);
    RebindKeepsExclusive(es, others, n, ip, 0);
    forall i | 0 <= i < MAX_LISTENERS && Owns(es, n, i)
      ensures es'[i].inUse && es'[i].pcb == Some(Pcb(ip, es[i].pcb.value.port))
    {
      assert Owns(es', n, i);
    }
    forall j | 0 <= j < MAX_LISTENERS && !Owns(es, n, j)
      ensures es'[j] == es[j]
    {
      OutsidersStay(es, others, n, ip, 0, j);
    }
  }

  /** The scan over the slots brings every socket of n to `ip` if and only if no pcb outside n holds one of
      n's ports there and no two of n's sockets share a port. */
  lemma RebindReachesIff(es: Entries, others: seq<Pcb>, n: NetifPtr, ip: Word32)
    requires Exclusive(es, others)
    ensures AllAt(RebindFrom(es, others, n, ip, 0), n, ip) <==> CanMove(es, others, n, ip)
  {
    if CanMove(es, others, n, ip) {
      AllMove(es, others, n, ip, 0);
      assert Moved(es, n, ip, 0) == es;
    } else if AllAt(RebindFrom(es, others, n, ip, 0), n, ip) {
      ArrivedMeansFree(es, others, n, ip);
    }
  }

  // ---------------------------------------------------------------------------------------------
  // The whole board

  /** Socket i, if it is one of m's, is at m's address. */
  ghost predicate At(es: Entries, m: Netif, i: nat)
    requires i < MAX_LISTENERS
  {
    Owns(es, m.ptr, i) ==> es[i].pcb.Some? && es[i].pcb.value.ip == m.ip
  }

  /** Every open socket is bound to the current address of its interface. */
  ghost predicate Agrees(b: Board) {
    forall m: Netif, i :: m in b.netifs && 0 <= i < MAX_LISTENERS ==> At(b.es, m, i)
  }

  ghost predicate AgreesOutside(b: Board, n: NetifPtr) {
    forall m: Netif, i :: m in b.netifs && m.ptr != n && 0 <= i < MAX_LISTENERS ==> At(b.es, m, i)
  }

  ghost predicate AgreesBut(b: Board, slot: nat) {
    forall m: Netif, i :: m in b.netifs && 0 <= i < MAX_LISTENERS && i != slot ==> At(b.es, m, i)
  }

  lemma SetIpElsewhere(b: Board, idx: int, ip: Word32, m: Netif, i: nat)
    requires Inv(b) && 1 <= idx <= |b.netifs| && m.ptr != b.netifs[idx - 1].ptr && i < MAX_LISTENERS
    ensures m in SetIp(b, idx, ip).netifs <==> m in b.netifs
    ensures At(SetIp(b, idx, ip).es, m, i) <==> At(b.es, m, i)
  {
    var n := b.netifs[idx - 1].ptr;
    RebindKeepsExclusive(b.es, b.others, n, ip, 0);
    if !Owns(b.es, n, i) {
      OutsidersStay(b.es, b.others, n, ip, 0, i);
    }
    var netifs := SetIp(b, idx, ip).netifs;
    if m in b.netifs {
      var k :| 0 <= k < |b.netifs| && b.netifs[k] == m;
      assert netifs[k] == m;
    }
  }

  lemma SetIpHere(b: Board, idx: int, ip: Word32)
    requires Inv(b) && 1 <= idx <= |b.netifs|
    ensures var b', n := SetIp(b, idx, ip), b.netifs[idx - 1].ptr;
            && b'.netifs[idx - 1] in b'.netifs && b'.netifs[idx - 1].ptr == n && b'.netifs[idx - 1].ip == ip
            && (forall m: Netif :: m in b'.netifs && m.ptr == n ==> m.ip == ip)
  {
    var b' := SetIp(b, idx, ip);
    forall m: Netif | m in b'.netifs && m.ptr == b.netifs[idx - 1].ptr
      ensures m.ip == ip
    {
      var k :| 0 <= k < |b'.netifs| && b'.netifs[k] == m;
      assert k == idx - 1;
    }
  }

  /** After a change of address every socket of the board is at its interface's address if and only if the
      sockets of that interface could move and all others were right before. */
  lemma SetIpAgrees(b: Board, idx: int, ip: Word32)
    requires Inv(b) && 1 <= idx <= |b.netifs|
    ensures var n := b.netifs[idx - 1].ptr;
            && (AllAt(SetIp(b, idx, ip).es, n, ip) <==> CanMove(b.es, b.others, n, ip))
            && (Agrees(SetIp(b, idx, ip)) <==> CanMove(b.es, b.others, n, ip) && AgreesOutside(b, n))
  {
    var b', n := SetIp(b, idx, ip), b.netifs[idx - 1].ptr;
    RebindReachesIff(b.es, b.others, n, ip);
    SetIpHere(b, idx, ip);
    SetIpSplits(b, idx, ip);
  }

  lemma SetIpSplits(b: Board, idx: int, ip: Word32)
    requires Inv(b) && 1 <= idx <= |b.netifs|
    ensures var b', n := SetIp(b, idx, ip), b.netifs[idx - 1].ptr;
            Agrees(b') <==> AllAt(b'.es, n, ip) && AgreesOutside(b, n)
  {
    var b', n := SetIp(b, idx, ip), b.netifs[idx - 1].ptr;
    SetIpHere(b, idx, ip);
    forall m: Netif, i | m.ptr != n && 0 <= i < MAX_LISTENERS
      ensures m in b'.netifs <==> m in b.netifs
      ensures At(b'.es, m, i) <==> At(b.es, m, i)
    {
      SetIpElsewhere(b, idx, ip, m, i);
    }
    if Agrees(b') {
      forall i | 0 <= i < MAX_LISTENERS && Owns(b'.es, n, i)
        ensures b'.es[i].pcb.Some? && b'.es[i].pcb.value.ip == ip
      {
        assert At(b'.es, b'.netifs[idx - 1], i);
      }
    }
  }

  /** Sockets that are where their interface is can always be rebound there: a rejected menu input does no
      harm, whatever the other interfaces' sockets are bound to. */
  lemma SameAddressIsFree(b: Board, idx: int)
    requires Inv(b) && 1 <= idx <= |b.netifs|
    requires AllAt(b.es, b.netifs[idx - 1].ptr, b.netifs[idx - 1].ip)
    ensures CanMove(b.es, b.others, b.netifs[idx - 1].ptr, b.netifs[idx - 1].ip)
  {
    var n := b.netifs[idx - 1];
    forall i | 0 <= i < MAX_LISTENERS && Owns(b.es, n.ptr, i)
      ensures b.es[i].pcb.value == Pcb(n.ip, b.es[i].pcb.value.port)
    {
    }
  }

  // ---------------------------------------------------------------------------------------------
  // One command

  /** Will the addresses agree after command c? */
  ghost predicate WillAgree(b: Board, c: Command) {
    if c.NetifDel? && 1 <= c.idx <= |b.netifs| && b.netifs[c.idx - 1].ptr != PHYSICAL then
      AgreesOutside(b, b.netifs[c.idx - 1].ptr)
    else if ChangesIp(b, c) then
      CanMove(b.es, b.others, b.netifs[c.idx - 1].ptr, NewIp(b, c)) && AgreesOutside(b, b.netifs[c.idx - 1].ptr)
    else if c.SockClose? && 1 <= c.idx <= |b.netifs| && 1 <= c.nth <= |Sockets(b.es, b.netifs[c.idx - 1].ptr)| then
      AgreesBut(b, Sockets(b.es, b.netifs[c.idx - 1].ptr)[c.nth - 1])
    else
      Agrees(b)
  }

  predicate ChangesIp(b: Board, c: Command) {
    ((c.NetifSet? && c.field == "IP") || c.MenuSetIp?) && 1 <= c.idx <= |b.netifs|
  }

  function NewIp(b: Board, c: Command): Word32
    requires ChangesIp(b, c)
  {
    if c.NetifSet? then c.value else if c.typed.Some? then c.typed.value else b.netifs[c.idx - 1].ip
  }

  lemma ChangeIsSetIp(b: Board, c: Command)
    requires Inv(b) && ChangesIp(b, c)
    ensures Exec(b, c).0 == SetIp(b, c.idx, NewIp(b, c))
  {
    ListedIsNotNull(b, c.idx);
  }

  lemma ChangeAgrees(b: Board, c: Command)
    requires Inv(b) && ChangesIp(b, c)
    ensures Agrees(Exec(b, c).0) <==> WillAgree(b, c)
  {
    ChangeIsSetIp(b, c);
    SetIpAgrees(b, c.idx, NewIp(b, c));
  }

  lemma AddAgrees(b: Board, ip: Word32, mask: Word32, gw: Word32)
    requires Inv(b)
    ensures Agrees(NetIfAdd(b, ip, mask, gw).0) <==> Agrees(b)
  {
    var r := FirstUnused(b.used, 0);
    if r.Some? {
      var b' := AliasAdded(b, r.value, ip, mask, gw);
      AliasAddedKeepsInv(b, r.value, ip, mask, gw);
      assert forall i :: 0 <= i < MAX_LISTENERS && b.es[i].inUse ==> b.es[i].owner in Ptrs(b.netifs);
      assert forall m: Netif :: m in b'.netifs <==> m == b'.netifs[0] || m in b.netifs;
    }
  }

  lemma RemoveAgrees(b: Board, n: NetifPtr)
    requires Inv(b) && n in Ptrs(b.netifs) && n != PHYSICAL
    ensures Agrees(NetIfRemove(b, n).0) <==> AgreesOutside(b, n)
  {
    var b' := NetIfRemove(b, n).0;
    WithoutRemovesOne(b.netifs, n);
    assert n in UsedPtrs(b.used);
    assert forall m: Netif :: m in b'.netifs <==> m in b.netifs && m.ptr != n;
    forall m: Netif, i | m.ptr != n && 0 <= i < MAX_LISTENERS
      ensures At(b'.es, m, i) <==> At(b.es, m, i)
    {
    }
  }

  lemma DeleteAgrees(b: Board, idx: int)
    requires Inv(b)
    ensures Agrees(Exec(b, NetifDel(idx)).0) <==> WillAgree(b, NetifDel(idx))
  {
    ListedIsNotNull(b, idx);
    if 1 <= idx <= |b.netifs| && b.netifs[idx - 1].ptr != PHYSICAL {
      assert b.netifs[idx - 1] in b.netifs;
      RemoveAgrees(b, b.netifs[idx - 1].ptr);
    }
  }

  lemma SameAddressesAgree(b: Board, b': Board)
    requires b'.es == b.es && |b'.netifs| == |b.netifs| && Agrees(b)
    requires forall k :: 0 <= k < |b.netifs| ==> b'.netifs[k].ptr == b.netifs[k].ptr && b'.netifs[k].ip == b.netifs[k].ip
    ensures Agrees(b')
  {
    forall m: Netif, i | m in b'.netifs && 0 <= i < MAX_LISTENERS
      ensures At(b'.es, m, i)
    {
      var k :| 0 <= k < |b'.netifs| && b'.netifs[k] == m;
      assert At(b.es, b.netifs[k], i);
    }
  }

  lemma MaskAgrees(b: Board, idx: int, m: Netif)
    requires 1 <= idx <= |b.netifs| && m.ptr == b.netifs[idx - 1].ptr && m.ip == b.netifs[idx - 1].ip
    ensures Agrees(b.(netifs := b.netifs[idx - 1 := m])) <==> Agrees(b)
  {
    var b' := b.(netifs := b.netifs[idx - 1 := m]);
    if Agrees(b) { SameAddressesAgree(b, b'); }
    if Agrees(b') { SameAddressesAgree(b', b); }
  }

  lemma NetifSetAgrees(b: Board, idx: int, field: string, v: Word32)
    requires Inv(b)
    ensures Agrees(Exec(b, NetifSet(idx, field, v)).0) <==> WillAgree(b, NetifSet(idx, field, v))
  {
    ListedIsNotNull(b, idx);
    if 1 <= idx <= |b.netifs| {
      if field == "IP" {
        ChangeAgrees(b, NetifSet(idx, field, v));
      } else if field == "MASK" {
        MaskAgrees(b, idx, b.netifs[idx - 1].(mask := v));
      } else if field == "GW" {
        MaskAgrees(b, idx, b.netifs[idx - 1].(gw := v));
      }
    }
  }

  lemma OpenedAgrees(b: Board, k: nat, i: nat, pcb: Pcb)
    requires Inv(b) && k < |b.netifs| && i < MAX_LISTENERS && !b.es[i].inUse && pcb.ip == b.netifs[k].ip
    ensures Agrees(b.(es := Opened(b.es, i, b.netifs[k].ptr, pcb))) <==> Agrees(b)
  {
    var es' := Opened(b.es, i, b.netifs[k].ptr, pcb);
    forall m: Netif, j | m in b.netifs && 0 <= j < MAX_LISTENERS
      ensures j != i ==> (At(es', m, j) <==> At(b.es, m, j))
      ensures At(es', m, i) && At(b.es, m, i)
    {
      var l :| 0 <= l < |b.netifs| && b.netifs[l] == m;
      assert m.ptr == b.netifs[k].ptr ==> l == k;
    }
  }

  lemma SockOpenAgrees(b: Board, idx: int, port: Word16, env: OpenEnv)
    requires Inv(b)
    ensures Agrees(Exec(b, SockOpen(idx, port, env)).0) <==> Agrees(b)
  {
    ListedIsNotNull(b, idx);
    if 1 <= idx <= |b.netifs| {
      var n := b.netifs[idx - 1];
      var plan := PlanOpen(b.es, b.others, n.ptr, Pcb(n.ip, port), env);
      if plan.Accepted? {
        BindIsFree(b.es, b.others, MAX_LISTENERS, Pcb(n.ip, port), env.newPort);
        OpenedAgrees(b, idx - 1, plan.slot, plan.pcb);
      }
    }
  }

  lemma ClosedAgrees(b: Board, i: nat)
    requires i < MAX_LISTENERS
    ensures Agrees(b.(es := Close(b.es, i))) <==> AgreesBut(b, i)
  {
    var es' := Close(b.es, i);
    forall m: Netif, j | 0 <= j < MAX_LISTENERS
      ensures j != i ==> (At(es', m, j) <==> At(b.es, m, j))
      ensures At(es', m, i)
    {
    }
  }

  lemma SockCloseAgrees(b: Board, idx: int, nth: int)
    requires Inv(b)
    ensures Agrees(Exec(b, SockClose(idx, nth)).0) <==> WillAgree(b, SockClose(idx, nth))
  {
    ListedIsNotNull(b, idx);
    if 1 <= idx <= |b.netifs| && 1 <= nth <= |Sockets(b.es, b.netifs[idx - 1].ptr)| {
      var n := b.netifs[idx - 1].ptr;
      CloseDeletesOne(b.es, n, nth - 1, n);
      ClosedAgrees(b, Sockets(b.es, n)[nth - 1]);
    }
  }

  lemma MenuSetIpAgrees(b: Board, idx: int, typed: Option<Word32>)
    requires Inv(b)
    ensures Agrees(Exec(b, MenuSetIp(idx, typed)).0) <==> WillAgree(b, MenuSetIp(idx, typed))
  {
    ListedIsNotNull(b, idx);
    if 1 <= idx <= |b.netifs| { ChangeAgrees(b, MenuSetIp(idx, typed)); }
  }

  /** For every command on every board of a run: the addresses agree afterwards if and only if a condition
      on the board before it holds. */
  lemma ExecAgrees(b: Board, c: Command)
    requires Inv(b)
    ensures Agrees(Exec(b, c).0) <==> WillAgree(b, c)
  {
    match c
    case NetifAdd(ip, mask, gw) => AddAgrees(b, ip, mask, gw);
    case NetifDel(idx) => DeleteAgrees(b, idx);
    case NetifSet(idx, field, v) => NetifSetAgrees(b, idx, field, v);
    case SockOpen(idx, port, env) => SockOpenAgrees(b, idx, port, env);
    case SockClose(idx, nth) => SockCloseAgrees(b, idx, nth);
    case MenuSetIp(idx, typed) => MenuSetIpAgrees(b, idx, typed);
  }

  // ---------------------------------------------------------------------------------------------
  // Every run

  /** No rebind of this command will be refused. */
  ghost predicate NothingRefused(b: Board, c: Command) {
    ChangesIp(b, c) ==> CanMove(b.es, b.others, b.netifs[c.idx - 1].ptr, NewIp(b, c))
  }

  ghost predicate NothingRefusedIn(b: Board, cs: seq<Command>) {
    cs == [] || (NothingRefusedIn(b, cs[..|cs| - 1]) && NothingRefused(Run(b, cs[..|cs| - 1]), cs[|cs| - 1]))
  }

  /** The addresses agree at the start and after each command. */
  ghost predicate AlwaysAgrees(b: Board, cs: seq<Command>) {
    Agrees(Run(b, cs)) && (cs != [] ==> AlwaysAgrees(b, cs[..|cs| - 1]))
  }

  lemma FromAgreement(b: Board, c: Command)
    requires Inv(b) && Agrees(b)
    ensures WillAgree(b, c) <==> NothingRefused(b, c)
  {
  }

  /** Over every run from boot: every open socket is bound to its interface's current address after each
      command if and only if no rebind of the run was refused. */
  lemma {:induction false} BoundAddressesAgree(physical: Netif, others: seq<Pcb>, cs: seq<Command>)
    ensures AlwaysAgrees(Boot(physical, others), cs) <==> NothingRefusedIn(Boot(physical, others), cs)
  {
    if cs != [] {
      var front, c := cs[..|cs| - 1], cs[|cs| - 1];
      BoundAddressesAgree(physical, others, front);
      NoDanglingOwnerEver(physical, others, front);
      var b := Run(Boot(physical, others), front);
      ExecAgrees(b, c);
      if AlwaysAgrees(Boot(physical, others), front) {
        FromAgreement(b, c);
      }
    }
  }

  // ---------------------------------------------------------------------------------------------
  // Both refusals are real

  const ADD_ALIAS := NetifAdd(2, 0, 0)
  const OPEN_ON_ALIAS := SockOpen(1, 5000, OpenEnv(true, 0))
  const OPEN_ON_PHYSICAL := SockOpen(2, 5000, OpenEnv(true, 0))
  const TAKE_PHYSICALS_ADDRESS := NetifSet(1, "IP", 1)
  const CLOSE_ON_PHYSICAL := SockClose(2, 1)
  const MOVE_ON := NetifSet(1, "IP", 4)

  /** The board after these commands from boot, with the physical interface at address 1. */
  function After(cs: seq<Command>): Board { Run(NetManager.Boot(Netif(PHYSICAL, 1, 0, 0), []), cs) }

  lemma AfterSnoc(cs: seq<Command>, c: Command)
    ensures After(cs + [c]) == Exec(After(cs), c).0
  {
    RunSnoc(NetManager.Boot(Netif(PHYSICAL, 1, 0, 0), []), cs, c);
  }

  /** Slot 0 belongs to the alias, slot 1 to `owner`, both on port 5000; nothing else is open. */
  predicate TwoOnOnePort(es: Entries, owner: NetifPtr, gen: Byte) {
    && es[0] == Entry(Some(Pcb(2, 5000)), AliasPtr(0), 0, true) && es[1] == Entry(Some(Pcb(1, 5000)), owner, gen, true)
    && forall i :: 2 <= i < MAX_LISTENERS ==> es[i] == EMPTY_ENTRY
  }

  const CLASH := [ADD_ALIAS, OPEN_ON_ALIAS, OPEN_ON_PHYSICAL]

  /** An alias at address 2 and the physical interface at 1, each with a socket on port 5000. */
  lemma ClashingPortsBoard()
    ensures var b := After(CLASH);
            && b.netifs == [Netif(AliasPtr(0), 2, 0, 0), Netif(PHYSICAL, 1, 0, 0)] && b.others == []
            && TwoOnOnePort(b.es, PHYSICAL, 0)
  {
    AfterSnoc([], ADD_ALIAS);
    AfterSnoc([ADD_ALIAS], OPEN_ON_ALIAS);
    AfterSnoc([ADD_ALIAS, OPEN_ON_ALIAS], OPEN_ON_PHYSICAL);
    assert [] + [ADD_ALIAS] == [ADD_ALIAS] && [ADD_ALIAS] + [OPEN_ON_ALIAS] == [ADD_ALIAS, OPEN_ON_ALIAS];
    assert [ADD_ALIAS, OPEN_ON_ALIAS] + [OPEN_ON_PHYSICAL] == CLASH;
    var b1 := After([ADD_ALIAS]);
    assert b1.netifs == [Netif(AliasPtr(0), 2, 0, 0), Netif(PHYSICAL, 1, 0, 0)];
    FirstFreeIs(b1.es, 0);
    FirstFreeIs(After([ADD_ALIAS, OPEN_ON_ALIAS]).es, 1);
  }

  /** Blocked from outside: the alias takes the physical interface's address, NETIF SET answers OK, and the
      alias's socket stays behind. */
  lemma RefusedRebindExists()
    ensures var b := After(CLASH);
            && Exec(b, TAKE_PHYSICALS_ADDRESS).1 == "OK"
            && DistinctPorts(b.es, AliasPtr(0)) && !RebindFree(b.es, b.others, AliasPtr(0), 1)
            && !Agrees(Exec(b, TAKE_PHYSICALS_ADDRESS).0)
  {
    var b := After(CLASH);
    ClashingPortsBoard();
    NoDanglingOwnerEver(Netif(PHYSICAL, 1, 0, 0), [], CLASH);
    assert Clash(b.es[1].pcb.value, Pcb(1, 5000)) && Owns(b.es, AliasPtr(0), 0);
    ExecAgrees(b, TAKE_PHYSICALS_ADDRESS);
  }

  const HEALED_TOO_LATE := CLASH + [TAKE_PHYSICALS_ADDRESS, CLOSE_ON_PHYSICAL, OPEN_ON_ALIAS]

  /** After the refusal, the physical interface's socket is closed and the alias opens the port again, now
      at its new address: both of its sockets are on port 5000. */
  lemma SharedPortBoard()
    ensures var b := After(HEALED_TOO_LATE);
            && b.netifs == [Netif(AliasPtr(0), 1, 0, 0), Netif(PHYSICAL, 1, 0, 0)] && b.others == []
            && TwoOnOnePort(b.es, AliasPtr(0), 1)
  {
    var refused := CLASH + [TAKE_PHYSICALS_ADDRESS];
    var closed := refused + [CLOSE_ON_PHYSICAL];
    assert closed + [OPEN_ON_ALIAS] == HEALED_TOO_LATE;
    AfterSnoc(CLASH, TAKE_PHYSICALS_ADDRESS);
    AfterSnoc(refused, CLOSE_ON_PHYSICAL);
    AfterSnoc(closed, OPEN_ON_ALIAS);
    TakenBoard();
    ClosedBoard(After(refused));
    ReopenedBoard(After(closed), After(refused).es);
  }

  lemma ReopenedBoard(b: Board, es: Entries)
    requires b.netifs == [Netif(AliasPtr(0), 1, 0, 0), Netif(PHYSICAL, 1, 0, 0)] && b.others == []
    requires TwoOnOnePort(es, PHYSICAL, 0) && b.es == Close(es, 1)
    ensures var b' := Exec(b, OPEN_ON_ALIAS).0; b' == b.(es := b'.es) && TwoOnOnePort(b'.es, AliasPtr(0), 1)
  {
    FirstFreeIs(b.es, 1);
    assert !Blocked(b.es, [], MAX_LISTENERS, Pcb(1, 5000));
  }

  lemma TakenBoard()
    ensures var b := Exec(After(CLASH), TAKE_PHYSICALS_ADDRESS).0;
            && b.netifs == [Netif(AliasPtr(0), 1, 0, 0), Netif(PHYSICAL, 1, 0, 0)] && b.others == []
            && TwoOnOnePort(b.es, PHYSICAL, 0)
  {
    var b := After(CLASH);
    ClashingPortsBoard();
    RefusedStays(b.es, 0);
  }

  lemma {:induction false} RefusedStays(es: Entries, from: nat)
    requires from <= MAX_LISTENERS
    requires TwoOnOnePort(es, PHYSICAL, 0)
    ensures RebindFrom(es, [], AliasPtr(0), 1, from) == es
    decreases MAX_LISTENERS - from
  {
    if from < MAX_LISTENERS {
      assert Clash(es[1].pcb.value, Pcb(1, 5000));
      assert RebindOne(es, [], AliasPtr(0), 1, from) == es;
      RefusedStays(es, from + 1);
    }
  }

  lemma ClosedBoard(b: Board)
    requires b.netifs == [Netif(AliasPtr(0), 1, 0, 0), Netif(PHYSICAL, 1, 0, 0)]
    requires TwoOnOnePort(b.es, PHYSICAL, 0)
    ensures Exec(b, CLOSE_ON_PHYSICAL).0 == b.(es := Close(b.es, 1))
  {
    SocketsAt(b.es, PHYSICAL, 1);
    NothingOwned(b.es, PHYSICAL, 0, 1);
    NothingOwned(b.es, PHYSICAL, 2, |b.es|);
    assert Sockets(b.es, PHYSICAL) == [1];
    ResolveMakeId(b.es, b.es, 1, 1);
  }

  /** Blocked from inside: nobody else holds the port at address 4 and NETIF SET answers OK, yet one of the
      alias's two sockets stays behind, blocked by the other. */
  lemma SharedPortExists()
    ensures var b := After(HEALED_TOO_LATE);
            && Exec(b, MOVE_ON).1 == "OK"
            && RebindFree(b.es, b.others, AliasPtr(0), 4) && !DistinctPorts(b.es, AliasPtr(0))
            && !AllAt(Exec(b, MOVE_ON).0.es, AliasPtr(0), 4) && !Agrees(Exec(b, MOVE_ON).0)
  {
    var b := After(HEALED_TOO_LATE);
    SharedPortBoard();
    NoDanglingOwnerEver(Netif(PHYSICAL, 1, 0, 0), [], HEALED_TOO_LATE);
    assert Owns(b.es, AliasPtr(0), 0) && Owns(b.es, AliasPtr(0), 1);
    assert b.es[0].pcb.value.port == b.es[1].pcb.value.port;
    SetIpAgrees(b, 1, 4);
    ExecAgrees(b, MOVE_ON);
  }
}
