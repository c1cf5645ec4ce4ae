/**
 Interfaces and sockets together: the lwIP interface list, the pool of alias interfaces, and the
 ownership view of the registry.  The operations are net_if_add / net_if_remove and the state changes
 of the command and menu handlers; the theorems are about every run of them.
 */
module NetManager {
  import opened Words
  import opened Registry

  const MAX_ALIAS: nat := 7
  const PHYSICAL: NetifPtr := 1

  /** The address of the k-th object of the alias pool. */
  function AliasPtr(k: nat): NetifPtr { 2 + k }

  datatype Netif = Netif(ptr: NetifPtr, ip: Word32, mask: Word32, gw: Word32)
  type AliasPool = u: seq<bool> | |u| == MAX_ALIAS witness seq(MAX_ALIAS, _ => false)

  // netifs: netif_list from its head; used: alias_list[].used; others: pcbs outside the registry.
  datatype Board = Board(netifs: seq<Netif>, used: AliasPool, es: Entries, others: seq<Pcb>)

  function Ptrs(netifs: seq<Netif>): set<NetifPtr> { set m | m in netifs :: m.ptr }

  function UsedPtrs(used: AliasPool): set<NetifPtr> { set k | 0 <= k < MAX_ALIAS && used[k] :: AliasPtr(k) }

  // ---------------------------------------------------------------------------------------------
  // lwIPAliasAdd / lwIPAliasRemove / net_if_add / net_if_remove

  function FirstUnused(used: AliasPool, from: nat): (r: Option<nat>)
    requires from <= MAX_ALIAS
    ensures r.Some? ==> from <= r.value < MAX_ALIAS && !used[r.value]
    ensures r.Some? ==> forall k :: from <= k < r.value ==> used[k]
    ensures r.None? ==> forall k :: from <= k < MAX_ALIAS ==> used[k]
    decreases |used| - from
  {
    if from == |used| then None
    else if !used[from] then Some(from)
    else FirstUnused(used, from + 1)
  }

  /** Takes the first unused alias object and puts it at the head of the list. */
  function AliasAdded(b: Board, k: nat, ip: Word32, mask: Word32, gw: Word32): Board
    requires k < MAX_ALIAS
  {
    b.(netifs := [Netif(AliasPtr(k), ip, mask, gw)] + b.netifs, used := b.used[k := true])
  }

  /** lwIPAliasAdd answers with the new address, and net_if_add takes 0 for failure. */
  function NetIfAdd(b: Board, ip: Word32, mask: Word32, gw: Word32): (Board, Err) {
    match FirstUnused(b.used, 0)
    case None => (b, ERR_MEM)
    case Some(k) => (AliasAdded(b, k, ip, mask, gw), if ip == 0 then ERR_MEM else ERR_OK)
  }

  function Without(netifs: seq<Netif>, n: NetifPtr): seq<Netif> {
    if netifs == [] then []
    else if netifs[0].ptr == n then netifs[1..]
    else [netifs[0]] + Without(netifs[1..], n)
  }

  function AliasRemoved(b: Board, n: NetifPtr): Board {
    if AliasPtr(0) <= n < AliasPtr(MAX_ALIAS) && b.used[n - AliasPtr(0)] then
      b.(netifs := Without(b.netifs, n), used := b.used[n - AliasPtr(0) := false])
    else b
  }

  function NetIfRemove(b: Board, n: NetifPtr): (Board, Err) {
    if n == NULL || n == PHYSICAL then (b, ERR_VAL)
    else (AliasRemoved(b.(es := CloseAll(b.es, n)), n), ERR_OK)
  }

  // ---------------------------------------------------------------------------------------------
  // Handlers, on decoded arguments; the status is the text after the block name of the #END line

  function NetifByIndex(netifs: seq<Netif>, idx: int): NetifPtr {
    if 1 <= idx <= |netifs| then netifs[idx - 1].ptr else NULL
  }

  datatype Command =
    | NetifAdd(ip: Word32, mask: Word32, gw: Word32)
    | NetifDel(idx: int)
    | NetifSet(idx: int, field: string, value: Word32)
    | SockOpen(idx: int, port: Word16, env: OpenEnv)
    | SockClose(idx: int, nth: int)
    | MenuSetIp(idx: int, typed: Option<Word32>)  // None: the typed address was rejected

  function WithIp(netifs: seq<Netif>, idx: int, ip: Word32): seq<Netif>
    requires 1 <= idx <= |netifs|
  {
    netifs[idx - 1 := netifs[idx - 1].(ip := ip)]
  }

  /** netif_set_ipaddr, then udp_source_netif_ip_changed */
  function SetIp(b: Board, idx: int, ip: Word32): Board
    requires 1 <= idx <= |b.netifs|
  {
    b.(netifs := WithIp(b.netifs, idx, ip), es := RebindFrom(b.es, b.others, b.netifs[idx - 1].ptr, ip, 0))
  }

  function Exec(b: Board, c: Command): (Board, string) {
    match c
    case NetifAdd(ip, mask, gw) =>
      var (b', err) := NetIfAdd(b, ip, mask, gw);
      (b', if err == ERR_OK then "OK" else "ERR:add_failed")
    case NetifDel(idx) =>
      var n := NetifByIndex(b.netifs, idx);
      if n == NULL then (b, "ERR:bad_index")
      else
        var (b', err) := NetIfRemove(b, n);
        (b', if err == ERR_OK then "OK" else "ERR:remove_failed")
    case NetifSet(idx, field, v) =>
      if NetifByIndex(b.netifs, idx) == NULL then (b, "ERR:bad_index")
      else if field == "IP" then (SetIp(b, idx, v), "OK")
      else if field == "MASK" then (b.(netifs := b.netifs[idx - 1 := b.netifs[idx - 1].(mask := v)]), "OK")
      else if field == "GW" then (b.(netifs := b.netifs[idx - 1 := b.netifs[idx - 1].(gw := v)]), "OK")
      else (b, "ERR:bad_field")
    case SockOpen(idx, port, env) =>
      if NetifByIndex(b.netifs, idx) == NULL then (b, "ERR:bad_index")
      else
        var n := b.netifs[idx - 1];
        if PlanOpen(b.es, b.others, n.ptr, Pcb(n.ip, port), env).Refused? then (b, "ERR:open_failed")
        else (b.(es := Open(b.es, b.others, n.ptr, Pcb(n.ip, port), env)), "OK")
    case SockClose(idx, nth) =>
      var n := NetifByIndex(b.netifs, idx);
      if n == NULL then (b, "ERR:bad_index")
      else if !(1 <= nth <= |Sockets(b.es, n)|) then (b, "ERR:bad_socket")
      else
        SocketsAround(b.es, n, nth - 1);
        (b.(es := CloseId(b.es, MakeId(b.es, Sockets(b.es, n)[nth - 1]))), "OK")
    case MenuSetIp(idx, typed) =>
      if NetifByIndex(b.netifs, idx) == NULL then (b, "")
      else (SetIp(b, idx, if typed.Some? then typed.value else b.netifs[idx - 1].ip), "")
  }

  function Boot(physical: Netif, others: seq<Pcb>): Board {
    Board([physical.(ptr := PHYSICAL)], seq(MAX_ALIAS, _ => false), seq(MAX_LISTENERS, _ => EMPTY_ENTRY), others)
  }

  function Run(b: Board, cs: seq<Command>): Board {
    if cs == [] then b else Exec(Run(b, cs[..|cs| - 1]), cs[|cs| - 1]).0
  }

  // ---------------------------------------------------------------------------------------------
  // Invariants

  ghost predicate Distinct(netifs: seq<Netif>) {
    forall j, k :: 0 <= j < k < |netifs| ==> netifs[j].ptr != netifs[k].ptr
  }

  /** The list is the physical interface and the alias objects in use, once each. */
  ghost predicate ListMatchesPool(b: Board) {
    Distinct(b.netifs) && Ptrs(b.netifs) == {PHYSICAL} + UsedPtrs(b.used)
  }

  /** No socket belongs to an interface that is not in the list. */
  ghost predicate NoDanglingOwner(b: Board) {
    forall i :: 0 <= i < MAX_LISTENERS && b.es[i].inUse ==> b.es[i].owner in Ptrs(b.netifs)
  }

  /** Exactly the slots in use are bound, to a real port, and no two pcbs of the stack clash. */
  ghost predicate Exclusive(es: Entries, others: seq<Pcb>) {
    && (forall i :: 0 <= i < MAX_LISTENERS ==> es[i].inUse == es[i].pcb.Some?)
    && (forall i :: 0 <= i < MAX_LISTENERS && es[i].inUse ==> es[i].pcb.value.port != 0)
    && (forall i, j :: 0 <= i < MAX_LISTENERS && 0 <= j < MAX_LISTENERS && i != j && es[i].inUse && es[j].inUse ==>
          !Clash(es[i].pcb.value, es[j].pcb.value))
    && (forall i, k :: 0 <= i < MAX_LISTENERS && 0 <= k < |others| && es[i].inUse ==>
          !Clash(others[k], es[i].pcb.value))
  }

  ghost predicate Inv(b: Board) {
    ListMatchesPool(b) && NoDanglingOwner(b) && Exclusive(b.es, b.others)
  }

  // ---------------------------------------------------------------------------------------------
  // Binding never introduces a clash

  lemma BindIsFree(es: Entries, others: seq<Pcb>, self: nat, want: Pcb, newPort: Word16)
    ensures var r := Bind(es, others, self, want, newPort);
            r.Some? ==> r.value.port != 0 && r.value.ip == want.ip && !Blocked(es, others, self, r.value)
                        && (want.port != 0 ==> r.value == want)
  {
  }

  lemma OpenKeepsExclusive(es: Entries, others: seq<Pcb>, owner: NetifPtr, want: Pcb, env: OpenEnv)
    requires Exclusive(es, others)
    ensures Exclusive(Open(es, others, owner, want, env), others)
  {
    BindIsFree(es, others, MAX_LISTENERS, want, env.newPort);
  }

  lemma RebindOneKeepsExclusive(es: Entries, others: seq<Pcb>, n: NetifPtr, ip: Word32, i: nat)
    requires i < MAX_LISTENERS && Exclusive(es, others)
    ensures var es' := RebindOne(es, others, n, ip, i);
            && Exclusive(es', others)
            && forall j :: 0 <= j < MAX_LISTENERS ==> es'[j] == es[j].(pcb := es'[j].pcb)
                                                      && (es[j].inUse ==> es'[j].pcb.value.port == es[j].pcb.value.port)
  {
    if Owns(es, n, i) {
      BindIsFree(es, others, i, Pcb(ip, es[i].pcb.value.port), 0);
    }
  }

  /** Rebinding keeps every owner, generation and port, whether or not single binds are refused. */
  lemma {:induction false} RebindKeepsExclusive(es: Entries, others: seq<Pcb>, n: NetifPtr, ip: Word32, from: nat)
    requires from <= MAX_LISTENERS && Exclusive(es, others)
    ensures var es' := RebindFrom(es, others, n, ip, from);
            && Exclusive(es', others)
            && forall j :: 0 <= j < MAX_LISTENERS ==> es'[j] == es[j].(pcb := es'[j].pcb)
                                                      && (es[j].inUse ==> es'[j].pcb.value.port == es[j].pcb.value.port)
    decreases MAX_LISTENERS - from
  {
    if from < MAX_LISTENERS {
      RebindOneKeepsExclusive(es, others, n, ip, from);
      RebindKeepsExclusive(RebindOne(es, others, n, ip, from), others, n, ip, from + 1);
    }
  }

  lemma CloseAllKeepsExclusive(es: Entries, others: seq<Pcb>, n: NetifPtr)
    requires Exclusive(es, others)
    ensures Exclusive(CloseAll(es, n), others)
  {
  }

  // ---------------------------------------------------------------------------------------------
  // The interface list

  lemma PtrsSplit(netifs: seq<Netif>)
    requires netifs != []
    ensures Ptrs(netifs) == {netifs[0].ptr} + Ptrs(netifs[1..])
  {
    assert netifs == [netifs[0]] + netifs[1..];
    assert netifs[0] in netifs;
  }

  lemma {:induction false} WithoutRemovesOne(netifs: seq<Netif>, n: NetifPtr)
    requires Distinct(netifs)
    ensures var r := Without(netifs, n);
            && Distinct(r) && Ptrs(r) == Ptrs(netifs) - {n}
            && (forall m: Netif :: m in r <==> m in netifs && m.ptr != n)
  {
    if netifs != [] {
      assert netifs == [netifs[0]] + netifs[1..];
      WithoutRemovesOne(netifs[1..], n);
      PtrsSplit(netifs);
      if netifs[0].ptr != n { PtrsSplit(Without(netifs, n)); }
    }
  }

  lemma AliasAddedKeepsInv(b: Board, k: nat, ip: Word32, mask: Word32, gw: Word32)
    requires Inv(b) && k < MAX_ALIAS && !b.used[k]
    ensures Inv(AliasAdded(b, k, ip, mask, gw)) && AliasPtr(k) !in Ptrs(b.netifs)
  {
    var b' := AliasAdded(b, k, ip, mask, gw);
    assert Ptrs(b'.netifs) == {AliasPtr(k)} + Ptrs(b.netifs) by {
      assert b'.netifs[0] in b'.netifs;
      assert forall m :: m in b.netifs ==> m in b'.netifs;
    }
    assert UsedPtrs(b'.used) == UsedPtrs(b.used) + {AliasPtr(k)};
    assert forall j :: 0 <= j < |b.netifs| ==> b.netifs[j].ptr in Ptrs(b.netifs);
  }

  lemma NetIfRemoveKeepsInv(b: Board, n: NetifPtr)
    requires Inv(b)
    ensures Inv(NetIfRemove(b, n).0)
    ensures n in Ptrs(b.netifs) && n != PHYSICAL ==> Ptrs(NetIfRemove(b, n).0.netifs) == Ptrs(b.netifs) - {n}
  {
    if n != NULL && n != PHYSICAL {
      CloseAllKeepsExclusive(b.es, b.others, n);
      WithoutRemovesOne(b.netifs, n);
      if n in UsedPtrs(b.used) {
        assert UsedPtrs(b.used[n - AliasPtr(0) := false]) == UsedPtrs(b.used) - {n};
      } else {
        assert AliasPtr(0) <= n < AliasPtr(MAX_ALIAS) ==> AliasPtr(n - AliasPtr(0)) == n;
      }
    }
  }

  /** Changing an address of a listed interface changes neither which interfaces there are nor owners. */
  lemma UpdateKeepsList(b: Board, idx: int, m: Netif)
    requires Distinct(b.netifs) && 1 <= idx <= |b.netifs| && m.ptr == b.netifs[idx - 1].ptr
    ensures var netifs := b.netifs[idx - 1 := m];
            Distinct(netifs) && Ptrs(netifs) == Ptrs(b.netifs)
  {
    var netifs := b.netifs[idx - 1 := m];
    forall x | x in b.netifs
      ensures x.ptr in Ptrs(netifs)
    {
      var k :| 0 <= k < |b.netifs| && b.netifs[k] == x;
      assert netifs[k].ptr == x.ptr && netifs[k] in netifs;
    }
    forall x | x in netifs
      ensures x.ptr in Ptrs(b.netifs)
    {
      var k :| 0 <= k < |netifs| && netifs[k] == x;
      assert b.netifs[k].ptr == x.ptr && b.netifs[k] in b.netifs;
    }
  }

  lemma SetIpKeepsInv(b: Board, idx: int, ip: Word32)
    requires Inv(b) && 1 <= idx <= |b.netifs|
    ensures Inv(SetIp(b, idx, ip))
  {
    UpdateKeepsList(b, idx, b.netifs[idx - 1].(ip := ip));
    RebindKeepsExclusive(b.es, b.others, b.netifs[idx - 1].ptr, ip, 0);
  }

  lemma NetifSetKeepsInv(b: Board, idx: int, field: string, v: Word32)
    requires Inv(b)
    ensures Inv(Exec(b, NetifSet(idx, field, v)).0)
  {
    if NetifByIndex(b.netifs, idx) != NULL {
      if field == "IP" {
        SetIpKeepsInv(b, idx, v);
      } else if field == "MASK" {
        UpdateKeepsList(b, idx, b.netifs[idx - 1].(mask := v));
      } else if field == "GW" {
        UpdateKeepsList(b, idx, b.netifs[idx - 1].(gw := v));
      }
    }
  }

  lemma SockOpenKeepsInv(b: Board, idx: int, port: Word16, env: OpenEnv)
    requires Inv(b)
    ensures Inv(Exec(b, SockOpen(idx, port, env)).0)
  {
    if NetifByIndex(b.netifs, idx) != NULL {
      var n := b.netifs[idx - 1];
      assert n in b.netifs;
      OpenKeepsExclusive(b.es, b.others, n.ptr, Pcb(n.ip, port), env);
    }
  }

  lemma SockCloseKeepsInv(b: Board, idx: int, nth: int)
    requires Inv(b)
    ensures Inv(Exec(b, SockClose(idx, nth)).0)
  {
  }

  lemma ExecKeepsInv(b: Board, c: Command)
    requires Inv(b)
    ensures Inv(Exec(b, c).0)
  {
    match c
    case NetifAdd(ip, mask, gw) =>
      if FirstUnused(b.used, 0).Some? { AliasAddedKeepsInv(b, FirstUnused(b.used, 0).value, ip, mask, gw); }
    case NetifDel(idx) => NetIfRemoveKeepsInv(b, NetifByIndex(b.netifs, idx));
    case NetifSet(idx, field, v) => NetifSetKeepsInv(b, idx, field, v);
    case SockOpen(idx, port, env) => SockOpenKeepsInv(b, idx, port, env);
    case SockClose(idx, nth) => SockCloseKeepsInv(b, idx, nth);
    case MenuSetIp(idx, typed) =>
      if NetifByIndex(b.netifs, idx) != NULL {
        SetIpKeepsInv(b, idx, if typed.Some? then typed.value else b.netifs[idx - 1].ip);
      }
  }

  /** In every run each slot in use belongs to a listed interface, the physical interface stays listed,
      the list matches the alias pool, and no two pcbs clash. */
  lemma {:induction false} NoDanglingOwnerEver(physical: Netif, others: seq<Pcb>, cs: seq<Command>)
    ensures Inv(Run(Boot(physical, others), cs))
    ensures PHYSICAL in Ptrs(Run(Boot(physical, others), cs).netifs)
  {
    if cs == [] {
      var b := Boot(physical, others);
      assert b.netifs[0] in b.netifs;
    } else {
      NoDanglingOwnerEver(physical, others, cs[..|cs| - 1]);
      ExecKeepsInv(Run(Boot(physical, others), cs[..|cs| - 1]), cs[|cs| - 1]);
    }
  }

  // ---------------------------------------------------------------------------------------------
  // Removing and adding interfaces

  /** NETIF DEL is refused exactly for a bad index and for the physical interface, and then changes
      nothing; otherwise exactly that interface and its sockets are gone. */
  lemma DeleteRemovesExactlyOne(b: Board, idx: int, m: NetifPtr)
    requires Inv(b)
    ensures var (b', status) := Exec(b, NetifDel(idx));
            var n := NetifByIndex(b.netifs, idx);
            && (status == "OK" <==> 1 <= idx <= |b.netifs| && n != PHYSICAL)
            && (status != "OK" ==> b' == b)
            && (status == "OK" ==>
                  && (forall x: Netif :: x in b'.netifs <==> x in b.netifs && x.ptr != n)
                  && Sockets(b'.es, n) == []
                  && (m != n ==> Sockets(b'.es, m) == Sockets(b.es, m))
                  && forall i :: 0 <= i < MAX_LISTENERS && !Owns(b.es, n, i) ==> b'.es[i] == b.es[i])
  {
    if 1 <= idx <= |b.netifs| {
      var n := b.netifs[idx - 1].ptr;
      assert b.netifs[idx - 1] in b.netifs;
      assert n in Ptrs(b.netifs);
      CloseAllEmpties(b.es, n, m);
      WithoutRemovesOne(b.netifs, n);
      if n != PHYSICAL {
        assert n in UsedPtrs(b.used);
      }
    }
  }

  /** A new alias starts without sockets even when its object belonged to a removed interface.  Nothing is
      added exactly when the seven objects are taken; the answer is OK exactly when one is left and the
      address is not 0, so that an interface at address 0 is added and reported as a failure. */
  lemma AddStartsWithoutSockets(b: Board, ip: Word32, mask: Word32, gw: Word32)
    requires Inv(b)
    ensures var (b', status) := Exec(b, NetifAdd(ip, mask, gw));
            && (b' != b <==> exists k :: 0 <= k < 7 && !b.used[k])
            && (b' != b ==> b'.netifs[1..] == b.netifs && Sockets(b'.es, b'.netifs[0].ptr) == []
                            && b'.netifs[0] == Netif(b'.netifs[0].ptr, ip, mask, gw) && b'.es == b.es)
            && status == if ip != 0 && exists k :: 0 <= k < 7 && !b.used[k] then "OK" else "ERR:add_failed"
  {
    var r := FirstUnused(b.used, 0);
    if r.Some? {
      AliasAddedKeepsInv(b, r.value, ip, mask, gw);
      var b' := AliasAdded(b, r.value, ip, mask, gw);
      assert b'.used[r.value] != b.used[r.value];
      forall i | 0 <= i < MAX_LISTENERS
        ensures !Owns(b.es, AliasPtr(r.value), i)
      {
        assert b.es[i].inUse ==> b.es[i].owner in Ptrs(b.netifs);
      }
      NothingOwned(b.es, AliasPtr(r.value), 0, |b.es|);
    }
  }

  // ---------------------------------------------------------------------------------------------
  // Opening sockets, and all refusals

  /** SOCK OPEN answers OK exactly for a listed interface, when one of the sixteen slots is free, a pcb is
      left, and the port is free at the interface's address; then exactly the lowest free slot changes. */
  lemma OpenSucceedsIff(b: Board, idx: int, port: Word16, env: OpenEnv)
    requires Inv(b) && port >= 1
    ensures var (b', status) := Exec(b, SockOpen(idx, port, env));
            && (status == "ERR:bad_index" <==> !(1 <= idx <= |b.netifs|))
            && (status == "OK" <==>
                  1 <= idx <= |b.netifs| && SomeSlotFree(b.es) && env.pcbLeft
                  && PortFree(b.es, b.others, b.netifs[idx - 1].ip, port))
            && (status != "OK" && status != "ERR:bad_index" ==> status == "ERR:open_failed")
            && (status != "OK" ==> b' == b)
            && (status == "OK" ==>
                  exists i: nat :: LowestFree(b.es, i)
                    && b' == b.(es := b.es[i := Entry(Some(Pcb(b.netifs[idx - 1].ip, port)), b.netifs[idx - 1].ptr,
                                                      b.es[i].gen, true)]))
  {
    ListedIsNotNull(b, idx);
    if 1 <= idx <= |b.netifs| {
      var n := b.netifs[idx - 1];
      PlanIff(b.es, b.others, n.ptr, Pcb(n.ip, port), env);
    }
  }

  /** SOCK CLOSE: each answer by its cause; only OK changes the board. */
  lemma CloseStatusIff(b: Board, idx: int, nth: int)
    requires Inv(b)
    ensures var (b', status) := Exec(b, SockClose(idx, nth));
            && (status == "ERR:bad_index" <==> !(1 <= idx <= |b.netifs|))
            && (status == "ERR:bad_socket" <==>
                  1 <= idx <= |b.netifs| && !(1 <= nth <= |Sockets(b.es, b.netifs[idx - 1].ptr)|))
            && (status == "OK" <==>
                  1 <= idx <= |b.netifs| && 1 <= nth <= |Sockets(b.es, b.netifs[idx - 1].ptr)|)
            && (status != "OK" ==> b' == b)
  {
    ListedIsNotNull(b, idx);
  }

  /** NETIF SET: each answer by its cause; only OK changes the board, and then nothing but what it names. */
  lemma SetStatusIff(b: Board, idx: int, field: string, v: Word32)
    requires Inv(b)
    ensures var (b', status) := Exec(b, NetifSet(idx, field, v));
            && (status == "ERR:bad_index" <==> !(1 <= idx <= |b.netifs|))
            && (status == "ERR:bad_field" <==> 1 <= idx <= |b.netifs| && field !in {"IP", "MASK", "GW"})
            && (status == "OK" <==> 1 <= idx <= |b.netifs| && field in {"IP", "MASK", "GW"})
            && (status != "OK" ==> b' == b)
            && (status == "OK" ==>
                  var n := b.netifs[idx - 1];
                  var n' := if field == "IP" then Netif(n.ptr, v, n.mask, n.gw)
                            else if field == "MASK" then Netif(n.ptr, n.ip, v, n.gw) else Netif(n.ptr, n.ip, n.mask, v);
                  b'.netifs == b.netifs[idx - 1 := n'] && b'.used == b.used && (field != "IP" ==> b'.es == b.es))
  {
    ListedIsNotNull(b, idx);
  }

  /** NETIF DEL: each answer by its cause. */
  lemma DeleteStatusIff(b: Board, idx: int)
    requires Inv(b)
    ensures var (b', status) := Exec(b, NetifDel(idx));
            && (status == "ERR:bad_index" <==> !(1 <= idx <= |b.netifs|))
            && (status == "ERR:remove_failed" <==> 1 <= idx <= |b.netifs| && b.netifs[idx - 1].ptr == PHYSICAL)
            && (status == "OK" <==> 1 <= idx <= |b.netifs| && b.netifs[idx - 1].ptr != PHYSICAL)
            && (status != "OK" ==> b' == b)
  {
    ListedIsNotNull(b, idx);
  }

  /** The menu sets the typed address, or rebinds to the address that was there when none was typed. */
  lemma MenuSetsIp(b: Board, idx: int, typed: Option<Word32>)
    requires Inv(b)
    ensures var b' := Exec(b, MenuSetIp(idx, typed)).0;
            if 1 <= idx <= |b.netifs| then
              var n := b.netifs[idx - 1];
              var ip := if typed.Some? then typed.value else n.ip;
              && b' == b.(netifs := b.netifs[idx - 1 := Netif(n.ptr, ip, n.mask, n.gw)], es := b'.es)
              && b' == Exec(b, NetifSet(idx, "IP", ip)).0
            else b' == b
  {
    ListedIsNotNull(b, idx);
  }

  /** From boot, NETIF ADD of 0.0.0.0 puts an interface in the list and answers with a failure. */
  lemma ZeroAddressIsAdded(physical: Netif, others: seq<Pcb>, mask: Word32, gw: Word32)
    ensures var b := Boot(physical, others);
            var (b', status) := Exec(b, NetifAdd(0, mask, gw));
            status == "ERR:add_failed" && b'.netifs == [Netif(AliasPtr(0), 0, mask, gw)] + b.netifs
  {
    var b := Boot(physical, others);
    assert !b.used[0];
    assert FirstUnused(b.used, 0) == Some(0);
  }

  // ---------------------------------------------------------------------------------------------
  // What a socket keeps

  lemma ListedIsNotNull(b: Board, idx: int)
    requires Inv(b)
    ensures NetifByIndex(b.netifs, idx) != NULL <==> 1 <= idx <= |b.netifs|
  {
    assert NULL !in Ptrs(b.netifs);
    assert 1 <= idx <= |b.netifs| ==> b.netifs[idx - 1] in b.netifs;
  }

  lemma OthersKeepPort(b: Board, c: Command, i: nat)
    requires Inv(b) && i < MAX_LISTENERS && b.es[i].inUse && !c.NetifSet? && !c.MenuSetIp?
    ensures var e, e' := b.es[i], Exec(b, c).0.es[i];
            e' == e || (e' == Released(e) && (c.NetifDel? || c.SockClose?))
  {
  }

  /** A socket keeps its owner and the port it had at open until it is closed. */
  lemma OpenSocketsKeepPort(b: Board, c: Command, i: nat)
    requires Inv(b) && i < MAX_LISTENERS && b.es[i].inUse
    ensures var e, e' := b.es[i], Exec(b, c).0.es[i];
            if e'.inUse then e'.owner == e.owner && e'.gen == e.gen && e'.pcb.Some? && e'.pcb.value.port == e.pcb.value.port
            else e'.gen == Inc8(e.gen) && e'.pcb == None && (c.NetifDel? || c.SockClose?)
  {
    if c.NetifSet? || c.MenuSetIp? {
      if 1 <= c.idx <= |b.netifs| {
        var ip := if c.NetifSet? then c.value else if c.typed.Some? then c.typed.value else b.netifs[c.idx - 1].ip;
        RebindKeepsExclusive(b.es, b.others, b.netifs[c.idx - 1].ptr, ip, 0);
      }
    } else {
      OthersKeepPort(b, c, i);
    }
  }

  /** As long as slot i stays open, its owner, handle and port stay what they were. */
  lemma {:induction false} PortSinceOpen(b: Board, cs: seq<Command>, i: nat)
    requires Inv(b) && i < MAX_LISTENERS
    requires forall k :: 0 <= k <= |cs| ==> Run(b, cs[..k]).es[i].inUse
    ensures var e, e' := b.es[i], Run(b, cs).es[i];
            && Inv(Run(b, cs)) && e'.inUse && e'.owner == e.owner && e'.gen == e.gen
            && e.pcb.Some? && e'.pcb.Some? && e'.pcb.value.port == e.pcb.value.port
  {
    assert cs[..|cs|] == cs;
    if cs != [] {
      var before := cs[..|cs| - 1];
      assert forall k :: 0 <= k <= |before| ==> before[..k] == cs[..k];
      PortSinceOpen(b, before, i);
      ExecKeepsInv(Run(b, before), cs[|cs| - 1]);
      OpenSocketsKeepPort(Run(b, before), cs[|cs| - 1], i);
    }
  }

  lemma RunSnoc(b: Board, cs: seq<Command>, c: Command)
    ensures Run(b, cs + [c]) == Exec(Run(b, cs), c).0
  {
    assert (cs + [c])[..|cs + [c]| - 1] == cs;
  }
}
