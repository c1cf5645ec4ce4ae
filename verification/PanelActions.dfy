/**
 The buttons of the panel: the command line each one sends, what the board makes of it, and how the next
 listing differs from the one on the screen.
 */
module PanelActions {
  import opened Words
  import opened Text
  import opened Registry
  import opened NetManager
  import opened Protocol
  import opened Listing
  import opened CommandChannel
  import opened EndToEnd

  function OpenCommand(idx: int, port: int): string { "SOCK OPEN " + (SignedDec(idx) + " " + SignedDec(port)) }

  function AddCommand(ip: string, mask: string, gw: string): string { "NETIF ADD " + (ip + (" " + (mask + (" " + gw)))) }

  function SetCommand(idx: int, field: string, value: string): string {
    "NETIF SET " + (SignedDec(idx) + (" " + (field + (" " + value))))
  }

  function DeleteCommand(idx: int): string { "NETIF DEL " + SignedDec(idx) }

  // ---------------------------------------------------------------------------------------------
  // The board reads the arguments the panel wrote

  /** An argument that fits the handler's buffer and has no white space. */
  predicate IsArgument(s: string, width: nat) { s != "" && |s| <= width && forall k :: 0 <= k < |s| ==> !IsSpace(s[k]) }

  lemma {:induction false} WordPrefix(w: string, rest: string, width: nat)
    requires |w| <= width && forall k :: 0 <= k < |w| ==> !IsSpace(w[k])
    requires rest == "" || IsSpace(rest[0])
    ensures WordLength(w + rest, width) == |w|
    decreases |w|
  {
    if w == "" {
      assert w + rest == rest;
    } else {
      assert (w + rest)[1..] == w[1..] + rest;
      WordPrefix(w[1..], rest, width - 1);
    }
  }

  lemma WordThen(w: string, rest: string, width: nat)
    requires IsArgument(w, width) && (rest == "" || IsSpace(rest[0]))
    ensures ScanWord(w + rest, width) == Got(w, rest)
    ensures ScanWord(" " + (w + rest), width) == Got(w, rest)
  {
    WordPrefix(w, rest, width);
    assert (w + rest)[0] == w[0];
    assert (w + rest)[..|w|] == w && (w + rest)[|w|..] == rest;
    assert (" " + (w + rest))[1..] == w + rest;
  }

  /** The prefixes that pick the handlers leave exactly the arguments. */
  lemma PrefixPicksHandler(b: Board, args: string, env: Env)
    ensures Dispatch(b, "SOCK OPEN " + args, env) == CmdSockOpen(b, args, env)
    ensures Dispatch(b, "NETIF DEL " + args, env) == CmdNetifDel(b, args)
  {
    var open, del := "SOCK OPEN " + args, "NETIF DEL " + args;
    assert open[10..] == args && open[0] == 'S';
    assert del[10..] == args && del[6] == 'D';
  }

  lemma NetifPrefixPicksHandler(b: Board, args: string, env: Env)
    ensures Dispatch(b, "NETIF ADD " + args, env) == CmdNetifAdd(b, args, env)
    ensures Dispatch(b, "NETIF SET " + args, env) == CmdNetifSet(b, args, env)
  {
    var add, change := "NETIF ADD " + args, "NETIF SET " + args;
    assert add[10..] == args && add[6] == 'A';
    assert change[10..] == args && change[6] == 'S';
  }

  lemma OpenDispatches(b: Board, idx: nat, port: nat, env: Env)
    requires 1 <= port <= 65535
    ensures Dispatch(b, OpenCommand(idx, port), env) == Done(b, "SOCKOPEN", SockOpen(idx, port, env.open))
  {
    PrefixPicksHandler(b, Dec(idx) + " " + Dec(port), env);
    CloseArguments(idx, port);
  }

  lemma AddDispatches(b: Board, ip: string, mask: string, gw: string, env: Env)
    requires IsArgument(ip, 15) && IsArgument(mask, 15) && IsArgument(gw, 15)
    requires env.aton(ip).Some? && env.aton(mask).Some? && env.aton(gw).Some?
    ensures Dispatch(b, AddCommand(ip, mask, gw), env)
            == Done(b, "NETIFADD", NetifAdd(env.aton(ip).value, env.aton(mask).value, env.aton(gw).value))
  {
    NetifPrefixPicksHandler(b, ip + (" " + (mask + (" " + gw))), env);
    WordThen(ip, " " + (mask + (" " + gw)), 15);
    WordThen(mask, " " + gw, 15);
    assert gw + "" == gw;
    WordThen(gw, "", 15);
  }

  /** A word longer than the buffer is cut, and its rest is read as the next word. */
  lemma WordCut(w: string, rest: string, width: nat)
    requires width > 0 && |w| > width && forall k :: 0 <= k < |w| ==> !IsSpace(w[k])
    ensures ScanWord(w + rest, width) == Got(w[..width], w[width..] + rest)
    ensures ScanWord(" " + (w + rest), width) == Got(w[..width], w[width..] + rest)
  {
    LongPrefix(w, rest, width);
    assert (w + rest)[0] == w[0];
    assert (w + rest)[..width] == w[..width] && (w + rest)[width..] == w[width..] + rest;
    assert (" " + (w + rest))[1..] == w + rest;
  }

  lemma {:induction false} LongPrefix(w: string, rest: string, width: nat)
    requires |w| >= width && forall k :: 0 <= k < |w| ==> !IsSpace(w[k])
    ensures WordLength(w + rest, width) == width
    decreases width
  {
    if width > 0 {
      assert (w + rest)[1..] == w[1..] + rest;
      LongPrefix(w[1..], rest, width - 1);
    }
  }

  /** The first text that is longer than 15 characters is cut there; when what remains of it is no address,
      as with the long forms that the panel's own check accepts, the board refuses and changes nothing. */
  lemma LongAddressIsRefused(b: Board, ip: string, mask: string, gw: string, env: Env)
    requires IsArgument(ip, |ip|) && IsArgument(mask, |mask|) && IsArgument(gw, |gw|)
    requires if |ip| > 15 then env.aton(ip[..15]).None?
             else if |mask| > 15 then env.aton(mask[..15]).None?
             else |gw| > 15 && env.aton(gw[..15]).None?
    ensures Dispatch(b, AddCommand(ip, mask, gw), env) == Plain(b, "NETIFADD", "ERR:bad_args")
  {
    NetifPrefixPicksHandler(b, ip + (" " + (mask + (" " + gw))), env);
    if |ip| > 15 {
      WordCut(ip, " " + (mask + (" " + gw)), 15);
    } else {
      WordThen(ip, " " + (mask + (" " + gw)), 15);
      if |mask| > 15 {
        WordCut(mask, " " + gw, 15);
      } else {
        WordThen(mask, " " + gw, 15);
        assert gw + "" == gw;
        WordCut(gw, "", 15);
      }
    }
  }

  /** When the first 15 characters of a long text still are an address, its rest is taken for the mask and
      the mask for the gateway: the board answers OK with an interface nobody asked for. */
  lemma LongAddressIsMisread(b: Board, ip: string, mask: string, gw: string, env: Env)
    requires 15 < |ip| <= 30 && IsArgument(ip, |ip|) && IsArgument(mask, 15) && IsArgument(gw, |gw|)
    requires env.aton(ip[..15]).Some? && env.aton(ip[15..]).Some? && env.aton(mask).Some?
    ensures Dispatch(b, AddCommand(ip, mask, gw), env)
            == Done(b, "NETIFADD", NetifAdd(env.aton(ip[..15]).value, env.aton(ip[15..]).value, env.aton(mask).value))
  {
    NetifPrefixPicksHandler(b, ip + (" " + (mask + (" " + gw))), env);
    WordCut(ip, " " + (mask + (" " + gw)), 15);
    WordThen(ip[15..], " " + (mask + (" " + gw)), 15);
    WordThen(mask, " " + gw, 15);
  }

  const LONG_FORM := "0x0000000A000001"

  /** A hexadecimal address of 16 characters, as an input for the misreading. */
  lemma LongFormIsMisread(b: Board, mask: string, gw: string, env: Env)
    requires IsArgument(mask, 15) && IsArgument(gw, |gw|)
    requires env.aton("0x0000000A00000").Some? && env.aton("1").Some? && env.aton(mask).Some?
    ensures Dispatch(b, AddCommand(LONG_FORM, mask, gw), env)
            == Done(b, "NETIFADD", NetifAdd(env.aton("0x0000000A00000").value, env.aton("1").value, env.aton(mask).value))
  {
    assert LONG_FORM[..15] == "0x0000000A00000" && LONG_FORM[15..] == "1";
    LongAddressIsMisread(b, LONG_FORM, mask, gw, env);
  }

  lemma SetDispatches(b: Board, idx: nat, field: string, value: string, env: Env)
    requires IsArgument(field, 7) && IsArgument(value, 15) && env.aton(value).Some?
    ensures Dispatch(b, SetCommand(idx, field, value), env) == Done(b, "NETIFSET", NetifSet(idx, field, env.aton(value).value))
  {
    NetifPrefixPicksHandler(b, Dec(idx) + (" " + (field + (" " + value))), env);
    DigitsThen(idx, " " + (field + (" " + value)));
    WordThen(field, " " + value, 7);
    assert value + "" == value;
    WordThen(value, "", 15);
  }

  lemma DeleteDispatches(b: Board, idx: nat, env: Env)
    ensures Dispatch(b, DeleteCommand(idx), env) == Done(b, "NETIFDEL", NetifDel(idx))
  {
    PrefixPicksHandler(b, Dec(idx), env);
    assert Dec(idx) + "" == Dec(idx);
    DigitsThen(idx, "");
  }

  // ---------------------------------------------------------------------------------------------
  // Opening a socket, and closing it again

  /** s with x put in at position j */
  function Inserted<T>(s: seq<T>, j: nat, x: T): seq<T>
    requires j <= |s|
  {
    s[..j] + [x] + s[j..]
  }

  lemma SocketsAfterOpen(es: Entries, i: nat, n: NetifPtr, pcb: Pcb, m: NetifPtr)
    requires i < MAX_LISTENERS && !es[i].inUse && n != NULL
    ensures var j := |SocketsIn(es, n, 0, i)|;
            && j <= |Sockets(es, n)|
            && Sockets(Opened(es, i, n, pcb), n) == Inserted(Sockets(es, n), j, i)
            && (m != n ==> Sockets(Opened(es, i, n, pcb), m) == Sockets(es, m))
  {
    SocketsAt(es, n, i);
    SocketsAfterChange(es, Opened(es, i, n, pcb)[i], n, i);
    SocketsAt(es, m, i);
    SocketsAfterChange(es, Opened(es, i, n, pcb)[i], m, i);
    var s, below := Sockets(es, n), SocketsIn(es, n, 0, i);
    assert s[..|below|] == below && s[|below|..] == SocketsIn(es, n, i + 1, |es|);
  }

  /** Slots other than the one that changed keep their ports. */
  lemma PortsElsewhere(es: Entries, i: nat, e: Entry, m: NetifPtr, k: nat)
    requires i < MAX_LISTENERS && !es[i].inUse && k < |Sockets(es, m)|
    ensures PortAt(es[i := e], Sockets(es, m)[k]) == PortsOf(es, m)[k]
  {
    SocketsAreOwnedInOrder(es, m, 0, |es|);
  }

  /** What one accepted open does to the port lists. */
  lemma PortsAfterOpen(es: Entries, i: nat, n: NetifPtr, pcb: Pcb, m: NetifPtr)
    requires i < MAX_LISTENERS && !es[i].inUse && n != NULL
    ensures var es', j := Opened(es, i, n, pcb), |SocketsIn(es, n, 0, i)|;
            && j <= |PortsOf(es, n)|
            && PortsOf(es', n) == Inserted(PortsOf(es, n), j, pcb.port)
            && (m != n ==> PortsOf(es', m) == PortsOf(es, m))
  {
    var es', j := Opened(es, i, n, pcb), |SocketsIn(es, n, 0, i)|;
    SocketsAfterOpen(es, i, n, pcb, m);
    forall k | 0 <= k < |Sockets(es, n)| ensures PortAt(es', Sockets(es, n)[k]) == PortsOf(es, n)[k] {
      PortsElsewhere(es, i, es'[i], n, k);
    }
    forall k | 0 <= k < |Sockets(es, m)| ensures PortAt(es', Sockets(es, m)[k]) == PortsOf(es, m)[k] {
      PortsElsewhere(es, i, es'[i], m, k);
    }
    forall k | 0 <= k < |PortsOf(es', n)|
      ensures PortsOf(es', n)[k] == Inserted(PortsOf(es, n), j, pcb.port)[k]
    {
    }
  }

  /** Where the new socket will be listed: after the interface's sockets below the lowest free slot. */
  function OpenPlace(b: Board, k: nat): nat
    requires k < |b.netifs|
  {
    match FirstFree(b.es, 0)
    case None => 0
    case Some(i) => |SocketsIn(b.es, b.netifs[k].ptr, 0, i)|
  }

  /** The open button works if and only if a slot is free, a pcb is left and the port is free at the
      interface's address.  Then the next listing has exactly one more socket, on the chosen interface and
      with the chosen port, at the place of the lowest free slot; otherwise the board says so and does not
      change. */
  lemma OpenedIsDisplayed(b: Board, k: nat, port: Word16, env: Env, m: NetifPtr)
    requires Inv(b) && k < |b.netifs| && port >= 1
    ensures var n, j, r := b.netifs[k].ptr, OpenPlace(b, k), Dispatch(b, OpenCommand(k + 1, port), env);
            && (r.1 == Frame("SOCKOPEN", "OK", []) <==>
                  SomeSlotFree(b.es) && env.open.pcbLeft && PortFree(b.es, b.others, b.netifs[k].ip, port))
            && (r.1 != Frame("SOCKOPEN", "OK", []) ==> r == (b, Frame("SOCKOPEN", "ERR:open_failed", [])))
            && (r.1 == Frame("SOCKOPEN", "OK", []) ==>
                  && r.0 == b.(es := r.0.es)
                  && j <= |PortsOf(b.es, n)| && PortsOf(r.0.es, n) == Inserted(PortsOf(b.es, n), j, port))
            && (m != n ==> PortsOf(r.0.es, m) == PortsOf(b.es, m))
  {
    OpenDispatches(b, k + 1, port, env);
    OpenSucceedsIff(b, k + 1, port, env.open);
    OpenedPorts(b, k, port, env.open, m);
  }

  lemma OpenedPorts(b: Board, k: nat, port: Word16, open: OpenEnv, m: NetifPtr)
    requires Inv(b) && k < |b.netifs| && port >= 1
    ensures var n, j, r := b.netifs[k].ptr, OpenPlace(b, k), Exec(b, SockOpen(k + 1, port, open));
            && (r.1 == "OK" ==>
                  && r.0 == b.(es := r.0.es)
                  && j <= |PortsOf(b.es, n)| && PortsOf(r.0.es, n) == Inserted(PortsOf(b.es, n), j, port))
            && (m != n ==> PortsOf(r.0.es, m) == PortsOf(b.es, m))
  {
    ListedIsNotNull(b, k + 1);
    var n := b.netifs[k];
    var plan := PlanOpen(b.es, b.others, n.ptr, Pcb(n.ip, port), open);
    if plan.Accepted? {
      PlanIff(b.es, b.others, n.ptr, Pcb(n.ip, port), open);
      PortsAfterOpen(b.es, plan.slot, n.ptr, plan.pcb, m);
    }
  }

  /** Boards with the same interfaces and the same ports on each of them are displayed alike. */
  lemma {:induction false} SamePortsSameDisplay(b: Board, b': Board, count: nat)
    requires b'.netifs == b.netifs && count <= |b.netifs|
    requires forall m :: PortsOf(b'.es, m) == PortsOf(b.es, m)
    ensures Displayed(b', count) == Displayed(b, count)
  {
    if count > 0 {
      SamePortsSameDisplay(b, b', count - 1);
      assert PortsOf(b'.es, b.netifs[count - 1].ptr) == PortsOf(b.es, b.netifs[count - 1].ptr);
    }
  }

  lemma RemoveInserted<T>(s: seq<T>, j: nat, x: T)
    requires j <= |s|
    ensures Inserted(s, j, x)[..j] + Inserted(s, j, x)[j + 1..] == s
  {
  }

  /** Closing the socket just opened restores every listing. */
  lemma CloseUndoesOpen(b: Board, k: nat, port: Word16, env: Env)
    requires Inv(b) && k < |b.netifs| && port >= 1
    requires Dispatch(b, OpenCommand(k + 1, port), env).1 == Frame("SOCKOPEN", "OK", [])
    ensures var b' := Dispatch(b, OpenCommand(k + 1, port), env).0;
            var r := Dispatch(b', CloseCommand(k + 1, OpenPlace(b, k) + 1), env);
            && r.1 == Frame("SOCKCLOSE", "OK", [])
            && Displayed(r.0, |r.0.netifs|) == Displayed(b, |b.netifs|)
  {
    var n, j := b.netifs[k].ptr, OpenPlace(b, k);
    OpenedIsDisplayed(b, k, port, env, n);
    var b' := Dispatch(b, OpenCommand(k + 1, port), env).0;
    OpenDispatches(b, k + 1, port, env);
    ExecKeepsInv(b, SockOpen(k + 1, port, env.open));
    CloseCommandCloses(b', k, j, env);
    var r := Dispatch(b', CloseCommand(k + 1, j + 1), env).0;
    forall m
      ensures PortsOf(r.es, m) == PortsOf(b.es, m)
    {
      OpenedIsDisplayed(b, k, port, env, m);
      CloseListedSocket(b'.es, n, j, m);
      RemoveInserted(PortsOf(b.es, n), j, port);
    }
    SamePortsSameDisplay(b, r, |b.netifs|);
  }

  // ---------------------------------------------------------------------------------------------
  // Adding an interface, and deleting it again

  lemma NothingToClose(es: Entries, n: NetifPtr)
    requires forall i :: 0 <= i < MAX_LISTENERS ==> !Owns(es, n, i)
    ensures CloseAll(es, n) == es
  {
  }

  lemma PoolRestored(used: AliasPool, k: nat)
    requires k < MAX_ALIAS && !used[k]
    ensures used[k := true][k := false] == used
  {
  }

  lemma HeadRemoved(netifs: seq<Netif>, n: Netif)
    ensures Without([n] + netifs, n.ptr) == netifs
  {
    assert ([n] + netifs)[1..] == netifs;
  }

  lemma AliasReturned(b: Board, k: nat, ip: Word32, mask: Word32, gw: Word32)
    requires Inv(b) && k < MAX_ALIAS && !b.used[k]
    ensures NetIfRemove(AliasAdded(b, k, ip, mask, gw), AliasPtr(k)) == (b, ERR_OK)
  {
    AliasAddedKeepsInv(b, k, ip, mask, gw);
    assert forall i :: 0 <= i < MAX_LISTENERS && b.es[i].inUse ==> b.es[i].owner in Ptrs(b.netifs);
    NothingToClose(b.es, AliasPtr(k));
    PoolRestored(b.used, k);
    HeadRemoved(b.netifs, Netif(AliasPtr(k), ip, mask, gw));
  }

  /** The add button, then the delete button of the new card: the board is exactly what it was, unless
      the pool was full and nothing was added. */
  lemma DeleteUndoesAdd(b: Board, ip: string, mask: string, gw: string, env: Env)
    requires Inv(b) && IsArgument(ip, 15) && IsArgument(mask, 15) && IsArgument(gw, 15)
    requires env.aton(ip).Some? && env.aton(mask).Some? && env.aton(gw).Some?
    ensures var b' := Dispatch(b, AddCommand(ip, mask, gw), env).0;
            && (b' != b <==> exists k :: 0 <= k < MAX_ALIAS && !b.used[k])
            && (b' != b ==> Dispatch(b', DeleteCommand(1), env) == (b, Frame("NETIFDEL", "OK", [])))
  {
    var ip', mask', gw' := env.aton(ip).value, env.aton(mask).value, env.aton(gw).value;
    AddDispatches(b, ip, mask, gw, env);
    AddStartsWithoutSockets(b, ip', mask', gw');
    var r := FirstUnused(b.used, 0);
    if r.Some? {
      AliasReturned(b, r.value, ip', mask', gw');
      DeleteDispatches(AliasAdded(b, r.value, ip', mask', gw'), 1, env);
    }
  }

  lemma AddedInfo(b: Board, slot: nat, n: Netif, k: nat)
    requires Inv(b) && slot < MAX_ALIAS && !b.used[slot] && n.ptr == AliasPtr(slot)
    ensures var b' := AliasAdded(b, slot, n.ip, n.mask, n.gw);
            && |b'.netifs| == |b.netifs| + 1
            && InfoOf(b', 0) == NetifInfo(1, Dotted(n.ip), Dotted(n.mask), Dotted(n.gw), [])
            && (k < |b.netifs| ==> InfoOf(b', k + 1) == InfoOf(b, k).(index := k + 2))
  {
    AliasAddedKeepsInv(b, slot, n.ip, n.mask, n.gw);
    assert forall i :: 0 <= i < MAX_LISTENERS && b.es[i].inUse ==> b.es[i].owner in Ptrs(b.netifs);
    NothingOwned(b.es, n.ptr, 0, |b.es|);
    assert PortsOf(b.es, n.ptr) == [];
    assert SocketInfos([], 0) == [];
  }

  lemma AddedDisplay(b: Board, ip: Word32, mask: Word32, gw: Word32, k: nat)
    requires Inv(b)
    ensures var b' := NetIfAdd(b, ip, mask, gw).0;
            var now := Displayed(b', |b'.netifs|);
            b' != b ==>
              && |now| == |b.netifs| + 1
              && now[0] == NetifInfo(1, Dotted(ip), Dotted(mask), Dotted(gw), [])
              && (k < |b.netifs| ==> now[k + 1] == Displayed(b, |b.netifs|)[k].(index := k + 2))
  {
    var r := FirstUnused(b.used, 0);
    if r.Some? {
      var n := Netif(AliasPtr(r.value), ip, mask, gw);
      var b' := AliasAdded(b, r.value, ip, mask, gw);
      AddedInfo(b, r.value, n, k);
      DisplayedAt(b', |b'.netifs|, 0);
      if k < |b.netifs| {
        DisplayedAt(b', |b'.netifs|, k + 1);
        DisplayedAt(b, |b.netifs|, k);
      }
    }
  }

  /** The next listing starts with the new interface, without sockets; the others move down by one. */
  lemma AddedIsDisplayed(b: Board, ip: string, mask: string, gw: string, env: Env, k: nat)
    requires Inv(b) && IsArgument(ip, 15) && IsArgument(mask, 15) && IsArgument(gw, 15)
    requires env.aton(ip).Some? && env.aton(mask).Some? && env.aton(gw).Some?
    ensures var b' := Dispatch(b, AddCommand(ip, mask, gw), env).0;
            var now := Displayed(b', |b'.netifs|);
            b' != b ==>
              && |now| == |b.netifs| + 1
              && now[0] == NetifInfo(1, Dotted(env.aton(ip).value), Dotted(env.aton(mask).value), Dotted(env.aton(gw).value), [])
              && (k < |b.netifs| ==> now[k + 1] == Displayed(b, |b.netifs|)[k].(index := k + 2))
  {
    AddDispatches(b, ip, mask, gw, env);
    AddedDisplay(b, env.aton(ip).value, env.aton(mask).value, env.aton(gw).value, k);
  }

  // ---------------------------------------------------------------------------------------------
  // Editing an interface

  function Edited(info: NetifInfo, field: string, text: string): NetifInfo {
    if field == "IP" then info.(ip := text)
    else if field == "MASK" then info.(mask := text)
    else if field == "GW" then info.(gw := text)
    else info
  }

  lemma PortsSurviveRebind(es: Entries, others: seq<Pcb>, n: NetifPtr, ip: Word32, m: NetifPtr)
    requires Exclusive(es, others)
    ensures PortsOf(RebindFrom(es, others, n, ip, 0), m) == PortsOf(es, m)
  {
    var es' := RebindFrom(es, others, n, ip, 0);
    RebindKeepsExclusive(es, others, n, ip, 0);
    assert forall i :: 0 <= i < MAX_LISTENERS ==> Owns(es', m, i) == Owns(es, m, i);
    SocketsFrame(es, es', m, 0, |es|);
    SocketsAreOwnedInOrder(es, m, 0, |es|);
    forall k | 0 <= k < |Sockets(es, m)|
      ensures PortAt(es', Sockets(es, m)[k]) == PortAt(es, Sockets(es, m)[k])
    {
      assert Owns(es, m, Sockets(es, m)[k]);
    }
  }

  lemma EditKeepsPorts(b: Board, k: nat, field: string, v: Word32, m: NetifPtr)
    requires Inv(b) && k < |b.netifs| && field in {"IP", "MASK", "GW"}
    ensures PortsOf(Exec(b, NetifSet(k + 1, field, v)).0.es, m) == PortsOf(b.es, m)
  {
    ListedIsNotNull(b, k + 1);
    if field == "IP" { PortsSurviveRebind(b.es, b.others, b.netifs[k].ptr, v, m); }
  }

  lemma EditedInfo(b: Board, k: nat, field: string, v: Word32, l: nat)
    requires Inv(b) && k < |b.netifs| && l < |b.netifs| && field in {"IP", "MASK", "GW"}
    ensures var b' := Exec(b, NetifSet(k + 1, field, v)).0;
            && |b'.netifs| == |b.netifs|
            && InfoOf(b', l) == if l == k then Edited(InfoOf(b, k), field, Dotted(v)) else InfoOf(b, l)
  {
    ListedIsNotNull(b, k + 1);
    var b' := Exec(b, NetifSet(k + 1, field, v)).0;
    EditKeepsPorts(b, k, field, v, b.netifs[l].ptr);
    assert b'.netifs[l].ptr == b.netifs[l].ptr;
  }

  lemma EditedAt(b: Board, b': Board, k: nat, field: string, v: Word32, l: nat)
    requires Inv(b) && k < |b.netifs| && l < |b.netifs| && field in {"IP", "MASK", "GW"}
    requires b' == Exec(b, NetifSet(k + 1, field, v)).0
    ensures |b'.netifs| == |b.netifs|
    ensures Displayed(b', |b'.netifs|)[l] ==
            if l == k then Edited(Displayed(b, |b.netifs|)[k], field, Dotted(v)) else Displayed(b, |b.netifs|)[l]
  {
    EditedInfo(b, k, field, v, l);
    DisplayedAt(b', |b'.netifs|, l);
    DisplayedAt(b, |b.netifs|, l);
  }

  lemma EditedDisplay(b: Board, b': Board, k: nat, field: string, v: Word32)
    requires Inv(b) && k < |b.netifs| && field in {"IP", "MASK", "GW"}
    requires b' == Exec(b, NetifSet(k + 1, field, v)).0
    ensures var before := Displayed(b, |b.netifs|);
            Displayed(b', |b'.netifs|) == before[k := Edited(before[k], field, Dotted(v))]
  {
    EditedAt(b, b', k, field, v, k);
    forall l | 0 <= l < |b.netifs|
      ensures Displayed(b', |b'.netifs|)[l] ==
              if l == k then Edited(Displayed(b, |b.netifs|)[k], field, Dotted(v)) else Displayed(b, |b.netifs|)[l]
    {
      EditedAt(b, b', k, field, v, l);
    }
  }

  lemma FieldsAreArguments(field: string)
    requires field in {"IP", "MASK", "GW"}
    ensures IsArgument(field, 7)
  {
  }

  lemma EditAnswersOk(b: Board, k: nat, field: string, value: string, env: Env)
    requires Inv(b) && k < |b.netifs| && field in {"IP", "MASK", "GW"}
    requires IsArgument(value, 15) && env.aton(value).Some?
    ensures Dispatch(b, SetCommand(k + 1, field, value), env)
            == (Exec(b, NetifSet(k + 1, field, env.aton(value).value)).0, Frame("NETIFSET", "OK", []))
  {
    FieldsAreArguments(field);
    SetDispatches(b, k + 1, field, value, env);
    ListedIsNotNull(b, k + 1);
  }

  /** The edit dialog: the answer is OK, and the next listing differs from the old one in exactly the
      edited field; a socket whose rebind was refused does not show. */
  lemma EditIsDisplayed(b: Board, k: nat, field: string, value: string, env: Env) returns (b': Board)
    requires Inv(b) && k < |b.netifs| && field in {"IP", "MASK", "GW"}
    requires IsArgument(value, 15) && env.aton(value).Some?
    ensures Dispatch(b, SetCommand(k + 1, field, value), env) == (b', Frame("NETIFSET", "OK", []))
    ensures var before := Displayed(b, |b.netifs|);
            Displayed(b', |b'.netifs|) == before[k := Edited(before[k], field, Dotted(env.aton(value).value))]
  {
    b' := Exec(b, NetifSet(k + 1, field, env.aton(value).value)).0;
    EditAnswersOk(b, k, field, value, env);
    EditedDisplay(b, b', k, field, env.aton(value).value);
  }
}
