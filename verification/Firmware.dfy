/**
 The board's state as the firmware holds it, and the functions that change it in place: net_if_add and
 net_if_remove, the command handlers with the bytes they print, the line splitter, and the menu's
 interface selection.  Each method is proved against NetManager and CommandChannel.
 */
module Firmware {
  import opened Words
  import opened Registry
  import opened SlotMachine
  import opened UdpSource
  import opened NetManager
  import opened Listing
  import opened CommandChannel
  import opened MainLoop

  lemma DoneKeepsInv(b: Board, name: string, c: Command)
    requires Inv(b)
    ensures Inv(Done(b, name, c).0)
  {
    ExecKeepsInv(b, c);
  }

  lemma NetifAddKeepsInv(b: Board, args: string, env: Env)
    requires Inv(b)
    ensures Inv(CmdNetifAdd(b, args, env).0)
  {
    var ip := ScanWord(args, 15);
    var mask := if ip.Got? then ScanWord(ip.rest, 15) else Fail;
    var gw := if mask.Got? then ScanWord(mask.rest, 15) else Fail;
    if gw.Got? && env.aton(ip.value).Some? && env.aton(mask.value).Some? && env.aton(gw.value).Some? {
      DoneKeepsInv(b, "NETIFADD",
                   NetifAdd(env.aton(ip.value).value, env.aton(mask.value).value, env.aton(gw.value).value));
    }
  }

  lemma NetifSetKeepsInv(b: Board, args: string, env: Env)
    requires Inv(b)
    ensures Inv(CmdNetifSet(b, args, env).0)
  {
    var idx := ScanInt(args);
    var field := if idx.Got? then ScanWord(idx.rest, 7) else Fail;
    var value := if field.Got? then ScanWord(field.rest, 15) else Fail;
    if value.Got? && env.aton(value.value).Some? {
      DoneKeepsInv(b, "NETIFSET", NetifSet(idx.value, field.value, env.aton(value.value).value));
    }
  }

  lemma SockCommandsKeepInv(b: Board, args: string, env: Env)
    requires Inv(b)
    ensures Inv(CmdSockOpen(b, args, env).0)
    ensures Inv(CmdSockClose(b, args).0)
  {
    forall name, c: Command ensures Inv(Done(b, name, c).0) { DoneKeepsInv(b, name, c); }
  }

  /** Whatever line arrives, the interface and socket invariants survive it. */
  lemma DispatchKeepsInv(b: Board, line: string, env: Env)
    requires Inv(b)
    ensures Inv(Dispatch(b, line, env).0)
  {
    if line == "NETIF LIST" {
    } else if "NETIF ADD " <= line {
      NetifAddKeepsInv(b, line[10..], env);
    } else if "NETIF DEL " <= line {
      DoneKeepsInv(b, "NETIFDEL", NetifDel(Atoi(line[10..])));
    } else if "NETIF SET " <= line {
      NetifSetKeepsInv(b, line[10..], env);
    } else if "SOCK OPEN " <= line {
      SockCommandsKeepInv(b, line[10..], env);
    } else if "SOCK CLOSE " <= line {
      SockCommandsKeepInv(b, line[11..], env);
    } else {
      forall args ensures CmdPing(b, args, env).0 == b && CmdScan(b, args, env).0 == b && CmdUdpSend(b, args, env).0 == b {
        ReportsChangeNothing(b, args, env);
      }
    }
  }

  lemma ReportsChangeNothing(b: Board, args: string, env: Env)
    ensures CmdPing(b, args, env).0 == b && CmdScan(b, args, env).0 == b && CmdUdpSend(b, args, env).0 == b
  {
  }

  /** What the listing needs: a slot in use has a pcb to read the port from. */
  ghost predicate HasPcbs(es: Entries) {
    forall i :: 0 <= i < MAX_LISTENERS && es[i].inUse ==> es[i].pcb.Some?
  }

  function AllPrinted(outputs: seq<Output>): seq<Printed> {
    if outputs == [] then [] else PrintedLines(outputs[0]) + AllPrinted(outputs[1..])
  }

  /** Where the stream s leads from board b with `pending` and `out`: the board, the pending line, the output. */
  function StreamEnd(b: Board, pending: string, out: seq<Printed>, s: string, env: Env): (Board, string, seq<Printed>) {
    var (last, lines) := FeedBytes(pending, s);
    var (b', outputs) := DispatchAll(b, lines, env);
    (b', last, out + AllPrinted(outputs))
  }

  /** What remains of the stream after k bytes leads where the whole leads. */
  ghost predicate StreamGoesOn(out0: seq<Printed>, b0: Board, pending0: string, s: string, env: Env,
                               b: Board, pending: string, out: seq<Printed>, k: nat)
    requires k <= |s|
  {
    StreamEnd(b, pending, out, s[k..], env) == StreamEnd(b0, pending0, out0, s, env)
  }

  /** The effect of one byte. */
  function ByteEnd(b: Board, pending: string, out: seq<Printed>, c: char, env: Env): (Board, string, seq<Printed>) {
    match FeedByte(pending, c)
    case (next, None) => (b, next, out)
    case (next, Some(line)) => (Dispatch(b, line, env).0, next, out + PrintedLines(Dispatch(b, line, env).1))
  }

  lemma StreamStep(out0: seq<Printed>, b0: Board, pending0: string, s: string, env: Env,
                   b: Board, pending: string, out: seq<Printed>, k: nat)
    requires k < |s| && StreamGoesOn(out0, b0, pending0, s, env, b, pending, out, k)
    ensures var (b', pending', out') := ByteEnd(b, pending, out, s[k], env);
            StreamGoesOn(out0, b0, pending0, s, env, b', pending', out', k + 1)
  {
    assert s[k..][1..] == s[k + 1..];
    StreamByte(b, pending, out, s[k..], env);
  }

  lemma StreamByte(b: Board, pending: string, out: seq<Printed>, s: string, env: Env)
    requires s != ""
    ensures var (b', pending', out') := ByteEnd(b, pending, out, s[0], env);
            StreamEnd(b', pending', out', s[1..], env) == StreamEnd(b, pending, out, s, env)
  {
    var (next, line) := FeedByte(pending, s[0]);
    var (last, lines) := FeedBytes(next, s[1..]);
    if line.Some? {
      var r := Dispatch(b, line.value, env);
      FirstLine(b, line.value, lines, env);
      assert FeedBytes(pending, s) == (last, [line.value] + lines);
      var outputs := DispatchAll(r.0, lines, env).1;
      assert out + (PrintedLines(r.1) + AllPrinted(outputs)) == (out + PrintedLines(r.1)) + AllPrinted(outputs);
    } else {
      assert [] + lines == lines;
    }
  }

  lemma FirstLine(b: Board, line: string, lines: seq<string>, env: Env)
    ensures var r := Dispatch(b, line, env);
            var rest := DispatchAll(r.0, lines, env);
            && DispatchAll(b, [line] + lines, env) == (rest.0, [r.1] + rest.1)
            && AllPrinted([r.1] + rest.1) == PrintedLines(r.1) + AllPrinted(rest.1)
  {
    assert ([line] + lines)[1..] == lines;
    var r := Dispatch(b, line, env);
    var rest := DispatchAll(r.0, lines, env);
    assert ([r.1] + rest.1)[1..] == rest.1;
  }

  class Device {
    const reg: SocketRegistry
    const used: array<bool>
    var netifs: seq<Netif>
    const cmdLine: array<char>
    var cmdLineLen: nat
    var out: seq<Printed>  // lines sent to the serial port, each followed by CR LF

    ghost predicate Valid()
      reads this`cmdLineLen, reg
    {
      && reg.Valid() && used.Length == MAX_ALIAS
      && cmdLine.Length == CMD_LINE_MAX && cmdLineLen < CMD_LINE_MAX
    }

    ghost function View(): Board
      requires Valid()
      reads this`cmdLineLen, this`netifs, reg, reg.listeners, used
    {
      Board(netifs, used[..], reg.Owners(), reg.others)
    }

    ghost function Pending(): string
      requires Valid()
      reads this, reg, cmdLine
    {
      cmdLine[..cmdLineLen]
    }

    constructor (physical: Netif, others: seq<Pcb>)
      ensures Valid() && Pending() == "" && out == []
      ensures View() == NetManager.Boot(physical, others) && reg.View() == SlotMachine.Boot(others)
    {
      reg := new SocketRegistry(others);
      used := new bool[MAX_ALIAS](_ => false);
      netifs := [physical.(ptr := PHYSICAL)];
      cmdLine := new char[CMD_LINE_MAX](_ => '\0');
      cmdLineLen := 0;
      out := [];
      new;
      assert Shape(seq(MAX_LISTENERS, _ => ZERO_SLOT)) == seq(MAX_LISTENERS, _ => EMPTY_ENTRY);
      assert used[..] == seq(MAX_ALIAS, _ => false);
    }

    // -------------------------------------------------------------------------------------------
    // net_manager.c

    method AddNetif(ip: Word32, mask: Word32, gw: Word32) returns (err: Err)
      requires Valid()
      modifies this`netifs, used
      ensures Valid() && (View(), err) == NetIfAdd(old(View()), ip, mask, gw)
    {
      for idx := 0 to MAX_ALIAS
        invariant View() == old(View())
        invariant forall j :: 0 <= j < idx ==> used[j]
      {
        if !used[idx] {
          assert FirstUnused(used[..], 0) == Some(idx);
          netifs := [Netif(AliasPtr(idx), ip, mask, gw)] + netifs;
          used[idx] := true;
          var added := ip;
          return if added == 0 then ERR_MEM else ERR_OK;
        }
      }
      return ERR_MEM;
    }

    /** The sockets go first, then the interface. */
    method RemoveNetif(n: NetifPtr) returns (err: Err, ghost evs: seq<Event>)
      requires Valid()
      modifies this`netifs, used, reg.listeners
      ensures Valid() && (View(), err) == NetIfRemove(old(View()), n)
      ensures Ran(old(reg.View()), evs) && evs == if n == NULL || n == PHYSICAL then [] else [FreeAll(n)]
    {
      evs := [];
      if n == NULL { return ERR_VAL, evs; }
      if n == PHYSICAL { return ERR_VAL, evs; }
      evs := [FreeAll(n)];
      reg.RemoveAllOnNetif(n);
      for idx := 0 to MAX_ALIAS
        invariant Ran(old(reg.View()), evs)
        invariant View() == old(View()).(es := CloseAll(old(View()).es, n))
        invariant forall j :: 0 <= j < idx ==> !(n == AliasPtr(j) && used[j])
      {
        if n == AliasPtr(idx) && used[idx] {
          netifs := Without(netifs, n);
          used[idx] := false;
          break;
        }
      }
      return ERR_OK, evs;
    }

    // -------------------------------------------------------------------------------------------
    // Choosing an interface

    /** cmd_netif_by_index */
    method FindNetif(idx: int) returns (n: NetifPtr)
      requires Valid()
      ensures n == NetifByIndex(netifs, idx)
    {
      if idx < 1 { return NULL; }
      var i, k := idx, 0;
      while k < |netifs| && i > 1
        invariant 0 <= k <= |netifs| && i >= 1 && i + k == idx
      {
        i := i - 1;
        k := k + 1;
      }
      return if k < |netifs| then netifs[k].ptr else NULL;
    }

    /** The walk of terminal_select_netif: the typed byte minus '0' minus one, in an unsigned counter
        that may wrap, picks the same interface as cmd_netif_by_index. */
    method SelectNetif(ch: Byte) returns (n: NetifPtr)
      requires Valid() && |netifs| < TWO_32 - 0x100
      ensures n == NetifByIndex(netifs, ch - 48)
    {
      var idx: Word32 := (ch - 48) % TWO_32;
      idx := (idx - 1) % TWO_32;
      assert idx == if ch >= 49 then ch - 49 else TWO_32 + ch - 49;
      var start := idx;
      var k := 0;
      while k < |netifs| && idx > 0
        invariant 0 <= k <= |netifs| && k <= start && idx == start - k
      {
        idx := idx - 1;
        k := k + 1;
      }
      return if k < |netifs| then netifs[k].ptr else NULL;
    }

    // -------------------------------------------------------------------------------------------
    // Printing

    method PrintLine(p: Printed)
      modifies this`out
      ensures out == old(out) + [p]
    {
      out := out + [p];
    }

    method Begin(name: string)
      modifies this`out
      ensures out == old(out) + [Head(name)] + Bodies([])
    {
      PrintLine(Head(name));
    }

    /** Prints the #END line; `before` and `data` say what the block has printed so far. */
    method Finish(name: string, status: string, ghost before: seq<Printed>, ghost data: seq<DataLine>)
      requires out == before + [Head(name)] + Bodies(data)
      modifies this`out
      ensures out == before + PrintedLines(Frame(name, status, data))
    {
      PrintLine(Tail(name, status));
      assert before + [Head(name)] + Bodies(data) + [Tail(name, status)]
             == before + ([Head(name)] + Bodies(data) + [Tail(name, status)]);
    }

    /** The mailboxes, counters and owners went through this run of SlotMachine. */
    ghost predicate Ran(before: State, evs: seq<Event>)
      requires Valid()
      reads this`cmdLineLen, reg, reg.listeners
    {
      reg.View() == SlotMachine.Run(before, evs)
    }

    /** A handler's contract: the new board and what it printed are those of `r`. */
    ghost predicate Answered(before: seq<Printed>, r: (Board, Output))
      requires Valid()
      reads this, reg, reg.listeners, used
    {
      View() == r.0 && out == before + PrintedLines(r.1)
    }

    // -------------------------------------------------------------------------------------------
    // NETIF LIST

    /** #SOCK lines of one interface */
    method PrintSockets(n: NetifPtr, idx: nat)
      requires Valid() && HasPcbs(View().es)
      modifies this`out
      ensures var ports := PortsOf(View().es, n);
              out == old(out) + Bodies(SockLines(idx, ports, |ports|))
    {
      ghost var ports := PortsOf(View().es, n);
      var j := 0;
      var count := reg.CountSockets(n);
      while j < count
        invariant 0 <= j <= count == |ports|
        invariant out == old(out) + Bodies(SockLines(idx, ports, j))
      {
        var netif, port, id := reg.GetSocket(n, j);
        PrintLine(Body(SockData(idx, j + 1, port)));
        j := j + 1;
        count := reg.CountSockets(n);
      }
    }

    /** The #NETIF line of one interface and its #SOCK lines */
    method PrintNetif(k: nat)
      requires Valid() && HasPcbs(View().es) && k < |netifs|
      modifies this`out
      ensures out == old(out) + Bodies(NetifLines(View(), k))
    {
      var n := netifs[k];
      var count := reg.CountSockets(n.ptr);
      PrintLine(Body(NetifData(k + 1, n, count)));
      PrintSockets(n.ptr, k + 1);
    }

    method PrintAllNetifs()
      requires Valid() && HasPcbs(View().es)
      modifies this`out
      ensures out == old(out) + Bodies(NetifListData(View()))
    {
      ghost var b := View();
      var k := 0;
      while k < |netifs|
        invariant 0 <= k <= |netifs| && View() == b
        invariant out == old(out) + Bodies(ListLines(b, k))
      {
        PrintNetif(k);
        k := k + 1;
      }
    }

    method HandleNetifList()
      requires Valid() && Inv(View())
      modifies this`out
      ensures Answered(old(out), (old(View()), Frame("NETIFLIST", "OK", NetifListData(old(View())))))
    {
      Begin("NETIFLIST");
      PrintAllNetifs();
      Finish("NETIFLIST", "OK", old(out), NetifListData(View()));
    }

    // -------------------------------------------------------------------------------------------
    // Handlers that change the board

    method HandleNetifAdd(args: string, env: Env)
      requires Valid()
      modifies this`out, this`netifs, used
      ensures Valid() && Answered(old(out), CmdNetifAdd(old(View()), args, env))
    {
      Begin("NETIFADD");
      var ip := ScanWord(args, 15);
      var mask := if ip.Got? then ScanWord(ip.rest, 15) else Fail;
      var gw := if mask.Got? then ScanWord(mask.rest, 15) else Fail;
      if gw.Fail? || env.aton(ip.value).None? || env.aton(mask.value).None? || env.aton(gw.value).None? {
        Finish("NETIFADD", "ERR:bad_args", old(out), []);
        return;
      }
      var err := AddNetif(env.aton(ip.value).value, env.aton(mask.value).value, env.aton(gw.value).value);
      if err != ERR_OK {
        Finish("NETIFADD", "ERR:add_failed", old(out), []);
        return;
      }
      Finish("NETIFADD", "OK", old(out), []);
    }

    method HandleNetifDel(args: string) returns (ghost evs: seq<Event>)
      requires Valid()
      modifies this`out, this`netifs, used, reg.listeners
      ensures Valid() && Answered(old(out), CmdNetifDel(old(View()), args))
      ensures Ran(old(reg.View()), evs)
    {
      evs := [];
      var n := FindNetif(Atoi(args));
      Begin("NETIFDEL");
      if n == NULL {
        Finish("NETIFDEL", "ERR:bad_index", old(out), []);
        return;
      }
      var err;
      err, evs := RemoveNetif(n);
      if err != ERR_OK {
        Finish("NETIFDEL", "ERR:remove_failed", old(out), []);
        return;
      }
      Finish("NETIFDEL", "OK", old(out), []);
    }

    /** The checks and the change of cmd_netif_set; the status it is going to print. */
    method SetListed(idx: int, field: string, v: Word32) returns (status: string, ghost evs: seq<Event>)
      requires Valid()
      modifies this`netifs, reg.listeners
      ensures Valid() && Ran(old(reg.View()), evs)
      ensures (View(), status) == Exec(old(View()), NetifSet(idx, field, v))
    {
      evs := [];
      var n := FindNetif(idx);
      if n == NULL { return "ERR:bad_index", evs; }
      var k := idx - 1;
      if field == "IP" {
        netifs := netifs[k := netifs[k].(ip := v)];
        reg.NetifIpChanged(n, v);
        evs := [Rebind(n, v)];
      } else if field == "MASK" {
        netifs := netifs[k := netifs[k].(mask := v)];
      } else if field == "GW" {
        netifs := netifs[k := netifs[k].(gw := v)];
      } else {
        return "ERR:bad_field", evs;
      }
      return "OK", evs;
    }

    method HandleNetifSet(args: string, env: Env) returns (ghost evs: seq<Event>)
      requires Valid()
      modifies this`out, this`netifs, reg.listeners
      ensures Valid() && Answered(old(out), CmdNetifSet(old(View()), args, env))
      ensures Ran(old(reg.View()), evs)
    {
      evs := [];
      Begin("NETIFSET");
      var idx := ScanInt(args);
      var field := if idx.Got? then ScanWord(idx.rest, 7) else Fail;
      var value := if field.Got? then ScanWord(field.rest, 15) else Fail;
      if value.Fail? || env.aton(value.value).None? {
        Finish("NETIFSET", "ERR:bad_args", old(out), []);
        return;
      }
      var status;
      status, evs := SetListed(idx.value, field.value, env.aton(value.value).value);
      Finish("NETIFSET", status, old(out), []);
    }

    method OpenOn(idx: int, port: Word16, open: OpenEnv, irq: nat -> seq<Delivery>)
      returns (err: Err, ghost evs: seq<Event>)
      requires Valid() && NetifByIndex(netifs, idx) != NULL
      modifies reg.listeners
      ensures Valid() && Ran(old(reg.View()), evs)
      ensures evs == OpenEvents(old(reg.View()), netifs[idx - 1].ptr, Pcb(netifs[idx - 1].ip, port), open, irq)
      ensures var n, b := netifs[idx - 1], old(View());
              && View() == b.(es := Open(b.es, b.others, n.ptr, Pcb(n.ip, port), open))
              && (err == ERR_OK <==> PlanOpen(b.es, b.others, n.ptr, Pcb(n.ip, port), open).Accepted?)
    {
      PlanIff(View().es, View().others, netifs[idx - 1].ptr, Pcb(netifs[idx - 1].ip, port), open);
      evs := OpenEvents(reg.View(), netifs[idx - 1].ptr, Pcb(netifs[idx - 1].ip, port), open, irq);
      var id;
      err, id := reg.AddListener(netifs[idx - 1].ptr, Pcb(netifs[idx - 1].ip, port), open, irq);
    }

    /** The checks and the open of cmd_sock_open; the status it is going to print. */
    method OpenListed(idx: int, port: Word16, open: OpenEnv, irq: nat -> seq<Delivery>)
      returns (status: string, ghost evs: seq<Event>)
      requires Valid()
      modifies reg.listeners
      ensures Valid() && Ran(old(reg.View()), evs)
      ensures (View(), status) == Exec(old(View()), SockOpen(idx, port, open))
    {
      evs := [];
      var n := FindNetif(idx);
      if n == NULL { return "ERR:bad_index", evs; }
      var err;
      err, evs := OpenOn(idx, port, open, irq);
      if err != ERR_OK { return "ERR:open_failed", evs; }
      return "OK", evs;
    }

    method HandleSockOpen(args: string, env: Env, irq: nat -> seq<Delivery>) returns (ghost evs: seq<Event>)
      requires Valid()
      modifies this`out, reg.listeners
      ensures Valid() && Answered(old(out), CmdSockOpen(old(View()), args, env))
      ensures Ran(old(reg.View()), evs)
    {
      evs := [];
      Begin("SOCKOPEN");
      var two := ScanTwoInts(args);
      if two.Fail? || two.value.1 < 1 || two.value.1 > 65535 {
        Finish("SOCKOPEN", "ERR:bad_args", old(out), []);
        return;
      }
      var status;
      status, evs := OpenListed(two.value.0, two.value.1, env.open, irq);
      Finish("SOCKOPEN", status, old(out), []);
    }

    method CloseNth(n: NetifPtr, nth: nat, irq: seq<Delivery>) returns (ghost evs: seq<Event>)
      requires Valid() && Inv(View()) && nth < |Sockets(View().es, n)|
      modifies reg.listeners
      ensures Valid() && Ran(old(reg.View()), evs)
      ensures var i := old(Sockets(View().es, n)[nth]);
              i < MAX_LISTENERS && View() == old(View()).(es := CloseId(old(View().es), MakeId(old(View().es), i)))
    {
      SocketsAround(View().es, n, nth);
      var netif, port, id := reg.GetSocket(n, nth);
      evs := CloseEvents(id, irq);
      reg.RemoveListener(id, irq);
    }

    /** The checks and the close of cmd_sock_close; the status it is going to print. */
    method CloseListed(idx: int, nth: int, irq: seq<Delivery>)
      returns (status: string, ghost evs: seq<Event>)
      requires Valid() && Inv(View())
      modifies reg.listeners
      ensures Valid() && Ran(old(reg.View()), evs)
      ensures (View(), status) == Exec(old(View()), SockClose(idx, nth))
    {
      evs := [];
      var n := FindNetif(idx);
      if n == NULL { return "ERR:bad_index", evs; }
      var count := reg.CountSockets(n);
      if nth < 1 || nth > count { return "ERR:bad_socket", evs; }
      evs := CloseNth(n, nth - 1, irq);
      return "OK", evs;
    }

    method HandleSockClose(args: string, irq: seq<Delivery>) returns (ghost evs: seq<Event>)
      requires Valid() && Inv(View())
      modifies this`out, reg.listeners
      ensures Valid() && Answered(old(out), CmdSockClose(old(View()), args))
      ensures Ran(old(reg.View()), evs)
    {
      evs := [];
      Begin("SOCKCLOSE");
      var two := ScanTwoInts(args);
      if two.Fail? {
        Finish("SOCKCLOSE", "ERR:bad_args", old(out), []);
        return;
      }
      var status;
      status, evs := CloseListed(two.value.0, two.value.1, irq);
      Finish("SOCKCLOSE", status, old(out), []);
    }

    /** The menu's change of an address: the sockets are rebound even when the input was rejected. */
    method MenuChangeIp(idx: int, typed: Option<Word32>) returns (ghost evs: seq<Event>)
      requires Valid()
      modifies this`netifs, reg.listeners
      ensures Valid() && Ran(old(reg.View()), evs)
      ensures View() == Exec(old(View()), MenuSetIp(idx, typed)).0
    {
      evs := [];
      var n := FindNetif(idx);
      if n == NULL { return; }
      var k := idx - 1;
      if typed.Some? {
        netifs := netifs[k := netifs[k].(ip := typed.value)];
      }
      reg.NetifIpChanged(n, netifs[k].ip);
      evs := [Rebind(n, netifs[k].ip)];
    }

    // -------------------------------------------------------------------------------------------
    // Handlers that only report

    method HandlePing(args: string, env: Env)
      requires Valid()
      modifies this`out
      ensures Answered(old(out), CmdPing(old(View()), args, env))
    {
      Begin("PING");
      var idx := ScanInt(args);
      var ip := if idx.Got? then ScanWord(idx.rest, 15) else Fail;
      if ip.Fail? || env.aton(ip.value).None? {
        Finish("PING", "ERR:bad_args", old(out), []);
        return;
      }
      var n := FindNetif(idx.value);
      if n == NULL {
        Finish("PING", "ERR:bad_index", old(out), []);
        return;
      }
      if env.ping.SendFailed? {
        Finish("PING", "ERR:send_failed", old(out), []);
        return;
      }
      if env.ping.Replied? {
        PrintLine(Body(PongData(env.ping.from, env.ping.seqno, env.ping.bytes, env.ping.rtt, env.ping.ttl)));
      } else {
        PrintLine(Body(TimeoutData));
      }
      Finish("PING", "OK", old(out), PingLines(env.ping));
    }

    method HandleScan(args: string, env: Env)
      requires Valid()
      modifies this`out
      ensures Answered(old(out), CmdScan(old(View()), args, env))
    {
      var n := FindNetif(Atoi(args));
      Begin("SCAN");
      if n == NULL {
        Finish("SCAN", "ERR:bad_index", old(out), []);
        return;
      }
      for k := 0 to |env.hosts|
        invariant out == old(out) + [Head("SCAN")] + Bodies(HostLines(env.hosts[..k]))
      {
        PrintLine(Body(HostData(env.hosts[k].0, env.hosts[k].1)));
      }
      assert env.hosts[..|env.hosts|] == env.hosts;
      Finish("SCAN", "OK", old(out), HostLines(env.hosts));
    }

    method HandleArpReset()
      requires Valid()
      modifies this`out
      ensures Answered(old(out), Plain(old(View()), "ARPRESET", "OK"))
    {
      Begin("ARPRESET");
      Finish("ARPRESET", "OK", old(out), []);
    }

    method HandleUdpSend(args: string, env: Env)
      requires Valid()
      modifies this`out
      ensures Answered(old(out), CmdUdpSend(old(View()), args, env))
    {
      Begin("UDPSEND");
      var two := ScanTwoInts(args);
      var ip := if two.Got? then ScanWord(two.rest, 15) else Fail;
      var port := if ip.Got? then ScanInt(ip.rest) else Fail;
      if port.Fail? || env.aton(ip.value).None? || port.value < 1 || port.value > 65535 {
        Finish("UDPSEND", "ERR:bad_args", old(out), []);
        return;
      }
      if SkipSpace(port.rest) == "" {
        Finish("UDPSEND", "ERR:no_data", old(out), []);
        return;
      }
      var n := FindNetif(two.value.0);
      if n == NULL {
        Finish("UDPSEND", "ERR:bad_index", old(out), []);
        return;
      }
      var count := reg.CountSockets(n);
      if two.value.1 < 1 || two.value.1 > count {
        Finish("UDPSEND", "ERR:bad_socket", old(out), []);
        return;
      }
      if !env.sendOk {
        Finish("UDPSEND", "ERR:send_failed", old(out), []);
        return;
      }
      Finish("UDPSEND", "OK", old(out), []);
    }

    // -------------------------------------------------------------------------------------------
    // Lines and bytes

    method CmdDispatch(line: string, env: Env, irq: nat -> seq<Delivery>) returns (ghost evs: seq<Event>)
      requires Valid() && Inv(View())
      modifies this`out, this`netifs, used, reg.listeners
      ensures Valid() && Answered(old(out), Dispatch(old(View()), line, env))
      ensures Ran(old(reg.View()), evs)
    {
      evs := [];
      if line == "NETIF LIST" { HandleNetifList(); }
      else if "NETIF ADD " <= line { HandleNetifAdd(line[10..], env); }
      else if "NETIF DEL " <= line { evs := HandleNetifDel(line[10..]); }
      else if "NETIF SET " <= line { evs := HandleNetifSet(line[10..], env); }
      else if "SOCK OPEN " <= line { evs := HandleSockOpen(line[10..], env, irq); }
      else if "SOCK CLOSE " <= line { evs := HandleSockClose(line[11..], irq(0)); }
      else if "PING " <= line { HandlePing(line[5..], env); }
      else if "SCAN " <= line { HandleScan(line[5..], env); }
      else if line == "ARPRESET" { HandleArpReset(); }
      else if "UDP SEND " <= line { HandleUdpSend(line[9..], env); }
      else { PrintLine(Error); }
    }

    /** cmd_channel_feed */
    method CmdChannelFeed(ch: char, env: Env, irq: nat -> seq<Delivery>) returns (ghost evs: seq<Event>)
      requires Valid() && Inv(View())
      modifies this`out, this`netifs, this`cmdLineLen, cmdLine, used, reg.listeners
      ensures Valid() && Inv(View()) && Ran(old(reg.View()), evs)
      ensures Pending() == FeedByte(old(Pending()), ch).0
      ensures match FeedByte(old(Pending()), ch).1
              case None => View() == old(View()) && out == old(out)
              case Some(line) => Answered(old(out), Dispatch(old(View()), line, env))
    {
      evs := [];
      if ch == '\r' || ch == '\n' {
        if cmdLineLen > 0 {
          ghost var pending := Pending();
          cmdLine[cmdLineLen] := '\0';
          assert cmdLine[..cmdLineLen] == pending;
          var line := CString(cmdLine[..cmdLineLen]);
          DispatchKeepsInv(View(), line, env);
          evs := CmdDispatch(line, env, irq);
          cmdLineLen := 0;
        }
        return;
      }
      if cmdLineLen < CMD_LINE_MAX - 1 {
        ghost var pending := Pending();
        cmdLine[cmdLineLen] := ch;
        assert cmdLine[..cmdLineLen] == pending;
        cmdLineLen := cmdLineLen + 1;
      }
    }

    /** One byte of the main loop: the menu key or the command channel. */
    method ReceiveByte(key: char, env: Env, irq: nat -> seq<Delivery>) returns (menu: bool, ghost evs: seq<Event>)
      requires Valid() && Inv(View())
      modifies this`out, this`netifs, this`cmdLineLen, cmdLine, used, reg.listeners
      ensures Valid() && Inv(View()) && Ran(old(reg.View()), evs)
      ensures menu <==> key == MENU_KEY
      ensures menu ==> View() == old(View()) && out == old(out) && Pending() == old(Pending())
      ensures !menu ==> Pending() == FeedByte(old(Pending()), key).0
      ensures !menu ==> match FeedByte(old(Pending()), key).1
                        case None => View() == old(View()) && out == old(out)
                        case Some(line) => Answered(old(out), Dispatch(old(View()), line, env))
    {
      menu, evs := key == MENU_KEY, [];
      if !menu {
        evs := CmdChannelFeed(key, env, irq);
      }
    }

    /** A stream of bytes without the menu key: all lines in it are dispatched in order. */
    method ReceiveStream(s: string, env: Env, irq: nat -> seq<Delivery>) returns (ghost evs: seq<Event>)
      requires Valid() && Inv(View()) && MENU_KEY !in s
      modifies this`out, this`netifs, this`cmdLineLen, cmdLine, used, reg.listeners
      ensures Valid() && Inv(View()) && Ran(old(reg.View()), evs)
      ensures Pending() == FeedBytes(old(Pending()), s).0
      ensures var (b, outputs) := DispatchAll(old(View()), FeedBytes(old(Pending()), s).1, env);
              View() == b && out == old(out) + AllPrinted(outputs)
    {
      evs := [];
      assert out + [] == out;
      var k := 0;
      while k < |s|
        invariant 0 <= k <= |s| && Valid() && Inv(View()) && Ran(old(reg.View()), evs)
        invariant StreamGoesOn(old(out), old(View()), old(Pending()), s, env, View(), Pending(), out, k)
      {
        ghost var st, b, pending, printed := reg.View(), View(), Pending(), out;
        ghost var more;
        var menu;
        menu, more := ReceiveByte(s[k], env, irq);
        RunAppend(old(reg.View()), evs, more);
        evs := evs + more;
        StreamStep(old(out), old(View()), old(Pending()), s, env, b, pending, printed, k);
        k := k + 1;
      }
      assert s[|s|..] == "";
      assert forall x: seq<Printed> :: x + [] == x;
    }
  }
}
