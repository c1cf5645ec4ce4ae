/**
 From a line on the serial wire to the panel's picture of the board and back: every dispatched line is
 answered by exactly one response, a listing is read back as what the board holds, and acting on a
 displayed socket acts on that socket.
 */
module EndToEnd {
  import opened Words
  import opened Text
  import opened Registry
  import opened NetManager
  import opened Protocol
  import opened Listing
  import opened SerialManager
  import opened CommandChannel

  // ---------------------------------------------------------------------------------------------
  // Every handler answers with one frame

  lemma StatusIsVisible(b: Board, c: Command)
    requires !c.MenuSetIp?
    ensures IsVisible(Exec(b, c).1)
  {
    assert Exec(b, c).1 in {"OK", "ERR:add_failed", "ERR:bad_index", "ERR:remove_failed", "ERR:bad_field",
                            "ERR:open_failed", "ERR:bad_socket"};
    CommonStatuses();
    ExecStatuses();
  }

  lemma CommonStatuses()
    ensures IsVisible("OK") && IsVisible("ERR:bad_index") && IsVisible("ERR:bad_socket")
    ensures IsVisible("ERR:bad_args") && IsVisible("ERR:send_failed") && IsVisible("ERR:no_data")
  {
  }

  lemma ExecStatuses()
    ensures IsVisible("ERR:add_failed") && IsVisible("ERR:remove_failed")
    ensures IsVisible("ERR:bad_field") && IsVisible("ERR:open_failed")
  {
  }

  lemma BlockNames()
    ensures IsVisible("NETIFLIST") && IsVisible("NETIFADD") && IsVisible("NETIFDEL") && IsVisible("NETIFSET")
    ensures IsVisible("SOCKOPEN") && IsVisible("SOCKCLOSE") && IsVisible("PING") && IsVisible("SCAN")
    ensures IsVisible("ARPRESET") && IsVisible("UDPSEND")
  {
  }

  predicate Framed(r: (Board, Output)) { IsFramed(ReplyOf(r.1)) }

  lemma DoneIsFramed(b: Board, name: string, c: Command)
    requires IsVisible(name) && !c.MenuSetIp?
    ensures Framed(Done(b, name, c))
  {
    StatusIsVisible(b, c);
    FrameIsFramed(name, Exec(b, c).1, []);
  }

  lemma PlainIsFramed(b: Board, name: string)
    requires IsVisible(name)
    ensures Framed(Plain(b, name, "OK")) && Framed(Plain(b, name, "ERR:bad_args")) && Framed(Plain(b, name, "ERR:bad_index"))
    ensures Framed(Plain(b, name, "ERR:bad_socket")) && Framed(Plain(b, name, "ERR:send_failed"))
    ensures Framed(Plain(b, name, "ERR:no_data"))
  {
    CommonStatuses();
    FrameIsFramed(name, "OK", []);
    FrameIsFramed(name, "ERR:bad_args", []);
    FrameIsFramed(name, "ERR:bad_index", []);
    FrameIsFramed(name, "ERR:bad_socket", []);
    FrameIsFramed(name, "ERR:send_failed", []);
    FrameIsFramed(name, "ERR:no_data", []);
  }

  lemma NetifAddIsFramed(b: Board, args: string, env: Env)
    ensures Framed(CmdNetifAdd(b, args, env))
  {
    BlockNames();
    PlainIsFramed(b, "NETIFADD");
    forall c: Command | !c.MenuSetIp? ensures Framed(Done(b, "NETIFADD", c)) { DoneIsFramed(b, "NETIFADD", c); }
  }

  lemma NetifSetIsFramed(b: Board, args: string, env: Env)
    ensures Framed(CmdNetifSet(b, args, env))
  {
    BlockNames();
    PlainIsFramed(b, "NETIFSET");
    forall c: Command | !c.MenuSetIp? ensures Framed(Done(b, "NETIFSET", c)) { DoneIsFramed(b, "NETIFSET", c); }
  }

  lemma NetifDelIsFramed(b: Board, args: string)
    ensures Framed(CmdNetifDel(b, args))
  {
    BlockNames();
    DoneIsFramed(b, "NETIFDEL", NetifDel(Atoi(args)));
  }

  lemma SockOpenIsFramed(b: Board, args: string, env: Env)
    ensures Framed(CmdSockOpen(b, args, env))
  {
    BlockNames();
    PlainIsFramed(b, "SOCKOPEN");
    forall c: Command | !c.MenuSetIp? ensures Framed(Done(b, "SOCKOPEN", c)) { DoneIsFramed(b, "SOCKOPEN", c); }
  }

  lemma SockCloseIsFramed(b: Board, args: string)
    ensures Framed(CmdSockClose(b, args))
  {
    BlockNames();
    PlainIsFramed(b, "SOCKCLOSE");
    forall c: Command | !c.MenuSetIp? ensures Framed(Done(b, "SOCKCLOSE", c)) { DoneIsFramed(b, "SOCKCLOSE", c); }
  }

  lemma ReportsAreFramed(b: Board, args: string, env: Env)
    ensures Framed(CmdPing(b, args, env)) && Framed(CmdScan(b, args, env)) && Framed(CmdUdpSend(b, args, env))
  {
    BlockNames();
    PlainIsFramed(b, "PING");
    PlainIsFramed(b, "SCAN");
    PlainIsFramed(b, "UDPSEND");
    CommonStatuses();
    PingAndScanAreData(env.ping, env.hosts);
    FrameIsFramed("PING", "OK", PingLines(env.ping));
    FrameIsFramed("SCAN", "OK", HostLines(env.hosts));
  }

  lemma ListIsFramed(b: Board)
    requires Inv(b)
    ensures Framed((b, Frame("NETIFLIST", "OK", NetifListData(b)))) && Framed(Plain(b, "ARPRESET", "OK"))
  {
    BlockNames();
    CommonStatuses();
    ListingIsData(b);
    FrameIsFramed("NETIFLIST", "OK", NetifListData(b));
    PlainIsFramed(b, "ARPRESET");
  }

  /** Whatever the line, the output is one well-formed frame (or the unknown-command line). */
  lemma EveryReplyIsFramed(b: Board, line: string, env: Env)
    requires Inv(b)
    ensures Framed(Dispatch(b, line, env))
  {
    ListIsFramed(b);
    if line == "NETIF LIST" {
    } else if "NETIF ADD " <= line {
      NetifAddIsFramed(b, line[10..], env);
    } else if "NETIF DEL " <= line {
      NetifDelIsFramed(b, line[10..]);
    } else if "NETIF SET " <= line {
      NetifSetIsFramed(b, line[10..], env);
    } else if "SOCK OPEN " <= line {
      SockOpenIsFramed(b, line[10..], env);
    } else if "SOCK CLOSE " <= line {
      SockCloseIsFramed(b, line[11..]);
    } else if "PING " <= line || "SCAN " <= line {
      ReportsAreFramed(b, line[5..], env);
    } else if line != "ARPRESET" && "UDP SEND " <= line {
      ReportsAreFramed(b, line[9..], env);
    }
  }

  /** Every dispatched line completes the waiting command exactly once, with the name, status and data
      lines its handler printed, however the output is interleaved with events and cut into chunks. */
  lemma EveryLineIsAnsweredOnce(b: Board, line: string, env: Env, h: Collector, printed: seq<string>, chunks: seq<string>)
    requires Inv(b) && h.waiting && h.lineBuf == ""
    requires Denoised(printed) == PrintedTexts(PrintedLines(Dispatch(b, line, env).1))
    requires forall k :: 0 <= k < |printed| ==> '\n' !in printed[k]
    requires Concat(chunks) == Render(printed)
    ensures var h' := FeedChunks(h, chunks);
            && h'.answers == h.answers + [Expected(ReplyOf(Dispatch(b, line, env).1))]
            && h'.lineBuf == "" && h'.waiting
  {
    EveryReplyIsFramed(b, line, env);
    OutputIsReply(Dispatch(b, line, env).1);
    FramingTheorem(h, ReplyOf(Dispatch(b, line, env).1), printed, chunks);
  }

  // ---------------------------------------------------------------------------------------------
  // Listings and ping replies are read back

  /** The panel's parser turns the data lines of NETIF LIST into what the board holds: the same
      interfaces in order, 1-based indices, the same addresses, and every socket with its port. */
  lemma ListingRoundTrip(b: Board)
    requires Inv(b)
    ensures ParseLines([], Texts(NetifListData(b))) == Displayed(b, |b.netifs|)
  {
    AtMostEight(b);
    ReparseList(b, |b.netifs|);
  }

  /** A displayed interface tells the truth about the k-th interface of the board: its number, the addresses
      its texts denote, and the ports of its slots in use, numbered from 1 in slot order. */
  ghost predicate TellsTruth(info: NetifInfo, b: Board, k: nat)
    requires k < |b.netifs|
  {
    var n, slots := b.netifs[k], Sockets(b.es, b.netifs[k].ptr);
    && info.index == k + 1
    && AddressOf(info.ip) == Some(n.ip) && AddressOf(info.mask) == Some(n.mask) && AddressOf(info.gw) == Some(n.gw)
    && |info.sockets| == |slots|
    && forall j :: 0 <= j < |slots| ==>
         && info.sockets[j].nth == j + 1 && slots[j] < MAX_LISTENERS
         && b.es[slots[j]].pcb.Some? && info.sockets[j].port == b.es[slots[j]].pcb.value.port
  }

  /** Parsing the data lines of NETIF LIST tells the truth about every interface, in order, and no more. */
  lemma ListingTellsTruth(b: Board)
    requires Inv(b)
    ensures var infos := ParseLines([], Texts(NetifListData(b)));
            |infos| == |b.netifs| && forall k :: 0 <= k < |infos| ==> TellsTruth(infos[k], b, k)
  {
    ListingRoundTrip(b);
    forall k | 0 <= k < |b.netifs|
      ensures TellsTruth(Displayed(b, |b.netifs|)[k], b, k)
    {
      DisplayedAt(b, |b.netifs|, k);
      InfoTellsTruth(b, k);
    }
  }

  lemma InfoTellsTruth(b: Board, k: nat)
    requires Inv(b) && k < |b.netifs|
    ensures TellsTruth(InfoOf(b, k), b, k)
  {
    var n := b.netifs[k];
    DottedDenotes(n.ip);
    DottedDenotes(n.mask);
    DottedDenotes(n.gw);
    forall j | 0 <= j < |Sockets(b.es, n.ptr)|
      ensures Sockets(b.es, n.ptr)[j] < MAX_LISTENERS && b.es[Sockets(b.es, n.ptr)[j]].pcb.Some?
      ensures InfoOf(b, k).sockets[j] == SocketInfo(j + 1, b.es[Sockets(b.es, n.ptr)[j]].pcb.value.port)
    {
      ListedPort(b, n.ptr, j);
    }
  }

  /** The count after "socks=" is the number of slots in use that belong to the interface. */
  lemma ListedCount(b: Board, k: nat)
    requires k < |b.netifs|
    ensures NetifLines(b, k)[0] == NetifData(k + 1, b.netifs[k], |Sockets(b.es, b.netifs[k].ptr)|)
  {
  }

  /** From the command line to the parsed list, through events and chunks. */
  lemma ListCommandEndToEnd(b: Board, env: Env, h: Collector, printed: seq<string>, chunks: seq<string>)
    requires Inv(b) && h.waiting && h.lineBuf == "" && h.answers == []
    requires Denoised(printed) == PrintedTexts(PrintedLines(Dispatch(b, "NETIF LIST", env).1))
    requires forall k :: 0 <= k < |printed| ==> '\n' !in printed[k]
    requires Concat(chunks) == Render(printed)
    ensures var answers := FeedChunks(h, chunks).answers;
            && |answers| == 1 && answers[0].status == "OK"
            && ParseLines([], answers[0].data) == Displayed(b, |b.netifs|)
  {
    EveryLineIsAnsweredOnce(b, "NETIF LIST", env, h, printed, chunks);
    ListingRoundTrip(b);
  }

  /** A ping reply is read back field by field; only a time beyond int32 would be lost. */
  lemma PongRoundTrip(from: Word32, seqno: Word16, bytes: Word16, rtt: Word32, ttl: Byte)
    ensures var line := LineText(PongData(from, seqno, bytes, rtt, ttl));
            && IsPong(line)
            && PongOf(line) == PingReply(true, Dotted(from), seqno, bytes, if rtt <= INT_MAX then rtt else 0, ttl)
  {
    PongTokens(from, seqno, bytes, rtt, ttl);
    TryParseDec(seqno);
    TryParseDec(bytes);
    TryParseDec(rtt);
    TryParseDec(ttl);
  }

  // ---------------------------------------------------------------------------------------------
  // What is displayed is what is acted on

  /** The command the panel sends for the delete button of a socket. */
  function CloseCommand(idx: int, nth: int): string { "SOCK CLOSE " + (SignedDec(idx) + " " + SignedDec(nth)) }

  lemma DigitsThen(n: nat, rest: string)
    requires rest == "" || !IsDigit(rest[0])
    ensures ScanInt(Dec(n) + rest) == Got(n as int, rest)
  {
    DecRoundTrip(n);
    var s := Dec(n) + rest;
    assert s[0] == Dec(n)[0] && IsDigit(s[0]);
    DigitsPrefix(Dec(n), rest);
    assert s[..|Dec(n)|] == Dec(n) && s[|Dec(n)|..] == rest;
  }

  lemma {:induction false} DigitsPrefix(d: string, rest: string)
    requires AllDigits(d) && (rest == "" || !IsDigit(rest[0]))
    ensures DigitsLength(d + rest) == |d|
  {
    if d == "" {
      assert d + rest == rest;
    } else {
      assert (d + rest)[1..] == d[1..] + rest;
      DigitsPrefix(d[1..], rest);
    }
  }

  lemma SpaceIsSkipped(s: string)
    ensures ScanInt(" " + s) == ScanInt(s)
  {
    assert (" " + s)[1..] == s;
    assert SkipSpace(" " + s) == SkipSpace(s);
  }

  /** sscanf reads back the two numbers the panel printed. */
  lemma CloseArguments(idx: nat, nth: nat)
    ensures ScanTwoInts(Dec(idx) + " " + Dec(nth)) == Got((idx as int, nth as int), "")
  {
    assert Dec(idx) + " " + Dec(nth) == Dec(idx) + (" " + Dec(nth));
    DigitsThen(idx, " " + Dec(nth));
    SpaceIsSkipped(Dec(nth));
    DigitsThen(nth, "");
    assert Dec(nth) + "" == Dec(nth);
  }

  lemma CloseDispatches(b: Board, idx: nat, nth: nat, env: Env)
    ensures Dispatch(b, CloseCommand(idx, nth), env) == Done(b, "SOCKCLOSE", SockClose(idx, nth))
  {
    var args := Dec(idx) + " " + Dec(nth);
    var line := CloseCommand(idx, nth);
    assert line[11..] == args;
    assert line[0] == 'S' && line[5] == 'C' && "SOCK OPEN "[5] == 'O';
    CloseArguments(idx, nth);
  }

  /** Pressing delete on a displayed socket closes the slot bound to the displayed port; a fresh
      listing has the same ports minus that one, and no other interface's ports change. */
  lemma DisplayedIsActedOn(b: Board, info: NetifInfo, k: nat, j: nat, env: Env, m: NetifPtr)
    requires Inv(b) && k < |b.netifs| && info == Displayed(b, |b.netifs|)[k] && j < |info.sockets|
    ensures var n := b.netifs[k].ptr;
            var r := Dispatch(b, CloseCommand(info.index, info.sockets[j].nth), env);
            && r.1 == Frame("SOCKCLOSE", "OK", [])
            && (exists i :: 0 <= i < MAX_LISTENERS && Owns(b.es, n, i) && b.es[i].pcb.Some?
                            && b.es[i].pcb.value.port == info.sockets[j].port && r.0 == b.(es := Close(b.es, i)))
            && j < |PortsOf(b.es, n)|
            && PortsOf(r.0.es, n) == PortsOf(b.es, n)[..j] + PortsOf(b.es, n)[j + 1..]
            && (m != n ==> PortsOf(r.0.es, m) == PortsOf(b.es, m))
  {
    DisplayedSocket(b, k, j);
    CloseCommandCloses(b, k, j, env);
    CloseListedSocket(b.es, b.netifs[k].ptr, j, m);
  }

  lemma DisplayedSocket(b: Board, k: nat, j: nat)
    requires k < |b.netifs| && j < |Displayed(b, |b.netifs|)[k].sockets|
    ensures var n := b.netifs[k].ptr;
            && j < |Sockets(b.es, n)| && j < |PortsOf(b.es, n)|
            && Displayed(b, |b.netifs|)[k].index == k + 1
            && Displayed(b, |b.netifs|)[k].sockets[j] == SocketInfo(j + 1, PortsOf(b.es, n)[j])
  {
    DisplayedAt(b, |b.netifs|, k);
  }

  lemma CloseListedExec(b: Board, k: nat, j: nat)
    requires Inv(b) && k < |b.netifs| && j < |Sockets(b.es, b.netifs[k].ptr)|
    ensures var i := Sockets(b.es, b.netifs[k].ptr)[j];
            i < MAX_LISTENERS && Exec(b, SockClose(k + 1, j + 1)) == (b.(es := Close(b.es, i)), "OK")
  {
    ListedIsNotNull(b, k + 1);
    CloseDeletesOne(b.es, b.netifs[k].ptr, j, NULL);
  }

  lemma ListedPort(b: Board, n: NetifPtr, j: nat)
    requires Inv(b) && j < |Sockets(b.es, n)|
    ensures var i := Sockets(b.es, n)[j];
            && i < MAX_LISTENERS && Owns(b.es, n, i)
            && b.es[i].pcb.Some? && b.es[i].pcb.value.port == PortsOf(b.es, n)[j]
  {
    SocketsAround(b.es, n, j);
  }

  lemma CloseCommandCloses(b: Board, k: nat, j: nat, env: Env)
    requires Inv(b) && k < |b.netifs| && j < |Sockets(b.es, b.netifs[k].ptr)|
    ensures var i := Sockets(b.es, b.netifs[k].ptr)[j];
            && i < MAX_LISTENERS && Owns(b.es, b.netifs[k].ptr, i)
            && b.es[i].pcb.Some? && b.es[i].pcb.value.port == PortsOf(b.es, b.netifs[k].ptr)[j]
            && Dispatch(b, CloseCommand(k + 1, j + 1), env) == (b.(es := Close(b.es, i)), Frame("SOCKCLOSE", "OK", []))
  {
    ListedPort(b, b.netifs[k].ptr, j);
    CloseListedExec(b, k, j);
    CloseDispatches(b, k + 1, j + 1, env);
  }

  lemma CloseListedSocket(es: Entries, n: NetifPtr, j: nat, m: NetifPtr)
    requires j < |Sockets(es, n)|
    ensures var i := Sockets(es, n)[j];
            && i < MAX_LISTENERS && Owns(es, n, i)
            && CloseId(es, MakeId(es, i)) == Close(es, i)
            && PortsOf(Close(es, i), n) == PortsOf(es, n)[..j] + PortsOf(es, n)[j + 1..]
            && (m != n ==> PortsOf(Close(es, i), m) == PortsOf(es, m))
  {
    CloseDeletesOne(es, n, j, m);
    SocketsAround(es, n, j);
    var i := Sockets(es, n)[j];
    PortsAfterClose(es, i, n);
    PortsAfterClose(es, i, m);
    assert PortsOf(Close(es, i), n) == PortsOf(es, n)[..j] + PortsOf(es, n)[j + 1..];
  }

  /** Closing a slot leaves the ports of all other slots. */
  lemma PortsAfterClose(es: Entries, i: nat, m: NetifPtr)
    requires i < MAX_LISTENERS
    ensures var es' := Close(es, i);
            && |PortsOf(es', m)| == |Sockets(es', m)|
            && forall l :: 0 <= l < |Sockets(es', m)| ==>
                 0 <= Sockets(es', m)[l] < MAX_LISTENERS && PortsOf(es', m)[l] == PortAt(es, Sockets(es', m)[l])
  {
    var es' := Close(es, i);
    SocketsAreOwnedInOrder(es', m, 0, |es'|);
    forall l | 0 <= l < |Sockets(es', m)|
      ensures PortsOf(es', m)[l] == PortAt(es, Sockets(es', m)[l])
    {
      assert Owns(es', m, Sockets(es', m)[l]);
      assert !Owns(es', m, i);
    }
  }
}
