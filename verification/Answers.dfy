/**
 What each command is answered, by its cause: from the text of the line to the status and the data the
 panel reads.
 */
module Answers {
  import opened Words
  import opened Text
  import opened Registry
  import opened NetManager
  import opened Protocol
  import opened Listing
  import opened CommandChannel
  import opened EndToEnd
  import opened PanelActions

  predicate Listed(b: Board, idx: int) { 1 <= idx <= |b.netifs| }

  ghost predicate IsFrame(r: (Board, Output), b: Board, name: string) { r.0 == b && r.1.Frame? && r.1.name == name }

  // ---------------------------------------------------------------------------------------------
  // PING

  /** What the panel should get to read when the ping was sent. */
  ghost predicate Reads(reply: PingReply, p: PingOutcome)
    requires !p.SendFailed?
  {
    if p.Replied? then
      && reply.success && AddressOf(reply.from) == Some(p.from) && reply.seqno == p.seqno && reply.bytes == p.bytes
      && reply.ttl == p.ttl && (p.rtt <= 0x7FFF_FFFF ==> reply.rttMs == p.rtt)
    else
      !reply.success
  }

  /** The answer to PING for arguments that read as idx and ip, and for those that do not. */
  ghost predicate PingAnswered(r: (Board, Output), b: Board, read: Option<int>, p: PingOutcome)
    requires r.1.Frame?
  {
    && (r.1.status == "ERR:bad_args" <==> read.None?)
    && (r.1.status == "ERR:bad_index" <==> read.Some? && !Listed(b, read.value))
    && (r.1.status == "ERR:send_failed" <==> read.Some? && Listed(b, read.value) && p.SendFailed?)
    && (r.1.status == "OK" <==> read.Some? && Listed(b, read.value) && !p.SendFailed?)
    && (r.1.status != "OK" ==> r.1.data == [])
    && (r.1.status == "OK" ==> Reads(PingReplyOf(Texts(r.1.data)), p))
  }

  lemma OneText(d: DataLine)
    ensures Texts([d]) == [LineText(d)]
  {
    assert [d][..0] == [];
  }

  lemma PingLinesRead(p: PingOutcome)
    requires !p.SendFailed?
    ensures Reads(PingReplyOf(Texts(PingLines(p))), p)
  {
    if p.Replied? {
      var d := PongData(p.from, p.seqno, p.bytes, p.rtt, p.ttl);
      OneText(d);
      PongRoundTrip(p.from, p.seqno, p.bytes, p.rtt, p.ttl);
      DottedDenotes(p.from);
    } else {
      OneText(TimeoutData);
      TimeoutIsNoPong();
      assert [LineText(TimeoutData)][1..] == [];
    }
  }

  lemma TimeoutIsNoPong()
    ensures !IsPong(LineText(TimeoutData))
  {
    assert ' ' !in "#TIMEOUT";
    TokensJoin(["#TIMEOUT"]);
  }

  /** What sscanf("%d %15s") and ipaddr_aton make of the arguments. */
  function PingRead(args: string, env: Env): Option<int> {
    match ScanInt(args)
    case Fail => None
    case Got(idx, r) =>
      match ScanWord(r, 15)
      case Fail => None
      case Got(ip, _) => if env.aton(ip).Some? then Some(idx) else None
  }

  lemma PingPrefix(b: Board, args: string, env: Env)
    ensures Dispatch(b, "PING " + args, env) == CmdPing(b, args, env)
  {
    var line := "PING " + args;
    assert line[5..] == args && line[0] == 'P';
  }

  /** PING with any arguments: the board does not change, each refusal has its cause, and otherwise the
      panel reads the answer that came, or that none came. */
  lemma PingAnswers(b: Board, args: string, env: Env)
    requires Inv(b)
    ensures var r := Dispatch(b, "PING " + args, env);
            IsFrame(r, b, "PING") && PingAnswered(r, b, PingRead(args, env), env.ping)
  {
    PingPrefix(b, args, env);
    var read := PingRead(args, env);
    if read.Some? {
      ListedIsNotNull(b, read.value);
      if !env.ping.SendFailed? { PingLinesRead(env.ping); }
    }
  }

  /** The command the panel sends. */
  function PingText(idx: int, ip: string): string { "PING " + (SignedDec(idx) + (" " + ip)) }

  /** The panel's own PING is read as it was meant. */
  lemma PanelPingAnswers(b: Board, idx: nat, ip: string, env: Env)
    requires Inv(b) && IsArgument(ip, 15)
    ensures var r := Dispatch(b, PingText(idx, ip), env);
            IsFrame(r, b, "PING") && PingAnswered(r, b, if env.aton(ip).Some? then Some(idx) else None, env.ping)
  {
    PingAnswers(b, Dec(idx) + (" " + ip), env);
    DigitsThen(idx, " " + ip);
    assert ip + "" == ip;
    WordThen(ip, "", 15);
  }

  /** The answer when the interface is listed and the address is one. */
  lemma PanelPingLines(b: Board, idx: nat, ip: string, env: Env)
    requires Inv(b) && Listed(b, idx) && IsArgument(ip, 15) && env.aton(ip).Some?
    ensures Dispatch(b, PingText(idx, ip), env)
            == (b, Frame("PING", if env.ping.SendFailed? then "ERR:send_failed" else "OK", PingLines(env.ping)))
  {
    PingPrefix(b, Dec(idx) + (" " + ip), env);
    DigitsThen(idx, " " + ip);
    assert ip + "" == ip;
    WordThen(ip, "", 15);
    ListedIsNotNull(b, idx);
  }

  // ---------------------------------------------------------------------------------------------
  // UDP SEND

  datatype SendArgs = SendArgs(idx: int, nth: int, port: int, data: string)

  /** What sscanf("%d %d %15s %d %n"), ipaddr_aton and the port check make of the arguments. */
  function SendRead(args: string, env: Env): Option<SendArgs> {
    match ScanTwoInts(args)
    case Fail => None
    case Got((idx, nth), r) =>
      match ScanWord(r, 15)
      case Fail => None
      case Got(ip, r') =>
        match ScanInt(r')
        case Fail => None
        case Got(port, r'') =>
          if env.aton(ip).Some? && 1 <= port <= 65535 then Some(SendArgs(idx, nth, port, SkipSpace(r''))) else None
  }

  ghost predicate SendAnswered(r: (Board, Output), b: Board, read: Option<SendArgs>, sendOk: bool)
    requires r.1.Frame?
  {
    var good := read.Some? && read.value.data != "";
    var listed := good && Listed(b, read.value.idx);
    var open := listed && 1 <= read.value.nth <= |Sockets(b.es, b.netifs[read.value.idx - 1].ptr)|;
    && (r.1.status == "ERR:bad_args" <==> read.None?)
    && (r.1.status == "ERR:no_data" <==> read.Some? && read.value.data == "")
    && (r.1.status == "ERR:bad_index" <==> good && !listed)
    && (r.1.status == "ERR:bad_socket" <==> listed && !open)
    && (r.1.status == "ERR:send_failed" <==> open && !sendOk)
    && (r.1.status == "OK" <==> open && sendOk)
    && r.1.data == []
  }

  lemma SendPrefix(b: Board, args: string, env: Env)
    ensures Dispatch(b, "UDP SEND " + args, env) == CmdUdpSend(b, args, env)
  {
    var line := "UDP SEND " + args;
    assert line[9..] == args && line[0] == 'U';
  }

  /** UDP SEND with any arguments: OK exactly when everything is right, and each refusal has its cause. */
  lemma SendAnswers(b: Board, args: string, env: Env)
    requires Inv(b)
    ensures var r := Dispatch(b, "UDP SEND " + args, env);
            IsFrame(r, b, "UDPSEND") && SendAnswered(r, b, SendRead(args, env), env.sendOk)
  {
    SendPrefix(b, args, env);
    var read := SendRead(args, env);
    if read.Some? { ListedIsNotNull(b, read.value.idx); }
  }

  /** The command the panel sends. */
  function SendText(idx: int, nth: int, ip: string, port: int, data: string): string {
    "UDP SEND " + SendArguments(idx, nth, ip, port, data)
  }

  function SendArguments(idx: int, nth: int, ip: string, port: int, data: string): string {
    SignedDec(idx) + (" " + (SignedDec(nth) + (" " + (ip + (" " + (SignedDec(port) + (" " + data)))))))
  }

  lemma TwoIntsThen(a: nat, c: nat, rest: string)
    requires rest == "" || !IsDigit(rest[0])
    ensures ScanTwoInts(Dec(a) + (" " + (Dec(c) + rest))) == Got((a as int, c as int), rest)
  {
    DigitsThen(a, " " + (Dec(c) + rest));
    SpaceIsSkipped(Dec(c) + rest);
    DigitsThen(c, rest);
  }

  lemma PortThen(port: nat, data: string)
    requires data != "" ==> !IsSpace(data[0])
    ensures ScanInt(" " + (Dec(port) + (" " + data))) == Got(port as int, " " + data)
    ensures SkipSpace(" " + data) == data
  {
    SpaceIsSkipped(Dec(port) + (" " + data));
    DigitsThen(port, " " + data);
    assert (" " + data)[1..] == data;
  }

  lemma SendIsRead(idx: nat, nth: nat, ip: string, port: nat, data: string, env: Env)
    requires IsArgument(ip, 15) && (data != "" ==> !IsSpace(data[0])) && env.aton(ip).Some? && 1 <= port <= 65535
    ensures SendRead(SendArguments(idx, nth, ip, port, data), env) == Some(SendArgs(idx, nth, port, data))
  {
    var tail := " " + (Dec(port) + (" " + data));
    TwoIntsThen(idx, nth, " " + (ip + tail));
    WordThen(ip, tail, 15);
    PortThen(port, data);
  }

  /** The panel's own UDP SEND is read as it was meant. */
  lemma PanelSendAnswers(b: Board, idx: nat, nth: nat, ip: string, port: nat, data: string, env: Env)
    requires Inv(b) && IsArgument(ip, 15) && (data != "" ==> !IsSpace(data[0]))
    requires env.aton(ip).Some? && 1 <= port <= 65535
    ensures var r := Dispatch(b, SendText(idx, nth, ip, port, data), env);
            IsFrame(r, b, "UDPSEND") && SendAnswered(r, b, Some(SendArgs(idx, nth, port, data)), env.sendOk)
  {
    SendAnswers(b, SendArguments(idx, nth, ip, port, data), env);
    SendIsRead(idx, nth, ip, port, data, env);
  }

  // ---------------------------------------------------------------------------------------------
  // SCAN, ARPRESET, and lines that are no command

  lemma ScanPrefix(b: Board, args: string, env: Env)
    ensures Dispatch(b, "SCAN " + args, env) == CmdScan(b, args, env)
  {
    var line := "SCAN " + args;
    assert line[5..] == args && line[0] == 'S' && line[1] == 'C';
  }

  lemma AtoiOfDec(n: nat)
    ensures Atoi(Dec(n)) == n
  {
    assert Dec(n) + "" == Dec(n);
    DigitsThen(n, "");
  }

  /** SCAN prints one line per host found, for a listed interface and no other. */
  lemma ScanAnswers(b: Board, idx: nat, env: Env)
    requires Inv(b)
    ensures Dispatch(b, "SCAN " + Dec(idx), env)
            == (b, if Listed(b, idx) then Frame("SCAN", "OK", HostLines(env.hosts)) else Frame("SCAN", "ERR:bad_index", []))
    ensures |HostLines(env.hosts)| == |env.hosts|
    ensures forall k :: 0 <= k < |env.hosts| ==> HostLines(env.hosts)[k] == HostData(env.hosts[k].0, env.hosts[k].1)
  {
    ScanPrefix(b, Dec(idx), env);
    AtoiOfDec(idx);
    ListedIsNotNull(b, idx);
  }

  lemma ArpResetAnswers(b: Board, env: Env)
    ensures Dispatch(b, "ARPRESET", env) == (b, Frame("ARPRESET", "OK", []))
  {
    var line := "ARPRESET";
    assert line[0] == 'A';
  }

  /** The commands, by the words they begin with. */
  predicate IsCommandLine(line: string) {
    || line == "NETIF LIST" || line == "ARPRESET"
    || "NETIF ADD " <= line || "NETIF DEL " <= line || "NETIF SET " <= line
    || "SOCK OPEN " <= line || "SOCK CLOSE " <= line
    || "PING " <= line || "SCAN " <= line || "UDP SEND " <= line
  }

  /** A line that is no command changes nothing and is answered so; every other one gets a block. */
  lemma UnknownIff(b: Board, line: string, env: Env)
    ensures Dispatch(b, line, env).1.NoSuchCommand? <==> !IsCommandLine(line)
    ensures !IsCommandLine(line) ==> Dispatch(b, line, env).0 == b
  {
  }

  // ---------------------------------------------------------------------------------------------
  // Arguments that do not read

  /** SOCK OPEN refuses arguments that are not two numbers or have no port in 1..65535, and otherwise does
      what it was told. */
  lemma OpenArguments(b: Board, args: string, env: Env)
    ensures var two, r := ScanTwoInts(args), Dispatch(b, "SOCK OPEN " + args, env);
            r == if two.Got? && 1 <= two.value.1 <= 65535 then Done(b, "SOCKOPEN", SockOpen(two.value.0, two.value.1, env.open))
                 else (b, Frame("SOCKOPEN", "ERR:bad_args", []))
  {
    PrefixPicksHandler(b, args, env);
  }

  lemma NegativeIsRead(n: nat)
    ensures Atoi("-" + Dec(n)) == 0 - n
  {
    var s := "-" + Dec(n);
    assert s[0] == '-' && s[1..] == Dec(n);
    assert Dec(n) + "" == Dec(n);
    DecRoundTrip(n);
    DigitsPrefix(Dec(n), "");
  }

  lemma BadIndex(b: Board, args: string, env: Env)
    requires Inv(b) && !Listed(b, Atoi(args))
    ensures Dispatch(b, "NETIF DEL " + args, env) == (b, Frame("NETIFDEL", "ERR:bad_index", []))
  {
    PrefixPicksHandler(b, args, env);
    DeleteStatusIff(b, Atoi(args));
  }

  /** A negative index, or none at all, is a bad index. */
  lemma NoSuchIndex(b: Board, n: nat, args: string, env: Env)
    requires Inv(b)
    requires SkipSpace(args) == "" || (!IsDigit(SkipSpace(args)[0]) && SkipSpace(args)[0] !in "+-")
    ensures Dispatch(b, "NETIF DEL " + ("-" + Dec(n)), env) == (b, Frame("NETIFDEL", "ERR:bad_index", []))
    ensures Dispatch(b, "NETIF DEL " + args, env) == (b, Frame("NETIFDEL", "ERR:bad_index", []))
  {
    NegativeIsRead(n);
    BadIndex(b, "-" + Dec(n), env);
    BadIndex(b, args, env);
  }

  /** The panel never sends a port outside the range, but the board would refuse it. */
  lemma PortOutOfRange(b: Board, idx: nat, port: nat, env: Env)
    requires port == 0 || port > 65535
    ensures Dispatch(b, OpenCommand(idx, port), env) == (b, Frame("SOCKOPEN", "ERR:bad_args", []))
  {
    OpenArguments(b, Dec(idx) + " " + Dec(port), env);
    CloseArguments(idx, port);
  }

  /** An address the board cannot read changes nothing. */
  lemma UnreadableAddress(b: Board, idx: nat, field: string, ip: string, mask: string, gw: string, env: Env)
    requires IsArgument(ip, 15) && IsArgument(mask, 15) && IsArgument(gw, 15) && IsArgument(field, 7)
    ensures env.aton(ip).None? || env.aton(mask).None? || env.aton(gw).None? ==>
              Dispatch(b, AddCommand(ip, mask, gw), env) == (b, Frame("NETIFADD", "ERR:bad_args", []))
    ensures env.aton(ip).None? ==>
              Dispatch(b, SetCommand(idx, field, ip), env) == (b, Frame("NETIFSET", "ERR:bad_args", []))
  {
    AddIsRead(b, ip, mask, gw, env);
    SetIsRead(b, idx, field, ip, env);
  }

  lemma AddIsRead(b: Board, ip: string, mask: string, gw: string, env: Env)
    requires IsArgument(ip, 15) && IsArgument(mask, 15) && IsArgument(gw, 15)
    ensures env.aton(ip).None? || env.aton(mask).None? || env.aton(gw).None? ==>
              Dispatch(b, AddCommand(ip, mask, gw), env) == (b, Frame("NETIFADD", "ERR:bad_args", []))
  {
    NetifPrefixPicksHandler(b, ip + (" " + (mask + (" " + gw))), env);
    WordThen(ip, " " + (mask + (" " + gw)), 15);
    WordThen(mask, " " + gw, 15);
    assert gw + "" == gw;
    WordThen(gw, "", 15);
  }

  lemma SetIsRead(b: Board, idx: nat, field: string, value: string, env: Env)
    requires IsArgument(field, 7) && IsArgument(value, 15)
    ensures env.aton(value).None? ==>
              Dispatch(b, SetCommand(idx, field, value), env) == (b, Frame("NETIFSET", "ERR:bad_args", []))
  {
    NetifPrefixPicksHandler(b, Dec(idx) + (" " + (field + (" " + value))), env);
    DigitsThen(idx, " " + (field + (" " + value)));
    WordThen(field, " " + value, 7);
    assert value + "" == value;
    WordThen(value, "", 15);
  }
}
