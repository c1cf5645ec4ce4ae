/**
 The structured command channel of the board: bytes are gathered into lines, a line is dispatched to a
 handler, and every handler answers with one framed block.
 */
module CommandChannel {
  import opened Words
  import opened Text
  import opened Registry
  import opened NetManager
  import opened Listing
  import opened SerialManager

  const CMD_LINE_MAX: nat := 128

  // ---------------------------------------------------------------------------------------------
  // Lines out of bytes

  predicate IsTerminator(c: char) { c == '\r' || c == '\n' }

  /** The line buffer keeps the first 127 bytes. */
  function Cut(s: string): string { if |s| > CMD_LINE_MAX - 1 then s[..CMD_LINE_MAX - 1] else s }

  /** The C string in a buffer ends at its first NUL. */
  function CString(s: string): string { s[..IndexOf(s, '\0')] }

  /** cmd_channel_feed on the pending line: the new pending line and the line to dispatch, if any. */
  function FeedByte(pending: string, c: char): (string, Option<string>) {
    if IsTerminator(c) then ("", if pending == "" then None else Some(CString(pending)))
    else if |pending| < CMD_LINE_MAX - 1 then (pending + [c], None)
    else (pending, None)
  }

  function FeedBytes(pending: string, s: string): (string, seq<string>)
    decreases |s|
  {
    if s == "" then (pending, [])
    else
      var (next, line) := FeedByte(pending, s[0]);
      var (last, lines) := FeedBytes(next, s[1..]);
      (last, (if line.Some? then [line.value] else []) + lines)
  }

  function TerminatorIndex(s: string): (k: nat)
    ensures k <= |s| && (k < |s| ==> IsTerminator(s[k]))
    ensures forall j :: 0 <= j < k ==> !IsTerminator(s[j])
  {
    if s == "" || IsTerminator(s[0]) then 0 else 1 + TerminatorIndex(s[1..])
  }

  /** The stream split at every CR or LF; the last piece is the unfinished one. */
  function Pieces(s: string): (p: seq<string>)
    ensures |p| >= 1
  {
    var k := TerminatorIndex(s);
    if k == |s| then [s] else [s[..k]] + Pieces(s[k + 1..])
  }

  /** The lines to dispatch: the finished pieces that are not empty, cut to the buffer. */
  function LinesOf(pieces: seq<string>): seq<string> {
    if pieces == [] then []
    else (if pieces[0] == "" then [] else [CString(Cut(pieces[0]))]) + LinesOf(pieces[1..])
  }

  lemma PiecesOfLine(u: string, t: char, rest: string)
    requires forall j :: 0 <= j < |u| ==> !IsTerminator(u[j])
    requires IsTerminator(t)
    ensures Pieces(u + [t] + rest) == [u] + Pieces(rest)
    ensures Pieces(u) == [u]
  {
    var s := u + [t] + rest;
    assert s[|u|] == t;
    assert forall j :: 0 <= j < |u| ==> s[j] == u[j];
    assert TerminatorIndex(s) == |u|;
    assert s[..|u|] == u && s[|u| + 1..] == rest;
  }

  /** The dispatched lines and the pending buffer that the batch view predicts. */
  function Batch(s: string): (string, seq<string>) {
    var p := Pieces(s);
    (Cut(p[|p| - 1]), LinesOf(p[..|p| - 1]))
  }

  lemma BatchOfLine(u: string, t: char, rest: string)
    requires forall j :: 0 <= j < |u| ==> !IsTerminator(u[j])
    requires IsTerminator(t)
    ensures Batch(u + [t] + rest) ==
            (Batch(rest).0, (if u == "" then [] else [CString(Cut(u))]) + Batch(rest).1)
  {
    PiecesOfLine(u, t, rest);
    var p, q := Pieces(u + [t] + rest), Pieces(rest);
    assert p[..|p| - 1] == [u] + q[..|q| - 1];
    assert ([u] + q[..|q| - 1])[1..] == q[..|q| - 1];
  }

  lemma CutSnoc(u: string, c: char)
    ensures Cut(u + [c]) == if |Cut(u)| < CMD_LINE_MAX - 1 then Cut(u) + [c] else Cut(u)
  {
    if |u| >= CMD_LINE_MAX - 1 {
      assert (u + [c])[..CMD_LINE_MAX - 1] == u[..CMD_LINE_MAX - 1];
    }
  }

  lemma {:induction false} FeedContinues(u: string, s: string)
    requires forall j :: 0 <= j < |u| ==> !IsTerminator(u[j])
    ensures FeedBytes(Cut(u), s) == Batch(u + s)
    decreases |s|
  {
    if s == "" {
      assert u + s == u;
      PiecesOfLine(u, '\r', "");
      assert [u][..0] == [];
    } else {
      var c, rest := s[0], s[1..];
      assert u + s == u + [c] + rest;
      if IsTerminator(c) {
        FeedContinues("", rest);
        assert "" + rest == rest;
        BatchOfLine(u, c, rest);
      } else {
        FeedContinues(u + [c], rest);
        CutSnoc(u, c);
        var (last, lines) := FeedBytes(Cut(u + [c]), rest);
        assert [] + lines == lines;
      }
    }
  }

  /** Feeding byte by byte dispatches exactly the lines of the split stream, and leaves the cut of the
      unfinished piece. */
  lemma SplitterEqualsBatch(s: string)
    ensures FeedBytes("", s) == Batch(s)
  {
    FeedContinues("", s);
    assert "" + s == s;
  }

  /** A line feed, a carriage return, or both end a line; of its text the first 127 bytes count, up to a
      NUL; an empty line is none. */
  lemma LineEnds(u: string, end: string)
    requires end == "\r" || end == "\n" || end == "\r\n"
    requires forall k :: 0 <= k < |u| ==> u[k] != '\r' && u[k] != '\n'
    ensures var kept := if |u| > 127 then u[..127] else u;
            FeedBytes("", u + end) == ("", if u == "" then [] else [CString(kept)])
    ensures '\0' !in u ==> CString(Cut(u)) == if |u| > 127 then u[..127] else u
  {
    SplitterEqualsBatch(u + end);
    PiecesOfLine("", '\r', "");
    assert Batch("") == ("", []) by {
      assert Pieces("") == [""] && [""][..0] == [];
    }
    if |end| == 1 {
      assert u + end == u + [end[0]] + "";
      BatchOfLine(u, end[0], "");
    } else {
      assert u + end == u + ['\r'] + ("" + ['\n'] + "");
      BatchOfLine("", '\n', "");
      BatchOfLine(u, '\r', "" + ['\n'] + "");
    }
    assert [CString(Cut(u))] + [] == [CString(Cut(u))];
    if '\0' !in u { NoNul(Cut(u)); }
  }

  lemma NoNul(s: string)
    requires '\0' !in s
    ensures CString(s) == s
  {
    IndexOfFirst(s, '\0', "");
  }

  // ---------------------------------------------------------------------------------------------
  // sscanf and atoi

  datatype Scan<+T> = Fail | Got(value: T, rest: string)

  predicate IsSpace(c: char) { '\t' <= c <= '\r' || c == ' ' }

  function SkipSpace(s: string): string { if s != "" && IsSpace(s[0]) then SkipSpace(s[1..]) else s }

  function DigitsLength(s: string): (k: nat)
    ensures k <= |s| && AllDigits(s[..k])
    ensures k < |s| ==> !IsDigit(s[k])
  {
    if s == "" || !IsDigit(s[0]) then 0
    else
      var k := 1 + DigitsLength(s[1..]);
      assert s[..k] == [s[0]] + s[1..][..k - 1];
      k
  }

  /** %d */
  function ScanInt(s: string): Scan<int> {
    var t := SkipSpace(s);
    var signed := t != "" && (t[0] == '-' || t[0] == '+');
    var u := if signed then t[1..] else t;
    var k := DigitsLength(u);
    if k == 0 then Fail else Got(if signed && t[0] == '-' then -(Value(u[..k]) as int) else Value(u[..k]), u[k..])
  }

  /** atoi */
  function Atoi(s: string): int {
    match ScanInt(s)
    case Fail => 0
    case Got(v, _) => v
  }

  function WordLength(s: string, width: nat): (k: nat)
    ensures k <= |s| && k <= width
  {
    if s == "" || width == 0 || IsSpace(s[0]) then 0 else 1 + WordLength(s[1..], width - 1)
  }

  /** %<width>s */
  function ScanWord(s: string, width: nat): Scan<string> {
    var t := SkipSpace(s);
    var k := WordLength(t, width);
    if k == 0 then Fail else Got(t[..k], t[k..])
  }

  /** "%d %d" */
  function ScanTwoInts(s: string): Scan<(int, int)> {
    match ScanInt(s)
    case Fail => Fail
    case Got(a, r) =>
      match ScanInt(r)
      case Fail => Fail
      case Got(c, r') => Got((a, c), r')
  }

  // ---------------------------------------------------------------------------------------------
  // What the handlers ask of the rest of the system

  datatype PingOutcome =
    | SendFailed
    | TimedOut
    | Replied(from: Word32, seqno: Word16, bytes: Word16, rtt: Word32, ttl: Byte)

  // aton: ipaddr_aton; open: what the stack decides during an open; hosts: address and MAC of each
  // host a scan finds; sendOk: udp_source_data_send succeeds.
  datatype Env = Env(aton: string -> Option<Word32>, open: OpenEnv, ping: PingOutcome,
                     hosts: seq<(Word32, seq<Byte>)>, sendOk: bool)

  // ---------------------------------------------------------------------------------------------
  // What a handler prints

  datatype Output =
    | Frame(name: string, status: string, data: seq<DataLine>)
    | NoSuchCommand

  datatype Printed = Head(name: string) | Body(d: DataLine) | Tail(name: string, status: string) | Error

  function PrintedText(p: Printed): string {
    match p
    case Head(name) => "#BEGIN " + name
    case Body(d) => LineText(d)
    case Tail(name, status) => "#END " + name + " " + status
    case Error => "#ERR unknown_command"
  }

  function Bodies(ds: seq<DataLine>): seq<Printed> { seq(|ds|, k requires 0 <= k < |ds| => Body(ds[k])) }

  function PrintedLines(o: Output): seq<Printed> {
    match o
    case Frame(name, status, data) => [Head(name)] + Bodies(data) + [Tail(name, status)]
    case NoSuchCommand => [Error]
  }

  function PrintedTexts(ps: seq<Printed>): seq<string> {
    seq(|ps|, k requires 0 <= k < |ps| => PrintedText(ps[k]))
  }

  function ReplyOf(o: Output): Reply {
    match o
    case Frame(name, status, data) => Block(name, status, Texts(data))
    case NoSuchCommand => Unknown
  }

  /** The text of what the handlers print is what the host calls a reply. */
  lemma OutputIsReply(o: Output)
    ensures PrintedTexts(PrintedLines(o)) == ReplyLines(ReplyOf(o))
  {
    match o
    case Frame(name, status, data) =>
      var ps, lines := PrintedLines(o), ReplyLines(ReplyOf(o));
      forall k | 0 <= k < |ps|
        ensures PrintedTexts(ps)[k] == lines[k]
      {
        if 1 <= k <= |data| {
          assert ps[k] == Body(data[k - 1]) && lines[k] == Texts(data)[k - 1];
          TextsAt(data, k - 1);
        }
      }
      assert |PrintedTexts(ps)| == |lines|;
    case NoSuchCommand =>
      assert PrintedTexts([Error]) == [PrintedText(Error)];
  }

  function PingLines(p: PingOutcome): seq<DataLine> {
    match p
    case SendFailed => []
    case TimedOut => [TimeoutData]
    case Replied(from, seqno, bytes, rtt, ttl) => [PongData(from, seqno, bytes, rtt, ttl)]
  }

  function HostLines(hosts: seq<(Word32, seq<Byte>)>): seq<DataLine> {
    seq(|hosts|, k requires 0 <= k < |hosts| => HostData(hosts[k].0, hosts[k].1))
  }

  // ---------------------------------------------------------------------------------------------
  // Handlers: the board afterwards and the output

  function Plain(b: Board, name: string, status: string): (Board, Output) { (b, Frame(name, status, [])) }

  function Done(b: Board, name: string, c: Command): (Board, Output) {
    Plain(Exec(b, c).0, name, Exec(b, c).1)
  }

  function CmdNetifAdd(b: Board, args: string, env: Env): (Board, Output) {
    var bad := Plain(b, "NETIFADD", "ERR:bad_args");
    match ScanWord(args, 15)
    case Fail => bad
    case Got(ip, r) =>
      match ScanWord(r, 15)
      case Fail => bad
      case Got(mask, r') =>
        match ScanWord(r', 15)
        case Fail => bad
        case Got(gw, _) =>
          if env.aton(ip).None? || env.aton(mask).None? || env.aton(gw).None? then bad
          else Done(b, "NETIFADD", NetifAdd(env.aton(ip).value, env.aton(mask).value, env.aton(gw).value))
  }

  function CmdNetifDel(b: Board, args: string): (Board, Output) { Done(b, "NETIFDEL", NetifDel(Atoi(args))) }

  function CmdNetifSet(b: Board, args: string, env: Env): (Board, Output) {
    var bad := Plain(b, "NETIFSET", "ERR:bad_args");
    match ScanInt(args)
    case Fail => bad
    case Got(idx, r) =>
      match ScanWord(r, 7)
      case Fail => bad
      case Got(field, r') =>
        match ScanWord(r', 15)
        case Fail => bad
        case Got(v, _) =>
          if env.aton(v).None? then bad else Done(b, "NETIFSET", NetifSet(idx, field, env.aton(v).value))
  }

  function CmdSockOpen(b: Board, args: string, env: Env): (Board, Output) {
    match ScanTwoInts(args)
    case Fail => Plain(b, "SOCKOPEN", "ERR:bad_args")
    case Got((idx, port), _) =>
      if !(1 <= port <= 65535) then Plain(b, "SOCKOPEN", "ERR:bad_args")
      else Done(b, "SOCKOPEN", SockOpen(idx, port, env.open))
  }

  function CmdSockClose(b: Board, args: string): (Board, Output) {
    match ScanTwoInts(args)
    case Fail => Plain(b, "SOCKCLOSE", "ERR:bad_args")
    case Got((idx, nth), _) => Done(b, "SOCKCLOSE", SockClose(idx, nth))
  }

  function CmdPing(b: Board, args: string, env: Env): (Board, Output) {
    var bad := Plain(b, "PING", "ERR:bad_args");
    match ScanInt(args)
    case Fail => bad
    case Got(idx, r) =>
      match ScanWord(r, 15)
      case Fail => bad
      case Got(ip, _) =>
        if env.aton(ip).None? then bad
        else if NetifByIndex(b.netifs, idx) == NULL then Plain(b, "PING", "ERR:bad_index")
        else if env.ping.SendFailed? then Plain(b, "PING", "ERR:send_failed")
        else (b, Frame("PING", "OK", PingLines(env.ping)))
  }

  function CmdScan(b: Board, args: string, env: Env): (Board, Output) {
    if NetifByIndex(b.netifs, Atoi(args)) == NULL then Plain(b, "SCAN", "ERR:bad_index")
    else (b, Frame("SCAN", "OK", HostLines(env.hosts)))
  }

  function CmdUdpSend(b: Board, args: string, env: Env): (Board, Output) {
    var bad := Plain(b, "UDPSEND", "ERR:bad_args");
    match ScanTwoInts(args)
    case Fail => bad
    case Got((idx, nth), r) =>
      match ScanWord(r, 15)
      case Fail => bad
      case Got(ip, r') =>
        match ScanInt(r')
        case Fail => bad
        case Got(port, r'') =>
          var n := NetifByIndex(b.netifs, idx);
          if env.aton(ip).None? || !(1 <= port <= 65535) then bad
          else if SkipSpace(r'') == "" then Plain(b, "UDPSEND", "ERR:no_data")
          else if n == NULL then Plain(b, "UDPSEND", "ERR:bad_index")
          else if !(1 <= nth <= |Sockets(b.es, n)|) then Plain(b, "UDPSEND", "ERR:bad_socket")
          else if !env.sendOk then Plain(b, "UDPSEND", "ERR:send_failed")
          else Plain(b, "UDPSEND", "OK")
  }

  function Dispatch(b: Board, line: string, env: Env): (Board, Output) {
    if line == "NETIF LIST" then (b, Frame("NETIFLIST", "OK", NetifListData(b)))
    else if "NETIF ADD " <= line then CmdNetifAdd(b, line[10..], env)
    else if "NETIF DEL " <= line then CmdNetifDel(b, line[10..])
    else if "NETIF SET " <= line then CmdNetifSet(b, line[10..], env)
    else if "SOCK OPEN " <= line then CmdSockOpen(b, line[10..], env)
    else if "SOCK CLOSE " <= line then CmdSockClose(b, line[11..])
    else if "PING " <= line then CmdPing(b, line[5..], env)
    else if "SCAN " <= line then CmdScan(b, line[5..], env)
    else if line == "ARPRESET" then Plain(b, "ARPRESET", "OK")
    else if "UDP SEND " <= line then CmdUdpSend(b, line[9..], env)
    else (b, NoSuchCommand)
  }

  /** The lines of a stream, one after the other. */
  function DispatchAll(b: Board, lines: seq<string>, env: Env): (Board, seq<Output>)
    decreases |lines|
  {
    if lines == [] then (b, [])
    else
      var (b', o) := Dispatch(b, lines[0], env);
      var (last, rest) := DispatchAll(b', lines[1..], env);
      (last, [o] + rest)
  }

  // ---------------------------------------------------------------------------------------------
  // Every reply is well framed

  predicate IsVisible(s: string) { s != "" && forall k :: 0 <= k < |s| ==> '!' <= s[k] <= '~' }

  lemma VisibleIsWord(s: string)
    requires IsVisible(s)
    ensures IsWord(s)
  {
  }

  /** No character of the line can end it, and its second character rules out the frame tags. */
  lemma CleanLineIsData(line: string)
    requires |line| >= 2 && '\n' !in line && '\r' !in line && line[1] != 'E' && line[1] != 'B'
    ensures IsData(line)
  {
    assert line[|line| - 1] in line;
    assert "#EVT "[1] == 'E' && "#BEGIN "[1] == 'B' && "#END "[1] == 'E' && "#ERR"[1] == 'E';
  }

  lemma SmallNumber(n: nat)
    requires n < 0x1_0000
    ensures |Dec(n)| <= 5 && (n < 100 ==> |Dec(n)| <= 2)
  {
    assert Pow10(1) == 10 && Pow10(2) == 100 && Pow10(3) == 1000 && Pow10(4) == 10000 && Pow10(5) == 100000;
    DecLength(n, 5);
    if n < 100 { DecLength(n, 2); }
  }

  lemma Word32Length(n: Word32)
    ensures |Dec(n)| <= 10
  {
    assert Pow10(5) == 100000 && Pow10(6) == 10 * Pow10(5) && Pow10(7) == 10 * Pow10(6) && Pow10(8) == 10 * Pow10(7)
           && Pow10(9) == 10 * Pow10(8) && Pow10(10) == 10 * Pow10(9);
    DecLength(n, 10);
  }

  predicate NoBreaks(s: string) { '\n' !in s && '\r' !in s }

  /** A line of these fields cannot end early, break the frame or overflow the line buffer. */
  lemma FieldsAreData(p: seq<string>)
    requires p != [] && |p| + TotalLength(p) + 2 <= LINE_BUF
    requires forall k :: 0 <= k < |p| ==> NoBreaks(p[k])
    requires |p[0]| >= 2 && p[0][1] in {'N', 'S', 'P', 'T'}
    ensures IsData(Join(p, ' ')) && |Join(p, ' ')| + 2 < LINE_BUF
  {
    JoinLacks(p, ' ', '\n');
    JoinLacks(p, ' ', '\r');
    JoinLength(p, ' ');
    assert Join(p, ' ')[1] == p[0][1];
    CleanLineIsData(Join(p, ' '));
  }

  lemma SixFieldsAreData(p: seq<string>)
    requires |p| == 6 && |p[0]| + |p[1]| + |p[2]| + |p[3]| + |p[4]| + |p[5]| <= 80
    requires forall k :: 0 <= k < |p| ==> NoBreaks(p[k])
    requires |p[0]| >= 2 && p[0][1] in {'N', 'S', 'P', 'T'}
    ensures IsData(Join(p, ' ')) && |Join(p, ' ')| + 2 < LINE_BUF
  {
    assert p[0..] == p && p[6..] == [];
    TotalLengthStep(p, 0);
    TotalLengthStep(p, 1);
    TotalLengthStep(p, 2);
    TotalLengthStep(p, 3);
    TotalLengthStep(p, 4);
    TotalLengthStep(p, 5);
    FieldsAreData(p);
  }

  lemma FourFieldsAreData(p: seq<string>)
    requires |p| == 4 && |p[0]| + |p[1]| + |p[2]| + |p[3]| <= 80
    requires forall k :: 0 <= k < |p| ==> NoBreaks(p[k])
    requires |p[0]| >= 2 && p[0][1] in {'N', 'S', 'P', 'T'}
    ensures IsData(Join(p, ' ')) && |Join(p, ' ')| + 2 < LINE_BUF
  {
    assert p[0..] == p && p[4..] == [];
    TotalLengthStep(p, 0);
    TotalLengthStep(p, 1);
    TotalLengthStep(p, 2);
    TotalLengthStep(p, 3);
    FieldsAreData(p);
  }

  lemma DecField(n: Word32)
    ensures |Dec(n)| <= 10 && NoBreaks(Dec(n))
  {
    Word32Length(n);
    DecRoundTrip(n);
  }

  lemma DottedField(ip: Word32)
    ensures |Dotted(ip)| <= 15 && NoBreaks(Dotted(ip))
  {
    DottedForm(ip);
  }

  lemma NetifFieldsAreData(idx: string, ip: string, mask: string, gw: string, count: string)
    requires |idx| <= 2 && |count| <= 2 && |ip| <= 15 && |mask| <= 15 && |gw| <= 15
    requires NoBreaks(idx) && NoBreaks(ip) && NoBreaks(mask) && NoBreaks(gw) && NoBreaks(count)
    ensures var text := Join(["#NETIF", idx, ip, mask, gw, "socks=" + count], ' '); IsData(text) && |text| + 2 < LINE_BUF
  {
    SixFieldsAreData(["#NETIF", idx, ip, mask, gw, "socks=" + count]);
  }

  lemma NetifIsData(idx: nat, n: Netif, count: nat)
    requires idx < 100 && count < 100
    ensures var text := LineText(NetifData(idx, n, count)); IsData(text) && |text| + 2 < LINE_BUF
  {
    DecField(idx);
    SmallNumber(idx);
    DecField(count);
    SmallNumber(count);
    DottedField(n.ip);
    DottedField(n.mask);
    DottedField(n.gw);
    NetifFieldsAreData(Dec(idx), Dotted(n.ip), Dotted(n.mask), Dotted(n.gw), Dec(count));
  }

  lemma SockIsData(owner: nat, nth: nat, port: Word16)
    requires owner < 100 && nth < 100
    ensures var text := LineText(SockData(owner, nth, port)); IsData(text) && |text| + 2 < LINE_BUF
  {
    DecField(owner);
    DecField(nth);
    DecField(port);
    FourFieldsAreData(Fields(SockData(owner, nth, port)));
  }

  lemma PongIsData(from: Word32, seqno: Word16, bytes: Word16, rtt: Word32, ttl: Byte)
    ensures var text := LineText(PongData(from, seqno, bytes, rtt, ttl)); IsData(text) && |text| + 2 < LINE_BUF
  {
    DottedField(from);
    DecField(seqno);
    DecField(bytes);
    DecField(rtt);
    DecField(ttl);
    SixFieldsAreData(Fields(PongData(from, seqno, bytes, rtt, ttl)));
  }

  lemma HostIsData(ip: Word32, mac: seq<Byte>)
    ensures IsData(LineText(HostData(ip, mac)))
  {
    var hex := seq(|mac|, k requires 0 <= k < |mac| => Hex2(mac[k]));
    var line := LineText(HostData(ip, mac));
    DottedField(ip);
    JoinLacks(hex, ':', '\n');
    JoinLacks(hex, ':', '\r');
    assert NoBreaks(line) && line[1] == 'o';
    CleanLineIsData(line);
  }

  predicate IsDataLine(d: DataLine) { IsData(LineText(d)) && (!d.HostData? ==> |LineText(d)| + 2 < LINE_BUF) }

  predicate Every(p: DataLine -> bool, ds: seq<DataLine>) { forall k :: 0 <= k < |ds| ==> p(ds[k]) }

  /** A listing has only lines with some property if each interface's part has. */
  lemma {:induction false} EveryListed(p: DataLine -> bool, b: Board, count: nat)
    requires count <= |b.netifs| && forall k :: 0 <= k < count ==> Every(p, NetifLines(b, k))
    ensures Every(p, ListLines(b, count))
  {
    if count > 0 {
      EveryListed(p, b, count - 1);
      var front, last := ListLines(b, count - 1), NetifLines(b, count - 1);
      forall k | 0 <= k < |front + last|
        ensures p((front + last)[k])
      {
        assert k >= |front| ==> (front + last)[k] == last[k - |front|];
      }
    }
  }

  predicate AllData(ds: seq<DataLine>) { Every(IsDataLine, ds) }

  lemma NetifLinesAreData(b: Board, k: nat)
    requires k < |b.netifs| < 50
    ensures AllData(NetifLines(b, k))
  {
    var n, ports := b.netifs[k], PortsOf(b.es, b.netifs[k].ptr);
    SocketsAreOwnedInOrder(b.es, n.ptr, 0, |b.es|);
    NetifIsData(k + 1, n, |ports|);
    var socks := SockLines(k + 1, ports, |ports|);
    forall j | 0 <= j < |socks|
      ensures IsDataLine(socks[j])
    {
      SockIsData(k + 1, j + 1, ports[j]);
    }
  }

  /** No line of a listing can break the frame, and none is cut by the 96-byte line buffer. */
  lemma ListingIsData(b: Board)
    requires Inv(b)
    ensures AllData(NetifListData(b))
    ensures forall k :: 0 <= k < |NetifListData(b)| ==> |LineText(NetifListData(b)[k])| + 3 <= 96
  {
    ListingLinesAreData(b);
    forall k | 0 <= k < |NetifListData(b)|
      ensures |LineText(NetifListData(b)[k])| + 3 <= 96
    {
      assert IsDataLine(NetifListData(b)[k]);
      NoHosts(b, |b.netifs|, k);
    }
  }

  lemma {:induction false} NoHosts(b: Board, count: nat, k: nat)
    requires count <= |b.netifs| && k < |ListLines(b, count)|
    ensures !ListLines(b, count)[k].HostData?
  {
    if count > 0 && k < |ListLines(b, count - 1)| {
      NoHosts(b, count - 1, k);
    }
  }

  lemma ListingLinesAreData(b: Board)
    requires Inv(b)
    ensures AllData(NetifListData(b))
  {
    AtMostEight(b);
    forall k | 0 <= k < |b.netifs|
      ensures Every(IsDataLine, NetifLines(b, k))
    {
      NetifLinesAreData(b, k);
    }
    EveryListed(IsDataLine, b, |b.netifs|);
  }

  lemma PingAndScanAreData(p: PingOutcome, hosts: seq<(Word32, seq<Byte>)>)
    ensures AllData(PingLines(p)) && AllData(HostLines(hosts))
  {
    CleanLineIsData("#TIMEOUT");
    if p.Replied? { PongIsData(p.from, p.seqno, p.bytes, p.rtt, p.ttl); }
    forall k | 0 <= k < |hosts|
      ensures IsDataLine(HostLines(hosts)[k])
    {
      HostIsData(hosts[k].0, hosts[k].1);
    }
  }

  lemma FrameIsFramed(name: string, status: string, data: seq<DataLine>)
    requires IsVisible(name) && IsVisible(status) && AllData(data)
    ensures IsFramed(ReplyOf(Frame(name, status, data)))
  {
    VisibleIsWord(name);
    VisibleIsWord(status);
    forall k | 0 <= k < |data|
      ensures IsData(Texts(data)[k])
    {
      assert IsDataLine(data[k]);
      TextsAt(data, k);
    }
  }
}
