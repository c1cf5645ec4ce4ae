/**
 The main loop's share of the serial line: a 'q' opens the menu instead of reaching the command channel,
 and each received datagram is printed as an event, up to 64 bytes of it unescaped.
 */
module MainLoop {
  import opened Words
  import opened Text
  import opened SlotMachine
  import opened SerialManager
  import opened CommandChannel

  // ---------------------------------------------------------------------------------------------
  // Bytes in

  const MENU_KEY: char := 'q'

  // pending: the command channel's unfinished line.  lines: those dispatched.  menus: times the menu opened.
  datatype LoopState = LoopState(pending: string, lines: seq<string>, menus: nat)

  function Min(a: nat, b: nat): nat { if a < b then a else b }

  /** What an open menu swallows of the bytes that follow its key: at least a line, because it reads one
      (draining the receiver first can only swallow more), and `extra` bytes for its further questions. */
  function Swallowed(rest: string, extra: nat): (n: nat)
    ensures n <= |rest|
  {
    Min(TerminatorIndex(rest) + 1 + extra, |rest|)
  }

  /** The bytes s arrive; the k-th menu swallows extra(k) bytes after its first line. */
  function LoopFeed(st: LoopState, s: string, extra: nat -> nat): LoopState
    decreases |s|
  {
    if s == "" then st
    else if s[0] == MENU_KEY then
      LoopFeed(st.(menus := st.menus + 1), s[1 + Swallowed(s[1..], extra(st.menus))..], extra)
    else
      var (next, line) := FeedByte(st.pending, s[0]);
      LoopFeed(st.(pending := next, lines := st.lines + if line.Some? then [line.value] else []), s[1..], extra)
  }

  /** Without the menu key the channel sees every byte. */
  lemma {:induction false} LoopFeedsChannel(st: LoopState, s: string, extra: nat -> nat)
    requires MENU_KEY !in s
    ensures var (pending, lines) := FeedBytes(st.pending, s);
            LoopFeed(st, s, extra) == LoopState(pending, st.lines + lines, st.menus)
    decreases |s|
  {
    if s == "" {
      assert st.lines + [] == st.lines;
    } else {
      var (next, line) := FeedByte(st.pending, s[0]);
      var here := if line.Some? then [line.value] else [];
      var (last, rest) := FeedBytes(next, s[1..]);
      LoopFeedsChannel(st.(pending := next, lines := st.lines + here), s[1..], extra);
      assert st.lines + here + rest == st.lines + (here + rest);
    }
  }

  /** A non-empty command without CR or LF. */
  predicate IsCommand(s: string) { s != "" && forall k :: 0 <= k < |s| ==> !IsTerminator(s[k]) }

  lemma NothingPending()
    ensures Batch("") == ("", [])
  {
    assert Pieces("") == [""];
    assert [""][..0] == [];
  }

  /** One command is one line, whatever its length. */
  lemma CommandIsOneLine(command: string)
    requires IsCommand(command)
    ensures FeedBytes("", command + "\r") == ("", [CString(Cut(command))])
  {
    SplitterEqualsBatch(command + "\r");
    assert command + ['\r'] + "" == command + "\r";
    BatchOfLine(command, '\r', "");
    NothingPending();
    assert [CString(Cut(command))] + [] == [CString(Cut(command))];
  }

  const QUIET := LoopState("", [], 0)

  lemma UnfinishedIsCut(u: string)
    requires forall k :: 0 <= k < |u| ==> !IsTerminator(u[k])
    ensures FeedBytes("", u) == (Cut(u), [])
  {
    SplitterEqualsBatch(u);
    PiecesOfLine(u, '\r', "");
    assert [u][..0] == [];
  }

  lemma {:induction false} LoopAppend(st: LoopState, a: string, b: string, extra: nat -> nat)
    requires MENU_KEY !in a
    ensures LoopFeed(st, a + b, extra) == LoopFeed(LoopFeed(st, a, extra), b, extra)
    decreases |a|
  {
    if a == "" {
      assert a + b == b;
    } else {
      var (next, line) := FeedByte(st.pending, a[0]);
      assert (a + b)[1..] == a[1..] + b;
      LoopAppend(st.(pending := next, lines := st.lines + if line.Some? then [line.value] else []), a[1..], b, extra);
    }
  }

  /** The menu swallows the rest of the command with its CR: nothing is dispatched, and what came before
      the 'q' stays pending and becomes the beginning of the next command. */
  lemma CommandIsLost(before: string, after: string, extra: nat -> nat)
    requires MENU_KEY !in before && (forall k :: 0 <= k < |before| ==> !IsTerminator(before[k]))
    requires forall k :: 0 <= k < |after| ==> !IsTerminator(after[k])
    ensures LoopFeed(QUIET, before + ([MENU_KEY] + (after + "\r")), extra) == LoopState(Cut(before), [], 1)
  {
    var tail := after + "\r";
    var rest := [MENU_KEY] + tail;
    LoopAppend(QUIET, before, rest, extra);
    LoopFeedsChannel(QUIET, before, extra);
    UnfinishedIsCut(before);
    var empty: seq<string> := [];
    assert empty + [] == empty;
    assert rest[1..] == tail && IsTerminator(tail[|after|]);
    assert forall k :: 0 <= k < |after| ==> tail[k] == after[k];
    assert TerminatorIndex(tail) == |after|;
    assert Swallowed(rest[1..], extra(0)) == |tail|;
    assert LoopFeed(LoopState(Cut(before), [], 0), rest, extra) == LoopFeed(LoopState(Cut(before), [], 1), rest[|rest|..], extra);
  }

  lemma KeyedCommandIsLost(command: string, extra: nat -> nat)
    requires IsCommand(command) && MENU_KEY in command
    ensures LoopFeed(QUIET, command + "\r", extra).lines == []
  {
    var k := IndexOf(command, MENU_KEY);
    assert command[..|command|] == command;
    var before, after := command[..k], command[k + 1..];
    assert command + "\r" == before + ([MENU_KEY] + (after + "\r"));
    CommandIsLost(before, after, extra);
  }

  lemma KeylessCommandArrives(command: string, extra: nat -> nat)
    requires IsCommand(command) && MENU_KEY !in command
    ensures LoopFeed(QUIET, command + "\r", extra) == LoopState("", [CString(Cut(command))], 0)
  {
    LoopFeedsChannel(QUIET, command + "\r", extra);
    CommandIsOneLine(command);
    assert [] + [CString(Cut(command))] == [CString(Cut(command))];
  }

  /** For every command and whatever the menus swallow beyond their line: its line is dispatched if and only
      if it has no 'q', and with one nothing is dispatched at all. */
  lemma CommandArrivesIff(command: string, extra: nat -> nat)
    requires IsCommand(command)
    ensures LoopFeed(QUIET, command + "\r", extra).lines == [CString(Cut(command))] <==> MENU_KEY !in command
    ensures MENU_KEY !in command ==> LoopFeed(QUIET, command + "\r", extra) == LoopState("", [CString(Cut(command))], 0)
    ensures MENU_KEY in command ==> LoopFeed(QUIET, command + "\r", extra).lines == []
  {
    if MENU_KEY in command {
      KeyedCommandIsLost(command, extra);
    } else {
      KeylessCommandArrives(command, extra);
    }
  }

  /** A datagram whose text begins with "quit" cannot be sent. */
  lemma QuitIsLost(extra: nat -> nat)
    ensures LoopFeed(QUIET, "UDP SEND 1 1 10.0.0.5 4000 quit" + "\r", extra)
            == LoopState("UDP SEND 1 1 10.0.0.5 4000 ", [], 1)
  {
    var before := "UDP SEND 1 1 10.0.0.5 4000 ";
    CommandIsLost(before, "uit", extra);
    assert "UDP SEND 1 1 10.0.0.5 4000 quit" + "\r" == before + ([MENU_KEY] + ("uit" + "\r"));
  }

  // ---------------------------------------------------------------------------------------------
  // Events out

  const PRINT_LEN: nat := 64

  /** What the panel's ASCII decoder makes of a byte. */
  function Decoded(b: Byte): char { if b < 128 then b as char else '?' }

  /** The part of a message that is printed, as the panel reads it. */
  function Payload(data: seq<Byte>): string {
    var n := Min(|data|, PRINT_LEN);
    seq(n, k requires 0 <= k < n => Decoded(data[k]))
  }

  /** At most the first 64 bytes are printed, one character each. */
  lemma PayloadIs(data: seq<Byte>)
    ensures |Payload(data)| == if |data| > 64 then 64 else |data|
    ensures forall k :: 0 <= k < |Payload(data)| ==>
              Payload(data)[k] == if data[k] < 128 then data[k] as char else '?'
  {
  }

  const EVENT_TAG := "#EVT UDPRX "
  const DATA_TAG := "#EVT Data: "

  function Endpoint(ip: Word32, port: Word16): string { Dotted(ip) + (":" + Dec(port)) }

  function Header(from: string, to: string, count: string): string {
    EVENT_TAG + (from + (" -> " + (to + (" " + (count + " bayt")))))
  }

  function DataText(data: seq<Byte>): string { if data == [] then "" else DATA_TAG + (Payload(data) + "\r\n") }

  function Event(header: string, data: seq<Byte>): string {
    "\r\n" + (header + ("\r\n" + DataText(data)))
  }

  /** What the main loop prints for a message polled from the socket on ip:port. */
  function EventText(m: Message, ip: Word32, port: Word16): string {
    Event(Header(Endpoint(m.srcIp, m.srcPort), Endpoint(ip, port), Dec(|m.data|)), m.data)
  }

  /** The lines of a datagram's text after its first: the panel reads them as lines of their own. */
  function Extra(data: seq<Byte>): seq<string> { Split(Payload(data), '\n')[1..] }

  // Lines that differ at most in CRs at their end.
  ghost predicate SameButCr(a: seq<string>, b: seq<string>) {
    |a| == |b| && forall k :: 0 <= k < |a| ==> TrimCr(a[k]) == TrimCr(b[k])
  }

  lemma TrimSnoc(s: string)
    ensures TrimCr(s + "\r") == TrimCr(s)
  {
    assert (s + "\r")[..|s|] == s;
  }

  lemma NoiseBehind(tag: string, s: string)
    requires tag == EVENT_TAG || tag == DATA_TAG
    ensures "#EVT " <= TrimCr(tag + s)
  {
    KeepsPrefix("#EVT ", (tag + s)[5..]);
    assert tag + s == "#EVT " + (tag + s)[5..];
  }

  lemma {:induction false} KeepsPrefix(p: string, s: string)
    requires p != "" && p[|p| - 1] != '\r'
    ensures p <= TrimCr(p + s)
    decreases |s|
  {
    if s == "" {
      assert p + s == p;
    } else if s[|s| - 1] == '\r' {
      assert (p + s)[..|p + s| - 1] == p + s[..|s| - 1];
      KeepsPrefix(p, s[..|s| - 1]);
    }
  }

  /** The pieces of a tagged text: only the first one carries the tag, only the last one the CR. */
  lemma {:induction false} TaggedPieces(tag: string, d: string)
    requires '\n' !in tag
    ensures var p, q := Complete(tag + (d + "\r\n")), Split(d, '\n');
            && |p| == |q| && p[0][..Min(|tag|, |p[0]|)] == tag && SameButCr(p[1..], q[1..])
    decreases |d|
  {
    var k := IndexOf(d, '\n');
    if k == |d| {
      assert tag + (d + "\r\n") == (tag + d + "\r") + ['\n'] + "";
      assert '\n' !in d by { assert d[..k] == d; }
      SplitLine(tag + d + "\r", "");
      SplitLine("", "");
    } else {
      var first, rest := d[..k], d[k + 1..];
      assert d == first + ['\n'] + rest;
      assert tag + (d + "\r\n") == (tag + first) + ['\n'] + ("" + (rest + "\r\n"));
      SplitLine(tag + first, "" + (rest + "\r\n"));
      TaggedPieces("", rest);
      var p, q := Complete("" + (rest + "\r\n")), Split(rest, '\n');
      FirstPiece(rest);
      assert Split(d, '\n') == [first] + q;
    }
  }

  /** The first piece of a text that gains a CR LF loses nothing but that CR. */
  lemma {:induction false} FirstPiece(d: string)
    ensures var p, q := Complete("" + (d + "\r\n")), Split(d, '\n');
            |p| >= 1 && TrimCr(p[0]) == TrimCr(q[0])
  {
    var k := IndexOf(d, '\n');
    if k == |d| {
      assert '\n' !in d by { assert d[..k] == d; }
      assert "" + (d + "\r\n") == (d + "\r") + ['\n'] + "";
      SplitLine(d + "\r", "");
      TrimSnoc(d);
    } else {
      assert "" + (d + "\r\n") == d[..k] + ['\n'] + (d[k + 1..] + "\r\n");
      SplitLine(d[..k], d[k + 1..] + "\r\n");
    }
  }

  lemma {:induction false} CrDoesNotComplete(a: seq<string>, b: seq<string>)
    requires SameButCr(a, b)
    ensures Completions(a) == Completions(b)
  {
    if a != [] {
      CrDoesNotComplete(a[1..], b[1..]);
    }
  }

  lemma NoiseDoesNotComplete(line: string)
    requires IsNoise(line)
    ensures Completions([line]) == 0
  {
    TagsDiffer(TrimCr(line));
    assert [line][1..] == [];
  }

  lemma EndpointIsUnbroken(ip: Word32, port: Word16)
    ensures '\n' !in Endpoint(ip, port)
  {
    DottedForm(ip);
    DecRoundTrip(port);
  }

  lemma HeaderIsOneLine(from: string, to: string, count: string)
    requires '\n' !in from && '\n' !in to && '\n' !in count
    ensures '\n' !in Header(from, to, count) && IsNoise(Header(from, to, count) + "\r")
  {
    var rest := from + (" -> " + (to + (" " + (count + " bayt"))));
    NoiseBehind(EVENT_TAG, rest);
    TrimSnoc(EVENT_TAG + rest);
  }

  lemma DataLinesComplete(data: seq<Byte>)
    ensures Completions(Complete(DATA_TAG + (Payload(data) + "\r\n"))) == Completions(Extra(data))
  {
    var p := Complete(DATA_TAG + (Payload(data) + "\r\n"));
    TaggedPieces(DATA_TAG, Payload(data));
    CrDoesNotComplete(p[1..], Extra(data));
    assert p[0] == DATA_TAG + p[0][|DATA_TAG|..];
    NoiseBehind(DATA_TAG, p[0][|DATA_TAG|..]);
    NoiseDoesNotComplete(p[0]);
    CompletionsAppend([p[0]], p[1..]);
    assert p == [p[0]] + p[1..];
  }

  lemma NoData(data: seq<Byte>)
    requires data == []
    ensures Extra(data) == []
  {
    assert Payload(data) == "";
  }

  /** The text of an event hands over as many results as its payload has lines that look like the end of a
      reply; in particular it leaves a waiting command alone if and only if there is no such line. */
  lemma EventCompletesIff(h: Collector, m: Message, ip: Word32, port: Word16)
    requires h.waiting && h.lineBuf == ""
    ensures var h' := Feed(h, EventText(m, ip, port));
            && |h'.answers| == |h.answers| + Completions(Extra(m.data)) && h'.lineBuf == ""
            && (h'.answers == h.answers <==> NoneCompletes(Extra(m.data)))
  {
    var header := Header(Endpoint(m.srcIp, m.srcPort), Endpoint(ip, port), Dec(|m.data|));
    EndpointIsUnbroken(m.srcIp, m.srcPort);
    EndpointIsUnbroken(ip, port);
    DecRoundTrip(|m.data|);
    HeaderIsOneLine(Endpoint(m.srcIp, m.srcPort), Endpoint(ip, port), Dec(|m.data|));
    EventCompletes(h, header, m.data);
  }

  lemma EventCompletes(h: Collector, header: string, data: seq<Byte>)
    requires h.waiting && h.lineBuf == "" && '\n' !in header && IsNoise(header + "\r")
    ensures var h' := Feed(h, Event(header, data));
            && |h'.answers| == |h.answers| + Completions(Extra(data)) && h'.lineBuf == ""
            && (h'.answers == h.answers <==> NoneCompletes(Extra(data)))
  {
    var text := Event(header, data);
    EventLines(header, data);
    FeedIsSplit(h, text);
    assert "" + text == text;
    AnswersCount(h, Complete(text));
    NoCompletions(Extra(data));
  }

  lemma EventLines(header: string, data: seq<Byte>)
    requires '\n' !in header && IsNoise(header + "\r")
    ensures var text := Event(header, data);
            Completions(Complete(text)) == Completions(Extra(data)) && Partial(text) == ""
  {
    var body := DataText(data);
    assert Event(header, data) == "\r" + ['\n'] + ((header + "\r") + ['\n'] + body);
    SplitLine("\r", (header + "\r") + ['\n'] + body);
    SplitLine(header + "\r", body);
    CompletionsAppend(["\r"], [header + "\r"] + Complete(body));
    CompletionsAppend([header + "\r"], Complete(body));
    NoiseDoesNotComplete("\r");
    NoiseDoesNotComplete(header + "\r");
    BodyLines(data);
  }

  lemma BodyLines(data: seq<Byte>)
    ensures Completions(Complete(DataText(data))) == Completions(Extra(data)) && Partial(DataText(data)) == ""
  {
    if data == [] {
      NoData(data);
      SplitLine("", "");
    } else {
      DataLinesComplete(data);
      EndsWithLineFeed(DATA_TAG + (Payload(data) + "\r"));
      assert DataText(data) == DATA_TAG + (Payload(data) + "\r") + ['\n'];
    }
  }

  lemma {:induction false} EndsWithLineFeed(s: string)
    ensures Partial(s + ['\n']) == ""
    decreases |s|
  {
    var k := IndexOf(s, '\n');
    SplitLine("", "");
    if k == |s| {
      assert '\n' !in s by { assert s[..k] == s; }
      assert s + ['\n'] == s + ['\n'] + "";
      SplitLine(s, "");
    } else {
      assert s + ['\n'] == s[..k] + ['\n'] + (s[k + 1..] + ['\n']);
      SplitLine(s[..k], s[k + 1..] + ['\n']);
      EndsWithLineFeed(s[k + 1..]);
    }
  }

  /** "\n#END X OK" as a datagram */
  const FORGED: seq<Byte> := [10, 35, 69, 78, 68, 32, 88, 32, 79, 75]

  lemma ForgedPayload()
    ensures Payload(FORGED) == "\n" + FORGED_END
  {
    assert |FORGED| == 10;
    assert forall k :: 0 <= k < 10 ==> Payload(FORGED)[k] == Decoded(FORGED[k]);
  }

  const FORGED_END := "#END X OK"

  lemma ForgedEndCompletes()
    ensures Completions([FORGED_END]) == 1
  {
    assert TrimCr(FORGED_END) == FORGED_END;
    assert [FORGED_END][1..] == [];
  }

  lemma ForgedLine()
    ensures Split("\n" + FORGED_END, '\n')[1..] == [FORGED_END]
  {
    assert "\n" + FORGED_END == "" + ['\n'] + FORGED_END;
    IndexOfFirst("", '\n', FORGED_END);
    assert '\n' !in FORGED_END;
    IndexOfFirst(FORGED_END, '\n', "");
    assert ("\n" + FORGED_END)[1..] == FORGED_END;
  }

  /** A datagram completes a waiting command, with no time-out anywhere. */
  lemma DatagramCompletesCommand(h: Collector, srcIp: Word32, srcPort: Word16, ip: Word32, port: Word16)
    requires h.waiting && h.lineBuf == ""
    ensures |Feed(h, EventText(Message(srcIp, srcPort, FORGED), ip, port)).answers| == |h.answers| + 1
  {
    ForgedPayload();
    ForgedLine();
    ForgedEndCompletes();
    EventCompletesIff(h, Message(srcIp, srcPort, FORGED), ip, port);
  }
}
