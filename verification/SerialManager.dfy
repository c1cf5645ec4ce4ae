/**
 The host end of the command channel: characters arrive in chunks, are gathered into lines, and the
 lines of one framed block are gathered into the response of the command that waits for it.
 */
module SerialManager {
  import opened Words
  import opened Text

  datatype Response = Response(name: string, status: string, data: seq<string>)

  // lineBuf, name, lines: _lineBuf, _collectName, _collectLines.  waiting: _pendingTcs is set; answers:
  // the results handed to it, of which the first completes the command.  events: AsyncLineReceived.
  datatype Collector = Collector(lineBuf: string, name: Option<string>, lines: seq<string>, waiting: bool,
                                 answers: seq<Response>, events: seq<string>)

  // ---------------------------------------------------------------------------------------------
  // Trimming

  predicate IsWhite(c: char) {
    || '\t' <= c <= '\r' || c == ' ' || c == '\U{85}' || c == '\U{A0}' || c == '\U{1680}'
    || '\U{2000}' <= c <= '\U{200A}' || c == '\U{2028}' || c == '\U{2029}' || c == '\U{202F}'
    || c == '\U{205F}' || c == '\U{3000}'
  }

  function TrimStart(s: string): string {
    if s != "" && IsWhite(s[0]) then TrimStart(s[1..]) else s
  }

  function TrimEnd(s: string): string {
    if s != "" && IsWhite(s[|s| - 1]) then TrimEnd(s[..|s| - 1]) else s
  }

  function Trim(s: string): string { TrimEnd(TrimStart(s)) }

  /** TrimEnd('\r') */
  function TrimCr(s: string): string {
    if s != "" && s[|s| - 1] == '\r' then TrimCr(s[..|s| - 1]) else s
  }

  // ---------------------------------------------------------------------------------------------
  // One line, one character, one chunk

  function Answer(h: Collector, r: Response): Collector {
    if h.waiting then h.(answers := h.answers + [r]) else h
  }

  /** The state in which a new command starts to wait; lines already collected are not cleared. */
  function Begun(h: Collector): Collector { h.(name := None, waiting := true, answers := []) }

  function ProcessLine(h: Collector, line: string): Collector {
    if !("#" <= line) then
      if line == "" then h
      else if h.name.Some? then h.(lines := h.lines + [line])
      else h.(events := h.events + [line])
    else if "#EVT " <= line then h.(events := h.events + [line[5..]])
    else if "#BEGIN " <= line then h.(name := Some(Trim(line[7..])), lines := [])
    else if "#END " <= line then
      var rest := Trim(line[5..]);
      var sp := IndexOf(rest, ' ');
      var name := rest[..sp];
      var status := if sp == |rest| then "" else Trim(rest[sp + 1..]);
      Answer(h.(name := None), Response(name, status, h.lines))
    else if "#ERR" <= line then Answer(h, Response("", "ERR:" + Trim(line[4..]), []))
    else if h.name.Some? then h.(lines := h.lines + [line])
    else h
  }

  function FeedChar(h: Collector, c: char): Collector {
    if c == '\n' then ProcessLine(h.(lineBuf := ""), TrimCr(h.lineBuf)) else h.(lineBuf := h.lineBuf + [c])
  }

  function Feed(h: Collector, s: string): Collector
    decreases |s|
  {
    if s == "" then h else Feed(FeedChar(h, s[0]), s[1..])
  }

  function FeedChunks(h: Collector, chunks: seq<string>): Collector
    decreases |chunks|
  {
    if chunks == [] then h else FeedChunks(Feed(h, chunks[0]), chunks[1..])
  }

  function Concat(chunks: seq<string>): string {
    if chunks == [] then "" else chunks[0] + Concat(chunks[1..])
  }

  lemma {:induction false} FeedAppend(h: Collector, a: string, b: string)
    ensures Feed(h, a + b) == Feed(Feed(h, a), b)
    decreases |a|
  {
    if a == "" {
      assert a + b == b;
    } else {
      assert (a + b)[1..] == a[1..] + b;
      FeedAppend(FeedChar(h, a[0]), a[1..], b);
    }
  }

  /** Where the serial driver cuts the stream makes no difference. */
  lemma {:induction false} ChunkingIsIrrelevant(h: Collector, chunks: seq<string>)
    ensures FeedChunks(h, chunks) == Feed(h, Concat(chunks))
    decreases |chunks|
  {
    if chunks != [] {
      ChunkingIsIrrelevant(Feed(h, chunks[0]), chunks[1..]);
      FeedAppend(h, chunks[0], Concat(chunks[1..]));
    }
  }

  // ---------------------------------------------------------------------------------------------
  // The class

  class Manager {
    var lineBuf: string
    var name: Option<string>
    var lines: seq<string>
    var waiting: bool
    var answers: seq<Response>
    var events: seq<string>

    ghost function View(): Collector
      reads this
    {
      Collector(lineBuf, name, lines, waiting, answers, events)
    }

    /** SendCommandAsync up to the wait: a fresh task, and no block under collection. */
    method BeginCommand()
      modifies this
      ensures View() == Begun(old(View()))
    {
      waiting, answers, name := true, [], None;
    }

    method TrySetResult(r: Response)
      modifies this`answers
      ensures View() == Answer(old(View()), r)
    {
      if waiting {
        answers := answers + [r];
      }
    }

    method Process(line: string)
      modifies this
      ensures View() == ProcessLine(old(View()), line)
    {
      if !("#" <= line) {
        if line == "" { return; }
        if name.Some? {
          lines := lines + [line];
        } else {
          events := events + [line];
        }
        return;
      }
      if "#EVT " <= line {
        events := events + [line[5..]];
        return;
      }
      if "#BEGIN " <= line {
        name := Some(Trim(line[7..]));
        lines := [];
        return;
      }
      if "#END " <= line {
        var rest := Trim(line[5..]);
        var sp := IndexOf(rest, ' ');
        var status := if sp == |rest| then "" else Trim(rest[sp + 1..]);
        var r := Response(rest[..sp], status, lines);
        name := None;
        TrySetResult(r);
        return;
      }
      if "#ERR" <= line {
        TrySetResult(Response("", "ERR:" + Trim(line[4..]), []));
        return;
      }
      if name.Some? {
        lines := lines + [line];
      }
    }

    /** Port_DataReceived on one chunk */
    method DataReceived(chunk: string)
      modifies this
      ensures View() == Feed(old(View()), chunk)
    {
      var k := 0;
      while k < |chunk|
        invariant 0 <= k <= |chunk|
        invariant Feed(View(), chunk[k..]) == Feed(old(View()), chunk)
      {
        assert chunk[k..][1..] == chunk[k + 1..];
        if chunk[k] == '\n' {
          var line := TrimCr(lineBuf);
          lineBuf := "";
          Process(line);
        } else {
          lineBuf := lineBuf + [chunk[k]];
        }
        k := k + 1;
      }
    }
  }

  // ---------------------------------------------------------------------------------------------
  // What the board prints

  datatype Reply =
    | Block(name: string, status: string, data: seq<string>)
    | Unknown

  function ReplyLines(r: Reply): seq<string> {
    match r
    case Block(name, status, data) => ["#BEGIN " + name] + data + ["#END " + name + " " + status]
    case Unknown => ["#ERR unknown_command"]
  }

  function Expected(r: Reply): Response {
    match r
    case Block(name, status, data) => Response(name, status, data)
    case Unknown => Response("", "ERR:unknown_command", [])
  }

  function Render(lines: seq<string>): string {
    if lines == [] then "" else lines[0] + "\r\n" + Render(lines[1..])
  }

  /** A line the collector ignores: blank, or an unsolicited event. */
  predicate IsNoise(line: string) { TrimCr(line) == "" || "#EVT " <= TrimCr(line) }

  /** The other lines, without their CR. */
  function Denoised(lines: seq<string>): seq<string> {
    if lines == [] then []
    else (if IsNoise(lines[0]) then [] else [TrimCr(lines[0])]) + Denoised(lines[1..])
  }

  predicate IsWord(s: string) { s != "" && forall k :: 0 <= k < |s| ==> !IsWhite(s[k]) }

  /** A data line that cannot be taken for part of the frame. */
  predicate IsData(line: string) {
    && line != "" && line[|line| - 1] != '\r' && '\n' !in line
    && !("#EVT " <= line) && !("#BEGIN " <= line) && !("#END " <= line) && !("#ERR" <= line)
  }

  predicate IsFramed(r: Reply) {
    r.Block? ==> IsWord(r.name) && IsWord(r.status) && forall k :: 0 <= k < |r.data| ==> IsData(r.data[k])
  }

  // ---------------------------------------------------------------------------------------------
  // Framing

  lemma {:induction false} FeedPlain(h: Collector, s: string)
    requires '\n' !in s
    ensures Feed(h, s) == h.(lineBuf := h.lineBuf + s)
    decreases |s|
  {
    if s == "" {
      assert h.lineBuf + s == h.lineBuf;
    } else {
      FeedPlain(FeedChar(h, s[0]), s[1..]);
      assert h.lineBuf + [s[0]] + s[1..] == h.lineBuf + s;
    }
  }

  lemma FeedLine(h: Collector, line: string)
    requires h.lineBuf == "" && '\n' !in line
    ensures Feed(h, line + "\r\n") == ProcessLine(h, TrimCr(line))
  {
    assert line + "\r\n" == (line + "\r") + "\n";
    FeedAppend(h, line + "\r", "\n");
    FeedPlain(h, line + "\r");
    assert "" + (line + "\r") == line + "\r";
    assert (line + "\r")[..|line + "\r"| - 1] == line;
    assert "\n"[1..] == "";
  }

  function ProcessLines(h: Collector, lines: seq<string>): Collector
    decreases |lines|
  {
    if lines == [] then h else ProcessLines(ProcessLine(h, TrimCr(lines[0])), lines[1..])
  }

  lemma {:induction false} FeedRendered(h: Collector, lines: seq<string>)
    requires h.lineBuf == "" && forall k :: 0 <= k < |lines| ==> '\n' !in lines[k]
    ensures Feed(h, Render(lines)) == ProcessLines(h, lines)
    decreases |lines|
  {
    if lines != [] {
      FeedAppend(h, lines[0] + "\r\n", Render(lines[1..]));
      FeedLine(h, lines[0]);
      FeedRendered(ProcessLine(h, TrimCr(lines[0])), lines[1..]);
    }
  }

  /** Noise only reaches the event handler. */
  predicate SameButEvents(g: Collector, h: Collector) { g == h.(events := g.events) }

  lemma {:induction false} TrimCrTwice(s: string)
    ensures TrimCr(TrimCr(s)) == TrimCr(s)
  {
    if s != "" && s[|s| - 1] == '\r' {
      TrimCrTwice(s[..|s| - 1]);
    }
  }

  /** Every carriage return at the end of a line is cut off, and nothing else. */
  lemma {:induction false} TrimCrIs(s: string)
    ensures TrimCr(s) <= s && (TrimCr(s) != "" ==> TrimCr(s)[|TrimCr(s)| - 1] != '\r')
    ensures forall k :: |TrimCr(s)| <= k < |s| ==> s[k] == '\r'
  {
    if s != "" && s[|s| - 1] == '\r' {
      TrimCrIs(s[..|s| - 1]);
    }
  }

  lemma {:induction false} NoiseIsIgnored(g: Collector, h: Collector, lines: seq<string>)
    requires SameButEvents(g, h)
    ensures SameButEvents(ProcessLines(g, lines), ProcessLines(h, Denoised(lines)))
    decreases |lines|
  {
    if lines != [] {
      var line := lines[0];
      if IsNoise(line) {
        assert Denoised(lines) == Denoised(lines[1..]);
        NoiseIsIgnored(ProcessLine(g, TrimCr(line)), h, lines[1..]);
      } else {
        assert Denoised(lines)[1..] == Denoised(lines[1..]);
        TrimCrTwice(line);
        NoiseIsIgnored(ProcessLine(g, TrimCr(line)), ProcessLine(h, TrimCr(line)), lines[1..]);
      }
    }
  }

  /** The texts of the event lines, in order: what follows "#EVT ". */
  function EventTexts(lines: seq<string>): seq<string>
    decreases |lines|
  {
    if lines == [] then []
    else (if "#EVT " <= TrimCr(lines[0]) then [TrimCr(lines[0])[5..]] else []) + EventTexts(lines[1..])
  }

  lemma EventsGrow(h: Collector, line: string)
    ensures h.events <= ProcessLine(h, line).events
  {
  }

  lemma {:induction false} AllEventsGrow(h: Collector, lines: seq<string>)
    ensures h.events <= ProcessLines(h, lines).events
    decreases |lines|
  {
    if lines != [] {
      EventsGrow(h, TrimCr(lines[0]));
      AllEventsGrow(ProcessLine(h, TrimCr(lines[0])), lines[1..]);
    }
  }

  lemma NoiseEvents(g: Collector, line: string)
    requires IsNoise(line)
    ensures ProcessLine(g, TrimCr(line))
            == g.(events := g.events + if "#EVT " <= TrimCr(line) then [TrimCr(line)[5..]] else [])
  {
    assert g.events + [] == g.events;
  }

  lemma SameStep(g: Collector, h: Collector, line: string)
    requires SameButEvents(g, h)
    ensures SameButEvents(ProcessLine(g, line), ProcessLine(h, line))
    ensures ProcessLine(h, line).events == h.events ==> ProcessLine(g, line).events == g.events
  {
  }

  /** When the lines that are not noise report nothing themselves, what reaches the event handler are the
      texts of the event lines, once each and in order. */
  lemma {:induction false} OnlyEventsReported(g: Collector, h: Collector, lines: seq<string>)
    requires SameButEvents(g, h) && ProcessLines(h, Denoised(lines)).events == h.events
    ensures ProcessLines(g, lines).events == g.events + EventTexts(lines)
    decreases |lines|
  {
    if lines == [] {
      assert g.events + [] == g.events;
    } else {
      var line, rest := lines[0], lines[1..];
      if IsNoise(line) {
        assert Denoised(lines) == Denoised(rest);
        NoiseEvents(g, line);
        OnlyEventsReported(ProcessLine(g, TrimCr(line)), h, rest);
        var here := if "#EVT " <= TrimCr(line) then [TrimCr(line)[5..]] else [];
        assert g.events + here + EventTexts(rest) == g.events + (here + EventTexts(rest));
      } else {
        assert Denoised(lines)[1..] == Denoised(rest);
        TrimCrTwice(line);
        var h' := ProcessLine(h, TrimCr(line));
        EventsGrow(h, TrimCr(line));
        AllEventsGrow(h', Denoised(rest));
        assert h'.events == h.events;
        SameStep(g, h, TrimCr(line));
        OnlyEventsReported(ProcessLine(g, TrimCr(line)), h', rest);
        assert [] + EventTexts(rest) == EventTexts(rest);
      }
    }
  }

  /** Among the lines of a block, exactly the events are reported, text for text. */
  lemma EventsComeThrough(h: Collector, name: string, status: string, data: seq<string>, printed: seq<string>)
    requires IsFramed(Block(name, status, data)) && h.waiting && Denoised(printed) == ReplyLines(Block(name, status, data))
    ensures ProcessLines(h, printed).events == h.events + EventTexts(printed)
  {
    BlockCompletes(h, name, status, data);
    OnlyEventsReported(h, h, printed);
  }

  /** A line of free text is reported as it is outside a block, and belongs to the block inside one. */
  lemma FreeText(h: Collector, line: string)
    requires line != "" && line[0] != '#'
    ensures ProcessLine(h, line) == if h.name == None then h.(events := h.events + [line]) else h.(lines := h.lines + [line])
  {
  }

  /** A line with a tag of its own belongs to the block that is open; outside one nobody gets it. */
  lemma TaggedText(h: Collector, line: string)
    requires IsData(line) && line[0] == '#'
    ensures ProcessLine(h, line) == if h.name == None then h else h.(lines := h.lines + [line])
  {
  }

  lemma {:induction false} ProcessAppend(h: Collector, a: seq<string>, b: seq<string>)
    ensures ProcessLines(h, a + b) == ProcessLines(ProcessLines(h, a), b)
    decreases |a|
  {
    if a == [] {
      assert a + b == b;
    } else {
      assert (a + b)[1..] == a[1..] + b;
      ProcessAppend(ProcessLine(h, TrimCr(a[0])), a[1..], b);
    }
  }

  lemma {:induction false} CollectData(h: Collector, data: seq<string>)
    requires h.name.Some? && forall k :: 0 <= k < |data| ==> IsData(data[k])
    ensures ProcessLines(h, data) == h.(lines := h.lines + data)
    decreases |data|
  {
    if data == [] {
      assert h.lines + data == h.lines;
    } else {
      assert TrimCr(data[0]) == data[0];
      CollectData(ProcessLine(h, data[0]), data[1..]);
      assert h.lines + [data[0]] + data[1..] == h.lines + data;
    }
  }

  lemma TrimWord(s: string)
    requires IsWord(s)
    ensures Trim(s) == s && TrimCr(s) == s
  {
  }

  lemma BeginLine(h: Collector, name: string)
    requires IsWord(name)
    ensures ProcessLine(h, TrimCr("#BEGIN " + name)) == h.(name := Some(name), lines := [])
  {
    var line := "#BEGIN " + name;
    assert line[|line| - 1] == name[|name| - 1];
    assert !IsWhite(name[|name| - 1]);
    assert line[7..] == name;
    assert line[0] == '#' && line[1] == 'B';
    TrimWord(name);
  }

  lemma EndParts(name: string, status: string)
    requires IsWord(name) && IsWord(status)
    ensures var rest := name + " " + status;
            && Trim(rest) == rest && IndexOf(rest, ' ') == |name| < |rest|
            && rest[..|name|] == name && Trim(rest[|name| + 1..]) == status
  {
    var rest := name + " " + status;
    assert rest == name + [' '] + status;
    assert rest[|rest| - 1] == status[|status| - 1] && rest[0] == name[0];
    assert TrimStart(rest) == rest && TrimEnd(rest) == rest;
    assert ' ' !in name;
    IndexOfFirst(name, ' ', status);
    assert rest[|name| + 1..] == status;
    TrimWord(status);
  }

  lemma EndPrefix(rest: string)
    requires rest != "" && rest[|rest| - 1] != '\r'
    ensures var line := "#END " + rest;
            && TrimCr(line) == line && line[5..] == rest
            && "#" <= line && "#END " <= line && !("#EVT " <= line) && !("#BEGIN " <= line)
  {
    var line := "#END " + rest;
    assert line[|line| - 1] == rest[|rest| - 1];
    assert line[1] == 'E' && line[2] == 'N';
  }

  lemma EndLine(h: Collector, name: string, status: string)
    requires IsWord(name) && IsWord(status)
    ensures ProcessLine(h, TrimCr("#END " + name + " " + status)) == Answer(h.(name := None), Response(name, status, h.lines))
  {
    var rest := name + " " + status;
    assert "#END " + name + " " + status == "#END " + rest;
    assert rest[|rest| - 1] == status[|status| - 1] && !IsWhite(status[|status| - 1]);
    EndPrefix(rest);
    EndParts(name, status);
  }

  lemma ErrPrefix(rest: string)
    requires rest != "" && rest[|rest| - 1] != '\r'
    ensures var line := "#ERR" + rest;
            && TrimCr(line) == line && line[4..] == rest
            && "#" <= line && "#ERR" <= line && !("#EVT " <= line) && !("#BEGIN " <= line) && !("#END " <= line)
  {
    var line := "#ERR" + rest;
    assert line[|line| - 1] == rest[|rest| - 1];
    assert line[1] == 'E' && line[2] == 'R';
  }

  lemma TrimSpaceWord(s: string)
    requires IsWord(s)
    ensures Trim(" " + s) == s
  {
    assert (" " + s)[1..] == s;
    TrimWord(s);
  }

  lemma ErrLine(h: Collector, reason: string)
    requires IsWord(reason)
    ensures ProcessLine(h, TrimCr("#ERR" + (" " + reason))) == Answer(h, Response("", "ERR:" + reason, []))
  {
    var rest := " " + reason;
    assert rest[|rest| - 1] == reason[|reason| - 1] && !IsWhite(reason[|reason| - 1]);
    ErrPrefix(rest);
    TrimSpaceWord(reason);
  }

  const UNKNOWN_REASON := "unknown_command"

  lemma UnknownText()
    ensures IsWord(UNKNOWN_REASON)
    ensures ReplyLines(Unknown) == ["#ERR" + (" " + UNKNOWN_REASON)]
    ensures Expected(Unknown) == Response("", "ERR:" + UNKNOWN_REASON, [])
  {
    assert "#ERR" + (" " + UNKNOWN_REASON) == "#ERR unknown_command";
    assert "ERR:" + UNKNOWN_REASON == "ERR:unknown_command";
  }

  /** A block that is open when the reply begins is abandoned. */
  lemma FrameCompletes(h: Collector, r: Reply)
    requires IsFramed(r) && h.waiting
    ensures var h' := ProcessLines(h, ReplyLines(r));
            && h'.answers == h.answers + [Expected(r)] && h'.waiting && h'.lineBuf == h.lineBuf
            && (r.Block? || h.name == None ==> h'.name == None)
  {
    match r
    case Block(name, status, data) => BlockCompletes(h, name, status, data);
    case Unknown =>
      UnknownText();
      ErrLine(h, UNKNOWN_REASON);
      OneLine(h, "#ERR" + (" " + UNKNOWN_REASON));
  }

  lemma OneLine(h: Collector, line: string)
    ensures ProcessLines(h, [line]) == ProcessLine(h, TrimCr(line))
  {
    assert [line][1..] == [];
  }

  lemma BlockCompletes(h: Collector, name: string, status: string, data: seq<string>)
    requires IsFramed(Block(name, status, data)) && h.waiting
    ensures ProcessLines(h, ReplyLines(Block(name, status, data))) ==
            h.(name := None, lines := data, answers := h.answers + [Response(name, status, data)])
  {
    var first, last := "#BEGIN " + name, "#END " + name + " " + status;
    assert ReplyLines(Block(name, status, data)) == [first] + (data + [last]);
    ProcessAppend(h, [first], data + [last]);
    OneLine(h, first);
    BeginLine(h, name);
    var h1 := h.(name := Some(name), lines := []);
    ProcessAppend(h1, data, [last]);
    CollectData(h1, data);
    assert [] + data == data;
    OneLine(h1.(lines := data), last);
    EndLine(h1.(lines := data), name, status);
  }

  /** The lines of one reply, interleaved with blank and event lines and cut into any chunks, complete
      the waiting command exactly once, with the name, status and data lines that were printed. */
  lemma FramingTheorem(h: Collector, r: Reply, printed: seq<string>, chunks: seq<string>)
    requires IsFramed(r) && h.waiting && h.lineBuf == ""
    requires Denoised(printed) == ReplyLines(r)
    requires forall k :: 0 <= k < |printed| ==> '\n' !in printed[k]
    requires Concat(chunks) == Render(printed)
    ensures var h' := FeedChunks(h, chunks);
            && h'.answers == h.answers + [Expected(r)] && h'.lineBuf == "" && h'.waiting
            && (h.name == None ==> h'.name == None)
  {
    ChunkingIsIrrelevant(h, chunks);
    FeedRendered(h, printed);
    NoiseIsIgnored(h, h, printed);
    FrameCompletes(h, r);
  }

  // ---------------------------------------------------------------------------------------------
  // The host's splitter

  /** The finished lines of a text, and what follows the last line feed. */
  function Complete(text: string): seq<string> { Split(text, '\n')[..|Split(text, '\n')| - 1] }

  function Partial(text: string): (s: string) { Split(text, '\n')[|Split(text, '\n')| - 1] }

  lemma SplitLine(line: string, rest: string)
    requires '\n' !in line
    ensures Complete(line + ['\n'] + rest) == [line] + Complete(rest) && Partial(line + ['\n'] + rest) == Partial(rest)
    ensures Complete(line) == [] && Partial(line) == line
  {
    IndexOfFirst(line, '\n', rest);
    var s := line + ['\n'] + rest;
    assert s[..|line|] == line && s[|line| + 1..] == rest;
    assert Split(s, '\n') == [line] + Split(rest, '\n');
  }

  lemma {:induction false} PartialIsPartial(text: string)
    ensures '\n' !in Partial(text)
    decreases |text|
  {
    var k := IndexOf(text, '\n');
    if k < |text| {
      assert text == text[..k] + ['\n'] + text[k + 1..];
      SplitLine(text[..k], text[k + 1..]);
      PartialIsPartial(text[k + 1..]);
    } else {
      assert text[..k] == text;
    }
  }

  /** Reading character by character processes exactly the finished lines of the whole text, and keeps the
      unfinished one. */
  lemma {:induction false} FeedIsSplit(h: Collector, s: string)
    requires '\n' !in h.lineBuf
    ensures Feed(h, s) == ProcessLines(h.(lineBuf := ""), Complete(h.lineBuf + s)).(lineBuf := Partial(h.lineBuf + s))
    decreases |s|
  {
    if s == "" {
      assert h.lineBuf + s == h.lineBuf;
      SplitLine(h.lineBuf, "");
    } else {
      var c, rest := s[0], s[1..];
      assert h.lineBuf + s == h.lineBuf + [c] + rest;
      FeedIsSplit(FeedChar(h, c), rest);
      if c == '\n' {
        LineTaken(h, rest);
      }
    }
  }

  lemma LineTaken(h: Collector, rest: string)
    requires '\n' !in h.lineBuf
    ensures FeedChar(h, '\n').lineBuf == "" && "" + rest == rest
    ensures ProcessLines(FeedChar(h, '\n'), Complete(rest))
            == ProcessLines(h.(lineBuf := ""), Complete(h.lineBuf + ['\n'] + rest))
    ensures Partial(h.lineBuf + ['\n'] + rest) == Partial(rest)
  {
    SplitLine(h.lineBuf, rest);
    assert ([h.lineBuf] + Complete(rest))[1..] == Complete(rest);
  }

  // ---------------------------------------------------------------------------------------------
  // Whose answer completes a command

  /** A line that hands a result to the waiting command. */
  predicate Completes(line: string) { "#END " <= TrimCr(line) || "#ERR" <= TrimCr(line) }

  predicate NoneCompletes(lines: seq<string>) { forall k :: 0 <= k < |lines| ==> !Completes(lines[k]) }

  function Completions(lines: seq<string>): nat {
    if lines == [] then 0 else (if Completes(lines[0]) then 1 else 0) + Completions(lines[1..])
  }

  lemma {:induction false} CompletionsAppend(a: seq<string>, b: seq<string>)
    ensures Completions(a + b) == Completions(a) + Completions(b)
    decreases |a|
  {
    if a == [] {
      assert a + b == b;
    } else {
      assert (a + b)[1..] == a[1..] + b;
      CompletionsAppend(a[1..], b);
    }
  }

  lemma OneCompletion(h: Collector, line: string)
    requires h.waiting
    ensures var h' := ProcessLine(h, TrimCr(line));
            |h'.answers| == |h.answers| + (if Completes(line) then 1 else 0) && h.answers <= h'.answers
  {
    TagsDiffer(TrimCr(line));
  }

  lemma TagsDiffer(l: string)
    ensures "#END " <= l ==> "#" <= l && !("#EVT " <= l) && !("#BEGIN " <= l)
    ensures "#ERR" <= l ==> "#" <= l && !("#EVT " <= l) && !("#BEGIN " <= l) && !("#END " <= l)
  {
    if "#END " <= l { assert l[0] == '#' && l[1] == 'E' && l[2] == 'N'; }
    if "#ERR" <= l { assert l[0] == '#' && l[1] == 'E' && l[2] == 'R'; }
    if "#EVT " <= l { assert l[2] == 'V'; }
    if "#BEGIN " <= l { assert l[1] == 'B'; }
  }

  lemma {:induction false} AnswersCount(h: Collector, lines: seq<string>)
    requires h.waiting
    ensures var h' := ProcessLines(h, lines);
            |h'.answers| == |h.answers| + Completions(lines) && h.answers <= h'.answers && h'.waiting
    decreases |lines|
  {
    if lines != [] {
      OneCompletion(h, lines[0]);
      AnswersCount(ProcessLine(h, TrimCr(lines[0])), lines[1..]);
    }
  }

  lemma {:induction false} NoCompletions(lines: seq<string>)
    ensures Completions(lines) == 0 <==> NoneCompletes(lines)
  {
    if lines != [] {
      NoCompletions(lines[1..]);
      assert NoneCompletes(lines) ==> NoneCompletes(lines[1..]);
    }
  }

  /** Whatever lines come before a reply, its response is handed over once, after theirs. */
  lemma OwnAnswerPlace(h: Collector, stray: seq<string>, printed: seq<string>, r: Reply)
    requires IsFramed(r) && Denoised(printed) == ReplyLines(r) && h.waiting
    ensures ProcessLines(h, stray + printed).answers == ProcessLines(h, stray).answers + [Expected(r)]
  {
    ProcessAppend(h, stray, printed);
    AnswersCount(h, stray);
    var g := ProcessLines(h, stray);
    NoiseIsIgnored(g, g, printed);
    FrameCompletes(g, r);
  }

  /** A command gets its own answer and nothing else if and only if no line received before that answer
      starts with "#END " or "#ERR". */
  lemma OwnAnswerIff(h: Collector, stray: seq<string>, r: Reply)
    requires IsFramed(r)
    ensures var answers := ProcessLines(Begun(h), stray + ReplyLines(r)).answers;
            && (|answers| == 1 <==> NoneCompletes(stray))
            && (|answers| == 1 ==> answers == [Expected(r)])
  {
    ReplyIsNotNoise(r);
    OwnAnswerPlace(Begun(h), stray, ReplyLines(r), r);
    AnswersCount(Begun(h), stray);
    NoCompletions(stray);
  }

  lemma {:induction false} DenoisedData(data: seq<string>, last: seq<string>)
    requires forall k :: 0 <= k < |data| ==> IsData(data[k])
    ensures Denoised(data + last) == data + Denoised(last)
    decreases |data|
  {
    if data == [] {
      assert data + last == last;
    } else {
      assert (data + last)[1..] == data[1..] + last;
      assert TrimCr(data[0]) == data[0];
      DenoisedData(data[1..], last);
    }
  }

  lemma ReplyIsNotNoise(r: Reply)
    requires IsFramed(r)
    ensures Denoised(ReplyLines(r)) == ReplyLines(r)
  {
    match r
    case Unknown => UnknownIsNotNoise();
    case Block(name, status, data) => BlockIsNotNoise(name, status, data);
  }

  lemma UnknownIsNotNoise()
    ensures Denoised(ReplyLines(Unknown)) == ReplyLines(Unknown)
  {
    UnknownText();
    ErrPrefix(" " + UNKNOWN_REASON);
    assert [ReplyLines(Unknown)[0]][1..] == [];
  }

  lemma BlockIsNotNoise(name: string, status: string, data: seq<string>)
    requires IsFramed(Block(name, status, data))
    ensures Denoised(ReplyLines(Block(name, status, data))) == ReplyLines(Block(name, status, data))
  {
    var first, last := "#BEGIN " + name, "#END " + name + " " + status;
    BeginIsNotNoise(name);
    EndIsNotNoise(name, status);
    assert [last][1..] == [];
    assert Denoised([last]) == [last];
    DenoisedData(data, [last]);
    assert ([first] + (data + [last]))[1..] == data + [last];
    assert ReplyLines(Block(name, status, data)) == [first] + (data + [last]);
  }

  lemma BeginIsNotNoise(name: string)
    requires IsWord(name)
    ensures TrimCr("#BEGIN " + name) == "#BEGIN " + name && !IsNoise("#BEGIN " + name)
  {
    var line := "#BEGIN " + name;
    assert line[|line| - 1] == name[|name| - 1] && !IsWhite(name[|name| - 1]);
    assert line[1] == 'B';
  }

  lemma EndIsNotNoise(name: string, status: string)
    requires IsWord(name) && IsWord(status)
    ensures var line := "#END " + name + " " + status; TrimCr(line) == line && !IsNoise(line)
  {
    var rest := name + " " + status;
    assert rest[|rest| - 1] == status[|status| - 1] && !IsWhite(status[|status| - 1]);
    EndPrefix(rest);
    assert "#END " + name + " " + status == "#END " + rest;
  }

  /** The condition matters: a reply that arrives whole after its command timed out completes the next
      command, and the next command's own reply comes second. */
  lemma WholeLateReply(h: Collector, late: Reply, own: Reply)
    requires IsFramed(late) && IsFramed(own)
    ensures ProcessLines(Begun(h), ReplyLines(late) + ReplyLines(own)).answers == [Expected(late), Expected(own)]
  {
    ProcessAppend(Begun(h), ReplyLines(late), ReplyLines(own));
    FrameCompletes(Begun(h), late);
    FrameCompletes(ProcessLines(Begun(h), ReplyLines(late)), own);
  }

  /** Data lines outside a block are lost to the collector; only the event handler may see them. */
  lemma {:induction false} UncollectedData(h: Collector, data: seq<string>)
    requires h.name == None && forall k :: 0 <= k < |data| ==> IsData(data[k])
    ensures SameButEvents(ProcessLines(h, data), h)
    decreases |data|
  {
    if data != [] {
      assert TrimCr(data[0]) == data[0];
      UncollectedData(ProcessLine(h, data[0]), data[1..]);
    }
  }

  /** A block that is cut by the time-out: its rest completes the next command, with exactly the data lines
      that came before the time-out. */
  lemma CutLateReply(h: Collector, name: string, status: string, before: seq<string>, after: seq<string>)
    requires IsFramed(Block(name, status, before + after)) && h.name == None
    ensures var timedOut := ProcessLines(h, ["#BEGIN " + name] + before);
            ProcessLines(Begun(timedOut), after + ["#END " + name + " " + status]).answers
            == [Response(name, status, before)]
  {
    var data := before + after;
    assert forall k :: 0 <= k < |before| ==> before[k] == data[k];
    assert forall k :: 0 <= k < |after| ==> after[k] == data[|before| + k];
    var first, last := "#BEGIN " + name, "#END " + name + " " + status;
    ProcessAppend(h, [first], before);
    OneLine(h, first);
    BeginLine(h, name);
    var open := h.(name := Some(name), lines := []);
    CollectData(open, before);
    assert [] + before == before;
    var next := Begun(open.(lines := before));
    ProcessAppend(next, after, [last]);
    UncollectedData(next, after);
    OneLine(ProcessLines(next, after), last);
    EndLine(ProcessLines(next, after), name, status);
  }
}
