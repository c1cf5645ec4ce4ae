/**
 A whole session: the panel sends one command after another, the board splits, dispatches and answers
 them, the answers travel in arbitrary chunks, and the panel collects them.  Commands may time out: the
 next one then starts before the reply is in.  Anything may arrive besides: events, text from datagrams,
 late replies, halves of lines.
 */
module Session {
  import opened Words
  import opened NetManager
  import opened SlotMachine
  import opened SerialManager
  import opened CommandChannel
  import opened EndToEnd
  import opened Firmware
  import opened MainLoop

  // command: what the panel sends, before its CR.  env: what the rest of the system does meanwhile.
  // chunks: what arrives from then until the next command starts.  arrives: the whole reply is among it.
  // stray, printed, tail: the lines that are finished before, by and after the reply; without a whole
  // reply they are all stray.
  datatype Exchange = Exchange(command: string, env: Env, extra: nat -> nat, chunks: seq<string>, arrives: bool,
                               stray: seq<string>, printed: seq<string>, tail: seq<string>)

  /** The board's side: the command's bytes go through the main loop, and the line they make is dispatched. */
  function BoardSide(b: Board, x: Exchange): (Board, seq<Output>) {
    DispatchAll(b, LoopFeed(QUIET, x.command + "\r", x.extra).lines, x.env)
  }

  /** What the outputs look like on the wire. */
  function WireLines(outputs: seq<Output>): seq<string> {
    if outputs == [] then [] else PrintedTexts(PrintedLines(outputs[0])) + WireLines(outputs[1..])
  }

  /** The text of an exchange; `pending` is the unfinished line it begins with. */
  function TextOf(pending: string, x: Exchange): string { pending + Concat(x.chunks) }

  /** A reply that arrives has nothing but events and blank lines among its lines. */
  predicate Carried(pending: string, x: Exchange, outputs: seq<Output>) {
    && Complete(TextOf(pending, x)) == x.stray + x.printed + x.tail
    && if x.arrives then Denoised(x.printed) == WireLines(outputs) else x.printed == [] && x.tail == []
  }

  /** Every command reaches the channel. */
  ghost predicate Connected(b: Board, pending: string, xs: seq<Exchange>)
    decreases |xs|
  {
    xs == []
    || (IsCommand(xs[0].command) && MENU_KEY !in xs[0].command && Carried(pending, xs[0], BoardSide(b, xs[0]).1)
        && Connected(BoardSide(b, xs[0]).0, Partial(TextOf(pending, xs[0])), xs[1..]))
  }

  // ---------------------------------------------------------------------------------------------
  // One exchange

  lemma OneDispatch(b: Board, line: string, env: Env)
    ensures DispatchAll(b, [line], env) == (Dispatch(b, line, env).0, [Dispatch(b, line, env).1])
  {
    assert [line][1..] == [];
    assert forall o: Output :: [o] + [] == [o];
  }

  lemma OneWire(o: Output)
    ensures WireLines([o]) == PrintedTexts(PrintedLines(o))
  {
    assert [o][1..] == [];
    assert PrintedTexts(PrintedLines(o)) + [] == PrintedTexts(PrintedLines(o));
  }

  /** The board's side of a command is the dispatch of one line. */
  lemma BoardSideIsOneDispatch(b: Board, x: Exchange)
    requires IsCommand(x.command) && MENU_KEY !in x.command
    ensures var r := Dispatch(b, CString(Cut(x.command)), x.env); BoardSide(b, x) == (r.0, [r.1])
  {
    CommandArrivesIff(x.command, x.extra);
    OneDispatch(b, CString(Cut(x.command)), x.env);
  }

  /** The object's side of an exchange is the model's: board and output of the device after the bytes of a
      command, for every callback that interrupts it. */
  method SendCommand(device: Device, x: Exchange, irq: nat -> seq<Delivery>)
    requires device.Valid() && Inv(device.View()) && device.Pending() == ""
    requires IsCommand(x.command) && MENU_KEY !in x.command
    modifies device, device.cmdLine, device.used, device.reg.listeners
    ensures device.Valid() && Inv(device.View()) && device.Pending() == ""
    ensures var (b, outputs) := BoardSide(old(device.View()), x);
            device.View() == b && device.out == old(device.out) + AllPrinted(outputs)
  {
    BoardSideIsOneDispatch(device.View(), x);
    CommandIsOneLine(x.command);
    OneDispatch(device.View(), CString(Cut(x.command)), x.env);
    assert '\r' != MENU_KEY;
    ghost var evs := device.ReceiveStream(x.command + "\r", x.env, irq);
  }

  /** One of the lines number from..to is the one that hands over the first result. */
  ghost predicate CompletedWithin(h: Collector, lines: seq<string>, from: nat, to: nat)
    requires to <= |lines|
  {
    exists i :: from <= i < to && ProcessLines(h, lines[..i]).answers == [] && ProcessLines(h, lines[..i + 1]).answers != []
  }

  lemma {:induction false} FirstCompletion(lines: seq<string>) returns (i: nat)
    requires Completions(lines) > 0
    ensures i < |lines| && Completions(lines[..i]) == 0 && Completions(lines[..i + 1]) > 0
  {
    if Completes(lines[0]) {
      i := 0;
      assert lines[..1][1..] == [];
    } else {
      i := FirstCompletion(lines[1..]);
      i := i + 1;
      assert lines[..i][1..] == lines[1..][..i - 1] && lines[..i + 1][1..] == lines[1..][..i];
    }
  }

  lemma AnswersInside(h: Collector, stray: seq<string>, printed: seq<string>, tail: seq<string>, i: nat)
    requires h.waiting && h.answers == [] && i <= |printed|
    ensures |ProcessLines(h, (stray + printed + tail)[..|stray| + i]).answers| == Completions(stray) + Completions(printed[..i])
  {
    assert (stray + printed + tail)[..|stray| + i] == stray + printed[..i];
    AnswersCount(h, stray + printed[..i]);
    CompletionsAppend(stray, printed[..i]);
  }

  lemma PrintedCompletes(h: Collector, stray: seq<string>, printed: seq<string>, tail: seq<string>)
    requires h.waiting && h.answers == [] && Completions(printed) > 0 && Completions(stray) == 0
    ensures CompletedWithin(h, stray + printed + tail, |stray|, |stray| + |printed|)
  {
    var i := FirstCompletion(printed);
    AnswersInside(h, stray, printed, tail, i);
    AnswersInside(h, stray, printed, tail, i + 1);
    assert |stray| + i + 1 == |stray| + (i + 1);
  }

  lemma StrayCompletes(h: Collector, stray: seq<string>, rest: seq<string>, i: nat)
    requires h.waiting && h.answers == [] && Completions(stray) > 0 && |stray| <= i <= |stray + rest|
    ensures ProcessLines(h, (stray + rest)[..i]).answers != []
  {
    var lines := stray + rest;
    AnswersCount(h, lines[..i]);
    assert lines[..i] == stray + rest[..i - |stray|];
    CompletionsAppend(stray, rest[..i - |stray|]);
  }

  lemma StrayComesFirst(h: Collector, stray: seq<string>, printed: seq<string>, tail: seq<string>)
    requires h.waiting && h.answers == [] && Completions(stray) > 0
    ensures !CompletedWithin(h, stray + printed + tail, |stray|, |stray| + |printed|)
  {
    var lines := stray + printed + tail;
    assert lines == stray + (printed + tail);
    forall i | |stray| <= i < |stray| + |printed|
      ensures ProcessLines(h, lines[..i]).answers != []
    {
      StrayCompletes(h, stray, printed + tail, i);
    }
  }

  /** The response a command gets comes from its own reply if and only if no line before the reply hands
      over a result; and then it is what the board printed. */
  lemma OwnReplyIff(h: Collector, stray: seq<string>, printed: seq<string>, tail: seq<string>, r: Reply)
    requires IsFramed(r) && Denoised(printed) == ReplyLines(r) && h.waiting && h.answers == []
    ensures var lines := stray + printed + tail;
            && (CompletedWithin(h, lines, |stray|, |stray| + |printed|) <==> NoneCompletes(stray))
            && (NoneCompletes(stray) ==> [Expected(r)] <= ProcessLines(h, lines).answers)
  {
    OwnReplyCounts(h, stray, printed, tail, r);
    NoCompletions(stray);
    if NoneCompletes(stray) {
      PrintedCompletes(h, stray, printed, tail);
    } else {
      StrayComesFirst(h, stray, printed, tail);
    }
  }

  lemma OwnReplyCounts(h: Collector, stray: seq<string>, printed: seq<string>, tail: seq<string>, r: Reply)
    requires IsFramed(r) && Denoised(printed) == ReplyLines(r) && h.waiting && h.answers == []
    ensures Completions(printed) == 1
    ensures NoneCompletes(stray) ==> [Expected(r)] <= ProcessLines(h, stray + printed + tail).answers
  {
    OwnAnswerPlace(h, stray, printed, r);
    ProcessAppend(h, stray + printed, tail);
    AnswersCount(h, stray);
    AnswersCount(h, stray + printed);
    AnswersCount(ProcessLines(h, stray + printed), tail);
    CompletionsAppend(stray, printed);
    NoCompletions(stray);
  }

  // ---------------------------------------------------------------------------------------------
  // Every command of every session

  /** The board when command k is dispatched, whether or not the ones before were answered in time. */
  function BoardAt(b: Board, xs: seq<Exchange>, k: nat): Board
    requires k <= |xs|
    decreases |xs|
  {
    if k == 0 then b else BoardAt(BoardSide(b, xs[0]).0, xs[1..], k - 1)
  }

  /** The collector when command k begins to wait. */
  function PanelAt(h: Collector, xs: seq<Exchange>, k: nat): Collector
    requires k <= |xs|
    decreases |xs|
  {
    if k == 0 then Begun(h) else PanelAt(FeedChunks(Begun(h), xs[0].chunks), xs[1..], k - 1)
  }

  /** The results handed to a command; the first one is its response. */
  function Results(g: Collector, x: Exchange): seq<Response> { FeedChunks(g, x.chunks).answers }

  /** The response of the command that waits in g comes from a line of its own reply. */
  ghost predicate OwnReplyCompletes(g: Collector, x: Exchange) {
    var lines := Complete(TextOf(g.lineBuf, x));
    && |x.stray| + |x.printed| <= |lines|
    && CompletedWithin(g.(lineBuf := ""), lines, |x.stray|, |x.stray| + |x.printed|)
  }

  lemma FedIsProcessed(g: Collector, x: Exchange)
    requires '\n' !in g.lineBuf
    ensures var g' := FeedChunks(g, x.chunks);
            && g' == ProcessLines(g.(lineBuf := ""), Complete(TextOf(g.lineBuf, x))).(lineBuf := Partial(TextOf(g.lineBuf, x)))
            && '\n' !in g'.lineBuf
  {
    ChunkingIsIrrelevant(g, x.chunks);
    FeedIsSplit(g, Concat(x.chunks));
    PartialIsPartial(TextOf(g.lineBuf, x));
  }

  /** What the handler of the command of x prints on board b. */
  function AnswerOn(b: Board, x: Exchange): Output { Dispatch(b, CString(Cut(x.command)), x.env).1 }

  lemma BoardStep(b: Board, x: Exchange)
    requires Inv(b) && IsCommand(x.command) && MENU_KEY !in x.command
    ensures Inv(BoardSide(b, x).0) && IsFramed(ReplyOf(AnswerOn(b, x)))
    ensures WireLines(BoardSide(b, x).1) == ReplyLines(ReplyOf(AnswerOn(b, x)))
  {
    var line := CString(Cut(x.command));
    BoardSideIsOneDispatch(b, x);
    OneWire(AnswerOn(b, x));
    EveryReplyIsFramed(b, line, x.env);
    OutputIsReply(AnswerOn(b, x));
    DispatchKeepsInv(b, line, x.env);
  }

  lemma OneExchange(b: Board, g: Collector, x: Exchange)
    requires Ready(b, g, x)
    ensures OwnReplyCompletes(g, x) <==> x.arrives && NoneCompletes(x.stray)
    ensures OwnReplyCompletes(g, x) ==> [Expected(ReplyOf(AnswerOn(b, x)))] <= Results(g, x)
  {
    BoardStep(b, x);
    FedIsProcessed(g, x);
    if x.arrives {
      OwnReplyIff(g.(lineBuf := ""), x.stray, x.printed, x.tail, ReplyOf(AnswerOn(b, x)));
    }
  }

  /** Command x can be followed from board b and collector g on. */
  ghost predicate Ready(b: Board, g: Collector, x: Exchange) {
    && Inv(b) && '\n' !in g.lineBuf && g.waiting && g.answers == []
    && IsCommand(x.command) && MENU_KEY !in x.command && Carried(g.lineBuf, x, BoardSide(b, x).1)
  }

  lemma ConnectedStep(b: Board, h: Collector, xs: seq<Exchange>) returns (b': Board, h': Collector)
    requires Inv(b) && '\n' !in h.lineBuf && Connected(b, h.lineBuf, xs) && xs != []
    ensures b' == BoardSide(b, xs[0]).0 && h' == FeedChunks(Begun(h), xs[0].chunks)
    ensures Inv(b') && '\n' !in h'.lineBuf && Connected(b', h'.lineBuf, xs[1..])
  {
    b', h' := BoardSide(b, xs[0]).0, FeedChunks(Begun(h), xs[0].chunks);
    BoardStep(b, xs[0]);
    FedIsProcessed(Begun(h), xs[0]);
  }

  lemma FirstIsReady(b: Board, h: Collector, xs: seq<Exchange>)
    requires Inv(b) && '\n' !in h.lineBuf && Connected(b, h.lineBuf, xs) && xs != []
    ensures Ready(b, Begun(h), xs[0]) && BoardAt(b, xs, 0) == b && PanelAt(h, xs, 0) == Begun(h)
  {
  }

  lemma AtStep(b: Board, h: Collector, xs: seq<Exchange>, k: nat)
    requires 0 < k < |xs|
    ensures BoardAt(b, xs, k) == BoardAt(BoardSide(b, xs[0]).0, xs[1..], k - 1)
    ensures PanelAt(h, xs, k) == PanelAt(FeedChunks(Begun(h), xs[0].chunks), xs[1..], k - 1)
    ensures xs[1..][k - 1] == xs[k]
  {
  }

  lemma {:induction false} ReachedState(b: Board, h: Collector, xs: seq<Exchange>, k: nat) returns (bk: Board, g: Collector)
    requires Inv(b) && '\n' !in h.lineBuf && Connected(b, h.lineBuf, xs) && k < |xs|
    ensures bk == BoardAt(b, xs, k) && g == PanelAt(h, xs, k) && Ready(bk, g, xs[k])
    decreases |xs|
  {
    if k == 0 {
      FirstIsReady(b, h, xs);
      return b, Begun(h);
    }
    var b', h' := ConnectedStep(b, h, xs);
    bk, g := ReachedState(b', h', xs[1..], k - 1);
    AtStep(b, h, xs, k);
  }

  /** For every session and every command k of it, whatever became of the others: the command is completed
      by its own reply if and only if that reply arrives before the next command and no line before it
      starts with "#END " or "#ERR"; and then its response is what its handler printed on the board that
      all earlier commands left, those that timed out included. */
  lemma EveryCommandGetsItsAnswer(b: Board, h: Collector, xs: seq<Exchange>, k: nat)
    requires Inv(b) && '\n' !in h.lineBuf && Connected(b, h.lineBuf, xs) && k < |xs|
    ensures var bk, g := BoardAt(b, xs, k), PanelAt(h, xs, k);
            && (OwnReplyCompletes(g, xs[k]) <==> xs[k].arrives && NoneCompletes(xs[k].stray))
            && (OwnReplyCompletes(g, xs[k]) ==> [Expected(ReplyOf(AnswerOn(bk, xs[k])))] <= Results(g, xs[k]))
  {
    var bk, g := ReachedState(b, h, xs, k);
    OneExchange(bk, g, xs[k]);
  }

  // ---------------------------------------------------------------------------------------------
  // Results come in the order of the replies

  /** The name and the status of a response, which its last line alone decides. */
  datatype Verdict = Verdict(name: string, status: string)

  function VerdictOf(r: Response): Verdict { Verdict(r.name, r.status) }

  function Verdicts(rs: seq<Response>): seq<Verdict> { seq(|rs|, k requires 0 <= k < |rs| => VerdictOf(rs[k])) }

  const NOBODY := Collector("", None, [], true, [], [])

  /** The verdicts that one line hands over to somebody waiting. */
  function LineVerdicts(line: string): seq<Verdict> { Verdicts(ProcessLine(NOBODY, TrimCr(line)).answers) }

  /** The verdicts that lines hand over, read without any memory of what came before. */
  function VerdictsIn(lines: seq<string>): seq<Verdict>
    decreases |lines|
  {
    if lines == [] then [] else LineVerdicts(lines[0]) + VerdictsIn(lines[1..])
  }

  lemma LineVerdict(h: Collector, line: string)
    requires h.waiting
    ensures Verdicts(ProcessLine(h, line).answers) == Verdicts(h.answers) + Verdicts(ProcessLine(NOBODY, line).answers)
    ensures ProcessLine(h, line).waiting
  {
  }

  lemma {:induction false} VerdictsAre(h: Collector, lines: seq<string>)
    requires h.waiting
    ensures Verdicts(ProcessLines(h, lines).answers) == Verdicts(h.answers) + VerdictsIn(lines)
    decreases |lines|
  {
    if lines != [] {
      LineVerdict(h, TrimCr(lines[0]));
      VerdictsAre(ProcessLine(h, TrimCr(lines[0])), lines[1..]);
    }
  }

  lemma {:induction false} VerdictsAppend(a: seq<string>, b: seq<string>)
    ensures VerdictsIn(a + b) == VerdictsIn(a) + VerdictsIn(b)
    decreases |a|
  {
    if a == [] {
      assert a + b == b;
    } else {
      assert (a + b)[1..] == a[1..] + b;
      VerdictsAppend(a[1..], b);
    }
  }

  /** All lines of a session, and all results handed to its commands, in order. */
  function AllLines(pending: string, xs: seq<Exchange>): seq<string>
    decreases |xs|
  {
    if xs == [] then []
    else Complete(TextOf(pending, xs[0])) + AllLines(Partial(TextOf(pending, xs[0])), xs[1..])
  }

  function AllResults(h: Collector, xs: seq<Exchange>): seq<Response>
    decreases |xs|
  {
    if xs == [] then []
    else Results(Begun(h), xs[0]) + AllResults(FeedChunks(Begun(h), xs[0].chunks), xs[1..])
  }

  /** All outputs of the board, in order. */
  function AllOutputs(b: Board, xs: seq<Exchange>): seq<Output>
    decreases |xs|
  {
    if xs == [] then [] else BoardSide(b, xs[0]).1 + AllOutputs(BoardSide(b, xs[0]).0, xs[1..])
  }

  lemma VerdictsJoin(a: seq<Response>, b: seq<Response>)
    ensures Verdicts(a + b) == Verdicts(a) + Verdicts(b)
  {
  }

  /** However commands and time-outs cut the stream, the results handed out are those of its lines. */
  lemma {:induction false} ResultsOfLines(h: Collector, xs: seq<Exchange>)
    requires '\n' !in h.lineBuf
    ensures Verdicts(AllResults(h, xs)) == VerdictsIn(AllLines(h.lineBuf, xs))
    decreases |xs|
  {
    if xs != [] {
      var g, lines := Begun(h), Complete(TextOf(h.lineBuf, xs[0]));
      var h' := FeedChunks(g, xs[0].chunks);
      FedIsProcessed(g, xs[0]);
      VerdictsAre(g.(lineBuf := ""), lines);
      ResultsOfLines(h', xs[1..]);
      VerdictsAppend(lines, AllLines(h'.lineBuf, xs[1..]));
      VerdictsJoin(Results(g, xs[0]), AllResults(h', xs[1..]));
    }
  }

  lemma NoiseLine(line: string)
    ensures IsNoise(line) ==> LineVerdicts(line) == []
    ensures LineVerdicts(TrimCr(line)) == LineVerdicts(line)
  {
    TrimCrTwice(line);
    assert Verdicts(NOBODY.answers) == [];
  }

  lemma VerdictsCons(line: string, rest: seq<string>)
    ensures VerdictsIn([line] + rest) == LineVerdicts(line) + VerdictsIn(rest)
  {
    assert ([line] + rest)[1..] == rest;
  }

  lemma {:induction false} NoiseHasNoVerdict(lines: seq<string>)
    ensures VerdictsIn(lines) == VerdictsIn(Denoised(lines))
    decreases |lines|
  {
    if lines != [] {
      var line, rest := lines[0], lines[1..];
      NoiseHasNoVerdict(rest);
      NoiseLine(line);
      VerdictsCons(line, rest);
      VerdictsCons(TrimCr(line), Denoised(rest));
      assert lines == [line] + rest;
      assert Denoised(lines) == if IsNoise(line) then Denoised(rest) else [TrimCr(line)] + Denoised(rest);
    }
  }

  lemma ReplyVerdict(r: Reply)
    requires IsFramed(r)
    ensures VerdictsIn(ReplyLines(r)) == [VerdictOf(Expected(r))]
  {
    FrameCompletes(NOBODY, r);
    VerdictsAre(NOBODY, ReplyLines(r));
    var none: seq<Response> := [];
    assert none + [Expected(r)] == [Expected(r)];
    assert Verdicts(none) == [] && Verdicts([Expected(r)]) == [VerdictOf(Expected(r))];
  }

  // ---------------------------------------------------------------------------------------------
  // When replies come late

  predicate AllSent(xs: seq<Exchange>) { forall k :: 0 <= k < |xs| ==> IsCommand(xs[k].command) && MENU_KEY !in xs[k].command }

  /** The line carries the board's replies in order, and no more than that among events and blank lines; the
      last ones may still be on their way, and commands may start anywhere in between. */
  predicate Delivered(b: Board, pending: string, xs: seq<Exchange>) {
    Denoised(AllLines(pending, xs)) <= WireLines(AllOutputs(b, xs))
  }

  /** What each command's handler prints. */
  function Replies(b: Board, xs: seq<Exchange>): seq<Verdict>
    decreases |xs|
  {
    if xs == [] then []
    else [VerdictOf(Expected(ReplyOf(AnswerOn(b, xs[0]))))] + Replies(BoardSide(b, xs[0]).0, xs[1..])
  }

  lemma {:induction false} WireAppend(a: seq<Output>, b: seq<Output>)
    ensures WireLines(a + b) == WireLines(a) + WireLines(b)
    decreases |a|
  {
    if a == [] {
      assert a + b == b;
    } else {
      assert (a + b)[1..] == a[1..] + b;
      WireAppend(a[1..], b);
    }
  }

  lemma {:induction false} RepliesOnTheWire(b: Board, xs: seq<Exchange>)
    requires Inv(b) && AllSent(xs)
    ensures VerdictsIn(WireLines(AllOutputs(b, xs))) == Replies(b, xs)
    decreases |xs|
  {
    if xs != [] {
      var (b', outputs) := BoardSide(b, xs[0]);
      BoardStep(b, xs[0]);
      RestSent(xs);
      RepliesOnTheWire(b', xs[1..]);
      WireAppend(outputs, AllOutputs(b', xs[1..]));
      VerdictsAppend(WireLines(outputs), WireLines(AllOutputs(b', xs[1..])));
      ReplyVerdict(ReplyOf(AnswerOn(b, xs[0])));
    }
  }

  lemma RestSent(xs: seq<Exchange>)
    requires xs != [] && AllSent(xs)
    ensures AllSent(xs[1..]) && IsCommand(xs[0].command) && MENU_KEY !in xs[0].command
  {
  }

  lemma VerdictsOfPrefix(a: seq<string>, b: seq<string>)
    requires a <= b
    ensures VerdictsIn(a) <= VerdictsIn(b)
  {
    assert b == a + b[|a|..];
    VerdictsAppend(a, b[|a|..]);
  }

  /** Whenever commands start and time out, results are handed out in the order of the replies: the i-th
      result of the session has the name and status of the i-th reply. */
  lemma ResultsComeInOrder(b: Board, h: Collector, xs: seq<Exchange>)
    requires Inv(b) && '\n' !in h.lineBuf && AllSent(xs) && Delivered(b, h.lineBuf, xs)
    ensures Verdicts(AllResults(h, xs)) <= Replies(b, xs)
  {
    ResultsOfLines(h, xs);
    NoiseHasNoVerdict(AllLines(h.lineBuf, xs));
    VerdictsOfPrefix(Denoised(AllLines(h.lineBuf, xs)), WireLines(AllOutputs(b, xs)));
    RepliesOnTheWire(b, xs);
  }

  /** The number of results handed out before command k starts. */
  function HandedBefore(h: Collector, xs: seq<Exchange>, k: nat): nat
    requires k <= |xs|
    decreases |xs|
  {
    if k == 0 then 0
    else |Results(Begun(h), xs[0])| + HandedBefore(FeedChunks(Begun(h), xs[0].chunks), xs[1..], k - 1)
  }

  lemma {:induction false} ResultsAt(h: Collector, xs: seq<Exchange>, k: nat)
    requires k < |xs|
    ensures var m, rs := HandedBefore(h, xs, k), Results(PanelAt(h, xs, k), xs[k]);
            m + |rs| <= |AllResults(h, xs)| && AllResults(h, xs)[m..m + |rs|] == rs
    decreases |xs|
  {
    var first, rest := Results(Begun(h), xs[0]), AllResults(FeedChunks(Begun(h), xs[0].chunks), xs[1..]);
    assert AllResults(h, xs) == first + rest;
    if k > 0 {
      ResultsAt(FeedChunks(Begun(h), xs[0].chunks), xs[1..], k - 1);
      var m, rs := HandedBefore(h, xs, k), Results(PanelAt(h, xs, k), xs[k]);
      assert (first + rest)[m..m + |rs|] == rest[m - |first|..m - |first| + |rs|];
    }
  }

  lemma {:induction false} ReplyAt(b: Board, xs: seq<Exchange>, k: nat)
    requires k < |xs|
    ensures |Replies(b, xs)| == |xs| && Replies(b, xs)[k] == VerdictOf(Expected(ReplyOf(AnswerOn(BoardAt(b, xs, k), xs[k]))))
    decreases |xs|
  {
    if |xs| > 1 {
      ReplyAt(BoardSide(b, xs[0]).0, xs[1..], if k > 0 then k - 1 else 0);
    }
  }

  /** The response of command k is the reply to command number HandedBefore(k), which is the reply to k
      itself exactly when as many results as commands have been handed out before. */
  lemma ResponseIsReplyTo(b: Board, h: Collector, xs: seq<Exchange>, k: nat)
    requires Inv(b) && '\n' !in h.lineBuf && AllSent(xs) && Delivered(b, h.lineBuf, xs) && k < |xs|
    requires Results(PanelAt(h, xs, k), xs[k]) != []
    ensures var m := HandedBefore(h, xs, k);
            && m < |xs|
            && VerdictOf(Results(PanelAt(h, xs, k), xs[k])[0]) == VerdictOf(Expected(ReplyOf(AnswerOn(BoardAt(b, xs, m), xs[m]))))
  {
    var m, rs := HandedBefore(h, xs, k), Results(PanelAt(h, xs, k), xs[k]);
    ResultsComeInOrder(b, h, xs);
    ResultsAt(h, xs, k);
    var all := AllResults(h, xs);
    assert all[m] == all[m..m + |rs|][0];
    assert Verdicts(all)[m] == VerdictOf(rs[0]);
    ReplyAt(b, xs, 0);
    ReplyAt(b, xs, m);
  }

  lemma {:induction false} HandedUpTo(h: Collector, xs: seq<Exchange>, k: nat)
    requires k < |xs|
    ensures HandedBefore(h, xs, k + 1) == HandedBefore(h, xs, k) + |Results(PanelAt(h, xs, k), xs[k])|
    decreases |xs|
  {
    if k > 0 {
      HandedUpTo(FeedChunks(Begun(h), xs[0].chunks), xs[1..], k - 1);
    }
  }

  /** One result for each of the first k commands, except none for command i. */
  ghost predicate OneTimedOut(h: Collector, xs: seq<Exchange>, i: nat, k: nat)
    requires k <= |xs|
  {
    forall j :: 0 <= j < k ==> |Results(PanelAt(h, xs, j), xs[j])| == if j == i then 0 else 1
  }

  lemma {:induction false} OneBehind(h: Collector, xs: seq<Exchange>, i: nat, k: nat)
    requires k <= |xs| && OneTimedOut(h, xs, i, k)
    ensures HandedBefore(h, xs, k) == if k <= i then k else k - 1
    decreases k
  {
    if k > 0 {
      OneBehind(h, xs, i, k - 1);
      HandedUpTo(h, xs, k - 1);
    }
  }

  /** One time-out shifts all answers: after it, every command that gets a response gets the reply to the
      command before it, until some command is handed no result or two. */
  lemma AnswersShift(b: Board, h: Collector, xs: seq<Exchange>, i: nat, k: nat)
    requires Inv(b) && '\n' !in h.lineBuf && AllSent(xs) && Delivered(b, h.lineBuf, xs) && i < k < |xs|
    requires OneTimedOut(h, xs, i, k) && Results(PanelAt(h, xs, k), xs[k]) != []
    ensures VerdictOf(Results(PanelAt(h, xs, k), xs[k])[0])
            == VerdictOf(Expected(ReplyOf(AnswerOn(BoardAt(b, xs, k - 1), xs[k - 1]))))
  {
    OneBehind(h, xs, i, k);
    ResponseIsReplyTo(b, h, xs, k);
  }

  /** A reply that missed its exchange and arrives whole in the next one is, data lines included, the
      response of the next command; so with every command that starts before the last reply is in. */
  lemma MissedReplyIsNext(b: Board, h: Collector, xs: seq<Exchange>, k: nat, late: seq<string>)
    requires Inv(b) && '\n' !in h.lineBuf && Connected(b, h.lineBuf, xs) && k + 1 < |xs|
    requires Denoised(late) == WireLines(BoardSide(BoardAt(b, xs, k), xs[k]).1) && late <= xs[k + 1].stray
    ensures [Expected(ReplyOf(AnswerOn(BoardAt(b, xs, k), xs[k])))] <= Results(PanelAt(h, xs, k + 1), xs[k + 1])
    ensures !OwnReplyCompletes(PanelAt(h, xs, k + 1), xs[k + 1])
  {
    var bk, before := ReachedState(b, h, xs, k);
    var next, g := ReachedState(b, h, xs, k + 1);
    BoardStep(bk, xs[k]);
    LateReplyFirst(g, xs[k + 1], late, ReplyOf(AnswerOn(bk, xs[k])));
    EveryCommandGetsItsAnswer(b, h, xs, k + 1);
  }

  lemma LateReplyFirst(g: Collector, x: Exchange, late: seq<string>, r: Reply)
    requires IsFramed(r) && Denoised(late) == ReplyLines(r) && late <= x.stray
    requires '\n' !in g.lineBuf && g.waiting && g.answers == []
    requires Complete(TextOf(g.lineBuf, x)) == x.stray + x.printed + x.tail
    ensures [Expected(r)] <= Results(g, x) && !NoneCompletes(x.stray)
  {
    var g0, lines := g.(lineBuf := ""), Complete(TextOf(g.lineBuf, x));
    FedIsProcessed(g, x);
    assert [] + late == late;
    OwnAnswerPlace(g0, [], late, r);
    assert lines == late + lines[|late|..];
    ProcessAppend(g0, late, lines[|late|..]);
    AnswersCount(g0, late);
    AnswersCount(ProcessLines(g0, late), lines[|late|..]);
    NoCompletions(late);
    var j :| 0 <= j < |late| && Completes(late[j]);
    assert x.stray[j] == late[j];
  }
}
