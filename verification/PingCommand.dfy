/**
 One ping from the wire to the panel: the outcome that the PING handler prints is what the driver observed,
 and what the panel reads from the printed line is the packet that answered the request.
 */
module PingCommand {
  import opened Words
  import opened Text
  import opened Protocol
  import opened Listing
  import NM = NetManager
  import opened SerialManager
  import opened CommandChannel
  import opened EndToEnd
  import opened PanelActions
  import opened Answers
  import opened Firmware
  import PM = PingMachine
  import opened Ping

  /** What cmd_ping makes of a result. */
  function OutcomeOf(r: PM.Result): PingOutcome { Replied(r.from, r.seqno, r.dataLen, r.rttMs, r.ttl) }

  /** ping_send and ping_wait_reply as cmd_ping calls them; None while the wait goes on. */
  method Attempt(driver: Driver, ready: bool, ok: bool, building: seq<Happening>, failing: seq<Happening>,
                 timeoutMs: Word32, polls: seq<Poll>, expiring: seq<Happening>)
    returns (o: Option<PingOutcome>, ghost sending: seq<PM.Event>, ghost waiting: seq<PM.Event>)
    requires driver.pc.Idle?
    modifies driver
    ensures driver.View() == PM.Run(old(driver.View()), sending + waiting)
    ensures o.None? <==> !driver.pc.Idle?
    ensures o == Some(SendFailed) <==> !(ready && ok)
    ensures o == Some(PingOutcome.TimedOut) ==> LastObs(PM.Run(old(driver.View()), sending), waiting) == PM.TimedOut
    ensures o.Some? && o.value.Replied? ==>
              exists r :: LastObs(PM.Run(old(driver.View()), sending), waiting) == PM.Reported(r) && o.value == OutcomeOf(r)
  {
    ghost var origin := driver.View();
    var sent;
    sent, sending := driver.PingSend(ready, ok, building, failing);
    waiting := [];
    if !sent {
      assert sending + waiting == sending;
      return Some(SendFailed), sending, waiting;
    }
    var w;
    ghost var samples;
    w, waiting, samples := driver.PingWaitReply(timeoutMs, polls, expiring);
    RunJoin(origin, sending, waiting);
    match w
    case Pending => return None, sending, waiting;
    case Timeout => return Some(PingOutcome.TimedOut), sending, waiting;
    case Success(r) => return Some(OutcomeOf(r)), sending, waiting;
  }

  lemma {:induction false} RunJoin(s: PM.State, a: seq<PM.Event>, b: seq<PM.Event>)
    ensures PM.Run(s, a + b) == PM.Run(PM.Run(s, a), b)
    decreases |b|
  {
    if b == [] {
      assert a + b == a;
    } else {
      var front, ev := b[..|b| - 1], b[|b| - 1];
      RunJoin(s, a, front);
      assert a + b == (a + front) + [ev] && b == front + [ev];
      RunSnoc(s, a + front, ev);
      RunSnoc(PM.Run(s, a), front, ev);
    }
  }

  /** What the panel should show for a packet heard at position d as the answer to a request sent at l. */
  ghost predicate Describes(reply: PingReply, t: seq<PM.Obs>, l: int, d: int) {
    && PM.FirstReply(t, l, d) && t[l].at <= t[d].at
    && var p := t[d].p;
    && reply.success && AddressOf(reply.from) == Some(p.from) && reply.seqno == p.seqno && reply.ttl == p.ttl
    && reply.bytes == (p.totalLen - p.ipHeader - 8) % 0x1_0000
    && (t[d].at - t[l].at < 0x1_0000_0000 ==> reply.rttMs == (t[d].at - t[l].at) / 9375)
  }

  ghost predicate IsDescribed(reply: PingReply, t: seq<PM.Obs>) {
    exists l, d :: PM.FirstReply(t, l, d) && Describes(reply, t, l, d)
  }

  lemma ReadIsDescribed(reply: PingReply, r: PM.Result, t: seq<PM.Obs>, l: int, d: int)
    requires PM.IsReplyOf(r, t, l, d) && r.rttMs <= 458129 && Reads(reply, OutcomeOf(r))
    ensures Describes(reply, t, l, d)
  {
  }

  /** In every run: when a wait reports a result, the lines printed for it are read by the panel as the
      sender, sequence number, data length, time-to-live and round trip of the first packet that answers
      the latest request since it was sent. */
  lemma PanelReadsTheReply(clock: nat, evs: seq<PM.Event>, r: PM.Result) returns (l: int, d: int)
    requires LastObs(PM.Boot(clock), evs) == PM.Reported(r)
    ensures Describes(PingReplyOf(Texts(PingLines(OutcomeOf(r)))), PM.Trace(PM.Boot(clock), evs[..|evs| - 1]), l, d)
  {
    var front := evs[..|evs| - 1];
    l, d := PM.ReportedIsTheReply(clock, front);
    PingLinesRead(OutcomeOf(r));
    ReadIsDescribed(PingReplyOf(Texts(PingLines(OutcomeOf(r)))), r, PM.Trace(PM.Boot(clock), front), l, d);
  }

  /** What the panel may conclude from the answer to PING after a run of the driver whose outcome is o:
      nothing was sent, nothing came, or the packet described. */
  ghost predicate TellsOutcome(answer: Output, o: PingOutcome, clock: nat, evs: seq<PM.Event>) {
    match o
    case SendFailed => answer == Frame("PING", "ERR:send_failed", [])
    case TimedOut =>
      && answer.Frame? && answer.name == "PING" && answer.status == "OK" && !PingReplyOf(Texts(answer.data)).success
      && LastObs(PM.Boot(clock), evs) == PM.TimedOut
    case Replied(_, _, _, _, _) =>
      && answer.Frame? && answer.name == "PING" && answer.status == "OK" && evs != []
      && IsDescribed(PingReplyOf(Texts(answer.data)), PM.Trace(PM.Boot(clock), evs[..|evs| - 1]))
  }

  lemma OutcomeIsTold(o: PingOutcome, clock: nat, evs: seq<PM.Event>)
    requires o.TimedOut? ==> LastObs(PM.Boot(clock), evs) == PM.TimedOut
    requires o.Replied? ==> exists r :: LastObs(PM.Boot(clock), evs) == PM.Reported(r) && o == OutcomeOf(r)
    ensures TellsOutcome(Frame("PING", if o.SendFailed? then "ERR:send_failed" else "OK", PingLines(o)), o, clock, evs)
  {
    if o.TimedOut? {
      PingLinesRead(o);
    } else if o.Replied? {
      var r :| LastObs(PM.Boot(clock), evs) == PM.Reported(r) && o == OutcomeOf(r);
      var l, d := PanelReadsTheReply(clock, evs, r);
    }
  }

  /** The PING command: the driver sends and waits, and the handler answers with what it observed. */
  method PingOnce(device: Device, driver: Driver, idx: nat, ip: string, env: Env,
                  ready: bool, ok: bool, building: seq<Happening>, failing: seq<Happening>,
                  timeoutMs: Word32, polls: seq<Poll>, expiring: seq<Happening>, ghost clock: nat, ghost past: seq<PM.Event>)
    returns (o: Option<PingOutcome>, ghost evs: seq<PM.Event>, ghost answer: Output)
    requires device.Valid() && NM.Inv(device.View()) && Listed(device.View(), idx)
    requires IsArgument(ip, 15) && env.aton(ip).Some?
    requires driver.pc.Idle? && driver.View() == PM.Run(PM.Boot(clock), past)
    modifies device`out, driver
    ensures device.Valid() && device.View() == old(device.View())
    ensures driver.View() == PM.Run(PM.Boot(clock), evs) && past <= evs
    ensures o == Some(SendFailed) <==> !(ready && ok)
    ensures o.Some? ==>
              device.out == old(device.out) + PrintedLines(answer) && TellsOutcome(answer, o.value, clock, evs)
    ensures o.None? ==> !driver.pc.Idle? && device.out == old(device.out)
  {
    ghost var sending, waiting;
    o, sending, waiting := Attempt(driver, ready, ok, building, failing, timeoutMs, polls, expiring);
    evs := past + sending + waiting;
    RunJoin(PM.Boot(clock), past, sending + waiting);
    assert evs == past + (sending + waiting);
    answer := NoSuchCommand;
    if o.Some? {
      var told := env.(ping := o.value);
      var args := SignedDec(idx) + (" " + ip);
      PingPrefix(device.View(), args, told);
      device.HandlePing(args, told);
      answer := Dispatch(device.View(), PingText(idx, ip), told).1;
      LastObsJoin(PM.Boot(clock), past, sending, waiting);
      PanelPingLines(device.View(), idx, ip, told);
      OutcomeIsTold(o.value, clock, evs);
    }
  }

  lemma LastObsJoin(s: PM.State, past: seq<PM.Event>, a: seq<PM.Event>, c: seq<PM.Event>)
    ensures c != [] ==> LastObs(s, past + a + c) == LastObs(PM.Run(PM.Run(s, past), a), c)
  {
    if c != [] {
      RunJoin(s, past + a, c[..|c| - 1]);
      RunJoin(s, past, a);
      assert (past + a + c)[..|past + a + c| - 1] == past + a + c[..|c| - 1];
    }
  }

  /** ... and this is what the waiting command of the panel is completed with, through events and chunks. */
  lemma PingEndToEnd(b: NM.Board, idx: nat, ip: string, env: Env, clock: nat, evs: seq<PM.Event>, r: PM.Result,
                     h: Collector, printed: seq<string>, chunks: seq<string>) returns (l: int, d: int)
    requires NM.Inv(b) && Listed(b, idx) && IsArgument(ip, 15) && env.aton(ip).Some?
    requires LastObs(PM.Boot(clock), evs) == PM.Reported(r) && env.ping == OutcomeOf(r)
    requires h.waiting && h.lineBuf == "" && h.answers == []
    requires Denoised(printed) == PrintedTexts(PrintedLines(Dispatch(b, PingText(idx, ip), env).1))
    requires forall k :: 0 <= k < |printed| ==> '\n' !in printed[k]
    requires Concat(chunks) == Render(printed)
    ensures var answers := FeedChunks(h, chunks).answers;
            && |answers| == 1 && answers[0].status == "OK"
            && Describes(PingReplyOf(answers[0].data), PM.Trace(PM.Boot(clock), evs[..|evs| - 1]), l, d)
  {
    EveryLineIsAnsweredOnce(b, PingText(idx, ip), env, h, printed, chunks);
    PanelPingLines(b, idx, ip, env);
    l, d := PanelReadsTheReply(clock, evs, r);
  }
}
