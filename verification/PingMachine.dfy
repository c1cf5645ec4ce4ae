/**
 The ping state under interrupts: one outstanding echo request, a 16-bit sequence number, and a reply
 slot filled by the receive callback.  The message format is the Echo or Echo Reply Message of
 RFC 792.  The main loop advances one indivisible step at a time; the callback and the clock may run
 between any two steps; a wait follows each successful send.
 */
module PingMachine {
  import opened Words
  import opened Clock

  const PING_ID: Word16 := 0xAFAF
  const ECHO_REPLY: Byte := 0
  const ECHO_HEADER: nat := 8

  // headerHidden: pbuf_header could step over the IP header.
  datatype Icmp = Icmp(kind: Byte, id: Word16, seqno: Word16, from: Word32, ttl: Byte,
                       ipHeader: nat, totalLen: nat, headerHidden: bool)

  datatype Result = Result(from: Word32, seqno: Word16, dataLen: Word16, rttMs: Word32, ttl: Byte)

  datatype Pc =
    | Idle
    | Built                     // sequence number taken, request not yet handed to IP
    | Unsent                    // IP refused it, s_waiting not yet cleared
    | Launched                  // sent; the wait has not begun
    | Waiting(start: Word32)    // at the loop guard
    | Looking(start: Word32)    // guard passed, reply flag not yet read
    | Taking                    // reply flag seen, result not yet copied
    | Expired                   // loop left, s_waiting not yet cleared

  datatype State = State(seqno: Word16, waiting: bool, valid: bool, sendTick: Word32, result: Result, clock: nat, pc: Pc)

  datatype Event =
    | Tick(d: nat)
    | Receive(p: Icmp)
    | Build
    | Transmit(ok: bool)
    | Abandon
    | BeginWait
    | Sample(ticks: Word32)
    | Look
    | Take
    | Expire

  datatype Obs =
    | Quiet
    | Requested
    | Sent(at: nat)
    | Heard(p: Icmp, at: nat)
    | Dropped
    | Reported(r: Result)
    | TimedOut

  // ---------------------------------------------------------------------------------------------
  // Steps

  /** The tests of ping_recv once a request is outstanding. */
  predicate Matches(p: Icmp, seqno: Word16) {
    p.totalLen >= p.ipHeader + ECHO_HEADER && p.headerHidden && p.kind == ECHO_REPLY && p.id == PING_ID && p.seqno == seqno
  }

  function ResultOf(p: Icmp, seqno: Word16, now: Word32, sendTick: Word32): Result
    requires Matches(p, seqno)
  {
    Result(p.from, seqno, (p.totalLen - p.ipHeader - ECHO_HEADER) % 0x1_0000, Sub32(now, sendTick) / TICKS_PER_MS, p.ttl)
  }

  function Received(s: State, p: Icmp): State {
    if !s.waiting || s.valid || !Matches(p, s.seqno) then s
    else s.(result := ResultOf(p, s.seqno, Counter(s.clock), s.sendTick), waiting := false, valid := true)
  }

  function Next(s: State, ev: Event): (State, Obs) {
    match ev
    case Tick(d) => (s.(clock := s.clock + d), Quiet)
    case Receive(p) => (Received(s, p), Heard(p, s.clock))
    case Build => if s.pc.Idle? then (s.(seqno := (s.seqno + 1) % 0x1_0000, pc := Built), Requested) else (s, Quiet)
    case Transmit(ok) =>
      if s.pc.Built? then
        (s.(valid := false, sendTick := Counter(s.clock), waiting := true, pc := if ok then Launched else Unsent), Sent(s.clock))
      else (s, Quiet)
    case Abandon => if s.pc.Unsent? then (s.(waiting := false, pc := Idle), Dropped) else (s, Quiet)
    case BeginWait => if s.pc.Launched? then (s.(pc := Waiting(Counter(s.clock))), Quiet) else (s, Quiet)
    case Sample(ticks) =>
      if s.pc.Waiting? then
        (s.(pc := if Sub32(Counter(s.clock), s.pc.start) < ticks then Looking(s.pc.start) else Expired), Quiet)
      else (s, Quiet)
    case Look => if s.pc.Looking? then (s.(pc := if s.valid then Taking else Waiting(s.pc.start)), Quiet) else (s, Quiet)
    case Take => if s.pc.Taking? then (s.(valid := false, pc := Idle), Reported(s.result)) else (s, Quiet)
    case Expire => if s.pc.Expired? then (s.(waiting := false, pc := Idle), TimedOut) else (s, Quiet)
  }

  function Run(s: State, evs: seq<Event>): State {
    if evs == [] then s else Next(Run(s, evs[..|evs| - 1]), evs[|evs| - 1]).0
  }

  function Trace(s: State, evs: seq<Event>): (t: seq<Obs>)
    ensures |t| == |evs|
  {
    if evs == [] then [] else Trace(s, evs[..|evs| - 1]) + [Next(Run(s, evs[..|evs| - 1]), evs[|evs| - 1]).1]
  }

  function Boot(clock: nat): State { State(0, false, false, 0, Result(0, 0, 0, 0, 0), clock, Idle) }

  // ---------------------------------------------------------------------------------------------
  // What the trace says

  // requests: sequence numbers taken.  sentAt: when the request still open was sent.  reply: the first
  // matching packet heard since, and when.
  datatype History = History(requests: nat, sentAt: Option<nat>, reply: Option<(Icmp, nat)>)

  function Recount(h: History, o: Obs): History {
    match o
    case Quiet => h
    case Requested => History(h.requests + 1, None, None)
    case Sent(at) => h.(sentAt := Some(at), reply := None)
    case Heard(p, at) =>
      if h.sentAt.Some? && h.reply.None? && Matches(p, h.requests % 0x1_0000) then h.(reply := Some((p, at))) else h
    case Dropped => h.(sentAt := None, reply := None)
    case Reported(_) => h.(sentAt := None, reply := None)
    case TimedOut => h.(sentAt := None, reply := None)
  }

  function HistoryOf(t: seq<Obs>): History {
    if t == [] then History(0, None, None) else Recount(HistoryOf(t[..|t| - 1]), t[|t| - 1])
  }

  /** While a request is open, the flags say whether its reply has been heard and the result is that of
      the first matching packet. */
  ghost predicate Good(s: State, h: History) {
    && s.seqno == h.requests % 0x1_0000
    && (h.sentAt.Some? <==> !s.pc.Idle? && !s.pc.Built?)
    && (h.reply.Some? ==> h.sentAt.Some? && Matches(h.reply.value.0, s.seqno))
    && s.waiting == (h.sentAt.Some? && h.reply.None?)
    && (h.sentAt.Some? ==> h.sentAt.value <= s.clock && s.sendTick == Counter(h.sentAt.value) && s.valid == h.reply.Some?)
    && (h.reply.Some? ==> h.sentAt.value <= h.reply.value.1 <= s.clock
                          && s.result == ResultOf(h.reply.value.0, s.seqno, Counter(h.reply.value.1), s.sendTick))
    && (s.pc.Taking? ==> s.valid)
  }

  lemma NextModulo(n: nat)
    ensures (n % 0x1_0000 + 1) % 0x1_0000 == (n + 1) % 0x1_0000
  {
  }

  lemma StepKeepsGood(s: State, ev: Event, h: History)
    requires Good(s, h)
    ensures Good(Next(s, ev).0, Recount(h, Next(s, ev).1))
  {
    NextModulo(h.requests);
  }

  lemma {:induction false} RunKeepsGood(clock: nat, evs: seq<Event>)
    ensures Good(Run(Boot(clock), evs), HistoryOf(Trace(Boot(clock), evs)))
  {
    if evs != [] {
      var front, ev := evs[..|evs| - 1], evs[|evs| - 1];
      RunKeepsGood(clock, front);
      var t, o := Trace(Boot(clock), front), Next(Run(Boot(clock), front), ev).1;
      assert (t + [o])[..|t + [o]| - 1] == t;
      StepKeepsGood(Run(Boot(clock), front), ev, HistoryOf(t));
    }
  }

  // ---------------------------------------------------------------------------------------------
  // Theorems

  /** The packet is an Echo Reply Message (type 0) to the request with this number that carries our
      identifier, long enough for its header, and readable behind the IP header. */
  predicate Answers(p: Icmp, seqno: Word16) {
    p.kind == 0 && p.id == 0xAFAF && p.seqno == seqno && p.totalLen >= p.ipHeader + 8 && p.headerHidden
  }

  /** A packet that does not answer the open request, or comes when none is open, changes nothing. */
  lemma OthersChangeNothing(s: State, p: Icmp)
    ensures !(s.waiting && !s.valid && Answers(p, s.seqno)) ==> Next(s, Receive(p)).0 == s
    ensures s.waiting && !s.valid && Answers(p, s.seqno) ==>
              var s' := Next(s, Receive(p)).0; s'.valid && !s'.waiting && s'.seqno == s.seqno && s'.pc == s.pc
  {
  }

  /** s_waiting and s_reply_valid are never both set. */
  lemma {:induction false} NeverBothFlags(clock: nat, evs: seq<Event>)
    ensures var s := Run(Boot(clock), evs); !(s.waiting && s.valid)
  {
    RunKeepsGood(clock, evs);
  }

  function Requests(t: seq<Obs>): nat {
    if t == [] then 0 else Requests(t[..|t| - 1]) + if t[|t| - 1].Requested? then 1 else 0
  }

  /** An observation after which no reply to an earlier request can be reported. */
  predicate Closes(o: Obs) { o.Requested? || o.Sent? || o.Dropped? || o.Reported? || o.TimedOut? }

  /** Position d is the first packet answering the latest request since it was sent at position l, and
      nothing has ended that request since. */
  ghost predicate FirstReply(t: seq<Obs>, l: int, d: int) {
    && 0 <= l < d < |t| && t[l].Sent? && t[d].Heard?
    && (forall k :: l < k < |t| ==> !Closes(t[k]))
    && Answers(t[d].p, Requests(t) % 0x1_0000)
    && (forall k :: l < k < d && t[k].Heard? ==> !Answers(t[k].p, Requests(t) % 0x1_0000))
  }

  lemma {:induction false} ReplyPosition(t: seq<Obs>) returns (l: int, d: int)
    ensures Requests(t) == HistoryOf(t).requests
    ensures HistoryOf(t).sentAt.Some? ==>
              0 <= l < |t| && t[l] == Sent(HistoryOf(t).sentAt.value) && (forall k :: l < k < |t| ==> !Closes(t[k]))
    ensures HistoryOf(t).sentAt.Some? && HistoryOf(t).reply.None? ==>
              forall k :: l < k < |t| && t[k].Heard? ==> !Matches(t[k].p, Requests(t) % 0x1_0000)
    ensures HistoryOf(t).reply.Some? ==>
              HistoryOf(t).sentAt.Some? && FirstReply(t, l, d)
              && t[d] == Heard(HistoryOf(t).reply.value.0, HistoryOf(t).reply.value.1)
  {
    l, d := -1, -1;
    if t != [] {
      var front, o := t[..|t| - 1], t[|t| - 1];
      assert t == front + [o];
      l, d := ReplyPosition(front);
      if o.Sent? {
        l := |t| - 1;
      } else if o.Heard? && HistoryOf(front).reply.None? {
        d := |t| - 1;
      }
    }
  }

  /** `r` is the result of the packet heard at position d for the request sent at position l; the time
      is the floor of the true milliseconds as long as fewer than 2^32 ticks went by. */
  ghost predicate IsReplyOf(r: Result, t: seq<Obs>, l: int, d: int) {
    && FirstReply(t, l, d)
    && r.from == t[d].p.from && r.ttl == t[d].p.ttl
    && r.dataLen == (t[d].p.totalLen - t[d].p.ipHeader - 8) % 0x1_0000 && r.seqno == t[d].p.seqno == Requests(t) % 0x1_0000
    && t[l].at <= t[d].at
    && (t[d].at - t[l].at < TWO_32 ==> r.rttMs == (t[d].at - t[l].at) / 9375)
  }

  lemma TrueRoundTrip(p: Icmp, seqno: Word16, at: nat, sentAt: nat)
    requires Matches(p, seqno) && sentAt <= at && at - sentAt < TWO_32
    ensures ResultOf(p, seqno, Counter(at), Counter(sentAt)).rttMs == (at - sentAt) / TICKS_PER_MS
  {
    ElapsedModulo(sentAt, at);
    SmallModulo(at - sentAt);
  }

  /** Whatever a wait reports, it was heard after the latest send and before any timeout, it is the
      first packet since then with our id and the latest sequence number, and nothing has been reported
      since that send. */
  lemma ReportedIsTheReply(clock: nat, evs: seq<Event>) returns (l: int, d: int)
    requires Run(Boot(clock), evs).pc.Taking?
    ensures Next(Run(Boot(clock), evs), Take).1.Reported?
    ensures IsReplyOf(Next(Run(Boot(clock), evs), Take).1.r, Trace(Boot(clock), evs), l, d)
    ensures Next(Run(Boot(clock), evs), Take).1.r.rttMs <= 458129
  {
    var s, t := Run(Boot(clock), evs), Trace(Boot(clock), evs);
    RunKeepsGood(clock, evs);
    l, d := ReplyPosition(t);
    if t[d].at - t[l].at < TWO_32 {
      TrueRoundTrip(t[d].p, s.seqno, t[d].at, t[l].at);
    }
  }

  lemma NotFirst(t: seq<Obs>, l: int, l': int, d: int)
    requires 0 <= l < |t| && t[l].Sent? && forall k :: l < k < |t| && t[k].Heard? ==> !Matches(t[k].p, Requests(t) % 0x1_0000)
    ensures !FirstReply(t, l', d)
  {
    if 0 <= l' < l {
      assert Closes(t[l]);
    }
  }

  /** A wait that looks at the flag sees it exactly when such a packet has been heard. */
  lemma LookSeesTheReply(clock: nat, evs: seq<Event>) returns (l: int, d: int)
    requires Run(Boot(clock), evs).pc.Looking?
    ensures var taking, t := Next(Run(Boot(clock), evs), Look).0.pc.Taking?, Trace(Boot(clock), evs);
            && (taking ==> FirstReply(t, l, d))
            && (!taking ==> forall l', d' :: !FirstReply(t, l', d'))
  {
    var t := Trace(Boot(clock), evs);
    RunKeepsGood(clock, evs);
    l, d := ReplyPosition(t);
    if HistoryOf(t).reply.None? {
      forall l', d' ensures !FirstReply(t, l', d') {
        NotFirst(t, l, l', d');
      }
    }
  }

  /** A packet answering one of the previous 65535 requests never matches the latest one. */
  lemma OldRepliesNeverMatch(requests: nat, age: nat, p: Icmp)
    requires 1 <= age <= 65535 && age <= requests && p.seqno == (requests - age) % 0x1_0000
    ensures !Matches(p, requests % 0x1_0000)
  {
    var q, r := requests / 0x1_0000, (requests - age) / 0x1_0000;
    assert age == (q - r) * 0x1_0000 + requests % 0x1_0000 - (requests - age) % 0x1_0000;
  }

  /** The round trip always fits a C# int, so the panel never reads it as 0. */
  lemma RoundTripFitsInt(p: Icmp, seqno: Word16, now: Word32, sendTick: Word32)
    requires Matches(p, seqno)
    ensures ResultOf(p, seqno, now, sendTick).rttMs <= 458129
  {
  }
}
