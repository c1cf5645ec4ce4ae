/**
 ping.c as an object whose fields the send, the callback and the wait change in place.  What happens
 between two steps of the main loop is a parameter; each method is proved to be a run of PingMachine.
 */
module Ping {
  import opened Words
  import opened Clock
  import opened PingMachine

  datatype Happening = Elapse(d: nat) | Arrive(p: Icmp)

  function EventOf(h: Happening): Event {
    match h
    case Elapse(d) => Tick(d)
    case Arrive(p) => Receive(p)
  }

  function EventsOf(hs: seq<Happening>): seq<Event> { seq(|hs|, k requires 0 <= k < |hs| => EventOf(hs[k])) }

  lemma RunSnoc(s: State, evs: seq<Event>, ev: Event)
    ensures Run(s, evs + [ev]) == Next(Run(s, evs), ev).0
  {
    assert (evs + [ev])[..|evs + [ev]| - 1] == evs;
  }

  /** What the last event of a run shows. */
  function LastObs(s: State, evs: seq<Event>): Obs {
    if evs == [] then Quiet else Next(Run(s, evs[..|evs| - 1]), evs[|evs| - 1]).1
  }

  lemma LastObsSnoc(s: State, evs: seq<Event>, ev: Event)
    ensures LastObs(s, evs + [ev]) == Next(Run(s, evs), ev).1
  {
    assert (evs + [ev])[..|evs + [ev]| - 1] == evs;
  }

  // What happens before the guard is evaluated, before the flag is read, before the result is copied.
  datatype Poll = Poll(guard: seq<Happening>, look: seq<Happening>, take: seq<Happening>)

  datatype WaitResult = Pending | Timeout | Success(r: Result)

  /** Samples taken in order up to now, none of them past the period. */
  ghost predicate NotOver(begun: nat, samples: seq<nat>, now: nat, ticks: Word32) {
    && Ordered(begun, samples) && begun <= now && (forall j :: 0 <= j < |samples| ==> samples[j] <= now)
    && (forall j :: 0 <= j < |samples| ==> !Over(begun, samples[j], ticks))
  }

  lemma SampleTaken(begun: nat, samples: seq<nat>, now: nat, ticks: Word32)
    requires begun <= now && Ordered(begun, samples) && forall j :: 0 <= j < |samples| ==> samples[j] <= now
    ensures Ordered(begun, samples + [now])
  {
  }

  class Driver {
    var seqno: Word16
    var waiting: bool
    var valid: bool
    var sendTick: Word32
    var result: Result
    var clock: nat     // true time; the program reads Counter(clock)
    ghost var pc: Pc

    ghost function View(): State
      reads this
    {
      State(seqno, waiting, valid, sendTick, result, clock, pc)
    }

    constructor (clock: nat)
      ensures View() == Boot(clock)
    {
      seqno, waiting, valid, sendTick := 0, false, false, 0;
      result := Result(0, 0, 0, 0, 0);
      this.clock := clock;
      pc := Idle;
    }

    /** ping_recv: true when the packet was ours and has been consumed. */
    method PingRecv(p: Icmp) returns (consumed: bool)
      modifies this
      ensures View() == Received(old(View()), p)
      ensures consumed <==> old(waiting) && !old(valid) && Answers(p, old(seqno))
      ensures !consumed ==> View() == old(View())
    {
      if !waiting || valid { return false; }
      if p.totalLen < p.ipHeader + ECHO_HEADER { return false; }
      if p.headerHidden {
        if p.kind == ECHO_REPLY && p.id == PING_ID && p.seqno == seqno {
          var now := Counter(clock);
          result := Result(p.from, seqno, (p.totalLen - p.ipHeader - ECHO_HEADER) % 0x1_0000,
                           Sub32(now, sendTick) / TICKS_PER_MS, p.ttl);
          waiting := false;
          valid := true;
          return true;
        }
      }
      return false;
    }

    /** Time passes and packets arrive while the main loop is between two steps. */
    method Meanwhile(hs: seq<Happening>, ghost origin: State, ghost evs: seq<Event>)
      requires View() == Run(origin, evs)
      modifies this
      ensures View() == Run(origin, evs + EventsOf(hs))
      ensures pc == old(pc) && clock >= old(clock)
    {
      assert evs + EventsOf([]) == evs;
      for k := 0 to |hs|
        invariant View() == Run(origin, evs + EventsOf(hs[..k])) && pc == old(pc) && clock >= old(clock)
      {
        RunSnoc(origin, evs + EventsOf(hs[..k]), EventOf(hs[k]));
        assert evs + EventsOf(hs[..k + 1]) == evs + EventsOf(hs[..k]) + [EventOf(hs[k])];
        match hs[k]
        case Elapse(d) => clock := clock + d;
        case Arrive(p) => var consumed := PingRecv(p);
      }
      assert hs[..|hs|] == hs;
    }

    /** ping_send; ready: the arguments, the raw pcb and the buffer are there; ok: IP took the packet. */
    method PingSend(ready: bool, ok: bool, building: seq<Happening>, failing: seq<Happening>)
      returns (sent: bool, ghost evs: seq<Event>)
      requires pc.Idle?
      modifies this
      ensures sent == (ready && ok) && pc == if sent then Launched else Idle
      ensures View() == Run(old(View()), evs)
      ensures evs == if !ready then [] else
                       [Build] + EventsOf(building) + [Transmit(ok)] + if ok then [] else EventsOf(failing) + [Abandon]
    {
      ghost var origin := View();
      evs := [];
      if !ready { return false, evs; }

      seqno := (seqno + 1) % 0x1_0000;
      pc := Built;
      RunSnoc(origin, [], Build);
      assert [] + [Build] == [Build];
      Meanwhile(building, origin, [Build]);
      evs := [Build] + EventsOf(building);
      HandToIp(ok, origin, evs);
      evs := evs + [Transmit(ok)];
      if !ok {
        GiveUp(failing, origin, evs, Abandon);
        ghost var before := evs;
        evs := evs + EventsOf(failing) + [Abandon];
        assert evs == before + (EventsOf(failing) + [Abandon]);
      }
      sent := ok;
    }

    /** The critical section of ping_send. */
    method HandToIp(ok: bool, ghost origin: State, ghost evs: seq<Event>)
      requires pc.Built? && View() == Run(origin, evs)
      modifies this
      ensures View() == Run(origin, evs + [Transmit(ok)]) && pc == if ok then Launched else Unsent
    {
      RunSnoc(origin, evs, Transmit(ok));
      valid := false;
      sendTick := Counter(clock);
      waiting := true;
      pc := if ok then Launched else Unsent;
    }

    /** The last step after a refused send or an expired wait: a late reply must not match any more. */
    method GiveUp(hs: seq<Happening>, ghost origin: State, ghost evs: seq<Event>, ghost last: Event)
      requires View() == Run(origin, evs)
      requires (pc.Expired? && last == Expire) || (pc.Unsent? && last == Abandon)
      modifies this
      ensures View() == Run(origin, evs + EventsOf(hs) + [last]) && pc.Idle? && clock >= old(clock)
      ensures LastObs(origin, evs + EventsOf(hs) + [last]) == if last == Expire then TimedOut else Dropped
    {
      Meanwhile(hs, origin, evs);
      RunSnoc(origin, evs + EventsOf(hs), last);
      LastObsSnoc(origin, evs + EventsOf(hs), last);
      waiting := false;
      pc := Idle;
    }

    /** ping_wait_reply, for as many polls as are given.  samples: the times at which the guard was
        evaluated; with small gaps the wait times out exactly at the first one past the period. */
    method PingWaitReply(timeoutMs: Word32, polls: seq<Poll>, expiring: seq<Happening>)
      returns (w: WaitResult, ghost evs: seq<Event>, ghost samples: seq<nat>)
      requires pc.Launched?
      modifies this
      ensures View() == Run(old(View()), evs)
      ensures w.Pending? <==> !pc.Idle?
      ensures w.Success? ==> LastObs(old(View()), evs) == Reported(w.r)
      ensures w.Timeout? ==> LastObs(old(View()), evs) == TimedOut && clock - old(clock) >= TicksOf(timeoutMs)
      ensures Ordered(old(clock), samples) && (w.Timeout? ==> samples != [])
      ensures GapsBelow(old(clock), samples, TicksOf(timeoutMs)) ==>
                forall j :: 0 <= j < |samples| ==>
                  (samples[j] - old(clock) >= TicksOf(timeoutMs) <==> w.Timeout? && j == |samples| - 1)
    {
      w, evs, samples := WaitLoop(timeoutMs, polls, expiring);
      if GapsBelow(old(clock), samples, TicksOf(timeoutMs)) {
        GuardIsTrue(old(clock), samples, TicksOf(timeoutMs));
      }
    }

    method WaitLoop(timeoutMs: Word32, polls: seq<Poll>, expiring: seq<Happening>)
      returns (w: WaitResult, ghost evs: seq<Event>, ghost samples: seq<nat>)
      requires pc.Launched?
      modifies this
      ensures View() == Run(old(View()), evs)
      ensures w.Pending? <==> !pc.Idle?
      ensures w.Success? ==> LastObs(old(View()), evs) == Reported(w.r)
      ensures w.Timeout? ==> LastObs(old(View()), evs) == TimedOut && clock - old(clock) >= TicksOf(timeoutMs)
      ensures Ordered(old(clock), samples) && (w.Timeout? ==> samples != [])
      ensures forall j :: 0 <= j < |samples| ==>
                (Over(old(clock), samples[j], TicksOf(timeoutMs)) <==> w.Timeout? && j == |samples| - 1)
    {
      ghost var origin := View();
      var begun := clock;
      var start, ticks := Counter(clock), TicksOf(timeoutMs);
      pc := Waiting(start);
      RunSnoc(origin, [], BeginWait);
      evs, samples := [BeginWait], [];
      assert [] + [BeginWait] == evs;
      w := Pending;
      for k := 0 to |polls|
        invariant View() == Run(origin, evs) && pc == Waiting(start) && w.Pending?
        invariant NotOver(begun, samples, clock, ticks)
      {
        var over;
        over, evs := Guard(polls[k].guard, start, ticks, origin, evs);
        SampleTaken(begun, samples, clock, ticks);
        samples := samples + [clock];
        if over {
          NeverEarly(begun, clock, ticks);
          GiveUp(expiring, origin, evs, Expire);
          evs := evs + EventsOf(expiring) + [Expire];
          return Timeout, evs, samples;
        }
        w, evs := Try(polls[k], start, origin, evs);
        if w.Success? { return; }
      }
    }

    /** The loop guard: one sample of the counter. */
    method Guard(hs: seq<Happening>, start: Word32, ticks: Word32, ghost origin: State, ghost evs: seq<Event>)
      returns (over: bool, ghost evs': seq<Event>)
      requires View() == Run(origin, evs) && pc == Waiting(start)
      modifies this
      ensures View() == Run(origin, evs') && clock >= old(clock)
      ensures over == (Sub32(Counter(clock), start) >= ticks) && pc == if over then Expired else Looking(start)
    {
      Meanwhile(hs, origin, evs);
      evs' := evs + EventsOf(hs);
      RunSnoc(origin, evs', Sample(ticks));
      evs' := evs' + [Sample(ticks)];
      over := Sub32(Counter(clock), start) >= ticks;
      pc := if over then Expired else Looking(start);
    }

    /** The loop body: the flag is read, and if it is set the result is copied in a critical section. */
    method Try(poll: Poll, start: Word32, ghost origin: State, ghost evs: seq<Event>)
      returns (w: WaitResult, ghost evs': seq<Event>)
      requires View() == Run(origin, evs) && pc == Looking(start)
      modifies this
      ensures View() == Run(origin, evs') && clock >= old(clock)
      ensures (w.Pending? && pc == Waiting(start)) || (w.Success? && pc.Idle? && LastObs(origin, evs') == Reported(w.r))
    {
      Meanwhile(poll.look, origin, evs);
      evs' := evs + EventsOf(poll.look);
      RunSnoc(origin, evs', Look);
      evs' := evs' + [Look];
      if !valid {
        pc := Waiting(start);
        return Pending, evs';
      }
      pc := Taking;
      Meanwhile(poll.take, origin, evs');
      evs' := evs' + EventsOf(poll.take);
      RunSnoc(origin, evs', Take);
      LastObsSnoc(origin, evs', Take);
      evs' := evs' + [Take];
      w := Success(result);
      valid := false;
      pc := Idle;
    }
  }
}
