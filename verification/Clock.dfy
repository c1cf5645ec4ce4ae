/**
 Busy waits on the free-running 32-bit counter.  The true time is unbounded; a wait sees it modulo
 2^32, at moments it does not choose.
 */
module Clock {
  import opened Words

  const TICKS_PER_MS: nat := 9375

  /** What the counter register shows at true time t. */
  function Counter(t: nat): Word32 { t % TWO_32 }

  /** ms * 9375U */
  function TicksOf(ms: Word32): Word32 { ms * TICKS_PER_MS % TWO_32 }

  /** The wait's guard has become false: (FRC - start) < ticks no longer holds. */
  predicate Over(start: nat, t: nat, ticks: Word32) {
    Sub32(Counter(t), Counter(start)) >= ticks
  }

  /** The period is the intended one exactly up to 458129 ms. */
  lemma NoOverflowIff(ms: Word32)
    ensures TicksOf(ms) == ms * 9375 <==> ms <= 458129
    ensures TicksOf(ms) == ms * 9375 % 0x1_0000_0000
  {
  }

  /** The guard in true time. */
  lemma OverIff(start: nat, t: nat, ticks: Word32)
    requires start <= t
    ensures Over(start, t, ticks) <==> (t - start) % 0x1_0000_0000 >= ticks
  {
    ElapsedModulo(start, t);
  }

  lemma ElapsedModulo(start: nat, t: nat)
    requires start <= t
    ensures Sub32(Counter(t), Counter(start)) == (t - start) % TWO_32
  {
    var q, r := t / TWO_32, start / TWO_32;
    assert t == q * TWO_32 + Counter(t) && start == r * TWO_32 + Counter(start);
    var d := Counter(t) - Counter(start);
    assert t - start == (q - r) * TWO_32 + d;
    ModuloShift(d, q - r);
  }

  lemma ModuloShift(d: int, k: int)
    ensures (k * TWO_32 + d) % TWO_32 == d % TWO_32
  {
    var q, e := d / TWO_32, d % TWO_32;
    assert d == q * TWO_32 + e;
    assert k * TWO_32 + d == (k + q) * TWO_32 + e;
  }

  /** A wait that has run its period ends no earlier than the period. */
  lemma NeverEarly(start: nat, t: nat, ticks: Word32)
    requires start <= t && Over(start, t, ticks)
    ensures t - start >= ticks
  {
    ElapsedModulo(start, t);
  }

  /** Samples are taken in order of time, starting at or after `start`. */
  ghost predicate Ordered(start: nat, samples: seq<nat>) {
    && (forall i :: 0 <= i < |samples| ==> start <= samples[i])
    && (forall i, j :: 0 <= i < j < |samples| ==> samples[i] <= samples[j])
  }

  /** No two consecutive samples are a whole counter period minus `ticks` apart. */
  ghost predicate GapsBelow(start: nat, samples: seq<nat>, ticks: Word32) {
    && (samples != [] ==> samples[0] - start < TWO_32 - ticks)
    && (forall i :: 0 < i < |samples| ==> samples[i] - samples[i - 1] < TWO_32 - ticks)
  }

  /** If the gaps are small enough, the wait ends exactly at the first sample past the period, across
      any number of counter wraps. */
  lemma EndsAtFirstSamplePast(start: nat, samples: seq<nat>, ticks: Word32, i: nat)
    requires Ordered(start, samples) && GapsBelow(start, samples, ticks) && i < |samples|
    requires forall j :: 0 <= j < i ==> !Over(start, samples[j], ticks)
    ensures Over(start, samples[i], ticks) <==> samples[i] - start >= ticks
    ensures forall j :: 0 <= j < i ==> samples[j] - start < ticks
  {
    SamplesBefore(start, samples, ticks, i);
    var previous := if i == 0 then start else samples[i - 1];
    assert samples[i] - start < TWO_32 by {
      if i == 0 { assert samples[0] - start < TWO_32 - ticks; } else { assert samples[i] - samples[i - 1] < TWO_32 - ticks; }
    }
    ElapsedModulo(start, samples[i]);
    SmallModulo(samples[i] - start);
  }

  /** So for all samples of a wait the guard tells the truth. */
  lemma GuardIsTrue(start: nat, samples: seq<nat>, ticks: Word32)
    requires Ordered(start, samples) && GapsBelow(start, samples, ticks)
    requires forall j :: 0 <= j < |samples| - 1 ==> !Over(start, samples[j], ticks)
    ensures forall j :: 0 <= j < |samples| ==> (Over(start, samples[j], ticks) <==> samples[j] - start >= ticks)
  {
    forall j | 0 <= j < |samples|
      ensures Over(start, samples[j], ticks) <==> samples[j] - start >= ticks
    {
      EndsAtFirstSamplePast(start, samples, ticks, j);
    }
  }

  lemma SmallModulo(d: nat)
    requires d < TWO_32
    ensures d % TWO_32 == d
  {
  }

  lemma {:induction false} SamplesBefore(start: nat, samples: seq<nat>, ticks: Word32, i: nat)
    requires Ordered(start, samples) && GapsBelow(start, samples, ticks) && i <= |samples|
    requires forall j :: 0 <= j < i ==> !Over(start, samples[j], ticks)
    ensures forall j :: 0 <= j < i ==> samples[j] - start < ticks
    decreases i
  {
    if i > 0 {
      SamplesBefore(start, samples, ticks, i - 1);
      var k := i - 1;
      assert samples[k] - start < TWO_32 by {
        if k == 0 { assert samples[0] - start < TWO_32 - ticks; } else { assert samples[k] - samples[k - 1] < TWO_32 - ticks; }
      }
      ElapsedModulo(start, samples[k]);
      SmallModulo(samples[k] - start);
    }
  }

  // ---------------------------------------------------------------------------------------------
  // The waits

  /** delay_ms: the number of the sample at which it ends, or |samples| while it is still waiting. */
  method DelayMs(ms: Word32, start: nat, samples: seq<nat>) returns (i: nat)
    ensures i <= |samples|
    ensures forall j :: 0 <= j < i ==> !Over(start, samples[j], TicksOf(ms))
    ensures i < |samples| ==> Over(start, samples[i], TicksOf(ms))
    ensures Ordered(start, samples) && i < |samples| ==> samples[i] - start >= TicksOf(ms)
    ensures Ordered(start, samples) && GapsBelow(start, samples, TicksOf(ms)) ==>
              forall j :: 0 <= j < i ==> samples[j] - start < TicksOf(ms)
  {
    var begun, ticks := Counter(start), TicksOf(ms);
    i := 0;
    while i < |samples| && Sub32(Counter(samples[i]), begun) < ticks
      invariant i <= |samples|
      invariant forall j :: 0 <= j < i ==> !Over(start, samples[j], ticks)
    {
      i := i + 1;
    }
    if Ordered(start, samples) {
      if i < |samples| { NeverEarly(start, samples[i], ticks); }
      if GapsBelow(start, samples, ticks) { SamplesBefore(start, samples, ticks, i); }
    }
  }

  const CTRL_C: Byte := 0x03

  datatype WaitEnd = Interrupted | Elapsed | StillWaiting

  function Times(polls: seq<(nat, Option<Byte>)>): seq<nat> { seq(|polls|, k requires 0 <= k < |polls| => polls[k].0) }

  /** wait_or_ctrlc: each poll is a sample and the byte found on the line, if any. */
  method WaitOrCtrlC(ms: Word32, start: nat, polls: seq<(nat, Option<Byte>)>) returns (end: WaitEnd, i: nat)
    ensures i <= |polls|
    ensures forall j :: 0 <= j < i ==> !Over(start, polls[j].0, TicksOf(ms)) && polls[j].1 != Some(0x03)
    ensures match end
            case StillWaiting => i == |polls|
            case Elapsed => i < |polls| && Over(start, polls[i].0, TicksOf(ms))
            case Interrupted => i < |polls| && !Over(start, polls[i].0, TicksOf(ms)) && polls[i].1 == Some(0x03)
    ensures Ordered(start, Times(polls)) && end.Elapsed? ==> polls[i].0 - start >= TicksOf(ms)
    ensures Ordered(start, Times(polls)) && GapsBelow(start, Times(polls), TicksOf(ms)) ==>
              forall j :: 0 <= j < i ==> polls[j].0 - start < TicksOf(ms)
  {
    var begun, ticks := Counter(start), TicksOf(ms);
    i := 0;
    end := StillWaiting;
    while i < |polls|
      invariant i <= |polls|
      invariant forall j :: 0 <= j < i ==> !Over(start, polls[j].0, ticks) && polls[j].1 != Some(CTRL_C)
    {
      if Sub32(Counter(polls[i].0), begun) >= ticks {
        end := Elapsed;
        break;
      }
      if polls[i].1 == Some(CTRL_C) {
        end := Interrupted;
        break;
      }
      i := i + 1;
    }
    assert forall j :: 0 <= j < i ==> !Over(start, Times(polls)[j], ticks);
    if Ordered(start, Times(polls)) {
      if end.Elapsed? { NeverEarly(start, Times(polls)[i], ticks); }
      if GapsBelow(start, Times(polls), ticks) {
        SamplesBefore(start, Times(polls), ticks, i);
        assert forall j :: 0 <= j < i ==> polls[j].0 == Times(polls)[j];
      }
    }
  }
}
