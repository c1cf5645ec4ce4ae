/** The totals of a ping session, on the board (unsigned 32-bit sum) and on the panel (signed 32-bit sum). */
module PingStats {
  import opened Words

  datatype Side = Board | Panel
  datatype Attempt = Failed | TimedOut | Replied(rtt: nat)

  /** The value a 32-bit sum of this side holds for the true value x. */
  function Wrap(side: Side, x: int): int {
    match side
    case Board => x % TWO_32
    case Panel => (x + INT_MAX + 1) % TWO_32 - INT_MAX - 1
  }

  /** The largest round trip this side can represent, where its minimum starts. */
  function Largest(side: Side): nat { if side.Board? then TWO_32 - 1 else INT_MAX }

  /** The round trips of the answered attempts, in order. */
  function Rtts(attempts: seq<Attempt>): seq<nat> {
    if attempts == [] then []
    else Rtts(attempts[..|attempts| - 1])
         + if attempts[|attempts| - 1].Replied? then [attempts[|attempts| - 1].rtt] else []
  }

  /** Which attempts were answered. */
  ghost function Answered(attempts: seq<Attempt>): set<int> {
    set k | 0 <= k < |attempts| && attempts[k].Replied?
  }

  /** One round trip for each answered attempt, and no other. */
  lemma {:induction false} OneForEach(attempts: seq<Attempt>)
    ensures |Rtts(attempts)| == |Answered(attempts)|
  {
    if attempts != [] {
      var n := |attempts| - 1;
      OneForEach(attempts[..n]);
      assert Answered(attempts) == Answered(attempts[..n]) + if attempts[n].Replied? then {n} else {};
    }
  }

  lemma {:induction false} RttsAreTheReplies(attempts: seq<Attempt>)
    ensures forall k :: 0 <= k < |attempts| && attempts[k].Replied? ==> attempts[k].rtt in Rtts(attempts)
    ensures forall r :: r in Rtts(attempts) ==> exists k :: 0 <= k < |attempts| && attempts[k] == Replied(r)
  {
    if attempts != [] {
      var front, last := attempts[..|attempts| - 1], attempts[|attempts| - 1];
      RttsAreTheReplies(front);
      assert attempts == front + [last];
      forall r | r in Rtts(attempts) ensures exists k :: 0 <= k < |attempts| && attempts[k] == Replied(r) {
        if r in Rtts(front) {
          var k :| 0 <= k < |front| && front[k] == Replied(r);
          assert attempts[k] == Replied(r);
        }
      }
    }
  }

  function Sum(rtts: seq<nat>): nat {
    if rtts == [] then 0 else Sum(rtts[..|rtts| - 1]) + rtts[|rtts| - 1]
  }

  datatype Totals = Totals(sent: nat, received: nat, min: int, max: int, sum: int)

  /** (sent - received) * 100 / sent on a 32-bit int; the product is negative only after an overflow. */
  function Loss(t: Totals): int
    requires t.sent > 0
  {
    var product := Wrap(Panel, (t.sent - t.received) * 100);
    if product >= 0 then product / t.sent else -(-product / t.sent)
  }

  /** What the statistics lines promise about the attempts. */
  ghost predicate Summarises(t: Totals, attempts: seq<Attempt>) {
    var r := Rtts(attempts);
    && t.sent == |attempts| && t.received == |r| <= t.sent
    && t.received == |Answered(attempts)|
    && (r != [] ==> t.min in r && t.max in r && (forall k :: 0 <= k < |r| ==> t.min <= r[k] <= t.max)
                    && t.min <= t.sum / t.received <= t.max)
    && (attempts != [] ==> 0 <= Loss(t) <= 100 && (Loss(t) == 100 <==> t.received == 0)
                           && t.sent * Loss(t) <= 100 * (t.sent - t.received) < t.sent * (Loss(t) + 1))
  }

  /** Nothing overflows: the sum of the round trips and a hundred times the number of attempts. */
  predicate InRange(side: Side, attempts: seq<Attempt>) {
    Sum(Rtts(attempts)) <= Largest(side) && 100 * |attempts| <= INT_MAX
  }

  lemma {:induction false} RttsBounds(attempts: seq<Attempt>)
    ensures |Rtts(attempts)| <= |attempts|
  {
    if attempts != [] { RttsBounds(attempts[..|attempts| - 1]); }
  }

  lemma {:induction false} MeanBetween(rtts: seq<nat>, low: int, high: int)
    requires forall k :: 0 <= k < |rtts| ==> low <= rtts[k] <= high
    ensures low * |rtts| <= Sum(rtts) <= high * |rtts|
  {
    if rtts != [] {
      var n := |rtts| - 1;
      MeanBetween(rtts[..n], low, high);
      assert low * (n + 1) == low * n + low && high * (n + 1) == high * n + high;
    }
  }

  lemma AverageInRange(sum: nat, n: nat, low: int, high: int)
    requires n > 0 && low * n <= sum <= high * n
    ensures low <= sum / n <= high
  {
    var q := sum / n;
    assert q * n <= sum < (q + 1) * n;
    MonotoneFactor(low, q + 1, n);
    MonotoneFactor(q, high + 1, n);
    assert (high + 1) * n == high * n + n;
  }

  lemma MonotoneFactor(a: int, b: int, n: nat)
    requires n > 0 && a * n < b * n
    ensures a < b
  {
    assert (b - a) * n > 0;
  }

  lemma LossInRange(t: Totals)
    requires t.sent > 0 && t.received <= t.sent && 100 * t.sent <= INT_MAX
    ensures 0 <= Loss(t) <= 100 && (Loss(t) == 100 <==> t.received == 0)
  {
    var lost := t.sent - t.received;
    InRangeIsNotWrapped(lost * 100);
    AverageInRange(lost * 100, t.sent, 0, 100);
    if t.received > 0 {
      QuotientBelow(lost, t.sent);
    } else {
      AverageInRange(lost * 100, t.sent, 100, 100);
    }
  }

  /** The loss is the whole percentage of the attempts that got no answer. */
  lemma LossIsPercentage(t: Totals)
    requires t.sent > 0 && t.received <= t.sent && 100 * t.sent <= INT_MAX
    ensures t.sent * Loss(t) <= 100 * (t.sent - t.received) < t.sent * (Loss(t) + 1)
  {
    var lost := t.sent - t.received;
    InRangeIsNotWrapped(lost * 100);
    QuotientBounds(lost * 100, t.sent);
  }

  lemma QuotientBounds(x: nat, n: nat)
    requires n > 0
    ensures n * (x / n) <= x < n * (x / n + 1)
  {
    assert x == n * (x / n) + x % n;
  }

  lemma InRangeIsNotWrapped(x: nat)
    requires x <= INT_MAX
    ensures Wrap(Panel, x) == x
  {
  }

  lemma QuotientBelow(lost: nat, sent: nat)
    requires lost < sent
    ensures lost * 100 / sent < 100
  {
    var q := lost * 100 / sent;
    assert q * sent <= lost * 100 < 100 * sent;
    MonotoneFactor(q, 100, sent);
  }

  lemma SumSnoc(rtts: seq<nat>, rtt: nat)
    ensures Sum(rtts + [rtt]) == Sum(rtts) + rtt
  {
    assert (rtts + [rtt])[..|rtts|] == rtts;
  }

  lemma WrapAdd(side: Side, a: int, b: int)
    ensures Wrap(side, Wrap(side, a) + b) == Wrap(side, a + b)
  {
    var c := if side.Board? then 0 else INT_MAX + 1;
    var q, r := (a + c) / TWO_32, (a + c) % TWO_32;
    assert a + c == q * TWO_32 + r;
    var p, s := (r + b) / TWO_32, (r + b) % TWO_32;
    assert a + b + c == (p + q) * TWO_32 + s;
  }

  /** Before the first reply the extremes are the initial values; afterwards they are attained. */
  ghost predicate Extremes(t: Totals, r: seq<nat>, start: int) {
    && (forall k :: 0 <= k < |r| ==> t.min <= r[k] <= t.max)
    && (if r == [] then t.min == start && t.max == 0 else t.min in r && t.max in r)
  }

  /** The totals fit the round trips seen so far. */
  ghost predicate Fits(side: Side, t: Totals, r: seq<nat>) {
    t.received == |r| && t.sum == Wrap(side, Sum(r)) && Extremes(t, r, Largest(side))
  }

  /** recv++, the sum, and the two comparisons. */
  function CountReply(side: Side, t: Totals, rtt: nat): Totals {
    t.(received := t.received + 1, sum := Wrap(side, t.sum + rtt),
       min := if rtt < t.min then rtt else t.min, max := if rtt > t.max then rtt else t.max)
  }

  lemma CountReplyFits(side: Side, t: Totals, r: seq<nat>, rtt: nat)
    requires Fits(side, t, r) && rtt <= Largest(side)
    ensures Fits(side, CountReply(side, t, rtt), r + [rtt])
  {
    SumSnoc(r, rtt);
    WrapAdd(side, Sum(r), rtt);
    assert (r + [rtt])[|r|] == rtt;
    if r != [] {
      var k :| 0 <= k < |r| && r[k] == t.min;
      var l :| 0 <= l < |r| && r[l] == t.max;
      assert (r + [rtt])[k] == t.min && (r + [rtt])[l] == t.max;
    }
  }

  /** The loops of terminal_ping_command and RunPingAsync, on the attempts they make. */
  method Tally(side: Side, attempts: seq<Attempt>) returns (t: Totals)
    requires forall k :: 0 <= k < |attempts| && attempts[k].Replied? ==> attempts[k].rtt <= Largest(side)
    ensures t.sum == Wrap(side, Sum(Rtts(attempts)))
    ensures InRange(side, attempts) ==> Summarises(t, attempts)
  {
    t := Totals(0, 0, Largest(side), 0, 0);
    for i := 0 to |attempts|
      invariant t.sent == i && Fits(side, t, Rtts(attempts[..i]))
    {
      assert attempts[..i + 1][..i] == attempts[..i];
      t := t.(sent := t.sent + 1);
      if attempts[i].Replied? {
        CountReplyFits(side, t, Rtts(attempts[..i]), attempts[i].rtt);
        t := CountReply(side, t, attempts[i].rtt);
        assert Rtts(attempts[..i + 1]) == Rtts(attempts[..i]) + [attempts[i].rtt];
      } else {
        assert Rtts(attempts[..i + 1]) == Rtts(attempts[..i]);
      }
    }
    assert attempts[..|attempts|] == attempts;
    if InRange(side, attempts) {
      Conclude(t, attempts, Largest(side));
    }
  }

  lemma Conclude(t: Totals, attempts: seq<Attempt>, start: int)
    requires t.sent == |attempts| && t.received == |Rtts(attempts)| && t.sum == Sum(Rtts(attempts))
    requires Extremes(t, Rtts(attempts), start) && 100 * |attempts| <= INT_MAX
    ensures Summarises(t, attempts)
  {
    var r := Rtts(attempts);
    RttsBounds(attempts);
    OneForEach(attempts);
    if attempts != [] {
      LossInRange(t);
      LossIsPercentage(t);
    }
    if r != [] {
      MeanBetween(r, t.min, t.max);
      AverageInRange(t.sum, |r|, t.min, t.max);
    }
  }
}
