/** radsniff's smoothed latency: a cumulative mean that turns into a moving average.  Over the
    reals, with None for "no value" (NaN). */
module Smoothing {
  import opened Wrappers

  /** What one statistics interval collected. */
  datatype Interval = Interval(linked: nat, total: real)

  datatype Latency = Latency(count: nat, smoothed: Option<real>)

  const WINDOW := 100

  /** Average latency of an interval; 0 where the code leaves the field cleared. */
  function Average(iv: Interval): real {
    if iv.linked > 0 && iv.total != 0.0 then iv.total / iv.linked as real else 0.0
  }

  function Divisor(count: nat): nat { if count < WINDOW then count else WINDOW }

  /** rs_stats_process_latency(). */
  function Process(s: Latency, iv: Interval): Latency {
    if iv.linked == 0 then
      if s.count == 0 then s.(smoothed := None) else s
    else
      var m := if s.smoothed.None? then 0.0 else s.smoothed.v;
      if Average(iv) > 0.0 then
        Latency(s.count + 1, Some(m + (Average(iv) - m) / Divisor(s.count + 1) as real))
      else s.(smoothed := Some(m))
  }

  function Run(s: Latency, ivs: seq<Interval>): Latency {
    if ivs == [] then s else Process(Run(s, ivs[..|ivs| - 1]), ivs[|ivs| - 1])
  }

  const START := Latency(0, Some(0.0))

  // ---- reference: the interval averages that count -------------------------------

  function Averages(ivs: seq<Interval>): seq<real> {
    if ivs == [] then []
    else
      var a := Average(ivs[|ivs| - 1]);
      Averages(ivs[..|ivs| - 1]) + if a > 0.0 then [a] else []
  }

  function Sum(a: seq<real>): real {
    if a == [] then 0.0 else Sum(a[..|a| - 1]) + a[|a| - 1]
  }

  ghost predicate Within(lo: real, x: real, hi: real) { lo <= x <= hi }

  lemma MeanStep(m: real, a: real, n: real, sum: real)
    requires n >= 1.0 && m * (n - 1.0) == sum
    ensures (m + (a - m) / n) * n == sum + a
  {
    var q := (a - m) / n;
    assert q * n == a - m;
    assert (m + q) * n == m * n + q * n;
  }

  lemma BetweenStep(m: real, a: real, n: real, lo: real, hi: real)
    requires n >= 1.0 && Within(lo, m, hi) && Within(lo, a, hi)
    ensures Within(lo, m + (a - m) / n, hi)
  {
    var q := (a - m) / n;
    assert q * n == a - m;
    if a >= m {
      Shrink(q, n, a - m);
    } else {
      assert (-q) * n == m - a;
      Shrink(-q, n, m - a);
    }
  }

  lemma Shrink(q: real, n: real, d: real)
    requires n >= 1.0 && q * n == d >= 0.0
    ensures 0.0 <= q <= d
  {
    assert q == d / n;
    assert d == q + q * (n - 1.0);
  }

  /** Before the first average that counts there is no value or zero. */
  lemma {:induction false} RunCount(ivs: seq<Interval>)
    ensures Run(START, ivs).count == |Averages(ivs)|
    ensures Run(START, ivs).count > 0 ==> Run(START, ivs).smoothed.Some?
    ensures Run(START, ivs).count == 0 ==>
      Run(START, ivs).smoothed.None? || Run(START, ivs).smoothed.v == 0.0
  {
    if ivs != [] {
      RunCount(ivs[..|ivs| - 1]);
    }
  }

  function Value(s: Latency): real { if s.smoothed.None? then 0.0 else s.smoothed.v }

  /** x is the mean of n numbers that add up to sum. */
  predicate IsMean(x: real, n: nat, sum: real) { x * n as real == sum }

  lemma MeanOfOneMore(m: real, n: nat, a: real, sum: real)
    requires IsMean(m, n, sum)
    ensures IsMean(m + (a - m) / (n + 1) as real, n + 1, sum + a)
  {
    var d := (n + 1) as real;
    assert d - 1.0 == n as real;
    MeanStep(m, a, d, sum);
  }

  lemma ProcessMean(s: Latency, iv: Interval, sum: real)
    requires s.count < WINDOW && Average(iv) > 0.0
    requires IsMean(Value(s), s.count, sum)
    ensures IsMean(Value(Process(s, iv)), s.count + 1, sum + Average(iv))
  {
    hide IsMean;
    MeanOfOneMore(Value(s), s.count, Average(iv), sum);
  }

  lemma {:induction false} RunMean(ivs: seq<Interval>)
    requires |Averages(ivs)| <= WINDOW
    ensures IsMean(Value(Run(START, ivs)), |Averages(ivs)|, Sum(Averages(ivs)))
  {
    hide Average, Process, IsMean;
    if ivs == [] {
      MeanOfNone();
    } else {
      var before, iv := ivs[..|ivs| - 1], ivs[|ivs| - 1];
      RunCount(before);
      RunMean(before);
      var s := Run(START, before);
      if Average(iv) > 0.0 {
        assert Averages(ivs)[..s.count] == Averages(before);
        ProcessMean(s, iv, Sum(Averages(before)));
      } else {
        ProcessKeeps(s, iv);
        assert Averages(ivs) == Averages(before);
      }
    }
  }

  lemma MeanOfNone()
    ensures IsMean(0.0, 0, 0.0)
  {
  }

  lemma ProcessKeeps(s: Latency, iv: Interval)
    requires Average(iv) <= 0.0 && (s.count == 0 ==> Value(s) == 0.0)
    ensures Value(Process(s, iv)) == Value(s)
  {
  }

  lemma Quotient(x: real, n: nat, sum: real)
    requires n >= 1 && IsMean(x, n, sum)
    ensures x == sum / n as real
  {
  }

  /** For the first 100 averages that count, the smoothed latency is their exact mean. */
  lemma {:induction false} SmoothedIsMean(ivs: seq<Interval>)
    requires 1 <= |Averages(ivs)| <= WINDOW
    ensures Run(START, ivs).smoothed == Some(Sum(Averages(ivs)) / |Averages(ivs)| as real)
  {
    hide IsMean;
    RunCount(ivs);
    RunMean(ivs);
    Quotient(Value(Run(START, ivs)), |Averages(ivs)|, Sum(Averages(ivs)));
  }

  /** A value m followed by further averages, each of which comes in with weight 1/100 and takes
      that share off what was there. */
  function Decayed(m: real, later: seq<real>): real {
    if later == [] then m
    else (99.0 * Decayed(m, later[..|later| - 1]) + later[|later| - 1]) / 100.0
  }

  lemma PositiveIsLinked(iv: Interval)
    requires Average(iv) > 0.0
    ensures iv.linked > 0
  {
  }

  lemma ProcessDecays(s: Latency, iv: Interval)
    requires s.count >= 100 && s.smoothed.Some? && Average(iv) > 0.0
    ensures Process(s, iv) == Latency(s.count + 1, Some((99.0 * s.smoothed.v + Average(iv)) / 100.0))
  {
    hide Average;
    PositiveIsLinked(iv);
    var m, a := s.smoothed.v, Average(iv);
    assert Divisor(s.count + 1) == 100;
    assert m + (a - m) / 100.0 == (99.0 * m + a) / 100.0;
  }

  lemma Hundredth(x: real, n: nat)
    requires n == 100
    ensures x / n as real == x / 100.0 == Decayed(x / 100.0, [])
  {
    assert n as real == 100.0;
  }

  /** From the hundredth average on, the smoothed latency is the mean of the first hundred into
      which every later one is mixed with weight 1/100. */
  lemma {:induction false} SmoothedDecays(ivs: seq<Interval>)
    requires |Averages(ivs)| >= 100
    ensures var a := Averages(ivs);
      Run(START, ivs).smoothed == Some(Decayed(Sum(a[..100]) / 100.0, a[100..]))
  {
    hide Average, Process;
    var a, before, iv := Averages(ivs), ivs[..|ivs| - 1], ivs[|ivs| - 1];
    RunCount(ivs);
    RunCount(before);
    if |a| == 100 {
      SmoothedIsMean(ivs);
      assert a[..100] == a && a[100..] == [];
      Hundredth(Sum(a), |a|);
    } else if Average(iv) > 0.0 {
      var b := Averages(before);
      SmoothedDecays(before);
      ProcessDecays(Run(START, before), iv);
      assert a[..100] == b[..100] && a[100..][..|a| - 101] == b[100..];
    } else {
      SmoothedDecays(before);
      ProcessSame(Run(START, before), iv);
      assert a == Averages(before);
    }
  }

  lemma ProcessSame(s: Latency, iv: Interval)
    requires s.count > 0 && s.smoothed.Some? && Average(iv) <= 0.0
    ensures Process(s, iv) == s
  {
  }

  /** The averages of a run are those of its intervals with linked packets whose total is
      positive, each the total divided by the number of packets. */
  lemma AveragesGrow(ivs: seq<Interval>, iv: Interval)
    ensures Averages(ivs + [iv]) ==
      if iv.linked > 0 && iv.total > 0.0 then Averages(ivs) + [iv.total / iv.linked as real] else Averages(ivs)
  {
    var more := ivs + [iv];
    assert more[..|more| - 1] == ivs;
    if iv.linked > 0 {
      var q, n := iv.total / iv.linked as real, iv.linked as real;
      assert q * n == iv.total;
      if q > 0.0 {
        assert q * n >= q;
      } else {
        assert (-q) * n >= 0.0;
      }
    }
  }

  /** At all times it lies between the smallest and the largest average seen. */
  lemma {:induction false} SmoothedIsBetween(ivs: seq<Interval>, lo: real, hi: real)
    requires Averages(ivs) != []
    requires forall k :: 0 <= k < |Averages(ivs)| ==> Within(lo, Averages(ivs)[k], hi)
    ensures Run(START, ivs).smoothed.Some? && Within(lo, Run(START, ivs).smoothed.v, hi)
  {
    RunCount(ivs);
    var before, iv := ivs[..|ivs| - 1], ivs[|ivs| - 1];
    RunCount(before);
    var s, a, all := Run(START, before), Average(iv), Averages(ivs);
    if a > 0.0 {
      assert all[|all| - 1] == a;
      if s.count == 0 {
        assert (a - 0.0) / 1.0 == a;
      } else {
        assert forall k :: 0 <= k < s.count ==> all[k] == Averages(before)[k];
        SmoothedIsBetween(before, lo, hi);
        BetweenStep(s.smoothed.v, a, Divisor(s.count + 1) as real, lo, hi);
      }
    } else {
      assert all == Averages(before);
      SmoothedIsBetween(before, lo, hi);
    }
  }

  /** There is no value exactly after an interval without linked packets while nothing counts yet. */
  lemma {:induction false} SmoothedNone(ivs: seq<Interval>)
    ensures Run(START, ivs).smoothed.None? <==>
      ivs != [] && ivs[|ivs| - 1].linked == 0 && Averages(ivs) == []
  {
    hide Average;
    RunCount(ivs);
    if ivs != [] {
      RunCount(ivs[..|ivs| - 1]);
    }
  }

  /** An interval without linked packets leaves a value that exists untouched. */
  lemma {:induction false} EmptyIntervalKeeps(ivs: seq<Interval>, total: real)
    requires Averages(ivs) != []
    ensures Run(START, ivs + [Interval(0, total)]) == Run(START, ivs)
  {
    RunCount(ivs);
    var more := ivs + [Interval(0, total)];
    assert more[..|more| - 1] == ivs;
  }

  /** rs_latency_t as it is updated at the end of each interval. */
  class LatencyStats {
    var count: nat
    var smoothed: Option<real>
    ghost var seen: seq<Interval>

    ghost predicate Valid()
      reads this
    {
      Latency(count, smoothed) == Run(START, seen)
    }

    constructor ()
      ensures Valid() && seen == []
    {
      count, smoothed, seen := 0, Some(0.0), [];
    }

    method ProcessLatency(linked: nat, total: real)
      requires Valid()
      modifies this
      ensures Valid() && seen == old(seen) + [Interval(linked, total)]
    {
      ghost var more := seen + [Interval(linked, total)];
      assert more[..|more| - 1] == seen;
      seen := more;
      if linked == 0 {
        if count == 0 {
          smoothed := None;
        }
        return;
      }
      var average := 0.0;
      if total != 0.0 {
        average := total / linked as real;
      }
      if smoothed.None? {
        smoothed := Some(0.0);
      }
      if average > 0.0 {
        count := count + 1;
        smoothed := Some(smoothed.v + (average - smoothed.v) / (if count < WINDOW then count else WINDOW) as real);
      }
    }
  }
}
