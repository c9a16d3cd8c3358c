/**
 * Processor time of one instance (bentod/src/metrics.rs,
 * `Sampler::record_instance`). Rates are exact reals.
 */
module CpuSampler {
  import opened Options
  import opened Series

  const NS_PER_SEC: real := 1_000_000_000.0

  /** One reading: the cumulative counter, the processors, and when. */
  datatype Reading = Reading(cpuTimeNs: nat, vcpus: nat, at: int)

  /** What one reading adds: the rate since the reading before it. */
  datatype Sample = Sample(at: int, rate: real, elapsed: int, percent: real)

  function Clamp(x: real, low: real, high: real): real { if x < low then low else if x > high then high else x }

  function Vcpus(r: Reading): nat { if r.vcpus == 0 then 1 else r.vcpus }

  /** The counter did not go back and time went on, so there is a rate. */
  predicate Continues(before: Reading, after: Reading) {
    before.cpuTimeNs <= after.cpuTimeNs && before.at < after.at
  }

  function Rate(spent: nat, elapsed: int): real
    requires elapsed > 0
  {
    spent as real / elapsed as real
  }

  function Percent(rate: real, vcpus: nat): real
    requires vcpus > 0
  {
    Clamp(rate / (vcpus as real * NS_PER_SEC) * 100.0, 0.0, 100.0)
  }

  function SampleBetween(before: Reading, after: Reading): Sample
    requires Continues(before, after)
  {
    var elapsed := after.at - before.at;
    var rate := Rate(after.cpuTimeNs - before.cpuTimeNs, elapsed);
    Sample(after.at, rate, elapsed, Percent(rate, Vcpus(after)))
  }

  /** Everything pushed for a run of readings, oldest first. */
  function Samples(readings: seq<Reading>): seq<Sample>
    decreases |readings|
  {
    if |readings| <= 1 then []
    else
      var before, after := readings[|readings| - 2], readings[|readings| - 1];
      Samples(readings[..|readings| - 1]) + (if Continues(before, after) then [SampleBetween(before, after)] else [])
  }

  function PointOf(s: Sample): Point { Point(s.at, s.percent) }

  function Points(samples: seq<Sample>): (r: seq<Point>)
    ensures |r| == |samples| && forall i :: 0 <= i < |r| ==> r[i] == PointOf(samples[i])
  {
    seq(|samples|, i requires 0 <= i < |samples| => PointOf(samples[i]))
  }

  function LastRate(samples: seq<Sample>): real { if samples == [] then 0.0 else samples[|samples| - 1].rate }

  class InstanceState {
    var previous: Option<Reading>
    var cpuNsPerSec: real
    var cpuPct: Ring
    /** Every reading so far. */
    ghost var readings: seq<Reading>

    ghost predicate Valid()
      reads this, cpuPct
    {
      && previous == (if readings == [] then None else Some(readings[|readings| - 1]))
      && cpuNsPerSec == LastRate(Samples(readings))
      && cpuPct.points == Kept(Points(Samples(readings)))
    }

    constructor ()
      ensures Valid() && fresh(cpuPct) && readings == []
    {
      previous, cpuNsPerSec, readings := None, 0.0, [];
      cpuPct := new Ring();
    }

    /** The first reading, and one after a restart, only set the baseline. */
    method RecordInstance(r: Reading)
      requires Valid()
      modifies this, cpuPct
      ensures Valid() && cpuPct == old(cpuPct) && readings == old(readings) + [r]
    {
      ghost var before := readings;
      SamplesLast(before, r);
      if previous.Some? {
        var elapsed := r.at - previous.value.at;
        if r.cpuTimeNs >= previous.value.cpuTimeNs && elapsed > 0 {
          var rate := Rate(r.cpuTimeNs - previous.value.cpuTimeNs, elapsed);
          cpuNsPerSec := rate;
          var vcpus := if r.vcpus == 0 then 1 else r.vcpus;
          cpuPct.PushPoint(r.at, Percent(rate, vcpus));
          PointsLast(Samples(before), SampleBetween(previous.value, r));
        }
      }
      previous := Some(r);
      readings := readings + [r];
    }
  }

  lemma SamplesLast(readings: seq<Reading>, r: Reading)
    ensures Samples(readings + [r]) ==
            if readings != [] && Continues(readings[|readings| - 1], r)
            then Samples(readings) + [SampleBetween(readings[|readings| - 1], r)]
            else Samples(readings)
  {
    assert (readings + [r])[..|readings|] == readings;
  }

  lemma PointsLast(samples: seq<Sample>, s: Sample)
    ensures Points(samples + [s])[..|samples|] == Points(samples)
    ensures Kept(Points(samples + [s])) == Push(Kept(Points(samples)), PointOf(s))
  {
    var p := Points(samples + [s]);
    assert p[..|p| - 1] == Points(samples);
  }

  // ------------------------------------------------------------------
  // Conservation
  // ------------------------------------------------------------------

  /** Processor time according to the pushed rates. */
  function Charged(samples: seq<Sample>): real
    decreases |samples|
  {
    if samples == [] then 0.0
    else Charged(samples[..|samples| - 1]) + Charge(samples[|samples| - 1])
  }

  function Charge(s: Sample): real { s.rate * s.elapsed as real }

  /** A run of readings begins at `i`: the first one, or one after a break. */
  predicate Begins(readings: seq<Reading>, i: nat)
    requires i < |readings|
  {
    i == 0 || !Continues(readings[i - 1], readings[i])
  }

  /** The counter at the start of every run among the first `n` readings. */
  function Starts(readings: seq<Reading>, n: nat): int
    requires n <= |readings|
  {
    if n == 0 then 0
    else Starts(readings, n - 1) + (if Begins(readings, n - 1) then readings[n - 1].cpuTimeNs else 0)
  }

  /** The counter at the end of every run that a later one of the first `n` readings closed. */
  function ClosedEnds(readings: seq<Reading>, n: nat): int
    requires n <= |readings|
  {
    if n <= 1 then 0
    else ClosedEnds(readings, n - 1) + (if Begins(readings, n - 1) then readings[n - 2].cpuTimeNs else 0)
  }

  /** The counter at the end of every run; the last of the `n` readings ends one. */
  function Ends(readings: seq<Reading>, n: nat): int
    requires n <= |readings|
  {
    if n == 0 then 0 else ClosedEnds(readings, n) + readings[n - 1].cpuTimeNs
  }

  /** How many runs the first `n` readings fall into. */
  function RunCount(readings: seq<Reading>, n: nat): nat
    requires n <= |readings|
  {
    if n == 0 then 0 else RunCount(readings, n - 1) + (if Begins(readings, n - 1) then 1 else 0)
  }

  lemma ChargedLast(samples: seq<Sample>, s: Sample)
    ensures Charged(samples + [s]) == Charged(samples) + Charge(s)
  {
    assert (samples + [s])[..|samples|] == samples;
  }

  /** A sample charges exactly what the counter rose. */
  lemma SampleCharge(before: Reading, after: Reading)
    requires Continues(before, after)
    ensures Charge(SampleBetween(before, after)) == (after.cpuTimeNs - before.cpuTimeNs) as real
  {
    var spent, elapsed := (after.cpuTimeNs - before.cpuTimeNs) as real, (after.at - before.at) as real;
    assert spent / elapsed * elapsed == spent;
  }

  /** One more reading charges what the counter rose, or nothing after a break. */
  lemma ChargeGoesOn(front: seq<Reading>, after: Reading)
    requires front != []
    ensures !Continues(front[|front| - 1], after) ==> Samples(front + [after]) == Samples(front)
    ensures Continues(front[|front| - 1], after) ==>
              Charged(Samples(front + [after]))
              == Charged(Samples(front)) + (after.cpuTimeNs - front[|front| - 1].cpuTimeNs) as real
  {
    SamplesLast(front, after);
    if Continues(front[|front| - 1], after) {
      var s := SampleBetween(front[|front| - 1], after);
      SampleCharge(front[|front| - 1], after);
      ChargedLast(Samples(front), s);
    }
  }

  /** One more reading moves the end of its run, or closes that run and starts the next where it ends. */
  lemma EndsGoOn(readings: seq<Reading>, n: nat)
    requires 2 <= n <= |readings|
    ensures
      var before, after := readings[n - 2], readings[n - 1];
      Ends(readings, n) - Starts(readings, n)
      == Ends(readings, n - 1) - Starts(readings, n - 1)
         + if Continues(before, after) then after.cpuTimeNs - before.cpuTimeNs else 0
  {
  }

  lemma {:induction false} SamplesAreCounted(readings: seq<Reading>, n: nat)
    requires n <= |readings|
    ensures |Samples(readings[..n])| + RunCount(readings, n) == n
    decreases n
  {
    if n >= 2 {
      SamplesAreCounted(readings, n - 1);
      assert readings[..n] == readings[..n - 1] + [readings[n - 1]];
      SamplesLast(readings[..n - 1], readings[n - 1]);
    } else if n == 1 {
      SamplesAreCounted(readings, 0);
    }
  }

  /**
   * Processor time is conserved across restarts. For any readings at all,
   * rate times elapsed time over the pushed samples is what the counter rose
   * within the maximal runs in which it did not go back and time went on, and
   * there is one sample fewer than readings in each run.
   */
  lemma {:induction false} CpuTimeIsConserved(readings: seq<Reading>, n: nat)
    requires n <= |readings|
    ensures Charged(Samples(readings[..n])) == (Ends(readings, n) - Starts(readings, n)) as real
    ensures |Samples(readings[..n])| + RunCount(readings, n) == n
    decreases n
  {
    SamplesAreCounted(readings, n);
    if n >= 2 {
      CpuTimeIsConserved(readings, n - 1);
      var front, after := readings[..n - 1], readings[n - 1];
      assert readings[..n] == front + [after] && front[|front| - 1] == readings[n - 2];
      ChargeGoesOn(front, after);
      EndsGoOn(readings, n);
    } else if n == 1 {
      CpuTimeIsConserved(readings, 0);
    }
  }

  /** How often the counter went back among the first `n` readings. */
  function BackwardSteps(readings: seq<Reading>, n: nat): nat
    requires n <= |readings|
  {
    if n <= 1 then 0
    else BackwardSteps(readings, n - 1) + (if readings[n - 1].cpuTimeNs < readings[n - 2].cpuTimeNs then 1 else 0)
  }

  /** With readings at increasing times, only a counter that went back costs a point. */
  lemma {:induction false} OnlyRestartsCostPoints(readings: seq<Reading>, n: nat)
    requires 0 < n <= |readings| && forall i :: 0 < i < |readings| ==> readings[i - 1].at < readings[i].at
    ensures |Samples(readings[..n])| == n - 1 - BackwardSteps(readings, n)
    decreases n
  {
    if n >= 2 {
      assert readings[n - 2].at < readings[n - 1].at;
      assert readings[..n][..n - 1] == readings[..n - 1];
      OnlyRestartsCostPoints(readings, n - 1);
    }
  }

  /** Every percentage lies between zero and a hundred, and no rate is negative. */
  lemma {:induction false} PercentagesAreBounded(readings: seq<Reading>, i: nat)
    requires i < |Samples(readings)|
    ensures 0.0 <= Samples(readings)[i].percent <= 100.0 && 0.0 <= Samples(readings)[i].rate
    decreases |readings|
  {
    if i < |Samples(readings[..|readings| - 1])| {
      PercentagesAreBounded(readings[..|readings| - 1], i);
    } else {
      var before, after := readings[|readings| - 2], readings[|readings| - 1];
      RateIsNotNegative(before, after);
    }
  }

  /** Every sample is that of two readings next to each other. */
  lemma {:induction false} SampleIsOfNeighbours(readings: seq<Reading>, i: nat) returns (j: nat)
    requires i < |Samples(readings)|
    ensures j + 1 < |readings| && Continues(readings[j], readings[j + 1])
    ensures Samples(readings)[i] == SampleBetween(readings[j], readings[j + 1])
    decreases |readings|
  {
    var front := readings[..|readings| - 1];
    if i < |Samples(front)| {
      j := SampleIsOfNeighbours(front, i);
    } else {
      j := |readings| - 2;
    }
  }

  /** The time all processors of the instance have between two readings. */
  function Available(before: Reading, after: Reading): real {
    (if after.vcpus == 0 then 1 else after.vcpus) as real * (after.at - before.at) as real * NS_PER_SEC
  }

  /**
   * A percentage is the share of the time all processors had. What was spent
   * is that part of it exactly, unless more was spent than there was: then,
   * and only then, it is cut to a hundred.
   */
  lemma PercentageIsShare(before: Reading, after: Reading)
    requires Continues(before, after)
    ensures
      var s, spent := SampleBetween(before, after), (after.cpuTimeNs - before.cpuTimeNs) as real;
      if spent <= Available(before, after) then s.percent * Available(before, after) == 100.0 * spent
      else s.percent == 100.0
    ensures SampleBetween(before, after).at == after.at
  {
    var spent, elapsed := (after.cpuTimeNs - before.cpuTimeNs) as real, (after.at - before.at) as real;
    var each := Vcpus(after) as real * NS_PER_SEC;
    RateIsNotNegative(before, after);
    ShareOf(spent, elapsed, each);
    assert Available(before, after) == each * elapsed;
  }

  lemma ShareOf(spent: real, elapsed: real, each: real)
    requires spent >= 0.0 && elapsed > 0.0 && each > 0.0
    ensures spent / elapsed / each * 100.0 * (each * elapsed) == 100.0 * spent
    ensures spent / elapsed / each * 100.0 >= 0.0
    ensures spent / elapsed / each * 100.0 <= 100.0 <==> spent <= each * elapsed
  {
    var rate := spent / elapsed;
    assert rate * elapsed == spent;
    var share := rate / each;
    assert share * each == rate;
    assert share * (each * elapsed) == spent;
    assert each * elapsed > 0.0;
    if share > 1.0 {
      assert share * (each * elapsed) > each * elapsed;
    }
  }

  lemma RateIsNotNegative(before: Reading, after: Reading)
    requires Continues(before, after)
    ensures 0.0 <= SampleBetween(before, after).rate
  {
    var spent, elapsed := (after.cpuTimeNs - before.cpuTimeNs) as real, (after.at - before.at) as real;
    assert spent >= 0.0 && elapsed > 0.0;
    assert spent / elapsed >= 0.0;
  }
}
