/** The sliding-window bandwidth meter, which forgets samples once they leave the window, and the
    limiter that reads it. Times are ticks; the window is given in ticks and, for rates, in seconds. */
module BandwidthMeter {
  import opened MapSums
  import Rounding

  datatype Sample = Sample(time: int, bytesIn: Word, bytesOut: Word)

  // ---- The log that forgets nothing ----

  function InWindow(log: seq<Sample>, cutoff: int): seq<Sample> {
    if log == [] then []
    else InWindow(log[..|log| - 1], cutoff) + if log[|log| - 1].time >= cutoff then [log[|log| - 1]] else []
  }

  function TotalIn(log: seq<Sample>): nat {
    if log == [] then 0 else TotalIn(log[..|log| - 1]) + log[|log| - 1].bytesIn as int
  }

  function TotalOut(log: seq<Sample>): nat {
    if log == [] then 0 else TotalOut(log[..|log| - 1]) + log[|log| - 1].bytesOut as int
  }

  lemma TotalAppend(log: seq<Sample>, s: Sample)
    ensures TotalIn(log + [s]) == TotalIn(log) + s.bytesIn as int
    ensures TotalOut(log + [s]) == TotalOut(log) + s.bytesOut as int
  {
    assert (log + [s])[..|log|] == log;
  }

  lemma WindowStep(log: seq<Sample>, i: nat, cutoff: int)
    requires i < |log|
    ensures InWindow(log[..i + 1], cutoff)
      == if log[i].time >= cutoff then InWindow(log[..i], cutoff) + [log[i]] else InWindow(log[..i], cutoff)
  {
    assert log[..i + 1][..i] == log[..i];
  }

  lemma {:induction false} WindowSplits(log: seq<Sample>, k: nat, cutoff: int)
    requires k <= |log|
    ensures InWindow(log, cutoff) == InWindow(log[..k], cutoff) + InWindow(log[k..], cutoff)
  {
    if k == |log| {
      assert log[..k] == log;
    } else {
      var init := log[..|log| - 1];
      WindowSplits(init, k, cutoff);
      assert init[..k] == log[..k] && log[k..][..|log[k..]| - 1] == init[k..];
    }
  }

  ghost predicate AllBefore(log: seq<Sample>, k: nat, cutoff: int)
    requires k <= |log|
  {
    forall i | 0 <= i < k :: log[i].time < cutoff
  }

  lemma {:induction false} EmptyWindowIff(log: seq<Sample>, k: nat, cutoff: int)
    requires k <= |log|
    ensures InWindow(log[..k], cutoff) == [] <==> AllBefore(log, k, cutoff)
  {
    if k > 0 {
      var before, last := InWindow(log[..k - 1], cutoff), log[k - 1];
      EmptyWindowIff(log, k - 1, cutoff);
      WindowStep(log, k - 1, cutoff);
      assert AllBefore(log, k, cutoff) <==> AllBefore(log, k - 1, cutoff) && last.time < cutoff;
      assert |before + [last]| > 0;
    }
  }

  // ---- What the meter has forgotten ----

  /** The front loop of a recording: the first sample from `k` on that is not before the cutoff. */
  function FirstKept(log: seq<Sample>, k: nat, cutoff: int): (r: nat)
    requires k <= |log|
    ensures k <= r <= |log|
    decreases |log| - k
  {
    if k < |log| && log[k].time < cutoff then FirstKept(log, k + 1, cutoff) else k
  }

  /** How many samples the recordings of the log have dropped. */
  function Forgotten(log: seq<Sample>, window: nat): (r: nat)
    ensures r <= |log|
  {
    if log == [] then 0
    else FirstKept(log, Forgotten(log[..|log| - 1], window), log[|log| - 1].time - window)
  }

  /** Some sample is more than a window later than sample `i`. */
  ghost predicate LeftBehind(log: seq<Sample>, i: nat, window: nat)
    requires i < |log|
  {
    exists j | 0 <= j < |log| :: log[i].time < log[j].time - window
  }

  lemma {:induction false} KeptFromHere(log: seq<Sample>, k: nat, cutoff: int)
    requires k <= |log|
    ensures forall i | k <= i < FirstKept(log, k, cutoff) :: log[i].time < cutoff
    decreases |log| - k
  {
    if k < |log| && log[k].time < cutoff {
      KeptFromHere(log, k + 1, cutoff);
    }
  }

  /** Only samples that some recording left behind are forgotten. */
  lemma {:induction false} ForgottenLeftBehind(log: seq<Sample>, window: nat, i: nat)
    requires i < Forgotten(log, window)
    ensures LeftBehind(log, i, window)
  {
    var init, last := log[..|log| - 1], log[|log| - 1];
    if i < Forgotten(init, window) {
      ForgottenLeftBehind(init, window, i);
      var j :| 0 <= j < |init| && init[i].time < init[j].time - window;
      assert log[j] == init[j];
    } else {
      KeptFromHere(log, Forgotten(init, window), last.time - window);
    }
  }

  /** A reading of what is kept sees what a reading of the whole log would, if and only if every
      forgotten sample is before the reader's window; otherwise it counts fewer samples. */
  lemma KeptWindowIff(log: seq<Sample>, k: nat, cutoff: int)
    requires k <= |log|
    ensures InWindow(log[k..], cutoff) == InWindow(log, cutoff) <==> AllBefore(log, k, cutoff)
    ensures |InWindow(log[k..], cutoff)| == |InWindow(log, cutoff)| <==> AllBefore(log, k, cutoff)
  {
    WindowSplits(log, k, cutoff);
    EmptyWindowIff(log, k, cutoff);
  }

  /** No sample is later than the reader. */
  ghost predicate NotAhead(log: seq<Sample>, now: int) {
    forall s | s in log :: s.time <= now
  }

  /** Read no earlier than any sample, nothing is missing. */
  lemma NothingMissing(log: seq<Sample>, window: nat, now: int)
    requires NotAhead(log, now)
    ensures AllBefore(log, Forgotten(log, window), now - window)
  {
    forall i | 0 <= i < Forgotten(log, window) ensures log[i].time < now - window {
      ForgottenLeftBehind(log, window, i);
    }
  }

  lemma KeptIsLogs(log: seq<Sample>, window: nat, now: int)
    ensures NotAhead(log, now) ==> InWindow(log[Forgotten(log, window)..], now - window) == InWindow(log, now - window)
  {
    if NotAhead(log, now) {
      NothingMissing(log, window, now);
      KeptWindowIff(log, Forgotten(log, window), now - window);
    }
  }

  // ---- Rates ----

  /** A quotient of non-negative amounts as floating point gives it. */
  datatype Rate = Finite(value: real) | Infinite | Undefined

  function Quotient(amount: nat, seconds: nat): Rate {
    if seconds > 0 then Finite(amount as real / seconds as real)
    else if amount > 0 then Infinite
    else Undefined
  }

  function Add(a: Rate, b: Rate): Rate {
    match (a, b)
    case (Finite(x), Finite(y)) => Finite(x + y)
    case (Undefined, _) => Undefined
    case (_, Undefined) => Undefined
    case _ => Infinite
  }

  predicate Exceeds(a: Rate, limit: Word) {
    a.Infinite? || (a.Finite? && a.value > limit as real)
  }

  datatype AggregateRate = AggregateRate(inPerSec: Rate, outPerSec: Rate, totalPerSec: Rate, sampleCount: nat)

  /** The rate of the samples in a window, had none been forgotten. */
  function RateOf(samples: seq<Sample>, seconds: nat): AggregateRate {
    var i, o := Quotient(Saturate(TotalIn(samples)), seconds), Quotient(Saturate(TotalOut(samples)), seconds);
    AggregateRate(i, o, Add(i, o), |samples|)
  }

  /** `r` times the seconds is the amount, up to the largest word. */
  ghost predicate RateFor(r: Rate, total: nat, seconds: nat) {
    r.Finite? && r.value * seconds as real == (if total <= MAX_WORD then total else MAX_WORD) as real
  }

  lemma QuotientMeaning(total: nat, seconds: nat)
    requires seconds > 0
    ensures RateFor(Quotient(Saturate(total), seconds), total, seconds)
  {
    Rounding.DivideTimes(Saturate(total) as real, seconds as real);
  }

  /** Each rate is that of what went its way, and the total is both. */
  lemma RateMeaning(samples: seq<Sample>, seconds: nat)
    requires seconds > 0
    ensures var r := RateOf(samples, seconds);
      && RateFor(r.inPerSec, TotalIn(samples), seconds) && RateFor(r.outPerSec, TotalOut(samples), seconds)
      && r.totalPerSec == Finite(r.inPerSec.value + r.outPerSec.value) && r.sampleCount == |samples|
  {
    QuotientMeaning(TotalIn(samples), seconds);
    QuotientMeaning(TotalOut(samples), seconds);
  }

  class BandwidthMeter {
    var samples: seq<Sample>
    const windowSecs: nat
    /** The window in clock ticks. */
    const window: nat
    /** Every sample ever recorded, oldest first. */
    ghost var log: seq<Sample>

    ghost function Dropped(): (k: nat)
      reads this
      ensures k <= |log|
    {
      Forgotten(log, window)
    }

    /** What is kept is the log without the samples its recordings have dropped. */
    ghost predicate Valid()
      reads this
    {
      samples == log[Dropped()..]
    }

    constructor (windowSecs: nat, ticksPerSec: nat)
      ensures Valid() && log == [] && this.windowSecs == windowSecs && window == windowSecs * ticksPerSec
    {
      var ticks := windowSecs * ticksPerSec;
      this.windowSecs, this.window, samples, log := windowSecs, ticks, [], [];
    }

    method RecordSample(now: int, bytesIn: Word, bytesOut: Word)
      requires Valid()
      modifies this
      ensures Valid() && log == old(log) + [Sample(now, bytesIn, bytesOut)]
    {
      var s := Sample(now, bytesIn, bytesOut);
      ghost var k: nat := Dropped();
      samples := samples + [s];
      log := log + [s];
      assert log[..|log| - 1] == old(log) && log[k..] == old(log)[k..] + [s];
      while samples != [] && samples[0].time < now - window
        invariant log == old(log) + [s] && k <= |log| && samples == log[k..]
        invariant FirstKept(log, k, now - window) == Dropped()
        decreases |samples|
      {
        assert log[k..][1..] == log[k + 1..];
        samples := samples[1..];
        k := k + 1;
      }
    }

    /** The rate is that of the whole log's window if and only if no sample inside it was dropped, as
        when the reader's clock is not behind any recorder's. */
    method Aggregate(now: int) returns (rate: AggregateRate)
      requires Valid()
      ensures rate == RateOf(InWindow(samples, now - window), windowSecs)
      ensures rate == RateOf(InWindow(log, now - window), windowSecs) <==> AllBefore(log, Dropped(), now - window)
      ensures NotAhead(log, now) ==> rate == RateOf(InWindow(log, now - window), windowSecs)
    {
      rate := Fold(now - window);
      KeptWindowIff(log, Dropped(), now - window);
      if NotAhead(log, now) {
        NothingMissing(log, window, now);
      }
    }

    method Fold(cutoff: int) returns (rate: AggregateRate)
      ensures rate == RateOf(InWindow(samples, cutoff), windowSecs)
    {
      var totalIn: Word, totalOut: Word, count := 0, 0, 0;
      for i := 0 to |samples|
        invariant totalIn == Saturate(TotalIn(InWindow(samples[..i], cutoff)))
        invariant totalOut == Saturate(TotalOut(InWindow(samples[..i], cutoff)))
        invariant count == |InWindow(samples[..i], cutoff)|
      {
        ghost var kept := InWindow(samples[..i], cutoff);
        WindowStep(samples, i, cutoff);
        if samples[i].time >= cutoff {
          TotalAppend(kept, samples[i]);
          SaturateStep(TotalIn(kept), samples[i].bytesIn);
          SaturateStep(TotalOut(kept), samples[i].bytesOut);
          totalIn := SaturatingAdd(totalIn, samples[i].bytesIn);
          totalOut := SaturatingAdd(totalOut, samples[i].bytesOut);
          count := count + 1;
        }
      }
      assert samples[..|samples|] == samples;
      var inPerSec, outPerSec := Quotient(totalIn, windowSecs), Quotient(totalOut, windowSecs);
      rate := AggregateRate(inPerSec, outPerSec, Add(inPerSec, outPerSec), count);
    }
  }

  /** Of two samples more than a window apart the first is forgotten, whoever still wants it. */
  lemma TwoApart(first: Sample, second: Sample, window: nat, cutoff: int)
    requires first.time < second.time - window && cutoff <= first.time
    ensures var log := [first, second];
      && Forgotten(log, window) == 1
      && InWindow(log, cutoff) == log && InWindow(log[1..], cutoff) == [second]
  {
    var log := [first, second];
    assert log[..1] == [first] && log[1..] == [second] && log[..0] == [];
    assert [first][..0] == [] && [second][..0] == [];
    assert Forgotten([first], window) == 0;
    assert FirstKept(log, 1, second.time - window) == 1;
    WindowStep(log, 0, cutoff);
    WindowStep(log, 1, cutoff);
    assert log[..2] == log;
  }

  /** A reader whose clock is behind a recorder's misses a sample of its own window: at time 5 the
      sample of time 0 counts, but the recording at time 20 has dropped it. */
  method StaleReaderMisses() returns (rate: AggregateRate)
    ensures var log := [Sample(0, 1, 0), Sample(20, 1, 0)];
      rate.sampleCount == 1 && RateOf(InWindow(log, 5 - 10), 10).sampleCount == 2
  {
    var meter := new BandwidthMeter(10, 1);
    meter.RecordSample(0, 1, 0);
    meter.RecordSample(20, 1, 0);
    rate := meter.Aggregate(5);
    assert meter.log == [Sample(0, 1, 0)] + [Sample(20, 1, 0)] == [Sample(0, 1, 0), Sample(20, 1, 0)];
    TwoApart(Sample(0, 1, 0), Sample(20, 1, 0), 10, -5);
  }

  // ---- The limiter ----

  datatype LimitResult = Allow | Reject

  lemma DividedSum(i: nat, o: nat, seconds: nat, limit: nat)
    requires seconds > 0
    ensures (i as real / seconds as real + o as real / seconds as real > limit as real) <==> i + o > limit * seconds
  {
    var s := seconds as real;
    var q, r := i as real / s, o as real / s;
    assert q * s == i as real && r * s == o as real;
    Rounding.Compare(q + r, limit as real, s);
    assert (q + r) * s == (i + o) as real;
    assert limit as real * s == (limit * seconds) as real;
  }

  predicate Exceeding(bytesIn: nat, bytesOut: nat, limit: Word, seconds: nat) {
    if seconds > 0 then Saturate(bytesIn) as int + Saturate(bytesOut) as int > limit as int * seconds
    else bytesIn > 0 && bytesOut > 0
  }

  lemma RateExceeds(kept: seq<Sample>, seconds: nat, limit: Word)
    ensures Exceeds(RateOf(kept, seconds).totalPerSec, limit) <==> Exceeding(TotalIn(kept), TotalOut(kept), limit, seconds)
  {
    if seconds > 0 {
      DividedSum(Saturate(TotalIn(kept)), Saturate(TotalOut(kept)), seconds, limit);
    }
  }

  class BandwidthLimiter {
    var limit: Word
    const meter: BandwidthMeter

    constructor (meter: BandwidthMeter, limit: Word)
      ensures this.meter == meter && this.limit == limit
    {
      this.meter, this.limit := meter, limit;
    }

    /** Rejects exactly when a limit is set and the bytes kept for the window, both ways, exceed what the
        limit allows in that many seconds. A window of no seconds rejects traffic that goes both ways. */
    method Check(now: int) returns (result: LimitResult)
      requires meter.Valid()
      ensures var kept := InWindow(meter.samples, now - meter.window);
        result == Reject <==> limit > 0 && Exceeding(TotalIn(kept), TotalOut(kept), limit, meter.windowSecs)
      ensures NotAhead(meter.log, now) ==>
        InWindow(meter.samples, now - meter.window) == InWindow(meter.log, now - meter.window)
    {
      KeptIsLogs(meter.log, meter.window, now);
      if limit == 0 {
        return Allow;
      }
      var rate := meter.Aggregate(now);
      ghost var kept := InWindow(meter.samples, now - meter.window);
      RateExceeds(kept, meter.windowSecs, limit);
      return if Exceeds(rate.totalPerSec, limit) then Reject else Allow;
    }

    method SetLimit(bytesPerSec: Word)
      modifies this
      ensures limit == bytesPerSec
    {
      limit := bytesPerSec;
    }
  }
}
