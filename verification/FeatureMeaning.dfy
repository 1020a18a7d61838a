/** What each request feature says about the events, by counting the events themselves. */
module FeatureMeaning {
  import opened DdosFeatures
  import opened Tallies
  import Rounding

  // ---- Counting ----

  /** `chosen` are the places of `value`. */
  ghost predicate Places<T>(values: seq<T>, value: T, chosen: set<nat>) {
    forall i: nat :: i in chosen <==> i < |values| && values[i] == value
  }

  lemma {:induction false} PlacesCount<T>(values: seq<T>, value: T, chosen: set<nat>)
    requires Places(values, value, chosen)
    ensures multiset(values)[value] == |chosen|
  {
    if values == [] {
      assert chosen == {};
    } else {
      var k := |values| - 1;
      PlacesCount(values[..k], value, chosen - {k});
      assert values == values[..k] + [values[k]];
    }
  }

  /** `share` of the events are in the places `chosen`. */
  ghost predicate ShareFor(share: real, events: seq<Event>, chosen: set<nat>) {
    share * |events| as real == |chosen| as real
  }

  lemma ShareMeaning(events: seq<Event>, flags: seq<bool>, chosen: set<nat>)
    requires |flags| == |events| > 0 && Places(flags, true, chosen)
    ensures ShareFor(Share(flags, |events|), events, chosen)
  {
    PlacesCount(flags, true, chosen);
    Rounding.DivideTimes(|chosen| as real, |events| as real);
  }

  /** The share of errors is that of the statuses from 400 on. */
  lemma ErrorMeaning(events: seq<Event>, windowSecs: real, ln: real -> real)
    requires windowSecs > 0.0 && events != []
    ensures ShareFor(Features(events, windowSecs, ln).errorRate, events,
      set i: nat | i < |events| && events[i].status >= 400)
  {
    ShareMeaning(events, Project(Project(events, StatusOf), IsError), set i: nat | i < |events| && events[i].status >= 400);
  }

  /** Each ratio is that of its own flag. */
  lemma RatioMeaning(events: seq<Event>, windowSecs: real, ln: real -> real)
    requires windowSecs > 0.0 && events != []
    ensures var v := Features(events, windowSecs, ln);
      && ShareFor(v.cookieRatio, events, set i: nat | i < |events| && events[i].hasCookies)
      && ShareFor(v.refererRatio, events, set i: nat | i < |events| && events[i].hasReferer)
      && ShareFor(v.acceptLanguageRatio, events, set i: nat | i < |events| && events[i].hasAcceptLanguage)
      && ShareFor(v.suspiciousPathRatio, events, set i: nat | i < |events| && events[i].suspiciousPath)
  {
    ShareMeaning(events, Project(events, CookiesOf), set i: nat | i < |events| && events[i].hasCookies);
    ShareMeaning(events, Project(events, RefererOf), set i: nat | i < |events| && events[i].hasReferer);
    ShareMeaning(events, Project(events, LanguageOf), set i: nat | i < |events| && events[i].hasAcceptLanguage);
    ShareMeaning(events, Project(events, SuspiciousOf), set i: nat | i < |events| && events[i].suspiciousPath);
  }

  /** Each count is that of the distinct values of its own field. */
  lemma UniqueMeaning(events: seq<Event>, windowSecs: real, ln: real -> real)
    requires windowSecs > 0.0 && events != []
    ensures var v := Features(events, windowSecs, ln);
      && v.uniquePaths == |set e | e in events :: e.pathHash| as real
      && v.uniqueHosts == |set e | e in events :: e.hostHash| as real
      && v.uniqueUserAgents == |set e | e in events :: e.userAgentHash| as real
  {
    DistinctMeaning(events, PathOf, set e | e in events :: e.pathHash);
    DistinctMeaning(events, HostOf, set e | e in events :: e.hostHash);
    DistinctMeaning(events, UserAgentOf, set e | e in events :: e.userAgentHash);
  }

  lemma DistinctMeaning(events: seq<Event>, f: Event -> nat, values: set<nat>)
    requires forall v: nat :: v in values <==> exists e | e in events :: f(e) == v
    ensures Distinct(Project(events, f)) == values
  {
    forall v: nat ensures v in Distinct(Project(events, f)) <==> v in values {
      if v in values {
        var e :| e in events && f(e) == v;
        var i :| 0 <= i < |events| && events[i] == e;
        assert Project(events, f)[i] == v;
      }
    }
  }

  // ---- Means ----

  function DurationSum(events: seq<Event>): nat {
    if events == [] then 0 else events[0].durationMs + DurationSum(events[1..])
  }

  function LengthSum(events: seq<Event>): nat {
    if events == [] then 0 else events[0].contentLength + LengthSum(events[1..])
  }

  lemma FirstOfSum(events: seq<Event>, f: Event -> nat)
    requires events != []
    ensures Sum(Project(events, f)) == f(events[0]) + Sum(Project(events[1..], f))
  {
    assert Project(events, f) == [f(events[0])] + Project(events[1..], f);
    SumConcat([f(events[0])], Project(events[1..], f));
    assert Sum([f(events[0])]) == f(events[0]);
  }

  lemma {:induction false} SumMeaning(events: seq<Event>)
    ensures Sum(Project(events, DurationOf)) == DurationSum(events)
    ensures Sum(Project(events, LengthOf)) == LengthSum(events)
  {
    if events != [] {
      FirstOfSum(events, DurationOf);
      FirstOfSum(events, LengthOf);
      SumMeaning(events[1..]);
    }
  }

  ghost predicate MeanFor(mean: real, n: nat, total: nat) {
    mean * n as real == total as real
  }

  lemma MeanTimes(values: seq<nat>, n: nat)
    requires n > 0
    ensures MeanFor(Mean(values, n), n, Sum(values))
  {
    Rounding.DivideTimes(Sum(values) as real, n as real);
  }

  /** Each average, times the number of events, is the sum of its own field. */
  lemma MeanMeaning(events: seq<Event>, windowSecs: real, ln: real -> real)
    requires windowSecs > 0.0 && events != []
    ensures MeanFor(Features(events, windowSecs, ln).avgDurationMs, |events|, DurationSum(events))
    ensures MeanFor(Features(events, windowSecs, ln).avgContentLength, |events|, LengthSum(events))
  {
    MeanTimes(Project(events, DurationOf), |events|);
    MeanTimes(Project(events, LengthOf), |events|);
    SumMeaning(events);
  }

  /** `rate` times the window is the number of requests. */
  ghost predicate RateFor(rate: real, windowSecs: real, n: nat) {
    rate * windowSecs == n as real
  }

  lemma RateTimes(n: nat, windowSecs: real)
    requires windowSecs > 0.0
    ensures RateFor(n as real / windowSecs, windowSecs, n)
  {
    Rounding.DivideTimes(n as real, windowSecs);
  }

  lemma RequestRateMeaning(events: seq<Event>, windowSecs: real, ln: real -> real)
    requires windowSecs > 0.0
    ensures RateFor(Features(events, windowSecs, ln).requestRate, windowSecs, |events|)
  {
    RateTimes(|events|, windowSecs);
  }

  // ---- The most frequent path ----

  function Visits(events: seq<Event>, path: nat): nat {
    |set i: nat | i < |events| && events[i].pathHash == path|
  }

  lemma VisitsCount(events: seq<Event>, path: nat)
    ensures multiset(Project<Event, nat>(events, PathOf))[path] == Visits(events, path)
  {
    PlacesCount<nat>(Project<Event, nat>(events, PathOf), path, set i: nat | i < |events| && events[i].pathHash == path);
  }

  lemma MostVisited(events: seq<Event>) returns (path: nat)
    requires events != []
    ensures Peak(Project<Event, nat>(events, PathOf)) == Visits(events, path)
    ensures forall p: nat :: Visits(events, p) <= Visits(events, path)
  {
    var paths: seq<nat> := Project<Event, nat>(events, PathOf);
    PeakIsPeak(paths);
    var most: nat :| multiset(paths)[most] == Peak(paths);
    path := most;
    VisitsCount(events, path);
    forall p: nat ensures Visits(events, p) <= Visits(events, path) {
      VisitsCount(events, p);
    }
  }

  /** The repetition is the share of the path with the most visits. */
  lemma RepetitionMeaning(events: seq<Event>, windowSecs: real, ln: real -> real) returns (path: nat)
    requires windowSecs > 0.0 && events != []
    ensures forall p: nat :: Visits(events, p) <= Visits(events, path)
    ensures MeanFor(Features(events, windowSecs, ln).pathRepetition, |events|, Visits(events, path))
  {
    path := MostVisited(events);
    PathEntries(events, windowSecs, ln);
    PeakTimes(Visits(events, path), |events|);
  }

  lemma PeakTimes(peak: nat, n: nat)
    requires n > 0
    ensures MeanFor(peak as real / n as real, n, peak)
  {
    Rounding.DivideTimes(peak as real, n as real);
  }

  // ---- Bursts ----

  /** One event has no burst; simultaneous ones have their number; otherwise the score is the number of gaps
      over the time from the first to the last. */
  ghost predicate BurstFor(burst: real, n: nat, span: real) {
    if n == 1 then burst == 0.0
    else if span == 0.0 then burst == n as real
    else burst == (n - 1) as real / span
  }

  /** `first` and `last` are among the events, and no event is before the one or after the other. */
  ghost predicate Spans(events: seq<Event>, first: Event, last: Event) {
    && first in events && last in events
    && forall e | e in events :: first.timestamp <= e.timestamp <= last.timestamp
  }

  /** The span is the time from the first event to the last. */
  lemma SpanMeaning(events: seq<Event>, times: seq<real>, first: Event, last: Event)
    requires Spans(events, first, last) && times == Project(events, TimestampOf)
    ensures times != [] && Span(times) == last.timestamp - first.timestamp >= 0.0
  {
    var i :| 0 <= i < |events| && events[i] == first;
    var j :| 0 <= j < |events| && events[j] == last;
    assert times[i] in times && times[j] in times;
    forall t | t in times ensures first.timestamp <= t <= last.timestamp {
      var k :| 0 <= k < |times| && times[k] == t;
      assert events[k] in events;
    }
  }

  lemma BurstOverMeaning(n: nat, span: real)
    requires n > 0 && span >= 0.0
    ensures BurstFor(BurstOver(n, span), n, span)
  {
  }

  lemma BurstEntry(events: seq<Event>, windowSecs: real, ln: real -> real, times: seq<real>)
    requires windowSecs > 0.0 && events != [] && times == Project(events, TimestampOf)
    ensures Features(events, windowSecs, ln).burstScore == BurstOver(|events|, Span(times))
  {
  }

  lemma BurstMeaning(events: seq<Event>, windowSecs: real, ln: real -> real, times: seq<real>)
    requires windowSecs > 0.0 && events != [] && times == Project(events, TimestampOf)
    ensures BurstFor(Features(events, windowSecs, ln).burstScore, |events|, Span(times))
  {
    BurstEntry(events, windowSecs, ln, times);
    assert Earliest(times) <= Latest(times);
    BurstOverMeaning(|events|, Span(times));
  }

  // ---- Entropy ----

  function MethodCount(events: seq<Event>, bucket: nat): nat {
    |set i: nat | i < |events| && events[i].verb % 8 == bucket|
  }

  /** What a bucket of `count` of the `n` requests adds to the entropy. */
  function Part(count: nat, n: real, ln: real -> real): real
    requires n > 0.0
  {
    var p := count as real / n;
    if count > 0 then -(p * ln(p)) else 0.0
  }

  /** The entropy of the first `k` of the eight method buckets. */
  function EntropySum(events: seq<Event>, k: nat, ln: real -> real): real
    requires events != []
  {
    if k == 0 then 0.0
    else EntropySum(events, k - 1, ln) + Part(MethodCount(events, k - 1), |events| as real, ln)
  }

  lemma EntropyStep(counts: seq<nat>, k: nat, n: real, ln: real -> real)
    requires 0 < k <= |counts| && n > 0.0
    ensures EntropyOf(counts[..k], n, ln) == EntropyOf(counts[..k - 1], n, ln) + Part(counts[k - 1], n, ln)
  {
    assert counts[..k][..k - 1] == counts[..k - 1];
  }

  lemma MethodTally(events: seq<Event>, bucket: nat)
    requires bucket < 8
    ensures Tally(Project(events, VerbOf))[bucket] == MethodCount(events, bucket)
  {
    PlacesCount(Buckets(Project(events, VerbOf)), bucket, set i: nat | i < |events| && events[i].verb % 8 == bucket);
  }

  lemma {:induction false} EntropyUpTo(events: seq<Event>, k: nat, ln: real -> real)
    requires events != [] && k <= 8
    ensures EntropyOf(Tally(Project(events, VerbOf))[..k], |events| as real, ln) == EntropySum(events, k, ln)
  {
    if k > 0 {
      var counts := Tally(Project(events, VerbOf));
      EntropyUpTo(events, k - 1, ln);
      MethodTally(events, k - 1);
      EntropyStep(counts, k, |events| as real, ln);
    }
  }

  /** The entropy of the request methods, counted in eight buckets. */
  lemma EntropyMeaning(events: seq<Event>, windowSecs: real, ln: real -> real)
    requires windowSecs > 0.0 && events != []
    ensures Features(events, windowSecs, ln).methodEntropy == EntropySum(events, 8, ln)
  {
    EntropyUpTo(events, 8, ln);
    var counts := Tally(Project(events, VerbOf));
    assert counts[..8] == counts;
  }
}
