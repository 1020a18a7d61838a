/** Request features per client address: from a ring buffer of live events, and from the columns of a
    parsed log. Arithmetic is over the reals; the logarithm is a parameter. */
module DdosFeatures {
  import opened Sorting
  import opened Tallies

  const METHODS := 8

  datatype Event = Event(timestamp: real, verb: nat, pathHash: nat, hostHash: nat, userAgentHash: nat, status: nat,
                         durationMs: nat, contentLength: nat, hasCookies: bool, hasReferer: bool,
                         hasAcceptLanguage: bool, suspiciousPath: bool)

  function TimestampOf(e: Event): real { e.timestamp }
  function VerbOf(e: Event): nat { e.verb }
  function PathOf(e: Event): nat { e.pathHash }
  function HostOf(e: Event): nat { e.hostHash }
  function UserAgentOf(e: Event): nat { e.userAgentHash }
  function StatusOf(e: Event): nat { e.status }
  function DurationOf(e: Event): nat { e.durationMs }
  function LengthOf(e: Event): nat { e.contentLength }
  function CookiesOf(e: Event): bool { e.hasCookies }
  function RefererOf(e: Event): bool { e.hasReferer }
  function LanguageOf(e: Event): bool { e.hasAcceptLanguage }
  function SuspiciousOf(e: Event): bool { e.suspiciousPath }

  /** A log of events, one column per field. */
  datatype Columns = Columns(timestamps: seq<real>, verbs: seq<nat>, pathHashes: seq<nat>, hostHashes: seq<nat>,
                             userAgentHashes: seq<nat>, statuses: seq<nat>, durations: seq<nat>,
                             contentLengths: seq<nat>, hasCookies: seq<bool>, hasReferer: seq<bool>,
                             hasAcceptLanguage: seq<bool>, suspiciousPaths: seq<bool>)

  function ColumnsOf(events: seq<Event>): Columns {
    Columns(Project(events, TimestampOf), Project(events, VerbOf), Project(events, PathOf), Project(events, HostOf),
      Project(events, UserAgentOf), Project(events, StatusOf), Project(events, DurationOf), Project(events, LengthOf),
      Project(events, CookiesOf), Project(events, RefererOf), Project(events, LanguageOf), Project(events, SuspiciousOf))
  }

  // ---- The features ----

  datatype FeatureVector = FeatureVector(requestRate: real, uniquePaths: real, uniqueHosts: real, errorRate: real,
                                         avgDurationMs: real, methodEntropy: real, burstScore: real,
                                         pathRepetition: real, avgContentLength: real, uniqueUserAgents: real,
                                         cookieRatio: real, refererRatio: real, acceptLanguageRatio: real,
                                         suspiciousPathRatio: real)

  function Earliest(times: seq<real>): (t: real)
    requires times != []
    ensures t in times && forall x | x in times :: t <= x
  {
    if |times| == 1 then times[0]
    else
      assert times == [times[0]] + times[1..];
      var rest := Earliest(times[1..]);
      if times[0] <= rest then times[0] else rest
  }

  function Latest(times: seq<real>): (t: real)
    requires times != []
    ensures t in times && forall x | x in times :: x <= t
  {
    if |times| == 1 then times[0]
    else
      assert times == [times[0]] + times[1..];
      var rest := Latest(times[1..]);
      if times[0] >= rest then times[0] else rest
  }

  /** Arrivals per second over the span; the number of arrivals if they are simultaneous. */
  function BurstOver(n: nat, span: real): real {
    if n < 2 then 0.0 else if span > 0.0 then (n - 1) as real / span else n as real
  }

  function Span(times: seq<real>): real
    requires times != []
  {
    Latest(times) - Earliest(times)
  }

  function Burst(times: seq<real>): real {
    if times == [] then 0.0 else BurstOver(|times|, Span(times))
  }

  function Bucket(verb: nat): nat {
    verb % METHODS
  }

  function Buckets(verbs: seq<nat>): seq<nat> {
    Project<nat, nat>(verbs, Bucket)
  }

  function EntropyOf(counts: seq<nat>, n: real, ln: real -> real): real
    requires n > 0.0
  {
    if counts == [] then 0.0
    else
      var before, c := EntropyOf(counts[..|counts| - 1], n, ln), counts[|counts| - 1];
      if c > 0 then before - (c as real / n) * ln(c as real / n) else before
  }

  /** How many requests fall into each method bucket. */
  function Tally(verbs: seq<nat>): (counts: seq<nat>)
    ensures |counts| == METHODS
    ensures forall b: nat | b < METHODS :: counts[b] == multiset(Buckets(verbs))[b]
  {
    var buckets := multiset(Buckets(verbs));
    seq(METHODS, (b: nat) => buckets[b])
  }

  /** Shannon entropy of the request methods. */
  function Entropy(verbs: seq<nat>, ln: real -> real): real
    requires verbs != []
  {
    EntropyOf(Tally(verbs), |verbs| as real, ln)
  }

  predicate IsError(status: nat) {
    status >= 400
  }

  function Share(flags: seq<bool>, n: nat): real
    requires n > 0
  {
    multiset(flags)[true] as real / n as real
  }

  function Mean(values: seq<nat>, n: nat): real
    requires n > 0
  {
    Sum(values) as real / n as real
  }

  function ColumnFeatures(c: Columns, n: nat, burst: real, windowSecs: real, ln: real -> real): FeatureVector
    requires n > 0 && windowSecs > 0.0 && c.verbs != []
  {
    FeatureVector(n as real / windowSecs, |Distinct(c.pathHashes)| as real, |Distinct(c.hostHashes)| as real,
      Share(Project(c.statuses, IsError), n), Mean(c.durations, n), Entropy(c.verbs, ln), burst,
      Peak(c.pathHashes) as real / n as real, Mean(c.contentLengths, n), |Distinct(c.userAgentHashes)| as real,
      Share(c.hasCookies, n), Share(c.hasReferer, n), Share(c.hasAcceptLanguage, n), Share(c.suspiciousPaths, n))
  }

  const NO_FEATURES :=
    FeatureVector(0.0, 0.0, 0.0, 0.0, 0.0, 0.0, 0.0, 0.0, 0.0, 0.0, 0.0, 0.0, 0.0, 0.0)

  function Features(events: seq<Event>, windowSecs: real, ln: real -> real): FeatureVector
    requires windowSecs > 0.0
  {
    if events == [] then NO_FEATURES
    else
      var c := ColumnsOf(events);
      ColumnFeatures(c, |events|, Burst(c.timestamps), windowSecs, ln)
  }

  // ---- Order does not matter ----

  lemma BurstPermutation(a: seq<real>, b: seq<real>)
    requires multiset(a) == multiset(b)
    ensures Burst(a) == Burst(b)
  {
    MultisetMembers(a, b);
  }

  lemma EntropyPermutation(a: seq<nat>, b: seq<nat>, ln: real -> real)
    requires multiset(a) == multiset(b) && a != [] && b != []
    ensures Entropy(a, ln) == Entropy(b, ln)
  {
    ProjectPermutation<nat, nat>(a, b, Bucket);
    MultisetMembers(a, b);
    assert Tally(a) == Tally(b);
  }

  lemma ValuesPermutation(a: seq<Event>, b: seq<Event>, f: Event -> nat)
    requires multiset(a) == multiset(b)
    ensures Distinct(Project(a, f)) == Distinct(Project(b, f))
    ensures Sum(Project(a, f)) == Sum(Project(b, f)) && Peak(Project(a, f)) == Peak(Project(b, f))
  {
    ProjectPermutation(a, b, f);
    MultisetMembers(Project(a, f), Project(b, f));
    SumPermutation(Project(a, f), Project(b, f));
    PeakIsPeak(Project(a, f));
    PeakIsPeak(Project(b, f));
    PeakPermutation(Project(a, f), Project(b, f), Peak(Project(a, f)), Peak(Project(b, f)));
  }

  lemma FlagsPermutation(a: seq<Event>, b: seq<Event>, f: Event -> bool)
    requires multiset(a) == multiset(b)
    ensures multiset(Project(a, f))[true] == multiset(Project(b, f))[true]
  {
    ProjectPermutation(a, b, f);
  }

  lemma ErrorsPermutation(a: seq<Event>, b: seq<Event>)
    requires multiset(a) == multiset(b)
    ensures multiset(Project(Project(a, StatusOf), IsError)) == multiset(Project(Project(b, StatusOf), IsError))
  {
    ProjectPermutation(a, b, StatusOf);
    ProjectPermutation(Project(a, StatusOf), Project(b, StatusOf), IsError);
  }

  /** The features depend on which events there are, not on their order. */
  lemma FeaturesPermutation(a: seq<Event>, b: seq<Event>, windowSecs: real, ln: real -> real)
    requires windowSecs > 0.0 && multiset(a) == multiset(b)
    ensures Features(a, windowSecs, ln) == Features(b, windowSecs, ln)
  {
    MultisetMembers(a, b);
    if a != [] {
      ValuesPermutation(a, b, PathOf);
      ValuesPermutation(a, b, HostOf);
      ValuesPermutation(a, b, UserAgentOf);
      ValuesPermutation(a, b, DurationOf);
      ValuesPermutation(a, b, LengthOf);
      ErrorsPermutation(a, b);
      FlagsPermutation(a, b, CookiesOf);
      FlagsPermutation(a, b, RefererOf);
      FlagsPermutation(a, b, LanguageOf);
      FlagsPermutation(a, b, SuspiciousOf);
      ProjectPermutation(a, b, TimestampOf);
      BurstPermutation(Project(a, TimestampOf), Project(b, TimestampOf));
      ProjectPermutation(a, b, VerbOf);
      EntropyPermutation(Project(a, VerbOf), Project(b, VerbOf), ln);
    }
  }

  lemma Ratio(u: nat, m: nat, n: nat)
    requires n > 0 && u * m >= n
    ensures AtLeastOne(u as real, m as real / n as real)
  {
    var q := m as real / n as real;
    assert q * n as real == m as real;
    assert u as real * m as real == (u * m) as real;
    assert (u as real * q) * n as real == u as real * m as real;
    if u as real * q < 1.0 {
      assert (u as real * q) * n as real < n as real;
    }
  }

  lemma RepetitionBound(paths: seq<nat>)
    requires paths != []
    ensures AtLeastOne(|Distinct(paths)| as real, Peak(paths) as real / |paths| as real)
  {
    PeakIsPeak(paths);
    PigeonHole(paths, Peak(paths));
    Ratio(|Distinct(paths)|, Peak(paths), |paths|);
  }

  lemma PathEntries(events: seq<Event>, windowSecs: real, ln: real -> real)
    requires windowSecs > 0.0 && events != []
    ensures var v, paths := Features(events, windowSecs, ln), Project(events, PathOf);
      v.uniquePaths == |Distinct(paths)| as real && v.pathRepetition == Peak(paths) as real / |paths| as real
  {
  }

  /** Few distinct paths mean one is repeated: their number times the repetition ratio is at least one. */
  lemma PathsTimesRepetition(events: seq<Event>, windowSecs: real, ln: real -> real)
    requires windowSecs > 0.0 && events != []
    ensures var v := Features(events, windowSecs, ln); AtLeastOne(v.uniquePaths, v.pathRepetition)
  {
    PathEntries(events, windowSecs, ln);
    RepetitionBound(Project(events, PathOf));
  }

  ghost predicate AtLeastOne(x: real, y: real) {
    x * y >= 1.0
  }

  // ---- The extraction loops ----

  method MethodEntropy(verbs: seq<nat>, ln: real -> real) returns (entropy: real)
    requires verbs != []
    ensures entropy == Entropy(verbs, ln)
  {
    var buffer := CountMethods(verbs);
    var n := |verbs| as real;
    ghost var counts := Tally(verbs);
    entropy := 0.0;
    for k := 0 to buffer.Length
      invariant entropy == EntropyOf(counts[..k], n, ln)
    {
      assert counts[..k + 1][..k] == counts[..k];
      if buffer[k] > 0 {
        var p := buffer[k] as real / n;
        entropy := entropy - p * ln(p);
      }
    }
    assert counts[..|counts|] == counts;
  }

  lemma TallyStep(verbs: seq<nat>, i: nat)
    requires i < |verbs|
    ensures var b, before := verbs[i] % METHODS, Tally(verbs[..i]);
      Tally(verbs[..i + 1]) == before[b := before[b] + 1]
  {
    assert Buckets(verbs[..i + 1]) == Buckets(verbs[..i]) + [Bucket(verbs[i])];
  }

  method CountMethods(verbs: seq<nat>) returns (counts: array<nat>)
    ensures fresh(counts) && counts[..] == Tally(verbs)
  {
    counts := new nat[METHODS](_ => 0);
    for i := 0 to |verbs|
      invariant counts[..] == Tally(verbs[..i])
    {
      TallyStep(verbs, i);
      var b := verbs[i] % METHODS;
      counts[b] := counts[b] + 1;
    }
    assert verbs[..|verbs|] == verbs;
  }

  method ShareOf(flags: seq<bool>, n: nat) returns (share: real)
    requires n > 0
    ensures share == Share(flags, n)
  {
    var count := CountTrue(flags);
    return count as real / n as real;
  }

  method MeanOf(values: seq<nat>, n: nat) returns (mean: real)
    requires n > 0
    ensures mean == Mean(values, n)
  {
    var total := Total(values);
    return total as real / n as real;
  }

  /** Both extractions fill the vector the same way but for the burst score. */
  method FillFeatures(c: Columns, n: nat, burst: real, windowSecs: real, ln: real -> real) returns (v: FeatureVector)
    requires n > 0 && windowSecs > 0.0 && c.verbs != []
    ensures v == ColumnFeatures(c, n, burst, windowSecs, ln)
  {
    var paths := CountDistinct(c.pathHashes);
    var hosts := CountDistinct(c.hostHashes);
    var errors := ShareOf(Project(c.statuses, IsError), n);
    var duration := MeanOf(c.durations, n);
    var entropy := MethodEntropy(c.verbs, ln);
    var peak := PeakCount(c.pathHashes);
    var length := MeanOf(c.contentLengths, n);
    var agents := CountDistinct(c.userAgentHashes);
    var cookies := ShareOf(c.hasCookies, n);
    var referers := ShareOf(c.hasReferer, n);
    var languages := ShareOf(c.hasAcceptLanguage, n);
    var suspicious := ShareOf(c.suspiciousPaths, n);
    v := FeatureVector(n as real / windowSecs, paths as real, hosts as real, errors, duration, entropy, burst,
      peak as real / n as real, length, agents as real, cookies, referers, languages, suspicious);
  }
}
