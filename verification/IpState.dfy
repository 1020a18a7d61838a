/** The two sources of request features: a ring buffer of the latest events of a client address, and a
    window of a parsed log. */
module IpState {
  import opened DdosFeatures
  import opened Sorting
  import opened Tallies

  // ---- Active events ----

  /** Time since the event; an event of the future counts as new. */
  predicate IsActive(e: Event, now: real, windowSecs: nat) {
    now - e.timestamp <= windowSecs as real
  }

  function Active(events: seq<Event>, now: real, windowSecs: nat): seq<Event> {
    if events == [] then []
    else
      var init, last := Active(events[..|events| - 1], now, windowSecs), events[|events| - 1];
      if IsActive(last, now, windowSecs) then init + [last] else init
  }

  lemma {:induction false} ActiveCount(events: seq<Event>, now: real, windowSecs: nat, e: Event)
    ensures multiset(Active(events, now, windowSecs))[e]
      == if now - e.timestamp <= windowSecs as real then multiset(events)[e] else 0
  {
    if events != [] {
      assert events == events[..|events| - 1] + [events[|events| - 1]];
      ActiveCount(events[..|events| - 1], now, windowSecs, e);
    }
  }

  lemma ActivePermutation(a: seq<Event>, b: seq<Event>, now: real, windowSecs: nat)
    requires multiset(a) == multiset(b)
    ensures multiset(Active(a, now, windowSecs)) == multiset(Active(b, now, windowSecs))
  {
    forall e ensures multiset(Active(a, now, windowSecs))[e] == multiset(Active(b, now, windowSecs))[e] {
      ActiveCount(a, now, windowSecs, e);
      ActiveCount(b, now, windowSecs, e);
    }
  }

  // ---- The ring buffer ----

  /** The last `capacity` events of a history, or all of them. */
  function LastOf(history: seq<Event>, capacity: nat): seq<Event> {
    if |history| <= capacity then history else history[|history| - capacity..]
  }

  /** The buffer read from its oldest event. */
  function Unrolled(events: seq<Event>, cursor: nat): seq<Event>
    requires cursor <= |events|
  {
    events[cursor..] + events[..cursor]
  }

  lemma UnrolledMembers(events: seq<Event>, cursor: nat)
    requires cursor <= |events|
    ensures multiset(Unrolled(events, cursor)) == multiset(events)
  {
    assert events == events[..cursor] + events[cursor..];
  }

  /** Until it is full the buffer is the history; then, read from the cursor, it is the history's end. */
  ghost predicate IsRing(events: seq<Event>, cursor: nat, capacity: nat, history: seq<Event>) {
    && (cursor < capacity || (capacity == 0 && cursor == 0 && history == []))
    && (if |history| < capacity then events == history && cursor == |history|
        else |events| == capacity && Unrolled(events, cursor) == LastOf(history, capacity))
  }

  function Advance(cursor: nat, capacity: nat): (next: nat)
    requires cursor < capacity
    ensures next == if cursor + 1 < capacity then cursor + 1 else 0
  {
    (cursor + 1) % capacity
  }

  lemma PushGrows(events: seq<Event>, cursor: nat, capacity: nat, history: seq<Event>, e: Event)
    requires IsRing(events, cursor, capacity, history) && |events| < capacity
    ensures IsRing(events + [e], Advance(cursor, capacity), capacity, history + [e])
  {
  }

  lemma Overwrite(events: seq<Event>, cursor: nat, e: Event)
    requires cursor < |events|
    ensures Unrolled(events[cursor := e], cursor + 1) == Unrolled(events, cursor)[1..] + [e]
  {
  }

  lemma LastAfterPush(history: seq<Event>, capacity: nat, e: Event)
    requires 0 < capacity <= |history|
    ensures LastOf(history + [e], capacity) == LastOf(history, capacity)[1..] + [e]
  {
  }

  lemma PushOverwrites(events: seq<Event>, cursor: nat, capacity: nat, history: seq<Event>, e: Event)
    requires IsRing(events, cursor, capacity, history) && |events| == capacity > 0
    ensures IsRing(events[cursor := e], Advance(cursor, capacity), capacity, history + [e])
  {
    Overwrite(events, cursor, e);
    LastAfterPush(history, capacity, e);
    var after := events[cursor := e];
    if cursor + 1 == capacity {
      assert Unrolled(after, capacity) == Unrolled(after, 0);
    }
  }

  class IpState {
    var events: seq<Event>
    var cursor: nat
    var count: nat
    const capacity: nat
    /** Every event pushed, oldest first; none fits a buffer of no capacity. */
    ghost var history: seq<Event>

    ghost predicate Valid()
      reads this
    {
      count == |history| && IsRing(events, cursor, capacity, history)
    }

    constructor (capacity: nat)
      ensures Valid() && history == [] && this.capacity == capacity
    {
      this.capacity, events, cursor, count, history := capacity, [], 0, 0, [];
    }

    method Push(e: Event)
      requires Valid() && capacity > 0
      modifies this
      ensures Valid() && history == old(history) + [e]
    {
      if |events| < capacity {
        PushGrows(events, cursor, capacity, history, e);
        events := events + [e];
      } else {
        PushOverwrites(events, cursor, capacity, history, e);
        events := events[cursor := e];
      }
      cursor := Advance(cursor, capacity);
      count := count + 1;
      history := history + [e];
    }

    lemma HoldsTheLast()
      requires Valid()
      ensures multiset(events) == multiset(LastOf(history, capacity))
    {
      if |history| >= capacity {
        UnrolledMembers(events, cursor);
      }
    }

    method ActiveEvents(now: real, windowSecs: nat) returns (active: seq<Event>)
      ensures active == Active(events, now, windowSecs)
    {
      active := [];
      for i := 0 to |events|
        invariant active == Active(events[..i], now, windowSecs)
      {
        assert events[..i + 1][..i] == events[..i];
        if IsActive(events[i], now, windowSecs) {
          active := active + [events[i]];
        }
      }
      assert events[..|events|] == events;
    }

    /** The features of the active ones among the last `capacity` events pushed. */
    method ExtractFeatures(now: real, windowSecs: nat, ln: real -> real) returns (v: FeatureVector)
      requires Valid() && windowSecs > 0
      ensures v == Features(Active(LastOf(history, capacity), now, windowSecs), windowSecs as real, ln)
    {
      var active := ActiveEvents(now, windowSecs);
      v := FeaturesFrom(active, windowSecs as real, ln);
      HoldsTheLast();
      ActivePermutation(events, LastOf(history, capacity), now, windowSecs);
      FeaturesPermutation(active, Active(LastOf(history, capacity), now, windowSecs), windowSecs as real, ln);
    }
  }

  predicate NotAfter(s: real, t: real) {
    s <= t
  }

  /** A sorted list of times begins with the earliest and ends with the latest. */
  lemma SortedEnds(times: seq<real>, sorted: seq<real>)
    requires times != [] && sorted == Sort(times, NotAfter)
    ensures |sorted| == |times| && sorted[|sorted| - 1] - sorted[0] == Span(times)
  {
    SortIsSorted(times, NotAfter);
    MultisetMembers(sorted, times);
    OrderedEnds(sorted);
    assert Latest(times) in sorted && Earliest(times) in sorted;
    assert Latest(sorted) in times && Earliest(sorted) in times;
  }

  lemma EndsBound(times: seq<real>, x: real)
    requires times != [] && SortedBy(times, NotAfter) && x in times
    ensures times[0] <= x <= times[|times| - 1]
  {
    var i :| 0 <= i < |times| && times[i] == x;
    assert i == 0 || NotAfter(times[0], times[i]);
    assert i == |times| - 1 || NotAfter(times[i], times[|times| - 1]);
  }

  lemma OrderedEnds(times: seq<real>)
    requires times != [] && SortedBy(times, NotAfter)
    ensures times[0] == Earliest(times) && times[|times| - 1] == Latest(times)
  {
    EndsBound(times, Earliest(times));
    EndsBound(times, Latest(times));
    assert times[0] in times && times[|times| - 1] in times;
  }

  method BurstScore(times: seq<real>) returns (burst: real)
    ensures burst == Burst(times)
  {
    if |times| < 2 {
      return 0.0;
    }
    var span := SpanOf(times);
    burst := BurstOver(|times|, span);
  }

  method SpanOf(times: seq<real>) returns (span: real)
    requires times != []
    ensures span == Span(times)
  {
    var sorted := Sort(times, NotAfter);
    SortedEnds(times, sorted);
    span := sorted[|sorted| - 1] - sorted[0];
  }

  method FeaturesFrom(events: seq<Event>, windowSecs: real, ln: real -> real) returns (v: FeatureVector)
    requires windowSecs > 0.0
    ensures v == Features(events, windowSecs, ln)
  {
    if events == [] {
      return NO_FEATURES;
    }
    var burst := BurstScore(ColumnsOf(events).timestamps);
    v := FillFeatures(ColumnsOf(events), |events|, burst, windowSecs, ln);
  }

  // ---- The log ----

  ghost predicate Reaches(c: Columns, end: nat) {
    && end <= |c.timestamps| && end <= |c.verbs| && end <= |c.pathHashes| && end <= |c.hostHashes|
    && end <= |c.userAgentHashes| && end <= |c.statuses| && end <= |c.durations| && end <= |c.contentLengths|
    && end <= |c.hasCookies| && end <= |c.hasReferer| && end <= |c.hasAcceptLanguage| && end <= |c.suspiciousPaths|
  }

  function Slice(c: Columns, start: nat, end: nat): Columns
    requires start <= end && Reaches(c, end)
  {
    Columns(c.timestamps[start..end], c.verbs[start..end], c.pathHashes[start..end], c.hostHashes[start..end],
      c.userAgentHashes[start..end], c.statuses[start..end], c.durations[start..end], c.contentLengths[start..end],
      c.hasCookies[start..end], c.hasReferer[start..end], c.hasAcceptLanguage[start..end], c.suspiciousPaths[start..end])
  }

  /** What the log takes for the span of its window. */
  function EndToEnd(events: seq<Event>): real
    requires events != []
  {
    events[|events| - 1].timestamp - events[0].timestamp
  }

  lemma EndToEndIsSpan(events: seq<Event>)
    requires events != [] && SortedBy(Project(events, TimestampOf), NotAfter)
    ensures BurstOver(|events|, EndToEnd(events)) == Burst(Project(events, TimestampOf))
  {
    OrderedEnds(Project(events, TimestampOf));
  }

  /** The features of `events`, with the burst score over the time from the first to the last. */
  function LogFeatures(events: seq<Event>, windowSecs: real, ln: real -> real): FeatureVector
    requires windowSecs > 0.0
  {
    if events == [] then NO_FEATURES
    else ColumnFeatures(ColumnsOf(events), |events|, BurstOver(|events|, EndToEnd(events)), windowSecs, ln)
  }

  /** On events in the order of their times, a log and a ring buffer have the same features. */
  lemma LogAgrees(events: seq<Event>, windowSecs: real, ln: real -> real)
    requires windowSecs > 0.0 && SortedBy(Project(events, TimestampOf), NotAfter)
    ensures LogFeatures(events, windowSecs, ln) == Features(events, windowSecs, ln)
  {
    if events != [] {
      EndToEndIsSpan(events);
    }
  }

  lemma SliceEnds(log: Columns, start: nat, end: nat, events: seq<Event>)
    requires start < end && Reaches(log, end) && Slice(log, start, end) == ColumnsOf(events)
    ensures |events| == end - start && EndToEnd(events) == log.timestamps[end - 1] - log.timestamps[start]
  {
    var times := Slice(log, start, end).timestamps;
    assert |times| == end - start && times == Project(events, TimestampOf);
  }

  method ExtractForWindow(log: Columns, start: nat, end: nat, windowSecs: real, ln: real -> real,
                          ghost events: seq<Event>) returns (v: FeatureVector)
    requires start <= end && Reaches(log, end) && windowSecs > 0.0
    requires Slice(log, start, end) == ColumnsOf(events)
    ensures v == LogFeatures(events, windowSecs, ln)
  {
    if end - start < 1 {
      assert |Project(events, TimestampOf)| == 0;
      return NO_FEATURES;
    }
    SliceEnds(log, start, end, events);
    var span := log.timestamps[end - 1] - log.timestamps[start];
    v := FillFeatures(Slice(log, start, end), end - start, BurstOver(end - start, span), windowSecs, ln);
  }
}
