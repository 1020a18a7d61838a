/** The per-node bandwidth counters. A record is five relaxed atomic additions, so other threads may see
    them take effect in any order; a snapshot drains three of the counters one at a time. The state
    machine lets any number of records and snapshots interleave. */
module BandwidthTracker {
  import opened MapSums

  datatype Op = AddIn | AddOut | AddCount | AddCumulativeIn | AddCumulativeOut

  predicate Drains(op: Op) {
    op == AddIn || op == AddOut || op == AddCount
  }

  /** One value per counter. */
  datatype Five<T> = Five(bytesIn: T, bytesOut: T, requestCount: T, cumulativeIn: T, cumulativeOut: T) {
    function Get(op: Op): T {
      match op
      case AddIn => bytesIn
      case AddOut => bytesOut
      case AddCount => requestCount
      case AddCumulativeIn => cumulativeIn
      case AddCumulativeOut => cumulativeOut
    }

    function Set(op: Op, value: T): (r: Five<T>)
      ensures r.Get(op) == value && forall o | o != op :: r.Get(o) == Get(o)
    {
      match op
      case AddIn => this.(bytesIn := value)
      case AddOut => this.(bytesOut := value)
      case AddCount => this.(requestCount := value)
      case AddCumulativeIn => this.(cumulativeIn := value)
      case AddCumulativeOut => this.(cumulativeOut := value)
    }
  }

  /** A record that has begun, and which of its additions have taken effect. */
  datatype Flight = Flight(bytesIn: Word, bytesOut: Word, done: set<Op>)

  function Weight(op: Op, f: Flight): (w: Word)
    ensures op == AddCount ==> w == 1
  {
    match op
    case AddIn => f.bytesIn
    case AddOut => f.bytesOut
    case AddCount => 1
    case AddCumulativeIn => f.bytesIn
    case AddCumulativeOut => f.bytesOut
  }

  /** The counters, the records in flight, what snapshots have drained, and what records have begun with. */
  datatype State = State(counters: Five<Word>, flights: map<nat, Flight>, drained: Five<nat>, started: Five<nat>)

  datatype Step =
    | Begin(id: nat, bytesIn: Word, bytesOut: Word)
    | Perform(id: nat, op: Op)
    | Finish(id: nat)
    | Drain(op: Op)

  const INITIAL := State(Five(0, 0, 0, 0, 0), map[], Five(0, 0, 0, 0, 0), Five(0, 0, 0, 0, 0))

  predicate Enabled(s: State, step: Step) {
    match step
    case Begin(id, _, _) => id !in s.flights
    case Perform(id, op) => id in s.flights && op !in s.flights[id].done
    case Finish(id) => id in s.flights && forall op: Op :: op in s.flights[id].done
    case Drain(op) => Drains(op)
  }

  function Plus(a: Five<nat>, f: Flight): (r: Five<nat>)
    ensures forall op :: r.Get(op) == a.Get(op) + Weight(op, f) as int
  {
    Five(a.bytesIn + f.bytesIn as int, a.bytesOut + f.bytesOut as int, a.requestCount + 1,
      a.cumulativeIn + f.bytesIn as int, a.cumulativeOut + f.bytesOut as int)
  }

  /** A step that is not enabled changes nothing. */
  function Next(s: State, step: Step): State {
    if !Enabled(s, step) then s
    else
      match step
      case Begin(id, bytesIn, bytesOut) =>
        var f := Flight(bytesIn, bytesOut, {});
        s.(flights := s.flights[id := f], started := Plus(s.started, f))
      case Perform(id, op) =>
        var f := s.flights[id];
        s.(counters := s.counters.Set(op, Wrap(s.counters.Get(op) as int + Weight(op, f) as int)),
           flights := s.flights[id := f.(done := f.done + {op})])
      case Finish(id) => s.(flights := s.flights - {id})
      case Drain(op) =>
        s.(counters := s.counters.Set(op, 0),
           drained := s.drained.Set(op, s.drained.Get(op) + s.counters.Get(op) as int))
  }

  function Run(s: State, steps: seq<Step>): State
    decreases |steps|
  {
    if steps == [] then s else Run(Next(s, steps[0]), steps[1..])
  }

  // ---- Conservation ----

  ghost function Owed(op: Op): Flight -> int {
    (f: Flight) => if op in f.done then 0 else Weight(op, f) as int
  }

  /** What records in flight have still to add to a counter. */
  ghost function Pending(s: State, op: Op): int {
    MapSum(s.flights, Owed(op))
  }

  ghost function Accounted(s: State, op: Op): int {
    s.drained.Get(op) + s.counters.Get(op) as int + Pending(s, op)
  }

  /** Drained, live and pending amounts make up what was recorded, modulo 2^64; exactly, if that fits a word. */
  ghost predicate Conserved(s: State, op: Op) {
    && Wrap(Accounted(s, op)) == Wrap(s.started.Get(op))
    && (s.started.Get(op) < WORD ==> Accounted(s, op) == s.started.Get(op))
    && Pending(s, op) >= 0
  }

  ghost predicate Invariant(s: State) {
    && (forall op: Op :: Conserved(s, op))
    && s.drained.cumulativeIn == 0 && s.drained.cumulativeOut == 0
    && s.started.cumulativeIn == s.started.bytesIn && s.started.cumulativeOut == s.started.bytesOut
  }

  lemma PendingNonNegative(s: State, op: Op)
    ensures Pending(s, op) >= 0
  {
    MapSumNonNegative(s.flights, Owed(op));
  }

  lemma BeginConserves(s: State, step: Step, op: Op)
    requires step.Begin? && Enabled(s, step) && Conserved(s, op)
    ensures Conserved(Next(s, step), op)
  {
    var f := Flight(step.bytesIn, step.bytesOut, {});
    MapSumInsert(s.flights, Owed(op), step.id, f);
    PendingNonNegative(Next(s, step), op);
    var w := Weight(op, f) as int;
    WrapAdd(Accounted(s, op), w);
    WrapAdd(s.started.Get(op), w);
  }

  lemma PerformMoves(s: State, step: Step, op: Op)
    requires step.Perform? && Enabled(s, step)
    ensures Pending(Next(s, step), op) == Pending(s, op) - if op == step.op then Weight(op, s.flights[step.id]) as int else 0
  {
    var f := s.flights[step.id];
    MapSumInsert(s.flights, Owed(op), step.id, f.(done := f.done + {step.op}));
  }

  lemma AddedOnce(live: Word, w: Word, rest: nat, started: nat)
    requires var total := live as int + w as int + rest; Wrap(total) == Wrap(started) && (started < WORD ==> total == started)
    ensures var total := Wrap(live as int + w as int) as int + rest;
      Wrap(total) == Wrap(started) && (started < WORD ==> total == started)
  {
    WrapAdd(live as int + w as int, rest);
  }

  lemma PerformAdds(s: State, step: Step, op: Op)
    requires step.Perform? && Enabled(s, step)
    ensures var after, w := Next(s, step), Weight(step.op, s.flights[step.id]);
      && after.drained == s.drained && after.started == s.started
      && after.counters.Get(op)
         == (if op == step.op then Wrap(s.counters.Get(op) as int + w as int) else s.counters.Get(op))
  {
  }

  /** The counter that gains what it was owed. */
  lemma GainConserves(drained: nat, live: Word, w: Word, owed: int, started: nat)
    requires owed - w as int >= 0
    requires Wrap(drained + live as int + owed) == Wrap(started)
    requires started < WORD ==> drained + live as int + owed == started
    ensures var total := drained + Wrap(live as int + w as int) as int + (owed - w as int);
      Wrap(total) == Wrap(started) && (started < WORD ==> total == started)
  {
    AddedOnce(live, w, drained + (owed - w as int), started);
  }

  lemma PerformConserves(s: State, step: Step, op: Op)
    requires step.Perform? && Enabled(s, step) && Conserved(s, op)
    ensures Conserved(Next(s, step), op)
  {
    PerformMoves(s, step, op);
    PendingNonNegative(Next(s, step), op);
    PerformAdds(s, step, op);
    if op == step.op {
      GainConserves(s.drained.Get(op), s.counters.Get(op), Weight(op, s.flights[step.id]), Pending(s, op), s.started.Get(op));
    }
  }

  lemma FinishConserves(s: State, step: Step, op: Op)
    requires step.Finish? && Enabled(s, step) && Conserved(s, op)
    ensures Conserved(Next(s, step), op)
  {
    MapSumRemove(s.flights, Owed(op), step.id);
  }

  lemma DrainConserves(s: State, step: Step, op: Op)
    requires step.Drain? && Enabled(s, step) && Conserved(s, op)
    ensures Conserved(Next(s, step), op)
  {
    assert Accounted(Next(s, step), op) == Accounted(s, op);
  }

  lemma NextKeepsInvariant(s: State, step: Step)
    requires Invariant(s)
    ensures Invariant(Next(s, step))
  {
    if Enabled(s, step) {
      forall op: Op ensures Conserved(Next(s, step), op) {
        match step
        case Begin(_, _, _) => BeginConserves(s, step, op);
        case Perform(_, _) => PerformConserves(s, step, op);
        case Finish(_) => FinishConserves(s, step, op);
        case Drain(_) => DrainConserves(s, step, op);
      }
    }
  }

  /** Every interleaving keeps the books. */
  lemma {:induction false} RunKeepsInvariant(s: State, steps: seq<Step>)
    requires Invariant(s)
    ensures Invariant(Run(s, steps))
    decreases |steps|
  {
    if steps != [] {
      NextKeepsInvariant(s, steps[0]);
      RunKeepsInvariant(Next(s, steps[0]), steps[1..]);
    }
  }

  /** How far a record has pushed one counter ahead of another. */
  ghost function Ahead(op: Op, behind: Op): Flight -> int {
    (f: Flight) => (if op in f.done then Weight(op, f) as int else 0) - if behind in f.done then Weight(behind, f) as int else 0
  }

  lemma AheadIsOwed(s: State, op: Op, behind: Op)
    requires forall f: Flight :: Weight(op, f) == Weight(behind, f)
    ensures MapSum(s.flights, Ahead(op, behind)) == Pending(s, behind) - Pending(s, op)
  {
    MapSumDifference(s.flights, Owed(behind), Owed(op), Ahead(op, behind));
  }

  lemma Difference(s: State, op: Op, behind: Op)
    requires Conserved(s, op) && Conserved(s, behind) && s.started.Get(op) == s.started.Get(behind)
    requires s.drained.Get(behind) == 0 && forall f: Flight :: Weight(op, f) == Weight(behind, f)
    ensures Wrap(s.drained.Get(op) + s.counters.Get(op) as int - s.counters.Get(behind) as int)
      == Wrap(MapSum(s.flights, Ahead(op, behind)))
  {
    AheadIsOwed(s, op, behind);
    var a, c := Accounted(s, op), Pending(s, op) + s.counters.Get(behind) as int;
    WrapSub(Accounted(s, op), Accounted(s, behind), c, c);
    assert a - c == s.drained.Get(op) + s.counters.Get(op) as int - s.counters.Get(behind) as int;
    assert Accounted(s, behind) - c == Pending(s, behind) - Pending(s, op);
  }

  lemma DifferenceIn(s: State)
    requires Invariant(s)
    ensures Wrap(s.drained.bytesIn + s.counters.bytesIn as int - s.counters.cumulativeIn as int)
      == Wrap(MapSum(s.flights, Ahead(AddIn, AddCumulativeIn)))
  {
    Difference(s, AddIn, AddCumulativeIn);
  }

  lemma DifferenceOut(s: State)
    requires Invariant(s)
    ensures Wrap(s.drained.bytesOut + s.counters.bytesOut as int - s.counters.cumulativeOut as int)
      == Wrap(MapSum(s.flights, Ahead(AddOut, AddCumulativeOut)))
  {
    Difference(s, AddOut, AddCumulativeOut);
  }

  /** However records and snapshots interleave, drained plus live less cumulative is, modulo 2^64, what
      the records in flight have added to one counter and not yet to the other. */
  lemma InFlightDifference(steps: seq<Step>)
    ensures var s := Run(INITIAL, steps);
      && Wrap(s.drained.bytesIn + s.counters.bytesIn as int - s.counters.cumulativeIn as int)
         == Wrap(MapSum(s.flights, Ahead(AddIn, AddCumulativeIn)))
      && Wrap(s.drained.bytesOut + s.counters.bytesOut as int - s.counters.cumulativeOut as int)
         == Wrap(MapSum(s.flights, Ahead(AddOut, AddCumulativeOut)))
  {
    RunKeepsInvariant(INITIAL, steps);
    DifferenceIn(Run(INITIAL, steps));
    DifferenceOut(Run(INITIAL, steps));
  }

  lemma SettledCounter(s: State, op: Op)
    requires Conserved(s, op) && s.flights == map[]
    ensures Wrap(s.drained.Get(op) + s.counters.Get(op) as int) == Wrap(s.started.Get(op))
    ensures s.started.Get(op) < WORD ==> s.drained.Get(op) + s.counters.Get(op) as int == s.started.Get(op)
  {
  }

  lemma SettledPair(s: State, op: Op, cumulative: Op)
    requires Conserved(s, op) && Conserved(s, cumulative) && s.flights == map[]
    requires s.started.Get(op) == s.started.Get(cumulative) && s.drained.Get(cumulative) == 0
    ensures Wrap(s.drained.Get(op) + s.counters.Get(op) as int) == s.counters.Get(cumulative)
    ensures s.started.Get(op) < WORD ==>
      s.drained.Get(op) + s.counters.Get(op) as int == s.counters.Get(cumulative) as int == s.started.Get(op)
  {
    SettledCounter(s, op);
    SettledCounter(s, cumulative);
  }

  /** With no record in flight, the snapshots and the live counters add up to the cumulative counters
      modulo 2^64, and exactly to what was recorded if that fits a word. */
  lemma QuiescentBooksBalance(steps: seq<Step>)
    requires Run(INITIAL, steps).flights == map[]
    ensures var s := Run(INITIAL, steps);
      && Wrap(s.drained.bytesIn + s.counters.bytesIn as int) == s.counters.cumulativeIn
      && Wrap(s.drained.bytesOut + s.counters.bytesOut as int) == s.counters.cumulativeOut
      && Wrap(s.drained.requestCount + s.counters.requestCount as int) == Wrap(s.started.requestCount)
      && (s.started.bytesIn < WORD ==>
            s.drained.bytesIn + s.counters.bytesIn as int == s.counters.cumulativeIn as int == s.started.bytesIn)
      && (s.started.bytesOut < WORD ==>
            s.drained.bytesOut + s.counters.bytesOut as int == s.counters.cumulativeOut as int == s.started.bytesOut)
  {
    var s := Run(INITIAL, steps);
    RunKeepsInvariant(INITIAL, steps);
    SettledPair(s, AddIn, AddCumulativeIn);
    SettledPair(s, AddOut, AddCumulativeOut);
    SettledCounter(s, AddCount);
  }

  // ---- What was recorded ----

  datatype Call = Call(received: Word, sent: Word)

  /** The records that begin in a run, with what each was called with. */
  function Calls(s: State, steps: seq<Step>): seq<Call>
    decreases |steps|
  {
    if steps == [] then []
    else
      var first := if steps[0].Begin? && steps[0].id !in s.flights then [Call(steps[0].bytesIn, steps[0].bytesOut)] else [];
      first + Calls(Next(s, steps[0]), steps[1..])
  }

  function Received(calls: seq<Call>): nat {
    if calls == [] then 0 else calls[0].received as int + Received(calls[1..])
  }

  function Sent(calls: seq<Call>): nat {
    if calls == [] then 0 else calls[0].sent as int + Sent(calls[1..])
  }

  lemma OneMoreCall(call: Call, calls: seq<Call>)
    ensures Received([call] + calls) == call.received as int + Received(calls)
    ensures Sent([call] + calls) == call.sent as int + Sent(calls)
  {
    assert ([call] + calls)[1..] == calls;
  }

  lemma {:induction false} StartedIsCalls(s: State, steps: seq<Step>)
    ensures var t, calls := Run(s, steps), Calls(s, steps);
      && t.started.bytesIn == s.started.bytesIn + Received(calls)
      && t.started.bytesOut == s.started.bytesOut + Sent(calls)
      && t.started.requestCount == s.started.requestCount + |calls|
    decreases |steps|
  {
    if steps != [] {
      var calls := Calls(Next(s, steps[0]), steps[1..]);
      StartedIsCalls(Next(s, steps[0]), steps[1..]);
      if steps[0].Begin? && steps[0].id !in s.flights {
        OneMoreCall(Call(steps[0].bytesIn, steps[0].bytesOut), calls);
      } else {
        assert Calls(s, steps) == calls;
      }
    }
  }

  lemma SettledBooks(s: State)
    requires Invariant(s) && s.flights == map[]
    ensures Wrap(s.drained.bytesIn + s.counters.bytesIn as int) == Wrap(s.started.bytesIn) == s.counters.cumulativeIn
    ensures Wrap(s.drained.bytesOut + s.counters.bytesOut as int) == Wrap(s.started.bytesOut) == s.counters.cumulativeOut
    ensures Wrap(s.drained.requestCount + s.counters.requestCount as int) == Wrap(s.started.requestCount)
  {
    SettledCounter(s, AddIn);
    SettledCounter(s, AddOut);
    SettledCounter(s, AddCount);
    SettledCounter(s, AddCumulativeIn);
    SettledCounter(s, AddCumulativeOut);
  }

  /** With no record in flight, what the snapshots drained and the counters still hold is, modulo 2^64, the
      sum over the calls made. */
  lemma EveryCallIsCounted(steps: seq<Step>)
    requires Run(INITIAL, steps).flights == map[]
    ensures var s, calls := Run(INITIAL, steps), Calls(INITIAL, steps);
      && Wrap(s.drained.bytesIn + s.counters.bytesIn as int) == Wrap(Received(calls)) == s.counters.cumulativeIn
      && Wrap(s.drained.bytesOut + s.counters.bytesOut as int) == Wrap(Sent(calls)) == s.counters.cumulativeOut
      && Wrap(s.drained.requestCount + s.counters.requestCount as int) == Wrap(|calls|)
  {
    StartedIsCalls(INITIAL, steps);
    RunKeepsInvariant(INITIAL, steps);
    SettledBooks(Run(INITIAL, steps));
  }

  // ---- The tracker ----

  function Bumped(c: Five<Word>, f: Flight): (r: Five<Word>)
    ensures forall op :: r.Get(op) == Wrap(c.Get(op) as int + Weight(op, f) as int)
  {
    Five(Wrap(c.bytesIn as int + f.bytesIn as int), Wrap(c.bytesOut as int + f.bytesOut as int),
      Wrap(c.requestCount as int + 1),
      Wrap(c.cumulativeIn as int + f.bytesIn as int), Wrap(c.cumulativeOut as int + f.bytesOut as int))
  }

  /** A record that nothing interleaves with. */
  function Recorded(s: State, f: Flight): State {
    s.(counters := Bumped(s.counters, f), started := Plus(s.started, f))
  }

  /** A snapshot that nothing interleaves with. */
  function Drained(s: State): State {
    s.(counters := s.counters.(bytesIn := 0, bytesOut := 0, requestCount := 0),
       drained := s.drained.(bytesIn := s.drained.bytesIn + s.counters.bytesIn as int,
                             bytesOut := s.drained.bytesOut + s.counters.bytesOut as int,
                             requestCount := s.drained.requestCount + s.counters.requestCount as int))
  }

  ghost predicate Balanced(total: int, started: nat) {
    Wrap(total) == Wrap(started) && (started < WORD ==> total == started)
  }

  lemma AddRecord(live: Word, drained: nat, w: Word, started: nat)
    requires Balanced(drained + live as int, started)
    ensures Balanced(drained + Wrap(live as int + w as int) as int, started + w as int)
  {
    WrapAdd(drained + live as int, w as int);
    WrapAdd(started, w as int);
    AddedOnce(live, w, drained, started + w as int);
  }

  lemma RecordedConserves(s: State, f: Flight, op: Op)
    requires Conserved(s, op) && s.flights == map[]
    ensures Conserved(Recorded(s, f), op)
  {
    var t := Recorded(s, f);
    assert t.counters.Get(op) == Wrap(s.counters.Get(op) as int + Weight(op, f) as int);
    assert t.started.Get(op) == s.started.Get(op) + Weight(op, f) as int;
    assert Accounted(s, op) == s.drained.Get(op) + s.counters.Get(op) as int;
    assert Accounted(t, op) == s.drained.Get(op) + t.counters.Get(op) as int;
    AddRecord(s.counters.Get(op), s.drained.Get(op), Weight(op, f), s.started.Get(op));
  }

  lemma RecordedKeepsInvariant(s: State, f: Flight)
    requires Invariant(s) && s.flights == map[]
    ensures Invariant(Recorded(s, f))
  {
    forall op: Op ensures Conserved(Recorded(s, f), op) {
      assert Conserved(s, op);
      RecordedConserves(s, f, op);
    }
  }

  lemma DrainedKeepsInvariant(s: State)
    requires Invariant(s) && s.flights == map[]
    ensures Invariant(Drained(s))
  {
    forall op: Op ensures Conserved(Drained(s), op) {
      assert Conserved(s, op);
      assert Accounted(Drained(s), op) == Accounted(s, op);
    }
  }

  datatype Snapshot = Snapshot(bytesIn: Word, bytesOut: Word, requestCount: Word, cumulativeIn: Word, cumulativeOut: Word)

  /** The counters, used by one thread. `model` is the state of the interleaving machine they stand for. */
  class BandwidthTracker {
    var bytesIn: Word
    var bytesOut: Word
    var requestCount: Word
    var cumulativeIn: Word
    var cumulativeOut: Word
    ghost var model: State

    ghost predicate Valid()
      reads this
    {
      && model.counters == Five(bytesIn, bytesOut, requestCount, cumulativeIn, cumulativeOut)
      && model.flights == map[] && Invariant(model)
    }

    constructor ()
      ensures Valid() && model == INITIAL
    {
      bytesIn, bytesOut, requestCount, cumulativeIn, cumulativeOut := 0, 0, 0, 0, 0;
      model := INITIAL;
    }

    method Record(received: Word, sent: Word)
      requires Valid()
      modifies this
      ensures Valid() && model.drained == old(model.drained)
      ensures model.started == Five(
        old(model.started.bytesIn) + received as int, old(model.started.bytesOut) + sent as int,
        old(model.started.requestCount) + 1,
        old(model.started.cumulativeIn) + received as int, old(model.started.cumulativeOut) + sent as int)
      ensures bytesIn == Wrap(old(bytesIn) as int + received as int) && bytesOut == Wrap(old(bytesOut) as int + sent as int)
    {
      bytesIn := Wrap(bytesIn as int + received as int);
      bytesOut := Wrap(bytesOut as int + sent as int);
      requestCount := Wrap(requestCount as int + 1);
      cumulativeIn := Wrap(cumulativeIn as int + received as int);
      cumulativeOut := Wrap(cumulativeOut as int + sent as int);
      RecordedKeepsInvariant(model, Flight(received, sent, {}));
      model := Recorded(model, Flight(received, sent, {}));
    }

    /** Drains the interval counters: the snapshot adds to what was drained, and its cumulative counters
        are everything drained so far. */
    method SnapshotAndReset() returns (snapshot: Snapshot)
      requires Valid()
      modifies this
      ensures Valid() && model.started == old(model.started) && bytesIn == bytesOut == requestCount == 0
      ensures model.drained.bytesIn == old(model.drained.bytesIn) + snapshot.bytesIn as int
      ensures model.drained.bytesOut == old(model.drained.bytesOut) + snapshot.bytesOut as int
      ensures model.drained.requestCount == old(model.drained.requestCount) + snapshot.requestCount as int
      ensures snapshot.cumulativeIn == Wrap(model.drained.bytesIn) == Wrap(model.started.bytesIn)
      ensures snapshot.cumulativeOut == Wrap(model.drained.bytesOut) == Wrap(model.started.bytesOut)
    {
      snapshot := Snapshot(bytesIn, bytesOut, requestCount, cumulativeIn, cumulativeOut);
      bytesIn, bytesOut, requestCount := 0, 0, 0;
      DrainedKeepsInvariant(model);
      model := Drained(model);
      DrainedIsCumulative(model);
    }
  }

  lemma DrainedIsCumulative(s: State)
    requires Invariant(s) && s.flights == map[] && s.counters.bytesIn == s.counters.bytesOut == 0
    ensures s.counters.cumulativeIn == Wrap(s.drained.bytesIn) == Wrap(s.started.bytesIn)
    ensures s.counters.cumulativeOut == Wrap(s.drained.bytesOut) == Wrap(s.started.bytesOut)
  {
    SettledCounter(s, AddIn);
    SettledCounter(s, AddOut);
    SettledCounter(s, AddCumulativeIn);
    SettledCounter(s, AddCumulativeOut);
  }
}
