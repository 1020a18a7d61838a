/** `apply` as its separate locked and atomic steps, run by several callers at once (src/route_manager.rs). */
module ConcurrentApply {
  import opened Text
  import opened RouteIr
  import opened RouteManager

  // ---- The steps of one caller ----

  datatype Phase = Reading | Building | StoringTable | StoringL4 | StoringRewrites | StoringSources | Recording | Finished | Failed

  /** A caller of `apply`: what it was given, how far it is, and what it holds. */
  datatype Caller<+T, +L, +W> = Caller(source: string, table: RouteTable, order: Order, phase: Phase,
                                       tentative: Sources, built: Option<Live<T, L, W>>)

  /** Between compiling and finishing. */
  predicate Committing(p: Phase) {
    p == StoringTable || p == StoringL4 || p == StoringRewrites || p == StoringSources || p == Recording
  }

  predicate Ready<T, L, W>(c: Caller<T, L, W>) {
    Committing(c.phase) ==> c.built.Some?
  }

  function Call<T, L, W>(source: string, table: RouteTable, order: Order): Caller<T, L, W> {
    Caller(source, table, order, Reading, map[], None)
  }

  /** The shared state and the caller after its next step. */
  function Advance<T, L, W>(build: Build<Live<T, L, W>>, maxHistory: nat, s: State<Live<T, L, W>>, c: Caller<T, L, W>)
    : (State<Live<T, L, W>>, Caller<T, L, W>)
    requires Ready(c)
  {
    match c.phase
    case Reading => (s, c.(tentative := s.sources[c.source := c.table], phase := Building))
    case Building =>
      var built := build(c.tentative, s.priorities, c.order);
      (s, c.(built := built, phase := if built.Some? then StoringTable else Failed))
    case StoringTable => (s.(live := s.live.(table := c.built.value.table)), c.(phase := StoringL4))
    case StoringL4 => (s.(live := s.live.(l4 := c.built.value.l4)), c.(phase := StoringRewrites))
    case StoringRewrites => (s.(live := s.live.(rewrites := c.built.value.rewrites)), c.(phase := StoringSources))
    case StoringSources => (s.(sources := c.tentative), c.(phase := Recording))
    case Recording =>
      (s.(history := Push(s.history, Version(c.source, c.built.value), maxHistory)), c.(phase := Finished))
    case Finished => (s, c)
    case Failed => (s, c)
  }

  datatype World<+T, +L, +W> = World(s: State<Live<T, L, W>>, callers: seq<Caller<T, L, W>>)

  ghost predicate AllReady<T, L, W>(w: World<T, L, W>) {
    forall i | 0 <= i < |w.callers| :: Ready(w.callers[i])
  }

  /** Caller `i` takes a step. */
  ghost function Turn<T, L, W>(build: Build<Live<T, L, W>>, maxHistory: nat, w: World<T, L, W>, i: nat): (r: World<T, L, W>)
    requires AllReady(w)
    ensures AllReady(r) && |r.callers| == |w.callers|
  {
    if i < |w.callers| then
      var (s, c) := Advance(build, maxHistory, w.s, w.callers[i]);
      World(s, w.callers[i := c])
    else w
  }

  /** The callers take turns as the schedule says. */
  ghost function Play<T, L, W>(build: Build<Live<T, L, W>>, maxHistory: nat, w: World<T, L, W>, schedule: seq<nat>): (r: World<T, L, W>)
    requires AllReady(w)
    ensures AllReady(r) && |r.callers| == |w.callers|
  {
    if schedule == [] then w
    else Turn(build, maxHistory, Play(build, maxHistory, w, schedule[..|schedule| - 1]), schedule[|schedule| - 1])
  }

  // ---- What every interleaving keeps ----

  /** Some inputs compile to `live`. */
  ghost predicate IsBuilt<V>(build: Build<V>, live: V) {
    exists sources, priorities, order :: build(sources, priorities, order) == Some(live)
  }

  /** The sources compile under some priorities. */
  ghost predicate Buildable<V>(build: Build<V>, sources: Sources) {
    exists priorities, order :: build(sources, priorities, order).Some?
  }

  ghost predicate TableBuilt<T, L, W>(build: Build<Live<T, L, W>>, table: T) {
    exists sources, priorities, order :: var b := build(sources, priorities, order); b.Some? && b.value.table == table
  }

  ghost predicate L4Built<T, L, W>(build: Build<Live<T, L, W>>, l4: L) {
    exists sources, priorities, order :: var b := build(sources, priorities, order); b.Some? && b.value.l4 == l4
  }

  ghost predicate RewritesBuilt<T, L, W>(build: Build<Live<T, L, W>>, rewrites: W) {
    exists sources, priorities, order :: var b := build(sources, priorities, order); b.Some? && b.value.rewrites == rewrites
  }

  ghost predicate Holds<T, L, W>(build: Build<Live<T, L, W>>, c: Caller<T, L, W>) {
    Committing(c.phase) ==> c.built.Some? && IsBuilt(build, c.built.value) && Buildable(build, c.tentative)
  }

  /** Each live part and each version is from the start or stems from a compilation, and so do the recorded
      sources. */
  ghost predicate GroundedState<T, L, W>(build: Build<Live<T, L, W>>, start: State<Live<T, L, W>>, s: State<Live<T, L, W>>) {
    && (s.sources == start.sources || Buildable(build, s.sources))
    && (s.live.table == start.live.table || TableBuilt(build, s.live.table))
    && (s.live.l4 == start.live.l4 || L4Built(build, s.live.l4))
    && (s.live.rewrites == start.live.rewrites || RewritesBuilt(build, s.live.rewrites))
    && (forall k | 0 <= k < |s.history| :: s.history[k] in start.history || IsBuilt(build, s.history[k].live))
  }

  ghost predicate Grounded<T, L, W>(build: Build<Live<T, L, W>>, start: State<Live<T, L, W>>, w: World<T, L, W>) {
    GroundedState(build, start, w.s) && forall i | 0 <= i < |w.callers| :: Holds(build, w.callers[i])
  }

  lemma AdvanceHolds<T, L, W>(build: Build<Live<T, L, W>>, maxHistory: nat, s: State<Live<T, L, W>>, c: Caller<T, L, W>)
    requires Ready(c) && Holds(build, c)
    ensures Holds(build, Advance(build, maxHistory, s, c).1)
  {
    if c.phase == Building {
      var built := build(c.tentative, s.priorities, c.order);
      assert built.Some? ==> build(c.tentative, s.priorities, c.order) == Some(built.value);
    }
  }

  lemma PartsBuilt<T, L, W>(build: Build<Live<T, L, W>>, live: Live<T, L, W>)
    requires IsBuilt(build, live)
    ensures TableBuilt(build, live.table) && L4Built(build, live.l4) && RewritesBuilt(build, live.rewrites)
  {
    var sources, priorities, order :| build(sources, priorities, order) == Some(live);
  }

  lemma AdvanceGrounded<T, L, W>(build: Build<Live<T, L, W>>, maxHistory: nat, start: State<Live<T, L, W>>, s: State<Live<T, L, W>>, c: Caller<T, L, W>)
    requires Ready(c) && Holds(build, c) && GroundedState(build, start, s)
    ensures GroundedState(build, start, Advance(build, maxHistory, s, c).0)
  {
    if Committing(c.phase) {
      PartsBuilt(build, c.built.value);
    }
  }

  lemma TurnGrounded<T, L, W>(build: Build<Live<T, L, W>>, maxHistory: nat, start: State<Live<T, L, W>>, w: World<T, L, W>, i: nat)
    requires AllReady(w) && Grounded(build, start, w)
    ensures Grounded(build, start, Turn(build, maxHistory, w, i))
  {
    if i < |w.callers| {
      AdvanceHolds(build, maxHistory, w.s, w.callers[i]);
      AdvanceGrounded(build, maxHistory, start, w.s, w.callers[i]);
    }
  }

  /** Over every interleaving of calls that start from `start`: recorded sources compile, and nothing is
      served or kept that did not come out of a compilation. */
  lemma {:induction false} PlayGrounded<T, L, W>(build: Build<Live<T, L, W>>, maxHistory: nat, w: World<T, L, W>, schedule: seq<nat>)
    requires forall i | 0 <= i < |w.callers| :: w.callers[i].phase == Reading
    ensures AllReady(w) && Grounded(build, w.s, Play(build, maxHistory, w, schedule))
  {
    if schedule != [] {
      var init := schedule[..|schedule| - 1];
      PlayGrounded(build, maxHistory, w, init);
      TurnGrounded(build, maxHistory, w.s, Play(build, maxHistory, w, init), schedule[|schedule| - 1]);
    }
  }

  // ---- One caller alone ----

  ghost function Times<T, L, W>(build: Build<Live<T, L, W>>, maxHistory: nat, s: State<Live<T, L, W>>, c: Caller<T, L, W>, n: nat)
    : (r: (State<Live<T, L, W>>, Caller<T, L, W>))
    requires Ready(c)
    ensures Ready(r.1)
  {
    if n == 0 then (s, c)
    else
      var (t, d) := Times(build, maxHistory, s, c, n - 1);
      Advance(build, maxHistory, t, d)
  }

  lemma {:induction false} FirstStep<T, L, W>(build: Build<Live<T, L, W>>, maxHistory: nat, s: State<Live<T, L, W>>, c: Caller<T, L, W>, n: nat)
    requires Ready(c)
    ensures var (t, d) := Advance(build, maxHistory, s, c);
      Times(build, maxHistory, s, c, n + 1) == Times(build, maxHistory, t, d, n)
  {
    if n > 0 {
      FirstStep(build, maxHistory, s, c, n - 1);
    }
  }

  /** What the rest of a call does once it has read the sources, if nobody interrupts it. */
  lemma RestOfCall<T, L, W>(build: Build<Live<T, L, W>>, maxHistory: nat, s: State<Live<T, L, W>>, c: Caller<T, L, W>)
    requires c.phase == Building
    ensures var built := build(c.tentative, s.priorities, c.order);
      var (t, d) := Times(build, maxHistory, s, c, 6);
      && (built.None? ==> t == s && d.phase == Failed)
      && (built.Some? ==> d.phase == Finished)
      && (built.Some? ==>
            t == State(built.value, c.tentative, s.priorities, Push(s.history, Version(c.source, built.value), maxHistory)))
  {
    var w1 := Advance(build, maxHistory, s, c);
    var w2 := Advance(build, maxHistory, w1.0, w1.1);
    var w3 := Advance(build, maxHistory, w2.0, w2.1);
    var w4 := Advance(build, maxHistory, w3.0, w3.1);
    var w5 := Advance(build, maxHistory, w4.0, w4.1);
    assert Times(build, maxHistory, s, c, 1) == w1;
    assert Times(build, maxHistory, s, c, 2) == w2;
    assert Times(build, maxHistory, s, c, 3) == w3;
    assert Times(build, maxHistory, s, c, 4) == w4;
    assert Times(build, maxHistory, s, c, 5) == w5;
    assert Times(build, maxHistory, s, c, 6) == Advance(build, maxHistory, w5.0, w5.1);
    assert w1.1.built.Some? ==> w4.0 == s.(live := w1.1.built.value);
  }

  /** Seven steps that nobody interrupts are the atomic apply. */
  lemma UninterruptedIsAtomic<T, L, W>(build: Build<Live<T, L, W>>, maxHistory: nat, s: State<Live<T, L, W>>,
                                       source: string, table: RouteTable, order: Order)
    ensures var (after, ok) := ApplyStep(build, maxHistory, s, source, table, order);
      var (t, c) := Times(build, maxHistory, s, Call(source, table, order), 7);
      t == after && c.phase == if ok then Finished else Failed
  {
    var c: Caller<T, L, W> := Call(source, table, order);
    FirstStep(build, maxHistory, s, c, 6);
    RestOfCall(build, maxHistory, s, Advance(build, maxHistory, s, c).1);
  }

  /** The world after caller `i` alone has taken `n` steps. */
  ghost function Alone<T, L, W>(build: Build<Live<T, L, W>>, maxHistory: nat, w: World<T, L, W>, i: nat, n: nat): (r: World<T, L, W>)
    requires AllReady(w) && i < |w.callers|
    ensures AllReady(r) && |r.callers| == |w.callers|
  {
    var (t, c) := Times(build, maxHistory, w.s, w.callers[i], n);
    World(t, w.callers[i := c])
  }

  lemma AloneTurn<T, L, W>(build: Build<Live<T, L, W>>, maxHistory: nat, w: World<T, L, W>, i: nat, n: nat)
    requires AllReady(w) && i < |w.callers|
    ensures Turn(build, maxHistory, Alone(build, maxHistory, w, i, n), i) == Alone(build, maxHistory, w, i, n + 1)
  {
    var (t, c) := Times(build, maxHistory, w.s, w.callers[i], n);
    var (u, d) := Advance(build, maxHistory, t, c);
    assert Times(build, maxHistory, w.s, w.callers[i], n + 1) == (u, d);
    assert w.callers[i := c][i := d] == w.callers[i := d];
  }

  lemma PlayOne<T, L, W>(build: Build<Live<T, L, W>>, maxHistory: nat, w: World<T, L, W>, schedule: seq<nat>, i: nat)
    requires AllReady(w)
    ensures Play(build, maxHistory, w, schedule + [i]) == Turn(build, maxHistory, Play(build, maxHistory, w, schedule), i)
  {
    assert (schedule + [i])[..|schedule|] == schedule;
  }

  lemma {:induction false} PlayOn<T, L, W>(build: Build<Live<T, L, W>>, maxHistory: nat, w: World<T, L, W>, before: seq<nat>, more: seq<nat>)
    requires AllReady(w)
    ensures Play(build, maxHistory, w, before + more) == Play(build, maxHistory, Play(build, maxHistory, w, before), more)
  {
    if more == [] {
      assert before + more == before;
    } else {
      var n := |more| - 1;
      PlayOn(build, maxHistory, w, before, more[..n]);
      assert before + more == before + more[..n] + [more[n]];
      PlayOne(build, maxHistory, w, before + more[..n], more[n]);
    }
  }

  function InARow(i: nat, n: nat): seq<nat> {
    if n == 0 then [] else InARow(i, n - 1) + [i]
  }

  /** Caller `i` takes `n` steps in a row. */
  lemma {:induction false} PlayInARow<T, L, W>(build: Build<Live<T, L, W>>, maxHistory: nat, w: World<T, L, W>, i: nat, n: nat)
    requires AllReady(w) && i < |w.callers|
    ensures Play(build, maxHistory, w, InARow(i, n)) == Alone(build, maxHistory, w, i, n)
  {
    if n == 0 {
      assert w.callers[i := w.callers[i]] == w.callers;
    } else {
      PlayInARow(build, maxHistory, w, i, n - 1);
      PlayOne(build, maxHistory, w, InARow(i, n - 1), i);
      AloneTurn(build, maxHistory, w, i, n - 1);
    }
  }

  // ---- Lost updates ----

  /** Storing the sources sets the caller's own one and keeps the others if and only if the others are still
      as the caller read them. */
  lemma StoreKeepsOthersIff<T, L, W>(build: Build<Live<T, L, W>>, maxHistory: nat, s: State<Live<T, L, W>>, c: Caller<T, L, W>, read: Sources)
    requires Ready(c) && c.phase == StoringSources && c.tentative == read[c.source := c.table]
    ensures var after := Advance(build, maxHistory, s, c).0.sources;
      after == s.sources[c.source := c.table] <==> read - {c.source} == s.sources - {c.source}
  {
    var after := c.tentative;
    if after == s.sources[c.source := c.table] {
      assert read - {c.source} == after - {c.source};
      assert s.sources - {c.source} == s.sources[c.source := c.table] - {c.source};
    } else {
      assert after == (read - {c.source})[c.source := c.table];
      assert s.sources[c.source := c.table] == (s.sources - {c.source})[c.source := c.table];
    }
  }

  /** What caller `i` is about to store is the recorded sources with its own table. */
  ghost predicate Fresh<T, L, W>(w: World<T, L, W>, i: nat)
    requires i < |w.callers|
  {
    var c := w.callers[i];
    c.phase == Reading || c.phase == Recording || c.phase == Finished || c.phase == Failed
    || c.tentative == w.s.sources[c.source := c.table]
  }

  /** Caller `j` is not another one that stores its sources now. */
  predicate Quiet<T, L, W>(w: World<T, L, W>, j: nat, i: nat) {
    j == i || j >= |w.callers| || w.callers[j].phase != StoringSources
  }

  /** In no turn of the schedule does another caller store its sources. */
  ghost predicate Undisturbed<T, L, W>(build: Build<Live<T, L, W>>, maxHistory: nat, w: World<T, L, W>, schedule: seq<nat>, i: nat)
    requires AllReady(w)
  {
    schedule == [] ||
    (var n := |schedule| - 1;
     Undisturbed(build, maxHistory, w, schedule[..n], i) && Quiet(Play(build, maxHistory, w, schedule[..n]), schedule[n], i))
  }

  lemma TurnStaysFresh<T, L, W>(build: Build<Live<T, L, W>>, maxHistory: nat, w: World<T, L, W>, j: nat, i: nat)
    requires AllReady(w) && i < |w.callers| && Fresh(w, i) && Quiet(w, j, i)
    ensures Fresh(Turn(build, maxHistory, w, j), i)
  {
  }

  /** An update can only be lost if some other caller stores its sources between the caller's reading and
      its storing. */
  lemma {:induction false} StaysFresh<T, L, W>(build: Build<Live<T, L, W>>, maxHistory: nat, w: World<T, L, W>, schedule: seq<nat>, i: nat)
    requires AllReady(w) && i < |w.callers| && Fresh(w, i) && Undisturbed(build, maxHistory, w, schedule, i)
    ensures Fresh(Play(build, maxHistory, w, schedule), i)
  {
    if schedule != [] {
      var n := |schedule| - 1;
      StaysFresh(build, maxHistory, w, schedule[..n], i);
      TurnStaysFresh(build, maxHistory, Play(build, maxHistory, w, schedule[..n]), schedule[n], i);
    }
  }

  /** Both callers read before either commits. */
  function ReadReadCommitCommit(): seq<nat> {
    [0, 1] + InARow(0, 6) + InARow(1, 6)
  }

  lemma BothRead<T, L, W>(build: Build<Live<T, L, W>>, maxHistory: nat, s: State<Live<T, L, W>>, a: Caller<T, L, W>, b: Caller<T, L, W>)
    requires a.phase == Reading && b.phase == Reading
    ensures Play(build, maxHistory, World(s, [a, b]), [0, 1])
      == World(s, [Advance(build, maxHistory, s, a).1, Advance(build, maxHistory, s, b).1])
  {
    var w := World(s, [a, b]);
    assert [0, 1][..1] == [0] && [0][..0] == [];
    assert Play(build, maxHistory, w, [0]) == Turn(build, maxHistory, w, 0);
  }

  lemma CommitInTurn<T, L, W>(build: Build<Live<T, L, W>>, maxHistory: nat, s: State<Live<T, L, W>>, a: Caller<T, L, W>, b: Caller<T, L, W>)
    requires a.phase == Building && b.phase == Building
    requires build(a.tentative, s.priorities, a.order).Some? && build(b.tentative, s.priorities, b.order).Some?
    ensures var w := Play(build, maxHistory, Play(build, maxHistory, World(s, [a, b]), InARow(0, 6)), InARow(1, 6));
      && |w.callers| == 2 && w.callers[0].phase == Finished && w.callers[1].phase == Finished
      && w.s.sources == b.tentative
  {
    var w0 := World(s, [a, b]);
    PlayInARow(build, maxHistory, w0, 0, 6);
    RestOfCall(build, maxHistory, s, a);
    var w1 := Alone(build, maxHistory, w0, 0, 6);
    assert w1.callers[1] == b && w1.s.priorities == s.priorities;
    PlayInARow(build, maxHistory, w1, 1, 6);
    RestOfCall(build, maxHistory, w1.s, b);
  }

  /** Two calls from different sources that both read before either commits both succeed, and the sources
      keep only the later one's table. */
  lemma LostUpdate<T, L, W>(build: Build<Live<T, L, W>>, maxHistory: nat, s: State<Live<T, L, W>>,
                            a: Caller<T, L, W>, b: Caller<T, L, W>)
    requires a.phase == Reading && b.phase == Reading && a.source != b.source
    requires build(s.sources[a.source := a.table], s.priorities, a.order).Some?
    requires build(s.sources[b.source := b.table], s.priorities, b.order).Some?
    ensures var w := Play(build, maxHistory, World(s, [a, b]), ReadReadCommitCommit());
      && |w.callers| == 2 && w.callers[0].phase == Finished && w.callers[1].phase == Finished
      && w.s.sources == s.sources[b.source := b.table]
  {
    var w0 := World(s, [a, b]);
    var a1, b1 := Advance(build, maxHistory, s, a).1, Advance(build, maxHistory, s, b).1;
    BothRead(build, maxHistory, s, a, b);
    CommitInTurn(build, maxHistory, s, a1, b1);
    PlayOn(build, maxHistory, w0, [0, 1], InARow(0, 6));
    PlayOn(build, maxHistory, w0, [0, 1] + InARow(0, 6), InARow(1, 6));
  }
}
