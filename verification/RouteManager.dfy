/** The lifecycle of the compiled route table: apply, rollback, bounded history and the coalescing
    worker (src/route_manager.rs). */
module RouteManager {
  import opened Text
  import opened RouteIr
  import opened SourceMerge

  type Sources = map<string, RouteTable>
  type Priorities = map<string, int>

  // ---- The state machine, for tables of any kind ----

  /** Which of the possible hash orders a compilation meets. */
  type Order = int

  /** Merging and compiling; `None` is a compile error. The result can depend on hash order. */
  type Build<!V> = (Sources, Priorities, Order) -> Option<V>

  datatype Version<+V> = Version(source: string, live: V)

  datatype State<+V> = State(live: V, sources: Sources, priorities: Priorities, history: seq<Version<V>>)

  /** Appends a version, dropping the oldest one when the history is full. */
  function Push<V>(history: seq<V>, v: V, maxHistory: nat): seq<V> {
    (if |history| >= maxHistory && history != [] then history[1..] else history) + [v]
  }

  function ApplyStep<V>(build: Build<V>, maxHistory: nat, s: State<V>, source: string, table: RouteTable, order: Order): (State<V>, bool) {
    var sources := s.sources[source := table];
    var live := build(sources, s.priorities, order);
    if live.None? then (s, false)
    else (State(live.value, sources, s.priorities, Push(s.history, Version(source, live.value), maxHistory)), true)
  }

  predicate CanRollback<V>(history: seq<V>, steps: nat) {
    0 < steps < |history|
  }

  function RollbackStep<V>(s: State<V>, steps: nat): (State<V>, bool) {
    if CanRollback(s.history, steps) then
      var history := s.history[..|s.history| - steps];
      (s.(live := history[|history| - 1].live, history := history), true)
    else (s, false)
  }

  datatype Op = ApplyOp(source: string, table: RouteTable, order: Order) | RollbackOp(steps: nat) | SetPriorityOp(source: string, priority: int)

  function Step<V>(build: Build<V>, maxHistory: nat, s: State<V>, op: Op): (State<V>, bool) {
    match op
    case ApplyOp(source, table, order) => ApplyStep(build, maxHistory, s, source, table, order)
    case RollbackOp(steps) => RollbackStep(s, steps)
    case SetPriorityOp(source, p) => (s.(priorities := s.priorities[source := p]), true)
  }

  // ---- Runs ----

  /** The undo stack an unbounded history would hold after the same step. */
  function UndoStep<V>(undo: seq<Version<V>>, op: Op, ok: bool, after: State<V>): seq<Version<V>> {
    if !ok then undo
    else
      match op
      case ApplyOp(source, _, _) => undo + [Version(source, after.live)]
      case RollbackOp(steps) => if steps <= |undo| then undo[..|undo| - steps] else undo
      case SetPriorityOp(_, _) => undo
  }

  /** The state and the unbounded undo stack after a run. */
  function Run<V>(build: Build<V>, maxHistory: nat, start: State<V>, ops: seq<Op>): (State<V>, seq<Version<V>>) {
    if ops == [] then (start, [])
    else
      var (s, undo) := Run(build, maxHistory, start, ops[..|ops| - 1]);
      var op := ops[|ops| - 1];
      var (after, ok) := Step(build, maxHistory, s, op);
      (after, UndoStep(undo, op, ok, after))
  }

  ghost predicate IsSuffix<V>(a: seq<V>, b: seq<V>) {
    |a| <= |b| && a == b[|b| - |a|..]
  }

  function Capacity(maxHistory: nat): nat {
    if maxHistory == 0 then 1 else maxHistory
  }

  /** What holds after every step, starting from a manager without history: the live tables are the
      newest version, and the history is the recent end of the full undo stack. */
  ghost predicate Sound<V>(s: State<V>, undo: seq<Version<V>>, initial: V, maxHistory: nat) {
    && IsSuffix(s.history, undo)
    && |s.history| <= Capacity(maxHistory)
    && (undo == [] <==> s.history == [])
    && s.live == if s.history == [] then initial else s.history[|s.history| - 1].live
  }

  lemma {:induction false} RunIsSound<V>(build: Build<V>, maxHistory: nat, start: State<V>, ops: seq<Op>)
    requires start.history == []
    ensures var (s, undo) := Run(build, maxHistory, start, ops); Sound(s, undo, start.live, maxHistory)
  {
    if ops != [] {
      RunIsSound(build, maxHistory, start, ops[..|ops| - 1]);
      var (s, undo) := Run(build, maxHistory, start, ops[..|ops| - 1]);
      StepIsSound(build, maxHistory, s, undo, start.live, ops[|ops| - 1]);
    }
  }

  lemma PushKeepsSuffix<V>(h: seq<V>, undo: seq<V>, v: V, maxHistory: nat)
    requires IsSuffix(h, undo) && |h| <= Capacity(maxHistory)
    ensures IsSuffix(Push(h, v, maxHistory), undo + [v])
    ensures |Push(h, v, maxHistory)| <= Capacity(maxHistory)
  {
    var k := |undo| - |h|;
    assert (undo + [v])[k..] == h + [v];
    if h != [] {
      assert (undo + [v])[k + 1..] == h[1..] + [v];
    }
  }

  lemma TruncateKeepsSuffix<V>(h: seq<V>, undo: seq<V>, steps: nat)
    requires IsSuffix(h, undo) && steps < |h|
    ensures IsSuffix(h[..|h| - steps], undo[..|undo| - steps])
  {
    var k := |undo| - |h|;
    assert undo[..|undo| - steps][k..] == undo[k..][..|h| - steps];
  }

  lemma StepIsSound<V>(build: Build<V>, maxHistory: nat, s: State<V>, undo: seq<Version<V>>, initial: V, op: Op)
    requires Sound(s, undo, initial, maxHistory)
    ensures var (after, ok) := Step(build, maxHistory, s, op);
      Sound(after, UndoStep(undo, op, ok, after), initial, maxHistory)
  {
    var (after, ok) := Step(build, maxHistory, s, op);
    if ok {
      match op
      case ApplyOp(source, _, _) => PushKeepsSuffix(s.history, undo, Version(source, after.live), maxHistory);
      case RollbackOp(steps) => TruncateKeepsSuffix(s.history, undo, steps);
      case SetPriorityOp(_, _) =>
    }
  }

  // ---- What the steps mean ----

  /** An apply succeeds exactly when the sources with the new table compile; it then serves the result, records
      the table and puts the result on top of the history. A failed one changes nothing. */
  lemma ApplyMeaning<V>(build: Build<V>, maxHistory: nat, s: State<V>, source: string, table: RouteTable, order: Order)
    ensures var (t, ok) := Step(build, maxHistory, s, ApplyOp(source, table, order));
      && ok == build(s.sources[source := table], s.priorities, order).Some?
      && (!ok ==> t == s)
      && (ok ==> t.sources == s.sources[source := table] && t.priorities == s.priorities)
      && (ok ==> build(t.sources, t.priorities, order) == Some(t.live))
      && (ok ==> t.history != [] && t.history[|t.history| - 1] == Version(source, t.live))
  {
  }

  /** A rollback succeeds when that many newer versions are there; it then serves the version below them, drops
      them, and leaves sources and priorities as they are. */
  lemma RollbackMeaning<V>(build: Build<V>, maxHistory: nat, s: State<V>, steps: nat)
    ensures var (t, ok) := Step(build, maxHistory, s, RollbackOp(steps));
      && ok == (steps >= 1 && |s.history| >= steps + 1)
      && (!ok ==> t == s)
      && (ok ==> t.sources == s.sources && t.priorities == s.priorities)
      && (ok ==> |t.history| == |s.history| - steps && t.history <= s.history)
      && (ok ==> t.live == s.history[|s.history| - 1 - steps].live)
  {
  }

  // ---- How long the history is ----

  /** The greatest depth the undo stack has reached during the run. */
  ghost function DeepestUndo<V>(build: Build<V>, maxHistory: nat, start: State<V>, ops: seq<Op>): nat {
    if ops == [] then 0
    else
      var before := DeepestUndo(build, maxHistory, start, ops[..|ops| - 1]);
      var depth := |Run(build, maxHistory, start, ops).1|;
      if depth > before then depth else before
  }

  lemma {:induction false} DeepestIsDeep<V>(build: Build<V>, maxHistory: nat, start: State<V>, ops: seq<Op>)
    ensures DeepestUndo(build, maxHistory, start, ops) >= |Run(build, maxHistory, start, ops).1|
  {
  }

  /** What an unbounded undo stack would hold and the history does not: what the deepest moment had beyond
      `max(1, maxHistory)` versions, and nothing else. */
  ghost predicate FullHistory<V>(s: State<V>, undo: seq<Version<V>>, deepest: nat, maxHistory: nat) {
    var room := if maxHistory == 0 then 1 else maxHistory;
    |undo| - |s.history| == if deepest > room then deepest - room else 0
  }

  lemma StepStaysFull<V>(build: Build<V>, maxHistory: nat, s: State<V>, undo: seq<Version<V>>, op: Op, initial: V, deepest: nat)
    requires Sound(s, undo, initial, maxHistory) && FullHistory(s, undo, deepest, maxHistory) && deepest >= |undo|
    ensures var (after, ok) := Step(build, maxHistory, s, op);
      var undo' := UndoStep(undo, op, ok, after);
      FullHistory(after, undo', if |undo'| > deepest then |undo'| else deepest, maxHistory)
  {
  }

  lemma {:induction false} HistoryIsFull<V>(build: Build<V>, maxHistory: nat, start: State<V>, ops: seq<Op>)
    requires start.history == []
    ensures var (s, undo) := Run(build, maxHistory, start, ops);
      FullHistory(s, undo, DeepestUndo(build, maxHistory, start, ops), maxHistory)
  {
    if ops != [] {
      var init := ops[..|ops| - 1];
      HistoryIsFull(build, maxHistory, start, init);
      DeepestIsDeep(build, maxHistory, start, init);
      RunIsSound(build, maxHistory, start, init);
      var (s, undo) := Run(build, maxHistory, start, init);
      StepStaysFull(build, maxHistory, s, undo, ops[|ops| - 1], start.live, DeepestUndo(build, maxHistory, start, init));
    }
  }

  /** Every rollback of the run is refused. */
  ghost predicate NoRollback<V>(build: Build<V>, maxHistory: nat, start: State<V>, ops: seq<Op>) {
    ops != [] ==>
      && NoRollback(build, maxHistory, start, ops[..|ops| - 1])
      && (ops[|ops| - 1].RollbackOp? ==>
            !Step(build, maxHistory, Run(build, maxHistory, start, ops[..|ops| - 1]).0, ops[|ops| - 1]).1)
  }

  /** How many applies of the run succeed. */
  ghost function Successes<V>(build: Build<V>, maxHistory: nat, start: State<V>, ops: seq<Op>): nat {
    if ops == [] then 0
    else
      var init, op := ops[..|ops| - 1], ops[|ops| - 1];
      Successes(build, maxHistory, start, init)
      + if op.ApplyOp? && Step(build, maxHistory, Run(build, maxHistory, start, init).0, op).1 then 1 else 0
  }

  lemma {:induction false} UndoCounts<V>(build: Build<V>, maxHistory: nat, start: State<V>, ops: seq<Op>)
    requires NoRollback(build, maxHistory, start, ops)
    ensures |Run(build, maxHistory, start, ops).1| == Successes(build, maxHistory, start, ops)
    ensures DeepestUndo(build, maxHistory, start, ops) == Successes(build, maxHistory, start, ops)
  {
    if ops != [] {
      UndoCounts(build, maxHistory, start, ops[..|ops| - 1]);
    }
  }

  /** After k successful applies and no rollback the history has min(k, max(1, maxHistory)) versions. */
  lemma HistoryLength<V>(build: Build<V>, maxHistory: nat, start: State<V>, ops: seq<Op>)
    requires start.history == [] && NoRollback(build, maxHistory, start, ops)
    ensures var k, room := Successes(build, maxHistory, start, ops), if maxHistory == 0 then 1 else maxHistory;
      |Run(build, maxHistory, start, ops).0.history| == if k <= room then k else room
  {
    HistoryIsFull(build, maxHistory, start, ops);
    UndoCounts(build, maxHistory, start, ops);
  }

  /** Every operation of the run is an apply that succeeds. */
  ghost predicate AllSucceed<V>(build: Build<V>, maxHistory: nat, s: State<V>, ops: seq<Op>) {
    ops != [] ==>
      && AllSucceed(build, maxHistory, s, ops[..|ops| - 1])
      && ops[|ops| - 1].ApplyOp?
      && Step(build, maxHistory, Run(build, maxHistory, s, ops[..|ops| - 1]).0, ops[|ops| - 1]).1
  }

  lemma {:induction false} AppliesKeepBelow<V>(build: Build<V>, maxHistory: nat, s: State<V>, ops: seq<Op>)
    requires s.history != [] && AllSucceed(build, maxHistory, s, ops) && |ops| < Capacity(maxHistory)
    ensures var t := Run(build, maxHistory, s, ops).0;
      |t.history| > |ops| && t.history[|t.history| - 1 - |ops|] == s.history[|s.history| - 1]
  {
    if ops != [] {
      AppliesKeepBelow(build, maxHistory, s, ops[..|ops| - 1]);
    }
  }

  /** Fewer successful applies than the history can hold are undone by rolling back that many: what was live
      before them is live again, from any state whose newest version is live. */
  lemma RollbackUndoesApplies<V>(build: Build<V>, maxHistory: nat, s: State<V>, ops: seq<Op>)
    requires s.history != [] && s.live == s.history[|s.history| - 1].live
    requires AllSucceed(build, maxHistory, s, ops) && 0 < |ops| < if maxHistory == 0 then 1 else maxHistory
    ensures var (t, _) := Run(build, maxHistory, s, ops + [RollbackOp(|ops|)]);
      Step(build, maxHistory, Run(build, maxHistory, s, ops).0, RollbackOp(|ops|)).1 && t.live == s.live
  {
    AppliesKeepBelow(build, maxHistory, s, ops);
    assert (ops + [RollbackOp(|ops|)])[..|ops|] == ops;
  }

  // ---- Rollbacks compose ----

  /** Rolling back in two goes equals one go exactly when the whole distance is available, or one
      of the goes is empty, or neither part could be rolled back anyway. */
  lemma RollbacksCompose<V>(s: State<V>, a: nat, b: nat)
    ensures RollbackStep(RollbackStep(s, a).0, b).0 == RollbackStep(s, a + b).0 <==>
      a == 0 || b == 0 || a + b < |s.history| || (a >= |s.history| && b >= |s.history|)
  {
    var n := |s.history|;
    if 0 < a && 0 < b {
      if a + b < n {
        assert s.history[..n - a][..n - a - b] == s.history[..n - (a + b)];
      } else if a < n {
        assert |RollbackStep(RollbackStep(s, a).0, b).0.history| < n;
      }
    }
  }

  // ---- Live tables and sources ----

  /** Some hash order compiles these inputs to `live`. */
  ghost predicate IsCompilation<V>(build: Build<V>, sources: Sources, priorities: Priorities, live: V) {
    exists order: Order :: build(sources, priorities, order) == Some(live)
  }

  /** The live tables are a compilation of the recorded sources. */
  ghost predicate UpToDate<V>(build: Build<V>, s: State<V>) {
    IsCompilation(build, s.sources, s.priorities, s.live)
  }

  /** The version a rollback restores. */
  function Target<V>(s: State<V>, steps: nat): Version<V>
    requires CanRollback(s.history, steps)
  {
    s.history[|s.history| - steps - 1]
  }

  /** Exactly when a step leaves up-to-date tables up to date: an apply always does, a rollback when the
      version it restores is a compilation of the sources recorded now, a priority change when the live
      tables are one under the new priorities. */
  lemma StaysUpToDateIff<V>(build: Build<V>, maxHistory: nat, s: State<V>, op: Op)
    requires UpToDate(build, s)
    ensures UpToDate(build, Step(build, maxHistory, s, op).0) <==>
      match op
      case ApplyOp(_, _, _) => true
      case RollbackOp(steps) =>
        CanRollback(s.history, steps) ==> IsCompilation(build, s.sources, s.priorities, Target(s, steps).live)
      case SetPriorityOp(source, p) => IsCompilation(build, s.sources, s.priorities[source := p], s.live)
  {
    match op
    case ApplyOp(source, table, order) =>
      var (after, ok) := Step(build, maxHistory, s, op);
      assert ok ==> build(after.sources, after.priorities, order) == Some(after.live);
    case RollbackOp(steps) =>
      if CanRollback(s.history, steps) {
        assert s.history[..|s.history| - steps][|s.history| - steps - 1] == Target(s, steps);
      }
    case SetPriorityOp(source, p) =>
  }

  /** Every hash order compiles these inputs alike. */
  ghost predicate OneResult<V>(build: Build<V>, sources: Sources, priorities: Priorities) {
    forall o: Order :: build(sources, priorities, o) == build(sources, priorities, 0)
  }

  /** Where the order does not matter, the restored version and the result under the new priorities must
      be the live tables. */
  lemma StaysUpToDateIffEqual<V>(build: Build<V>, maxHistory: nat, s: State<V>, steps: nat, source: string, p: int)
    requires UpToDate(build, s) && OneResult(build, s.sources, s.priorities)
    ensures CanRollback(s.history, steps) ==>
      (UpToDate(build, RollbackStep(s, steps).0) <==> Target(s, steps).live == s.live)
    ensures OneResult(build, s.sources, s.priorities[source := p]) ==>
      (UpToDate(build, Step(build, maxHistory, s, SetPriorityOp(source, p)).0) <==>
        build(s.sources, s.priorities[source := p], 0) == build(s.sources, s.priorities, 0))
  {
    StaysUpToDateIff(build, maxHistory, s, RollbackOp(steps));
    StaysUpToDateIff(build, maxHistory, s, SetPriorityOp(source, p));
    var o :| build(s.sources, s.priorities, o) == Some(s.live);
    assert build(s.sources, s.priorities, 0) == Some(s.live);
  }

  /** No rollback takes effect and no priority changes. */
  ghost predicate OnlyApplies<V>(build: Build<V>, maxHistory: nat, s: State<V>, ops: seq<Op>)
    decreases |ops|
  {
    ops != [] ==>
      && (ops[0].RollbackOp? ==> !CanRollback(s.history, ops[0].steps))
      && !ops[0].SetPriorityOp?
      && OnlyApplies(build, maxHistory, Step(build, maxHistory, s, ops[0]).0, ops[1..])
  }

  ghost function RunFrom<V>(build: Build<V>, maxHistory: nat, s: State<V>, ops: seq<Op>): State<V>
    decreases |ops|
  {
    if ops == [] then s else RunFrom(build, maxHistory, Step(build, maxHistory, s, ops[0]).0, ops[1..])
  }

  /** After a successful apply the live tables follow the sources until a rollback or a priority
      change takes effect. */
  lemma {:induction false} UpToDateUntilRollback<V>(build: Build<V>, maxHistory: nat, s: State<V>, ops: seq<Op>)
    requires UpToDate(build, s) && OnlyApplies(build, maxHistory, s, ops)
    ensures UpToDate(build, RunFrom(build, maxHistory, s, ops))
    decreases |ops|
  {
    if ops != [] {
      UpToDateUntilRollback(build, maxHistory, Step(build, maxHistory, s, ops[0]).0, ops[1..]);
    }
  }

  /** A rollback restores the tables but not the sources: the next apply from any other source
      compiles the rolled-back table again. */
  lemma RollbackIsUndoneByNextApply<V>(build: Build<V>, maxHistory: nat, s0: State<V>, a: string, bad: RouteTable,
                                       b: string, other: RouteTable, order: Order, order': Order)
    requires a != b && s0.history != [] && maxHistory >= 2
    requires ApplyStep(build, maxHistory, s0, a, bad, order).1
    ensures var s1 := ApplyStep(build, maxHistory, s0, a, bad, order).0;
      var (s2, rolledBack) := RollbackStep(s1, 1);
      var (s3, applied) := ApplyStep(build, maxHistory, s2, b, other, order');
      && rolledBack && s2.live == s0.history[|s0.history| - 1].live
      && s2.sources == s0.sources[a := bad]
      && (applied ==> Some(s3.live) == build(s0.sources[a := bad][b := other], s0.priorities, order'))
  {
    var s1 := ApplyStep(build, maxHistory, s0, a, bad, order).0;
    assert s1.history[|s1.history| - 2] == s0.history[|s0.history| - 1];
  }

  /** A compiler that keeps what it was given. */
  function Echo(): Build<Sources> {
    (sources: Sources, priorities: Priorities, order: Order) => Some(sources)
  }

  /** Two applies and a rollback: the live tables lack a source that is recorded. */
  lemma StaleAfterRollback(t: RouteTable)
    ensures var start := State(map[], map[], map[], []);
      var ops := [ApplyOp("a", t, 0), ApplyOp("b", t, 0), RollbackOp(1)];
      var s := RunFrom(Echo(), 10, start, ops);
      s.live == map["a" := t] && s.sources == map["a" := t, "b" := t] && !UpToDate(Echo(), s)
  {
    var start: State<Sources> := State(map[], map[], map[], []);
    var apply, other, back := ApplyOp("a", t, 0), ApplyOp("b", t, 0), RollbackOp(1);
    var s1 := Step(Echo(), 10, start, apply).0;
    assert s1 == State(map["a" := t], map["a" := t], map[], [Version("a", map["a" := t])]);
    var s2 := Step(Echo(), 10, s1, other).0;
    var both := map["a" := t, "b" := t];
    assert s2 == State(both, both, map[], [Version("a", map["a" := t]), Version("b", both)]);
    var s3 := Step(Echo(), 10, s2, back).0;
    assert s3.live == map["a" := t] && s3.sources == both;
    RunOfThree(Echo(), 10, start, apply, other, back);
    assert "b" in both && "b" !in map["a" := t];
  }

  lemma RunOfThree<V>(build: Build<V>, maxHistory: nat, s: State<V>, x: Op, y: Op, z: Op)
    ensures RunFrom(build, maxHistory, s, [x, y, z])
      == Step(build, maxHistory, Step(build, maxHistory, Step(build, maxHistory, s, x).0, y).0, z).0
  {
    var s1 := Step(build, maxHistory, s, x).0;
    var s2 := Step(build, maxHistory, s1, y).0;
    assert [x, y, z][1..] == [y, z] && [y, z][1..] == [z];
    assert RunFrom(build, maxHistory, s1, [y, z]) == RunFrom(build, maxHistory, s2, [z]);
    assert RunFrom(build, maxHistory, s2, [z]) == Step(build, maxHistory, s2, z).0;
  }

  // ---- The manager object ----

  /** The compilers the manager drives. */
  datatype Compiler<!T, !L, !W> = Compiler(
    l4: (RouteTable, Order) -> Option<L>,
    table: (RouteTable, Order) -> Option<T>,
    rewrites: T -> W)

  /** What the proxy serves from. */
  datatype Live<+T, +L, +W> = Live(table: T, l4: L, rewrites: W)

  function CompileTable<T, L, W>(c: Compiler<T, L, W>, merged: RouteTable, order: Order): Option<Live<T, L, W>> {
    var l4, table := c.l4(merged, order), c.table(merged, order);
    if l4.None? || table.None? then None
    else Some(Live(table.value, l4.value, c.rewrites(table.value)))
  }

  ghost function BuildWith<T, L, W>(c: Compiler<T, L, W>): Build<Live<T, L, W>> {
    (sources, priorities, order) => CompileTable(c, Merged(sources, priorities), order)
  }

  /** The manager's build succeeds with the tables both compilers give for the merged sources, and the rewrites
      of the compiled table. */
  lemma BuildMeaning<T, L, W>(c: Compiler<T, L, W>, sources: Sources, priorities: Priorities, order: Order, live: Live<T, L, W>)
    ensures BuildWith(c)(sources, priorities, order) == Some(live) <==>
      var merged := Merged(sources, priorities);
      c.l4(merged, order) == Some(live.l4) && c.table(merged, order) == Some(live.table) && live.rewrites == c.rewrites(live.table)
    ensures BuildWith(c)(sources, priorities, order) == None <==>
      var merged := Merged(sources, priorities); c.l4(merged, order) == None || c.table(merged, order) == None
  {
  }

  lemma StepApplies<V>(build: Build<V>, maxHistory: nat, s: State<V>, source: string, table: RouteTable,
                       order: Order, live: Option<V>)
    requires live == build(s.sources[source := table], s.priorities, order)
    ensures Step(build, maxHistory, s, ApplyOp(source, table, order))
      == if live.None? then (s, false)
         else (State(live.value, s.sources[source := table], s.priorities,
                     Push(s.history, Version(source, live.value), maxHistory)), true)
  {
  }

  class Manager<T, L, W> {
    const compiler: Compiler<T, L, W>
    const maxHistory: nat
    var current: T
    var l4Config: L
    var rewrites: W
    var sources: Sources
    var priorities: Priorities
    var history: seq<Version<Live<T, L, W>>>

    function View(): State<Live<T, L, W>>
      reads this
    {
      State(Live(current, l4Config, rewrites), sources, priorities, history)
    }

    constructor (compiler: Compiler<T, L, W>, maxHistory: nat, emptyTable: T, emptyL4: L)
      ensures this.compiler == compiler && this.maxHistory == maxHistory
      ensures View() == State(Live(emptyTable, emptyL4, compiler.rewrites(emptyTable)), map[], map[], [])
    {
      this.compiler, this.maxHistory := compiler, maxHistory;
      current, l4Config, rewrites := emptyTable, emptyL4, compiler.rewrites(emptyTable);
      sources, priorities, history := map[], map[], [];
    }

    method SetPriority(source: string, priority: int)
      modifies this
      ensures (View(), true) == Step(BuildWith(compiler), maxHistory, old(View()), SetPriorityOp(source, priority))
    {
      priorities := priorities[source := priority];
    }

    /** Merges and compiles; stops at the first compile error. */
    method CompileAll(tentative: Sources, order: Order) returns (live: Option<Live<T, L, W>>)
      ensures live == BuildWith(compiler)(tentative, priorities, order)
    {
      var merged := MergeSources(tentative, priorities);
      var l4 := compiler.l4(merged, order);
      if l4.None? {
        return None;
      }
      var compiled := compiler.table(merged, order);
      if compiled.None? {
        return None;
      }
      return Some(Live(compiled.value, l4.value, compiler.rewrites(compiled.value)));
    }

    method Install(source: string, tentative: Sources, live: Live<T, L, W>)
      modifies this
      ensures View() == State(live, tentative, old(priorities), Push(old(history), Version(source, live), maxHistory))
    {
      current, l4Config, rewrites := live.table, live.l4, live.rewrites;
      sources := tentative;
      if |history| >= maxHistory && history != [] {
        history := history[1..];
      }
      history := history + [Version(source, live)];
    }

    /** `apply`, as one atomic step. */
    method Apply(source: string, table: RouteTable, order: Order) returns (ok: bool)
      modifies this
      ensures (View(), ok) == Step(BuildWith(compiler), maxHistory, old(View()), ApplyOp(source, table, order))
      ensures !ok ==> View() == old(View())
    {
      var tentative := sources[source := table];
      var live := CompileAll(tentative, order);
      StepApplies(BuildWith(compiler), maxHistory, View(), source, table, order, live);
      if live.None? {
        return false;
      }
      Install(source, tentative, live.value);
      return true;
    }

    method Rollback(steps: nat) returns (ok: bool)
      modifies this
      ensures (View(), ok) == Step(BuildWith(compiler), maxHistory, old(View()), RollbackOp(steps))
      ensures !ok ==> View() == old(View())
    {
      if steps == 0 || steps >= |history| {
        return false;
      }
      var newLen := |history| - steps;
      var target := history[newLen - 1];
      current, l4Config, rewrites := target.live.table, target.live.l4, target.live.rewrites;
      history := history[..newLen];
      return true;
    }
  }

  // ---- The coalescing worker ----

  const DEFAULT_SOURCE := "gateway-api"

  /** Whether a compilation succeeds does not depend on hash order. */
  ghost predicate Decided<V>(build: Build<V>) {
    forall sources, priorities, o: Order, o': Order ::
      build(sources, priorities, o).Some? == build(sources, priorities, o').Some?
  }

  /** The state after applying every message in turn, the `k`th one in hash order `orders(k)`. */
  ghost function ApplyAll<V>(build: Build<V>, maxHistory: nat, s: State<V>, ts: seq<RouteTable>, orders: nat -> Order): State<V> {
    if ts == [] then s
    else
      var before := ApplyAll(build, maxHistory, s, ts[..|ts| - 1], orders);
      ApplyStep(build, maxHistory, before, DEFAULT_SOURCE, ts[|ts| - 1], orders(|ts| - 1)).0
  }

  /** Whether a default-source table compiles next to the other sources. */
  ghost predicate Compiles<V>(build: Build<V>, s: State<V>, t: RouteTable) {
    build(s.sources[DEFAULT_SOURCE := t], s.priorities, 0).Some?
  }

  /** The last table of a list that compiles. */
  ghost function LastGood<V>(build: Build<V>, s: State<V>, ts: seq<RouteTable>): Option<RouteTable> {
    if ts == [] then None
    else if Compiles(build, s, ts[|ts| - 1]) then Some(ts[|ts| - 1])
    else LastGood(build, s, ts[..|ts| - 1])
  }

  /** Sources and live tables once `last` is the default source's table. */
  ghost predicate Settled<V>(build: Build<V>, start: State<V>, last: Option<RouteTable>, s: State<V>) {
    && s.priorities == start.priorities
    && s.sources == (if last.None? then start.sources else start.sources["gateway-api" := last.value])
    && (if last.None? then s.live == start.live else UpToDate(build, s))
  }

  lemma ApplySettles<V>(build: Build<V>, maxHistory: nat, start: State<V>, last: Option<RouteTable>, s: State<V>, t: RouteTable, order: Order)
    requires Decided(build) && Settled(build, start, last, s)
    ensures var (after, ok) := ApplyStep(build, maxHistory, s, DEFAULT_SOURCE, t, order);
      && ok == Compiles(build, start, t)
      && Settled(build, start, if ok then Some(t) else last, after)
  {
    assert s.sources[DEFAULT_SOURCE := t] == start.sources[DEFAULT_SOURCE := t];
    var (after, ok) := ApplyStep(build, maxHistory, s, DEFAULT_SOURCE, t, order);
    assert ok == build(start.sources[DEFAULT_SOURCE := t], start.priorities, order).Some?;
    assert ok ==> build(after.sources, after.priorities, order) == Some(after.live);
  }

  lemma {:induction false} ApplyAllSettles<V>(build: Build<V>, maxHistory: nat, s: State<V>, ts: seq<RouteTable>, orders: nat -> Order)
    requires Decided(build)
    ensures Settled(build, s, LastGood(build, s, ts), ApplyAll(build, maxHistory, s, ts, orders))
  {
    if ts != [] {
      var init := ts[..|ts| - 1];
      var before := ApplyAll(build, maxHistory, s, init, orders);
      ApplyAllSettles(build, maxHistory, s, init, orders);
      ApplySettles(build, maxHistory, s, LastGood(build, s, init), before, ts[|ts| - 1], orders(|ts| - 1));
    }
  }

  /** What the worker takes from each wake-up: the latest table in the channel. */
  function Ends(batches: seq<seq<RouteTable>>): seq<RouteTable>
    requires forall i | 0 <= i < |batches| :: batches[i] != []
  {
    if batches == [] then []
    else Ends(batches[..|batches| - 1]) + [batches[|batches| - 1][|batches[|batches| - 1]| - 1]]
  }

  function Messages(batches: seq<seq<RouteTable>>): seq<RouteTable> {
    if batches == [] then [] else Messages(batches[..|batches| - 1]) + batches[|batches| - 1]
  }

  /** One wake-up of the worker: apply the latest table unless it is the one applied last. */
  method WakeUp<T, L, W>(mgr: Manager<T, L, W>, last: Option<RouteTable>, latest: RouteTable, order: Order,
                         ghost build: Build<Live<T, L, W>>, ghost start: State<Live<T, L, W>>)
    returns (r: Option<RouteTable>)
    requires build == BuildWith(mgr.compiler) && Decided(build) && Settled(build, start, last, mgr.View())
    requires last.Some? ==> Compiles(build, start, last.value)
    modifies mgr
    ensures r == if Compiles(build, start, latest) then Some(latest) else last
    ensures Settled(build, start, r, mgr.View())
  {
    if last == Some(latest) {
      return last;
    }
    ApplySettles(build, mgr.maxHistory, start, last, mgr.View(), latest, order);
    var ok := mgr.Apply(DEFAULT_SOURCE, latest, order);
    r := if ok then Some(latest) else last;
  }

  /** The worker loop of `spawn`: applies only the latest table of a batch, and not even that when
      it equals the last table it applied. */
  method Work<T, L, W>(mgr: Manager<T, L, W>, batches: seq<seq<RouteTable>>, orders: nat -> Order)
    requires Decided(BuildWith(mgr.compiler))
    requires forall i | 0 <= i < |batches| :: batches[i] != []
    modifies mgr
    ensures Settled(BuildWith(mgr.compiler), old(mgr.View()),
                    LastGood(BuildWith(mgr.compiler), old(mgr.View()), Ends(batches)), mgr.View())
  {
    ghost var build, start := BuildWith(mgr.compiler), mgr.View();
    var last: Option<RouteTable> := None;
    for i := 0 to |batches|
      invariant last == LastGood(build, start, Ends(batches[..i]))
      invariant Settled(build, start, last, mgr.View())
    {
      var latest := batches[i][|batches[i]| - 1];
      NextEnd(build, start, batches, i);
      last := WakeUp(mgr, last, latest, orders(i), build, start);
    }
    assert batches[..|batches|] == batches;
  }

  lemma NextEnd<V>(build: Build<V>, s: State<V>, batches: seq<seq<RouteTable>>, i: nat)
    requires i < |batches| && forall j | 0 <= j < |batches| :: batches[j] != []
    ensures var last, latest := LastGood(build, s, Ends(batches[..i])), batches[i][|batches[i]| - 1];
      && (last.Some? ==> Compiles(build, s, last.value))
      && LastGood(build, s, Ends(batches[..i + 1])) == if Compiles(build, s, latest) then Some(latest) else last
  {
    EndsSnoc(batches, i);
    LastGoodSnoc(build, s, Ends(batches[..i]), batches[i][|batches[i]| - 1]);
    LastGoodCompiles(build, s, Ends(batches[..i]));
  }

  lemma EndsSnoc(batches: seq<seq<RouteTable>>, i: nat)
    requires i < |batches| && forall j | 0 <= j < |batches| :: batches[j] != []
    ensures Ends(batches[..i + 1]) == Ends(batches[..i]) + [batches[i][|batches[i]| - 1]]
  {
    assert batches[..i + 1][..i] == batches[..i];
  }

  lemma LastGoodSnoc<V>(build: Build<V>, s: State<V>, ts: seq<RouteTable>, t: RouteTable)
    ensures LastGood(build, s, ts + [t]) == if Compiles(build, s, t) then Some(t) else LastGood(build, s, ts)
  {
    assert (ts + [t])[..|ts|] == ts;
  }

  lemma {:induction false} LastGoodCompiles<V>(build: Build<V>, s: State<V>, ts: seq<RouteTable>)
    ensures LastGood(build, s, ts).Some? ==> Compiles(build, s, LastGood(build, s, ts).value)
  {
    if ts != [] {
      LastGoodCompiles(build, s, ts[..|ts| - 1]);
    }
  }

  /** When every table compiles, the last batch end is the last message. */
  lemma {:induction false} SameLastMessage(batches: seq<seq<RouteTable>>)
    requires forall i | 0 <= i < |batches| :: batches[i] != []
    ensures (Ends(batches) == []) <==> (Messages(batches) == [])
    ensures Ends(batches) != [] ==> Ends(batches)[|Ends(batches)| - 1] == Messages(batches)[|Messages(batches)| - 1]
  {
    if batches != [] {
      SameLastMessage(batches[..|batches| - 1]);
    }
  }

  /** Any batching, with no-op skipping, ends in the sources that applying every message would give, if
      and only if the two last tables that compile coincide; the live tables are then compilations of the
      same sources, or both untouched. */
  lemma CoalescingIsTransparentIff<V>(build: Build<V>, maxHistory: nat, start: State<V>, batches: seq<seq<RouteTable>>,
                                      orders: nat -> Order, coalesced: State<V>)
    requires Decided(build) && forall i | 0 <= i < |batches| :: batches[i] != []
    requires Settled(build, start, LastGood(build, start, Ends(batches)), coalesced)
    requires DEFAULT_SOURCE !in start.sources
    ensures var each := ApplyAll(build, maxHistory, start, Messages(batches), orders);
      var a, b := LastGood(build, start, Ends(batches)), LastGood(build, start, Messages(batches));
      && (coalesced.sources == each.sources <==> a == b)
      && (a == b ==> Settled(build, start, a, coalesced) && Settled(build, start, a, each))
    ensures (forall i | 0 <= i < |Messages(batches)| :: Compiles(build, start, Messages(batches)[i])) ==>
      LastGood(build, start, Ends(batches)) == LastGood(build, start, Messages(batches))
  {
    ApplyAllSettles(build, maxHistory, start, Messages(batches), orders);
    SameLastMessage(batches);
    var a, b := LastGood(build, start, Ends(batches)), LastGood(build, start, Messages(batches));
    if a.Some? && b.Some? && a != b {
      assert start.sources[DEFAULT_SOURCE := a.value][DEFAULT_SOURCE] == a.value;
      assert start.sources[DEFAULT_SOURCE := b.value][DEFAULT_SOURCE] == b.value;
    }
  }

  /** Where the order does not matter, settled states serve the same tables. */
  lemma SettledServesSame<V>(build: Build<V>, start: State<V>, last: Option<RouteTable>, s: State<V>, t: State<V>)
    requires Settled(build, start, last, s) && Settled(build, start, last, t)
    requires OneResult(build, s.sources, s.priorities)
    ensures s.live == t.live
  {
  }

  /** A batch that ends in a table that does not compile loses the earlier one that does. */
  lemma CoalescingLosesGood<V>(build: Build<V>, maxHistory: nat, start: State<V>, good: RouteTable, bad: RouteTable,
                               orders: nat -> Order, coalesced: State<V>)
    requires Decided(build) && Compiles(build, start, good) && !Compiles(build, start, bad)
    requires DEFAULT_SOURCE !in start.sources
    requires Settled(build, start, LastGood(build, start, Ends([[good, bad]])), coalesced)
    ensures coalesced.sources == start.sources && coalesced.live == start.live
    ensures ApplyAll(build, maxHistory, start, Messages([[good, bad]]), orders).sources == start.sources[DEFAULT_SOURCE := good]
  {
    ApplyAllSettles(build, maxHistory, start, Messages([[good, bad]]), orders);
    assert Ends([[good, bad]]) == [bad] && Messages([[good, bad]]) == [good, bad];
    LastGoodSnoc(build, start, [], bad);
    LastGoodSnoc(build, start, [good], bad);
    LastGoodSnoc(build, start, [], good);
    assert [] + [bad] == [bad] && [good] + [bad] == [good, bad] && [] + [good] == [good];
  }
}
