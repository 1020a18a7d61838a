/** What the watchdog keeps over every run of spawns, panics, ticks and shutdowns. */
module WatchdogRuns {
  import opened Watchdog

  // ---- Supervision ----

  ghost predicate Waits(s: State, key: Key) {
    exists p | p in s.pending :: p.key == key
  }

  ghost predicate Supervised(s: State, key: Key) {
    key in s.tasks || Waits(s, key)
  }

  /** No key is both running and waiting to restart, or waiting twice. */
  ghost predicate Separate(tasks: map<Key, Factory>, pending: seq<Pending>) {
    && (forall p | p in pending :: p.key !in tasks)
    && (forall i, j | 0 <= i < j < |pending| :: pending[i].key != pending[j].key)
  }

  lemma {:induction false} WaitingMembers(pending: seq<Pending>, now: int)
    ensures forall p :: p in Waiting(pending, now) <==> p in pending && p.due > now
  {
    if pending != [] {
      WaitingMembers(pending[1..], now);
    }
  }

  lemma {:induction false} RestartedKeys(tasks: map<Key, Factory>, pending: seq<Pending>, now: int)
    ensures forall k :: k in Restarted(tasks, pending, now) <==> k in tasks || exists p | p in pending :: p.key == k && p.due <= now
    decreases |pending|
  {
    if pending != [] {
      var p := pending[0];
      var next := if p.due <= now then tasks[p.key := p.factory] else tasks;
      RestartedKeys(next, pending[1..], now);
      forall k ensures k in Restarted(tasks, pending, now) <==> k in tasks || exists p | p in pending :: p.key == k && p.due <= now {
        if k in tasks || exists p | p in pending :: p.key == k && p.due <= now {
          assert k in next || exists p | p in pending[1..] :: p.key == k && p.due <= now;
        }
      }
    }
  }

  lemma {:induction false} KeepsRunning(tasks: map<Key, Factory>, pending: seq<Pending>, now: int, key: Key)
    requires key in tasks && forall p | p in pending :: p.key != key
    ensures key in Restarted(tasks, pending, now) && Restarted(tasks, pending, now)[key] == tasks[key]
    decreases |pending|
  {
    if pending != [] {
      var p := pending[0];
      KeepsRunning(if p.due <= now then tasks[p.key := p.factory] else tasks, pending[1..], now, key);
    }
  }

  /** A tick starts each task that is due with the factory it waited with, and leaves running ones alone. */
  lemma {:induction false} RestartedWith(tasks: map<Key, Factory>, pending: seq<Pending>, now: int, key: Key)
    requires Separate(tasks, pending) && key in Restarted(tasks, pending, now)
    ensures if key in tasks then Restarted(tasks, pending, now)[key] == tasks[key]
      else exists p | p in pending :: p.key == key && p.due <= now && Restarted(tasks, pending, now)[key] == p.factory
    decreases |pending|
  {
    if key in tasks {
      KeepsRunning(tasks, pending, now, key);
    } else {
      var p, rest := pending[0], pending[1..];
      if p.due <= now && p.key == key {
        KeepsRunning(tasks[p.key := p.factory], rest, now, key);
      } else {
        RestartedWith(if p.due <= now then tasks[p.key := p.factory] else tasks, rest, now, key);
      }
    }
  }

  lemma {:induction false} RestartKeepsSeparate(tasks: map<Key, Factory>, pending: seq<Pending>, now: int)
    requires Separate(tasks, pending)
    ensures Separate(Restarted(tasks, pending, now), Waiting(pending, now))
    decreases |pending|
  {
    if pending != [] {
      var p, rest := pending[0], pending[1..];
      var next := if p.due <= now then tasks[p.key := p.factory] else tasks;
      RestartKeepsSeparate(next, rest, now);
      WaitingMembers(rest, now);
      RestartedKeys(next, rest, now);
    }
  }

  lemma ObserveKeepsSeparate(s: State, key: Key, now: int)
    requires Separate(s.tasks, s.pending)
    ensures Separate(Observe(s, key, now).tasks, Observe(s, key, now).pending)
  {
  }

  /** Every restart that waits is due after `clock`. */
  ghost predicate Future(s: State, clock: int) {
    forall p | p in s.pending :: p.due > clock
  }

  lemma {:induction false} ObserveAllKeeps(s: State, keys: seq<Key>, now: int)
    requires Separate(s.tasks, s.pending) && Future(s, now)
    ensures var t := ObserveAll(s, keys, now); Separate(t.tasks, t.pending) && Future(t, now)
  {
    if keys != [] {
      ObserveAllKeeps(s, keys[..|keys| - 1], now);
      ObserveKeepsSeparate(ObserveAll(s, keys[..|keys| - 1], now), keys[|keys| - 1], now);
    }
  }

  /** A tick keeps running and waiting apart and leaves every restart due strictly later. */
  lemma TickKeepsSeparate(s: State, queue: seq<Key>, now: int)
    requires Separate(s.tasks, s.pending)
    ensures var t := Ticked(s, queue, now); Separate(t.tasks, t.pending) && Future(t, now)
  {
    RestartKeepsSeparate(s.tasks, s.pending, now);
    WaitingMembers(s.pending, now);
    ObserveAllKeeps(RestartDue(s, now), queue, now);
  }

  // ---- Budgets ----

  lemma {:induction false} RecentMembers(times: seq<int>, now: int)
    ensures forall t :: t in Recent(times, now) <==> t in times && now - t < 60_000
  {
    if times != [] {
      RecentMembers(times[..|times| - 1], now);
    }
  }

  lemma {:induction false} RecentAll(times: seq<int>, now: int)
    requires forall t | t in times :: now - t < 60_000
    ensures Recent(times, now) == times
  {
    if times != [] {
      var init := times[..|times| - 1];
      assert forall t | t in init :: t in times;
      assert times[|times| - 1] in times && times == init + [times[|times| - 1]];
      RecentAll(init, now);
    }
  }

  /** Forgetting early forgets nothing that a later reading would keep. */
  lemma {:induction false} RecentTwice(times: seq<int>, a: int, b: int)
    requires a <= b
    ensures Recent(Recent(times, a), b) == Recent(times, b)
  {
    if times != [] {
      var init, last := times[..|times| - 1], times[|times| - 1];
      RecentTwice(init, a, b);
      if a - last < 60_000 {
        assert (Recent(init, a) + [last])[..|Recent(init, a)|] == Recent(init, a);
      }
    }
  }

  lemma RecentAppend(times: seq<int>, now: int)
    ensures Recent(times + [now], now) == Recent(times, now) + [now]
  {
    assert (times + [now])[..|times|] == times;
  }

  /** How many of the times are less than a minute before `now`, or after it. */
  function Fresh(times: seq<int>, now: int): nat {
    if times == [] then 0 else (if now - times[0] < 60_000 then 1 else 0) + Fresh(times[1..], now)
  }

  lemma {:induction false} FreshAppend(times: seq<int>, t: int, now: int)
    ensures Fresh(times + [t], now) == Fresh(times, now) + if now - t < 60_000 then 1 else 0
  {
    if times == [] {
      assert Fresh([t][1..], now) == 0;
    } else {
      FreshAppend(times[1..], t, now);
      assert (times + [t])[1..] == times[1..] + [t];
    }
  }

  lemma {:induction false} FreshCounts(times: seq<int>, now: int)
    ensures |Recent(times, now)| == Fresh(times, now)
  {
    if times != [] {
      var init, last := times[..|times| - 1], times[|times| - 1];
      FreshCounts(init, now);
      FreshAppend(init, last, now);
      assert times == init + [last];
    }
  }

  /** The first panic in a minute waits 50 ms for its restart, the second 100 ms, and the third has none. */
  lemma BackoffSchedule(s: State, key: Key, now: int)
    ensures var n, t := Fresh(BudgetOf(s, key), now), Observe(s, key, now);
      && t.tasks == s.tasks - {key} && |BudgetOf(t, key)| == n + 1
      && (key in s.tasks && n == 0 ==> t.pending == s.pending + [Pending(key, s.tasks[key], now + 50)])
      && (key in s.tasks && n == 1 ==> t.pending == s.pending + [Pending(key, s.tasks[key], now + 100)])
      && (key !in s.tasks || n >= 2 ==> t.pending == s.pending)
      && (Outcome(s, key, now) == if n >= 2 then [key] else [])
  {
    FreshCounts(BudgetOf(s, key), now);
  }

  function Repeat(now: int, n: nat): (r: seq<int>)
    ensures |r| == n && forall t | t in r :: t == now
  {
    seq(n, _ => now)
  }

  /** `t` is `s` after `n` panics of `key` at `now`, as far as `key` can tell. */
  ghost predicate KeyEffect(s: State, t: State, n: nat, now: int, key: Key) {
    && BudgetOf(t, key) == (if n == 0 then BudgetOf(s, key) else Recent(BudgetOf(s, key), now) + Repeat(now, n))
    && (key in t.tasks <==> key in s.tasks && n == 0)
    && (Waits(t, key) <==> Waits(s, key) || (n > 0 && key in s.tasks && |Charged(s, key, now)| < 3))
  }

  lemma OtherPanic(s: State, t: State, n: nat, now: int, key: Key, other: Key)
    requires other != key && KeyEffect(s, t, n, now, key)
    ensures KeyEffect(s, Observe(t, other, now), n, now, key)
  {
    var u := Observe(t, other, now);
    assert u.pending[..|t.pending|] == t.pending;
    assert Waits(u, key) <==> Waits(t, key);
  }

  lemma ChargedAgain(times: seq<int>, n: nat, now: int)
    ensures Recent(Recent(times, now) + Repeat(now, n), now) + [now] == Recent(times, now) + Repeat(now, n + 1)
  {
    RecentMembers(times, now);
    RecentAll(Recent(times, now) + Repeat(now, n), now);
  }

  lemma OwnPanic(s: State, t: State, n: nat, now: int, key: Key)
    requires KeyEffect(s, t, n, now, key)
    ensures KeyEffect(s, Observe(t, key, now), n + 1, now, key)
  {
    var u := Observe(t, key, now);
    ChargedAgain(BudgetOf(s, key), n, now);
    assert n == 0 ==> Charged(t, key, now) == Charged(s, key, now);
    assert BudgetOf(u, key) == Recent(BudgetOf(s, key), now) + Repeat(now, n + 1);
    var joins := |Charged(t, key, now)| < 3 && key in t.tasks;
    assert u.pending[..|t.pending|] == t.pending;
    if joins {
      assert u.pending[|t.pending|].key == key;
    }
    assert Waits(u, key) <==> Waits(t, key) || joins;
  }

  lemma OnePanic(s: State, t: State, n: nat, now: int, key: Key, last: Key)
    requires KeyEffect(s, t, n, now, key)
    ensures KeyEffect(s, Observe(t, last, now), n + if last == key then 1 else 0, now, key)
  {
    if last == key {
      OwnPanic(s, t, n, now, key);
    } else {
      OtherPanic(s, t, n, now, key, last);
    }
  }

  lemma NoPanic(s: State, now: int, key: Key)
    ensures KeyEffect(s, s, 0, now, key)
  {
  }

  lemma CountLast(keys: seq<Key>, key: Key)
    requires keys != []
    ensures var n := |keys| - 1; multiset(keys)[key] == multiset(keys[..n])[key] + if keys[n] == key then 1 else 0
  {
    assert keys == keys[..|keys| - 1] + [keys[|keys| - 1]];
  }

  /** What observing `keys` at one instant does to one key, whatever else is in the queue. */
  lemma {:induction false} ObserveKey(s: State, keys: seq<Key>, now: int, key: Key)
    ensures KeyEffect(s, ObserveAll(s, keys, now), multiset(keys)[key], now, key)
  {
    if keys == [] {
      NoPanic(s, now, key);
    } else {
      var init, last := keys[..|keys| - 1], keys[|keys| - 1];
      ObserveKey(s, init, now, key);
      CountLast(keys, key);
      OnePanic(s, ObserveAll(s, init, now), multiset(init)[key], now, key, last);
    }
  }

  lemma OwnOutcome(t: State, key: Key, now: int)
    ensures key in Outcome(t, key, now) <==> |BudgetOf(Observe(t, key, now), key)| >= 3
  {
  }

  lemma OtherOutcome(t: State, key: Key, other: Key, now: int)
    requires other != key
    ensures key !in Outcome(t, other, now) && BudgetOf(Observe(t, other, now), key) == BudgetOf(t, key)
  {
  }

  /** Another panic at the same instant makes the budget list longer. */
  lemma OneMoreCharge(s: State, t: State, n: nat, now: int, key: Key)
    requires KeyEffect(s, t, n, now, key)
    ensures n > 0 ==> |BudgetOf(Observe(t, key, now), key)| == |BudgetOf(t, key)| + 1
  {
    OwnPanic(s, t, n, now, key);
  }

  /** Poisoned is reported for a key exactly when its budget list reaches three. */
  lemma {:induction false} PoisonedIff(s: State, keys: seq<Key>, now: int, key: Key)
    ensures key in Outcomes(s, keys, now) <==> key in keys && |BudgetOf(ObserveAll(s, keys, now), key)| >= 3
  {
    if keys != [] {
      var init, last := keys[..|keys| - 1], keys[|keys| - 1];
      assert keys == init + [last];
      var t := ObserveAll(s, init, now);
      PoisonedIff(s, init, now, key);
      if last == key {
        OwnOutcome(t, key, now);
        ObserveKey(s, init, now, key);
        OneMoreCharge(s, t, multiset(init)[key], now, key);
        assert key in init ==> multiset(init)[key] > 0;
      } else {
        OtherOutcome(t, key, last, now);
      }
    }
  }

  /** A poisoned key stops running in that tick, and stays supervised exactly when a restart of it was
      already waiting or its first panic in the tick still had budget for one. */
  lemma PoisonedStaysIff(s: State, queue: seq<Key>, now: int, key: Key)
    requires key in Poisoned(s, queue, now)
    ensures var r := RestartDue(s, now);
      Supervised(Ticked(s, queue, now), key) <==> Waits(r, key) || (key in r.tasks && |Charged(r, key, now)| < 3)
  {
    PoisonedIff(RestartDue(s, now), queue, now, key);
    ObserveKey(RestartDue(s, now), queue, now, key);
  }

  ghost predicate Distinct(keys: seq<Key>) {
    forall i, j | 0 <= i < j < |keys| :: keys[i] != keys[j]
  }

  lemma {:induction false} DistinctCount(keys: seq<Key>, key: Key)
    requires Distinct(keys)
    ensures multiset(keys)[key] <= 1
  {
    if keys != [] {
      var init, last := keys[..|keys| - 1], keys[|keys| - 1];
      assert keys == init + [last];
      DistinctCount(init, key);
      if last == key {
        assert key !in init;
      }
    }
  }

  /** When each signal is from a different running task, a poisoned key is no longer supervised. */
  lemma PoisonedStops(s: State, queue: seq<Key>, now: int, key: Key)
    requires Separate(s.tasks, s.pending) && Distinct(queue) && (forall k | k in queue :: k in s.tasks)
    requires key in Poisoned(s, queue, now)
    ensures !Supervised(Ticked(s, queue, now), key)
  {
    var r := RestartDue(s, now);
    PoisonedIff(r, queue, now, key);
    ObserveKey(r, queue, now, key);
    DistinctCount(queue, key);
    WaitingMembers(s.pending, now);
    assert !Waits(r, key);
    PoisonedStaysIff(s, queue, now, key);
  }

  // ---- Runs ----

  /** The watchdog's state and queue; every observation made of each key; the time of the last tick; and
      the keys whose current task has not panicked. */
  datatype World = World(state: State, queue: seq<Key>, observed: map<Key, seq<int>>, clock: int, alive: set<Key>)

  datatype Event = Spawn(key: Key, factory: Factory) | Panic(key: Key) | Tick(now: int) | Abort

  function Initial(clock: int): World {
    World(State(map[], map[], []), [], map[], clock, {})
  }

  function HistoryOf(observed: map<Key, seq<int>>, key: Key): seq<int> {
    if key in observed then observed[key] else []
  }

  function Noted(observed: map<Key, seq<int>>, keys: seq<Key>, now: int): map<Key, seq<int>> {
    if keys == [] then observed
    else
      var init, last := Noted(observed, keys[..|keys| - 1], now), keys[|keys| - 1];
      init[last := HistoryOf(init, last) + [now]]
  }

  /** Keys are spawned only when unsupervised, only a live task panics, and the clock does not go back. */
  ghost predicate Allowed(w: World, e: Event) {
    match e
    case Spawn(key, _) => !Supervised(w.state, key)
    case Panic(key) => key in w.alive
    case Tick(now) => now >= w.clock
    case Abort => true
  }

  function Next(w: World, e: Event): World {
    match e
    case Spawn(key, factory) => w.(state := Spawned(w.state, key, factory), alive := w.alive + {key})
    case Panic(key) => w.(queue := w.queue + [key], alive := w.alive - {key})
    case Tick(now) =>
      w.(state := Ticked(w.state, w.queue, now), queue := [], observed := Noted(w.observed, w.queue, now), clock := now,
         alive := (w.alive + set p | p in w.state.pending && p.due <= now :: p.key) * Ticked(w.state, w.queue, now).tasks.Keys)
    case Abort => w.(state := Aborted(w.state), alive := {})
  }

  function Run(w: World, events: seq<Event>): World
    decreases |events|
  {
    if events == [] then w else Run(Next(w, events[0]), events[1..])
  }

  ghost predicate Legal(w: World, events: seq<Event>)
    decreases |events|
  {
    events == [] || (Allowed(w, events[0]) && Legal(Next(w, events[0]), events[1..]))
  }

  /** The budget list is the observations less than a minute before the latest one. */
  ghost predicate BudgetTracks(s: State, observed: map<Key, seq<int>>, key: Key) {
    var h := HistoryOf(observed, key);
    BudgetOf(s, key) == if h == [] then [] else Recent(h, h[|h| - 1])
  }

  ghost predicate Sorted(times: seq<int>, clock: int) {
    && (forall i, j | 0 <= i <= j < |times| :: times[i] <= times[j])
    && (forall t | t in times :: t <= clock)
  }

  ghost predicate Invariant(w: World) {
    && Separate(w.state.tasks, w.state.pending)
    && Future(w.state, w.clock)
    && (forall key: Key :: BudgetTracks(w.state, w.observed, key) && Sorted(HistoryOf(w.observed, key), w.clock))
  }

  lemma SortedAppend(h: seq<int>, now: int)
    requires Sorted(h, now)
    ensures Sorted(h + [now], now)
  {
    assert forall i | 0 <= i < |h| :: h[i] in h;
  }

  /** Charging the kept entries is charging the whole history. */
  lemma ChargeHistory(h: seq<int>, now: int)
    requires Sorted(h, now)
    ensures Recent(if h == [] then [] else Recent(h, h[|h| - 1]), now) + [now] == Recent(h + [now], now)
  {
    RecentAppend(h, now);
    if h != [] {
      assert h[|h| - 1] in h;
      RecentTwice(h, h[|h| - 1], now);
    }
  }

  lemma NotedStep(s: State, observed: map<Key, seq<int>>, k: Key, now: int, key: Key)
    requires BudgetTracks(s, observed, key) && Sorted(HistoryOf(observed, key), now)
    ensures var noted := observed[k := HistoryOf(observed, k) + [now]];
      BudgetTracks(Observe(s, k, now), noted, key) && Sorted(HistoryOf(noted, key), now)
  {
    if key == k {
      ChargeHistory(HistoryOf(observed, key), now);
      SortedAppend(HistoryOf(observed, key), now);
    }
  }

  lemma {:induction false} NotedTracks(s: State, observed: map<Key, seq<int>>, keys: seq<Key>, now: int, key: Key)
    requires BudgetTracks(s, observed, key) && Sorted(HistoryOf(observed, key), now)
    ensures BudgetTracks(ObserveAll(s, keys, now), Noted(observed, keys, now), key)
    ensures Sorted(HistoryOf(Noted(observed, keys, now), key), now)
  {
    if keys != [] {
      var init := keys[..|keys| - 1];
      NotedTracks(s, observed, init, now, key);
      NotedStep(ObserveAll(s, init, now), Noted(observed, init, now), keys[|keys| - 1], now, key);
    }
  }

  lemma NextKeepsInvariant(w: World, e: Event)
    requires Invariant(w) && Allowed(w, e)
    ensures Invariant(Next(w, e))
  {
    match e
    case Tick(now) =>
      TickKeepsSeparate(w.state, w.queue, now);
      forall key: Key ensures BudgetTracks(Next(w, e).state, Next(w, e).observed, key)
        && Sorted(HistoryOf(Next(w, e).observed, key), now)
      {
        assert BudgetTracks(w.state, w.observed, key);
        NotedTracks(RestartDue(w.state, now), w.observed, w.queue, now, key);
      }
    case Spawn(key, _) =>
      assert forall p | p in w.state.pending :: p.key != key;
      assert forall k: Key :: BudgetTracks(w.state, w.observed, k);
    case _ =>
      assert forall k: Key :: BudgetTracks(w.state, w.observed, k);
  }

  /** Every legal run keeps running and waiting keys apart, waiting restarts in the future of the last
      tick, and each budget list equal to the recent observations. */
  lemma {:induction false} RunKeepsInvariant(w: World, events: seq<Event>)
    requires Invariant(w) && Legal(w, events)
    ensures Invariant(Run(w, events))
    decreases |events|
  {
    if events != [] {
      NextKeepsInvariant(w, events[0]);
      RunKeepsInvariant(Next(w, events[0]), events[1..]);
    }
  }

  /** Signals are from different running tasks, none of them alive. */
  ghost predicate Clean(w: World) {
    && Distinct(w.queue) && w.alive <= w.state.tasks.Keys
    && forall k | k in w.queue :: k in w.state.tasks && k !in w.alive
  }

  lemma {:induction false} RunStaysClean(w: World, events: seq<Event>)
    requires Legal(w, events) && Abort !in events && Clean(w)
    ensures Clean(Run(w, events))
    decreases |events|
  {
    if events != [] {
      assert events[0] in events;
      RunStaysClean(Next(w, events[0]), events[1..]);
    }
  }

  lemma InitialHolds(clock: int)
    ensures Invariant(Initial(clock)) && Clean(Initial(clock))
  {
  }

  /** Until a shutdown, whatever a tick reports poisoned is from then on neither running nor waiting. */
  lemma PoisonedStopsUntilShutdown(clock: int, events: seq<Event>, now: int, key: Key)
    requires Legal(Initial(clock), events) && Abort !in events
    requires var w := Run(Initial(clock), events); key in Poisoned(w.state, w.queue, now)
    ensures !Supervised(Next(Run(Initial(clock), events), Tick(now)).state, key)
  {
    var w := Run(Initial(clock), events);
    InitialHolds(clock);
    RunKeepsInvariant(Initial(clock), events);
    RunStaysClean(Initial(clock), events);
    PoisonedStops(w.state, w.queue, now, key);
  }

  ghost predicate Idle(s: State) {
    s.tasks == map[] && s.pending == []
  }

  lemma {:induction false} ObserveAllIdle(s: State, keys: seq<Key>, now: int)
    requires Idle(s)
    ensures Idle(ObserveAll(s, keys, now))
  {
    if keys != [] {
      ObserveAllIdle(s, keys[..|keys| - 1], now);
    }
  }

  lemma {:induction false} IdleUntilSpawn(w: World, events: seq<Event>)
    requires Idle(w.state) && forall e | e in events :: !e.Spawn?
    ensures Idle(Run(w, events).state)
    decreases |events|
  {
    if events != [] {
      assert events[0] in events;
      if events[0].Tick? {
        ObserveAllIdle(RestartDue(w.state, events[0].now), w.queue, events[0].now);
      }
      IdleUntilSpawn(Next(w, events[0]), events[1..]);
    }
  }

  /** After a shutdown nothing runs and nothing waits until something is spawned, whatever signals and ticks come. */
  lemma ShutdownIsFinal(w: World, events: seq<Event>, key: Key)
    requires forall e | e in events :: !e.Spawn?
    ensures !Supervised(Run(Next(w, Abort), events).state, key)
  {
    IdleUntilSpawn(Next(w, Abort), events);
  }

  lemma {:induction false} RunAppend(w: World, a: seq<Event>, b: seq<Event>)
    ensures Run(w, a + b) == Run(Run(w, a), b)
    ensures Legal(w, a + b) <==> Legal(w, a) && Legal(Run(w, a), b)
    decreases |a|
  {
    if a == [] {
      assert a + b == b;
    } else {
      assert (a + b)[1..] == a[1..] + b;
      RunAppend(Next(w, a[0]), a[1..], b);
    }
  }

  lemma OneEvent(w: World, e: Event)
    ensures Run(w, [e]) == Next(w, e) && (Legal(w, [e]) <==> Allowed(w, e))
  {
  }

  /** A task that panics before a shutdown leaves its signal behind. */
  lemma RoundLeavesSignal(w: World, key: Key, factory: Factory)
    requires w.state.tasks == map[] && w.state.pending == [] && w.alive == {}
    ensures var round := [Spawn(key, factory), Panic(key)] + [Abort];
      Legal(w, round) && Run(w, round) == w.(queue := w.queue + [key])
  {
    SpawnThenPanic(w, key, factory);
    var panicked := Run(w, [Spawn(key, factory), Panic(key)]);
    RunAppend(w, [Spawn(key, factory), Panic(key)], [Abort]);
    OneEvent(panicked, Abort);
    assert panicked.state.(tasks := map[]) == w.state;
  }

  lemma SpawnThenPanic(w: World, key: Key, factory: Factory)
    requires w.state.tasks == map[] && w.state.pending == [] && w.alive == {}
    ensures var events := [Spawn(key, factory)] + [Panic(key)];
      && events == [Spawn(key, factory), Panic(key)]
      && Legal(w, events)
      && Run(w, events) == w.(state := Spawned(w.state, key, factory), queue := w.queue + [key])
  {
    RunAppend(w, [Spawn(key, factory)], [Panic(key)]);
    OneEvent(w, Spawn(key, factory));
    var spawned := Next(w, Spawn(key, factory));
    OneEvent(spawned, Panic(key));
    assert spawned.alive - {key} == {};
  }

  lemma FirstSignal(s: State, key: Key, factory: Factory)
    requires s == State(map[key := factory], map[], [])
    ensures var t := Observe(s, key, 0); t.tasks == map[] && t.pending == [Pending(key, factory, 50)]
  {
    assert Charged(s, key, 0) == [0];
  }

  lemma IdleSignal(s: State, key: Key, now: int)
    requires s.tasks == map[]
    ensures Observe(s, key, now).tasks == map[] && Observe(s, key, now).pending == s.pending
  {
  }

  lemma ThreeObserved(s: State, key: Key, now: int)
    ensures ObserveAll(s, [key, key, key], now) == Observe(Observe(Observe(s, key, now), key, now), key, now)
  {
    assert [key, key, key][..2] == [key, key] && [key, key][..1] == [key];
    assert ObserveAll(s, [key], now) == Observe(s, key, now);
    assert ObserveAll(s, [key, key], now) == Observe(Observe(s, key, now), key, now);
  }

  /** Three signals in one tick: the first schedules a restart, the third poisons the key. */
  lemma ThreeSignals(s: State, key: Key, factory: Factory)
    requires s == State(map[key := factory], map[], [])
    ensures var t := ObserveAll(s, [key, key, key], 0);
      t.tasks == map[] && t.pending == [Pending(key, factory, 50)] && |BudgetOf(t, key)| == 3
  {
    FirstSignal(s, key, factory);
    IdleSignal(Observe(s, key, 0), key, 0);
    IdleSignal(Observe(Observe(s, key, 0), key, 0), key, 0);
    ThreeObserved(s, key, 0);
    ObserveKey(s, [key, key, key], 0, key);
  }

  /** A signal left over from before a shutdown counts against the key's next task: with two of them
      one tick both schedules a restart and reports the key poisoned, and the next one restarts it. */
  lemma PoisonedCanRestart(key: Key, factory: Factory)
    ensures var round := [Spawn(key, factory), Panic(key)] + [Abort];
      var events := round + (round + [Spawn(key, factory), Panic(key)]);
      var w := Run(Initial(0), events);
      && Legal(Initial(0), events)
      && key in Poisoned(w.state, w.queue, 0)
      && key in Ticked(Ticked(w.state, w.queue, 0), [], 50).tasks
  {
    var round, last := [Spawn(key, factory), Panic(key)] + [Abort], [Spawn(key, factory), Panic(key)];
    var w0 := Initial(0);
    RunAppend(w0, round, round + last);
    RoundLeavesSignal(w0, key, factory);
    var w1 := Run(w0, round);
    RunAppend(w1, round, last);
    RoundLeavesSignal(w1, key, factory);
    var w2 := Run(w1, round);
    SpawnThenPanic(w2, key, factory);
    var w := Run(w2, last);
    assert w.queue == [key, key, key] && RestartDue(w.state, 0) == w.state;
    ThreeSignals(w.state, key, factory);
    PoisonedIff(w.state, w.queue, 0, key);
    RestartedKeys(map[], [Pending(key, factory, 50)], 50);
    assert [Pending(key, factory, 50)][0] in [Pending(key, factory, 50)];
  }
}
