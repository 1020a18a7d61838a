/** The reconcile-task watchdog: running tasks, restarts waiting for their backoff, and a crash budget
    per key. Times are milliseconds; panic signals arrive through a queue. */
module Watchdog {
  const BUDGET_WINDOW := 60_000
  const BUDGET := 3
  const BACKOFF := 50

  datatype Key = Key(ns: string, name: string, generation: int)
  /** Stands for the closure that makes a task. */
  type Factory = nat
  datatype Pending = Pending(key: Key, factory: Factory, due: int)

  datatype State = State(tasks: map<Key, Factory>, budget: map<Key, seq<int>>, pending: seq<Pending>)

  // ---- One panic ----

  /** The entries less than a minute old; a later entry counts as fresh. */
  function Recent(times: seq<int>, now: int): seq<int> {
    if times == [] then []
    else
      var init, last := times[..|times| - 1], times[|times| - 1];
      if now - last < BUDGET_WINDOW then Recent(init, now) + [last] else Recent(init, now)
  }

  function BudgetOf(s: State, key: Key): seq<int> {
    if key in s.budget then s.budget[key] else []
  }

  /** The budget list of `key` once a panic is observed at `now`. */
  function Charged(s: State, key: Key, now: int): seq<int> {
    Recent(BudgetOf(s, key), now) + [now]
  }

  function Backoff(entries: nat): nat
    requires 0 < entries < BUDGET
  {
    if entries == 1 then BACKOFF else BACKOFF * 2
  }

  function Observe(s: State, key: Key, now: int): State {
    var entries := Charged(s, key, now);
    var waiting :=
      if |entries| < BUDGET && key in s.tasks then [Pending(key, s.tasks[key], now + Backoff(|entries|))] else [];
    s.(budget := s.budget[key := entries], tasks := s.tasks - {key}, pending := s.pending + waiting)
  }

  function Outcome(s: State, key: Key, now: int): seq<Key> {
    if |Charged(s, key, now)| >= BUDGET then [key] else []
  }

  // ---- A tick ----

  /** Restarts still waiting at `now`. */
  function Waiting(pending: seq<Pending>, now: int): seq<Pending> {
    if pending == [] then []
    else (if pending[0].due <= now then [] else [pending[0]]) + Waiting(pending[1..], now)
  }

  /** Running tasks once every restart that is due has been made. */
  function Restarted(tasks: map<Key, Factory>, pending: seq<Pending>, now: int): map<Key, Factory>
    decreases |pending|
  {
    if pending == [] then tasks
    else Restarted(if pending[0].due <= now then tasks[pending[0].key := pending[0].factory] else tasks, pending[1..], now)
  }

  function RestartDue(s: State, now: int): State {
    s.(tasks := Restarted(s.tasks, s.pending, now), pending := Waiting(s.pending, now))
  }

  function ObserveAll(s: State, keys: seq<Key>, now: int): State {
    if keys == [] then s else Observe(ObserveAll(s, keys[..|keys| - 1], now), keys[|keys| - 1], now)
  }

  function Outcomes(s: State, keys: seq<Key>, now: int): seq<Key> {
    if keys == [] then []
    else
      var init := keys[..|keys| - 1];
      Outcomes(s, init, now) + Outcome(ObserveAll(s, init, now), keys[|keys| - 1], now)
  }

  function Ticked(s: State, queue: seq<Key>, now: int): State {
    ObserveAll(RestartDue(s, now), queue, now)
  }

  function Poisoned(s: State, queue: seq<Key>, now: int): seq<Key> {
    Outcomes(RestartDue(s, now), queue, now)
  }

  lemma ObserveStep(s: State, keys: seq<Key>, k: nat, now: int)
    requires k < |keys|
    ensures ObserveAll(s, keys[..k + 1], now) == Observe(ObserveAll(s, keys[..k], now), keys[k], now)
    ensures Outcomes(s, keys[..k + 1], now)
      == Outcomes(s, keys[..k], now) + Outcome(ObserveAll(s, keys[..k], now), keys[k], now)
  {
    assert keys[..k + 1][..k] == keys[..k];
  }

  // ---- The watchdog ----

  class Watchdog {
    var tasks: map<Key, Factory>
    var budget: map<Key, seq<int>>
    var pending: seq<Pending>
    var queue: seq<Key>

    function Abstract(): State
      reads this`tasks, this`budget, this`pending
    {
      State(tasks, budget, pending)
    }

    constructor ()
      ensures Abstract() == State(map[], map[], []) && queue == []
    {
      tasks, budget, pending, queue := map[], map[], [], [];
    }

    method Spawn(key: Key, factory: Factory)
      modifies this`tasks
      ensures Abstract() == Spawned(old(Abstract()), key, factory)
    {
      tasks := tasks[key := factory];
    }

    /** Restarts what is due, then accounts for every panic signal. */
    method Tick(now: int) returns (poisoned: seq<Key>)
      modifies this
      ensures Abstract() == Ticked(old(Abstract()), old(queue), now) && queue == []
      ensures poisoned == Poisoned(old(Abstract()), old(queue), now)
    {
      MakeRestarts(now);
      poisoned := DrainPanics(now);
    }

    method MakeRestarts(now: int)
      modifies this`tasks, this`pending
      ensures Abstract() == RestartDue(old(Abstract()), now)
    {
      var i := 0;
      while i < |pending|
        invariant 0 <= i <= |pending|
        invariant Waiting(old(pending), now) == pending[..i] + Waiting(pending[i..], now)
        invariant Restarted(old(tasks), old(pending), now) == Restarted(tasks, pending[i..], now)
        decreases |pending| - i
      {
        ghost var rest := pending[i..];
        if pending[i].due <= now {
          var p := pending[i];
          pending := pending[..i] + pending[i + 1..];
          assert pending[..i] == old(pending)[..0] + pending[..i] && pending[i..] == rest[1..];
          tasks := tasks[p.key := p.factory];
        } else {
          assert pending[..i + 1] == pending[..i] + [pending[i]] && pending[i + 1..] == rest[1..];
          i := i + 1;
        }
      }
      assert pending[..i] == pending;
    }

    method DrainPanics(now: int) returns (poisoned: seq<Key>)
      modifies this
      ensures Abstract() == ObserveAll(old(Abstract()), old(queue), now) && queue == []
      ensures poisoned == Outcomes(old(Abstract()), old(queue), now)
    {
      ghost var start, keys := Abstract(), queue;
      ghost var k := 0;
      poisoned := [];
      while queue != []
        invariant 0 <= k <= |keys| && queue == keys[k..]
        invariant Abstract() == ObserveAll(start, keys[..k], now)
        invariant poisoned == Outcomes(start, keys[..k], now)
        decreases |queue|
      {
        var key := queue[0];
        queue := queue[1..];
        ObserveStep(start, keys, k, now);
        poisoned := ObservePanic(key, now, poisoned);
        k := k + 1;
      }
      assert keys[..k] == keys;
    }

    method ObservePanic(key: Key, now: int, soFar: seq<Key>) returns (poisoned: seq<Key>)
      modifies this`tasks, this`budget, this`pending
      ensures Abstract() == Observe(old(Abstract()), key, now)
      ensures poisoned == soFar + Outcome(old(Abstract()), key, now)
    {
      poisoned := soFar;
      var entries := Recent(if key in budget then budget[key] else [], now) + [now];
      budget := budget[key := entries];
      if |entries| >= BUDGET {
        poisoned := poisoned + [key];
        tasks := tasks - {key};
      } else if key in tasks {
        pending := pending + [Pending(key, tasks[key], now + Backoff(|entries|))];
        tasks := tasks - {key};
      }
    }

    method AbortAll()
      modifies this`tasks, this`pending
      ensures Abstract() == Aborted(old(Abstract()))
    {
      tasks, pending := map[], [];
    }
  }

  function Spawned(s: State, key: Key, factory: Factory): State {
    s.(tasks := s.tasks[key := factory])
  }

  function Aborted(s: State): State {
    s.(tasks := map[], pending := [])
  }
}
