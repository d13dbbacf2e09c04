/** The zero-downtime ("graceful") restart program: a list of workers kept at
    `numCPUs` by replacing unexpected exits, and a restart that forks a whole
    new set and disconnects the old set once the new one is listening. */
module RollingRestart {
  import opened Base
  import opened Cluster

  /** What one `gracefulRestart()` call leaves in the 'listening' listeners it
      attaches: the snapshot of the old list and the shared `readyCount`.
      `expected` is the size of the new set when it was created; only the
      corrected listener reads it. */
  datatype Round = Round(oldWorkers: seq<nat>, readyCount: nat, expected: nat)

  /** How many of a round's successive counted 'listening' events disconnect
      the old set, when the k-th of them sees `workers.length == lens[k]` and
      the round's count was `ready` before the first. */
  function Firings(ready: nat, lens: seq<nat>): (n: nat)
    ensures n <= |lens|
    ensures (forall k :: 0 <= k < |lens| ==> lens[k] != ready + k + 1) ==> n == 0
    decreases |lens|
  {
    if lens == [] then 0
    else
      assert forall k :: 0 <= k < |lens| - 1 ==> lens[1..][k] == lens[k + 1];
      (if ready + 1 == lens[0] then 1 else 0) + Firings(ready + 1, lens[1..])
  }

  /** While `workers.length` does not grow, the old set is disconnected at most
      once: the count rises by one per event, the length never rises. */
  lemma {:induction false} FiresAtMostOnce(ready: nat, lens: seq<nat>)
    requires forall i, j :: 0 <= i < j < |lens| ==> lens[j] <= lens[i]
    ensures Firings(ready, lens) <= 1
    ensures lens != [] && ready + 1 >= lens[0] ==> Firings(ready, lens) == (if ready + 1 == lens[0] then 1 else 0)
    decreases |lens|
  {
    if lens != [] {
      FiresAtMostOnce(ready + 1, lens[1..]);
      if ready + 1 >= lens[0] {
        NoLaterFiring(ready + 1, lens[1..], lens[0]);
      } else if |lens| > 1 {
        assert lens[1..][0] == lens[1];
      }
    }
  }

  /** Once the count has passed a bound on every later length, nothing fires:
      a corollary of the second postcondition of `Firings`, since every later
      length is at most `bound`, which is below each later count. */
  lemma {:induction false} NoLaterFiring(ready: nat, lens: seq<nat>, bound: nat)
    requires ready >= bound
    requires forall k :: 0 <= k < |lens| ==> lens[k] <= bound
    ensures Firings(ready, lens) == 0
  {
  }

  /** Against a fixed target, the old set is disconnected exactly once, by the
      event that brings the count to the target, if that event comes. */
  lemma {:induction false} FixedTargetFiresOnce(ready: nat, target: nat, events: nat)
    ensures Firings(ready, seq(events, _ => target)) == if ready < target <= ready + events then 1 else 0
    decreases events
  {
    var lens := seq(events, _ => target);
    if events > 0 {
      assert lens[1..] == seq(events - 1, _ => target);
      FixedTargetFiresOnce(ready + 1, target, events - 1);
    }
  }

  /** `workers.forEach(w => w.on('listening', …))` for round `k`: every id in
      `ids` now carries that round's listener; other entries are kept. */
  method Attach(table: map<nat, nat>, ids: seq<nat>, k: nat) returns (t: map<nat, nat>)
    ensures t.Keys == table.Keys + set id | id in ids
    ensures forall id :: id in t ==> t[id] == if id in ids then k else table[id]
  {
    t := table;
    for j := 0 to |ids|
      invariant t.Keys == table.Keys + set id | id in ids[..j]
      invariant forall id :: id in t ==> t[id] == if id in ids[..j] then k else table[id]
    {
      assert forall id :: id in ids[..j + 1] <==> id in ids[..j] || id == ids[j];
      t := t[ids[j] := k];
    }
    assert ids[..|ids|] == ids;
  }

  /** `oldWorkers.forEach(w => w.disconnect())`: one disconnect request per
      worker of the snapshot, in its order. */
  method DisconnectEach(host: Host, ids: seq<nat>)
    modifies host`log
    ensures host.log == old(host.log) + Disconnects(ids)
  {
    for j := 0 to |ids|
      invariant host.log == old(host.log) + Disconnects(ids[..j])
    {
      assert Disconnects(ids[..j + 1]) == Disconnects(ids[..j]) + [Disconnect(ids[j])];
      host.Record(Disconnect(ids[j]));
    }
    assert ids[..|ids|] == ids;
  }

  class Pool {
    const host: Host
    const numCPUs: nat
    /** `workers`. */
    var workers: seq<nat>
    /** One entry per `gracefulRestart()` call so far. */
    var rounds: seq<Round>
    /** Worker id to the round whose 'listening' listener it carries. */
    var listeners: map<nat, nat>

    ghost predicate Valid()
      reads this, host
    {
      && host.Valid()
      && Increasing(workers)
      && (forall id :: id in workers ==> 1 <= id < host.nextId)
      && (forall id :: id in listeners ==> listeners[id] < |rounds|)
    }

    /** Start-up: `createWorkers()` forks workers 1 … numCPUs. */
    constructor (numCPUs: nat)
      ensures Valid() && fresh(host) && this.numCPUs == numCPUs
      ensures workers == Iota(1, numCPUs) && rounds == [] && listeners == map[]
      ensures host.nextId == numCPUs + 1 && host.workers == workers
      ensures host.log == Forks(workers)
    {
      this.numCPUs := numCPUs;
      host := new Host();
      workers := [];
      rounds := [];
      listeners := map[];
      new;
      assert Valid();
      CreateWorkers();
      assert [] + Iota(1, numCPUs) == Iota(1, numCPUs);
    }

    /** `createWorker()`: fork and push. */
    method CreateWorker() returns (id: nat)
      requires Valid()
      modifies this`workers, host
      ensures Valid()
      ensures id == old(host.nextId) && host.nextId == id + 1
      ensures workers == old(workers) + [id]
      ensures host.workers == old(host.workers) + [id]
      ensures host.log == old(host.log) + [Fork(id)]
    {
      id := host.Fork();
      SnocIncreasing(workers, id);
      workers := workers + [id];
    }

    /** `createWorkers()`: `numCPUs` consecutive forks. */
    method CreateWorkers()
      requires Valid()
      modifies this`workers, host
      ensures Valid()
      ensures workers == old(workers) + Iota(old(host.nextId), numCPUs)
      ensures host.nextId == old(host.nextId) + numCPUs
      ensures host.workers == old(host.workers) + Iota(old(host.nextId), numCPUs)
      ensures host.log == old(host.log) + Forks(Iota(old(host.nextId), numCPUs))
    {
      ghost var first := host.nextId;
      for i := 0 to numCPUs
        invariant Valid()
        invariant host.nextId == first + i
        invariant workers == old(workers) + Iota(first, i)
        invariant host.workers == old(host.workers) + Iota(first, i)
        invariant host.log == old(host.log) + Forks(Iota(first, i))
      {
        var id := CreateWorker();
        ForkOneMore(first, i);
      }
    }

    /** The 'exit' listener `createWorker` attaches, after Node has removed the
        worker from `cluster.workers`. */
    method OnExit(id: nat, exitedAfterDisconnect: bool) returns (replacement: Option<nat>)
      requires Valid()
      requires 1 <= id < host.nextId
      modifies this`workers, host
      ensures Valid()
      ensures replacement.Some? <==> !exitedAfterDisconnect
      ensures replacement.Some? ==> replacement.value == old(host.nextId)
      ensures host.nextId == old(host.nextId) + (if exitedAfterDisconnect then 0 else 1)
      ensures workers == if exitedAfterDisconnect then old(workers)
                         else Without(old(workers), id) + [replacement.value]
      ensures |workers| == if exitedAfterDisconnect || id in old(workers) then |old(workers)| else |old(workers)| + 1
      ensures host.workers == Without(old(host.workers), id) + (if exitedAfterDisconnect then [] else [replacement.value])
      ensures host.log == old(host.log) + (if exitedAfterDisconnect then [] else [Fork(replacement.value)])
    {
      host.Exited(id);
      replacement := None;
      if !exitedAfterDisconnect {
        WithoutIncreasing(workers, id);
        WithoutLength(workers, id);
        workers := Without(workers, id);
        var newId := CreateWorker();
        replacement := Some(newId);
      }
    }

    /** `gracefulRestart()`: snapshot the list, fork a new set, and attach the
        counting 'listening' listener to each new worker. */
    method GracefulRestart()
      requires Valid()
      modifies this, host
      ensures Valid()
      ensures workers == Iota(old(host.nextId), numCPUs)
      ensures rounds == old(rounds) + [Round(old(workers), 0, numCPUs)]
      ensures listeners.Keys == old(listeners).Keys + set id | id in workers
      ensures forall id :: id in listeners ==>
        listeners[id] == if id in workers then |old(rounds)| else old(listeners)[id]
      ensures host.nextId == old(host.nextId) + numCPUs
      ensures host.workers == old(host.workers) + workers
      ensures host.log == old(host.log) + Forks(workers)
    {
      var oldWorkers := workers;
      workers := [];
      CreateWorkers();
      var k := |rounds|;
      rounds := rounds + [Round(oldWorkers, 0, |workers|)];
      listeners := Attach(listeners, workers, k);
    }

    /** The 'listening' listener, as written: count the event and, when the
        count equals the current `workers.length`, disconnect the old set. */
    method OnListening(id: nat)
      requires Valid()
      modifies this`rounds, host`log
      ensures Valid()
      ensures id !in listeners ==> rounds == old(rounds) && host.log == old(host.log)
      ensures id in listeners ==>
        var k := listeners[id];
        var r := old(rounds)[k];
        && rounds == old(rounds)[k := r.(readyCount := r.readyCount + 1)]
        && host.log == old(host.log) + (if r.readyCount + 1 == |workers| then Disconnects(r.oldWorkers) else [])
    {
      if id in listeners {
        var k := listeners[id];
        var r := rounds[k];
        var readyCount := r.readyCount + 1;
        rounds := rounds[k := r.(readyCount := readyCount)];
        if readyCount == |workers| {
          DisconnectEach(host, r.oldWorkers);
        }
      }
    }

    /** The corrected listener: compare the count with the size of the set this
        round created, not with the current length of `workers`. */
    method OnListeningFixed(id: nat)
      requires Valid()
      modifies this`rounds, host`log
      ensures Valid()
      ensures id !in listeners ==> rounds == old(rounds) && host.log == old(host.log)
      ensures id in listeners ==>
        var k := listeners[id];
        var r := old(rounds)[k];
        && rounds == old(rounds)[k := r.(readyCount := r.readyCount + 1)]
        && host.log == old(host.log) + (if r.readyCount + 1 == r.expected then Disconnects(r.oldWorkers) else [])
    {
      if id in listeners {
        var k := listeners[id];
        var r := rounds[k];
        var readyCount := r.readyCount + 1;
        rounds := rounds[k := r.(readyCount := readyCount)];
        if readyCount == r.expected {
          DisconnectEach(host, r.oldWorkers);
        }
      }
    }

    /** Round `k`'s new workers `ids` report 'listening' one after another,
        with no exit in between, so `workers.length` stays put: the old set is
        disconnected `Firings` times, which is at most once, and exactly when
        the count passes `workers.length` during these events. */
    method ListenRound(k: nat, ids: seq<nat>)
      requires Valid()
      requires k < |rounds|
      requires forall j :: 0 <= j < |ids| ==> ids[j] in listeners && listeners[ids[j]] == k
      modifies this`rounds, host`log
      ensures Valid()
      ensures rounds == old(rounds)[k := old(rounds)[k].(readyCount := old(rounds)[k].readyCount + |ids|)]
      ensures var r, w := old(rounds)[k], |workers|;
        var fired := Firings(r.readyCount, seq(|ids|, _ => w));
        && fired <= 1
        && (fired == 1 <==> r.readyCount < w <= r.readyCount + |ids|)
        && host.log == old(host.log) + if fired == 1 then Disconnects(r.oldWorkers) else []
    {
      ghost var r0 := rounds[k];
      for j := 0 to |ids|
        invariant Valid()
        invariant rounds == old(rounds)[k := r0.(readyCount := r0.readyCount + j)]
        invariant host.log == old(host.log) +
          if r0.readyCount < |workers| <= r0.readyCount + j then Disconnects(r0.oldWorkers) else []
      {
        OnListening(ids[j]);
      }
      FixedTargetFiresOnce(r0.readyCount, |workers|, |ids|);
    }

    /** The same events with the corrected listener: the target is the size
        of the set the round created, whatever happens to `workers`. */
    method ListenRoundFixed(k: nat, ids: seq<nat>)
      requires Valid()
      requires k < |rounds|
      requires forall j :: 0 <= j < |ids| ==> ids[j] in listeners && listeners[ids[j]] == k
      modifies this`rounds, host`log
      ensures Valid()
      ensures rounds == old(rounds)[k := old(rounds)[k].(readyCount := old(rounds)[k].readyCount + |ids|)]
      ensures var r := old(rounds)[k];
        var fired := Firings(r.readyCount, seq(|ids|, _ => r.expected));
        && fired <= 1
        && (fired == 1 <==> r.readyCount < r.expected <= r.readyCount + |ids|)
        && host.log == old(host.log) + if fired == 1 then Disconnects(r.oldWorkers) else []
    {
      ghost var r0 := rounds[k];
      for j := 0 to |ids|
        invariant Valid()
        invariant rounds == old(rounds)[k := r0.(readyCount := r0.readyCount + j)]
        invariant host.log == old(host.log) +
          if r0.readyCount < r0.expected <= r0.readyCount + j then Disconnects(r0.oldWorkers) else []
      {
        OnListeningFixed(ids[j]);
      }
      FixedTargetFiresOnce(r0.readyCount, r0.expected, |ids|);
    }
  }

  /** Start-up, a restart, and every new worker listening with no exit in
      between: the old workers 1 … numCPUs are disconnected exactly once
      (never when there are no CPUs, since then no event comes). */
  method RestartThenAllListen(numCPUs: nat) returns (log: seq<Effect>)
    ensures log == Forks(Iota(1, numCPUs)) + Forks(Iota(numCPUs + 1, numCPUs)) +
      if numCPUs > 0 then Disconnects(Iota(1, numCPUs)) else []
  {
    var pool := new Pool(numCPUs);
    pool.GracefulRestart();
    pool.ListenRound(0, pool.workers);
    log := pool.host.log;
  }

  /** Two workers, then a restart: workers 3 and 4 replace 1 and 2. */
  method PoolOfTwoRestarted() returns (pool: Pool)
    ensures fresh(pool) && fresh(pool.host) && pool.Valid()
    ensures pool.host.nextId == 5
    ensures pool.workers == [3, 4]
    ensures pool.rounds == [Round([1, 2], 0, 2)]
    ensures 3 in pool.listeners && pool.listeners[3] == 0
    ensures 4 in pool.listeners && pool.listeners[4] == 0
    ensures pool.host.log == Forks([1, 2]) + Forks([3, 4])
  {
    pool := new Pool(2);
    assert pool.workers == [1, 2];
    pool.GracefulRestart();
    assert pool.workers == [3, 4];
    assert 3 in pool.workers && 4 in pool.workers;
  }

  /** The restart above, then old worker 1 crashing before either new worker
      listens: its replacement, worker 5, joins `workers`. */
  method RestartThenOldWorkerCrashes() returns (pool: Pool)
    ensures fresh(pool) && fresh(pool.host) && pool.Valid()
    ensures pool.workers == [3, 4, 5] && pool.host.nextId == 6
    ensures pool.rounds == [Round([1, 2], 0, 2)]
    ensures 3 in pool.listeners && pool.listeners[3] == 0
    ensures 4 in pool.listeners && pool.listeners[4] == 0
    ensures pool.host.log == Forks([1, 2]) + Forks([3, 4]) + [Fork(5)]
  {
    pool := PoolOfTwoRestarted();
    var replacement := pool.OnExit(1, false);
  }

  /** As written: the two new workers bring the count to 2 while
      `workers.length` is 3, so old worker 2 is never disconnected. */
  method OldWorkerCrashDuringRestart() returns (log: seq<Effect>)
    ensures Fork(5) in log
    ensures Disconnect(2) !in log
  {
    var pool := RestartThenOldWorkerCrashes();
    ghost var forked := pool.host.log;
    pool.OnListening(3);
    assert pool.rounds == [Round([1, 2], 1, 2)];
    pool.OnListening(4);
    log := pool.host.log;
    assert log == forked;
    assert forall e :: e in log ==> e.Fork?;
  }

  /** Corrected: the same events disconnect both old workers once both new
      workers are listening. */
  method OldWorkerCrashDuringRestartFixed() returns (log: seq<Effect>)
    ensures Fork(5) in log
    ensures Disconnect(2) in log
  {
    var pool := RestartThenOldWorkerCrashes();
    ghost var forked := pool.host.log;
    pool.OnListeningFixed(3);
    assert pool.rounds == [Round([1, 2], 1, 2)];
    pool.OnListeningFixed(4);
    log := pool.host.log;
    assert log == forked + Disconnects([1, 2]);
    assert log[|forked| + 1] == Disconnect(2);
  }
}
