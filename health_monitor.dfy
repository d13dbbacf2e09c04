/** The heartbeat-based health monitor: a table from worker id to its health
    record, updated by the 'message' and 'exit' listeners that `createWorker`
    attaches, and audited by a periodic sweep. Time is the `now` parameter of
    each handler (what `Date.now()` returns when the callback runs). */
module HealthMonitor {
  import opened Base
  import opened Cluster

  /** A worker silent for longer than this (ms) is killed by the sweep. */
  const HealthTimeout: int := 30000
  /** A slot stops being restarted once its count reaches this. */
  const MaxRestarts: nat := 5
  /** Linear backoff: the n-th restart waits n times this (ms). */
  const BackoffStep: nat := 1000
  /** The message type that counts as a heartbeat. */
  const HeartbeatType: string := "heartbeat"

  datatype Health = Health(lastHeartbeat: int, isHealthy: bool, restartCount: nat)

  /** An IPC message from a worker; only its `type` field matters here. */
  datatype Message = Message(kind: string)

  /** What the exit listener decides. */
  datatype ExitOutcome =
    | Forget                            // intentional exit, or no record: nothing but the deletion
    | Restart(count: nat, delay: nat)   // a replacement is scheduled after `delay` ms
    | GiveUp(count: nat)                // the restart budget is used up: only reported

  /** The restart decision for a worker leaving with record `h`. */
  function ExitDecision(h: Option<Health>, exitedAfterDisconnect: bool): (o: ExitOutcome)
    ensures o.Forget? <==> h.None? || exitedAfterDisconnect
    ensures !o.Forget? ==> o.count == h.value.restartCount + 1
    ensures o.Restart? <==> !o.Forget? && o.count < MaxRestarts
    ensures o.Restart? ==> o.delay == BackoffStep * o.count
  {
    if h.None? || exitedAfterDisconnect then Forget
    else
      var count := h.value.restartCount + 1;
      if count < MaxRestarts then Restart(count, BackoffStep * count) else GiveUp(count)
  }

  /** What the exit listener logs and schedules. */
  function ExitLog(id: nat, o: ExitOutcome): (r: seq<Effect>)
    ensures r == [] <==> o.Forget?
    ensures |r| == 2 <==> o.Restart?
    ensures forall e :: e in r ==> !e.Fork? && !e.Kill?
  {
    match o
    case Forget => []
    case Restart(count, delay) => [Restarting(id, count), RestartTimer(delay, count)]
    case GiveUp(_) => [GaveUp(id)]
  }

  predicate Stale(h: Health, now: int) {
    now - h.lastHeartbeat > HealthTimeout
  }

  /** What the sweep does for worker `id` with record `h`, given the live workers `live`. */
  function SweepStep(id: nat, h: Health, live: seq<nat>, now: int): (r: seq<Effect>)
    ensures r == [] <==> !Stale(h, now)
    ensures Kill(id, SIGTERM) in r <==> Stale(h, now) && id in live
    ensures forall e :: e in r ==> e == HeartbeatTimeout(id) || e == Kill(id, SIGTERM)
  {
    if Stale(h, now) then
      [HeartbeatTimeout(id)] + (if id in live then [Kill(id, SIGTERM)] else [])
    else []
  }

  /** What the sweep does visiting `ids` in order. */
  function SweepLog(ids: seq<nat>, health: map<nat, Health>, live: seq<nat>, now: int): (r: seq<Effect>)
    ensures |r| <= 2 * |ids|
    ensures forall e :: e in r ==> e.HeartbeatTimeout? || (e.Kill? && e.signal == SIGTERM)
  {
    if ids == [] then []
    else
      var id := ids[|ids| - 1];
      SweepLog(ids[..|ids| - 1], health, live, now) + (if id in health then SweepStep(id, health[id], live, now) else [])
  }

  /** The record after the sweep: only a stale, live worker is marked unhealthy. */
  function SweptRecord(id: nat, h: Health, live: seq<nat>, now: int): (r: Health)
    ensures r.lastHeartbeat == h.lastHeartbeat && r.restartCount == h.restartCount
    ensures r.isHealthy <==> h.isHealthy && !(Stale(h, now) && id in live)
  {
    if Stale(h, now) && id in live then h.(isHealthy := false) else h
  }

  /** The table after the sweep. */
  function Swept(health: map<nat, Health>, live: seq<nat>, now: int): (r: map<nat, Health>)
    ensures r.Keys == health.Keys
    ensures forall id :: id in health ==>
      && r[id].lastHeartbeat == health[id].lastHeartbeat
      && r[id].restartCount == health[id].restartCount
      && (r[id].isHealthy <==> health[id].isHealthy && !(Stale(health[id], now) && id in live))
  {
    map id | id in health :: SweptRecord(id, health[id], live, now)
  }

  /** The sweep kills exactly the stale workers still in `cluster.workers`, with the default signal. */
  lemma {:induction false} SweepKillsExactlyStale(ids: seq<nat>, health: map<nat, Health>, live: seq<nat>, now: int)
    ensures forall id, s :: Kill(id, s) in SweepLog(ids, health, live, now) <==>
      id in ids && id in health && Stale(health[id], now) && id in live && s == SIGTERM
  {
    if ids != [] {
      var init, last := ids[..|ids| - 1], ids[|ids| - 1];
      SweepKillsExactlyStale(init, health, live, now);
      assert ids == init + [last];
      forall id, s ensures Kill(id, s) in SweepLog(ids, health, live, now) <==>
        id in ids && id in health && Stale(health[id], now) && id in live && s == SIGTERM
      {
        assert id in ids <==> id in init || id == last;
        assert last in health ==> (Kill(id, s) in SweepStep(last, health[last], live, now) <==>
          id == last && Stale(health[id], now) && id in live && s == SIGTERM);
      }
    }
  }

  /** The sweep reports a timeout for exactly the stale workers, live or not. */
  lemma {:induction false} SweepReportsExactlyStale(ids: seq<nat>, health: map<nat, Health>, live: seq<nat>, now: int)
    ensures forall id :: HeartbeatTimeout(id) in SweepLog(ids, health, live, now) <==>
      id in ids && id in health && Stale(health[id], now)
  {
    if ids != [] {
      var init, last := ids[..|ids| - 1], ids[|ids| - 1];
      SweepReportsExactlyStale(init, health, live, now);
      assert ids == init + [last];
      forall id ensures HeartbeatTimeout(id) in SweepLog(ids, health, live, now) <==>
        id in ids && id in health && Stale(health[id], now)
      {
        assert id in ids <==> id in init || id == last;
      }
    }
  }

  /** The table once the sweep has visited `ids`, in order. */
  function SweptUpTo(health: map<nat, Health>, ids: seq<nat>, live: seq<nat>, now: int): map<nat, Health> {
    if ids == [] then health
    else
      var t, id := SweptUpTo(health, ids[..|ids| - 1], live, now), ids[|ids| - 1];
      if id in t then t[id := SweptRecord(id, t[id], live, now)] else t
  }

  /** Visiting an ascending list of keys sweeps each visited record once and leaves the rest. */
  lemma {:induction false} SweptUpToLookup(health: map<nat, Health>, ids: seq<nat>, live: seq<nat>, now: int, x: nat)
    requires Increasing(ids)
    ensures SweptUpTo(health, ids, live, now).Keys == health.Keys
    ensures x in health ==>
      SweptUpTo(health, ids, live, now)[x] == if x in ids then SweptRecord(x, health[x], live, now) else health[x]
  {
    if ids != [] {
      var init, id := ids[..|ids| - 1], ids[|ids| - 1];
      assert Increasing(init);
      SweptUpToLookup(health, init, live, now, x);
      SweptUpToLookup(health, init, live, now, id);
      assert id !in init by {
        forall k | 0 <= k < |init| ensures init[k] != id {
          assert ids[k] < ids[|ids| - 1];
        }
      }
      assert ids == init + [id];
      assert x in ids <==> x in init || x == id;
    }
  }

  /** Visiting one more key of an ascending key list. */
  lemma SweepOneMore(ids: seq<nat>, i: nat, health: map<nat, Health>, live: seq<nat>, now: int)
    requires Increasing(ids) && i < |ids|
    requires forall id :: id in ids ==> id in health
    ensures ids[i] in health && ids[i] in SweptUpTo(health, ids[..i], live, now)
    ensures SweptUpTo(health, ids[..i], live, now)[ids[i]] == health[ids[i]]
    ensures SweptUpTo(health, ids[..i + 1], live, now)
         == SweptUpTo(health, ids[..i], live, now)[ids[i] := SweptRecord(ids[i], health[ids[i]], live, now)]
    ensures SweepLog(ids[..i + 1], health, live, now)
         == SweepLog(ids[..i], health, live, now) + SweepStep(ids[i], health[ids[i]], live, now)
  {
    var id := ids[i];
    assert ids[..i + 1][..i] == ids[..i];
    assert Increasing(ids[..i]);
    assert id !in ids[..i] by {
      forall k | 0 <= k < i ensures ids[k] != id {
        assert ids[k] < ids[i];
      }
    }
    SweptUpToLookup(health, ids[..i], live, now, id);
  }

  lemma SweptUpToAll(health: map<nat, Health>, ids: seq<nat>, live: seq<nat>, now: int)
    requires Increasing(ids)
    requires forall id :: id in health ==> id in ids
    ensures SweptUpTo(health, ids, live, now) == Swept(health, live, now)
  {
    SweptUpToLookup(health, ids, live, now, 0);
    forall x | x in health ensures SweptUpTo(health, ids, live, now)[x] == Swept(health, live, now)[x] {
      SweptUpToLookup(health, ids, live, now, x);
    }
  }

  class Monitor {
    const host: Host
    /** `workerHealth`. */
    var health: map<nat, Health>
    /** The keys of `health` in insertion order, the order `for … of` visits them. */
    var order: seq<nat>

    ghost predicate Valid()
      reads this, host
    {
      && host.Valid()
      && Increasing(order)
      && (forall id :: id in health <==> id in order)
      && (forall id :: id in order ==> 1 <= id < host.nextId)
      && (forall id :: id in health ==> health[id].restartCount < MaxRestarts)
    }

    /** Start-up at time `now`: `createWorker()` once per CPU. */
    constructor (numCPUs: nat, now: int)
      ensures Valid() && fresh(host)
      ensures order == Iota(1, numCPUs) && host.workers == order
      ensures forall id :: id in health <==> 1 <= id <= numCPUs
      ensures forall id :: id in health ==> health[id] == Health(now, true, 0)
      ensures host.nextId == numCPUs + 1 && host.log == Forks(order)
    {
      host := new Host();
      health := map[];
      order := [];
      new;
      assert Valid();
      for i := 0 to numCPUs
        invariant Valid()
        invariant host.nextId == i + 1
        invariant order == Iota(1, i) && host.workers == order
        invariant forall id :: id in health <==> 1 <= id <= i
        invariant forall id :: id in health ==> health[id] == Health(now, true, 0)
        invariant host.log == Forks(order)
      {
        var id := CreateWorker(now);
        ForkOneMore(1, i);
      }
    }

    /** `createWorker()`: fork, then a fresh healthy record stamped `now`. */
    method CreateWorker(now: int) returns (id: nat)
      requires Valid()
      modifies this, host
      ensures Valid()
      ensures id == old(host.nextId) && host.nextId == id + 1
      ensures health == old(health)[id := Health(now, true, 0)]
      ensures order == old(order) + [id]
      ensures host.workers == old(host.workers) + [id]
      ensures host.log == old(host.log) + [Fork(id)]
    {
      id := CreateWorkerInSlot(now, 0);
    }

    /** `createWorker` for a slot whose restart count is carried over: the
        replacement's record starts at `restartCount` instead of 0. */
    method CreateWorkerInSlot(now: int, restartCount: nat) returns (id: nat)
      requires Valid()
      requires restartCount < MaxRestarts
      modifies this, host
      ensures Valid()
      ensures id == old(host.nextId) && host.nextId == id + 1
      ensures health == old(health)[id := Health(now, true, restartCount)]
      ensures order == old(order) + [id]
      ensures host.workers == old(host.workers) + [id]
      ensures host.log == old(host.log) + [Fork(id)]
    {
      id := host.Fork();
      SnocIncreasing(order, id);
      health := health[id := Health(now, true, restartCount)];
      order := order + [id];
    }

    /** The 'message' listener of worker `id`. */
    method OnMessage(id: nat, msg: Message, now: int)
      requires Valid()
      modifies this
      ensures Valid()
      ensures order == old(order)
      ensures if msg.kind == HeartbeatType && id in old(health)
        then health == old(health)[id := Health(now, true, old(health)[id].restartCount)]
        else health == old(health)
    {
      if msg.kind == HeartbeatType && id in health {
        var h := health[id];
        health := health[id := h.(lastHeartbeat := now, isHealthy := true)];
      }
    }

    /** The 'exit' listener of worker `id`, after Node has removed it from `cluster.workers`. */
    method OnExit(id: nat, exitedAfterDisconnect: bool) returns (outcome: ExitOutcome)
      requires Valid()
      requires 1 <= id < host.nextId
      modifies this, host
      ensures Valid()
      ensures outcome == ExitDecision(if id in old(health) then Some(old(health)[id]) else None, exitedAfterDisconnect)
      ensures health == old(health) - {id}
      ensures order == Without(old(order), id)
      ensures host.nextId == old(host.nextId)
      ensures host.workers == Without(old(host.workers), id)
      ensures host.log == old(host.log) + ExitLog(id, outcome)
    {
      var h := if id in health then Some(health[id]) else None;
      outcome := ExitDecision(h, exitedAfterDisconnect);
      host.Exited(id);
      host.RecordAll(ExitLog(id, outcome));
      WithoutIncreasing(order, id);
      health := health - {id};
      order := Without(order, id);
    }

    /** An unexpected exit of worker `id`, then, when a restart is scheduled,
        its timer firing at `now`: as written the replacement comes from
        `createWorker()`; with `carry` it takes over the new count. */
    method ExitThenTimer(id: nat, now: int, carry: bool) returns (outcome: ExitOutcome, next: nat)
      requires Valid()
      requires id in health
      modifies this, host
      ensures Valid()
      ensures outcome == ExitDecision(Some(old(health)[id]), false)
      ensures outcome.Restart? ==>
        && next == old(host.nextId) && host.nextId == next + 1
        && health == (old(health) - {id})[next := Health(now, true, if carry then outcome.count else 0)]
        && order == Without(old(order), id) + [next]
        && host.workers == Without(old(host.workers), id) + [next]
      ensures !outcome.Restart? ==>
        && host.nextId == old(host.nextId)
        && health == old(health) - {id}
        && order == Without(old(order), id)
        && host.workers == Without(old(host.workers), id)
      ensures host.log == old(host.log) + ExitLog(id, outcome) + (if outcome.Restart? then [Fork(next)] else [])
    {
      assert 1 <= id < host.nextId;
      outcome := OnExit(id, false);
      next := 0;
      if outcome.Restart? {
        if carry {
          next := CreateWorkerInSlot(now, outcome.count);
        } else {
          next := CreateWorker(now);
        }
      }
    }

    /** The periodic health check at time `now`. */
    method Sweep(now: int)
      requires Valid()
      modifies this, host
      ensures Valid()
      ensures order == old(order)
      ensures health == Swept(old(health), old(host.workers), now)
      ensures host.nextId == old(host.nextId) && host.workers == old(host.workers)
      ensures host.log == old(host.log) + SweepLog(old(order), old(health), old(host.workers), now)
    {
      var table, effects := VisitAll(order, health, host.workers, now);
      SweptUpToAll(health, order, host.workers, now);
      health := table;
      host.RecordAll(effects);
    }
  }

  /** The body of the sweep loop for worker `id`: report and kill it if it is
      stale, marking it unhealthy only when it is still in `cluster.workers`. */
  method Visit(table: map<nat, Health>, id: nat, live: seq<nat>, now: int)
    returns (t: map<nat, Health>, step: seq<Effect>)
    requires id in table
    ensures t == table[id := SweptRecord(id, table[id], live, now)]
    ensures step == SweepStep(id, table[id], live, now)
  {
    var h := table[id];
    t, step := table, [];
    if now - h.lastHeartbeat > HealthTimeout {
      step := [HeartbeatTimeout(id)];
      if id in live {
        t := table[id := h.(isHealthy := false)];
        step := step + [Kill(id, SIGTERM)];
      }
    }
  }

  /** The `for … of` loop of the sweep over `ids`, the keys of `health` in
      insertion order; `live` are the keys of `cluster.workers`. Returns the
      updated table and the effects requested, in order. */
  method VisitAll(ids: seq<nat>, health: map<nat, Health>, live: seq<nat>, now: int)
    returns (table: map<nat, Health>, effects: seq<Effect>)
    requires Increasing(ids)
    requires forall id :: id in ids ==> id in health
    ensures table == SweptUpTo(health, ids, live, now)
    ensures effects == SweepLog(ids, health, live, now)
  {
    table, effects := health, [];
    for i := 0 to |ids|
      invariant table == SweptUpTo(health, ids[..i], live, now)
      invariant effects == SweepLog(ids[..i], health, live, now)
    {
      SweepOneMore(ids, i, health, live, now);
      var t, step := Visit(table, ids[i], live, now);
      table, effects := t, effects + step;
    }
    assert ids[..|ids|] == ids;
  }

  /** What the crash loops below need of one crash and its timer: the
      decision, and the restart count of the record the replacement got. */
  method Crash(m: Monitor, id: nat, now: int, carry: bool) returns (outcome: ExitOutcome, next: nat)
    requires m.Valid() && id in m.health
    modifies m, m.host
    ensures m.Valid()
    ensures outcome == ExitDecision(Some(old(m.health)[id]), false)
    ensures outcome.Restart? ==> next in m.health && m.health[next].restartCount == if carry then outcome.count else 0
  {
    outcome, next := m.ExitThenTimer(id, now, carry);
  }

  /** As written: one worker crashing `crashes` times, each replacement
      created by `createWorker()` when its timer fires. Every exit finds a
      fresh record, so every exit is restart 1 of 5 with a one-second delay
      and the limit of five is never reached. */
  method CrashLoop(crashes: nat, now: int) returns (outcomes: seq<ExitOutcome>)
    ensures |outcomes| == crashes
    ensures forall k :: 0 <= k < crashes ==> outcomes[k] == Restart(1, BackoffStep)
  {
    var m := new Monitor(1, now);
    assert 1 in m.health;
    var id: nat := 1;
    outcomes := [];
    while |outcomes| < crashes
      invariant m.Valid()
      invariant id in m.health && m.health[id].restartCount == 0
      invariant |outcomes| <= crashes
      invariant forall j :: 0 <= j < |outcomes| ==> outcomes[j] == Restart(1, BackoffStep)
      decreases crashes - |outcomes|
    {
      var o, next := Crash(m, id, now, false);
      outcomes := outcomes + [o];
      id := next;
    }
  }

  /** Corrected: the timer creates the replacement with the count the exit
      produced, so the slot is restarted four times with delays 1 s … 4 s
      and given up at the fifth exit. */
  method CrashLoopCarried(crashes: nat, now: int) returns (outcomes: seq<ExitOutcome>)
    ensures |outcomes| == Min(crashes, MaxRestarts)
    ensures forall k :: 0 <= k < |outcomes| ==>
      outcomes[k] == if k + 1 < MaxRestarts then Restart(k + 1, BackoffStep * (k + 1)) else GiveUp(k + 1)
  {
    var m := new Monitor(1, now);
    assert 1 in m.health;
    var id: nat := 1;
    outcomes := [];
    var running := true;
    while running && |outcomes| < crashes
      invariant m.Valid()
      invariant |outcomes| <= crashes
      invariant running ==> id in m.health && m.health[id].restartCount == |outcomes|
      invariant !running ==> |outcomes| == MaxRestarts
      invariant forall k :: 0 <= k < |outcomes| ==>
        outcomes[k] == if k + 1 < MaxRestarts then Restart(k + 1, BackoffStep * (k + 1)) else GiveUp(k + 1)
      decreases crashes - |outcomes|, running
    {
      ghost var n := |outcomes|;
      var o, next := Crash(m, id, now, true);
      outcomes := outcomes + [o];
      id := next;
      running := o.Restart?;
    }
  }
}
