/** The part of Node's `cluster` module and runtime that the example programs
    call into. Process creation, signals, IPC, timers and console output are
    not computed here: each call is appended to an effect log, in order. */
module Cluster {
  import opened Base

  datatype Signal = SIGTERM | SIGKILL

  datatype Effect =
    | Fork(id: nat)                              // cluster.fork() created worker `id`
    | Kill(id: nat, signal: Signal)              // worker.kill(signal)
    | Disconnect(id: nat)                        // worker.disconnect()
    | DisconnectAll                              // cluster.disconnect()
    | RestartTimer(delay: nat, restartCount: nat) // setTimeout(() => createWorker(), delay)
    | KillTimer(id: nat, delay: nat)             // setTimeout(kill worker `id`, delay)
    | ShutdownTimer(delay: nat)                  // setTimeout(kill every worker, delay)
    | Restarting(id: nat, restartCount: nat)     // console: worker restarting (n/5)
    | GaveUp(id: nat)                            // console: too many restarts, stopped
    | HeartbeatTimeout(id: nat)                  // console: heartbeat timeout
    | ProcessExit(code: int)                     // process.exit(code)

  /** Disconnect requests for `ids`, in order. */
  function Disconnects(ids: seq<nat>): (r: seq<Effect>)
    ensures |r| == |ids|
    ensures forall i :: 0 <= i < |ids| ==> r[i] == Disconnect(ids[i])
  {
    seq(|ids|, i requires 0 <= i < |ids| => Disconnect(ids[i]))
  }

  /** Fork records for `ids`, in order. */
  function Forks(ids: seq<nat>): (r: seq<Effect>)
    ensures |r| == |ids|
    ensures forall i :: 0 <= i < |ids| ==> r[i] == Fork(ids[i])
  {
    seq(|ids|, i requires 0 <= i < |ids| => Fork(ids[i]))
  }

  /** One more consecutive fork extends both the id list and its fork records. */
  lemma ForkOneMore(start: nat, n: nat)
    ensures Iota(start, n + 1) == Iota(start, n) + [start + n]
    ensures Forks(Iota(start, n + 1)) == Forks(Iota(start, n)) + [Fork(start + n)]
  {
    assert Iota(start, n + 1) == Iota(start, n) + [start + n];
    assert Iota(start, n + 1)[..n] == Iota(start, n);
  }

  class Host {
    /** The id the next `cluster.fork()` hands out: 1, 2, 3, … */
    var nextId: nat
    /** Keys of `cluster.workers`: forked workers whose exit has not been seen. */
    var workers: seq<nat>
    /** Every effect requested so far. */
    var log: seq<Effect>

    ghost predicate Valid()
      reads this
    {
      && 1 <= nextId
      && Increasing(workers)
      && (forall id :: id in workers ==> 1 <= id < nextId)
    }

    constructor ()
      ensures Valid()
      ensures nextId == 1 && workers == [] && log == []
    {
      nextId := 1;
      workers := [];
      log := [];
    }

    /** `cluster.fork()`: a new worker with a fresh id joins `cluster.workers`. */
    method Fork() returns (id: nat)
      requires Valid()
      modifies this
      ensures Valid()
      ensures id == old(nextId) && nextId == id + 1
      ensures workers == old(workers) + [id]
      ensures log == old(log) + [Effect.Fork(id)]
    {
      id := nextId;
      SnocIncreasing(workers, id);
      workers := workers + [id];
      nextId := nextId + 1;
      log := log + [Effect.Fork(id)];
    }

    /** A call whose only trace is the effect it requests. */
    method Record(e: Effect)
      modifies this`log
      ensures log == old(log) + [e]
    {
      log := log + [e];
    }

    /** Calls whose only traces are the effects `es`, in order. */
    method RecordAll(es: seq<Effect>)
      modifies this`log
      ensures log == old(log) + es
    {
      log := log + es;
    }

    /** Node's bookkeeping when worker `id` exits, before the 'exit' listeners run:
        the worker leaves `cluster.workers`. */
    method Exited(id: nat)
      requires Valid()
      modifies this`workers
      ensures Valid()
      ensures workers == Without(old(workers), id)
    {
      WithoutIncreasing(workers, id);
      workers := Without(workers, id);
    }
  }

  /** A fresh primary that has called `cluster.fork()` `n` times: workers 1 … n. */
  method StartPrimary(n: nat) returns (host: Host)
    ensures fresh(host) && host.Valid()
    ensures host.nextId == n + 1
    ensures host.workers == Iota(1, n)
    ensures host.log == Forks(Iota(1, n))
  {
    host := new Host();
    for i := 0 to n
      invariant host.Valid()
      invariant host.nextId == i + 1
      invariant host.workers == Iota(1, i)
      invariant host.log == Forks(Iota(1, i))
    {
      var id := host.Fork();
      ForkOneMore(1, i);
    }
  }
}
