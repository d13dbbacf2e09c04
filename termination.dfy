/** Timeout-escalated termination: ask a worker (or every worker) to
    disconnect, and force it down when the timeout fires while it is still
    alive. */
module Termination {
  import opened Base
  import opened Cluster

  /** Default timeout of `gracefulKill` and `gracefulDisconnect`, in ms. */
  const WorkerTimeout: nat := 5000
  /** Default timeout of `gracefulShutdown`, in ms. */
  const ShutdownTimeout: nat := 10000

  /** A JavaScript default parameter: the argument when one is passed,
      `default` when the caller leaves it out. */
  function OrDefault(timeout: Option<nat>, default: nat): nat {
    if timeout.Some? then timeout.value else default
  }

  /** What can happen to one worker after `disconnect()` was requested. */
  datatype Event =
    | Disconnected   // its 'disconnect' event: the IPC channel closed, the process lives on
    | Exited         // its 'exit' event: the process is dead
    | Deadline       // the timeout elapsed

  /** The first event that settles the race between the worker's exit and the
      timeout; a 'disconnect' event settles nothing. */
  function FirstDecisive(events: seq<Event>): (r: Option<Event>)
    ensures r.Some? ==> r.value != Disconnected && r.value in events
    ensures r.None? <==> forall k :: 0 <= k < |events| ==> events[k] == Disconnected
  {
    if events == [] then None
    else if events[0] != Disconnected then Some(events[0])
    else
      var r := FirstDecisive(events[1..]);
      assert forall k :: 1 <= k < |events| ==> events[k] == events[1..][k - 1];
      r
  }

  /** The worker is force-killed: the timeout came while it was still alive. */
  predicate ForcedKill(events: seq<Event>)
    ensures ForcedKill(events) ==> Deadline in events
  {
    FirstDecisive(events) == Some(Deadline)
  }

  /** Extending a trace only matters while the race is still open. */
  lemma {:induction false} FirstDecisiveSnoc(events: seq<Event>, e: Event)
    ensures FirstDecisive(events + [e]) ==
      if FirstDecisive(events).Some? then FirstDecisive(events)
      else if e != Disconnected then Some(e)
      else None
    decreases |events|
  {
    if events != [] {
      assert (events + [e])[1..] == events[1..] + [e];
      FirstDecisiveSnoc(events[1..], e);
    } else {
      assert (events + [e])[1..] == [];
    }
  }

  /** The kill happens exactly when some timeout comes before any exit. */
  lemma {:induction false} ForcedKillIff(events: seq<Event>)
    ensures ForcedKill(events) <==>
      exists i :: 0 <= i < |events| && events[i] == Deadline && Exited !in events[..i]
    decreases |events|
  {
    if events != [] {
      ForcedKillIff(events[1..]);
      if events[0] == Disconnected {
        if ForcedKill(events) {
          var i :| 0 <= i < |events[1..]| && events[1..][i] == Deadline && Exited !in events[1..][..i];
          assert events[..i + 1] == [events[0]] + events[1..][..i];
        }
        if i :| 0 <= i < |events| && events[i] == Deadline && Exited !in events[..i] {
          assert i > 0;
          assert events[1..][..i - 1] == events[1..i];
          assert events[..i] == [events[0]] + events[1..i];
          assert events[1..][i - 1] == Deadline;
        }
      } else if events[0] == Exited {
        forall i | 0 <= i < |events| && events[i] == Deadline
          ensures Exited in events[..i]
        {
          assert events[..i][0] == Exited;
        }
      } else {
        assert events[..0] == [];
      }
    }
  }

  /** `gracefulKill(worker, timeout)`: disconnect, arm a SIGKILL timer, and
      clear the timer when the worker exits. */
  class GracefulKill {
    const host: Host
    const id: nat
    /** `killTimer` is armed and not cleared. */
    var timerPending: bool

    constructor (host: Host, id: nat, timeout: Option<nat>)
      modifies host`log
      ensures this.host == host && this.id == id && timerPending
      ensures host.log == old(host.log) + [Disconnect(id), KillTimer(id, OrDefault(timeout, WorkerTimeout))]
    {
      this.host := host;
      this.id := id;
      timerPending := true;
      new;
      host.RecordAll([Disconnect(id), KillTimer(id, OrDefault(timeout, WorkerTimeout))]);
    }

    /** The worker's 'exit' listener: `clearTimeout(killTimer)`. */
    method OnExit()
      modifies this`timerPending
      ensures !timerPending
    {
      timerPending := false;
    }

    /** The timer callback, which a cleared or already fired timer never runs. */
    method OnDeadline()
      modifies this`timerPending, host`log
      ensures !timerPending
      ensures host.log == old(host.log) + (if old(timerPending) then [Kill(id, SIGKILL)] else [])
    {
      if timerPending {
        timerPending := false;
        host.Record(Kill(id, SIGKILL));
      }
    }
  }

  /** `gracefulDisconnect(worker, timeout)`: disconnect, and at the timeout
      send the default signal unless `worker.isDead()`. */
  class GracefulDisconnect {
    const host: Host
    const id: nat
    /** `worker.isDead()`. */
    var dead: bool
    /** The timeout has not fired yet. */
    var timerPending: bool

    constructor (host: Host, id: nat, timeout: Option<nat>)
      modifies host`log
      ensures this.host == host && this.id == id && !dead && timerPending
      ensures host.log == old(host.log) + [Disconnect(id), KillTimer(id, OrDefault(timeout, WorkerTimeout))]
    {
      this.host := host;
      this.id := id;
      dead := false;
      timerPending := true;
      new;
      host.RecordAll([Disconnect(id), KillTimer(id, OrDefault(timeout, WorkerTimeout))]);
    }

    /** The worker's process exits. */
    method OnExit()
      modifies this`dead
      ensures dead
    {
      dead := true;
    }

    /** The timer callback; `worker.kill()` sends SIGTERM. */
    method OnDeadline()
      modifies this`timerPending, host`log
      ensures !timerPending
      ensures host.log == old(host.log) + (if old(timerPending) && !dead then [Kill(id, SIGTERM)] else [])
    {
      if timerPending {
        timerPending := false;
        if !dead {
          host.Record(Kill(id, SIGTERM));
        }
      }
    }
  }

  /** `gracefulKill` on worker `id` followed by `events`: one disconnect, and
      a SIGKILL exactly when the timeout beats the exit. */
  method RunGracefulKill(id: nat, timeout: Option<nat>, events: seq<Event>) returns (log: seq<Effect>)
    ensures log == [Disconnect(id), KillTimer(id, OrDefault(timeout, WorkerTimeout))] + (if ForcedKill(events) then [Kill(id, SIGKILL)] else [])
  {
    var host := new Host();
    var run := new GracefulKill(host, id, timeout);
    for i := 0 to |events|
      invariant run.host == host && run.id == id
      invariant run.timerPending <==> FirstDecisive(events[..i]).None?
      invariant host.log == [Disconnect(id), KillTimer(id, OrDefault(timeout, WorkerTimeout))] + (if ForcedKill(events[..i]) then [Kill(id, SIGKILL)] else [])
    {
      FirstDecisiveSnoc(events[..i], events[i]);
      assert events[..i + 1] == events[..i] + [events[i]];
      match events[i]
      case Disconnected =>
      case Exited => run.OnExit();
      case Deadline => run.OnDeadline();
    }
    assert events[..|events|] == events;
    log := host.log;
  }

  /** `gracefulDisconnect` on worker `id` followed by `events`: the same
      decision as `gracefulKill`, with SIGTERM. */
  method RunGracefulDisconnect(id: nat, timeout: Option<nat>, events: seq<Event>) returns (log: seq<Effect>)
    ensures log == [Disconnect(id), KillTimer(id, OrDefault(timeout, WorkerTimeout))] + (if ForcedKill(events) then [Kill(id, SIGTERM)] else [])
  {
    var host := new Host();
    var run := new GracefulDisconnect(host, id, timeout);
    for i := 0 to |events|
      invariant run.host == host && run.id == id
      invariant run.dead <==> Exited in events[..i]
      invariant run.timerPending <==> Deadline !in events[..i]
      invariant !run.timerPending && !run.dead ==> FirstDecisive(events[..i]) == Some(Deadline)
      invariant run.dead && run.timerPending ==> FirstDecisive(events[..i]) == Some(Exited)
      invariant run.timerPending && !run.dead ==> FirstDecisive(events[..i]).None?
      invariant host.log == [Disconnect(id), KillTimer(id, OrDefault(timeout, WorkerTimeout))] + (if ForcedKill(events[..i]) then [Kill(id, SIGTERM)] else [])
    {
      FirstDecisiveSnoc(events[..i], events[i]);
      assert events[..i + 1] == events[..i] + [events[i]];
      match events[i]
      case Disconnected =>
      case Exited => run.OnExit();
      case Deadline => run.OnDeadline();
    }
    assert events[..|events|] == events;
    log := host.log;
  }

  /** The timer body of `gracefulShutdown`: the default signal to every worker
      still in `cluster.workers`, in key order, then `process.exit(1)`. */
  method KillRemaining(ids: seq<nat>) returns (effects: seq<Effect>)
    ensures |effects| == |ids| + 1
    ensures forall k :: 0 <= k < |ids| ==> effects[k] == Kill(ids[k], SIGTERM)
    ensures forall id: nat, s: Signal :: Kill(id, s) in effects <==> id in ids && s == SIGTERM
    ensures effects[|ids|] == ProcessExit(1)
  {
    effects := [];
    for k := 0 to |ids|
      invariant |effects| == k
      invariant forall j :: 0 <= j < k ==> effects[j] == Kill(ids[j], SIGTERM)
      invariant forall id: nat, s: Signal :: Kill(id, s) in effects <==> id in ids[..k] && s == SIGTERM
    {
      assert forall id :: id in ids[..k + 1] <==> id in ids[..k] || id == ids[k];
      effects := effects + [Kill(ids[k], SIGTERM)];
    }
    assert ids[..|ids|] == ids;
    effects := effects + [ProcessExit(1)];
  }

  /** `gracefulShutdown(timeout)`, up to the timer: `cluster.disconnect()`. */
  method BeginShutdown(host: Host, timeout: Option<nat>)
    modifies host`log
    ensures host.log == old(host.log) + [DisconnectAll, ShutdownTimer(OrDefault(timeout, ShutdownTimeout))]
  {
    host.RecordAll([DisconnectAll, ShutdownTimer(OrDefault(timeout, ShutdownTimeout))]);
  }

  /** The shutdown timer firing: what it adds to the log kills exactly the
      workers then in `cluster.workers`, in order, and ends with exit code 1. */
  method OnShutdownDeadline(host: Host) returns (tail: seq<Effect>)
    modifies host`log
    ensures host.log == old(host.log) + tail
    ensures |tail| == |host.workers| + 1
    ensures forall k :: 0 <= k < |host.workers| ==> tail[k] == Kill(host.workers[k], SIGTERM)
    ensures forall id: nat, s: Signal :: Kill(id, s) in tail <==> id in host.workers && s == SIGTERM
    ensures tail[|tail| - 1] == ProcessExit(1)
  {
    tail := KillRemaining(host.workers);
    host.RecordAll(tail);
  }

  /** The exits Node delivers before the timer: each leaves `cluster.workers`. */
  method ExitAll(host: Host, exits: seq<nat>)
    requires host.Valid()
    modifies host`workers
    ensures host.Valid()
    ensures forall id :: id in host.workers <==> id in old(host.workers) && id !in exits
  {
    for j := 0 to |exits|
      invariant host.Valid()
      invariant forall id :: id in host.workers <==> id in old(host.workers) && id !in exits[..j]
    {
      assert forall id :: id in exits[..j + 1] <==> id in exits[..j] || id == exits[j];
      host.Exited(exits[j]);
    }
    assert exits[..|exits|] == exits;
  }

  /** `n` workers, `gracefulShutdown`, the exits of `exits` before the timer,
      then the timer: exactly the workers that have not exited are killed. */
  method RunShutdown(n: nat, exits: seq<nat>, timeout: Option<nat>) returns (log: seq<Effect>)
    ensures forall id: nat, s: Signal :: Kill(id, s) in log <==> 1 <= id <= n && id !in exits && s == SIGTERM
    ensures DisconnectAll in log && ShutdownTimer(OrDefault(timeout, ShutdownTimeout)) in log
    ensures log != [] && log[|log| - 1] == ProcessExit(1)
  {
    var host := StartPrimary(n);
    forall e | e in host.log ensures e.Fork? {
      var k :| 0 <= k < |host.log| && host.log[k] == e;
    }
    forall id | 1 <= id <= n ensures id in host.workers {
      assert host.workers[id - 1] == id;
    }
    ghost var forked := host.log;
    BeginShutdown(host, timeout);
    ghost var started := host.log;
    assert started == forked + [DisconnectAll, ShutdownTimer(OrDefault(timeout, ShutdownTimeout))];
    assert forall e :: e in started ==> !e.Kill?;
    ExitAll(host, exits);
    var tail := OnShutdownDeadline(host);
    log := host.log;
    assert DisconnectAll in started && ShutdownTimer(OrDefault(timeout, ShutdownTimeout)) in started;
  }
}
