/** The basic HTTP-server primary: fork one worker per CPU, and fork one
    replacement for every worker that exits without having been asked to. */
module ExitRule {
  import opened Base
  import opened Cluster

  /** An 'exit' event: which worker, and its `exitedAfterDisconnect` flag. */
  datatype Exit = Exit(id: nat, exitedAfterDisconnect: bool)

  /** How many of `exits` were unexpected. */
  function Unexpected(exits: seq<Exit>): (n: nat)
    ensures n <= |exits|
    ensures n == 0 <==> forall k :: 0 <= k < |exits| ==> exits[k].exitedAfterDisconnect
    ensures n == |exits| <==> forall k :: 0 <= k < |exits| ==> !exits[k].exitedAfterDisconnect
  {
    if exits == [] then 0
    else
      var init := exits[..|exits| - 1];
      assert forall k :: 0 <= k < |init| ==> init[k] == exits[k];
      Unexpected(init) + (if exits[|exits| - 1].exitedAfterDisconnect then 0 else 1)
  }

  /** How many `cluster.fork()` calls a log records. */
  function ForkCount(log: seq<Effect>): nat {
    if log == [] then 0
    else ForkCount(log[..|log| - 1]) + (if log[|log| - 1].Fork? then 1 else 0)
  }

  lemma {:induction false} ForkCountOfForks(ids: seq<nat>)
    ensures ForkCount(Forks(ids)) == |ids|
    decreases |ids|
  {
    if ids != [] {
      var init := ids[..|ids| - 1];
      assert Forks(ids)[..|ids| - 1] == Forks(init);
      ForkCountOfForks(init);
    }
  }

  lemma UnexpectedOneMore(exits: seq<Exit>, i: nat)
    requires i < |exits|
    ensures Unexpected(exits[..i + 1]) == Unexpected(exits[..i]) + if exits[i].exitedAfterDisconnect then 0 else 1
  {
    assert exits[..i + 1][..i] == exits[..i];
  }

  /** The fork log after one more exit. */
  lemma ForkLogStep(before: seq<Effect>, after: seq<Effect>, n: nat, exitedAfterDisconnect: bool)
    requires before == Forks(Iota(1, n))
    requires after == before + (if exitedAfterDisconnect then [] else [Fork(n + 1)])
    ensures after == Forks(Iota(1, n + (if exitedAfterDisconnect then 0 else 1)))
  {
    if exitedAfterDisconnect {
      assert after == before;
    } else {
      ForkOneMore(1, n);
    }
  }

  class Respawner {
    const host: Host
    const numCPUs: nat

    ghost predicate Valid()
      reads this, host
    {
      host.Valid()
    }

    /** `for (i = 0; i < numCPUs; i++) cluster.fork()`. */
    constructor (numCPUs: nat)
      ensures Valid() && fresh(host) && this.numCPUs == numCPUs
      ensures host.nextId == numCPUs + 1
      ensures host.workers == Iota(1, numCPUs)
      ensures host.log == Forks(Iota(1, numCPUs))
    {
      this.numCPUs := numCPUs;
      var h := StartPrimary(numCPUs);
      host := h;
    }

    /** `cluster.on('exit', …)`: fork once unless the exit was intentional. */
    method OnExit(id: nat, exitedAfterDisconnect: bool) returns (replacement: Option<nat>)
      requires Valid()
      modifies host
      ensures Valid()
      ensures replacement.Some? <==> !exitedAfterDisconnect
      ensures replacement.Some? ==> replacement.value == old(host.nextId)
      ensures host.nextId == old(host.nextId) + (if exitedAfterDisconnect then 0 else 1)
      ensures host.workers == Without(old(host.workers), id) + (if exitedAfterDisconnect then [] else [replacement.value])
      ensures host.log == old(host.log) + (if exitedAfterDisconnect then [] else [Fork(replacement.value)])
    {
      host.Exited(id);
      replacement := None;
      if !exitedAfterDisconnect {
        var newId := host.Fork();
        replacement := Some(newId);
      }
    }
  }

  /** Start-up followed by `exits`: the primary forks `numCPUs` workers and then
      exactly one per unexpected exit, with ids 1, 2, 3, … in fork order. */
  method RunRespawner(numCPUs: nat, exits: seq<Exit>) returns (log: seq<Effect>)
    ensures log == Forks(Iota(1, numCPUs + Unexpected(exits)))
    ensures ForkCount(log) == numCPUs + Unexpected(exits)
  {
    var r := new Respawner(numCPUs);
    ghost var forked := numCPUs;
    for i := 0 to |exits|
      invariant r.Valid()
      invariant forked == numCPUs + Unexpected(exits[..i])
      invariant r.host.nextId == forked + 1
      invariant r.host.log == Forks(Iota(1, forked))
    {
      UnexpectedOneMore(exits, i);
      ghost var before := r.host.log;
      var replacement := r.OnExit(exits[i].id, exits[i].exitedAfterDisconnect);
      ForkLogStep(before, r.host.log, forked, exits[i].exitedAfterDisconnect);
      forked := forked + if exits[i].exitedAfterDisconnect then 0 else 1;
    }
    assert exits[..|exits|] == exits;
    log := r.host.log;
    ForkCountOfForks(Iota(1, forked));
  }
}
