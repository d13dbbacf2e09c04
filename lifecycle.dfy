/** The life of one worker as the primary sees it: fork, 'online', an optional
    'listening', messages, 'disconnect', 'exit'. */
module Lifecycle {
  import opened Base

  datatype Phase = Forked | Online | Listening | Disconnected | Dead

  datatype Event = OnlineEv | ListeningEv | MessageEv | DisconnectEv | ExitEv

  /** Position in the documented order. */
  function Rank(p: Phase): nat {
    match p
    case Forked => 0
    case Online => 1
    case Listening => 2
    case Disconnected => 3
    case Dead => 4
  }

  /** The phase an event moves to; messages keep the phase. */
  function Target(e: Event): Phase
    requires e != MessageEv
  {
    match e
    case OnlineEv => Online
    case ListeningEv => Listening
    case DisconnectEv => Disconnected
    case ExitEv => Dead
  }

  /** `worker.isConnected()`: the IPC channel is open. */
  predicate IsConnected(p: Phase) {
    p == Forked || p == Online || p == Listening
  }

  /** `worker.isDead()`: the process has exited. */
  predicate IsDead(p: Phase)
    ensures IsDead(p) ==> !IsConnected(p)
  {
    p == Dead
  }

  /** One event in phase `p`, or None when the event cannot come there: the
      process may exit at any point, messages flow only once it is online and
      until it disconnects, and nothing follows the exit. */
  function Step(p: Phase, e: Event): (r: Option<Phase>)
    ensures r.Some? && e == MessageEv ==> r.value == p && IsConnected(p)
    ensures r.Some? && e != MessageEv ==> r.value == Target(e) && Rank(p) < Rank(r.value)
    ensures IsDead(p) ==> r.None?
    ensures !IsDead(p) && e == ExitEv ==> r == Some(Dead)
    ensures r.Some? && (e == ListeningEv || e == MessageEv) ==> p == Online || p == Listening
  {
    match e
    case OnlineEv => if p == Forked then Some(Online) else None
    case ListeningEv => if p == Online then Some(Listening) else None
    case MessageEv => if p == Online || p == Listening then Some(p) else None
    case DisconnectEv => if IsConnected(p) then Some(Disconnected) else None
    case ExitEv => if p != Dead then Some(Dead) else None
  }

  /** The phase after a whole trace, or None if some event was out of order. */
  function Run(p: Phase, trace: seq<Event>): (r: Option<Phase>)
    ensures IsDead(p) ==> (r.Some? <==> trace == [])
    decreases |trace|
  {
    if trace == [] then Some(p)
    else match Step(p, trace[0])
      case None => None
      case Some(q) => Run(q, trace[1..])
  }

  /** The phase never moves backwards. */
  lemma {:induction false} RunMonotone(p: Phase, trace: seq<Event>)
    requires Run(p, trace).Some?
    ensures Rank(p) <= Rank(Run(p, trace).value)
    decreases |trace|
  {
    if trace != [] {
      RunMonotone(Step(p, trace[0]).value, trace[1..]);
    }
  }

  /** Every phase-changing event of an accepted trace lies above the start. */
  lemma {:induction false} EventsAbove(p: Phase, trace: seq<Event>)
    requires Run(p, trace).Some?
    ensures forall i :: 0 <= i < |trace| && trace[i] != MessageEv ==> Rank(p) < Rank(Target(trace[i]))
    decreases |trace|
  {
    if trace != [] {
      var q := Step(p, trace[0]).value;
      EventsAbove(q, trace[1..]);
      forall i | 1 <= i < |trace| && trace[i] != MessageEv
        ensures Rank(p) < Rank(Target(trace[i]))
      {
        assert trace[1..][i - 1] == trace[i];
      }
    }
  }

  /** In an accepted trace the phase-changing events come in the documented
      order, each at most once. */
  lemma {:induction false} EventsOrdered(p: Phase, trace: seq<Event>)
    requires Run(p, trace).Some?
    ensures forall i, j :: 0 <= i < j < |trace| && trace[i] != MessageEv && trace[j] != MessageEv ==>
      Rank(Target(trace[i])) < Rank(Target(trace[j]))
    decreases |trace|
  {
    if trace != [] {
      var q := Step(p, trace[0]).value;
      EventsOrdered(q, trace[1..]);
      EventsAbove(q, trace[1..]);
      forall i, j | 0 <= i < j < |trace| && trace[i] != MessageEv && trace[j] != MessageEv
        ensures Rank(Target(trace[i])) < Rank(Target(trace[j]))
      {
        assert trace[1..][j - 1] == trace[j];
        if i > 0 {
          assert trace[1..][i - 1] == trace[i];
        }
      }
    }
  }

  /** Once the channel is closed, no 'listening' event and no message is
      accepted. The contracts of `Step` and `Run` settle it: from the
      disconnect only the exit is accepted, and after the exit nothing. */
  lemma NothingAfterClose(p: Phase, trace: seq<Event>)
    requires Run(p, trace).Some?
    requires p == Disconnected || p == Dead
    ensures forall j :: 0 <= j < |trace| ==> trace[j] != ListeningEv && trace[j] != MessageEv
  {
  }

  /** From the fork, 'online' comes before any 'listening' event or message:
      a forked worker's first event is 'online', or it closes the channel. */
  lemma OnlineFirst(p: Phase, trace: seq<Event>, i: nat)
    requires Run(p, trace).Some?
    requires Rank(p) == 0
    requires i < |trace| && (trace[i] == ListeningEv || trace[i] == MessageEv)
    ensures OnlineEv in trace[..i]
  {
  }

  /** Nothing is accepted after the exit. */
  lemma {:induction false} ExitIsLast(p: Phase, trace: seq<Event>, i: nat)
    requires Run(p, trace).Some?
    requires i < |trace| && trace[i] == ExitEv
    ensures i == |trace| - 1
    ensures Run(p, trace) == Some(Dead)
    decreases |trace|
  {
    var q := Step(p, trace[0]).value;
    if i > 0 {
      assert trace[1..][i - 1] == trace[i];
      ExitIsLast(q, trace[1..], i - 1);
    } else if |trace| > 1 {
      assert false;
    }
  }

  /** What `isDead()` and `isConnected()` answer after an accepted trace:
      dead exactly once the exit has come, connected until the disconnect or
      the exit. */
  lemma {:induction false} StatusAfterRun(p: Phase, trace: seq<Event>)
    requires Run(p, trace).Some?
    ensures IsDead(Run(p, trace).value) <==> IsDead(p) || ExitEv in trace
    ensures IsConnected(Run(p, trace).value) <==> IsConnected(p) && DisconnectEv !in trace && ExitEv !in trace
    decreases |trace|
  {
    if trace != [] {
      var q := Step(p, trace[0]).value;
      StatusAfterRun(q, trace[1..]);
      assert forall e :: e in trace <==> e == trace[0] || e in trace[1..];
    }
  }

  /** The full documented life — online, listening, messages, disconnect,
      exit — is accepted from the fork and ends dead. */
  lemma DocumentedOrderAccepted(messages: nat)
    ensures Run(Forked, [OnlineEv, ListeningEv] + seq(messages, _ => MessageEv) + [DisconnectEv, ExitEv]) == Some(Dead)
  {
    MessagesKeepListening(messages);
    var ms := seq(messages, _ => MessageEv);
    var t := [OnlineEv, ListeningEv] + ms + [DisconnectEv, ExitEv];
    assert t[1..] == [ListeningEv] + ms + [DisconnectEv, ExitEv];
    assert t[1..][1..] == ms + [DisconnectEv, ExitEv];
    RunAppend(Listening, ms, [DisconnectEv, ExitEv]);
  }

  lemma {:induction false} MessagesKeepListening(messages: nat)
    ensures Run(Listening, seq(messages, _ => MessageEv)) == Some(Listening)
    decreases messages
  {
    if messages > 0 {
      assert seq(messages, _ => MessageEv)[1..] == seq(messages - 1, _ => MessageEv);
      MessagesKeepListening(messages - 1);
    }
  }

  /** Running a concatenation runs the parts in turn. */
  lemma {:induction false} RunAppend(p: Phase, a: seq<Event>, b: seq<Event>)
    requires Run(p, a).Some?
    ensures Run(p, a + b) == Run(Run(p, a).value, b)
    decreases |a|
  {
    if a != [] {
      assert (a + b)[1..] == a[1..] + b;
      RunAppend(Step(p, a[0]).value, a[1..], b);
    } else {
      assert a + b == b;
    }
  }
}
