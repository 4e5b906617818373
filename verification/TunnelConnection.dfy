/**
 The life cycle of a tunnelled connection (TunnelledConnection in connections/tunnel.py): an SSH
 connection, a forwarder over it, and an inner connection that talks to the forwarder's local port.

 Every forwarder and inner connection that comes into being, and every cleanup action that is
 attempted, goes into one log; which cleanups are still owed is a function of that log.
 */
module TunnelConnection {
  import opened Common

  type Id = nat
  type Port = nat

  /** What a call may raise; the tag tells exceptions apart. */
  datatype Failure = Timeout(tag: nat) | Other(tag: nat)

  datatype Action = InnerDisconnect(id: Id) | RequestStop(id: Id) | SshDisconnect | WaitStopped(id: Id)

  datatype Event =
    | Started(id: Id, port: Port)                            // a forwarder, listening on its port
    | Made(id: Id, port: Port)                               // an inner connection, told to use the port
    | Broke(failure: Failure)                                // building the tunnel failed
    | Tried(action: Action, outcome: Option<Failure>)        // a cleanup, whatever came of it

  // ---------------------------------------------------------------- cleanups owed

  /** The cleanups that what was started and made still needs. */
  function Owed(log: seq<Event>): set<Action> {
    if log == [] then {}
    else
      var before := Owed(log[..|log| - 1]);
      match log[|log| - 1]
      case Started(id, _) => before + {RequestStop(id), WaitStopped(id)}
      case Made(id, _) => before + {InnerDisconnect(id)}
      case Tried(action, _) => before - {action}
      case Broke(_) => before
  }

  /**
   The order in which cleanups may happen: the inner connection goes before the forwarder it uses is
   stopped; the forwarder is told to stop before the SSH connection under it is closed, and is
   waited for only after it was told to stop.
   */
  ghost predicate InTurn(action: Action, owed: set<Action>) {
    && (action.SshDisconnect? || action in owed)
    && (!action.InnerDisconnect? ==> forall a :: a in owed ==> !a.InnerDisconnect?)
    && (action.SshDisconnect? || action.WaitStopped? ==> forall a :: a in owed ==> !a.RequestStop?)
  }

  /** A log in which ids are new when they appear and every cleanup happens in its turn. */
  ghost predicate Orderly(log: seq<Event>) {
    log == [] ||
    var before := log[..|log| - 1];
    && Orderly(before)
    && match log[|log| - 1]
       case Started(id, _) => Unseen(before, id)
       case Made(id, _) => Unseen(before, id)
       case Tried(action, _) => InTurn(action, Owed(before))
       case Broke(_) => true
  }

  ghost predicate Unseen(log: seq<Event>, id: Id) {
    forall e :: e in log && (e.Started? || e.Made?) ==> e.id != id
  }

  function Attempts(log: seq<Event>, action: Action): nat {
    if log == [] then 0
    else Attempts(log[..|log| - 1], action) + if log[|log| - 1].Tried? && log[|log| - 1].action == action then 1 else 0
  }

  /** The event that makes a cleanup necessary. */
  predicate Needs(e: Event, action: Action) {
    match action
    case InnerDisconnect(id) => e.Made? && e.id == id
    case RequestStop(id) => e.Started? && e.id == id
    case WaitStopped(id) => e.Started? && e.id == id
    case SshDisconnect => false
  }

  ghost predicate Needed(log: seq<Event>, action: Action) {
    exists e :: e in log && Needs(e, action)
  }

  /**
   Every inner connection's disconnect, and every forwarder's stop and wait, is owed, or was
   attempted exactly once; nothing else was.
   */
  lemma {:induction false} EachCleanupIsTriedOnce(log: seq<Event>, action: Action)
    requires Orderly(log) && action != SshDisconnect
    ensures Attempts(log, action) + (if action in Owed(log) then 1 else 0) == (if Needed(log, action) then 1 else 0)
  {
    if log != [] {
      var before, last := log[..|log| - 1], log[|log| - 1];
      assert log == before + [last];
      EachCleanupIsTriedOnce(before, action);
      assert Needs(last, action) ==> Needed(log, action);
      assert Needed(before, action) ==> Needed(log, action);
      if Needed(log, action) && !Needs(last, action) {
        var e :| e in log && Needs(e, action);
        assert e in before;
      }
    }
  }

  // ---------------------------------------------------------------- one teardown

  /** The cleanup actions, in the order they are attempted. */
  function Plan(inner: Option<Id>, forwarder: Option<Id>, closeSsh: bool): seq<Action> {
    (if inner.Some? then [InnerDisconnect(inner.value)] else [])
    + (if forwarder.Some? then [RequestStop(forwarder.value)] else [])
    + (if closeSsh then [SshDisconnect] else [])
    + (if forwarder.Some? then [WaitStopped(forwarder.value)] else [])
  }

  /** The cleanups a connection holding these still needs. */
  function HeldCleanups(inner: Option<Id>, forwarder: Option<Id>): set<Action> {
    (if inner.Some? then {InnerDisconnect(inner.value)} else {})
    + (if forwarder.Some? then {RequestStop(forwarder.value), WaitStopped(forwarder.value)} else {})
  }

  /** What of the plan is owed. */
  ghost function Rest(plan: seq<Action>): set<Action> { set a | a in plan && a != SshDisconnect }

  /** The i-th action may happen when the ones before it have. */
  ghost predicate InTurnAt(plan: seq<Action>, i: int)
    requires 0 <= i < |plan|
  {
    InTurn(plan[i], Rest(plan[i..])) && Rest(plan[i + 1..]) == Rest(plan[i..]) - {plan[i]}
  }

  function Rank(action: Action): nat {
    match action
    case InnerDisconnect(_) => 0
    case RequestStop(_) => 1
    case SshDisconnect => 2
    case WaitStopped(_) => 3
  }

  ghost predicate Climbs(plan: seq<Action>) {
    forall i, j :: 0 <= i < j < |plan| ==> Rank(plan[i]) < Rank(plan[j])
  }

  lemma ClimbingIsInTurn(plan: seq<Action>, i: int)
    requires Climbs(plan) && 0 <= i < |plan|
    ensures InTurnAt(plan, i)
  {
    assert plan[i..] == [plan[i]] + plan[i + 1..];
    forall a | a in plan[i + 1..]
      ensures Rank(plan[i]) < Rank(a)
    {
      var k :| i < k < |plan| && plan[k] == a;
    }
  }

  lemma PlanClimbs(inner: Option<Id>, forwarder: Option<Id>, closeSsh: bool)
    ensures Climbs(Plan(inner, forwarder, closeSsh))
  {
    var plan := Plan(inner, forwarder, closeSsh);
    forall i, j | 0 <= i < j < |plan| ensures Rank(plan[i]) < Rank(plan[j]) {}
  }

  lemma PlanIsWhatIsHeld(inner: Option<Id>, forwarder: Option<Id>, closeSsh: bool)
    ensures SshDisconnect in Plan(inner, forwarder, closeSsh) <==> closeSsh
    ensures Rest(Plan(inner, forwarder, closeSsh)) == HeldCleanups(inner, forwarder)
  {
    forall a ensures a in Rest(Plan(inner, forwarder, closeSsh)) <==> a in HeldCleanups(inner, forwarder) {}
  }

  /** The events are the attempts of the planned actions, one after the other. */
  ghost predicate Performed(events: seq<Event>, plan: seq<Action>) {
    |events| == |plan| && forall i :: 0 <= i < |plan| ==> events[i].Tried? && events[i].action == plan[i]
  }

  /** How two errors are combined into the one that is raised. */
  function Keep(error: Option<Failure>, next: Option<Failure>): Option<Failure> {
    if next.None? then error
    else if error.None? || next.value.Timeout? then next
    else error
  }

  function Outcome(e: Event): Option<Failure> { if e.Tried? then e.outcome else None }

  /** The error of a sequence of attempts. */
  function Raised(events: seq<Event>): Option<Failure> {
    if events == [] then None else Keep(Raised(events[..|events| - 1]), Outcome(events[|events| - 1]))
  }

  lemma {:induction false} PerformedNext(done: seq<Event>, plan: seq<Action>, i: nat, outcome: Option<Failure>)
    requires i < |plan| && Performed(done, plan[..i])
    ensures var then' := done + [Tried(plan[i], outcome)];
            Performed(then', plan[..i + 1]) && Raised(then') == Keep(Raised(done), outcome)
    ensures SshDisconnect in plan[..i + 1] <==> SshDisconnect in plan[..i] || plan[i].SshDisconnect?
  {
    assert plan[..i + 1] == plan[..i] + [plan[i]];
    assert (done + [Tried(plan[i], outcome)])[..|done|] == done;
  }

  ghost predicate TimesOut(e: Event) { Outcome(e).Some? && Outcome(e).value.Timeout? }

  /** The latest timeout if there is one, else the first failure. */
  ghost predicate Reports(events: seq<Event>, k: int) {
    && 0 <= k < |events| && Outcome(events[k]).Some?
    && (if TimesOut(events[k]) then forall j :: k < j < |events| ==> !TimesOut(events[j])
        else forall j :: 0 <= j < |events| ==> (if j < k then Outcome(events[j]).None? else !TimesOut(events[j])))
  }

  lemma {:induction false} NothingRaised(events: seq<Event>)
    ensures Raised(events).None? <==> forall j :: 0 <= j < |events| ==> Outcome(events[j]).None?
  {
    if events != [] {
      var before := events[..|events| - 1];
      NothingRaised(before);
      assert forall j :: 0 <= j < |before| ==> before[j] == events[j];
      if exists j :: 0 <= j < |before| && Outcome(before[j]).Some? {
        var j :| 0 <= j < |before| && Outcome(before[j]).Some?;
        assert Outcome(events[j]).Some?;
      }
    }
  }

  lemma {:induction false} ReportedIsRaised(events: seq<Event>, k: int)
    requires Reports(events, k)
    ensures Raised(events) == Outcome(events[k])
  {
    var n := |events| - 1;
    var before := events[..n];
    assert forall j :: 0 <= j < n ==> before[j] == events[j];
    if k < n {
      assert !TimesOut(events[n]);
      ReportedIsRaised(before, k);
    } else if !TimesOut(events[n]) {
      NothingRaised(before);
    }
  }

  lemma {:induction false} RaisedIsReported(events: seq<Event>) returns (k: int)
    requires Raised(events).Some?
    ensures Reports(events, k)
  {
    var n := |events| - 1;
    var before := events[..n];
    assert forall j :: 0 <= j < n ==> before[j] == events[j];
    if TimesOut(events[n]) { return n; }
    if Raised(before).Some? { k := RaisedIsReported(before); return; }
    NothingRaised(before);
    return n;
  }

  /**
   What is raised: nothing exactly when nothing failed; otherwise the latest timeout, or, when there
   is none, the first failure.
   */
  lemma {:induction false} RaisedIsTheWorst(events: seq<Event>)
    ensures Raised(events).None? <==> forall j :: 0 <= j < |events| ==> Outcome(events[j]).None?
    ensures Raised(events).Some? <==> exists k :: Reports(events, k)
    ensures forall k :: Reports(events, k) ==> Raised(events) == Outcome(events[k])
  {
    NothingRaised(events);
    if Raised(events).Some? { var _ := RaisedIsReported(events); }
    forall k | Reports(events, k) ensures Raised(events) == Outcome(events[k]) { ReportedIsRaised(events, k); }
  }

  /** A timeout of any action is raised as a timeout; that of the wait, the last action, as itself. */
  lemma {:induction false} TimeoutsSurface(events: seq<Event>, k: int)
    requires 0 <= k < |events| && TimesOut(events[k])
    ensures Raised(events).Some? && Raised(events).value.Timeout?
    ensures k == |events| - 1 ==> Raised(events) == Outcome(events[k])
  {
    NothingRaised(events);
    var r := RaisedIsReported(events);
    ReportedIsRaised(events, r);
    assert !TimesOut(events[r]) ==> 0 <= k < |events| && k >= r;
    if k == |events| - 1 {
      assert Reports(events, k);
      ReportedIsRaised(events, k);
    }
  }

  // ---------------------------------------------------------------- building up, extending a log

  /** The events that bring these into being. */
  function Built(inner: Option<Id>, forwarder: Option<Id>, port: Option<Port>): seq<Event> {
    (if forwarder.Some? && port.Some? then [Started(forwarder.value, port.value)] else [])
    + (if inner.Some? && port.Some? then [Made(inner.value, port.value)] else [])
  }

  ghost predicate Unused(log: seq<Event>, next: Id) {
    forall e :: e in log && (e.Started? || e.Made?) ==> e.id < next
  }

  lemma {:induction false} TriedNext(log: seq<Event>, next: Id, action: Action, outcome: Option<Failure>)
    requires Orderly(log) && Unused(log, next) && InTurn(action, Owed(log))
    ensures var then' := log + [Tried(action, outcome)];
            Orderly(then') && Unused(then', next) && Owed(then') == Owed(log) - {action}
  {
    assert (log + [Tried(action, outcome)])[..|log|] == log;
  }

  lemma {:induction false} BrokeNext(log: seq<Event>, next: Id, failure: Failure)
    requires Orderly(log) && Unused(log, next)
    ensures var then' := log + [Broke(failure)];
            Orderly(then') && Unused(then', next) && Owed(then') == Owed(log)
  {
    assert (log + [Broke(failure)])[..|log|] == log;
  }

  lemma {:induction false} StartedNext(log: seq<Event>, next: Id, port: Port)
    requires Orderly(log) && Unused(log, next)
    ensures var then' := log + [Started(next, port)];
            Orderly(then') && Unused(then', next + 1)
              && Owed(then') == Owed(log) + {RequestStop(next), WaitStopped(next)}
  {
    assert (log + [Started(next, port)])[..|log|] == log;
  }

  lemma {:induction false} MadeNext(log: seq<Event>, next: Id, port: Port)
    requires Orderly(log) && Unused(log, next)
    ensures var then' := log + [Made(next, port)];
            Orderly(then') && Unused(then', next + 1) && Owed(then') == Owed(log) + {InnerDisconnect(next)}
  {
    assert (log + [Made(next, port)])[..|log|] == log;
  }

  function Cause(failure: Option<Failure>): seq<Event> {
    if failure.Some? then [Broke(failure.value)] else []
  }

  /** From `before` these came into being, then building failed, and they were all cleaned up again. */
  ghost predicate Reverted(before: seq<Event>, after: seq<Event>, undone: seq<Event>,
                           inner: Option<Id>, forwarder: Option<Id>, port: Option<Port>, cause: Option<Failure>) {
    after == before + Built(inner, forwarder, port) + Cause(cause) + undone
      && Performed(undone, Plan(inner, forwarder, true))
  }

  // ---------------------------------------------------------------- the connection

  /** What made connect fail, when it was not the teardown. */
  function OwnCause(torn: seq<Event>, failure: Option<Failure>): Option<Failure> {
    if Raised(torn).Some? then None else failure
  }

  function Raising(failure: Option<Failure>): seq<Failure> { if failure.Some? then [failure.value] else [] }

  class TunnelledConnection {
    var inner: Option<Id>
    var forwarder: Option<Id>
    var localPort: Option<Port>
    var sshUp: bool       // the SSH connection under the tunnel is connected
    var innerUp: bool     // so is the inner connection
    var log: seq<Event>
    var next: Id
    var faults: seq<Failure>   // what the calls of connect() raised, the cleanups apart
    var sshConnects: nat       // how often ssh.connect() was called

    /** What is held is exactly what still needs cleaning up. */
    ghost predicate Valid()
      reads this
    {
      && Orderly(log) && Owed(log) == HeldCleanups(inner, forwarder)
      && Unused(log, next)
      && (innerUp ==> inner.Some?) && (inner.Some? ==> forwarder.Some?) && (forwarder.Some? <==> localPort.Some?)
    }

    ghost predicate HoldsNothing()
      reads this
    {
      inner.None? && forwarder.None? && localPort.None? && !innerUp && Owed(log) == {}
    }

    constructor ()
      ensures Valid() && HoldsNothing() && log == []
    {
      inner, forwarder, localPort, sshUp, innerUp, log, next := None, None, None, false, false, [], 0;
      faults, sshConnects := [], 0;
    }

    /** Any call into a part of the tunnel: it may raise. */
    method Call() returns (failure: Option<Failure>)
      modifies `faults
      ensures faults == old(faults) + Raising(failure)
    {
      failure := *;
      faults := faults + Raising(failure);
    }

    method Attempt(action: Action) returns (failure: Option<Failure>)
      requires Orderly(log) && InTurn(action, Owed(log)) && Unused(log, next)
      modifies `log, `sshUp
      ensures sshUp == (old(sshUp) && !action.SshDisconnect?)
      ensures log == old(log) + [Tried(action, failure)] && Orderly(log) && Unused(log, next)
      ensures Owed(log) == old(Owed(log)) - {action}
    {
      failure := *;
      if action.SshDisconnect? { sshUp := false; }   // it gives its client up even when closing fails
      TriedNext(log, next, action, failure);
      log := log + [Tried(action, failure)];
    }

    /** One round of the teardown's loop. */
    method AttemptNext(actions: seq<Action>, i: nat) returns (failure: Option<Failure>)
      requires i < |actions| && InTurnAt(actions, i)
      requires Orderly(log) && Unused(log, next) && Owed(log) == Rest(actions[i..])
      modifies `log, `sshUp
      ensures Orderly(log) && Unused(log, next) && Owed(log) == Rest(actions[i + 1..])
      ensures log == old(log) + [Tried(actions[i], failure)]
      ensures sshUp == (old(sshUp) && !actions[i].SshDisconnect?)
    {
      failure := Attempt(actions[i]);
    }

    /** The loop of the teardown. */
    method AttemptAll(actions: seq<Action>) returns (failure: Option<Failure>, ghost done: seq<Event>)
      requires Orderly(log) && Unused(log, next) && Owed(log) == Rest(actions)
      requires forall i :: 0 <= i < |actions| ==> InTurnAt(actions, i)
      modifies `log, `sshUp
      ensures sshUp == (old(sshUp) && SshDisconnect !in actions)
      ensures Orderly(log) && Unused(log, next) && Owed(log) == {}
      ensures log == old(log) + done && Performed(done, actions) && failure == Raised(done)
    {
      failure, done := None, [];
      assert actions[0..] == actions && actions[..0] == [];
      for i := 0 to |actions|
        invariant Orderly(log) && Unused(log, next) && Owed(log) == Rest(actions[i..])
        invariant log == old(log) + done && sshUp == (old(sshUp) && SshDisconnect !in actions[..i])
        invariant Performed(done, actions[..i]) && failure == Raised(done)
      {
        var outcome := AttemptNext(actions, i);
        failure := Keep(failure, outcome);
        PerformedNext(done, actions, i, outcome);
        done := done + [Tried(actions[i], outcome)];
      }
      assert actions[..|actions|] == actions;
    }

    /** Every action is attempted, in order, whichever of them raise. */
    method Teardown(closeSsh: bool) returns (failure: Option<Failure>, ghost done: seq<Event>)
      requires Valid()
      modifies `inner, `forwarder, `localPort, `sshUp, `innerUp, `log
      ensures Valid() && HoldsNothing() && sshUp == (old(sshUp) && !closeSsh)
      ensures log == old(log) + done && Performed(done, old(Plan(inner, forwarder, closeSsh)))
              && failure == Raised(done)
    {
      var actions := Plan(inner, forwarder, closeSsh);
      PlanClimbs(inner, forwarder, closeSsh);
      PlanIsWhatIsHeld(inner, forwarder, closeSsh);
      forall i | 0 <= i < |actions| ensures InTurnAt(actions, i) { ClimbingIsInTurn(actions, i); }
      inner, forwarder, localPort, innerUp := None, None, None, false;
      failure, done := AttemptAll(actions);
    }

    method Disconnect() returns (failure: Option<Failure>, ghost done: seq<Event>)
      requires Valid()
      modifies `inner, `forwarder, `localPort, `sshUp, `innerUp, `log
      ensures Valid() && HoldsNothing() && !sshUp
      ensures log == old(log) + done && Performed(done, old(Plan(inner, forwarder, true))) && failure == Raised(done)
    {
      failure, done := Teardown(true);
    }

    /** The forwarder's constructor, over the transport of the SSH client; it may fail to bind its listener. */
    method StartForwarder(client: Option<Id>) returns (failure: Option<Failure>)
      requires Valid() && HoldsNothing() && sshUp && client.Some?
      modifies `forwarder, `localPort, `log, `next, `faults
      ensures Valid() && inner.None? && faults == old(faults) + Raising(failure)
      ensures failure.Some? ==> log == old(log) && forwarder.None?
      ensures failure.None? ==> && forwarder.Some? && localPort.Some?
                                && log == old(log) + [Started(forwarder.value, localPort.value)]
    {
      failure := Call();
      if failure.Some? { return; }
      var port: int := *;
      port := Max(port, 0);
      forwarder, localPort := Some(next), Some(port);
      StartedNext(log, next, port);
      log := log + [Started(next, port)];
      next := next + 1;
    }

    /** The inner connection is made for the forwarder's port. */
    method MakeInner(port: Port) returns (failure: Option<Failure>)
      requires Valid() && inner.None? && forwarder.Some? && localPort == Some(port)
      modifies `inner, `log, `next, `faults
      ensures Valid() && faults == old(faults) + Raising(failure)
      ensures failure.Some? ==> log == old(log) && inner.None?
      ensures failure.None? ==> inner.Some? && log == old(log) + [Made(inner.value, port)]
    {
      failure := Call();
      if failure.Some? { return; }
      inner := Some(next);
      MadeNext(log, next, port);
      log := log + [Made(next, port)];
      next := next + 1;
    }

    method EnsureSsh() returns (failure: Option<Failure>)
      requires Valid()
      modifies `sshUp, `sshConnects, `faults
      ensures Valid() && (failure.None? ==> sshUp) && faults == old(faults) + Raising(failure)
      ensures sshConnects == old(sshConnects) + if old(sshUp) then 0 else 1
    {
      if sshUp { return None; }
      sshConnects := sshConnects + 1;
      failure := Call();   // ssh.connect()
      sshUp := failure.None?;
    }

    /** ssh.client, without which there is nothing to tunnel through. */
    method TakeClient() returns (client: Option<Id>, failure: Option<Failure>)
      modifies `faults
      ensures faults == old(faults) + Raising(failure) && (failure.None? <==> client.Some?)
    {
      client, failure := *, None;
      if client.None? {
        failure := Some(Other(0));
        faults := faults + [Other(0)];
      }
    }

    /** The client of the SSH connection, which is connected first if it is not. */
    method EnsureClient() returns (client: Option<Id>, failure: Option<Failure>)
      requires Valid() && HoldsNothing()
      modifies `sshUp, `sshConnects, `faults
      ensures Valid() && HoldsNothing() && (failure.None? ==> sshUp && client.Some?)
      ensures faults == old(faults) + Raising(failure) && sshConnects == old(sshConnects) + if old(sshUp) then 0 else 1
    {
      client := None;
      failure := EnsureSsh();
      if failure.None? { client, failure := TakeClient(); }
    }

    /**
     The rest of the `try` block of connect, after the teardown.
     */
    method BuildParts() returns (failure: Option<Failure>)
      requires Valid() && HoldsNothing()
      modifies this
      ensures Valid() && log == old(log) + Built(inner, forwarder, localPort)
      ensures faults == old(faults) + Raising(failure) && sshConnects == old(sshConnects) + if old(sshUp) then 0 else 1
      ensures failure.None? ==> inner.Some? && forwarder.Some? && localPort.Some? && sshUp && innerUp
    {
      var client;
      client, failure := EnsureClient();
      if failure.Some? { return; }
      failure := StartForwarder(client);
      if failure.None? { failure := ConnectInner(localPort.value); }
    }

    method ConnectInner(port: Port) returns (failure: Option<Failure>)
      requires Valid() && inner.None? && forwarder.Some? && localPort == Some(port)
      modifies `inner, `innerUp, `log, `next, `faults
      ensures Valid() && faults == old(faults) + Raising(failure)
      ensures log == old(log) + if inner.Some? then [Made(inner.value, port)] else []
      ensures failure.None? ==> inner.Some? && innerUp
    {
      failure := MakeInner(port);
      if failure.Some? { return; }
      failure := Call();   // inner.connect()
      innerUp := failure.None?;
    }

    method Build() returns (failure: Option<Failure>)
      requires Valid() && HoldsNothing()
      modifies this
      ensures Valid() && log == old(log) + Built(inner, forwarder, localPort) + Cause(failure)
      ensures faults == old(faults) + Raising(failure) && sshConnects == old(sshConnects) + if old(sshUp) then 0 else 1
      ensures failure.None? ==> inner.Some? && forwarder.Some? && localPort.Some? && sshUp && innerUp
    {
      failure := BuildParts();
      if failure.Some? {
        BrokeNext(log, next, failure.value);
        log := log + [Broke(failure.value)];
      }
    }

    /** The `try` block of connect. */
    method TryConnect() returns (failure: Option<Failure>, ghost torn: seq<Event>)
      requires Valid()
      modifies this
      ensures Valid() && Performed(torn, old(Plan(inner, forwarder, false)))
      ensures log == old(log) + torn + Built(inner, forwarder, localPort) + Cause(OwnCause(torn, failure))
      ensures Raised(torn).Some? ==> HoldsNothing() && failure == Raised(torn)
      ensures faults == old(faults) + Raising(OwnCause(torn, failure))
      ensures sshConnects == old(sshConnects) + if Raised(torn).Some? || old(sshUp) then 0 else 1
      ensures failure.None? ==> inner.Some? && forwarder.Some? && localPort.Some? && sshUp && innerUp
    {
      failure, torn := Teardown(false);
      if failure.None? { failure := Build(); }
    }

    /** The `except` block of connect; a failure of the cleanup becomes a note on the first error. */
    method Revert(ghost base: seq<Event>, ghost cause: Option<Failure>) returns (ghost undone: seq<Event>)
      requires Valid() && log == base + Built(inner, forwarder, localPort) + Cause(cause)
      modifies `inner, `forwarder, `localPort, `sshUp, `innerUp, `log
      ensures Valid() && HoldsNothing() && !sshUp
      ensures Reverted(base, log, undone, old(inner), old(forwarder), old(localPort), cause)
    {
      var _, done := Disconnect();
      undone := done;
    }

    /**
     What was there is torn down, only the SSH connection stays up. On success a new forwarder and a
     new inner connection are held, and the second was made for the port of the first. On any failure
     everything built so far is cleaned up again, and the SSH connection too, so that nothing is held.
     The error raised is the first one, of the teardown or of a call that raised: what the cleanup raises never
     replaces it. The SSH connection is connected only when it is not.
     */
    method Connect() returns (failure: Option<Failure>, ghost torn: seq<Event>, ghost undone: seq<Event>)
      requires Valid()
      modifies this
      ensures Valid()
      ensures Performed(torn, old(Plan(inner, forwarder, false)))
      ensures Raised(torn).Some? ==>
                HoldsNothing() && failure == Raised(torn)
                  && Reverted(old(log) + torn, log, undone, None, None, None, None)
      ensures Raised(torn).None? && failure.Some? ==>
                HoldsNothing() && exists i, f, p :: Reverted(old(log) + torn, log, undone, i, f, p, failure)
      ensures faults == old(faults) + Raising(OwnCause(torn, failure))
      ensures sshConnects == old(sshConnects) + if Raised(torn).Some? || old(sshUp) then 0 else 1
      ensures failure.Some? ==> !sshUp
      ensures failure.None? ==> && inner.Some? && forwarder.Some? && localPort.Some? && sshUp && innerUp
                                && log == old(log) + torn + Built(inner, forwarder, localPort)
    {
      failure, torn := TryConnect();
      undone := [];
      if failure.Some? {
        ghost var i, f, p := inner, forwarder, localPort;
        undone := Revert(old(log) + torn, OwnCause(torn, failure));
        assert Reverted(old(log) + torn, log, undone, i, f, p, OwnCause(torn, failure));
      }
    }
  }

  datatype Operation = DoConnect | DoDisconnect

  /** Any run of connects and disconnects, failing wherever they like: after a disconnect nothing is owed. */
  method RunAll(connection: TunnelledConnection, operations: seq<Operation>)
    requires connection.Valid()
    modifies connection
    ensures connection.Valid()
    ensures operations != [] && operations[|operations| - 1].DoDisconnect? ==> connection.HoldsNothing()
  {
    for i := 0 to |operations|
      invariant connection.Valid()
      invariant i > 0 && operations[i - 1].DoDisconnect? ==> connection.HoldsNothing()
    {
      match operations[i] {
        case DoConnect => var _, _, _ := connection.Connect();
        case DoDisconnect => var _, _ := connection.Disconnect();
      }
    }
  }
}
