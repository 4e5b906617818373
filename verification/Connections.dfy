/**
 The SSH and SFTP connections (connections/ssh.py, connections/sftp.py) under arbitrary native
 failures: any call into paramiko may raise, also an exception that is no Exception.

 Every client and channel that paramiko hands out, and every close() the connections attempt, goes
 into one log; what is open at any time is a function of that log.
 */
module Connections {
  import opened Common

  type Id = nat

  /** What a native call raises. */
  datatype Raised = SocketTimeout | AnyException | NoException

  /** What a connection raises: an error of the library, or what it got. */
  datatype Failure = Timeout | ConnectionFailed | BadPolicy | AsRaised(raised: Raised)

  /** What was handed out, what was attempted on it and what that raised, and which step was refused. */
  datatype Event =
    | ClientOpened(id: Id)
    | ClientMissing(reason: Raised)                       // SSHClient() raised
    | Prepared(id: Id, raised: Option<Raised>)            // the host keys and the policy for unknown ones
    | Authenticated(id: Id, raised: Option<Raised>)       // client.connect()
    | ClientClosed(id: Id, raised: Option<Raised>)
    | ChannelOpened(id: Id)
    | ChannelMissing(reason: Raised)                      // open_sftp() raised
    | ChannelClosed(id: Id, raised: Option<Raised>)
    | Refused(failure: Failure)

  /** The clients, or the channels, that were handed out and not yet tried to close. */
  function OpenClients(log: seq<Event>): set<Id> {
    if log == [] then {}
    else
      var before := OpenClients(log[..|log| - 1]);
      match log[|log| - 1]
      case ClientOpened(id) => before + {id}
      case ClientClosed(id, _) => before - {id}
      case _ => before
  }

  function OpenChannels(log: seq<Event>): set<Id> {
    if log == [] then {}
    else
      var before := OpenChannels(log[..|log| - 1]);
      match log[|log| - 1]
      case ChannelOpened(id) => before + {id}
      case ChannelClosed(id, _) => before - {id}
      case _ => before
  }

  /**
   A log in which ids are new when handed out, only open things are closed, and a client is closed
   only when no channel over it is open any more.
   */
  ghost predicate Orderly(log: seq<Event>) {
    log == [] ||
    var before := log[..|log| - 1];
    && Orderly(before)
    && match log[|log| - 1]
       case ClientOpened(id) => ClientOpened(id) !in before
       case ChannelOpened(id) => ChannelOpened(id) !in before
       case Prepared(id, _) => id in OpenClients(before)
       case Authenticated(id, _) => id in OpenClients(before)
       case ClientClosed(id, _) => id in OpenClients(before) && OpenChannels(before) == {}
       case ChannelClosed(id, _) => id in OpenChannels(before)
       case _ => true
  }

  function Held(x: Option<Id>): set<Id> { if x.Some? then {x.value} else {} }

  /** Only an Exception is turned into the library's own error; anything else passes through. */
  function AsConnectionFailed(raised: Raised): Failure {
    if raised.NoException? then AsRaised(raised) else ConnectionFailed
  }

  /** The same for client.connect(), whose timeout has an error of its own. */
  function AsConnectError(raised: Raised): Failure {
    if raised.SocketTimeout? then Timeout else AsConnectionFailed(raised)
  }

  function ErrorOf(e: Event): Option<Failure> {
    match e
    case Refused(failure) => Some(failure)
    case ClientMissing(raised) => Some(AsRaised(raised))
    case Prepared(_, Some(raised)) => Some(AsRaised(raised))
    case Authenticated(_, Some(raised)) => Some(AsConnectError(raised))
    case ChannelMissing(raised) => Some(AsConnectionFailed(raised))
    case ClientClosed(_, Some(raised)) => Some(AsConnectionFailed(raised))
    case ChannelClosed(_, Some(raised)) => Some(AsConnectionFailed(raised))
    case _ => None
  }

  /** The first thing that went wrong. */
  function FirstError(events: seq<Event>): Option<Failure> {
    if events == [] then None
    else if ErrorOf(events[0]).Some? then ErrorOf(events[0])
    else FirstError(events[1..])
  }

  lemma {:induction false} FirstErrorStays(first: seq<Event>, later: seq<Event>)
    ensures FirstError(first + later) == if FirstError(first).Some? then FirstError(first) else FirstError(later)
  {
    if first == [] {
      assert first + later == later;
    } else {
      assert (first + later)[1..] == first[1..] + later;
      FirstErrorStays(first[1..], later);
    }
  }

  /** paramiko, and the log of what it was asked for. */
  class World {
    var log: seq<Event>
    var next: Id
    var authenticated: set<Id>   // the clients whose connect() succeeded

    ghost predicate Valid()
      reads this
    {
      Orderly(log) && forall e :: e in log && (e.ClientOpened? || e.ChannelOpened?) ==> e.id < next
    }

    constructor ()
      ensures Valid() && log == []
    {
      log, next, authenticated := [], 0, {};
    }

    method Record(e: Event)
      modifies this`log
      ensures log == old(log) + [e] && log[..|log| - 1] == old(log)
    {
      log := log + [e];
      assert log[..|log| - 1] == old(log);
    }

    method NewClient() returns (r: Result<Id, Raised>)
      requires Valid()
      modifies this`log, this`next
      ensures Valid() && OpenChannels(log) == OpenChannels(old(log))
      ensures log == old(log) + [if r.Ok? then ClientOpened(r.value) else ClientMissing(r.error)]
      ensures OpenClients(log) == OpenClients(old(log)) + if r.Ok? then {r.value} else {}
    {
      var raised: Option<Raised> := *;
      if raised.Some? {
        Record(ClientMissing(raised.value));
        return Err(raised.value);
      }
      r := Ok(next);
      Record(ClientOpened(next));
      next := next + 1;
    }

    method NewChannel() returns (r: Result<Id, Raised>)
      requires Valid()
      modifies this`log, this`next
      ensures Valid() && OpenClients(log) == OpenClients(old(log))
      ensures log == old(log) + [if r.Ok? then ChannelOpened(r.value) else ChannelMissing(r.error)]
      ensures OpenChannels(log) == OpenChannels(old(log)) + if r.Ok? then {r.value} else {}
    {
      var raised: Option<Raised> := *;
      if raised.Some? {
        Record(ChannelMissing(raised.value));
        return Err(raised.value);
      }
      r := Ok(next);
      Record(ChannelOpened(next));
      next := next + 1;
    }

    method CloseClient(id: Id) returns (raised: Option<Raised>)
      requires Valid() && id in OpenClients(log) && OpenChannels(log) == {}
      modifies this`log
      ensures Valid() && log == old(log) + [ClientClosed(id, raised)]
      ensures OpenClients(log) == OpenClients(old(log)) - {id} && OpenChannels(log) == {}
    {
      OpenWasOpened(log, id);
      raised := *;
      Record(ClientClosed(id, raised));
    }

    method CloseChannel(id: Id) returns (raised: Option<Raised>)
      requires Valid() && id in OpenChannels(log)
      modifies this`log
      ensures Valid() && log == old(log) + [ChannelClosed(id, raised)]
      ensures OpenChannels(log) == OpenChannels(old(log)) - {id} && OpenClients(log) == OpenClients(old(log))
    {
      OpenWasOpened(log, id);
      raised := *;
      Record(ChannelClosed(id, raised));
    }

    /** A step that failed. */
    method Refuse(failure: Failure)
      requires Valid()
      modifies this`log
      ensures Valid() && log == old(log) + [Refused(failure)]
      ensures OpenClients(log) == OpenClients(old(log)) && OpenChannels(log) == OpenChannels(old(log))
    {
      Record(Refused(failure));
    }

    /** load_system_host_keys, set_missing_host_key_policy and load_host_keys. */
    method PrepareClient(id: Id) returns (raised: Option<Raised>)
      requires Valid() && id in OpenClients(log)
      modifies this`log
      ensures Valid() && log == old(log) + [Prepared(id, raised)]
      ensures OpenClients(log) == OpenClients(old(log)) && OpenChannels(log) == OpenChannels(old(log))
    {
      raised := *;
      Record(Prepared(id, raised));
    }

    method ConnectClient(id: Id) returns (raised: Option<Raised>)
      requires Valid() && id in OpenClients(log)
      modifies this`log, this`authenticated
      ensures Valid() && log == old(log) + [Authenticated(id, raised)]
      ensures OpenClients(log) == OpenClients(old(log)) && OpenChannels(log) == OpenChannels(old(log))
      ensures authenticated == old(authenticated) + if raised.None? then {id} else {}
    {
      raised := *;
      Record(Authenticated(id, raised));
      if raised.None? { authenticated := authenticated + {id}; }
    }
  }

  lemma {:induction false} OpenWasOpened(log: seq<Event>, id: Id)
    ensures id in OpenClients(log) ==> ClientOpened(id) in log
    ensures id in OpenChannels(log) ==> ChannelOpened(id) in log
  {
    if log != [] {
      OpenWasOpened(log[..|log| - 1], id);
      assert log == log[..|log| - 1] + [log[|log| - 1]];
    }
  }

  /** What is done with a new client, up to the step that raises; and which error each native failure becomes. */
  predicate SettingUp(events: seq<Event>, failure: Option<Failure>) {
    && |events| > 1 && events[0].ClientOpened? && events[1].Prepared? && events[1].id == events[0].id
    && if events[1].raised.Some? then |events| == 2 && failure == Some(AsRaised(events[1].raised.value))
       else
         && |events| == 3 && events[2].Authenticated? && events[2].id == events[0].id
         && match events[2].raised
            case None => failure == None
            case Some(SocketTimeout) => failure == Some(Timeout)
            case Some(AnyException) => failure == Some(ConnectionFailed)
            case Some(NoException) => failure == Some(AsRaised(NoException))
  }

  /** Opening a client; a client whose set-up failed is closed again. */
  predicate Opening(events: seq<Event>, failure: Option<Failure>, policyKnown: bool) {
    if !policyKnown then events == [Refused(BadPolicy)] && failure == Some(BadPolicy)
    else if failure.None? then SettingUp(events, failure)
    else if |events| == 1 then events[0].ClientMissing? && failure == Some(AsRaised(events[0].reason))
    else
      && |events| > 1 && SettingUp(events[..|events| - 1], failure)
      && events[|events| - 1].ClientClosed? && events[|events| - 1].id == events[0].id
  }

  /** The error that a failing close(), or open_sftp(), becomes. */
  predicate CloseError(raised: Option<Raised>, failure: Option<Failure>) {
    match raised
    case None => failure == None
    case Some(NoException) => failure == Some(AsRaised(NoException))
    case Some(_) => failure == Some(ConnectionFailed)
  }

  class SSHConnection {
    const world: World
    const paramiko: bool       // can be imported
    const policyKnown: bool    // the host key policy name is one of the three
    var client: Option<Id>

    /** The one open client is the one this connection holds. */
    ghost predicate Owns()
      reads this, world
    {
      && world.Valid() && OpenClients(world.log) == Held(client)
      && (!paramiko ==> client.None?)
    }

    /** Between calls it is also authenticated. */
    ghost predicate Valid()
      reads this, world
    {
      Owns() && (client.Some? ==> client.value in world.authenticated)
    }

    constructor (world: World, paramiko: bool, policyKnown: bool)
      requires world.Valid() && world.log == []
      ensures Valid() && client == None && this.world == world
    {
      this.world, this.paramiko, this.policyKnown, client := world, paramiko, policyKnown, None;
    }

    method Disconnect() returns (failure: Option<Failure>, ghost events: seq<Event>)
      requires Owns() && OpenChannels(world.log) == {}
      modifies this`client, world`log
      ensures Valid() && client.None? && OpenChannels(world.log) == {}
      ensures world.log == old(world.log) + events && failure == FirstError(events)
      ensures if old(client).Some? then
                && |events| == 1 && events[0].ClientClosed? && events[0].id == old(client).value
                && CloseError(events[0].raised, failure)
              else events == []
    {
      var held := client;
      client, events := None, [];
      if held.None? { return None, []; }
      var raised := world.CloseClient(held.value);
      failure := if raised.Some? then Some(AsConnectionFailed(raised.value)) else None;
      events := [ClientClosed(held.value, raised)];
    }

    /** Held afterwards: a client that is new, or nothing. The error is the first one. */
    method Connect() returns (failure: Option<Failure>, ghost events: seq<Event>)
      requires Valid() && OpenChannels(world.log) == {}
      modifies this`client, world
      ensures Valid() && OpenChannels(world.log) == {}
      ensures world.log == old(world.log) + events && failure == FirstError(events)
      ensures failure.None? ==> client.Some? && ClientOpened(client.value) in events
      ensures failure.Some? ==> client.None?
      // without paramiko nothing is done; a client that is held is closed first, and only then another is opened
      ensures !paramiko ==> events == [Refused(ConnectionFailed)]
      ensures paramiko && old(client).None? ==> Opening(events, failure, policyKnown)
      ensures paramiko && old(client).Some? ==>
                && events != [] && events[0].ClientClosed? && events[0].id == old(client).value
                && if events[0].raised.Some? then |events| == 1 else Opening(events[1..], failure, policyKnown)
    {
      if !paramiko {
        world.Refuse(ConnectionFailed);
        return Some(ConnectionFailed), [Refused(ConnectionFailed)];
      }
      failure, events := None, [];
      if client.Some? {
        failure, events := Disconnect();
        if failure.Some? { return; }
      }
      ghost var torn := events;
      failure, events := OpenClient();
      FirstErrorStays(torn, events);
      assert (torn + events)[|torn|..] == events;
      events := torn + events;
    }

    /** The rest of connect, from the choice of the host key policy on. */
    method OpenClient() returns (failure: Option<Failure>, ghost events: seq<Event>)
      requires Valid() && client.None? && OpenChannels(world.log) == {} && paramiko
      modifies this`client, world
      ensures Valid() && OpenChannels(world.log) == {}
      ensures world.log == old(world.log) + events && failure == FirstError(events)
      ensures failure.None? ==> client.Some? && events != [] && events[0] == ClientOpened(client.value)
      ensures failure.Some? ==> client.None?
      ensures Opening(events, failure, policyKnown)
    {
      if !policyKnown {
        world.Refuse(BadPolicy);
        return Some(BadPolicy), [Refused(BadPolicy)];
      }
      var made := world.NewClient();
      if made.Err? { return Some(AsRaised(made.error)), [ClientMissing(made.error)]; }
      client, events := Some(made.value), [ClientOpened(made.value)];
      ghost var steps;
      failure, steps := SetUp();
      events := events + steps;
      if failure.Some? { events := GiveUp(events, failure); }
    }

    /** The `except` block: a failure of the cleanup becomes a note on the first error. */
    method GiveUp(ghost soFar: seq<Event>, ghost failure: Option<Failure>) returns (ghost events: seq<Event>)
      requires Owns() && client.Some? && OpenChannels(world.log) == {}
      requires failure.Some? && FirstError(soFar) == failure
      modifies this`client, world`log
      ensures Valid() && client.None? && OpenChannels(world.log) == {} && FirstError(events) == failure
      ensures |events| == |soFar| + 1 && events[..|soFar|] == soFar && world.log == old(world.log) + events[|soFar|..]
      ensures events[|soFar|].ClientClosed? && events[|soFar|].id == old(client).value
    {
      var _, closed := Disconnect();
      FirstErrorStays(soFar, closed);
      events := soFar + closed;
    }

    /** The `try` block of connect. */
    method SetUp() returns (failure: Option<Failure>, ghost steps: seq<Event>)
      requires Owns() && client.Some? && OpenChannels(world.log) == {}
      modifies world`log, world`authenticated
      ensures Owns() && OpenChannels(world.log) == {} && world.log == old(world.log) + steps
      ensures SettingUp([ClientOpened(client.value)] + steps, failure) && failure == FirstError(steps)
      ensures failure.None? ==> client.value in world.authenticated
    {
      var raised := world.PrepareClient(client.value);
      steps := [Prepared(client.value, raised)];
      if raised.Some? { return Some(AsRaised(raised.value)), steps; }
      raised := world.ConnectClient(client.value);
      steps := steps + [Authenticated(client.value, raised)];
      FirstErrorStays([Prepared(client.value, None)], [Authenticated(client.value, raised)]);
      failure := if raised.Some? then Some(AsConnectError(raised.value)) else None;
    }
  }

  class SFTPConnection {
    const ssh: SSHConnection
    var channel: Option<Id>

    ghost predicate Valid()
      reads this, ssh, ssh.world
    {
      ssh.Valid() && OpenChannels(ssh.world.log) == Held(channel) && (channel.Some? ==> ssh.client.Some?)
    }

    constructor (ssh: SSHConnection)
      requires ssh.Valid() && OpenChannels(ssh.world.log) == {}
      ensures Valid() && channel == None && this.ssh == ssh
    {
      this.ssh, channel := ssh, None;
    }

    method CloseChannel() returns (failure: Option<Failure>, ghost events: seq<Event>)
      requires Valid()
      modifies this`channel, ssh.world
      ensures Valid() && channel.None?
      ensures ssh.world.log == old(ssh.world.log) + events && failure == FirstError(events)
      ensures if old(channel).Some? then
                && |events| == 1 && events[0].ChannelClosed? && events[0].id == old(channel).value
                && CloseError(events[0].raised, failure)
              else events == []
    {
      var held := channel;
      channel := None;
      if held.None? { return None, []; }
      var raised := ssh.world.CloseChannel(held.value);
      failure := if raised.Some? then Some(AsConnectionFailed(raised.value)) else None;
      events := [ChannelClosed(held.value, raised)];
    }

    /** Both are released whatever raises: the channel first, then the client; the first error is reported. */
    method Disconnect() returns (failure: Option<Failure>, ghost events: seq<Event>)
      requires Valid()
      modifies this`channel, ssh`client, ssh.world
      ensures Valid() && channel.None? && ssh.client.None?
      ensures ssh.world.log == old(ssh.world.log) + events && failure == FirstError(events)
      ensures |events| == |Held(old(channel))| + |Held(old(ssh.client))|
      ensures old(channel).Some? ==> events[0].ChannelClosed? && events[0].id == old(channel).value
      ensures old(ssh.client).Some? ==>
                events[|events| - 1].ClientClosed? && events[|events| - 1].id == old(ssh.client).value
    {
      failure, events := CloseChannel();
      var second, closed := ssh.Disconnect();
      FirstErrorStays(events, closed);
      if failure.None? { failure := second; }
      events := events + closed;
    }

    /**
     Held afterwards: a new channel over a client, or nothing. The error is the first one. A client that is
     connected stays the same, and nothing is done but to close the old channel and to open the new one.
     */
    method Connect() returns (failure: Option<Failure>, ghost events: seq<Event>)
      requires Valid()
      modifies this`channel, ssh`client, ssh.world
      ensures Valid() && ssh.world.log == old(ssh.world.log) + events && failure == FirstError(events)
      ensures failure.None? ==>
                channel.Some? && ssh.client.Some? && events != []
                  && events[|events| - 1] == ChannelOpened(channel.value)
      ensures failure.Some? ==> channel.None? && ssh.client.None?
      ensures failure.None? && old(ssh.client).Some? ==>
                ssh.client == old(ssh.client) && |events| <= |Held(old(channel))| + 1
    {
      failure, events := OpenChannel();
      if failure.Some? {
        var _, closed := Disconnect();   // a failure of the cleanup becomes a note on the first error
        FirstErrorStays(events, closed);
        events := events + closed;
      }
    }

    /** The `try` block of connect. */
    method OpenChannel() returns (failure: Option<Failure>, ghost events: seq<Event>)
      requires Valid()
      modifies this`channel, ssh`client, ssh.world
      ensures Valid() && ssh.world.log == old(ssh.world.log) + events && failure == FirstError(events)
      ensures failure.None? ==>
                channel.Some? && ssh.client.Some? && events != []
                  && events[|events| - 1] == ChannelOpened(channel.value)
      ensures failure.Some? ==> channel.None?
      ensures old(ssh.client).Some? ==> ssh.client == old(ssh.client) && |events| <= |Held(old(channel))| + 1
    {
      failure, events := CloseChannel();
      if failure.Some? { return; }
      ghost var before := events;
      failure, events := StartChannel();
      FirstErrorStays(before, events);
      events := before + events;
    }

    /** A new channel over the client, which is connected first if it is not. */
    method StartChannel() returns (failure: Option<Failure>, ghost events: seq<Event>)
      requires Valid() && channel.None?
      modifies this`channel, ssh`client, ssh.world
      ensures Valid() && ssh.world.log == old(ssh.world.log) + events && failure == FirstError(events)
      ensures failure.None? ==>
                channel.Some? && ssh.client.Some? && events != []
                  && events[|events| - 1] == ChannelOpened(channel.value)
      ensures failure.Some? ==> channel.None?
      ensures old(ssh.client).Some? ==> ssh.client == old(ssh.client) && |events| == 1
    {
      failure, events := None, [];
      if ssh.client.None? {
        failure, events := ssh.Connect();
        if failure.Some? { return; }
      }
      ghost var before := events;
      failure, events := OpenSftp();
      FirstErrorStays(before, events);
      events := before + events;
    }

    /** client.open_sftp() */
    method OpenSftp() returns (failure: Option<Failure>, ghost events: seq<Event>)
      requires Valid() && channel.None? && ssh.client.Some?
      modifies this`channel, ssh.world
      ensures Valid() && ssh.world.log == old(ssh.world.log) + events && failure == FirstError(events)
      ensures failure.None? ==> channel.Some? && events == [ChannelOpened(channel.value)]
      ensures failure.Some? ==>
                channel.None? && |events| == 1 && events[0].ChannelMissing?
                  && CloseError(Some(events[0].reason), failure)
    {
      var answer := ssh.world.NewChannel();
      match answer {
        case Ok(id) =>
          channel, failure := Some(id), None;
          events := [ChannelOpened(id)];
        case Err(raised) =>
          failure := Some(AsConnectionFailed(raised));
          events := [ChannelMissing(raised)];
      }
    }
  }

  // ---------------------------------------------------------------- what an orderly log means

  predicate Opens(e: Event, id: Id, channel: bool) {
    if channel then e == ChannelOpened(id) else e == ClientOpened(id)
  }

  predicate Closes(e: Event, id: Id, channel: bool) {
    if channel then e.ChannelClosed? && e.id == id else e.ClientClosed? && e.id == id
  }

  function Opened(log: seq<Event>, id: Id, channel: bool): nat {
    if log == [] then 0 else Opened(log[..|log| - 1], id, channel) + if Opens(log[|log| - 1], id, channel) then 1 else 0
  }

  function Closed(log: seq<Event>, id: Id, channel: bool): nat {
    if log == [] then 0
    else Closed(log[..|log| - 1], id, channel) + if Closes(log[|log| - 1], id, channel) then 1 else 0
  }

  function Open(log: seq<Event>, channel: bool): set<Id> { if channel then OpenChannels(log) else OpenClients(log) }

  lemma {:induction false} CountedIsIn(log: seq<Event>, id: Id, channel: bool)
    ensures Opened(log, id, channel) > 0 <==> exists i :: 0 <= i < |log| && Opens(log[i], id, channel)
    ensures Closed(log, id, channel) > 0 <==> exists i :: 0 <= i < |log| && Closes(log[i], id, channel)
  {
    if log != [] {
      var before := log[..|log| - 1];
      CountedIsIn(before, id, channel);
      assert forall i :: 0 <= i < |before| ==> before[i] == log[i];
    }
  }

  /**
   Exactly-once release: in an orderly log, a client or channel that was handed out is open now, or
   its close was attempted exactly once; nothing else was closed.
   */
  lemma {:induction false} EachIsClosedOnce(log: seq<Event>, id: Id, channel: bool)
    requires Orderly(log)
    ensures Opened(log, id, channel) == Closed(log, id, channel) + (if id in Open(log, channel) then 1 else 0) <= 1
  {
    if log != [] {
      var before := log[..|log| - 1];
      EachIsClosedOnce(before, id, channel);
      CountedIsIn(before, id, channel);
    }
  }

  /** A client is closed only after the close of every channel opened before it. */
  lemma {:induction false} ChannelsCloseBeforeTheClient(log: seq<Event>, i: nat, k: nat)
    requires Orderly(log) && i < k < |log| && log[i].ChannelOpened? && log[k].ClientClosed?
    ensures exists j :: 0 <= j < k && Closes(log[j], log[i].id, true)
  {
    OrderlyPrefix(log, k + 1);
    assert log[..k + 1][..k] == log[..k] && log[..k + 1][k] == log[k];
    OrderlyPrefix(log, k);
    assert log[..k][i] == log[i];
    EachIsClosedOnce(log[..k], log[i].id, true);
    CountedIsIn(log[..k], log[i].id, true);
    assert Opens(log[..k][i], log[i].id, true);
    var j :| 0 <= j < k && Closes(log[..k][j], log[i].id, true);
    assert Closes(log[j], log[i].id, true);
  }

  lemma {:induction false} OrderlyPrefix(log: seq<Event>, n: nat)
    requires Orderly(log) && n <= |log|
    ensures Orderly(log[..n])
    decreases |log|
  {
    if n == |log| {
      assert log[..n] == log;
    } else {
      OrderlyPrefix(log[..|log| - 1], n);
      assert log[..|log| - 1][..n] == log[..n];
    }
  }

  datatype Operation = DoConnect | DoDisconnect

  /** Any run of connects and disconnects, failing wherever they like. */
  method RunAll(connection: SFTPConnection, operations: seq<Operation>)
    requires connection.Valid()
    modifies connection, connection.ssh, connection.ssh.world
    ensures connection.Valid() && Orderly(connection.ssh.world.log)
    ensures operations != [] && operations[|operations| - 1].DoDisconnect? ==>
              OpenClients(connection.ssh.world.log) == {} && OpenChannels(connection.ssh.world.log) == {}
  {
    for i := 0 to |operations|
      invariant connection.Valid()
      invariant i > 0 && operations[i - 1].DoDisconnect? ==>
                  OpenClients(connection.ssh.world.log) == {} && OpenChannels(connection.ssh.world.log) == {}
    {
      match operations[i] {
        case DoConnect => var _, _ := connection.Connect();
        case DoDisconnect => var _, _ := connection.Disconnect();
      }
    }
  }
}
