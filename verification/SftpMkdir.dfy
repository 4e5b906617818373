/**
 Recursive `mkdir` of the SFTP backend against other clients that create files and directories at
 the same time.  Other clients act before every request of ours; nobody deletes.
 */
module SftpMkdir {
  import opened Common
  import opened RemotePaths

  /** What exists at each spelled path: true is a directory, false anything else. */
  type Tree = map<string, bool>

  /** Entries only appear; none is removed or changes its kind. */
  ghost predicate Grows(before: Tree, after: Tree) {
    forall p :: p in before ==> p in after && after[p] == before[p]
  }

  /** How mkdir may fail: EEXIST, a bare OSError without errno, one with another errno, or a typed error. */
  datatype MkdirError = Exists | Generic | OtherErrno | TypedFailure

  datatype Event = Stated(path: string, reply: StatReply) | Made(path: string, error: Option<MkdirError>)

  datatype Failure = StatFailed | NotDirectory | MkdirFailed(e: MkdirError)

  class Remote {
    var tree: Tree
    var created: set<string>   // by us
    var log: seq<Event>        // our requests and the replies to them

    constructor (tree: Tree)
      ensures this.tree == tree && created == {} && log == []
    {
      this.tree, created, log := tree, {}, [];
    }

    method OtherClients()
      modifies this`tree
      ensures Grows(old(tree), tree)
    {
      var n: int := *;
      while n > 0
        invariant Grows(old(tree), tree)
      {
        n := n - 1;
        var path: string, isDir: bool := *, *;
        if path !in tree { tree := tree[path := isDir]; }
      }
    }

    method Stat(path: string) returns (reply: StatReply)
      modifies this`tree, this`log
      ensures Grows(old(tree), tree) && log == old(log) + [Stated(path, reply)]
      ensures reply.Typed? ==> path in tree && tree[path] == reply.isDir
    {
      OtherClients();
      reply := *;
      if reply.Typed? { reply := if path in tree then Typed(tree[path]) else NotFound; }
      log := log + [Stated(path, reply)];
    }

    method Mkdir(path: string) returns (error: Option<MkdirError>)
      modifies this
      ensures Grows(old(tree), tree) && log == old(log) + [Made(path, error)]
      ensures error.None? ==> path in tree && tree[path] && created == old(created) + {path}
      ensures error.Some? ==> created == old(created)
    {
      OtherClients();
      var e: MkdirError := *;
      var fails: bool := *;
      error := if fails || path in tree then Some(e) else None;
      if error.None? {
        tree := tree[path := true];
        created := created + {path};
      }
      log := log + [Made(path, error)];
    }
  }

  /** A reply that may be passed over: nothing failed, or it only shows that another client was first. */
  predicate Harmless(e: Event) {
    match e
    case Stated(_, reply) => !reply.Raises?
    case Made(_, error) => error.None? || error.value.Exists? || error.value.Generic?
  }

  ghost predicate AllHarmless(log: seq<Event>) { forall e :: e in log ==> Harmless(e) }

  /** The reply a failure stems from is in the log. */
  predicate Explains(log: seq<Event>, f: Failure, path: string) {
    match f
    case StatFailed => Stated(path, Raises(true)) in log || Stated(path, Raises(false)) in log
    case NotDirectory => Stated(path, Typed(false)) in log
    case MkdirFailed(e) => Made(path, Some(e)) in log
  }

  /** A mkdir that may have lost a race fails only after another stat found no directory. */
  predicate RaceWasChecked(log: seq<Event>, f: Failure) {
    f.MkdirFailed? && (f.e.Exists? || f.e.Generic?) ==>
      && log != [] && log[|log| - 1].Stated?
      && log[|log| - 1].reply != Typed(true) && log[|log| - 1].reply != Raises(false)
  }

  /** The directory is there, or it is an ancestor whose mode the server did not report. */
  ghost predicate Ensured(tree: Tree, log: seq<Event>, directory: string, path: string) {
    || (directory in tree && tree[directory])
    || (directory != path && Stated(directory, Untyped) in log)
  }

  /** The requests a directory needs: another one is made exactly when the reply to the last one leaves it open. */
  predicate RequestsFor(events: seq<Event>, directory: string, path: string) {
    && 1 <= |events| <= 3
    && (forall e :: e in events ==> e.path == directory)
    && events[0].Stated?
    && (|events| > 1 <==> events[0].reply.NotFound? || (events[0].reply.Untyped? && directory == path))
    && (|events| > 1 ==> events[1].Made?)
    && (|events| > 2 <==> |events| > 1 && (events[1].error == Some(Exists) || events[1].error == Some(Generic)))
    && (|events| > 2 ==> events[2].Stated?)
  }

  /** What the replies to them mean. */
  predicate Meaning(events: seq<Event>, failure: Option<Failure>)
    requires events != []
  {
    var last := events[|events| - 1];
    match last
    case Made(_, error) => failure == if error.Some? then Some(MkdirFailed(error.value)) else None
    case Stated(_, reply) =>
      if reply == Typed(true) then failure == None
      else if |events| == 1 then
        failure == match reply case Untyped => None case Typed(_) => Some(NotDirectory) case _ => Some(StatFailed)
      else
        events[1].Made? && events[1].error.Some? &&
        failure == Some(if reply == Raises(false) then StatFailed else MkdirFailed(events[1].error.value))
  }

  /** One round of the loop over the chain. */
  method EnsureDirectory(remote: Remote, directory: string, path: string) returns (failure: Option<Failure>)
    modifies remote
    ensures Grows(old(remote.tree), remote.tree)
    ensures old(remote.created) <= remote.created <= old(remote.created) + {directory}
    ensures old(remote.log) <= remote.log
    ensures RequestsFor(remote.log[|old(remote.log)|..], directory, path)
    ensures Meaning(remote.log[|old(remote.log)|..], failure)
    ensures failure.None? ==> Ensured(remote.tree, remote.log, directory, path)
    ensures failure.None? ==> AllHarmless(remote.log[|old(remote.log)|..])
    ensures failure.Some? ==> Explains(remote.log[|old(remote.log)|..], failure.value, directory)
    ensures failure.Some? ==> RaceWasChecked(remote.log, failure.value)
  {
    ghost var before := remote.log;
    var reply := remote.Stat(directory);
    assert remote.log[|before|..] == [Stated(directory, reply)];
    match reply {
      case Raises(_) => return Some(StatFailed);
      case NotFound =>
      case Untyped => if directory != path { return None; }
      case Typed(isDir) => return if isDir then None else Some(NotDirectory);
    }
    var error := remote.Mkdir(directory);
    assert remote.log[|before|..] == [Stated(directory, reply), Made(directory, error)];
    if error.None? { return None; }
    if error.value.TypedFailure? || error.value.OtherErrno? { return Some(MkdirFailed(error.value)); }
    var again := remote.Stat(directory);
    assert remote.log[|before|..] == [Stated(directory, reply), Made(directory, error), Stated(directory, again)];
    if again == Raises(false) { return Some(StatFailed); }   // only an OSError is dropped for the first error
    return if again == Typed(true) then None else Some(MkdirFailed(error.value));
  }

  /** The ancestors still to come when `prev` was appended last and `parent` is next. */
  function Rest(prev: string, parent: string): seq<string> {
    if parent == "" || parent == prev then [] else Ancestors(parent)
  }

  /** The paths `mkdir` goes through, the requested one first. */
  function Chain(path: string): seq<string> { [path] + Rest(path, Dirname(RStrip(path))) }

  lemma RestClimbs(prev: string, parent: string, i: nat)
    requires i < |Rest(prev, parent)|
    ensures Rest(prev, parent)[0] == parent
    ensures if i + 1 < |Rest(prev, parent)| then
              && Rest(prev, parent)[i + 1] == Dirname(Rest(prev, parent)[i])
              && |Rest(prev, parent)[i + 1]| < |Rest(prev, parent)[i]|
            else Dirname(Rest(prev, parent)[i]) == "" || Dirname(Rest(prev, parent)[i]) == Rest(prev, parent)[i]
  {
    AncestorsClimb(parent, i);
  }

  /** The parent that the loop over the ancestors takes next: trailing slashes of the request are dropped first. */
  function Parent(path: string, i: nat, p: string): string { Dirname(if i == 0 then RStrip(path) else p) }

  /**
   The chain starts at the requested path and climbs by dirname, strictly shortening, until there is no
   parent or the path is its own.
   */
  lemma {:induction false} ChainClimbs(path: string, i: nat)
    requires i < |Chain(path)|
    ensures Chain(path)[0] == path
    ensures var parent := Parent(path, i, Chain(path)[i]);
            if i + 1 < |Chain(path)| then Chain(path)[i + 1] == parent && |parent| < |Chain(path)[i]|
            else parent == "" || parent == Chain(path)[i]
  {
    var parent := Dirname(RStrip(path));
    DirnameShrinks(RStrip(path));
    if i > 0 || |Chain(path)| > 1 { RestClimbs(path, parent, if i > 0 then i - 1 else 0); }
  }

  /** Each path of `paths` is shorter than the ones before it. */
  predicate Shortening(paths: seq<string>) { forall j, k :: 0 <= j < k < |paths| ==> |paths[k]| < |paths[j]| }

  lemma {:induction false} StepsAdd(paths: seq<string>, j: nat, k: nat)
    requires forall i :: 0 <= i < |paths| - 1 ==> |paths[i + 1]| < |paths[i]|
    requires j < k < |paths|
    ensures |paths[k]| < |paths[j]|
    decreases k
  {
    assert |paths[k - 1 + 1]| < |paths[k - 1]|;
    if j < k - 1 { StepsAdd(paths, j, k - 1); }
  }

  lemma ChainShortens(path: string)
    ensures Shortening(Chain(path))
  {
    var paths := Chain(path);
    forall i | 0 <= i < |paths| - 1 ensures |paths[i + 1]| < |paths[i]| { ChainClimbs(path, i); }
    forall j, k | 0 <= j < k < |paths| ensures |paths[k]| < |paths[j]| { StepsAdd(paths, j, k); }
  }

  lemma {:induction false} NextParent(paths: seq<string>, parent: string)
    ensures paths + Ancestors(parent) == paths + [parent] + Rest(parent, Dirname(parent))
    ensures |Dirname(parent)| < |parent| || Dirname(parent) == parent
  {
    DirnameShrinks(parent);
  }

  method ChainOf(path: string) returns (paths: seq<string>)
    ensures paths == Chain(path)
  {
    paths := [path];
    var parent := Dirname(RStrip(path));
    while parent != "" && parent != paths[|paths| - 1]
      invariant paths != [] && Chain(path) == paths + Rest(paths[|paths| - 1], parent)
      decreases |parent|, parent != paths[|paths| - 1]
    {
      NextParent(paths, parent);
      paths := paths + [parent];
      parent := Dirname(parent);
    }
  }

  lemma EnsuredLater(tree: Tree, log: seq<Event>, tree': Tree, log': seq<Event>, d: string, path: string)
    requires Ensured(tree, log, d, path) && Grows(tree, tree') && log <= log'
    ensures Ensured(tree', log', d, path)
  {
    if Stated(d, Untyped) in log {
      var k :| 0 <= k < |log| && log[k] == Stated(d, Untyped);
      assert log'[k] == log[k];
    }
  }

  /** No request names a longer path than a later one. */
  ghost predicate OutermostFirst(log: seq<Event>) {
    forall h, k :: 0 <= h < k < |log| ==> |log[h].path| <= |log[k].path|
  }

  /** The requests so far are in order, and none names a longer path than `paths[i]`. */
  ghost predicate InOrder(log: seq<Event>, paths: seq<string>, i: nat) {
    OutermostFirst(log) && (log != [] ==> i < |paths| && forall e :: e in log ==> |e.path| <= |paths[i]|)
  }

  lemma OrderKept(log: seq<Event>, paths: seq<string>, i: nat, events: seq<Event>)
    requires Shortening(paths) && i < |paths| && InOrder(log, paths, i + 1)
    requires forall e :: e in events ==> e.path == paths[i]
    ensures InOrder(log + events, paths, i)
  {
    if log != [] { assert |paths[i + 1]| < |paths[i]|; }
  }

  /** The loop over the chain, from the outermost ancestor to the requested path. */
  method EnsureAll(remote: Remote, paths: seq<string>, path: string) returns (failure: Option<Failure>)
    requires remote.log == [] && remote.created == {}
    modifies remote
    ensures Grows(old(remote.tree), remote.tree)
    ensures forall p :: p in remote.created ==> p in paths
    ensures Shortening(paths) ==> OutermostFirst(remote.log)
    ensures failure.None? ==> AllHarmless(remote.log)
    ensures failure.None? ==> forall d :: d in paths ==> Ensured(remote.tree, remote.log, d, path)
    ensures failure.Some? ==> exists d :: d in paths && Explains(remote.log, failure.value, d)
    ensures failure.Some? ==> RaceWasChecked(remote.log, failure.value)
  {
    var i := |paths|;
    while i > 0
      invariant 0 <= i <= |paths|
      invariant Grows(old(remote.tree), remote.tree) && AllHarmless(remote.log)
      invariant forall p :: p in remote.created ==> p in paths
      invariant forall j :: i <= j < |paths| ==> Ensured(remote.tree, remote.log, paths[j], path)
      invariant Shortening(paths) ==> InOrder(remote.log, paths, i)
    {
      i := i - 1;
      ghost var log, tree := remote.log, remote.tree;
      failure := EnsureDirectory(remote, paths[i], path);
      assert remote.log == log + remote.log[|log|..];
      if Shortening(paths) { OrderKept(log, paths, i, remote.log[|log|..]); }
      if failure.Some? {
        assert paths[i] in paths && Explains(remote.log, failure.value, paths[i]);
        return;
      }
      forall j | i < j < |paths| ensures Ensured(remote.tree, remote.log, paths[j], path) {
        EnsuredLater(tree, log, remote.tree, remote.log, paths[j], path);
      }
    }
    return None;
  }

  method Mkdir(remote: Remote, path: string, parents: bool) returns (failure: Option<Failure>)
    requires remote.log == [] && remote.created == {}
    modifies remote
    // one request without parents; with them the outermost ancestor is asked for first
    ensures !parents || path == "" ==>
              && (failure.None? || failure.value.MkdirFailed?)
              && remote.log == [Made(path, if failure.None? then None else Some(failure.value.e))]
    ensures OutermostFirst(remote.log)
    // nothing that existed was replaced, and only paths of the chain were created
    ensures Grows(old(remote.tree), remote.tree)
    ensures forall p :: p in remote.created ==> p in Chain(path)
    // a normal return means the whole chain is there; the requested directory even if no mode was reported
    ensures failure.None? ==> path in remote.tree && remote.tree[path]
    ensures failure.None? && parents && path != "" ==>
              forall d :: d in Chain(path) ==> Ensured(remote.tree, remote.log, d, path)
    // and no failure was passed over; an error has its cause in a reply
    ensures failure.None? ==> AllHarmless(remote.log)
    ensures failure.Some? ==> exists d :: d in Chain(path) && Explains(remote.log, failure.value, d)
    ensures failure.Some? && parents && path != "" ==> RaceWasChecked(remote.log, failure.value)
  {
    assert Chain(path)[0] == path;
    if !parents || path == "" {
      var error := remote.Mkdir(path);
      assert remote.log == [Made(path, error)];
      if error.None? { return None; }
      assert Explains(remote.log, MkdirFailed(error.value), path);
      return Some(MkdirFailed(error.value));
    }
    var paths := ChainOf(path);
    ChainShortens(path);
    failure := EnsureAll(remote, paths, path);
    assert failure.None? ==> Ensured(remote.tree, remote.log, path, path);
  }
}
