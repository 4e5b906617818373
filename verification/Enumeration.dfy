/**
 Exact-path enumeration: `list_objects` of the Local and of the SFTP backend.

 Both run a worklist of directories over a static tree and share one limit between objects and
 prefixes.  A discovered link is classified by what it points to and never descended into, so links
 may form cycles.  The two loops are separate methods proved against one specification, a multiset,
 which in turn is shown to be what a plain recursive lookup of each path says.
 */
module Enumeration {
  import opened Common

  type Place = seq<string>

  /** What stat() says about a link. */
  datatype LinkStat = ToFile | ToDir | ToOther | Missing | StatFails

  datatype Node =
    | File
    | Dir(children: seq<Entry>)
    | Locked                      // a directory whose listing fails
    | Other                       // socket, device, ..
    | Link(local: LinkStat, remote: LinkStat)   // what Local's stat() and the server's STAT say of it

  /**
   `statable`: Local's stat() of an entry that is no link succeeds. `listed`, `lstat` and `stat` say
   whether each SFTP reply carries the file type.
   */
  datatype Entry = Entry(name: string, node: Node, statable: bool, listed: bool, lstat: bool, stat: bool)

  /** Where a link leads, according to the backend's own call. */
  function Answer(link: Node, remote: bool): LinkStat
    requires link.Link?
  {
    if remote then link.remote else link.local
  }

  datatype Kind = Object | Prefix

  datatype Found = Found(kind: Kind, path: Place)

  datatype Listing = Listing(objects: seq<Found>, prefixes: seq<Found>)

  datatype Error = StatError | ListError | TypeUnavailable | NotADirectory | BadArgument

  // ---------------------------------------------------------------- specification

  /** What one directory entry contributes: itself, or everything below it. */
  ghost function FromNode(path: Place, node: Node, grouped: bool, remote: bool): multiset<Found>
    decreases node, 1
  {
    match node
    case File => multiset{Found(Object, path)}
    case Link(_, _) =>
      var to := Answer(node, remote);
      if to.ToFile? then multiset{Found(Object, path)}
      else if to.ToDir? && grouped then multiset{Found(Prefix, path)}
      else multiset{}
    case Dir(children) => if grouped then multiset{Found(Prefix, path)} else Under(path, children, grouped, remote)
    case Locked => if grouped then multiset{Found(Prefix, path)} else multiset{}
    case Other => multiset{}
  }

  ghost function Under(path: Place, children: seq<Entry>, grouped: bool, remote: bool): multiset<Found>
    decreases children, 0
  {
    if children == [] then multiset{}
    else
      FromNode(path + [children[0].name], children[0].node, grouped, remote)
      + Under(path, children[1..], grouped, remote)
  }

  /** The entry makes the enumeration of Local, or of SFTP when `remote`, raise. */
  ghost predicate EntryFails(e: Entry, grouped: bool, remote: bool)
    decreases e, 1
  {
    || (remote && !e.listed && !e.lstat)
    || (!remote && !e.node.Link? && !e.statable)
    || match e.node
       case Link(_, _) => Answer(e.node, remote).StatFails? || (remote && !e.node.remote.Missing? && !e.stat)
       case Dir(children) => !grouped && AnyFails(children, grouped, remote)
       case Locked => !grouped
       case _ => false
  }

  ghost predicate AnyFails(children: seq<Entry>, grouped: bool, remote: bool)
    decreases children, 0
  {
    children != [] && (EntryFails(children[0], grouped, remote) || AnyFails(children[1..], grouped, remote))
  }

  ghost function Size(children: seq<Entry>): nat {
    if children == [] then 0 else NodeSize(children[0].node) + Size(children[1..])
  }

  ghost function NodeSize(node: Node): nat {
    match node
    case Dir(children) => 1 + Size(children)
    case _ => 1
  }

  // ---------------------------------------------------------------- the worklist

  /** A directory waiting to be listed. */
  datatype Work = Work(path: Place, dir: Node)

  ghost predicate Directories(pending: seq<Work>) {
    forall i :: 0 <= i < |pending| ==> pending[i].dir.Dir? || pending[i].dir.Locked?
  }

  ghost function Pending(pending: seq<Work>, grouped: bool, remote: bool): multiset<Found> {
    if pending == [] then multiset{}
    else
      var last := pending[|pending| - 1];
      Pending(pending[..|pending| - 1], grouped, remote)
      + if last.dir.Dir? then Under(last.path, last.dir.children, grouped, remote) else multiset{}
  }

  ghost function PendingSize(pending: seq<Work>): nat {
    if pending == [] then 0
    else PendingSize(pending[..|pending| - 1]) + NodeSize(pending[|pending| - 1].dir)
  }

  ghost predicate PendingFails(pending: seq<Work>, grouped: bool, remote: bool) {
    pending != [] &&
    (|| PendingFails(pending[..|pending| - 1], grouped, remote)
     || pending[|pending| - 1].dir.Locked?
     || (pending[|pending| - 1].dir.Dir? && AnyFails(pending[|pending| - 1].dir.children, grouped, remote)))
  }

  lemma {:induction false} PendingPush(pending: seq<Work>, w: Work, grouped: bool, remote: bool)
    requires w.dir.Dir? || w.dir.Locked?
    ensures Pending(pending + [w], grouped, remote) ==
            Pending(pending, grouped, remote)
            + if w.dir.Dir? then Under(w.path, w.dir.children, grouped, remote) else multiset{}
    ensures PendingSize(pending + [w]) == PendingSize(pending) + NodeSize(w.dir)
    ensures PendingFails(pending + [w], grouped, remote) <==>
            PendingFails(pending, grouped, remote) || w.dir.Locked?
            || (w.dir.Dir? && AnyFails(w.dir.children, grouped, remote))
  {
    assert (pending + [w])[..|pending|] == pending;
  }

  predicate Full(l: Listing, limit: Option<nat>) {
    limit.Some? && |l.objects| + |l.prefixes| >= limit.value
  }

  predicate KindsRight(l: Listing) {
    && (forall f :: f in l.objects ==> f.kind.Object?)
    && (forall f :: f in l.prefixes ==> f.kind.Prefix?)
  }

  ghost function All(l: Listing): multiset<Found> { multiset(l.objects) + multiset(l.prefixes) }

  function AddObject(l: Listing, path: Place): Listing { l.(objects := l.objects + [Found(Object, path)]) }

  function AddPrefix(l: Listing, path: Place): Listing { l.(prefixes := l.prefixes + [Found(Prefix, path)]) }

  /** What is found so far, what is still pending and what is left of the open directory make up the whole. */
  ghost predicate Accounts(whole: multiset<Found>, fails: bool, l: Listing, pending: seq<Work>,
                           path: Place, rest: seq<Entry>, grouped: bool, remote: bool)
  {
    && All(l) + Pending(pending, grouped, remote) + Under(path, rest, grouped, remote) == whole
    && (fails <==> PendingFails(pending, grouped, remote) || AnyFails(rest, grouped, remote))
    && KindsRight(l) && Directories(pending)
  }

  lemma {:induction false} CountEntry(whole: multiset<Found>, fails: bool, l: Listing, l': Listing, pending: seq<Work>,
                                      pending': seq<Work>, path: Place, rest: seq<Entry>, grouped: bool, remote: bool)
    requires Accounts(whole, fails, l, pending, path, rest, grouped, remote) && rest != []
    requires KindsRight(l') && Directories(pending')
    requires All(l') + Pending(pending', grouped, remote) ==
             All(l) + Pending(pending, grouped, remote) + FromNode(path + [rest[0].name], rest[0].node, grouped, remote)
    requires PendingFails(pending', grouped, remote) <==>
             PendingFails(pending, grouped, remote) || EntryFails(rest[0], grouped, remote)
    ensures Accounts(whole, fails, l', pending', path, rest[1..], grouped, remote)
  {
  }

  /** What one round of either loop does with an entry it can classify. */
  datatype Round = Skipped | AsObject | AsPrefix | Deferred

  predicate Unclassified(e: Entry, remote: bool) {
    || (remote && !e.listed && !e.lstat)
    || (!remote && !e.node.Link? && !e.statable)
    || (e.node.Link? && (Answer(e.node, remote).StatFails? || (remote && !e.node.remote.Missing? && !e.stat)))
  }

  function RoundOf(n: Node, grouped: bool, remote: bool): Round {
    match n
    case File => AsObject
    case Other => Skipped
    case Link(_, _) =>
      var to := Answer(n, remote);
      if to.ToFile? then AsObject else if to.ToDir? && grouped then AsPrefix else Skipped
    case _ => if grouped then AsPrefix else Deferred
  }

  function Listed(l: Listing, path: Place, round: Round): Listing {
    match round
    case AsObject => AddObject(l, path)
    case AsPrefix => AddPrefix(l, path)
    case _ => l
  }

  function Queued(pending: seq<Work>, path: Place, n: Node, round: Round): seq<Work> {
    if round.Deferred? then pending + [Work(path, n)] else pending
  }

  /** What the round contributes at once, and what it leaves to the listing of a directory. */
  lemma {:induction false} RoundMeans(path: Place, e: Entry, grouped: bool, remote: bool)
    requires !Unclassified(e, remote)
    ensures var round := RoundOf(e.node, grouped, remote);
            FromNode(path, e.node, grouped, remote) ==
            match round
            case AsObject => multiset{Found(Object, path)}
            case AsPrefix => multiset{Found(Prefix, path)}
            case Skipped => multiset{}
            case Deferred => if e.node.Dir? then Under(path, e.node.children, grouped, remote) else multiset{}
  {
  }

  /** Only the listing of a directory can still fail. */
  lemma {:induction false} RoundFails(e: Entry, grouped: bool, remote: bool)
    requires !Unclassified(e, remote)
    ensures RoundOf(e.node, grouped, remote).Deferred? ==> e.node.Dir? || e.node.Locked?
    ensures EntryFails(e, grouped, remote) <==>
            && RoundOf(e.node, grouped, remote).Deferred?
            && (e.node.Locked? || (e.node.Dir? && AnyFails(e.node.children, grouped, remote)))
  {
  }

  lemma {:induction false} ListedAll(l: Listing, path: Place, round: Round)
    requires KindsRight(l)
    ensures KindsRight(Listed(l, path, round))
    ensures All(Listed(l, path, round)) ==
            All(l) + match round
                     case AsObject => multiset{Found(Object, path)}
                     case AsPrefix => multiset{Found(Prefix, path)}
                     case _ => multiset{}
  {
  }

  /** What is queued later is no more than the entry itself. */
  lemma {:induction false} RoundShrinks(pending: seq<Work>, path: Place, rest: seq<Entry>, grouped: bool, remote: bool)
    requires rest != []
    ensures PendingSize(Queued(pending, path, rest[0].node, RoundOf(rest[0].node, grouped, remote))) + Size(rest[1..])
         <= PendingSize(pending) + Size(rest)
  {
    var node := rest[0].node;
    if node.Dir? || node.Locked? { PendingPush(pending, Work(path, node), grouped, remote); }
  }

  lemma CountDeferred(whole: multiset<Found>, fails: bool, l: Listing, pending: seq<Work>,
                      path: Place, rest: seq<Entry>, grouped: bool, remote: bool)
    requires Accounts(whole, fails, l, pending, path, rest, grouped, remote) && rest != []
    requires !Unclassified(rest[0], remote) && RoundOf(rest[0].node, grouped, remote).Deferred?
    ensures Accounts(whole, fails, l, pending + [Work(path + [rest[0].name], rest[0].node)],
                     path, rest[1..], grouped, remote)
  {
    var p := path + [rest[0].name];
    RoundMeans(p, rest[0], grouped, remote);
    RoundFails(rest[0], grouped, remote);
    PendingPush(pending, Work(p, rest[0].node), grouped, remote);
    CountEntry(whole, fails, l, l, pending, pending + [Work(p, rest[0].node)], path, rest, grouped, remote);
  }

  lemma CountNow(whole: multiset<Found>, fails: bool, l: Listing, pending: seq<Work>,
                 path: Place, rest: seq<Entry>, grouped: bool, remote: bool)
    requires Accounts(whole, fails, l, pending, path, rest, grouped, remote) && rest != []
    requires !Unclassified(rest[0], remote) && !RoundOf(rest[0].node, grouped, remote).Deferred?
    ensures Accounts(whole, fails, Listed(l, path + [rest[0].name], RoundOf(rest[0].node, grouped, remote)), pending,
                     path, rest[1..], grouped, remote)
  {
    var p, round := path + [rest[0].name], RoundOf(rest[0].node, grouped, remote);
    RoundMeans(p, rest[0], grouped, remote);
    RoundFails(rest[0], grouped, remote);
    ListedAll(l, p, round);
    CountEntry(whole, fails, l, Listed(l, p, round), pending, pending, path, rest, grouped, remote);
  }

  /** A round keeps the account. */
  lemma CountRound(whole: multiset<Found>, fails: bool, l: Listing, pending: seq<Work>,
                   path: Place, rest: seq<Entry>, grouped: bool, remote: bool)
    requires Accounts(whole, fails, l, pending, path, rest, grouped, remote) && rest != []
    requires !Unclassified(rest[0], remote)
    ensures var p, round := path + [rest[0].name], RoundOf(rest[0].node, grouped, remote);
            Accounts(whole, fails, Listed(l, p, round), Queued(pending, p, rest[0].node, round),
                     path, rest[1..], grouped, remote)
  {
    if RoundOf(rest[0].node, grouped, remote).Deferred? {
      CountDeferred(whole, fails, l, pending, path, rest, grouped, remote);
    } else {
      CountNow(whole, fails, l, pending, path, rest, grouped, remote);
    }
  }

  predicate Within(l: Listing, limit: Option<nat>) {
    limit.Some? ==> |l.objects| + |l.prefixes| <= limit.value
  }

  /** All that the loops need of a round. */
  lemma {:induction false} RoundKeeps(whole: multiset<Found>, fails: bool, l: Listing, l': Listing, pending: seq<Work>,
                                      pending': seq<Work>, path: Place, rest: seq<Entry>, grouped: bool, remote: bool,
                                      limit: Option<nat>, size: nat)
    requires Accounts(whole, fails, l, pending, path, rest, grouped, remote) && rest != []
    requires !Unclassified(rest[0], remote)
    requires l' == Listed(l, path + [rest[0].name], RoundOf(rest[0].node, grouped, remote))
    requires pending' == Queued(pending, path + [rest[0].name], rest[0].node, RoundOf(rest[0].node, grouped, remote))
    requires !Full(l, limit) && PendingSize(pending) + Size(rest) <= size
    ensures Accounts(whole, fails, l', pending', path, rest[1..], grouped, remote)
    ensures Within(l', limit) && PendingSize(pending') + Size(rest[1..]) <= size
  {
    CountRound(whole, fails, l, pending, path, rest, grouped, remote);
    RoundShrinks(pending, path + [rest[0].name], rest, grouped, remote);
  }

  lemma OpenLast(whole: multiset<Found>, fails: bool, l: Listing, pending: seq<Work>, path: Place, grouped: bool,
                 remote: bool)
    requires pending != [] && pending[|pending| - 1].dir.Dir?
    requires Accounts(whole, fails, l, pending, path, [], grouped, remote)
    ensures var last := pending[|pending| - 1];
            Accounts(whole, fails, l, pending[..|pending| - 1], last.path, last.dir.children, grouped, remote)
  {
  }

  /** The selection a listing must be: all of it, or exactly as many as the limit allows. */
  ghost predicate Selection(l: Listing, whole: multiset<Found>, limit: Option<nat>) {
    && KindsRight(l)
    && All(l) <= whole
    && |All(l)| == (if limit.Some? then Min(limit.value, |whole|) else |whole|)
    && (limit.None? || limit.value >= |whole| ==> All(l) == whole)
  }

  lemma SelectionAtEnd(l: Listing, whole: multiset<Found>, limit: Option<nat>, unseen: multiset<Found>)
    requires KindsRight(l) && All(l) + unseen == whole
    requires unseen == multiset{} || (limit.Some? && |All(l)| == limit.value)
    requires limit.Some? ==> |All(l)| <= limit.value
    ensures Selection(l, whole, limit)
  {
    assert |whole| == |All(l)| + |unseen|;
  }

  lemma {:induction false} StartAccounts(root: Place, dir: Node, grouped: bool, remote: bool)
    requires dir.Dir?
    ensures Accounts(Under(root, dir.children, grouped, remote), AnyFails(dir.children, grouped, remote),
                     Listing([], []), [Work(root, dir)], root, [], grouped, remote)
  {
    var w, none: seq<Work> := Work(root, dir), [];
    assert none + [w] == [w];
    PendingPush(none, w, grouped, remote);
    assert Pending(none, grouped, remote) == multiset{} && !PendingFails(none, grouped, remote);
    assert Under(root, [], grouped, remote) == multiset{} && !AnyFails([], grouped, remote);
  }

  /** Leaving the worklist loop: nothing is left, or the limit was met exactly. */
  lemma FinishAccounts(whole: multiset<Found>, fails: bool, l: Listing, pending: seq<Work>, path: Place,
                       rest: seq<Entry>,
                       grouped: bool, remote: bool, limit: Option<nat>)
    requires Accounts(whole, fails, l, pending, path, rest, grouped, remote)
    requires Within(l, limit)
    requires (pending == [] && rest == []) || Full(l, limit)
    ensures Selection(l, whole, limit)
    ensures limit.None? ==> !fails
  {
    SelectionAtEnd(l, whole, limit, Pending(pending, grouped, remote) + Under(path, rest, grouped, remote));
  }

  lemma {:induction false} FailingLast(pending: seq<Work>, grouped: bool, remote: bool)
    requires pending != [] && pending[|pending| - 1].dir.Locked?
    ensures PendingFails(pending, grouped, remote)
  {
  }

  lemma FailingFirst(whole: multiset<Found>, fails: bool, l: Listing, pending: seq<Work>,
                     path: Place, rest: seq<Entry>, grouped: bool, remote: bool)
    requires Accounts(whole, fails, l, pending, path, rest, grouped, remote)
    requires rest != [] && Unclassified(rest[0], remote)
    ensures fails
  {
    assert EntryFails(rest[0], grouped, remote);
  }

  // ---------------------------------------------------------------- the Local loop

  /** One round of `for child in entries`: the entry is classified by stat(), or stat() raises. */
  method TakeLocal(childPath: Place, child: Entry, grouped: bool, l0: Listing, pending0: seq<Work>)
      returns (raised: bool, l: Listing, pending: seq<Work>)
    ensures raised <==> Unclassified(child, false)
    ensures !raised ==> l == Listed(l0, childPath, RoundOf(child.node, grouped, false))
    ensures !raised ==> pending == Queued(pending0, childPath, child.node, RoundOf(child.node, grouped, false))
  {
    raised, l, pending := false, l0, pending0;
    var linked := child.node.Link?;
    if (if linked then child.node.local.StatFails? else !child.statable) {
      raised := true;
      return;
    }
    if child.node.File? || (linked && child.node.local.ToFile?) {
      l := AddObject(l, childPath);
    } else if child.node.Dir? || child.node.Locked? || (linked && child.node.local.ToDir?) {
      if grouped {
        l := AddPrefix(l, childPath);
      } else if !linked {
        pending := pending + [Work(childPath, child.node)];
      }
    }
  }

  /** That round with the account of what is found, queued and not yet read. */
  method RoundLocal(path: Place, children: seq<Entry>, i: nat, grouped: bool, limit: Option<nat>,
                    l0: Listing, pending0: seq<Work>, ghost whole: multiset<Found>, ghost fails: bool, ghost size: nat)
      returns (failure: Option<Error>, l: Listing, pending: seq<Work>)
    requires i < |children| && Accounts(whole, fails, l0, pending0, path, children[i..], grouped, false)
    requires !Full(l0, limit) && PendingSize(pending0) + Size(children[i..]) <= size
    ensures failure.Some? ==> fails && pending == pending0
    ensures failure.None? ==> Accounts(whole, fails, l, pending, path, children[i + 1..], grouped, false)
    ensures failure.None? ==> Within(l, limit) && PendingSize(pending) + Size(children[i + 1..]) <= size
  {
    ghost var rest := children[i..];
    assert rest[0] == children[i] && rest[1..] == children[i + 1..];
    var raised;
    raised, l, pending := TakeLocal(path + [children[i].name], children[i], grouped, l0, pending0);
    failure := None;
    if raised {
      FailingFirst(whole, fails, l0, pending0, path, rest, grouped, false);
      failure, pending := Some(StatError), pending0;
    } else {
      RoundKeeps(whole, fails, l0, l, pending0, pending, path, rest, grouped, false, limit, size);
    }
  }

  /** `for child in entries` of the Local backend; stops early when the limit is reached. */
  method ScanLocal(path: Place, children: seq<Entry>, grouped: bool, limit: Option<nat>,
                   l0: Listing, pending0: seq<Work>, ghost whole: multiset<Found>, ghost fails: bool)
      returns (r: Result<Listing, Error>, pending: seq<Work>, ghost rest: seq<Entry>)
    requires Accounts(whole, fails, l0, pending0, path, children, grouped, false) && !Full(l0, limit)
    ensures r.Err? ==> fails
    ensures r.Ok? ==> Accounts(whole, fails, r.value, pending, path, rest, grouped, false)
    ensures r.Ok? ==> rest == [] || Full(r.value, limit)
    ensures r.Ok? ==> Within(r.value, limit)
    ensures PendingSize(pending) <= PendingSize(pending0) + Size(children)
  {
    var l := l0;
    pending := pending0;
    ghost var size := PendingSize(pending0) + Size(children);
    var i := 0;
    assert children[0..] == children;
    while i < |children|
      invariant 0 <= i <= |children| && !Full(l, limit)
      invariant Accounts(whole, fails, l, pending, path, children[i..], grouped, false)
      invariant PendingSize(pending) + Size(children[i..]) <= size
    {
      var failure;
      failure, l, pending := RoundLocal(path, children, i, grouped, limit, l, pending, whole, fails, size);
      if failure.Some? { return Err(failure.value), pending, []; }
      i := i + 1;
      if Full(l, limit) { return Ok(l), pending, children[i..]; }
    }
    return Ok(l), pending, children[i..];
  }

  method ListLocalTree(root: Place, dir: Node, grouped: bool, limit: Option<nat>) returns (r: Result<Listing, Error>)
    requires dir.Dir? && (limit.Some? ==> limit.value > 0)
    ensures r.Ok? ==> Selection(r.value, Under(root, dir.children, grouped, false), limit)
    ensures r.Err? ==> AnyFails(dir.children, grouped, false)
    ensures limit.None? ==> (r.Err? <==> AnyFails(dir.children, grouped, false))
  {
    var l := Listing([], []);
    var pending := [Work(root, dir)];
    ghost var whole, fails := Under(root, dir.children, grouped, false), AnyFails(dir.children, grouped, false);
    ghost var path: Place, rest: seq<Entry> := root, [];
    StartAccounts(root, dir, grouped, false);
    while pending != [] && !Full(l, limit)
      invariant Accounts(whole, fails, l, pending, path, rest, grouped, false)
      invariant rest == [] || Full(l, limit)
      invariant Within(l, limit)
      decreases PendingSize(pending)
    {
      var last := pending[|pending| - 1];
      if last.dir.Locked? {
        FailingLast(pending, grouped, false);
        return Err(ListError);
      }
      OpenLast(whole, fails, l, pending, path, grouped, false);
      path := last.path;
      r, pending, rest := ScanLocal(last.path, last.dir.children, grouped, limit, l,
                                    pending[..|pending| - 1], whole, fails);
      if r.Err? { return; }
      l := r.value;
    }
    FinishAccounts(whole, fails, l, pending, path, rest, grouped, false, limit);
    return Ok(l);
  }

  // ---------------------------------------------------------------- the SFTP loop

  /** One round over `listdir_attr`: a missing type is asked for with lstat, a link is followed with stat. */
  method TakeSftp(childPath: Place, attrs: Entry, grouped: bool, l0: Listing, pending0: seq<Work>)
      returns (failure: Option<Error>, l: Listing, pending: seq<Work>)
    ensures failure.Some? <==> Unclassified(attrs, true)
    ensures failure.None? ==> l == Listed(l0, childPath, RoundOf(attrs.node, grouped, true))
    ensures failure.None? ==> pending == Queued(pending0, childPath, attrs.node, RoundOf(attrs.node, grouped, true))
  {
    failure, l, pending := None, l0, pending0;
    var typed := attrs.listed;
    if !typed { typed := attrs.lstat; }
    if !typed {
      failure := Some(TypeUnavailable);
      return;
    }
    var linked := attrs.node.Link?;
    if linked {
      if attrs.node.remote.Missing? { return; }
      if attrs.node.remote.StatFails? {
        failure := Some(StatError);
        return;
      }
      if !attrs.stat {
        failure := Some(TypeUnavailable);
        return;
      }
    }
    if attrs.node.File? || (linked && attrs.node.remote.ToFile?) {
      l := AddObject(l, childPath);
    } else if attrs.node.Dir? || attrs.node.Locked? || (linked && attrs.node.remote.ToDir?) {
      if grouped {
        l := AddPrefix(l, childPath);
      } else if !linked {
        pending := pending + [Work(childPath, attrs.node)];
      }
    }
  }

  /** That round with the account of what is found, queued and not yet read. */
  method RoundSftp(path: Place, children: seq<Entry>, i: nat, grouped: bool, limit: Option<nat>,
                    l0: Listing, pending0: seq<Work>, ghost whole: multiset<Found>, ghost fails: bool, ghost size: nat)
      returns (failure: Option<Error>, l: Listing, pending: seq<Work>)
    requires i < |children| && Accounts(whole, fails, l0, pending0, path, children[i..], grouped, true)
    requires !Full(l0, limit) && PendingSize(pending0) + Size(children[i..]) <= size
    ensures failure.Some? ==> fails && pending == pending0
    ensures failure.None? ==> Accounts(whole, fails, l, pending, path, children[i + 1..], grouped, true)
    ensures failure.None? ==> Within(l, limit) && PendingSize(pending) + Size(children[i + 1..]) <= size
  {
    ghost var rest := children[i..];
    assert rest[0] == children[i] && rest[1..] == children[i + 1..];
    failure, l, pending := TakeSftp(path + [children[i].name], children[i], grouped, l0, pending0);
    if failure.Some? {
      FailingFirst(whole, fails, l0, pending0, path, rest, grouped, true);
      pending := pending0;
    } else {
      RoundKeeps(whole, fails, l0, l, pending0, pending, path, rest, grouped, true, limit, size);
    }
  }

  /** The loop over one directory listing of the SFTP backend. */
  method ScanSftp(path: Place, children: seq<Entry>, grouped: bool, limit: Option<nat>,
                  l0: Listing, pending0: seq<Work>, ghost whole: multiset<Found>, ghost fails: bool)
      returns (r: Result<Listing, Error>, pending: seq<Work>, ghost rest: seq<Entry>)
    requires Accounts(whole, fails, l0, pending0, path, children, grouped, true) && !Full(l0, limit)
    ensures r.Err? ==> fails
    ensures r.Ok? ==> Accounts(whole, fails, r.value, pending, path, rest, grouped, true)
    ensures r.Ok? ==> rest == [] || Full(r.value, limit)
    ensures r.Ok? ==> Within(r.value, limit)
    ensures PendingSize(pending) <= PendingSize(pending0) + Size(children)
  {
    var l := l0;
    pending := pending0;
    ghost var size := PendingSize(pending0) + Size(children);
    var i := 0;
    assert children[0..] == children;
    while i < |children|
      invariant 0 <= i <= |children| && !Full(l, limit)
      invariant Accounts(whole, fails, l, pending, path, children[i..], grouped, true)
      invariant PendingSize(pending) + Size(children[i..]) <= size
    {
      var failure;
      failure, l, pending := RoundSftp(path, children, i, grouped, limit, l, pending, whole, fails, size);
      if failure.Some? { return Err(failure.value), pending, []; }
      i := i + 1;
      if Full(l, limit) { return Ok(l), pending, children[i..]; }
    }
    return Ok(l), pending, children[i..];
  }

  method ListSftpTree(root: Place, dir: Node, grouped: bool, limit: Option<nat>) returns (r: Result<Listing, Error>)
    requires dir.Dir? && (limit.Some? ==> limit.value > 0)
    ensures r.Ok? ==> Selection(r.value, Under(root, dir.children, grouped, true), limit)
    ensures r.Err? ==> AnyFails(dir.children, grouped, true)
    ensures limit.None? ==> (r.Err? <==> AnyFails(dir.children, grouped, true))
  {
    var l := Listing([], []);
    var pending := [Work(root, dir)];
    ghost var whole, fails := Under(root, dir.children, grouped, true), AnyFails(dir.children, grouped, true);
    ghost var path: Place, rest: seq<Entry> := root, [];
    StartAccounts(root, dir, grouped, true);
    while pending != [] && !Full(l, limit)
      invariant Accounts(whole, fails, l, pending, path, rest, grouped, true)
      invariant rest == [] || Full(l, limit)
      invariant Within(l, limit)
      decreases PendingSize(pending)
    {
      var directory := pending[|pending| - 1];
      if directory.dir.Locked? {
        FailingLast(pending, grouped, true);
        return Err(ListError);
      }
      OpenLast(whole, fails, l, pending, path, grouped, true);
      path := directory.path;
      r, pending, rest := ScanSftp(directory.path, directory.dir.children, grouped, limit, l,
                                   pending[..|pending| - 1], whole, fails);
      if r.Err? { return; }
      l := r.value;
    }
    FinishAccounts(whole, fails, l, pending, path, rest, grouped, true, limit);
    return Ok(l);
  }

  // ---------------------------------------------------------------- what the specification means

  ghost predicate DistinctNames(children: seq<Entry>) {
    children == [] ||
    (&& (forall e :: e in children[1..] ==> e.name != children[0].name)
     && (children[0].node.Dir? ==> DistinctNames(children[0].node.children))
     && DistinctNames(children[1..]))
  }

  /** The node that the names `rel` lead to through directories that are no links. */
  ghost function Lookup(children: seq<Entry>, rel: seq<string>): Option<Node>
    requires rel != []
  {
    if children == [] then None
    else if children[0].name != rel[0] then Lookup(children[1..], rel)
    else LookupFrom(children[0].node, rel[1..])
  }

  ghost function LookupFrom(node: Node, rel: seq<string>): Option<Node> {
    if rel == [] then Some(node)
    else if node.Dir? then Lookup(node.children, rel)
    else None
  }

  /** A regular file, or a link to one. */
  predicate IsFile(n: Node, remote: bool) { n.File? || (n.Link? && Answer(n, remote).ToFile?) }

  /** A directory, or a link to one. */
  predicate IsDirectory(n: Node, remote: bool) { n.Dir? || n.Locked? || (n.Link? && Answer(n, remote).ToDir?) }

  /** Whether a node found at a relative path belongs to the selection as a member of this kind. */
  predicate Belongs(n: Node, depth: nat, kind: Kind, grouped: bool, remote: bool) {
    && (grouped ==> depth == 1)
    && (if kind.Object? then IsFile(n, remote) else grouped && IsDirectory(n, remote))
  }

  ghost predicate Selected(children: seq<Entry>, rel: seq<string>, kind: Kind, grouped: bool, remote: bool) {
    rel != [] && Lookup(children, rel).Some? && Belongs(Lookup(children, rel).value, |rel|, kind, grouped, remote)
  }

  lemma AtOrBelow(path: Place, p: Place)
    requires path <= p
    ensures p[|path|..] == [] <==> p == path
    ensures |p[|path|..]| == |p| - |path|
  {
    assert p == path + p[|path|..];
  }

  lemma {:induction false} NodeMatchesLookup(path: Place, node: Node, grouped: bool, remote: bool, f: Found)
    requires node.Dir? ==> DistinctNames(node.children)
    ensures FromNode(path, node, grouped, remote)[f] ==
            if path <= f.path && LookupFrom(node, f.path[|path|..]).Some?
               && Belongs(LookupFrom(node, f.path[|path|..]).value, |f.path| - |path| + 1, f.kind, grouped, remote)
            then 1 else 0
    decreases node, 1
  {
    if path <= f.path { AtOrBelow(path, f.path); }
    if node.Dir? && !grouped { UnderMatchesLookup(path, node.children, grouped, remote, f); }
  }

  lemma OneNameDeeper(path: Place, name: string, p: Place)
    requires path <= p && p != path
    ensures var rel, q := p[|path|..], path + [name];
            rel != [] && (q <= p <==> rel[0] == name) && (q <= p ==> rel[1..] == p[|q|..])
  {
    var rel, q := p[|path|..], path + [name];
    assert p == path + rel;
    if rel[0] == name { assert p == q + rel[1..]; }
  }

  lemma SumAt(a: multiset<Found>, b: multiset<Found>, f: Found)
    ensures (a + b)[f] == a[f] + b[f]
  {
  }

  /** Among distinct names the first entry decides about the paths through it, the others about the rest. */
  lemma {:induction false} SelectedByName(children: seq<Entry>, rel: seq<string>, kind: Kind, grouped: bool,
                                          remote: bool)
    requires DistinctNames(children) && children != [] && rel != []
    ensures if rel[0] == children[0].name then
              && !Selected(children[1..], rel, kind, grouped, remote)
              && (Selected(children, rel, kind, grouped, remote) <==>
                  && LookupFrom(children[0].node, rel[1..]).Some?
                  && Belongs(LookupFrom(children[0].node, rel[1..]).value, |rel|, kind, grouped, remote))
            else Selected(children, rel, kind, grouped, remote) <==> Selected(children[1..], rel, kind, grouped, remote)
  {
    if rel[0] == children[0].name { AbsentName(children[1..], rel); }
  }

  /** The specification counts each path once, exactly when a plain lookup selects it. */
  lemma {:induction false} UnderMatchesLookup(path: Place, children: seq<Entry>, grouped: bool, remote: bool, f: Found)
    requires DistinctNames(children)
    ensures Under(path, children, grouped, remote)[f] ==
            if path <= f.path && Selected(children, f.path[|path|..], f.kind, grouped, remote) then 1 else 0
    decreases children, 0
  {
    if children == [] {
    } else {
      var name, node, rest := children[0].name, children[0].node, children[1..];
      NodeMatchesLookup(path + [name], node, grouped, remote, f);
      UnderMatchesLookup(path, rest, grouped, remote, f);
      SumAt(FromNode(path + [name], node, grouped, remote), Under(path, rest, grouped, remote), f);
      if path <= f.path && f.path != path {
        OneNameDeeper(path, name, f.path);
        SelectedByName(children, f.path[|path|..], f.kind, grouped, remote);
      }
    }
  }

  lemma {:induction false} AbsentName(children: seq<Entry>, rel: seq<string>)
    requires rel != [] && forall e :: e in children ==> e.name != rel[0]
    ensures Lookup(children, rel) == None
  {
    if children == [] {
    } else {
      assert children[0] in children;
      AbsentName(children[1..], rel);
    }
  }

  /**
   What both backends list, without a limit: a path below the root is returned exactly when plain
   lookup selects it, and never twice.
   */
  lemma {:induction false} UnlimitedListingIsTheSelection(root: Place, children: seq<Entry>, grouped: bool,
                                                          remote: bool, l: Listing, kind: Kind, rel: seq<string>)
    requires DistinctNames(children) && Selection(l, Under(root, children, grouped, remote), None)
    ensures All(l)[Found(kind, root + rel)] == if Selected(children, rel, kind, grouped, remote) then 1 else 0
    ensures forall f :: f in All(l) ==> root < f.path && All(l)[f] == 1
  {
    assert (root + rel)[|root|..] == rel;
    UnderMatchesLookup(root, children, grouped, remote, Found(kind, root + rel));
    forall f | f in All(l) ensures root < f.path && All(l)[f] == 1 {
      UnderMatchesLookup(root, children, grouped, remote, f);
    }
  }

  /** With a limit it is that many different members of the same selection, shared by objects and prefixes. */
  lemma {:induction false} LimitedListingIsAPart(root: Place, children: seq<Entry>, grouped: bool, remote: bool,
                                                 l: Listing, n: nat)
    requires DistinctNames(children) && Selection(l, Under(root, children, grouped, remote), Some(n))
    ensures |l.objects| + |l.prefixes| == Min(n, |Under(root, children, grouped, remote)|)
    ensures forall f :: f in All(l) ==>
              root < f.path && All(l)[f] == 1 && Selected(children, f.path[|root|..], f.kind, grouped, remote)
  {
    forall f | f in All(l)
      ensures root < f.path && All(l)[f] == 1 && Selected(children, f.path[|root|..], f.kind, grouped, remote)
    {
      UnderMatchesLookup(root, children, grouped, remote, f);
      assert All(l)[f] <= Under(root, children, grouped, remote)[f];
    }
  }

  /**
   A server that lets the client recover every type, and that answers for links as Local does; only a
   link that Local cannot stat, such as a link to itself, may be reported missing, since SFTP v3 has no
   status of its own for it.
   */
  ghost predicate Mirrors(children: seq<Entry>, grouped: bool) {
    children == [] || (MirrorsAt(children[0], grouped) && Mirrors(children[1..], grouped))
  }

  ghost predicate MirrorsAt(e: Entry, grouped: bool) {
    && (e.listed || e.lstat)
    && (e.node.Link? ==>
          && e.stat
          && (e.node.remote == e.node.local || (e.node.local.StatFails? && e.node.remote.Missing?)))
    && (e.node.Dir? && !grouped ==> Mirrors(e.node.children, grouped))
  }

  /** Local comes to an entry that only Local cannot stat. */
  ghost predicate FailsLocallyOnly(children: seq<Entry>, grouped: bool) {
    children != [] && (FailsLocallyOnlyAt(children[0], grouped) || FailsLocallyOnly(children[1..], grouped))
  }

  ghost predicate FailsLocallyOnlyAt(e: Entry, grouped: bool) {
    match e.node
    case Link(local, remote) => local.StatFails? && remote.Missing?
    case Dir(children) => !e.statable || (!grouped && FailsLocallyOnly(children, grouped))
    case _ => !e.statable
  }

  /** On such a tree Local raises exactly when SFTP does or an entry fails for Local only. */
  lemma {:induction false} BackendsFailAlikeExactlyWhen(children: seq<Entry>, grouped: bool)
    requires Mirrors(children, grouped)
    ensures AnyFails(children, grouped, false) <==>
              AnyFails(children, grouped, true) || FailsLocallyOnly(children, grouped)
    decreases children
  {
    if children != [] {
      var e := children[0];
      if e.node.Dir? && !grouped { BackendsFailAlikeExactlyWhen(e.node.children, grouped); }
      assert EntryFails(e, grouped, false) <==> EntryFails(e, grouped, true) || FailsLocallyOnlyAt(e, grouped);
      BackendsFailAlikeExactlyWhen(children[1..], grouped);
    }
  }

  lemma {:induction false} BackendsSelectAlike(path: Place, children: seq<Entry>, grouped: bool)
    requires Mirrors(children, grouped)
    ensures Under(path, children, grouped, true) == Under(path, children, grouped, false)
    decreases children
  {
    if children != [] {
      var p, node := path + [children[0].name], children[0].node;
      if node.Dir? && !grouped { BackendsSelectAlike(p, node.children, grouped); }
      assert FromNode(p, node, grouped, true) == FromNode(p, node, grouped, false);
      BackendsSelectAlike(path, children[1..], grouped);
    }
  }

  /** The one tree on which they part: a link that Local cannot stat and the server reports missing. */
  lemma {:induction false} LinkLoopSplitsTheBackends(name: string, grouped: bool)
    ensures var loop := [Entry(name, Link(StatFails, Missing), true, true, true, true)];
            Mirrors(loop, grouped) && AnyFails(loop, grouped, false) && !AnyFails(loop, grouped, true)
  {
    var e := Entry(name, Link(StatFails, Missing), true, true, true, true);
    assert [e][1..] == [] && MirrorsAt(e, grouped) && EntryFails(e, grouped, false) && !EntryFails(e, grouped, true);
    assert Mirrors([], grouped) && !AnyFails([], grouped, true);
  }

  /**
   On one tree behind a server that mirrors it: Local raises exactly when SFTP does or some entry fails
   for Local only, and when neither raises they select the same paths.
   */
  method ListBoth(root: Place, dir: Node, grouped: bool) returns (a: Result<Listing, Error>, b: Result<Listing, Error>)
    requires dir.Dir? && Mirrors(dir.children, grouped)
    ensures a.Err? <==> b.Err? || FailsLocallyOnly(dir.children, grouped)
    ensures a.Ok? ==> multiset(a.value.objects) == multiset(b.value.objects)
                      && multiset(a.value.prefixes) == multiset(b.value.prefixes)
  {
    a := ListLocalTree(root, dir, grouped, None);
    b := ListSftpTree(root, dir, grouped, None);
    BackendsFailAlikeExactlyWhen(dir.children, grouped);
    BackendsSelectAlike(root, dir.children, grouped);
    if a.Ok? { SameWholeSameKinds(a.value, b.value); }
  }

  lemma SameWholeSameKinds(a: Listing, b: Listing)
    requires KindsRight(a) && KindsRight(b) && All(a) == All(b)
    ensures multiset(a.objects) == multiset(b.objects) && multiset(a.prefixes) == multiset(b.prefixes)
  {
    forall f ensures multiset(a.objects)[f] == multiset(b.objects)[f]
      && multiset(a.prefixes)[f] == multiset(b.prefixes)[f] {
      assert All(a)[f] == All(b)[f];
      assert f.kind.Object? ==> f !in a.prefixes && f !in b.prefixes;
      assert f.kind.Prefix? ==> f !in a.objects && f !in b.objects;
    }
  }
}
