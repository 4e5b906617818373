/** `list_objects` of both backends: argument checks, the root, and then the worklist. */
module ListObjects {
  import opened Common
  import opened Enumeration
  import Remote = RemotePaths

  /** What stat() says about the requested root; it follows links. */
  datatype RootStat = Missing | ThroughFile(isLink: bool) | Unstatable | Reached(node: Node, typed: bool)

  /** What enumerating an existing root selects: the file itself, or what is under the directory. */
  ghost function Whole(at: Place, node: Node, grouped: bool, remote: bool): multiset<Found> {
    match node
    case File => multiset{Found(Object, at)}
    case Dir(children) => Under(at, children, grouped, remote)
    case _ => multiset{}
  }

  predicate BadArguments(delimiter: Option<string>, maxResults: Option<int>) {
    || (delimiter.Some? && delimiter.value != "/")
    || (maxResults.Some? && maxResults.value < 0)
  }

  /** The arguments are good and ask for something. */
  predicate Proceeds(delimiter: Option<string>, maxResults: Option<int>) {
    !BadArguments(delimiter, maxResults) && maxResults != Some(0)
  }

  const NOTHING := Listing([], [])

  method ListLocal(root: RootStat, at: Place, delimiter: Option<string>, maxResults: Option<int>)
      returns (r: Result<Listing, Error>)
    ensures r == Err(BadArgument) <==> BadArguments(delimiter, maxResults)
    ensures r.Ok? && root.Reached? ==>
              var limit := if maxResults.Some? then Some(maxResults.value as nat) else None;
              Selection(r.value, Whole(at, root.node, delimiter.Some?, false), limit)
    ensures r.Ok? && !root.Reached? ==> r.value == NOTHING
    ensures !BadArguments(delimiter, maxResults) && maxResults == Some(0) ==> r == Ok(NOTHING)
    ensures r.Err? && !BadArguments(delimiter, maxResults) ==>
              || root.Unstatable? || root == ThroughFile(false)
              || (root.Reached? && root.node.Locked?)
              || (root.Reached? && root.node.Dir? && AnyFails(root.node.children, delimiter.Some?, false))
    ensures maxResults.None? && root.Reached? && root.node.Dir? ==>
              AnyFails(root.node.children, delimiter.Some?, false) ==> r.Err?
    ensures root.Missing? && Proceeds(delimiter, maxResults) ==> r == Ok(NOTHING)
    ensures root.Unstatable? && Proceeds(delimiter, maxResults) ==> r == Err(StatError)
    ensures root.ThroughFile? && Proceeds(delimiter, maxResults) ==>
              r == if root.isLink then Ok(NOTHING) else Err(NotADirectory)
    ensures root.Reached? && root.node.Locked? && Proceeds(delimiter, maxResults) ==> r == Err(ListError)
  {
    if BadArguments(delimiter, maxResults) { return Err(BadArgument); }
    if maxResults == Some(0) { return Ok(NOTHING); }
    var limit := if maxResults.Some? then Some(maxResults.value as nat) else None;
    match root
    case Missing => return Ok(NOTHING);
    case ThroughFile(isLink) =>
      if isLink { return Ok(NOTHING); }
      return Err(NotADirectory);
    case Unstatable => return Err(StatError);
    case Reached(node, _) =>
      if node.File? { return Ok(Listing([Found(Object, at)], [])); }
      if node.Locked? { return Err(ListError); }
      if node.Dir? {
        r := ListLocalTree(at, node, delimiter.Some?, limit);
        if r.Err? { r := Err(StatError); }   // the mapped error; its class is not modelled
        return;
      }
      return Ok(NOTHING);
  }

  /** `stat` answers for the ancestors of the remote path, should the root be missing. */
  method ListSftp(root: RootStat, at: Place, remotePath: string, stat: string -> Remote.StatReply,
                  delimiter: Option<string>, maxResults: Option<int>) returns (r: Result<Listing, Error>)
    requires !root.ThroughFile?   // SFTP v3 reports it as Missing
    ensures r == Err(BadArgument) <==> BadArguments(delimiter, maxResults)
    ensures r.Ok? && root.Reached? ==>
              var limit := if maxResults.Some? then Some(maxResults.value as nat) else None;
              Selection(r.value, Whole(at, root.node, delimiter.Some?, true), limit)
    ensures !BadArguments(delimiter, maxResults) && maxResults == Some(0) ==> r == Ok(NOTHING)
    // a missing root: empty, or the reason found at its nearest existing ancestor
    ensures root.Missing? && Proceeds(delimiter, maxResults) ==>
              var chain := Remote.Search(remotePath);
              && (r == Ok(NOTHING) <==>
                    Remote.AllMissing(chain, stat) || Remote.NearestReplies(chain, stat, Remote.Typed(true)))
              && (r == Err(NotADirectory) <==> Remote.NearestReplies(chain, stat, Remote.Typed(false)))
              && (r == Err(TypeUnavailable) <==> Remote.NearestReplies(chain, stat, Remote.Untyped))
              && (r == Err(StatError) <==> exists os :: Remote.NearestReplies(chain, stat, Remote.Raises(os)))
    // a root that cannot be looked at is an error
    ensures root.Unstatable? && Proceeds(delimiter, maxResults) ==> r == Err(StatError)
    ensures root.Reached? && !root.typed && Proceeds(delimiter, maxResults) ==> r == Err(TypeUnavailable)
    ensures root.Reached? && root.typed && root.node.Locked? && Proceeds(delimiter, maxResults) ==> r == Err(ListError)
    ensures r.Err? && root.Reached? && !BadArguments(delimiter, maxResults) ==>
              || !root.typed || root.node.Locked?
              || (root.node.Dir? && AnyFails(root.node.children, delimiter.Some?, true))
    ensures maxResults.None? && root.Reached? && root.node.Dir? ==>
              AnyFails(root.node.children, delimiter.Some?, true) ==> r.Err?
  {
    if BadArguments(delimiter, maxResults) { return Err(BadArgument); }
    if maxResults == Some(0) { return Ok(NOTHING); }
    var limit := if maxResults.Some? then Some(maxResults.value as nat) else None;
    if root.Unstatable? { return Err(StatError); }
    if root.Missing? {
      var verdict := Remote.CheckNotDirectory(stat, remotePath);
      match verdict
      case Fine => return Ok(NOTHING);
      case NotADirectory => return Err(NotADirectory);
      case TypeUnavailable => return Err(TypeUnavailable);
      case StatError => return Err(StatError);
    }
    if !root.typed { return Err(TypeUnavailable); }
    if root.node.File? { return Ok(Listing([Found(Object, at)], [])); }
    if root.node.Locked? { return Err(ListError); }
    if root.node.Dir? {
      r := ListSftpTree(at, root.node, delimiter.Some?, limit);
      if r.Err? { r := Err(StatError); }   // the mapped error; its class is not modelled
      return;
    }
    return Ok(NOTHING);
  }
}
