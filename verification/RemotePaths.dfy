/** posixpath.dirname chains, and `_check_not_directory` of the SFTP helpers. */
module RemotePaths {
  import opened Common

  /** str.rstrip("/"). */
  function RStrip(p: string): (r: string)
    ensures |r| <= |p| && r == p[..|r|]
    ensures r != "" ==> r[|r| - 1] != '/'
    ensures forall i :: |r| <= i < |p| ==> p[i] == '/'
  {
    if p != "" && p[|p| - 1] == '/' then RStrip(p[..|p| - 1]) else p
  }

  /** The text up to and including the last slash. */
  function UpToLastSlash(p: string): (r: string)
    ensures |r| <= |p| && r == p[..|r|]
    ensures r != "" ==> r[|r| - 1] == '/'
    ensures forall i :: |r| <= i < |p| ==> p[i] != '/'
  {
    if p == "" || p[|p| - 1] == '/' then p else UpToLastSlash(p[..|p| - 1])
  }

  /** posixpath.dirname. */
  function Dirname(p: string): string {
    var head := UpToLastSlash(p);
    if RStrip(head) == "" then head else RStrip(head)
  }

  /** A dirname is a proper prefix, or the path consists of slashes only and is its own dirname. */
  lemma DirnameShrinks(p: string)
    ensures Dirname(p) <= p
    ensures |Dirname(p)| < |p| || Dirname(p) == p
    ensures Dirname(p) == p ==> forall i :: 0 <= i < |p| ==> p[i] == '/'
  {
    var head := UpToLastSlash(p);
    assert head <= p && RStrip(head) <= head;
  }

  /**
   What a dirname cuts off is the last name and the slashes before it; only leading slashes are kept, and a
   path without a slash has no dirname.
   */
  lemma {:induction false} DirnameCutsTheLastName(p: string)
    ensures Dirname(p) <= p && (Dirname(p) == "" <==> '/' !in p)
    ensures exists k :: |Dirname(p)| <= k <= |p| && CutAt(p, |Dirname(p)|, k)
  {
    var head := UpToLastSlash(p);
    DirnameShrinks(p);
    assert head != "" ==> p[|head| - 1] == '/';
    assert Dirname(p) != "" ==> head != "";
    assert CutAt(p, |Dirname(p)|, |head|);
  }

  /** `p` is what is kept up to `d`, slashes up to `k`, and a name. */
  predicate CutAt(p: string, d: nat, k: nat)
    requires d <= k <= |p|
  {
    && OnlySlashes(p[d..k]) && '/' !in p[k..]
    && (d > 0 ==> if OnlySlashes(p[..d]) then d == k else p[d - 1] != '/' && d < k)
  }

  predicate OnlySlashes(p: string) { forall i :: 0 <= i < |p| ==> p[i] == '/' }

  /** The paths `_check_not_directory` and `mkdir` go through, nearest first. */
  function Ancestors(p: string): (r: seq<string>)
    ensures r != [] && r[0] == p
    decreases |p|
  {
    DirnameShrinks(p);
    var parent := Dirname(p);
    if parent == "" || parent == p then [p] else [p] + Ancestors(parent)
  }

  lemma {:induction false} AncestorsClimb(p: string, i: nat)
    requires i < |Ancestors(p)|
    ensures Ancestors(p)[0] == p
    ensures if i + 1 < |Ancestors(p)| then
              Ancestors(p)[i + 1] == Dirname(Ancestors(p)[i]) && |Ancestors(p)[i + 1]| < |Ancestors(p)[i]|
            else Dirname(Ancestors(p)[i]) == "" || Dirname(Ancestors(p)[i]) == Ancestors(p)[i]
    decreases |p|
  {
    DirnameShrinks(p);
    var parent := Dirname(p);
    if !(parent == "" || parent == p) {
      assert Ancestors(p)[1..] == Ancestors(parent);
      assert Ancestors(parent)[0] == parent;
      if i > 0 { AncestorsClimb(parent, i - 1); }
    }
  }

  /** `osError`: what stat raised is an OSError, though not the one for a missing path. */
  datatype StatReply = NotFound | Typed(isDir: bool) | Untyped | Raises(osError: bool)

  datatype Verdict = Fine | NotADirectory | TypeUnavailable | StatError

  /** What stat says about the first path of the chain that it finds, if it finds one. */
  function FirstReply(chain: seq<string>, stat: string -> StatReply): Option<StatReply> {
    if chain == [] then None
    else if stat(chain[0]).NotFound? then FirstReply(chain[1..], stat)
    else Some(stat(chain[0]))
  }

  predicate AllMissing(chain: seq<string>, stat: string -> StatReply) {
    forall k :: 0 <= k < |chain| ==> stat(chain[k]).NotFound?
  }

  /** The first path of the chain that is found answers `reply`. */
  ghost predicate NearestReplies(chain: seq<string>, stat: string -> StatReply, reply: StatReply) {
    exists k :: 0 <= k < |chain| && stat(chain[k]) == reply && !reply.NotFound? && AllMissing(chain[..k], stat)
  }

  lemma {:induction false} FirstReplyIsTheNearest(chain: seq<string>, stat: string -> StatReply, reply: StatReply)
    ensures FirstReply(chain, stat).None? <==> AllMissing(chain, stat)
    ensures FirstReply(chain, stat) == Some(reply) <==> NearestReplies(chain, stat, reply)
  {
    if chain == [] {
    } else if stat(chain[0]).NotFound? {
      var rest := chain[1..];
      FirstReplyIsTheNearest(rest, stat, reply);
      assert AllMissing(rest, stat) ==> forall k :: 0 < k < |chain| ==> chain[k] == rest[k - 1];
      if NearestReplies(rest, stat, reply) {
        var k :| 0 <= k < |rest| && stat(rest[k]) == reply && !reply.NotFound? && AllMissing(rest[..k], stat);
        assert chain[..k + 1] == [chain[0]] + rest[..k] && chain[k + 1] == rest[k];
      }
      if NearestReplies(chain, stat, reply) {
        var k :| 0 <= k < |chain| && stat(chain[k]) == reply && !reply.NotFound? && AllMissing(chain[..k], stat);
        assert rest[..k - 1] == chain[..k][1..] && rest[k - 1] == chain[k];
      }
      assert AllMissing(chain, stat) ==> forall k :: 0 <= k < |rest| ==> rest[k] == chain[k + 1];
    } else {
      if stat(chain[0]) == reply { assert AllMissing(chain[..0], stat); }
      if NearestReplies(chain, stat, reply) {
        var k :| 0 <= k < |chain| && stat(chain[k]) == reply && !reply.NotFound? && AllMissing(chain[..k], stat);
        assert k > 0 ==> chain[..k][0] == chain[0];
      }
    }
  }

  /** A directory, or nothing at all, makes the missing path genuinely missing. */
  function Judge(nearest: Option<StatReply>): Verdict {
    match nearest
    case None => Fine
    case Some(Raises(_)) => StatError
    case Some(Typed(isDir)) => if isDir then Fine else NotADirectory
    case Some(_) => TypeUnavailable
  }

  /** Where the search starts: the path without trailing slashes, the root, or the working directory. */
  function Start(path: string): (r: string)
    ensures r != "" && (r[|r| - 1] == '/' ==> r == "/")
    ensures r[0] == '/' <==> path != "" && path[0] == '/'
    ensures if OnlySlashes(path) then r == "/" || r == "." else r <= path && OnlySlashes(path[|r|..])
  {
    if RStrip(path) != "" then RStrip(path) else if path != "" && path[0] == '/' then "/" else "."
  }

  /** The paths `_check_not_directory` asks for, in its order. */
  function Search(path: string): seq<string> { Ancestors(Start(path)) }

  /**
   SFTP v3 answers NO_SUCH_FILE both for a missing path and for a path through a file.  The nearest
   ancestor that exists decides which it was.
   */
  method CheckNotDirectory(stat: string -> StatReply, path: string) returns (v: Verdict)
    ensures v.Fine? <==> AllMissing(Search(path), stat) || NearestReplies(Search(path), stat, Typed(true))
    ensures v.NotADirectory? <==> NearestReplies(Search(path), stat, Typed(false))
    ensures v.TypeUnavailable? <==> NearestReplies(Search(path), stat, Untyped)
    ensures v.StatError? <==> exists osError :: NearestReplies(Search(path), stat, Raises(osError))
  {
    v := Ask(stat, path);
    var nearest := FirstReply(Search(path), stat);
    forall reply ensures nearest == Some(reply) <==> NearestReplies(Search(path), stat, reply) {
      FirstReplyIsTheNearest(Search(path), stat, reply);
    }
    FirstReplyIsTheNearest(Search(path), stat, Untyped);
    if nearest.Some? && nearest.value.Raises? {
      assert NearestReplies(Search(path), stat, Raises(nearest.value.osError));
    }
  }

  /** The loop itself. */
  method Ask(stat: string -> StatReply, path: string) returns (v: Verdict)
    ensures v == Judge(FirstReply(Search(path), stat))
  {
    var candidate := Start(path);
    while true
      invariant FirstReply(Search(path), stat) == FirstReply(Ancestors(candidate), stat)
      decreases |candidate|
    {
      var reply := stat(candidate);
      if reply.Raises? { return StatError; }
      if reply.Untyped? { return TypeUnavailable; }
      if reply.Typed? {
        return if reply.isDir then Fine else NotADirectory;
      }
      DirnameShrinks(candidate);
      var parent := Dirname(candidate);
      if parent == "" || parent == candidate { return Fine; }
      assert Ancestors(candidate)[1..] == Ancestors(parent);
      candidate := parent;
    }
  }
}
