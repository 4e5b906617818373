/**
 Finding the caller's own error inside what a transfer raised (_CallerInput in
 _core/stream_errors.py). Exceptions point to their cause and their context; user code can set both,
 so the graph may share parts and may have cycles.
 */
module StreamErrors {
  import opened Common

  type Exception = nat   // identity, what `is` and id() compare
  type Traceback = nat

  datatype Links = Links(cause: Option<Exception>, context: Option<Exception>)

  /** The exceptions alive, with their links. */
  type Graph = map<Exception, Links>

  ghost predicate Closed(g: Graph) {
    forall e :: e in g ==>
      && (g[e].cause.Some? ==> g[e].cause.value in g)
      && (g[e].context.Some? ==> g[e].context.value in g)
  }

  ghost predicate Edge(g: Graph, a: Exception, b: Exception)
    requires a in g
  {
    g[a].cause == Some(b) || g[a].context == Some(b)
  }

  // ---------------------------------------------------------------- reachability

  ghost predicate Path(g: Graph, p: seq<Exception>) {
    p != [] && (forall e :: e in p ==> e in g) && forall i :: 0 <= i < |p| - 1 ==> Edge(g, p[i], p[i + 1])
  }

  ghost predicate Connects(g: Graph, p: seq<Exception>, a: Exception, b: Exception) {
    Path(g, p) && p[0] == a && p[|p| - 1] == b
  }

  ghost predicate Reachable(g: Graph, a: Exception, b: Exception) {
    exists p :: Connects(g, p, a, b)
  }

  /** A path on which nothing before the end is recorded. */
  ghost predicate Outermost(g: Graph, recorded: set<Exception>, p: seq<Exception>, a: Exception, b: Exception) {
    Connects(g, p, a, b) && forall i :: 0 <= i < |p| - 1 ==> p[i] !in recorded
  }

  ghost predicate Uncovered(g: Graph, recorded: set<Exception>, a: Exception, b: Exception) {
    exists p :: Outermost(g, recorded, p, a, b)
  }

  lemma OneStepFurther(g: Graph, recorded: set<Exception>, a: Exception, b: Exception, c: Exception)
    requires Uncovered(g, recorded, a, b) && b in g && Edge(g, b, c) && c in g && b !in recorded
    ensures Uncovered(g, recorded, a, c)
  {
    var p :| Outermost(g, recorded, p, a, b);
    assert Outermost(g, recorded, p + [c], a, c);
  }

  /** A set closed under the links holds everything reachable from its members. */
  lemma {:induction false} ClosedSetIsNotLeft(g: Graph, inside: set<Exception>, p: seq<Exception>)
    requires Path(g, p) && p[0] in inside
    requires forall a, b :: a in inside && a in g && Edge(g, a, b) ==> b in inside
    ensures p[|p| - 1] in inside
    decreases |p|
  {
    if |p| > 1 {
      assert Edge(g, p[0], p[1]);
      forall i | 0 <= i < |p| - 2 ensures Edge(g, p[1..][i], p[1..][i + 1]) { assert Edge(g, p[i + 1], p[i + 2]); }
      ClosedSetIsNotLeft(g, inside, p[1..]);
    }
  }

  // ---------------------------------------------------------------- the search, by recursion

  /**
   Depth first, an exception before its cause, its cause before its context, nothing twice: the
   first recorded exception, and what has been looked at.
   */
  ghost function Explore(g: Graph, recorded: set<Exception>, e: Exception,
                         seen: set<Exception>): (r: (Option<Exception>, set<Exception>))
    requires Closed(g) && e in g && seen <= g.Keys
    ensures seen <= r.1 <= g.Keys
    decreases g.Keys - seen, 1
  {
    if e in seen then (None, seen)
    else if e in recorded then (Some(e), seen + {e})
    else
      var first := ExploreLink(g, recorded, g[e].cause, seen + {e});
      if first.0.Some? then first else ExploreLink(g, recorded, g[e].context, first.1)
  }

  ghost function ExploreLink(g: Graph, recorded: set<Exception>, link: Option<Exception>,
                             seen: set<Exception>): (r: (Option<Exception>, set<Exception>))
    requires Closed(g) && (link.Some? ==> link.value in g) && seen <= g.Keys
    ensures seen <= r.1 <= g.Keys
    decreases g.Keys - seen, 2
  {
    if link.None? then (None, seen) else Explore(g, recorded, link.value, seen)
  }

  /** What Python reports first as the reason for an exception. */
  function Main(links: Links): Option<Exception> { if links.cause.Some? then links.cause else links.context }

  /**
   `p` follows the causes, or where there is no cause the contexts, over exceptions not in `seen` and none
   twice, to the first recorded one.
   */
  ghost predicate LeadsTo(g: Graph, recorded: set<Exception>, p: seq<Exception>, seen: set<Exception>)
    decreases |p|
  {
    && p != [] && p[0] in g && p[0] !in seen
    && if |p| == 1 then p[0] in recorded
       else p[0] !in recorded && Main(g[p[0]]) == Some(p[1]) && LeadsTo(g, recorded, p[1..], seen + {p[0]})
  }

  /**
   The causes come first: the recorded exception at the end of the chain of causes is the answer, whatever
   the contexts along it lead to; a context counts where there is no cause.
   */
  lemma {:induction false} CausesComeFirst(g: Graph, recorded: set<Exception>, p: seq<Exception>,
                                           seen: set<Exception>)
    requires Closed(g) && seen <= g.Keys && LeadsTo(g, recorded, p, seen)
    ensures Explore(g, recorded, p[0], seen).0 == Some(p[|p| - 1])
    decreases |p|
  {
    if |p| > 1 {
      CausesComeFirst(g, recorded, p[1..], seen + {p[0]});
      var link := ExploreLink(g, recorded, Some(p[1]), seen + {p[0]});
      assert link.0 == Some(p[|p| - 1]);
    }
  }

  /** The same for a stack of exceptions, the top one first. */
  ghost function ExploreAll(g: Graph, recorded: set<Exception>, stack: seq<Exception>,
                            seen: set<Exception>): Option<Exception>
    requires Closed(g) && (forall e :: e in stack ==> e in g) && seen <= g.Keys
    decreases |stack|
  {
    if stack == [] then None
    else
      var top := Explore(g, recorded, stack[|stack| - 1], seen);
      if top.0.Some? then top.0 else ExploreAll(g, recorded, stack[..|stack| - 1], top.1)
  }

  function Push(stack: seq<Exception>, link: Option<Exception>): seq<Exception> {
    if link.Some? then stack + [link.value] else stack
  }

  lemma {:induction false} TopIsExploredFirst(g: Graph, recorded: set<Exception>, rest: seq<Exception>,
                                              link: Option<Exception>, seen: set<Exception>)
    requires Closed(g) && (forall x :: x in rest ==> x in g) && (link.Some? ==> link.value in g) && seen <= g.Keys
    ensures forall x :: x in Push(rest, link) ==> x in g
    ensures var top := ExploreLink(g, recorded, link, seen);
            ExploreAll(g, recorded, Push(rest, link), seen) == if top.0.Some? then top.0
              else ExploreAll(g, recorded, rest, top.1)
  {
    if link.Some? { assert Push(rest, link)[..|rest|] == rest; }
  }

  /** Pushing the links, the cause on top, instead of recursing into them changes nothing. */
  lemma {:induction false} PushingIsRecursing(g: Graph, recorded: set<Exception>, rest: seq<Exception>, e: Exception,
                                              seen: set<Exception>)
    requires Closed(g) && (forall x :: x in rest ==> x in g) && e in g && seen <= g.Keys && e !in seen && e !in recorded
    ensures forall x :: x in Push(Push(rest, g[e].context), g[e].cause) ==> x in g
    ensures ExploreAll(g, recorded, rest + [e], seen)
         == ExploreAll(g, recorded, Push(Push(rest, g[e].context), g[e].cause), seen + {e})
  {
    TopIsExploredFirst(g, recorded, rest, Some(e), seen);
    assert Push(rest, Some(e)) == rest + [e];
    var cause := ExploreLink(g, recorded, g[e].cause, seen + {e});
    TopIsExploredFirst(g, recorded, rest, g[e].context, cause.1);
    TopIsExploredFirst(g, recorded, Push(rest, g[e].context), g[e].cause, seen + {e});
  }

  // ---------------------------------------------------------------- the search, with a worklist

  /** Where the search for the recorded errors in `error` is. */
  ghost predicate Searching(g: Graph, recorded: set<Exception>, error: Exception, answer: Option<Exception>,
                            pending: seq<Exception>, seen: set<Exception>) {
    && Closed(g) && error in g
    && seen <= g.Keys && (forall e :: e in pending ==> e in g) && seen !! recorded
    && (error in seen || error in pending)
    && (forall e :: e in seen || e in pending ==> Uncovered(g, recorded, error, e))
    && (forall a, b :: a in seen && Edge(g, a, b) ==> b in seen || b in pending)
    && ExploreAll(g, recorded, pending, seen) == answer
  }

  lemma {:induction false} SearchBegins(g: Graph, recorded: set<Exception>, error: Exception)
    requires Closed(g) && error in g
    ensures Searching(g, recorded, error, Explore(g, recorded, error, {}).0, [error], {})
  {
    assert [error][..0] == [];
    assert Outermost(g, recorded, [error], error, error);
  }

  lemma SeenIsSkipped(g: Graph, recorded: set<Exception>, error: Exception, answer: Option<Exception>,
                       rest: seq<Exception>, e: Exception, seen: set<Exception>)
    requires Searching(g, recorded, error, answer, rest + [e], seen) && e in seen
    ensures Searching(g, recorded, error, answer, rest, seen)
  {
    assert (rest + [e])[..|rest|] == rest;
    assert e in rest + [e];
    assert forall x :: x in rest ==> x in rest + [e];
  }

  lemma RecordedEndsIt(g: Graph, recorded: set<Exception>, error: Exception, answer: Option<Exception>,
                       rest: seq<Exception>, e: Exception, seen: set<Exception>)
    requires Searching(g, recorded, error, answer, rest + [e], seen) && e in recorded
    ensures Uncovered(g, recorded, error, e) && Reachable(g, error, e) && answer == Some(e)
  {
    assert e in rest + [e];
    var p :| Outermost(g, recorded, p, error, e);
    assert Connects(g, p, error, e);
  }

  lemma LinksArePushed(g: Graph, recorded: set<Exception>, error: Exception, answer: Option<Exception>,
                       rest: seq<Exception>, e: Exception, seen: set<Exception>)
    requires Searching(g, recorded, error, answer, rest + [e], seen) && e !in recorded && e !in seen
    ensures e in g && Searching(g, recorded, error, answer, Push(Push(rest, g[e].context), g[e].cause), seen + {e})
  {
    assert e in rest + [e];
    assert forall x :: x in rest ==> x in rest + [e];
    PushingIsRecursing(g, recorded, rest, e, seen);
    var next := Push(Push(rest, g[e].context), g[e].cause);
    forall x | x in next
      ensures Uncovered(g, recorded, error, x)
    {
      if x !in rest { OneStepFurther(g, recorded, error, e, x); }
    }
    forall a, b | a in seen + {e} && Edge(g, a, b)
      ensures b in seen + {e} || b in next
    {
      if a == e { assert b in next; } else { assert b in seen || b in rest + [e]; }
    }
  }

  lemma NothingIsLeft(g: Graph, recorded: set<Exception>, error: Exception, answer: Option<Exception>,
                      seen: set<Exception>)
    requires Searching(g, recorded, error, answer, [], seen)
    ensures !exists e :: e in recorded && Reachable(g, error, e)
    ensures answer == None
  {
    forall e | Reachable(g, error, e) ensures e !in recorded {
      var p :| Connects(g, p, error, e);
      ClosedSetIsNotLeft(g, seen, p);
    }
  }

  // ---------------------------------------------------------------- the wrapped input

  datatype Outcome<T> = Returned(value: T) | RaisedError(error: Exception, traceback: Traceback)

  class CallerInput {
    var errors: seq<(Exception, Traceback)>

    constructor ()
      ensures errors == []
    {
      errors := [];
    }

    /** What the caller's stream raised and was recorded. */
    ghost function Recorded(): set<Exception>
      reads this
    {
      set i | 0 <= i < |errors| :: errors[i].0
    }

    /** A use of the caller's stream: looking an attribute up, or calling it. The error goes on unchanged. */
    method Invoke<T>(native: Outcome<T>) returns (outcome: Outcome<T>)
      modifies this
      ensures outcome == native
      ensures native.RaisedError? ==> errors == old(errors) + [(native.error, native.traceback)]
      ensures native.Returned? ==> errors == old(errors)
    {
      if native.RaisedError? {
        errors := errors + [(native.error, native.traceback)];
      }
      outcome := native;
    }

    ghost predicate IsFirstRecord(entry: (Exception, Traceback))
      reads this
    {
      exists i :: 0 <= i < |errors| && errors[i] == entry && forall j :: 0 <= j < i ==> errors[j].0 != entry.0
    }

    method Lookup(e: Exception) returns (found: Option<(Exception, Traceback)>)
      ensures found.None? <==> e !in Recorded()
      ensures found.Some? ==> found.value.0 == e && IsFirstRecord(found.value)
    {
      for i := 0 to |errors|
        invariant forall j :: 0 <= j < i ==> errors[j].0 != e
      {
        if errors[i].0 == e { return Some(errors[i]); }
      }
      return None;
    }

    /** One round: the exception popped off the worklist is skipped, found, or replaced by its links. */
    method Look(g: Graph, error: Exception, ghost answer: Option<Exception>, rest: seq<Exception>, current: Exception,
                seen: set<Exception>)
      returns (found: Option<(Exception, Traceback)>, pending: seq<Exception>, seen': set<Exception>)
      requires Searching(g, Recorded(), error, answer, rest + [current], seen)
      ensures found.None? ==> Searching(g, Recorded(), error, answer, pending, seen')
      ensures found.None? ==> |g.Keys - seen'| < |g.Keys - seen| || (seen' == seen && pending == rest)
      ensures found.Some? ==> IsFirstRecord(found.value) && answer == Some(found.value.0)
      ensures found.Some? ==> Uncovered(g, Recorded(), error, found.value.0)
      ensures found.Some? ==> found.value.0 in Recorded() && Reachable(g, error, found.value.0)
    {
      found, pending, seen' := None, rest, seen;
      if current in seen {
        SeenIsSkipped(g, Recorded(), error, answer, rest, current, seen);
        return;
      }
      found := Lookup(current);
      if found.Some? {
        RecordedEndsIt(g, Recorded(), error, answer, rest, current, seen);
        return;
      }
      LinksArePushed(g, Recorded(), error, answer, rest, current, seen);
      Smaller(g.Keys - (seen + {current}), g.Keys - seen, current);
      seen' := seen + {current};
      if g[current].context.Some? { pending := pending + [g[current].context.value]; }
      if g[current].cause.Some? { pending := pending + [g[current].cause.value]; }
    }

    /**
     A recorded error is returned exactly when one can be reached from the given one, whatever cycles
     there are. It is the first that the recursive search meets, nothing on some path to it is
     recorded, and it comes with the traceback of its first record.
     */
    method OriginalIn(g: Graph, error: Exception) returns (found: Option<(Exception, Traceback)>)
      requires Closed(g) && error in g
      ensures found.Some? <==> exists e :: e in Recorded() && Reachable(g, error, e)
      ensures found.Some? ==> Uncovered(g, Recorded(), error, found.value.0) && IsFirstRecord(found.value)
      ensures (if found.Some? then Some(found.value.0) else None) == Explore(g, Recorded(), error, {}).0
    {
      var pending := [error];
      var seen: set<Exception> := {};
      ghost var answer := Explore(g, Recorded(), error, {}).0;
      SearchBegins(g, Recorded(), error);
      while pending != []
        invariant Searching(g, Recorded(), error, answer, pending, seen)
        decreases |g.Keys - seen|, |pending|
      {
        var current, rest := pending[|pending| - 1], pending[..|pending| - 1];
        TopAndRest(pending);
        found, pending, seen := Look(g, error, answer, rest, current, seen);
        if found.Some? { return; }
      }
      NothingIsLeft(g, Recorded(), error, answer, seen);
      found := None;
    }
  }

  lemma TopAndRest(stack: seq<Exception>)
    requires stack != []
    ensures stack == stack[..|stack| - 1] + [stack[|stack| - 1]]
  {}

  lemma Smaller(a: set<Exception>, b: set<Exception>, x: Exception)
    requires a <= b && x in b && x !in a
    ensures |a| < |b|
  {
    AtMost(a, b - {x});
  }

  lemma {:induction false} AtMost(a: set<Exception>, b: set<Exception>)
    requires a <= b
    ensures |a| <= |b|
  {
    if a != {} {
      var x :| x in a;
      AtMost(a - {x}, b - {x});
    }
  }
}
