/**
 Who closes what: `Pipeline.apply_read` and `_ReadStream` (_core/transforms/pipeline.py) under
 `StorageFacade.read_stream` (storage/facade/facade.py).

 Streams are numbered.  Closing one is native: it may raise, it may or may not leave the stream
 closed, and it may close others on the way, as a wrapper does with what it wraps.
 */
module StreamOwnership {
  import opened Common

  type Id = nat

  type Error = nat

  /** One close() call, the streams it left closed, and whether it returned normally. */
  datatype Attempt = Attempt(id: Id, also: set<Id>, ok: bool)

  ghost predicate AllOk(log: seq<Attempt>) { forall i :: 0 <= i < |log| ==> log[i].ok }

  class Streams {
    var closed: set<Id>
    var log: seq<Attempt>

    constructor ()
      ensures closed == {} && log == []
    {
      closed, log := {}, [];
    }

    method Close(id: Id) returns (ok: bool)
      modifies this
      ensures |log| == |old(log)| + 1 && old(log) <= log && log[|log| - 1].id == id && log[|log| - 1].ok == ok
      ensures closed == old(closed) + log[|log| - 1].also
    {
      var also: set<Id> := *;
      ok := *;
      log := log + [Attempt(id, also, ok)];
      closed := closed + also;
    }

    /** `_close_if_open`. */
    method CloseIfOpen(id: Id) returns (ok: bool)
      modifies this
      ensures if id in old(closed) then closed == old(closed) && log == old(log) && ok
              else |log| == |old(log)| + 1 && old(log) <= log && log[|log| - 1].id == id && log[|log| - 1].ok == ok
                   && closed == old(closed) + log[|log| - 1].also
    {
      ok := true;
      if id !in closed { ok := Close(id); }
    }

    /** `_close_if_open` as the next callback of a stack that has worked through `order` since `log0`. */
    method NextCallback(id: Id, ghost order: seq<Id>, ghost closed0: set<Id>, ghost log0: seq<Attempt>)
        returns (ok: bool)
      requires log0 <= log
      requires Replay(order, closed0, log[|log0|..]) && closed == ClosedAfter(closed0, log[|log0|..])
      modifies this
      ensures log0 <= log
      ensures Replay(order + [id], closed0, log[|log0|..]) && closed == ClosedAfter(closed0, log[|log0|..])
      ensures AllOk(log[|log0|..]) <==> AllOk(old(log[|log0|..])) && ok
    {
      ghost var before, mid := log[|log0|..], log;
      ok := CloseIfOpen(id);
      assert log == mid || log[|log0|..] == before + [log[|log| - 1]];
      ReplaySnoc(order, closed0, before, id, log[|log0|..]);
    }

    /** ExitStack.close over `_close_if_open` callbacks: last in, first out, and none is skipped by an error. */
    method RunCallbacks(callbacks: seq<Id>) returns (ok: bool)
      modifies this
      ensures old(log) <= log
      ensures Replay(Reverse(callbacks), old(closed), log[|old(log)|..])
      ensures closed == ClosedAfter(old(closed), log[|old(log)|..])
      // an error is raised exactly when some close raised
      ensures ok <==> AllOk(log[|old(log)|..])
    {
      ok := true;
      var i := |callbacks|;
      ghost var done: seq<Id>, closed0, log0 := [], closed, log;
      assert callbacks[..i] == callbacks && log[|log0|..] == [];
      while i > 0
        invariant 0 <= i <= |callbacks| && log0 <= log
        invariant Reverse(callbacks) == done + Reverse(callbacks[..i])
        invariant Replay(done, closed0, log[|log0|..]) && closed == ClosedAfter(closed0, log[|log0|..])
        invariant ok <==> AllOk(log[|log0|..])
      {
        i := i - 1;
        ReverseNext(callbacks, i, done);
        var closedNow := NextCallback(callbacks[i], done, closed0, log0);
        done := done + [callbacks[i]];
        ok := ok && closedNow;
      }
      assert callbacks[..0] == [];
      assert done + [] == done;
    }
  }

  function Reverse(s: seq<Id>): seq<Id> {
    if s == [] then [] else [s[|s| - 1]] + Reverse(s[..|s| - 1])
  }

  /** The last element comes first. */
  lemma {:induction false} ReverseAt(s: seq<Id>, k: nat)
    requires k < |s|
    ensures |Reverse(s)| == |s| && Reverse(s)[k] == s[|s| - 1 - k]
  {
    if |s| > 1 { ReverseAt(s[..|s| - 1], if k > 0 then k - 1 else 0); }
  }

  /** Popping one more off the stack. */
  lemma {:induction false} ReverseNext(s: seq<Id>, i: nat, done: seq<Id>)
    requires i < |s| && Reverse(s) == done + Reverse(s[..i + 1])
    ensures Reverse(s) == done + [s[i]] + Reverse(s[..i])
  {
    assert s[..i + 1][..i] == s[..i];
    assert Reverse(s[..i + 1]) == [s[i]] + Reverse(s[..i]);
  }

  lemma {:induction false} ReverseKeepsDistinct(s: seq<Id>)
    ensures forall id :: id in Reverse(s) <==> id in s
    ensures Distinct(s) ==> Distinct(Reverse(s))
  {
    if s != [] {
      var before := s[..|s| - 1];
      ReverseKeepsDistinct(before);
      assert s == before + [s[|s| - 1]];
      if Distinct(s) { assert s[|s| - 1] !in before; }
    }
  }

  function ClosedAfter(closed: set<Id>, log: seq<Attempt>): set<Id> {
    if log == [] then closed else ClosedAfter(closed, log[..|log| - 1]) + log[|log| - 1].also
  }

  /**
   The attempts go through `order` from front to back: a stream that is already closed when its turn
   comes is passed over, every other one is closed exactly once.
   */
  ghost predicate Replay(order: seq<Id>, closed: set<Id>, log: seq<Attempt>) {
    if order == [] then log == []
    else
      var last := order[|order| - 1];
      || (Replay(order[..|order| - 1], closed, log) && last in ClosedAfter(closed, log))
      || (log != [] && log[|log| - 1].id == last
          && Replay(order[..|order| - 1], closed, log[..|log| - 1])
          && last !in ClosedAfter(closed, log[..|log| - 1]))
  }

  lemma {:induction false} ReplaySnoc(order: seq<Id>, closed: set<Id>, log: seq<Attempt>, id: Id, log': seq<Attempt>)
    requires Replay(order, closed, log)
    requires if id in ClosedAfter(closed, log) then log' == log
             else |log'| == |log| + 1 && log <= log' && log'[|log|].id == id
    ensures Replay(order + [id], closed, log')
    ensures ClosedAfter(closed, log') == if log' == log then ClosedAfter(closed, log)
            else ClosedAfter(closed, log) + log'[|log|].also
  {
    assert (order + [id])[..|order|] == order;
    if log' != log { assert log'[..|log|] == log; }
  }

  function Ids(log: seq<Attempt>): seq<Id> {
    if log == [] then [] else Ids(log[..|log| - 1]) + [log[|log| - 1].id]
  }

  ghost predicate Distinct(s: seq<Id>) { forall i, j :: 0 <= i < j < |s| ==> s[i] != s[j] }

  /** After a replay every stream of the order was tried, or another close had closed it first. */
  lemma {:induction false} ReplayReachesAll(order: seq<Id>, closed: set<Id>, log: seq<Attempt>, id: Id)
    requires Replay(order, closed, log) && id in order
    ensures id in Ids(log) || id in ClosedAfter(closed, log)
    decreases |order|
  {
    var order', last := order[..|order| - 1], order[|order| - 1];
    if id != last {
      assert id in order';
      if Replay(order', closed, log) && last in ClosedAfter(closed, log) {
        ReplayReachesAll(order', closed, log, id);
      } else {
        ReplayReachesAll(order', closed, log[..|log| - 1], id);
      }
    }
  }

  /** `part` is `whole` with some elements left out. */
  ghost predicate Subsequence(part: seq<Id>, whole: seq<Id>) {
    if part == [] then true
    else if whole == [] then false
    else
      || Subsequence(part, whole[..|whole| - 1])
      || (part[|part| - 1] == whole[|whole| - 1] && Subsequence(part[..|part| - 1], whole[..|whole| - 1]))
  }

  /** No stream is tried twice, none that was closed already, and the order is kept. */
  lemma {:induction false} ReplayTriesOnce(order: seq<Id>, closed: set<Id>, log: seq<Attempt>)
    requires Replay(order, closed, log) && Distinct(order)
    ensures Distinct(Ids(log)) && (forall id :: id in Ids(log) ==> id in order && id !in closed)
    ensures Subsequence(Ids(log), order)
    decreases |order|
  {
    if order != [] {
      var order', last := order[..|order| - 1], order[|order| - 1];
      if Replay(order', closed, log) && last in ClosedAfter(closed, log) {
        ReplayTriesOnce(order', closed, log);
      } else {
        ReplayTriesOnce(order', closed, log[..|log| - 1]);
        ClosedStays(closed, log[..|log| - 1]);
      }
    }
  }

  lemma {:induction false} ClosedStays(closed: set<Id>, log: seq<Attempt>)
    ensures closed <= ClosedAfter(closed, log)
  {
    if log != [] { ClosedStays(closed, log[..|log| - 1]); }
  }

  /** When no close touches another stream, the attempts are exactly the order. */
  lemma {:induction false} IndependentStreamsAreAllTried(order: seq<Id>, closed: set<Id>, log: seq<Attempt>)
    requires Replay(order, closed, log) && Distinct(order)
    requires forall id :: id in order ==> id !in closed
    requires forall i :: 0 <= i < |log| ==> log[i].also <= {log[i].id}
    ensures Ids(log) == order
    ensures forall id :: id in ClosedAfter(closed, log) ==> id in closed || id in order
    decreases |order|
  {
    if order != [] {
      var order', last := order[..|order| - 1], order[|order| - 1];
      assert last in order && forall id :: id in order' ==> id in order;
      if Replay(order', closed, log) {
        IndependentStreamsAreAllTried(order', closed, log);
      }
      if log != [] && Replay(order', closed, log[..|log| - 1]) {
        IndependentStreamsAreAllTried(order', closed, log[..|log| - 1]);
        assert order == order' + [last];
      }
    }
  }

  /**
   What working through `order` comes to: each stream is tried at most once and in its turn; one that
   was not tried had been closed by another close, or before; and when no close touches another
   stream and all were open, the attempts are exactly the order.
   */
  ghost predicate Released(order: seq<Id>, closed0: set<Id>, log: seq<Attempt>, closed: set<Id>) {
    && Distinct(Ids(log)) && Subsequence(Ids(log), order)
    && (forall id :: id in order ==> id in Ids(log) || id in closed)
    && (forall id :: id in Ids(log) ==> id !in closed0)
    && ((forall id :: id in order ==> id !in closed0) && (forall i :: 0 <= i < |log| ==> log[i].also <= {log[i].id})
        ==> Ids(log) == order)
  }

  lemma {:induction false} ReplayReleases(order: seq<Id>, closed0: set<Id>, log: seq<Attempt>)
    requires Replay(order, closed0, log) && Distinct(order)
    ensures Released(order, closed0, log, ClosedAfter(closed0, log))
  {
    ReplayTriesOnce(order, closed0, log);
    forall id | id in order ensures id in Ids(log) || id in ClosedAfter(closed0, log) {
      ReplayReachesAll(order, closed0, log, id);
    }
    if (forall id :: id in order ==> id !in closed0) && (forall i :: 0 <= i < |log| ==> log[i].also <= {log[i].id}) {
      IndependentStreamsAreAllTried(order, closed0, log);
    }
  }

  // ---------------------------------------------------------------- the streams of the library

  /** `_ReadStream`: it reads from `wrapped`, and closing it closes `layers`, newest first. */
  class ReadStream {
    const wrapped: Id
    const layers: seq<Id>
    var closed: bool

    constructor (wrapped: Id, layers: seq<Id>)
      ensures this.wrapped == wrapped && this.layers == layers && !closed
    {
      this.wrapped, this.layers, closed := wrapped, layers, false;
    }

    method Close(streams: Streams) returns (ok: bool)
      modifies this, streams
      ensures closed && old(streams.log) <= streams.log
      ensures old(closed) ==> streams.log == old(streams.log) && streams.closed == old(streams.closed) && ok
      ensures !old(closed) ==> Replay(Reverse(layers), old(streams.closed), streams.log[|old(streams.log)|..])
      ensures ok <==> AllOk(streams.log[|old(streams.log)|..])
      ensures streams.closed == ClosedAfter(old(streams.closed), streams.log[|old(streams.log)|..])
    {
      ok := true;
      if !closed {
        ok := streams.RunCallbacks(layers);
        closed := true;
      } else {
        assert streams.log[|old(streams.log)|..] == [];
      }
    }
  }

  /** The distinct streams a chain of unwrap results adds to `seen`, in order of appearance. */
  function NewLayers(results: seq<Id>, source: Id): seq<Id> {
    if results == [] then []
    else
      var before, last := NewLayers(results[..|results| - 1], source), results[|results| - 1];
      if last == source || last in before then before else before + [last]
  }

  lemma {:induction false} NewLayersAreDistinct(results: seq<Id>, source: Id)
    ensures Distinct(NewLayers(results, source))
    ensures forall id :: id in NewLayers(results, source) <==> id in results && id != source
    decreases |results|
  {
    if results != [] {
      NewLayersAreDistinct(results[..|results| - 1], source);
      assert results == results[..|results| - 1] + [results[|results| - 1]];
    }
  }

  /** In order of appearance: a later result never goes before an earlier one. */
  lemma {:induction false} NewLayersAreInOrder(results: seq<Id>, source: Id, n: nat)
    requires n <= |results|
    ensures NewLayers(results[..n], source) <= NewLayers(results, source)
    decreases |results|
  {
    if n == |results| {
      assert results[..n] == results;
    } else {
      assert results[..|results| - 1][..n] == results[..n];
      NewLayersAreInOrder(results[..|results| - 1], source, n);
    }
  }

  /** unwrap() of one transform: it raises, or returns a stream, which may be an old one. */
  type Unwrap = Id -> Result<Id, Error>

  /** The streams the transforms return, one after the other, and the error that ends the chain early. */
  function Unwrapped(transforms: seq<Unwrap>, source: Id): (seq<Id>, Option<Error>) {
    if transforms == [] then ([], None)
    else
      var (results, error) := Unwrapped(transforms[..|transforms| - 1], source);
      if error.Some? then (results, error)
      else
        match transforms[|transforms| - 1](Top(results, source))
        case Ok(stream) => (results + [stream], None)
        case Err(e) => (results, Some(e))
  }

  function Top(results: seq<Id>, source: Id): Id {
    if results == [] then source else results[|results| - 1]
  }

  /** Transform `i` of the chain was given what the one before it returned. */
  predicate GivenThePrevious(transforms: seq<Unwrap>, source: Id, results: seq<Id>, i: nat)
    requires i < |results| <= |transforms|
  {
    transforms[i](if i == 0 then source else results[i - 1]) == Ok(results[i])
  }

  /**
   Each transform is given the stream that the one before it returned, the first one the source; the chain
   is complete, or it ends with the error of the next transform.
   */
  lemma {:induction false} EachUnwrapsThePrevious(transforms: seq<Unwrap>, source: Id)
    ensures var (results, error) := Unwrapped(transforms, source);
            && |results| <= |transforms|
            && (forall i :: 0 <= i < |results| ==> GivenThePrevious(transforms, source, results, i))
            && if error.None? then |results| == |transforms|
               else |results| < |transforms|
                    && transforms[|results|](if results == [] then source else results[|results| - 1]) ==
                        Err(error.value)
  {
    if transforms != [] {
      var before := transforms[..|transforms| - 1];
      EachUnwrapsThePrevious(before, source);
      var (results, error) := Unwrapped(transforms, source);
      var (earlier, _) := Unwrapped(before, source);
      forall i | 0 <= i < |results| ensures GivenThePrevious(transforms, source, results, i) {
        if i < |earlier| { assert GivenThePrevious(before, source, earlier, i); }
      }
    }
  }

  lemma {:induction false} FirstErrorEndsTheChain(transforms: seq<Unwrap>, source: Id, n: nat)
    requires n <= |transforms| && Unwrapped(transforms[..n], source).1.Some?
    ensures Unwrapped(transforms, source) == Unwrapped(transforms[..n], source)
    decreases |transforms|
  {
    if n == |transforms| {
      assert transforms[..n] == transforms;
    } else {
      assert transforms[..|transforms| - 1][..n] == transforms[..n];
      FirstErrorEndsTheChain(transforms[..|transforms| - 1], source, n);
    }
  }

  /** The distinct layers that the transforms build over the source, in order. */
  function Layers(transforms: seq<Unwrap>, source: Id): seq<Id> { NewLayers(Unwrapped(transforms, source).0, source) }

  /** Everything a stream of these transforms owns, in the order in which it is closed. */
  function ClosingOrder(transforms: seq<Unwrap>, source: Id): seq<Id> {
    Reverse(Layers(transforms, source)) + [source]
  }

  lemma {:induction false} ClosingOrderIsDistinct(transforms: seq<Unwrap>, source: Id)
    ensures Distinct(ClosingOrder(transforms, source))
    ensures forall id :: id in ClosingOrder(transforms, source) <==>
                id == source || id in Unwrapped(transforms, source).0
  {
    NewLayersAreDistinct(Unwrapped(transforms, source).0, source);
    var layers := Reverse(Layers(transforms, source));
    ReverseKeepsDistinct(Layers(transforms, source));
    assert source !in layers;
    forall i, j | 0 <= i < j <= |layers| ensures (layers + [source])[i] != (layers + [source])[j] {
      assert layers[i] in layers;
    }
  }

  datatype Built = Identity | Layered(owner: ReadStream) | Failed(error: Error)

  /** `apply_read`: the stack of layers, or the transform's error after unwinding what was built. */
  method ApplyRead(transforms: seq<Unwrap>, source: Id, streams: Streams) returns (built: Built)
    modifies streams
    ensures old(streams.log) <= streams.log
    ensures if Unwrapped(transforms, source).1.Some? then built == Failed(Unwrapped(transforms, source).1.value)
            else if Layers(transforms, source) == [] then built.Identity?
            else built.Layered? && built.owner.layers == Layers(transforms, source)
    ensures built.Layered? ==> built.owner.wrapped == Top(Unwrapped(transforms, source).0, source)
    ensures built.Layered? ==> fresh(built.owner) && !built.owner.closed
    ensures !built.Failed? ==> streams.log == old(streams.log) && streams.closed == old(streams.closed)
    ensures built.Failed? ==>
              Replay(Reverse(Layers(transforms, source)), old(streams.closed), streams.log[|old(streams.log)|..])
    ensures streams.closed == ClosedAfter(old(streams.closed), streams.log[|old(streams.log)|..])
  {
    var stream := source;
    var seen := {source};
    var cleanup: seq<Id> := [];
    ghost var results: seq<Id> := [];
    for i := 0 to |transforms|
      invariant Unwrapped(transforms[..i], source) == (results, None) && stream == Top(results, source)
      invariant cleanup == NewLayers(results, source)
      invariant seen == {source} + set id | id in cleanup
      invariant streams.log == old(streams.log) && streams.closed == old(streams.closed)
    {
      var r := transforms[i](stream);
      assert transforms[..i + 1][..i] == transforms[..i];
      if r.Err? {
        FirstErrorEndsTheChain(transforms, source, i + 1);
        var _ := streams.RunCallbacks(cleanup);   // an Exception raised here is dropped
        return Failed(r.error);
      }
      stream := r.value;
      assert (results + [stream])[..|results|] == results;
      results := results + [stream];
      if stream !in seen {
        seen := seen + {stream};
        cleanup := cleanup + [stream];
      }
    }
    assert transforms[..|transforms|] == transforms;
    assert streams.log[|old(streams.log)|..] == [];
    if cleanup == [] { return Identity; }
    var owner := new ReadStream(stream, cleanup);
    return Layered(owner);
  }

  /** The stream `read_stream` returns: it owns the transform layers and the backend's stream. */
  class OwnedStream {
    const source: Id
    const inner: ReadStream?
    var closed: bool

    constructor (source: Id, inner: ReadStream?)
      ensures this.source == source && this.inner == inner && !closed
    {
      this.source, this.inner, closed := source, inner, false;
    }

    /** The stream it delivers. */
    function ReadsFrom(): Id { if inner == null then source else inner.wrapped }

    /** Everything this stream owns, in the order in which it is closed. */
    ghost function Owned(): seq<Id> {
      (if inner == null then [] else Reverse(inner.layers)) + [source]
    }

    method Close(streams: Streams) returns (ok: bool)
      requires !closed && inner != null ==> !inner.closed
      modifies this, inner, streams
      ensures closed && old(streams.log) <= streams.log
      // every close is attempted, newest first and the source last, whatever raises
      ensures !old(closed) ==> Replay(Owned(), old(streams.closed), streams.log[|old(streams.log)|..])
      ensures streams.closed == ClosedAfter(old(streams.closed), streams.log[|old(streams.log)|..])
      ensures !old(closed) && Distinct(Owned()) ==>
                Released(Owned(), old(streams.closed), streams.log[|old(streams.log)|..], streams.closed)
      // an error is raised exactly when some close raised
      ensures ok <==> AllOk(streams.log[|old(streams.log)|..])
      // a second close does nothing
      ensures old(closed) ==> streams.log == old(streams.log) && streams.closed == old(streams.closed) && ok
    {
      ok := true;
      if closed {
        assert streams.log[|old(streams.log)|..] == [];
        return;
      }
      ghost var closed0, log0 := streams.closed, streams.log;
      ghost var order: seq<Id> := [];
      if inner != null {
        ok := inner.Close(streams);
        order := Reverse(inner.layers);
      }
      var sourceOk := streams.NextCallback(source, order, closed0, log0);
      ok := ok && sourceOk;
      closed := true;
      if Distinct(Owned()) { ReplayReleases(Owned(), closed0, streams.log[|log0|..]); }
    }
  }

  /**
   `read_stream` after the backend has opened `source`: the stream that owns everything, or, when a
   transform raises, that error, and nothing is left behind: what was built and then the source were
   closed.
   */
  method OpenReadStream(transforms: seq<Unwrap>, source: Id, streams: Streams) returns (r: Result<OwnedStream, Error>)
    modifies streams
    ensures r.Err? <==> Unwrapped(transforms, source).1.Some?
    ensures r.Ok? ==> fresh(r.value) && !r.value.closed
    ensures r.Ok? ==> streams.log == old(streams.log) && streams.closed == old(streams.closed)
    ensures r.Ok? ==> r.value.inner != null ==> fresh(r.value.inner) && !r.value.inner.closed
    ensures r.Ok? ==> r.value.Owned() == ClosingOrder(transforms, source)
    ensures r.Ok? ==> r.value.ReadsFrom() == Top(Unwrapped(transforms, source).0, source)
    ensures r.Err? ==> Some(r.error) == Unwrapped(transforms, source).1 && old(streams.log) <= streams.log
    ensures streams.closed == ClosedAfter(old(streams.closed), streams.log[|old(streams.log)|..])
    ensures r.Err? ==> Released(ClosingOrder(transforms, source), old(streams.closed),
                                streams.log[|old(streams.log)|..], streams.closed)
  {
    var built := ApplyRead(transforms, source, streams);
    match built
    case Failed(e) =>
      // the stack of read_stream holds the source only
      var _ := streams.NextCallback(source, Reverse(Layers(transforms, source)), old(streams.closed), old(streams.log));
      ClosingOrderIsDistinct(transforms, source);
      ReplayReleases(ClosingOrder(transforms, source), old(streams.closed), streams.log[|old(streams.log)|..]);
      return Err(e);
    case Identity =>
      var stream := new OwnedStream(source, null);
      return Ok(stream);
    case Layered(owner) =>
      var stream := new OwnedStream(source, owner);
      return Ok(stream);
  }

  /**
   A stream that is opened and closed, and one whose opening fails, releases each distinct layer,
   newest first, and then the source, each tried at most once.
   */
  method OpenAndClose(transforms: seq<Unwrap>, source: Id, streams: Streams)
    modifies streams
    ensures old(streams.log) <= streams.log
    ensures streams.closed == ClosedAfter(old(streams.closed), streams.log[|old(streams.log)|..])
    ensures Released(ClosingOrder(transforms, source), old(streams.closed),
                     streams.log[|old(streams.log)|..], streams.closed)
  {
    var r := OpenReadStream(transforms, source, streams);
    if r.Ok? {
      ClosingOrderIsDistinct(transforms, source);
      var _ := r.value.Close(streams);
    }
  }
}
