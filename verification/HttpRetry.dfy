/**
 The retry and auth-refresh loops of _core/http/engine.py.

 `request` and `stream` are two separately written loops.  Each is a method here, proved to compute
 a function of its own; both functions are then proved to follow one retry protocol (from which all
 bounds follow), and to agree with each other on exactly the policies for which they do.

 The server, the random source and the auth strategy are a `World`: what send chain `k` yields, what
 `refresh()` answers and where in [0, delay] the jitter of pause `k` falls.
 */
module HttpRetry {
  import opened Common

  const IDEMPOTENT_METHODS := {"GET", "HEAD", "OPTIONS", "TRACE", "PUT", "DELETE"}

  datatype ErrorClass = TimeoutError | ConnectionError | RedirectError | ProtocolError | RequestError | TransportError

  /** A Retry-After header: missing, a number of seconds (given or counted to a date), or unparseable. */
  datatype RetryAfter = Absent | Seconds(s: real) | Unparseable

  datatype Sent =
    | Response(status: int, retryAfter: RetryAfter)
    | HttpFailure(cls: ErrorClass)   // an httpx.HTTPError, already mapped
    | InvalidUrl
    | OtherFailure                   // anything else: the location check, the redirect cap

  datatype Refresh = Granted | Declined | RefreshRaises | RefreshHttpFailure(cls: ErrorClass)

  datatype World = World(send: nat -> Sent, refresh: Refresh, jitter: (nat, real) -> real)

  datatype Policy = Policy(
    maxAttempts: int,
    backoffBase: real,
    backoffMax: real,
    backoffJitter: bool,
    retryOnStatus: set<int>,
    retryOnTransport: bool,
    retryUnsafe: bool,
    maxRetryAfter: real,
    refreshOn401: bool)

  /** The parts of one call the loops look at; `method` is already upper case. */
  datatype Call = Call(verb: string, bodyReplayable: bool, refreshableAuth: bool)

  datatype Event = Send(k: nat) | RefreshAuth | Sleep(delay: real)

  datatype Outcome =
    | Success(status: int)
    | StatusError(status: int)   // map_status_to_error(status)
    | NotFollowed                // HttpRedirectError for a 3xx
    | Mapped(cls: ErrorClass)
    | Unmapped                   // propagates as it was raised

  datatype Ending = Ending(trace: seq<Event>, outcome: Outcome)

  predicate Retryable(cls: ErrorClass) { cls.TimeoutError? || cls.ConnectionError? }

  predicate Safe(p: Policy, c: Call) { c.verb in IDEMPOTENT_METHODS || p.retryUnsafe }

  predicate CanRefresh(p: Policy, c: Call) { p.refreshOn401 && c.refreshableAuth }

  /** `base * 2 ** n`. */
  function TimesPow2(base: real, n: nat): real { if n == 0 then base else 2.0 * TimesPow2(base, n - 1) }

  /** `_parse_retry_after`: seconds clamped at zero, or nothing. */
  function ParseRetryAfter(h: RetryAfter): Option<real> {
    match h
    case Seconds(s) => Some(MaxReal(s, 0.0))
    case _ => None
  }

  function Backoff(p: Policy, attempt: nat): real
    requires attempt > 0
  {
    MinReal(TimesPow2(p.backoffBase, attempt - 1), p.backoffMax)
  }

  function Jittered(p: Policy, w: World, attempt: nat, k: nat): real
    requires attempt > 0
  {
    if p.backoffJitter then w.jitter(k, Backoff(p, attempt)) else Backoff(p, attempt)
  }

  function Prepend(events: seq<Event>, rest: Ending): Ending { Ending(events + rest.trace, rest.outcome) }

  lemma PrependTwice(a: seq<Event>, b: seq<Event>, rest: Ending)
    ensures Prepend(a, Prepend(b, rest)) == Prepend(a + b, rest)
  {
    assert a + (b + rest.trace) == a + b + rest.trace;
  }

  // ---------------------------------------------------------------- request()

  function RequestPause429(p: Policy, w: World, attempt: nat, k: nat, h: RetryAfter): real
    requires attempt > 0
  {
    var after := ParseRetryAfter(h);
    if after.Some? then MinReal(after.value, p.maxRetryAfter) else Jittered(p, w, attempt, k)
  }

  /** What is left of `request` when `attempt` attempts are spent and send chain `k` is next. */
  function RequestFrom(p: Policy, c: Call, w: World, attempt: nat, k: nat, refreshed: bool): Ending
    decreases !refreshed, p.maxAttempts - attempt
  {
    var a := attempt + 1;
    match w.send(k)
    case InvalidUrl => Ending([Send(k)], Mapped(RequestError))
    case OtherFailure => Ending([Send(k)], Unmapped)
    case HttpFailure(cls) =>
      if p.retryOnTransport && Retryable(cls) && Safe(p, c) && c.bodyReplayable && a < p.maxAttempts
      then Prepend([Send(k), Sleep(Jittered(p, w, a, k))], RequestFrom(p, c, w, a, k + 1, refreshed))
      else Ending([Send(k)], Mapped(cls))
    case Response(status, h) =>
      if 200 <= status < 300 then Ending([Send(k)], Success(status))
      else if status == 401 && CanRefresh(p, c) && !refreshed then
        match w.refresh
        case Granted => Prepend([Send(k), RefreshAuth], RequestFrom(p, c, w, attempt, k + 1, true))
        case Declined => Ending([Send(k), RefreshAuth], StatusError(status))
        case _ => Ending([Send(k), RefreshAuth], Unmapped)
      else if status == 429 && status in p.retryOnStatus && a < p.maxAttempts then
        Prepend([Send(k), Sleep(RequestPause429(p, w, a, k, h))], RequestFrom(p, c, w, a, k + 1, refreshed))
      else if 300 <= status < 400 then Ending([Send(k)], NotFollowed)
      else if status in p.retryOnStatus && Safe(p, c) && c.bodyReplayable && a < p.maxAttempts then
        Prepend([Send(k), Sleep(Jittered(p, w, a, k))], RequestFrom(p, c, w, a, k + 1, refreshed))
      else Ending([Send(k)], StatusError(status))
  }

  method Request(p: Policy, c: Call, w: World) returns (e: Ending)
    ensures e == RequestFrom(p, c, w, 0, 0, false)
  {
    var trace: seq<Event> := [];
    var refreshed, attempt, k := false, 0, 0;
    while true
      invariant attempt >= 0 && k >= 0
      invariant RequestFrom(p, c, w, 0, 0, false) == Prepend(trace, RequestFrom(p, c, w, attempt, k, refreshed))
      decreases !refreshed, p.maxAttempts - attempt
    {
      ghost var before, rest := trace, RequestFrom(p, c, w, attempt, k, refreshed);
      attempt := attempt + 1;
      var sent := w.send(k);
      var delay: real;
      if sent.InvalidUrl? {
        return Ending(trace + [Send(k)], Mapped(RequestError));
      } else if sent.OtherFailure? {
        return Ending(trace + [Send(k)], Unmapped);
      } else if sent.HttpFailure? {
        var canRetry := p.retryOnTransport && Retryable(sent.cls) && Safe(p, c) && c.bodyReplayable
                        && attempt < p.maxAttempts;
        if !canRetry { return Ending(trace + [Send(k)], Mapped(sent.cls)); }
        delay := Jittered(p, w, attempt, k);
      } else if 200 <= sent.status < 300 {
        return Ending(trace + [Send(k)], Success(sent.status));
      } else if sent.status == 401 && CanRefresh(p, c) && !refreshed {
        if w.refresh.Granted? {
          refreshed := true;
          attempt := attempt - 1;   // a refresh does not spend an attempt
          trace := trace + [Send(k), RefreshAuth];
          k := k + 1;
          PrependTwice(before, [Send(k - 1), RefreshAuth], RequestFrom(p, c, w, attempt, k, refreshed));
          continue;
        }
        return Ending(trace + [Send(k), RefreshAuth],
                      if w.refresh.Declined? then StatusError(sent.status) else Unmapped);
      } else if sent.status == 429 && sent.status in p.retryOnStatus && attempt < p.maxAttempts {
        var after := ParseRetryAfter(sent.retryAfter);
        if after.Some? {
          delay := MinReal(after.value, p.maxRetryAfter);
        } else {
          delay := Jittered(p, w, attempt, k);
        }
      } else if 300 <= sent.status < 400 {
        return Ending(trace + [Send(k)], NotFollowed);
      } else if sent.status in p.retryOnStatus && Safe(p, c) && c.bodyReplayable && attempt < p.maxAttempts {
        delay := Jittered(p, w, attempt, k);
      } else {
        return Ending(trace + [Send(k)], StatusError(sent.status));
      }
      trace := trace + [Send(k), Sleep(delay)];
      k := k + 1;
      PrependTwice(before, [Send(k - 1), Sleep(delay)], RequestFrom(p, c, w, attempt, k, refreshed));
    }
  }

  // ---------------------------------------------------------------- stream()

  /** The local function `delay` of `stream`, which also serves transport failures. */
  function StreamPause(p: Policy, w: World, attempt: nat, k: nat): real
    requires attempt > 0
  {
    var sent := w.send(k);
    var after := if sent.Response? && sent.status == 429 then ParseRetryAfter(sent.retryAfter) else None;
    if after.Some? then MinReal(after.value, p.maxRetryAfter)
    else
      var value := MinReal(TimesPow2(p.backoffBase, attempt - 1), p.backoffMax);
      if p.backoffJitter then w.jitter(k, value) else value
  }

  /** What is left of `stream`, up to the yield, when `attempt` attempts are spent and chain `k` is next. */
  function StreamFrom(p: Policy, c: Call, w: World, attempt: nat, k: nat, refreshed: bool): Ending
    decreases !refreshed, p.maxAttempts - attempt
  {
    var a := attempt + 1;
    match w.send(k)
    case InvalidUrl => Ending([Send(k)], Mapped(RequestError))
    case OtherFailure => Ending([Send(k)], Unmapped)
    case HttpFailure(cls) =>
      if Safe(p, c) && p.retryOnTransport && Retryable(cls) && a < p.maxAttempts
      then Prepend([Send(k), Sleep(StreamPause(p, w, a, k))], StreamFrom(p, c, w, a, k + 1, refreshed))
      else Ending([Send(k)], Mapped(cls))
    case Response(status, h) =>
      if 200 <= status < 300 then Ending([Send(k)], Success(status))
      else if status == 401 && CanRefresh(p, c) && !refreshed then
        match w.refresh
        case Granted => Prepend([Send(k), RefreshAuth], StreamFrom(p, c, w, attempt, k + 1, true))
        case Declined => Prepend([Send(k), RefreshAuth], StreamAfterAuth(p, c, w, attempt, k, true))
        case RefreshRaises => Ending([Send(k), RefreshAuth], Unmapped)
        case RefreshHttpFailure(cls) => Ending([Send(k), RefreshAuth], Mapped(cls))
      else Prepend([Send(k)], StreamAfterAuth(p, c, w, attempt, k, refreshed))
  }

  /** The part of the loop body of `stream` that follows its auth branch. */
  function StreamAfterAuth(p: Policy, c: Call, w: World, attempt: nat, k: nat, refreshed: bool): Ending
    requires w.send(k).Response?
    decreases !refreshed, p.maxAttempts - attempt, 0
  {
    var a := attempt + 1;
    var status := w.send(k).status;
    if status in p.retryOnStatus && a < p.maxAttempts && (status == 429 || Safe(p, c))
    then Prepend([Sleep(StreamPause(p, w, a, k))], StreamFrom(p, c, w, a, k + 1, refreshed))
    else if 300 <= status < 400 then Ending([], NotFollowed)
    else Ending([], StatusError(status))
  }

  /** time.sleep() and refresh() are called only when the last response, if there was one, is closed. */
  method WithoutOpenResponse(w: World, k: nat, closed: set<nat>, trace: seq<Event>, event: Event)
      returns (after: seq<Event>)
    requires w.send(k).Response? ==> k in closed
    ensures after == trace + [event]
  {
    after := trace + [event];
  }

  /** Every response received before chain `k` is closed. */
  ghost predicate Tidy(w: World, trace: seq<Event>, k: nat, closed: set<nat>) {
    && (forall i: nat :: Send(i) in trace ==> i < k && (w.send(i).Response? ==> i in closed))
    && (forall i: nat :: i in closed ==> i < k)
  }

  lemma TidySend(w: World, trace: seq<Event>, k: nat, closed: set<nat>, closed': set<nat>)
    requires Tidy(w, trace, k, closed)
    requires closed' == if w.send(k).Response? then closed + {k} else closed
    ensures Tidy(w, trace + [Send(k)], k + 1, closed')
  {
  }

  lemma TidyMore(w: World, trace: seq<Event>, k: nat, closed: set<nat>, event: Event)
    requires Tidy(w, trace, k, closed) && !event.Send?
    ensures Tidy(w, trace + [event], k, closed)
  {
  }

  /** The responses received are closed, except exactly the one that is yielded. */
  ghost predicate Released(w: World, trace: seq<Event>, closed: set<nat>, yielded: Option<nat>) {
    forall k: nat :: Send(k) in trace && w.send(k).Response? ==> (k in closed <==> yielded != Some(k))
  }

  lemma ReleasedAll(w: World, trace: seq<Event>, k: nat, closed: set<nat>)
    requires Tidy(w, trace, k, closed)
    ensures Released(w, trace, closed, None)
  {
  }

  lemma ReleasedButOne(w: World, trace: seq<Event>, k: nat, closed: set<nat>)
    requires Tidy(w, trace, k, closed)
    ensures Released(w, trace + [Send(k)], closed, Some(k))
  {
  }

  /** `closed` collects the responses the loop closed; `yielded` is the one handed to the caller. */
  method Stream(p: Policy, c: Call, w: World) returns (e: Ending, closed: set<nat>, yielded: Option<nat>)
    ensures e == StreamFrom(p, c, w, 0, 0, false)
    ensures yielded.Some? <==> e.outcome.Success?
    ensures Released(w, e.trace, closed, yielded)
  {
    var trace: seq<Event> := [];
    var refreshed, attempt, k := false, 0, 0;
    closed, yielded := {}, None;
    while true
      invariant attempt >= 0 && k >= 0 && yielded == None
      invariant StreamFrom(p, c, w, 0, 0, false) == Prepend(trace, StreamFrom(p, c, w, attempt, k, refreshed))
      invariant Tidy(w, trace, k, closed)
      decreases !refreshed, p.maxAttempts - attempt
    {
      ghost var before := trace;
      attempt := attempt + 1;
      var sent := w.send(k);
      trace := trace + [Send(k)];
      TidySend(w, before, k, closed, if sent.Response? then closed + {k} else closed);
      if sent.InvalidUrl? {
        e := Ending(trace, Mapped(RequestError));
        ReleasedAll(w, trace, k + 1, closed);
        return;
      } else if sent.OtherFailure? {
        e := Ending(trace, Unmapped);
        ReleasedAll(w, trace, k + 1, closed);
        return;
      } else if sent.HttpFailure? {
        if !(Safe(p, c) && p.retryOnTransport && Retryable(sent.cls) && attempt < p.maxAttempts) {
          e := Ending(trace, Mapped(sent.cls));
          ReleasedAll(w, trace, k + 1, closed);
          return;
        }
      } else if 200 <= sent.status < 300 {
        yielded := Some(k);
        e := Ending(trace, Success(sent.status));
        ReleasedButOne(w, before, k, closed);
        return;
      } else {
        closed := closed + {k};   // every other exit runs under contextlib.closing
        if sent.status == 401 && CanRefresh(p, c) && !refreshed {
          refreshed := true;
          TidyMore(w, trace, k + 1, closed, RefreshAuth);
          trace := WithoutOpenResponse(w, k, closed, trace, RefreshAuth);
          assert trace == before + [Send(k), RefreshAuth];
          if w.refresh.Granted? {
            attempt := attempt - 1;
            k := k + 1;
            PrependTwice(before, [Send(k - 1), RefreshAuth], StreamFrom(p, c, w, attempt, k, refreshed));
            continue;
          } else if !w.refresh.Declined? {
            ReleasedAll(w, trace, k + 1, closed);
            e := Ending(trace, if w.refresh.RefreshRaises? then Unmapped else Mapped(w.refresh.cls));
            return;
          }
          PrependTwice(before, [Send(k), RefreshAuth], StreamAfterAuth(p, c, w, attempt - 1, k, refreshed));
        } else {
          PrependTwice(before, [Send(k)], StreamAfterAuth(p, c, w, attempt - 1, k, refreshed));
        }
        if !(sent.status in p.retryOnStatus && attempt < p.maxAttempts && (sent.status == 429 || Safe(p, c))) {
          ReleasedAll(w, trace, k + 1, closed);
          e := Ending(trace, if 300 <= sent.status < 400 then NotFollowed else StatusError(sent.status));
          return;
        }
      }
      ghost var middle := trace;
      var delay := StreamPause(p, w, attempt, k);
      TidyMore(w, trace, k + 1, closed, Sleep(delay));
      trace := WithoutOpenResponse(w, k, closed, trace, Sleep(delay));
      k := k + 1;
      if sent.HttpFailure? { assert trace == before + [Send(k - 1), Sleep(delay)]; }
      PrependTwice(before, [Send(k - 1), Sleep(delay)], StreamFrom(p, c, w, attempt, k, refreshed));
      PrependTwice(middle, [Sleep(delay)], StreamFrom(p, c, w, attempt, k, refreshed));
    }
  }
}
