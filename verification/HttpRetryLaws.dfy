/** What the two retry loops promise: one protocol, its bounds, and where the loops agree. */
module HttpRetryLaws {
  import opened Common
  import opened HttpRetry

  // ---------------------------------------------------------------- the retry protocol

  /** The methods that RFC 9110 calls idempotent: the safe ones (section 9.2.1), PUT and DELETE (section 9.2.2). */
  predicate Idempotent(verb: string) {
    verb == "GET" || verb == "HEAD" || verb == "OPTIONS" || verb == "TRACE" || verb == "PUT" || verb == "DELETE"
  }

  predicate MayReplay(p: Policy, c: Call) { p.retryUnsafe || Idempotent(c.verb) }

  predicate RefreshAllowed(p: Policy, c: Call) { c.refreshableAuth && p.refreshOn401 }

  /** Failures that may not happen again: a timeout, and a connection that could not be made or was lost. */
  predicate Transient(cls: ErrorClass) { cls == TimeoutError || cls == ConnectionError }

  /** Why another attempt may follow the outcome of send chain `k`; a 429 is retried whatever was sent. */
  predicate MayRetry(p: Policy, c: Call, w: World, k: nat) {
    var sent := w.send(k);
    || (sent.HttpFailure? && p.retryOnTransport && Transient(sent.cls) && MayReplay(p, c) && c.bodyReplayable)
    || (sent.Response? && !(200 <= sent.status < 300) && sent.status in p.retryOnStatus
        && ((MayReplay(p, c) && c.bodyReplayable) || sent.status == 429))
  }

  /** `stream` sends bytes only, which can always be sent again. */
  function AsStreamed(c: Call): Call { c.(bodyReplayable := true) }

  /** How long the pause between attempt `a` and the next one is. */
  predicate DuePause(p: Policy, w: World, a: nat, k: nat, d: real)
    requires a > 0
  {
    var sent := w.send(k);
    if sent.Response? && sent.status == 429 && sent.retryAfter.Seconds? then
      d == MinReal(MaxReal(sent.retryAfter.s, 0.0), p.maxRetryAfter)
    else if p.backoffJitter then d == w.jitter(k, Backoff(p, a))
    else d == Backoff(p, a)
  }

  predicate MayRefresh(p: Policy, c: Call, w: World, k: nat, refreshed: bool) {
    RefreshAllowed(p, c) && !refreshed && w.send(k).Response? && w.send(k).status == 401
  }

  /** The traces the protocol allows from a point where `attempt` attempts are spent and chain `k` is next. */
  ghost predicate Legal(p: Policy, c: Call, w: World, attempt: nat, k: nat, refreshed: bool, trace: seq<Event>)
    decreases |trace|, 1
  {
    && |trace| > 0 && trace[0] == Send(k)
    && (|| |trace| == 1
        || LegalPauseThenRetry(p, c, w, attempt, k, refreshed, trace[1..])
        || (&& trace[1] == RefreshAuth && MayRefresh(p, c, w, k, refreshed)
            && (|| |trace| == 2
                || (w.refresh.Granted? && Legal(p, c, w, attempt, k + 1, true, trace[2..]))
                || LegalPauseThenRetry(p, c, w, attempt, k, true, trace[2..]))))
  }

  ghost predicate LegalPauseThenRetry(p: Policy, c: Call, w: World, attempt: nat, k: nat, refreshed: bool,
                                      trace: seq<Event>)
    decreases |trace|, 0
  {
    && |trace| > 1 && trace[0].Sleep? && attempt + 1 < p.maxAttempts
    && MayRetry(p, c, w, k) && DuePause(p, w, attempt + 1, k, trace[0].delay)
    && Legal(p, c, w, attempt + 1, k + 1, refreshed, trace[1..])
  }

  lemma {:induction false} RequestIsLegal(p: Policy, c: Call, w: World, attempt: nat, k: nat, refreshed: bool)
    ensures Legal(p, c, w, attempt, k, refreshed, RequestFrom(p, c, w, attempt, k, refreshed).trace)
    decreases !refreshed, p.maxAttempts - attempt
  {
    var t := RequestFrom(p, c, w, attempt, k, refreshed).trace;
    if |t| > 2 {
      if t[1].Sleep? {
        var rest := RequestFrom(p, c, w, attempt + 1, k + 1, refreshed).trace;
        RequestIsLegal(p, c, w, attempt + 1, k + 1, refreshed);
        assert t[1..][1..] == rest;
      } else {
        var rest := RequestFrom(p, c, w, attempt, k + 1, true).trace;
        RequestIsLegal(p, c, w, attempt, k + 1, true);
        assert t[2..] == rest;
      }
    }
  }

  lemma {:induction false} StreamTailIsLegal(p: Policy, c: Call, w: World, attempt: nat, k: nat, refreshed: bool)
    requires w.send(k).Response? && !(200 <= w.send(k).status < 300)
    ensures var t := StreamAfterAuth(p, c, w, attempt, k, refreshed).trace;
            t == [] || LegalPauseThenRetry(p, AsStreamed(c), w, attempt, k, refreshed, t)
    decreases !refreshed, p.maxAttempts - attempt, 0
  {
    var t := StreamAfterAuth(p, c, w, attempt, k, refreshed).trace;
    if t != [] {
      StreamIsLegal(p, c, w, attempt + 1, k + 1, refreshed);
      assert t[1..] == StreamFrom(p, c, w, attempt + 1, k + 1, refreshed).trace;
    }
  }

  lemma {:induction false} StreamIsLegal(p: Policy, c: Call, w: World, attempt: nat, k: nat, refreshed: bool)
    ensures Legal(p, AsStreamed(c), w, attempt, k, refreshed, StreamFrom(p, c, w, attempt, k, refreshed).trace)
    decreases !refreshed, p.maxAttempts - attempt, 1
  {
    var t := StreamFrom(p, c, w, attempt, k, refreshed).trace;
    var sent := w.send(k);
    if sent.Response? && !(200 <= sent.status < 300) {
      if MayRefresh(p, c, w, k, refreshed) {
        if w.refresh.Granted? {
          StreamIsLegal(p, c, w, attempt, k + 1, true);
          assert t[2..] == StreamFrom(p, c, w, attempt, k + 1, true).trace;
        } else if w.refresh.Declined? {
          StreamTailIsLegal(p, c, w, attempt, k, true);
          assert t[2..] == StreamAfterAuth(p, c, w, attempt, k, true).trace;
        }
      } else {
        StreamTailIsLegal(p, c, w, attempt, k, refreshed);
        assert t[1..] == StreamAfterAuth(p, c, w, attempt, k, refreshed).trace;
      }
    } else if |t| > 1 {
      StreamIsLegal(p, c, w, attempt + 1, k + 1, refreshed);
      assert t[1..][1..] == StreamFrom(p, c, w, attempt + 1, k + 1, refreshed).trace;
    }
  }

  /** What is allowed for a body that cannot be sent again is allowed for one that can. */
  lemma {:induction false} LegalAsStreamed(p: Policy, c: Call, w: World, attempt: nat, k: nat, refreshed: bool,
                                           trace: seq<Event>)
    requires Legal(p, c, w, attempt, k, refreshed, trace)
    ensures Legal(p, AsStreamed(c), w, attempt, k, refreshed, trace)
    decreases |trace|
  {
    if |trace| > 1 {
      if LegalPauseThenRetry(p, c, w, attempt, k, refreshed, trace[1..]) {
        LegalAsStreamed(p, c, w, attempt + 1, k + 1, refreshed, trace[1..][1..]);
      } else if |trace| > 2 {
        if LegalPauseThenRetry(p, c, w, attempt, k, true, trace[2..]) {
          LegalAsStreamed(p, c, w, attempt + 1, k + 1, true, trace[2..][1..]);
        } else {
          LegalAsStreamed(p, c, w, attempt, k + 1, true, trace[2..]);
        }
      }
    }
  }

  /** The trace of either loop from its start. */
  ghost predicate LoopTrace(p: Policy, c: Call, w: World, trace: seq<Event>) {
    trace == RequestFrom(p, c, w, 0, 0, false).trace || trace == StreamFrom(p, c, w, 0, 0, false).trace
  }

  lemma {:induction false} LoopIsLegal(p: Policy, c: Call, w: World, trace: seq<Event>)
    requires LoopTrace(p, c, w, trace)
    ensures Legal(p, AsStreamed(c), w, 0, 0, false, trace)
  {
    RequestIsLegal(p, c, w, 0, 0, false);
    StreamIsLegal(p, c, w, 0, 0, false);
    LegalAsStreamed(p, c, w, 0, 0, false, RequestFrom(p, c, w, 0, 0, false).trace);
  }

  // ---------------------------------------------------------------- bounds

  function Sends(trace: seq<Event>): nat {
    if trace == [] then 0 else (if trace[0].Send? then 1 else 0) + Sends(trace[1..])
  }

  function Refreshes(trace: seq<Event>): nat {
    if trace == [] then 0 else (if trace[0].RefreshAuth? then 1 else 0) + Refreshes(trace[1..])
  }

  /** The pauses of a trace, in order. */
  function Pauses(trace: seq<Event>): seq<real> {
    if trace == [] then []
    else (if trace[0].Sleep? then [trace[0].delay] else []) + Pauses(trace[1..])
  }

  function Total(pauses: seq<real>): real {
    if pauses == [] then 0.0 else pauses[0] + Total(pauses[1..])
  }

  /** How one round of the protocol reads: the last one, a refresh, or a pause (after a refused refresh or not). */
  datatype Round =
    | Last(auth: bool)
    | Refreshed(rest: seq<Event>)
    | Paused(auth: bool, delay: real, rest: seq<Event>)

  function RoundEvents(k: nat, r: Round): seq<Event> {
    match r
    case Last(auth) => [Send(k)] + if auth then [RefreshAuth] else []
    case Refreshed(_) => [Send(k), RefreshAuth]
    case Paused(auth, d, _) => if auth then [Send(k), RefreshAuth, Sleep(d)] else [Send(k), Sleep(d)]
  }

  ghost predicate LegalRound(p: Policy, c: Call, w: World, attempt: nat, k: nat, refreshed: bool, r: Round) {
    match r
    case Last(auth) => auth ==> MayRefresh(p, c, w, k, refreshed)
    case Refreshed(rest) =>
      MayRefresh(p, c, w, k, refreshed) && w.refresh.Granted? && Legal(p, c, w, attempt, k + 1, true, rest)
    case Paused(auth, d, rest) =>
      && (auth ==> MayRefresh(p, c, w, k, refreshed))
      && attempt + 1 < p.maxAttempts && MayRetry(p, c, w, k) && DuePause(p, w, attempt + 1, k, d)
      && Legal(p, c, w, attempt + 1, k + 1, refreshed || auth, rest)
  }

  function RoundRest(r: Round): seq<Event> { if r.Last? then [] else r.rest }

  lemma SplitRound(p: Policy, c: Call, w: World, attempt: nat, k: nat, refreshed: bool, trace: seq<Event>)
      returns (r: Round)
    requires Legal(p, c, w, attempt, k, refreshed, trace)
    ensures trace == RoundEvents(k, r) + RoundRest(r) && LegalRound(p, c, w, attempt, k, refreshed, r)
    ensures Sends(trace) == 1 + Sends(RoundRest(r))
    ensures Refreshes(trace) == (if r.Refreshed? || r.auth then 1 else 0) + Refreshes(RoundRest(r))
    ensures Pauses(trace) == (if r.Paused? then [r.delay] else []) + Pauses(RoundRest(r))
  {
    if |trace| == 1 { return Last(false); }
    assert trace[1..][1..] == trace[2..];
    if LegalPauseThenRetry(p, c, w, attempt, k, refreshed, trace[1..]) {
      return Paused(false, trace[1].delay, trace[2..]);
    }
    if |trace| == 2 { return Last(true); }
    if LegalPauseThenRetry(p, c, w, attempt, k, true, trace[2..]) {
      assert trace[2..][1..] == trace[3..];
      assert Pauses(trace[2..]) == [trace[2].delay] + Pauses(trace[3..]);
      return Paused(true, trace[2].delay, trace[3..]);
    }
    return Refreshed(trace[2..]);
  }

  lemma {:induction false} LegalBounds(p: Policy, c: Call, w: World, attempt: nat, k: nat, refreshed: bool,
                                       trace: seq<Event>)
    requires Legal(p, c, w, attempt, k, refreshed, trace)
    ensures Refreshes(trace) <= if refreshed then 0 else 1
    ensures |Pauses(trace)| <= Max(1, p.maxAttempts - attempt) - 1
    ensures 1 <= Sends(trace) <= |Pauses(trace)| + 1 + Refreshes(trace)
    decreases |trace|
  {
    var r := SplitRound(p, c, w, attempt, k, refreshed, trace);
    match r
    case Last(_) =>
    case Refreshed(rest) => LegalBounds(p, c, w, attempt, k + 1, true, rest);
    case Paused(auth, _, rest) => LegalBounds(p, c, w, attempt + 1, k + 1, refreshed || auth, rest);
  }

  /** The jitter stays within the delay it is drawn for, as random.uniform(0, delay) does. */
  ghost predicate FairJitter(w: World) {
    forall k: nat, d: real :: d >= 0.0 ==> 0.0 <= w.jitter(k, d) <= d
  }

  predicate Nonnegative(p: Policy) { p.backoffBase >= 0.0 && p.backoffMax >= 0.0 && p.maxRetryAfter >= 0.0 }

  lemma {:induction false} TimesPow2Grows(base: real, n: nat)
    requires base >= 0.0
    ensures 0.0 <= TimesPow2(base, n) <= TimesPow2(base, n + 1)
  {
    if n > 0 { TimesPow2Grows(base, n - 1); }
  }

  lemma BackoffInRange(p: Policy, a: nat)
    requires Nonnegative(p) && a > 0
    ensures 0.0 <= Backoff(p, a) <= p.backoffMax
  {
    TimesPow2Grows(p.backoffBase, a - 1);
  }

  lemma DuePauseInRange(p: Policy, w: World, a: nat, k: nat, d: real)
    requires Nonnegative(p) && FairJitter(w) && a > 0 && DuePause(p, w, a, k, d)
    ensures 0.0 <= d <= MaxReal(p.backoffMax, p.maxRetryAfter)
  {
    BackoffInRange(p, a);
  }

  ghost predicate Within(pauses: seq<real>, cap: real) { forall d :: d in pauses ==> 0.0 <= d <= cap }

  lemma WithinCons(d: real, pauses: seq<real>, cap: real)
    requires 0.0 <= d <= cap && Within(pauses, cap)
    ensures Within([d] + pauses, cap)
  {
  }

  lemma {:induction false} LegalPausesInRange(p: Policy, c: Call, w: World, attempt: nat, k: nat, refreshed: bool,
                                              trace: seq<Event>)
    requires Legal(p, c, w, attempt, k, refreshed, trace) && Nonnegative(p) && FairJitter(w)
    ensures Within(Pauses(trace), MaxReal(p.backoffMax, p.maxRetryAfter))
    decreases |trace|
  {
    var r := SplitRound(p, c, w, attempt, k, refreshed, trace);
    match r
    case Last(_) =>
    case Refreshed(rest) => LegalPausesInRange(p, c, w, attempt, k + 1, true, rest);
    case Paused(auth, d, rest) =>
      LegalPausesInRange(p, c, w, attempt + 1, k + 1, refreshed || auth, rest);
      DuePauseInRange(p, w, attempt + 1, k, d);
      WithinCons(d, Pauses(rest), MaxReal(p.backoffMax, p.maxRetryAfter));
  }

  function Product(n: nat, cap: real): real { n as real * cap }

  lemma {:induction false} OneMoreTime(n: nat, cap: real)
    requires cap >= 0.0
    ensures Product(n, cap) >= 0.0 && Product(n + 1, cap) == Product(n, cap) + cap
  {
  }

  lemma {:induction false} TotalAtMost(pauses: seq<real>, n: nat, cap: real)
    requires |pauses| <= n && cap >= 0.0 && forall d :: d in pauses ==> d <= cap
    ensures Total(pauses) <= Product(n, cap)
  {
    OneMoreTime(n, cap);
    if pauses != [] {
      assert pauses[0] in pauses && forall d :: d in pauses[1..] ==> d in pauses;
      TotalAtMost(pauses[1..], n - 1, cap);
      OneMoreTime(n - 1, cap);
    }
  }

  /**
   Both loops, against every server: at most max(1, max_attempts) + 1 send chains, at most one
   refresh, which spends no attempt, and at most max(1, max_attempts) - 1 pauses.
   */
  lemma {:induction false} RetryIsBounded(p: Policy, c: Call, w: World, trace: seq<Event>)
    requires LoopTrace(p, c, w, trace)
    ensures 1 <= Sends(trace) <= Max(1, p.maxAttempts) + Refreshes(trace) <= Max(1, p.maxAttempts) + 1
    ensures |Pauses(trace)| <= Max(1, p.maxAttempts) - 1
  {
    LoopIsLegal(p, c, w, trace);
    LegalBounds(p, AsStreamed(c), w, 0, 0, false, trace);
  }

  lemma {:induction false} LoopPauses(p: Policy, c: Call, w: World, trace: seq<Event>)
    requires LoopTrace(p, c, w, trace) && Nonnegative(p) && FairJitter(w)
    ensures |Pauses(trace)| <= Max(1, p.maxAttempts) - 1
    ensures forall d :: d in Pauses(trace) ==> d <= MaxReal(p.backoffMax, p.maxRetryAfter)
  {
    LoopIsLegal(p, c, w, trace);
    LegalPausesInRange(p, AsStreamed(c), w, 0, 0, false, trace);
    RetryIsBounded(p, c, w, trace);
  }

  /** The time either loop sleeps in one call. */
  lemma {:induction false} SleepIsBounded(p: Policy, c: Call, w: World, trace: seq<Event>)
    requires LoopTrace(p, c, w, trace) && Nonnegative(p) && FairJitter(w)
    ensures Total(Pauses(trace)) <= Product(Max(1, p.maxAttempts) - 1, MaxReal(p.backoffMax, p.maxRetryAfter))
  {
    LoopPauses(p, c, w, trace);
    TotalAtMost(Pauses(trace), Max(1, p.maxAttempts) - 1, MaxReal(p.backoffMax, p.maxRetryAfter));
  }

  // ---------------------------------------------------------------- what is sent again, and why

  /** Event `i` resends the request: right after a granted refresh, or after a pause the policy allows. */
  predicate Justified(p: Policy, c: Call, w: World, trace: seq<Event>, i: nat)
    requires 0 < i < |trace| && trace[i].Send? && trace[i].k > 0
  {
    var prev := w.send(trace[i].k - 1);
    || (trace[i - 1].RefreshAuth? && w.refresh.Granted? && prev.Response? && prev.status == 401)
    || (trace[i - 1].Sleep?
        && ((MayReplay(p, c) && c.bodyReplayable) || (prev.Response? && prev.status == 429 && 429 in p.retryOnStatus)))
  }

  ghost predicate ResendsJustified(p: Policy, c: Call, w: World, k: nat, trace: seq<Event>) {
    forall i :: 0 < i < |trace| && trace[i].Send? ==> trace[i].k > k && Justified(p, c, w, trace, i)
  }

  lemma RoundKeepsJustified(p: Policy, c: Call, w: World, attempt: nat, k: nat, refreshed: bool, r: Round)
    requires LegalRound(p, c, w, attempt, k, refreshed, r) && ResendsJustified(p, c, w, k + 1, RoundRest(r))
    ensures ResendsJustified(p, c, w, k, RoundEvents(k, r) + RoundRest(r))
  {
    var n, rest, trace := |RoundEvents(k, r)|, RoundRest(r), RoundEvents(k, r) + RoundRest(r);
    forall i | 0 < i < |trace| && trace[i].Send? ensures trace[i].k > k && Justified(p, c, w, trace, i) {
      if i > n {
        assert rest[i - n] == trace[i] && rest[i - n - 1] == trace[i - 1];
        assert Justified(p, c, w, rest, i - n);
      } else {
        assert i == n && trace[n] == rest[0] == Send(k + 1);
        assert trace[n - 1] == RoundEvents(k, r)[n - 1];
      }
    }
  }

  lemma {:induction false} LegalResends(p: Policy, c: Call, w: World, attempt: nat, k: nat, refreshed: bool,
                                        trace: seq<Event>)
    requires Legal(p, c, w, attempt, k, refreshed, trace)
    ensures ResendsJustified(p, c, w, k, trace)
    decreases |trace|
  {
    var r := SplitRound(p, c, w, attempt, k, refreshed, trace);
    match r {
      case Last(_) =>
      case Refreshed(rest) => LegalResends(p, c, w, attempt, k + 1, true, rest);
      case Paused(auth, _, rest) => LegalResends(p, c, w, attempt + 1, k + 1, refreshed || auth, rest);
    }
    RoundKeepsJustified(p, c, w, attempt, k, refreshed, r);
  }

  /** A non-idempotent request is sent again only if the policy allows it, the status was 429, or auth was refreshed. */
  lemma UnsafeRequestsAreNotReplayed(p: Policy, c: Call, w: World, trace: seq<Event>, i: nat)
    requires LoopTrace(p, c, w, trace)
    requires 0 < i < |trace| && trace[i].Send? && !MayReplay(p, c)
    ensures trace[i].k > 0 && w.send(trace[i].k - 1).Response?
    ensures w.send(trace[i].k - 1).status == 429 || (w.send(trace[i].k - 1).status == 401 && w.refresh.Granted?)
  {
    LoopIsLegal(p, c, w, trace);
    LegalResends(p, AsStreamed(c), w, 0, 0, false, trace);
    assert Justified(p, AsStreamed(c), w, trace, i);
  }

  /** `request` sends a body that it cannot rewind again only after a 429 or a granted refresh. */
  lemma {:induction false} BodiesAreNotResent(p: Policy, c: Call, w: World, i: nat)
    requires !c.bodyReplayable
    requires var trace := RequestFrom(p, c, w, 0, 0, false).trace; 0 < i < |trace| && trace[i].Send?
    ensures var k := RequestFrom(p, c, w, 0, 0, false).trace[i].k;
            && k > 0 && w.send(k - 1).Response?
            && (w.send(k - 1).status == 429 || (w.send(k - 1).status == 401 && w.refresh.Granted?))
  {
    RequestIsLegal(p, c, w, 0, 0, false);
    LegalResends(p, c, w, 0, 0, false, RequestFrom(p, c, w, 0, 0, false).trace);
    assert Justified(p, c, w, RequestFrom(p, c, w, 0, 0, false).trace, i);
  }

  // ---------------------------------------------------------------- when the loops stop, and what they report

  /** The outcome of a call is that of its last send chain, or of a refresh that raised. */
  predicate Tells(p: Policy, c: Call, w: World, n: nat, o: Outcome) {
    match w.send(n)
    case InvalidUrl => o == Mapped(RequestError)
    case OtherFailure => o == Unmapped
    case HttpFailure(cls) => o == Mapped(cls)
    case Response(status, _) =>
      if 200 <= status < 300 then o == Success(status)
      else if o.Success? then false
      else if o.Mapped? then status == 401 && RefreshAllowed(p, c) && w.refresh == RefreshHttpFailure(o.cls)
      else if o.Unmapped? then status == 401 && RefreshAllowed(p, c)
        && (w.refresh.RefreshRaises? || w.refresh.RefreshHttpFailure?)
      else if o.NotFollowed? then 300 <= status < 400
      else o.status == status && !(300 <= status < 400)
  }

  /** What makes `request`, and what makes `stream`, send again while attempts are left. */
  predicate Repeats(p: Policy, c: Call, w: World, n: nat, streaming: bool) {
    match w.send(n)
    case HttpFailure(cls) => p.retryOnTransport && Transient(cls) && MayReplay(p, c) && (streaming || c.bodyReplayable)
    case Response(status, _) =>
      && !(200 <= status < 300) && status in p.retryOnStatus
      && (status == 429 || (MayReplay(p, c) && (streaming || (c.bodyReplayable && !(300 <= status < 400)))))
    case _ => false
  }

  /** The last answer was a 401 whose refresh did not succeed: `request` gives up, `stream` only if refresh() raised. */
  predicate RefreshEndsIt(p: Policy, c: Call, w: World, n: nat, streaming: bool) {
    && w.send(n).Response? && w.send(n).status == 401 && RefreshAllowed(p, c)
    && !w.refresh.Granted? && !(streaming && w.refresh.Declined?)
  }

  /** The call reports its last send chain, and it ended there because it had to. */
  ghost predicate StopsRight(p: Policy, c: Call, w: World, attempt: nat, k: nat, e: Ending, streaming: bool) {
    && Sends(e.trace) > 0
    && var n := k + Sends(e.trace) - 1;
    && Tells(p, c, w, n, e.outcome)
    && (Repeats(p, c, w, n, streaming) ==> || attempt + |Pauses(e.trace)| + 1 >= p.maxAttempts
                                           || RefreshEndsIt(p, c, w, n, streaming))
  }

  lemma StopsAfterAPause(p: Policy, c: Call, w: World, attempt: nat, k: nat, rest: Ending, auth: bool, delay: real,
                         streaming: bool)
    requires StopsRight(p, c, w, attempt + 1, k + 1, rest, streaming)
    ensures StopsRight(p, c, w, attempt, k,
                       Prepend(if auth then [Send(k), RefreshAuth, Sleep(delay)]
                               else [Send(k), Sleep(delay)], rest), streaming)
  {
    var t := [Sleep(delay)] + rest.trace;
    assert t[1..] == rest.trace;
    assert Pauses(t) == [delay] + Pauses(rest.trace) && Sends(t) == Sends(rest.trace);
    assert ([Send(k), Sleep(delay)] + rest.trace)[1..] == t;
    assert ([RefreshAuth] + t)[1..] == t
      && ([Send(k), RefreshAuth, Sleep(delay)] + rest.trace)[1..] == [RefreshAuth] + t;
  }

  lemma StopsAfterARefresh(p: Policy, c: Call, w: World, attempt: nat, k: nat, rest: Ending, streaming: bool)
    requires StopsRight(p, c, w, attempt, k + 1, rest, streaming)
    ensures StopsRight(p, c, w, attempt, k, Prepend([Send(k), RefreshAuth], rest), streaming)
  {
    var t := rest.trace;
    assert ([Send(k), RefreshAuth] + t)[1..] == [RefreshAuth] + t && ([RefreshAuth] + t)[1..] == t;
  }

  lemma StopsHere(p: Policy, c: Call, w: World, attempt: nat, k: nat, e: Ending, streaming: bool)
    requires e.trace == [Send(k)] || e.trace == [Send(k), RefreshAuth]
    requires Tells(p, c, w, k, e.outcome)
    requires Repeats(p, c, w, k, streaming) ==> attempt + 1 >= p.maxAttempts || RefreshEndsIt(p, c, w, k, streaming)
    ensures StopsRight(p, c, w, attempt, k, e, streaming)
  {
    assert [Send(k), RefreshAuth][1..] == [RefreshAuth] && [RefreshAuth][1..] == [] && [Send(k)][1..] == [];
    assert Sends([RefreshAuth]) == 0 && Pauses([RefreshAuth]) == [];
  }

  /** The three forms a round of `request` takes. */
  lemma RequestRound(p: Policy, c: Call, w: World, attempt: nat, k: nat, refreshed: bool) returns (delay: real)
    ensures var e := RequestFrom(p, c, w, attempt, k, refreshed);
            if MayRefresh(p, c, w, k, refreshed) then
              if w.refresh.Granted? then
                  e == Prepend([Send(k), RefreshAuth], RequestFrom(p, c, w, attempt, k + 1, true))
              else e.trace == [Send(k), RefreshAuth] && Tells(p, c, w, k, e.outcome)
            else if Repeats(p, c, w, k, false) && attempt + 1 < p.maxAttempts then
              e == Prepend([Send(k), Sleep(delay)], RequestFrom(p, c, w, attempt + 1, k + 1, refreshed))
            else e.trace == [Send(k)] && Tells(p, c, w, k, e.outcome)
  {
    var sent := w.send(k);
    delay := if sent.Response? && sent.status == 429 then RequestPause429(p, w, attempt + 1, k, sent.retryAfter)
             else Jittered(p, w, attempt + 1, k);
  }

  /** `request` gives up only when the outcome is final, all attempts are spent, or a refresh did not succeed. */
  lemma {:induction false} RequestStopsWhenItMust(p: Policy, c: Call, w: World, attempt: nat, k: nat, refreshed: bool)
    ensures StopsRight(p, c, w, attempt, k, RequestFrom(p, c, w, attempt, k, refreshed), false)
    decreases !refreshed, p.maxAttempts - attempt
  {
    var delay := RequestRound(p, c, w, attempt, k, refreshed);
    if MayRefresh(p, c, w, k, refreshed) && w.refresh.Granted? {
      RequestStopsWhenItMust(p, c, w, attempt, k + 1, true);
      StopsAfterARefresh(p, c, w, attempt, k, RequestFrom(p, c, w, attempt, k + 1, true), false);
    } else if !MayRefresh(p, c, w, k, refreshed) && Repeats(p, c, w, k, false) && attempt + 1 < p.maxAttempts {
      RequestStopsWhenItMust(p, c, w, attempt + 1, k + 1, refreshed);
      StopsAfterAPause(p, c, w, attempt, k, RequestFrom(p, c, w, attempt + 1, k + 1, refreshed), false, delay, false);
    } else {
      StopsHere(p, c, w, attempt, k, RequestFrom(p, c, w, attempt, k, refreshed), false);
    }
  }

  /** The forms a round of `stream` takes; a refused refresh does not end it. */
  lemma StreamRound(p: Policy, c: Call, w: World, attempt: nat, k: nat, refreshed: bool)
    ensures var e, auth := StreamFrom(p, c, w, attempt, k, refreshed), MayRefresh(p, c, w, k, refreshed);
            var delay := StreamPause(p, w, attempt + 1, k);
            if auth && w.refresh.Granted? then
                e == Prepend([Send(k), RefreshAuth], StreamFrom(p, c, w, attempt, k + 1, true))
            else if Repeats(p, c, w, k, true) && attempt + 1 < p.maxAttempts && (auth ==> w.refresh.Declined?) then
              e == Prepend(if auth then [Send(k), RefreshAuth, Sleep(delay)] else [Send(k), Sleep(delay)],
                           StreamFrom(p, c, w, attempt + 1, k + 1, refreshed || auth))
            else e.trace == (if auth then [Send(k), RefreshAuth] else [Send(k)]) && Tells(p, c, w, k, e.outcome)
  {
    var auth, delay := MayRefresh(p, c, w, k, refreshed), StreamPause(p, w, attempt + 1, k);
    if w.send(k).Response? && Repeats(p, c, w, k, true) && attempt + 1 < p.maxAttempts {
      PrependTwice(if auth then [Send(k), RefreshAuth] else [Send(k)], [Sleep(delay)],
                   StreamFrom(p, c, w, attempt + 1, k + 1, refreshed || auth));
    }
  }

  /** The same for `stream`, which goes on after a refused refresh. */
  lemma {:induction false} StreamStopsWhenItMust(p: Policy, c: Call, w: World, attempt: nat, k: nat, refreshed: bool)
    ensures StopsRight(p, c, w, attempt, k, StreamFrom(p, c, w, attempt, k, refreshed), true)
    decreases !refreshed, p.maxAttempts - attempt
  {
    var auth, delay := MayRefresh(p, c, w, k, refreshed), StreamPause(p, w, attempt + 1, k);
    StreamRound(p, c, w, attempt, k, refreshed);
    if auth && w.refresh.Granted? {
      StreamStopsWhenItMust(p, c, w, attempt, k + 1, true);
      StopsAfterARefresh(p, c, w, attempt, k, StreamFrom(p, c, w, attempt, k + 1, true), true);
    } else if Repeats(p, c, w, k, true) && attempt + 1 < p.maxAttempts && (auth ==> w.refresh.Declined?) {
      StreamStopsWhenItMust(p, c, w, attempt + 1, k + 1, refreshed || auth);
      StopsAfterAPause(p, c, w, attempt, k, StreamFrom(p, c, w, attempt + 1, k + 1, refreshed || auth),
                       auth, delay, true);
    } else {
      StopsHere(p, c, w, attempt, k, StreamFrom(p, c, w, attempt, k, refreshed), true);
    }
  }

  // ---------------------------------------------------------------- the backoff schedule

  ghost predicate NoRetryAfter(w: World) {
    forall k: nat :: w.send(k).Response? ==> !w.send(k).retryAfter.Seconds?
  }

  lemma {:induction false} LegalSchedule(p: Policy, c: Call, w: World, attempt: nat, k: nat, refreshed: bool,
                                         trace: seq<Event>, j: nat)
    requires Legal(p, c, w, attempt, k, refreshed, trace) && !p.backoffJitter && NoRetryAfter(w)
    requires j < |Pauses(trace)|
    ensures Pauses(trace)[j] == Backoff(p, attempt + j + 1)
    decreases |trace|
  {
    var r := SplitRound(p, c, w, attempt, k, refreshed, trace);
    match r
    case Last(_) =>
    case Refreshed(rest) => LegalSchedule(p, c, w, attempt, k + 1, true, rest, j);
    case Paused(auth, _, rest) =>
      if j > 0 { LegalSchedule(p, c, w, attempt + 1, k + 1, refreshed || auth, rest, j - 1); }
  }

  /**
   Without jitter or Retry-After the pauses are min(base * 2^j, max) for j = 0, 1, ..: the first is the base, each is
   twice the one before, both up to the maximum. A refresh between two attempts does not advance the schedule, and
   the pauses never decrease.
   */
  lemma PausesFollowTheBackoff(p: Policy, c: Call, w: World, trace: seq<Event>, j: nat)
    requires LoopTrace(p, c, w, trace)
    requires !p.backoffJitter && NoRetryAfter(w) && j < |Pauses(trace)|
    ensures Pauses(trace)[j] == MinReal(TimesPow2(p.backoffBase, j), p.backoffMax) <= p.backoffMax
    ensures Pauses(trace)[0] == MinReal(p.backoffBase, p.backoffMax)
    ensures p.backoffMax >= 0.0 && j > 0 ==> Pauses(trace)[j] == MinReal(2.0 * Pauses(trace)[j - 1], p.backoffMax)
    ensures p.backoffBase >= 0.0 && j > 0 ==> Pauses(trace)[j - 1] <= Pauses(trace)[j]
  {
    LoopIsLegal(p, c, w, trace);
    LegalSchedule(p, AsStreamed(c), w, 0, 0, false, trace, j);
    LegalSchedule(p, AsStreamed(c), w, 0, 0, false, trace, 0);
    if j > 0 {
      LegalSchedule(p, AsStreamed(c), w, 0, 0, false, trace, j - 1);
      if p.backoffBase >= 0.0 { TimesPow2Grows(p.backoffBase, j - 1); }
    }
  }

  // ---------------------------------------------------------------- agreement of the two loops

  /**
   The policies on which `request` and `stream` behave alike: a retry is never possible, or neither
   an unfollowed redirect nor a refused refresh can be retried by status.
   */
  predicate LoopsCompatible(p: Policy, c: Call) {
    || p.maxAttempts <= 1
    || !MayReplay(p, c)
    || (&& (forall status :: status in p.retryOnStatus ==> !(300 <= status < 400))
        && !(RefreshAllowed(p, c) && 401 in p.retryOnStatus))
  }

  /** Where only the given world decides: a granted refresh never exposes the second difference. */
  predicate CompatibleIn(p: Policy, c: Call, w: World) {
    && c.bodyReplayable
    && (RefreshAllowed(p, c) ==> !w.refresh.RefreshHttpFailure?)
    && (|| LoopsCompatible(p, c)
        || (w.refresh.Granted? && forall status :: status in p.retryOnStatus ==> !(300 <= status < 400)))
  }

  /** How the loops treat a status that neither succeeds nor triggers a refresh, when the policies agree. */
  lemma StatusRound(p: Policy, c: Call, w: World, attempt: nat, k: nat, refreshed: bool)
    requires w.send(k).Response? && !(200 <= w.send(k).status < 300) && !MayRefresh(p, c, w, k, refreshed)
    requires CompatibleIn(p, c, w)
    ensures var retry := MayRetry(p, c, w, k) && attempt + 1 < p.maxAttempts;
            var events := [Send(k), Sleep(StreamPause(p, w, attempt + 1, k))];
            if retry then
              && RequestFrom(p, c, w, attempt, k, refreshed) ==
                 Prepend(events, RequestFrom(p, c, w, attempt + 1, k + 1, refreshed))
              && StreamFrom(p, c, w, attempt, k, refreshed) ==
                 Prepend(events, StreamFrom(p, c, w, attempt + 1, k + 1, refreshed))
            else
              RequestFrom(p, c, w, attempt, k, refreshed) == StreamFrom(p, c, w, attempt, k, refreshed)
  {
    if attempt + 1 < p.maxAttempts {
      PrependTwice([Send(k)], [Sleep(StreamPause(p, w, attempt + 1, k))],
                   StreamFrom(p, c, w, attempt + 1, k + 1, refreshed));
    }
  }

  lemma {:induction false} LoopsAgreeFrom(p: Policy, c: Call, w: World, attempt: nat, k: nat, refreshed: bool)
    requires CompatibleIn(p, c, w)
    ensures RequestFrom(p, c, w, attempt, k, refreshed) == StreamFrom(p, c, w, attempt, k, refreshed)
    decreases !refreshed, p.maxAttempts - attempt
  {
    var sent := w.send(k);
    if attempt + 1 < p.maxAttempts { LoopsAgreeFrom(p, c, w, attempt + 1, k + 1, refreshed); }
    if sent.Response? && !(200 <= sent.status < 300) {
      if MayRefresh(p, c, w, k, refreshed) {
        if w.refresh.Granted? { LoopsAgreeFrom(p, c, w, attempt, k + 1, true); }
      } else {
        StatusRound(p, c, w, attempt, k, refreshed);
      }
    }
  }

  ghost predicate AgreeOn(p: Policy, c: Call, w: World) {
    RequestFrom(p, c, w, 0, 0, false) == StreamFrom(p, c, w, 0, 0, false)
  }

  /** Agreement wherever refresh(), if it can be called at all, raises no httpx error. */
  ghost predicate AgreeUnlessRefreshFails(p: Policy, c: Call) {
    forall w: World :: (RefreshAllowed(p, c) ==> !w.refresh.RefreshHttpFailure?) ==> AgreeOn(p, c, w)
  }

  /** A server that answers every send with the same status. */
  function ConstantWorld(status: int, refresh: Refresh): World {
    World((k: nat) => Response(status, Absent), refresh, (k: nat, d: real) => d)
  }

  lemma {:induction false} LoopsDifferOn(p: Policy, c: Call, w: World)
    requires !LoopsCompatible(p, c)
    requires (exists status :: status in p.retryOnStatus && 300 <= status < 400 && w == ConstantWorld(status, Granted))
          || (RefreshAllowed(p, c) && 401 in p.retryOnStatus && w == ConstantWorld(401, Declined))
    ensures RequestFrom(p, c, w, 0, 0, false) != StreamFrom(p, c, w, 0, 0, false)
  {
    var refreshed := w.send(0).status == 401;
    var pause := StreamPause(p, w, 1, 0);
    assert StreamAfterAuth(p, c, w, 0, 0, refreshed).trace[0] == Sleep(pause);
    assert Sleep(pause) in StreamFrom(p, c, w, 0, 0, false).trace;
    assert Sleep(pause) !in RequestFrom(p, c, w, 0, 0, false).trace;
  }

  /**
   With a replayable body the two loops produce the same sends, refreshes, pauses and outcome on
   every server on which refresh() raises no httpx error exactly when the policy is compatible.
   */
  lemma LoopsAgreeExactlyWhen(p: Policy, c: Call)
    requires c.bodyReplayable
    ensures AgreeUnlessRefreshFails(p, c) <==> LoopsCompatible(p, c)
  {
    if LoopsCompatible(p, c) {
      forall w: World | RefreshAllowed(p, c) ==> !w.refresh.RefreshHttpFailure?
        ensures AgreeOn(p, c, w)
      {
        LoopsAgreeFrom(p, c, w, 0, 0, false);
      }
    } else if status :| status in p.retryOnStatus && 300 <= status < 400 {
      LoopsDifferOn(p, c, ConstantWorld(status, Granted));
      assert !AgreeOn(p, c, ConstantWorld(status, Granted));
    } else {
      LoopsDifferOn(p, c, ConstantWorld(401, Declined));
      assert !AgreeOn(p, c, ConstantWorld(401, Declined));
    }
  }

  /** On every server whatsoever the loops agree exactly when, besides, no refresh is possible. */
  lemma LoopsAlwaysAgreeExactlyWhen(p: Policy, c: Call)
    requires c.bodyReplayable
    ensures (forall w: World :: AgreeOn(p, c, w)) <==> LoopsCompatible(p, c) && !RefreshAllowed(p, c)
  {
    LoopsAgreeExactlyWhen(p, c);
    if RefreshAllowed(p, c) {
      var w := ConstantWorld(401, RefreshHttpFailure(TransportError));
      RefreshFailureIsMappedByStreamOnly(p, c, TransportError);
      assert !AgreeOn(p, c, w);
    }
  }

  /**
   When refresh() would raise an httpx error, the loops of a compatible policy still send and pause
   alike; their outcomes differ exactly when the run reaches the refresh, and then only in the mapping.
   */
  lemma {:induction false} RefreshFailureDecides(p: Policy, c: Call, w: World, attempt: nat, k: nat, refreshed: bool)
    requires c.bodyReplayable && LoopsCompatible(p, c) && w.refresh.RefreshHttpFailure?
    ensures var a, b := RequestFrom(p, c, w, attempt, k, refreshed), StreamFrom(p, c, w, attempt, k, refreshed);
            && a.trace == b.trace
            && if RefreshAuth in a.trace then a.outcome == Unmapped && b.outcome == Mapped(w.refresh.cls)
               else a.outcome == b.outcome
    decreases p.maxAttempts - attempt
  {
    var auth := MayRefresh(p, c, w, k, refreshed);
    var _ := RequestRound(p, c, w, attempt, k, refreshed);
    StreamRound(p, c, w, attempt, k, refreshed);
    if auth {
      assert RefreshAuth in RequestFrom(p, c, w, attempt, k, refreshed).trace;
    } else if Repeats(p, c, w, k, false) && attempt + 1 < p.maxAttempts {
      RefreshFailureDecides(p, c, w, attempt + 1, k + 1, refreshed);
    }
  }

  /** When refresh() succeeds, keeping 3xx out of `retry_on_status` is enough, also with 401 in it. */
  lemma {:induction false} LoopsAgreeAfterGrantedRefresh(p: Policy, c: Call, w: World)
    requires c.bodyReplayable && w.refresh.Granted?
    requires forall status :: status in p.retryOnStatus ==> !(300 <= status < 400)
    ensures RequestFrom(p, c, w, 0, 0, false) == StreamFrom(p, c, w, 0, 0, false)
  {
    LoopsAgreeFrom(p, c, w, 0, 0, false);
  }

  /** An httpx error raised by refresh() itself is mapped by `stream` and passed through by `request`. */
  lemma {:induction false} RefreshFailureIsMappedByStreamOnly(p: Policy, c: Call, cls: ErrorClass)
    requires RefreshAllowed(p, c)
    ensures var w := ConstantWorld(401, RefreshHttpFailure(cls));
            && RequestFrom(p, c, w, 0, 0, false).outcome == Unmapped
            && StreamFrom(p, c, w, 0, 0, false).outcome == Mapped(cls)
  {
  }
}
