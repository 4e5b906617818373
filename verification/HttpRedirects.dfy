/**
 `_send_with_redirects` of _core/http/engine.py: one loop that follows redirects inside the client's
 auth flow and owns every response it opens.

 The client, the location check, the auth flow and the response body are native: each call may fail,
 and nothing is assumed of a server's answers.  A call that raises ends in the `except` block.
 */
module HttpRedirects {
  import opened Common

  type Url = nat

  datatype Error = TooManyRedirects | LocationRefused | SendFailed | BodyFailed | CloseFailed | AuthFailed

  /** Why a request is sent. */
  datatype Via = First | Redirected | Challenged

  datatype Event = Checked(url: Url, ok: bool) | SentTo(url: Url, via: Via)

  datatype AuthReply = Again(url: Url) | Stop | Raises(error: Error)

  class Response {
    const url: Url
    const via: Via
    const next: Option<Url>   // response.next_request
    var wasRead: bool         // its body is in memory
    var closed: bool
    var history: seq<Response>

    constructor (url: Url, via: Via, next: Option<Url>)
      ensures this.url == url && this.via == via && this.next == next && !closed && !wasRead && history == []
    {
      this.url, this.via, this.next := url, via, next;
      wasRead, closed, history := false, false, [];
    }

    /** A body in memory is not read again; the body of a closed response cannot be read any more. */
    method Read() returns (ok: bool)
      requires closed ==> wasRead
      modifies this`wasRead
      ensures wasRead == (ok || old(wasRead)) && (old(wasRead) ==> ok)
    {
      if wasRead { return true; }
      ok := *;
      wasRead := ok;
    }

    /**
     httpx marks the response closed before it releases the stream, so a failing close still closes, and
     a second close does nothing.
     */
    method Close() returns (ok: bool)
      modifies this`closed
      ensures closed && (old(closed) ==> ok)
    {
      if closed { return true; }
      closed := true;
      ok := *;
    }
  }

  /** How many requests were sent to follow a redirect. */
  function Redirects(log: seq<Event>): nat {
    if log == [] then 0
    else Redirects(log[..|log| - 1]) + if log[|log| - 1].SentTo? && log[|log| - 1].via.Redirected? then 1 else 0
  }

  lemma {:induction false} RedirectsSnoc(log: seq<Event>, e: Event)
    ensures Redirects(log + [e]) == Redirects(log) + if e.SentTo? && e.via.Redirected? then 1 else 0
  {
    assert (log + [e])[..|log|] == log;
  }

  /** The requests that were sent for another reason. */
  function FlowSends(log: seq<Event>): seq<Url> {
    if log == [] then []
    else FlowSends(log[..|log| - 1]) + FlowSend(log[|log| - 1])
  }

  function FlowSend(e: Event): seq<Url> { if e.SentTo? && !e.via.Redirected? then [e.url] else [] }

  lemma {:induction false} FlowSendsSnoc(log: seq<Event>, e: Event)
    ensures FlowSends(log + [e]) == FlowSends(log) + FlowSend(e)
  {
    assert (log + [e])[..|log|] == log;
  }

  /** Every send comes right after a check of its location that passed. */
  ghost predicate CheckedBeforeSent(log: seq<Event>) {
    forall i :: 0 <= i < |log| ==> CheckedAt(log, i)
  }

  predicate CheckedAt(log: seq<Event>, i: int)
    requires 0 <= i < |log|
  {
    log[i].SentTo? ==> i > 0 && log[i - 1] == Checked(log[i].url, true)
  }

  lemma CheckedSnoc(log: seq<Event>, e: Event)
    ensures CheckedBeforeSent(log + [e]) <==> CheckedBeforeSent(log) && CheckedAt(log + [e], |log|)
  {
    forall i | 0 <= i < |log| ensures CheckedAt(log + [e], i) == CheckedAt(log, i) {}
    if CheckedBeforeSent(log + [e]) {
      forall i | 0 <= i < |log| ensures CheckedAt(log, i) { assert CheckedAt(log + [e], i); }
    }
  }

  /** What one call of `_send_with_redirects` does to the network, in order. */
  class Exchange {
    var log: seq<Event>
    var sent: seq<Response>   // the responses received
    var faults: seq<Error>    // what the native calls raised
    var redirected: nat       // the local `redirects`, once its request is sent
    ghost var checked: bool   // every send of the log was checked first
    ghost var issued: seq<Url>

    ghost predicate Valid()
      reads this`log, this`redirected, this`checked, this`issued
    {
      redirected == Redirects(log) && (checked <==> CheckedBeforeSent(log)) && issued == FlowSends(log)
    }

    constructor ()
      ensures log == [] && sent == [] && faults == [] && issued == [] && Valid()
    {
      log, sent, faults, redirected, checked, issued := [], [], [], 0, true, [];
    }

    method CheckLocation(url: Url) returns (ok: bool)
      requires Valid()
      modifies this`log, this`faults
      ensures Valid() && log == old(log) + [Checked(url, ok)]
      ensures faults == old(faults) + if ok then [] else [LocationRefused]
    {
      ok := *;
      RedirectsSnoc(log, Checked(url, ok));
      FlowSendsSnoc(log, Checked(url, ok));
      CheckedSnoc(log, Checked(url, ok));
      log := log + [Checked(url, ok)];
      if !ok { faults := faults + [LocationRefused]; }
    }

    method Send(url: Url, via: Via) returns (r: Result<Response, Error>)
      requires Valid()
      modifies this
      ensures Valid() && log == old(log) + [SentTo(url, via)]
      ensures redirected == old(redirected) + if via.Redirected? then 1 else 0
      ensures issued == old(issued) + if via.Redirected? then [] else [url]
      ensures checked <==> old(checked && log != [] && log[|log| - 1] == Checked(url, true))
      ensures r.Err? ==> sent == old(sent) && r.error == SendFailed && faults == old(faults) + [SendFailed]
      ensures r.Ok? ==> fresh(r.value) && sent == old(sent) + [r.value] && faults == old(faults)
      ensures r.Ok? ==> r.value.url == url && r.value.via == via && r.value.history == []
      ensures r.Ok? ==> !r.value.closed && !r.value.wasRead
    {
      RedirectsSnoc(log, SentTo(url, via));
      FlowSendsSnoc(log, SentTo(url, via));
      CheckedSnoc(log, SentTo(url, via));
      redirected := redirected + if via.Redirected? then 1 else 0;
      checked := checked && log != [] && log[|log| - 1] == Checked(url, true);
      log := log + [SentTo(url, via)];
      issued := issued + if via.Redirected? then [] else [url];
      var fails: bool := *;
      if fails {
        faults := faults + [SendFailed];
        return Err(SendFailed);
      }
      var next: Option<Url> := *;
      var response := new Response(url, via, next);
      sent := sent + [response];
      return Ok(response);
    }

    method ReadBody(response: Response) returns (failure: Option<Error>)
      requires response.closed ==> response.wasRead
      modifies this`faults, response`wasRead
      ensures failure == (if faults == old(faults) then None else Some(BodyFailed))
      ensures faults == old(faults) + if failure.Some? then [BodyFailed] else []
      ensures response.wasRead == (failure.None? || old(response.wasRead)) && (old(response.wasRead) ==> failure.None?)
    {
      var ok := response.Read();
      if ok { return None; }
      faults := faults + [BodyFailed];
      return Some(BodyFailed);
    }

    method CloseBody(response: Response) returns (failure: Option<Error>)
      modifies this`faults, response`closed
      ensures failure == (if faults == old(faults) then None else Some(CloseFailed))
      ensures faults == old(faults) + if failure.Some? then [CloseFailed] else []
      ensures response.closed && (old(response.closed) ==> failure.None?)
    {
      var ok := response.Close();
      if ok { return None; }
      faults := faults + [CloseFailed];
      return Some(CloseFailed);
    }
  }

  /**
   A finite auth flow: `left` bounds how many more requests it will issue. One that requires the
   response body reads it before it looks at the response, and a body read to its end is closed.
   */
  class AuthFlow {
    const readsBody: bool
    var left: nat
    var issued: seq<Url>         // the requests it made
    var asked: seq<Response>     // the responses it was given
    var settled: seq<Response>   // those it was content with
    var closed: bool

    constructor (readsBody: bool, left: nat)
      ensures this.readsBody == readsBody && this.left == left
      ensures issued == [] && asked == [] && settled == [] && !closed
    {
      this.readsBody, this.left := readsBody, left;
      issued, asked, settled, closed := [], [], [], false;
    }

    method Start(x: Exchange) returns (r: Option<Url>)
      modifies this`issued, x`faults
      ensures r.None? ==> issued == old(issued) && x.faults == old(x.faults) + [AuthFailed]
      ensures r.Some? ==> issued == old(issued) + [r.value] && x.faults == old(x.faults)
    {
      r := *;
      if r.Some? { issued := issued + [r.value]; } else { x.faults := x.faults + [AuthFailed]; }
    }

    method Answer(x: Exchange, response: Response) returns (r: AuthReply)
      requires response.closed ==> response.wasRead
      modifies this, x`faults, response`wasRead, response`closed
      ensures asked == old(asked) + [response] && closed == old(closed)
      ensures issued == old(issued) + if r.Again? then [r.url] else []
      ensures settled == old(settled) + if r.Stop? then [response] else []
      ensures x.faults == old(x.faults) + if r.Raises? then [r.error] else []
      ensures r.Raises? ==> r.error.BodyFailed? || r.error.CloseFailed? || r.error.AuthFailed?
      ensures left <= old(left) && (r.Again? ==> left < old(left))
      ensures !readsBody ==> response.wasRead == old(response.wasRead) && response.closed == old(response.closed)
      ensures readsBody && !r.Raises? ==> response.wasRead && response.closed
    {
      asked := asked + [response];
      if readsBody {
        var failure := x.ReadBody(response);
        if failure.Some? { return Raises(failure.value); }
        failure := x.CloseBody(response);
        if failure.Some? { return Raises(failure.value); }
      }
      var fails: bool, more: bool := *, *;
      if fails {
        x.faults := x.faults + [AuthFailed];
        return Raises(AuthFailed);
      }
      if !more || left == 0 {
        settled := settled + [response];
        return Stop;
      }
      var url: Url := *;
      left := left - 1;
      issued := issued + [url];
      return Again(url);
    }

    method Close()
      modifies this`closed
      ensures closed
    {
      closed := true;
    }
  }

  /** The responses without a redirect to follow: those the auth flow has to see. */
  function Unlinked(sent: seq<Response>, follow: bool): seq<Response> {
    if sent == [] then []
    else
      var last := sent[|sent| - 1];
      Unlinked(sent[..|sent| - 1], follow) + if follow && last.next.Some? then [] else [last]
  }

  lemma {:induction false} UnlinkedSnoc(sent: seq<Response>, q: Response, follow: bool)
    ensures Unlinked(sent + [q], follow) == Unlinked(sent, follow) + if follow && q.next.Some? then [] else [q]
  {
    assert (sent + [q])[..|sent|] == sent;
  }

  /** How response `i` came about: a redirect follows the link of its predecessor, a challenge had none to follow. */
  ghost predicate Chained(sent: seq<Response>, i: nat, follow: bool)
    requires i < |sent|
  {
    if i == 0 then sent[0].via.First?
    else
      && !sent[i].via.First?
      && (sent[i].via.Redirected? <==> follow && sent[i - 1].next.Some?)
      && (sent[i].via.Redirected? ==> sent[i - 1].next == Some(sent[i].url))
  }

  /** Response `i` knows exactly the earlier ones, in order, and is properly chained to them. */
  ghost predicate LinkedAt(sent: seq<Response>, i: nat, follow: bool)
    requires i < |sent|
    reads sent`history
  {
    sent[i].history == sent[..i] && Chained(sent, i, follow)
  }

  ghost predicate Linked(sent: seq<Response>, follow: bool)
    reads sent`history
  {
    forall i :: 0 <= i < |sent| ==> LinkedAt(sent, i, follow)
  }

  /** Their bodies are in memory, and they are closed. */
  ghost predicate Drained(sent: seq<Response>)
    reads sent`closed, sent`wasRead
  {
    forall i :: 0 <= i < |sent| ==> sent[i].closed && sent[i].wasRead
  }

  lemma LinkedSnoc(history: seq<Response>, q: Response, follow: bool)
    requires Linked(history, follow) && q.history == history && Chained(history + [q], |history|, follow)
    ensures Linked(history + [q], follow)
  {
    var sent := history + [q];
    forall i | 0 <= i < |sent| ensures LinkedAt(sent, i, follow) {
      if i < |history| {
        assert LinkedAt(history, i, follow) && sent[..i] == history[..i];
      } else {
        assert sent[..i] == history;
      }
    }
  }

  /** The exchange may go on with a request for `url`, sent for the reason `via`. */
  ghost predicate MaySend(history: seq<Response>, url: Url, via: Via, follow: bool) {
    if history == [] then via.First?
    else
      var last := history[|history| - 1];
      && !via.First?
      && (via.Redirected? <==> follow && last.next.Some?)
      && (via.Redirected? ==> last.next == Some(url))
  }

  /** The location check, when there is one, and the send. */
  method CheckAndSend(x: Exchange, url: Url, via: Via, checking: bool) returns (r: Result<Response, Error>)
    requires x.Valid()
    modifies x
    ensures x.Valid() && (checking && old(x.checked) ==> x.checked)
    ensures old(x.redirected) <= x.redirected <= old(x.redirected) + (if via.Redirected? then 1 else 0)
    ensures x.issued == old(x.issued) + if via.Redirected? || (r.Err? && r.error == LocationRefused) then [] else [url]
    ensures r.Err? ==> x.sent == old(x.sent) && x.faults == old(x.faults) + [r.error]
    ensures r.Err? ==> r.error == SendFailed || (checking && r.error == LocationRefused)
    ensures r.Ok? ==> x.redirected == old(x.redirected) + if via.Redirected? then 1 else 0
    ensures r.Ok? ==> fresh(r.value) && x.sent == old(x.sent) + [r.value] && x.faults == old(x.faults)
    ensures r.Ok? ==> r.value.url == url && r.value.via == via && !r.value.closed && !r.value.wasRead
  {
    if checking {
      var allowed := x.CheckLocation(url);
      if !allowed { return Err(LocationRefused); }
    }
    r := x.Send(url, via);
  }

  /** The next response, linked to the earlier ones. */
  method Receive(x: Exchange, history: seq<Response>, url: Url, via: Via, checking: bool, follow: bool)
      returns (r: Result<Response, Error>)
    requires x.Valid() && x.sent == history && Linked(history, follow) && MaySend(history, url, via, follow)
    modifies x
    ensures x.Valid() && (checking && old(x.checked) ==> x.checked)
    ensures old(x.redirected) <= x.redirected <= old(x.redirected) + (if via.Redirected? then 1 else 0)
    ensures x.issued == old(x.issued) + if via.Redirected? || (r.Err? && r.error == LocationRefused) then [] else [url]
    ensures r.Err? ==> x.sent == history && x.faults == old(x.faults) + [r.error]
    ensures r.Err? ==> r.error == SendFailed || (checking && r.error == LocationRefused)
    ensures r.Ok? ==> x.redirected == old(x.redirected) + if via.Redirected? then 1 else 0
    ensures r.Ok? ==> fresh(r.value) && x.sent == history + [r.value] && r.value.history == history
    ensures r.Ok? ==> !r.value.closed && !r.value.wasRead && x.faults == old(x.faults)
    ensures Linked(x.sent, follow)
  {
    r := CheckAndSend(x, url, via, checking);
    if r.Ok? {
      r.value.history := history;
      LinkedSnoc(history, r.value, follow);
    }
  }

  /** `response.read()` and `response.close()`. */
  method Drain(x: Exchange, response: Response) returns (failure: Option<Error>)
    requires response.closed ==> response.wasRead
    modifies x`faults, response`wasRead, response`closed
    ensures failure.None? ==> response.wasRead && response.closed
    ensures x.faults == old(x.faults) + if failure.Some? then [failure.value] else []
    ensures failure.Some? ==> failure.value == BodyFailed || failure.value == CloseFailed
  {
    failure := x.ReadBody(response);
    if failure.None? { failure := x.CloseBody(response); }
  }

  datatype Decision = Request(url: Url, via: Via) | Finished | Failed(error: Error)

  /** What follows a response: its redirect, another request of the auth flow, or the end of the exchange. */
  method Decide(x: Exchange, flow: AuthFlow, response: Response, follow: bool, redirects: int, maxRedirects: int)
      returns (d: Decision)
    requires response.closed ==> response.wasRead
    modifies flow, x`faults, response`wasRead, response`closed
    ensures flow.closed == old(flow.closed)
    ensures !d.Failed? && response.closed ==> response.wasRead
    ensures d.Finished? && !flow.readsBody ==>
              response.wasRead == old(response.wasRead) && response.closed == old(response.closed)
    ensures d.Finished? && flow.readsBody ==> response.wasRead && response.closed
    ensures flow.left <= old(flow.left)
    ensures flow.asked == old(flow.asked) + if follow && response.next.Some? then [] else [response]
    ensures flow.settled == old(flow.settled) + if d.Finished? then [response] else []
    ensures flow.issued == old(flow.issued) + if d.Request? && d.via.Challenged? then [d.url] else []
    ensures d.Request? ==> !d.via.First? && (d.via.Redirected? <==> follow && response.next.Some?)
    ensures d.Request? && d.via.Redirected? ==> response.next == Some(d.url)
    ensures x.faults == old(x.faults) + if d.Failed? && d.error != TooManyRedirects then [d.error] else []
    ensures d.Request? && d.via.Redirected? ==> redirects < maxRedirects
    ensures d.Request? && d.via.Challenged? ==> flow.left < old(flow.left)
    ensures d == Failed(TooManyRedirects) <==> follow && response.next.Some? && redirects >= maxRedirects
    ensures d.Finished? ==> !(follow && response.next.Some?)
    ensures d.Failed? ==> d.error != LocationRefused && d.error != SendFailed
  {
    if follow && response.next.Some? {
      if redirects >= maxRedirects { return Failed(TooManyRedirects); }
      return Request(response.next.value, Redirected);
    }
    var reply := flow.Answer(x, response);
    match reply
    case Raises(e) => return Failed(e);
    case Stop => return Finished;
    case Again(url) => return Request(url, Challenged);
  }

  /** The decision; a response that is not the streamed result is drained before anything else happens. */
  method Settle(x: Exchange, flow: AuthFlow, response: Response, follow: bool, redirects: int, maxRedirects: int,
                streaming: bool)
      returns (d: Decision)
    requires !response.closed && !response.wasRead
    modifies flow, x`faults, response`wasRead, response`closed
    ensures flow.closed == old(flow.closed)
    ensures flow.left <= old(flow.left) && (d.Request? && d.via.Challenged? ==> flow.left < old(flow.left))
    ensures flow.asked == old(flow.asked) + if follow && response.next.Some? then [] else [response]
    ensures d.Finished? ==> flow.settled == old(flow.settled) + [response]
    ensures d.Request? ==> flow.settled == old(flow.settled)
    ensures !d.Failed? ==> flow.issued == old(flow.issued) + if d.Request? && d.via.Challenged? then [d.url] else []
    ensures old(flow.issued) <= flow.issued
    ensures d.Request? ==> !d.via.First? && (d.via.Redirected? <==> follow && response.next.Some?)
    ensures d.Request? && d.via.Redirected? ==> response.next == Some(d.url) && redirects < maxRedirects
    ensures d.Request? ==> response.closed && response.wasRead
    ensures d.Finished? ==> !(follow && response.next.Some?)
    ensures d.Finished? ==> response.closed == response.wasRead == (!streaming || flow.readsBody)
    ensures x.faults == old(x.faults) + if d.Failed? && d.error != TooManyRedirects then [d.error] else []
    ensures d.Failed? ==> d.error != LocationRefused
    ensures d == Failed(TooManyRedirects) <==> follow && response.next.Some? && redirects >= maxRedirects
  {
    d := Decide(x, flow, response, follow, redirects, maxRedirects);
    if d.Request? || (d.Finished? && !streaming) {
      var failure := Drain(x, response);
      if failure.Some? { d := Failed(failure.value); }
    }
  }

  /**
   One iteration of the loop.  `received` is the answer it got, if any; the iteration ends with the
   next request, with the result, or with the exception that leaves the loop.
   */
  method Round(x: Exchange, flow: AuthFlow, history: seq<Response>, url: Url, via: Via,
               checking: bool, follow: bool, maxRedirects: int, streaming: bool)
      returns (d: Decision, received: Option<Response>)
    requires x.Valid() && x.sent == history && Linked(history, follow) && MaySend(history, url, via, follow)
    modifies x, flow
    ensures x.Valid() && Linked(x.sent, follow) && flow.left <= old(flow.left) && flow.closed == old(flow.closed)
    ensures x.sent == if received.Some? then history + [received.value] else history
    ensures received.Some? ==> fresh(received.value)
    ensures checking && old(x.checked) ==> x.checked
    ensures old(x.redirected) <= x.redirected <= old(x.redirected) + (if via.Redirected? then 1 else 0)
    // what the auth flow asked for, saw and accepted
    ensures x.issued == old(x.issued) + if via.Redirected? || d == Failed(LocationRefused) then [] else [url]
    ensures !d.Failed? ==> flow.issued == old(flow.issued) + if d.Request? && d.via.Challenged? then [d.url] else []
    ensures old(flow.issued) <= flow.issued
    ensures d.Finished? ==> received.Some? && flow.settled == old(flow.settled) + [received.value]
    ensures d.Request? ==> flow.settled == old(flow.settled)
    ensures received.None? ==> flow.asked == old(flow.asked)
    ensures received.Some? ==>
              flow.asked == old(flow.asked) + if follow && received.value.next.Some? then [] else [received.value]
    ensures x.faults == old(x.faults) + if d.Failed? && d.error != TooManyRedirects then [d.error] else []
    // the next request
    ensures !d.Failed? ==> received.Some? && x.redirected == old(x.redirected) + if via.Redirected? then 1 else 0
    ensures d.Request? ==> received.value.closed && received.value.wasRead
    ensures d.Request? ==> MaySend(x.sent, d.url, d.via, follow) && !d.via.First?
    ensures d.Request? && d.via.Redirected? ==> x.redirected < maxRedirects
    ensures d.Request? && d.via.Challenged? ==> flow.left < old(flow.left)
    // the result
    ensures d.Finished? ==> !(follow && received.value.next.Some?) && received.value.history == history
    ensures d.Finished? ==> received.value.closed == received.value.wasRead == (!streaming || flow.readsBody)
    ensures d == Failed(TooManyRedirects) ==> received.Some? && follow && received.value.next.Some?
                                              && x.redirected >= maxRedirects
  {
    var answer := Receive(x, history, url, via, checking, follow);
    if answer.Err? { return Failed(answer.error), None; }
    received := Some(answer.value);
    d := Settle(x, flow, answer.value, follow, x.redirected, maxRedirects, streaming);
  }

  /**
   The loop itself; it ends with the result or with the exception that leaves it.  `history` holds the
   responses of the earlier iterations and `received` the answer to the last one.
   */
  method Follow(x: Exchange, flow: AuthFlow, first: Url, checking: bool, follow: bool, maxRedirects: int,
                streaming: bool)
      returns (d: Decision, history: seq<Response>, received: Option<Response>)
    requires x.Valid() && x.log == [] && x.sent == [] && x.faults == []
    requires flow.issued == [first] && flow.asked == [] && flow.settled == []
    modifies x, flow
    ensures x.Valid() && (checking ==> x.checked)
    ensures x.sent == if received.Some? then history + [received.value] else history
    ensures fresh(x.sent) && Linked(x.sent, follow) && Drained(history)
    ensures !d.Request? && (d.Finished? ==> received.Some?)
    ensures d.Finished? ==> received.value.history == history && !(follow && received.value.next.Some?)
    ensures d.Finished? ==> received.value.closed == received.value.wasRead == (!streaming || flow.readsBody)
    ensures flow.asked == Unlinked(x.sent, follow)
    ensures x.issued <= flow.issued
    ensures d.Finished? ==> x.issued == flow.issued && flow.settled == [received.value]
    ensures x.faults == if d.Failed? && d.error != TooManyRedirects then [d.error] else []
    ensures x.redirected <= if follow then Max(0, maxRedirects) else 0
    ensures d == Failed(TooManyRedirects) ==> follow && received.Some? && received.value.next.Some?
                                              && x.redirected == Max(0, maxRedirects)
  {
    history := [];
    var url, via := first, First;
    while true
      invariant x.Valid() && (checking ==> x.checked) && x.faults == []
      invariant x.sent == history && fresh(history) && Drained(history) && Linked(history, follow)
      invariant MaySend(history, url, via, follow)
      invariant flow.asked == Unlinked(history, follow) && flow.settled == []
      invariant flow.issued == x.issued + if via.Redirected? then [] else [url]
      invariant x.redirected + (if via.Redirected? then 1 else 0) <= if follow then Max(0, maxRedirects) else 0
      decreases maxRedirects - x.redirected - (if via.Redirected? then 1 else 0), flow.left
    {
      d, received := Round(x, flow, history, url, via, checking, follow, maxRedirects, streaming);
      if received.Some? { UnlinkedSnoc(history, received.value, follow); }
      if !d.Request? { return; }
      url, via := d.url, d.via;
      history := history + [received.value];
      assert history == x.sent;
    }
  }

  /** The `except` block: a failure to close replaces the error in flight; an earlier response is closed already. */
  method Abandon(x: Exchange, received: Option<Response>, error: Error) returns (raised: Error)
    modifies x`faults, if received.Some? then {received.value} else {}
    ensures received.Some? ==> received.value.closed && received.value.history == old(received.value.history)
    ensures raised == if x.faults == old(x.faults) then error else CloseFailed
    ensures x.faults == old(x.faults) || x.faults == old(x.faults) + [CloseFailed]
  {
    raised := error;
    if received.Some? {
      var failure := x.CloseBody(received.value);
      if failure.Some? { raised := failure.value; }
    }
  }


  /** The `with` block: the auth flow is started, followed to its end, and closed. */
  method Converse(x: Exchange, flow: AuthFlow, checking: bool, follow: bool, maxRedirects: int, streaming: bool)
      returns (d: Decision, history: seq<Response>, received: Option<Response>)
    requires x.Valid() && x.log == [] && x.sent == [] && x.faults == []
    requires flow.issued == [] && flow.asked == [] && flow.settled == []
    modifies x, flow
    ensures x.Valid() && (checking ==> x.checked)
    ensures x.sent == if received.Some? then history + [received.value] else history
    ensures fresh(x.sent) && Linked(x.sent, follow) && Drained(history)
    ensures !d.Request? && (d.Finished? ==> received.Some?)
    ensures d.Finished? ==> received.value.history == history && !(follow && received.value.next.Some?)
    ensures d.Finished? ==> received.value.closed == received.value.wasRead == (!streaming || flow.readsBody)
    ensures flow.closed && flow.asked == Unlinked(x.sent, follow)
    ensures x.issued <= flow.issued
    ensures d.Finished? ==> x.issued == flow.issued && flow.settled == [received.value]
    ensures x.faults == if d.Failed? && d.error != TooManyRedirects then [d.error] else []
    ensures x.redirected <= if follow then Max(0, maxRedirects) else 0
    ensures d == Failed(TooManyRedirects) ==> follow && received.Some? && received.value.next.Some?
                                              && x.redirected == Max(0, maxRedirects)
  {
    var first := flow.Start(x);
    if first.None? {
      d, history, received := Failed(AuthFailed), [], None;
    } else {
      d, history, received := Follow(x, flow, first.value, checking, follow, maxRedirects, streaming);
    }
    flow.Close();
  }

  method SendWithRedirects(x: Exchange, flow: AuthFlow, checking: bool, follow: bool, maxRedirects: int,
                           streaming: bool)
      returns (r: Result<Response, Error>)
    requires x.Valid() && x.log == [] && x.sent == [] && x.faults == []
    requires flow.issued == [] && flow.asked == [] && flow.settled == []
    modifies x, flow
    ensures fresh(x.sent) && Linked(x.sent, follow)
    // every response is closed, except a streamed one that is returned
    ensures forall q :: q in x.sent ==> q.closed || (streaming && r == Ok(q))
    // the history of the returned response is exactly the earlier responses, in order
    ensures r.Ok? ==> x.sent == r.value.history + [r.value]
    ensures r.Ok? ==> (r.value.closed <==> !streaming || flow.readsBody) && !(follow && r.value.next.Some?)
    // the earlier bodies were read, and so was the returned one unless it is streamed past a flow that lets it be
    ensures r.Ok? ==> Drained(r.value.history) && (r.value.wasRead <==> !streaming || flow.readsBody)
    // the auth flow saw every response that had no redirect to follow, and settled on the returned one alone
    ensures flow.closed && flow.asked == Unlinked(x.sent, follow)
    ensures r.Ok? ==> flow.settled == [r.value]
    // what was not sent to follow a redirect is what the auth flow asked for, in its order
    ensures FlowSends(x.log) <= flow.issued && (r.Ok? ==> FlowSends(x.log) == flow.issued)
    // it fails when a native call failed, with the last failure, or when the redirect limit is reached
    ensures r.Ok? ==> x.faults == []
    ensures r.Err? ==> r.error == if x.faults == [] then TooManyRedirects else x.faults[|x.faults| - 1]
    // the redirect limit, and the error that reports it
    ensures Redirects(x.log) <= if follow then Max(0, maxRedirects) else 0
    ensures r == Err(TooManyRedirects) ==> follow && x.sent != [] && x.sent[|x.sent| - 1].next.Some?
                                           && Redirects(x.log) == Max(0, maxRedirects)
    // the location check passed immediately before each send
    ensures checking ==> CheckedBeforeSent(x.log)
  {
    var d, history, received := Converse(x, flow, checking, follow, maxRedirects, streaming);
    if d.Finished? { return Ok(received.value); }
    var error := Abandon(x, received, d.error);
    return Err(error);
  }
}
