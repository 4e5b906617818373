/**
 Seekable reads of one HTTP object: `_range_headers`, `open_ranged` and its `fetch` closure
 (storage/backends/http/http_read.py) under `RangedReader` (_core/ranged_io.py).

 The server may replace the object between any two requests, may answer anything, and may cut a
 body short or send too much.  What is assumed of it is only what RFC 9110 says of a 206 answer: its
 Content-Range names an interval and the size of the selected representation (section 14.4), a body
 of that length is that interval, If-Match selects the representation with that strong tag (section
 13.1.1), and equal strong tags mean equal bytes (section 8.8.1).
 */
module RangedRead {
  import opened Common

  type Tag = string

  /** The three numbers of `bytes first-last/size`. */
  datatype Interval = Interval(first: int, last: int, size: int)

  datatype Response = Response(
    status: int,
    identity: bool,              // Content-Encoding is absent, empty or identity
    interval: Option<Interval>,  // a well-formed Content-Range with a known size
    etag: Option<Tag>,
    chunks: seq<Bytes>,
    selected: Bytes)             // the object version the server answered from

  /** engine.stream raises for everything that is not 2xx. */
  datatype Reply = Answer(r: Response) | ClientError(status: int, unsatisfiedEmpty: bool) | OtherError

  datatype Error = RangeNotSupported | StorageError | HttpFailure | Closed | BadSeek

  function Concat(chunks: seq<Bytes>): Bytes {
    if chunks == [] then [] else Concat(chunks[..|chunks| - 1]) + chunks[|chunks| - 1]
  }

  /** A strong tag of RFC 9110, section 8.8.1: one that is not marked weak. */
  predicate IsStrong(tag: Tag) { tag != "" && (|tag| < 2 || tag[0] != 'W' || tag[1] != '/') }

  predicate HasStrong(etag: Option<Tag>) { etag.Some? && IsStrong(etag.value) }

  /** `strong_etag`: a tag that If-Match can use. */
  function StrongEtag(value: Option<Tag>): (r: Option<Tag>)
    ensures r == if HasStrong(value) then value else None
  {
    if value.Some? && value.value != "" && !("W/" <= value.value) then value else None
  }

  /** RFC 9110 for the answer to a range request; nothing is said of other answers. */
  predicate Honest(contents: Tag -> Bytes, r: Response, ifMatch: Option<Tag>) {
    r.status == 206 && r.identity && r.interval.Some? ==>
      var i := r.interval.value;
      && i.size == |r.selected| && 0 <= i.first <= i.last < i.size
      && (HasStrong(ifMatch) ==> r.selected == contents(ifMatch.value))
      && (HasStrong(r.etag) ==> r.selected == contents(r.etag.value))
      && (|Concat(r.chunks)| == i.last - i.first + 1 ==> Concat(r.chunks) == r.selected[i.first..i.last + 1])
  }

  /** A GET for the bytes `first` to `last`. */
  datatype Request = Request(first: int, last: int, ifMatch: Option<Tag>)

  datatype Exchange = Exchange(request: Request, reply: Reply)

  class Server {
    const contents: Tag -> Bytes   // what each strong tag stands for, over all versions
    var log: seq<Exchange>

    constructor (contents: Tag -> Bytes)
      ensures this.contents == contents && log == []
    {
      this.contents, log := contents, [];
    }

    method Get(first: int, last: int, ifMatch: Option<Tag>) returns (reply: Reply)
      modifies this`log
      ensures log == old(log) + [Exchange(Request(first, last, ifMatch), reply)]
      ensures reply.Answer? ==> Honest(contents, reply.r, ifMatch)
    {
      reply := *;
      if reply.Answer? && !Honest(contents, reply.r, ifMatch) { reply := OtherError; }
      log := log + [Exchange(Request(first, last, ifMatch), reply)];
    }
  }

  function RangeHeaders(r: Response): Result<Interval, Error> {
    if r.status != 206 || !r.identity || r.interval.None? then Err(RangeNotSupported) else Ok(r.interval.value)
  }

  /** RangedSource: the empty object, or an HTTP object of known size. */
  datatype Source = Empty | Http(size: nat, etag: Option<Tag>)

  function SourceSize(s: Source): nat { if s.Http? then s.size else 0 }

  /** The one version every read must come from, when the object could be pinned by a strong tag. */
  function Pinned(contents: Tag -> Bytes, s: Source): Option<Bytes> {
    match s
    case Empty => Some([])
    case Http(size, etag) =>
      if HasStrong(etag) && |contents(etag.value)| == size then Some(contents(etag.value)) else None
  }

  /** An unencoded part of an object of known size. */
  predicate IsPart(r: Response, first: int, last: int) {
    r.status == 206 && r.identity && r.interval.Some? && r.interval.value.first == first
      && r.interval.value.last == last
  }

  /** The probe was answered with byte 0 of an object of known size, or with the refusal of an empty one. */
  predicate ProbeAccepted(answer: Reply) {
    match answer
    case Answer(r) => IsPart(r, 0, 0) && r.interval.value.size > 0
    case ClientError(status, unsatisfiedEmpty) => status == 416 && unsatisfiedEmpty
    case OtherError => false
  }

  /** The version the probe was about. */
  function Probed(answer: Reply): Bytes { if answer.Answer? then answer.r.selected else [] }

  /** `answer` is what the server said to the probe. */
  method OpenRanged(server: Server) returns (r: Result<Source, Error>, answer: Reply)
    modifies server
    ensures server.log == old(server.log) + [Exchange(Request(0, 0, None), answer)]
    ensures r.Ok? <==> ProbeAccepted(answer)
    ensures r.Ok? ==> r.value.Http? == answer.Answer? && SourceSize(r.value) == |Probed(answer)|
    ensures r.Ok? && r.value.Http? ==> r.value.etag == if HasStrong(answer.r.etag) then answer.r.etag else None
    ensures r.Ok? && (answer.Answer? ==> HasStrong(answer.r.etag)) ==>
              Pinned(server.contents, r.value) == Some(Probed(answer))
  {
    answer := server.Get(0, 0, None);
    if answer.ClientError? {
      r := if answer.status == 416 && answer.unsatisfiedEmpty then Ok(Empty) else Err(HttpFailure);
      return;
    }
    if answer.OtherError? { return Err(HttpFailure), answer; }
    var interval := RangeHeaders(answer.r);
    if interval.Err? { return Err(interval.error), answer; }
    if interval.value.first != 0 || interval.value.last != 0 || interval.value.size <= 0 {
      return Err(RangeNotSupported), answer;
    }
    return Ok(Http(interval.value.size, StrongEtag(answer.r.etag))), answer;
  }

  /** The answer carries exactly the interval that was asked for, of an object of the size known. */
  predicate RangeAccepted(answer: Reply, start: int, end: int, size: nat) {
    && answer.Answer?
    && IsPart(answer.r, start, end - 1) && answer.r.interval.value.size == size
    && |Concat(answer.r.chunks)| == end - start
  }

  lemma {:induction false} PrefixIsNotLonger(chunks: seq<Bytes>, n: nat)
    requires n <= |chunks|
    ensures |Concat(chunks[..n])| <= |Concat(chunks)|
    decreases |chunks|
  {
    if n == |chunks| {
      assert chunks[..n] == chunks;
    } else {
      assert chunks[..|chunks| - 1][..n] == chunks[..n];
      PrefixIsNotLonger(chunks[..|chunks| - 1], n);
    }
  }

  /** The closure `fetch`; `answer` is what the server said. */
  method Fetch(server: Server, s: Source, start: nat, end: nat) returns (r: Result<Bytes, Error>, answer: Reply)
    requires s.Http? && start < end
    modifies server
    ensures server.log == old(server.log) + [Exchange(Request(start, end - 1, s.etag), answer)]
    ensures r.Ok? <==> RangeAccepted(answer, start, end, s.size)
    ensures r.Ok? ==> end <= s.size == |answer.r.selected| && r.value == answer.r.selected[start..end]
    ensures r.Ok? && HasStrong(s.etag) ==> answer.r.selected == server.contents(s.etag.value)
  {
    answer := server.Get(start, end - 1, s.etag);
    if !answer.Answer? { return Err(HttpFailure), answer; }
    var interval := RangeHeaders(answer.r);
    if interval.Err? { return Err(interval.error), answer; }
    if interval.value != Interval(start, end - 1, s.size) { return Err(StorageError), answer; }
    var chunks := answer.r.chunks;
    var data: Bytes := [];
    var i := 0;
    while i < |chunks|
      invariant 0 <= i <= |chunks| && data == Concat(chunks[..i])
      invariant server.log == old(server.log) + [Exchange(Request(start, end - 1, s.etag), answer)]
    {
      PrefixIsNotLonger(chunks, i + 1);
      assert chunks[..i + 1][..i] == chunks[..i];
      if |data| + |chunks[i]| > end - start { return Err(StorageError), answer; }
      data := data + chunks[i];
      i := i + 1;
    }
    assert chunks[..i] == chunks && data == Concat(answer.r.chunks);
    if |data| != end - start { return Err(StorageError), answer; }
    return Ok(data), answer;
  }

  // ---------------------------------------------------------------- an in-memory file

  datatype Whence = Set | Current | End | Invalid

  function PlainRead(v: Bytes, pos: nat, size: int): Bytes {
    var end := if size < 0 then |v| else Min(pos + size, |v|);
    if pos >= end then [] else v[pos..end]
  }

  function PlainSeek(length: nat, pos: nat, offset: int, whence: Whence): Option<nat> {
    var target := match whence
                  case Set => offset
                  case Current => pos + offset
                  case End => length + offset
                  case Invalid => -1;
    if target < 0 then None else Some(target)
  }

  // ---------------------------------------------------------------- RangedReader

  /** The cache with `data` stored from offset `at` on. */
  function Put(cache: map<nat, bv8>, at: nat, data: Bytes): (r: map<nat, bv8>)
    ensures forall i :: i in r <==> i in cache || at <= i < at + |data|
    ensures forall i :: i in r ==> r[i] == if at <= i < at + |data| then data[i - at] else cache[i]
    decreases |data|
  {
    if data == [] then cache else Put(cache[at := data[0]], at + 1, data[1..])
  }

  /** The reply was what the request asked for. */
  predicate Served(size: nat, e: Exchange) {
    RangeAccepted(e.reply, e.request.first, e.request.last + 1, size)
  }

  /** All requests from number `from` on were answered like that. */
  ghost predicate AllServed(size: nat, log: seq<Exchange>, from: nat) {
    forall k :: from <= k < |log| ==> Served(size, log[k])
  }

  /** A request for bytes the object has, conditional on its tag. */
  predicate IsPartRequest(source: Source, q: Request) {
    source.Http? && 0 <= q.first <= q.last < source.size && q.ifMatch == source.etag
  }

  class RangedReader {
    const server: Server
    const source: Source
    const closeCallback: bool      // the source came with an on_close
    var pos: nat
    var closed: bool
    var cache: map<nat, bv8>       // what the range cache retained
    var callbacks: nat             // how often on_close was called

    /** The cache holds bytes of the pinned version only. */
    ghost predicate Valid()
      reads this
    {
      && callbacks == (if closed && closeCallback then 1 else 0)
      && var v := Pinned(server.contents, source);
         v.Some? ==> forall i :: i in cache ==> i < |v.value| && cache[i] == v.value[i]
    }

    /** The new requests are for bytes of the object, under its tag. */
    ghost predicate Asks(before: seq<Exchange>, after: seq<Exchange>) {
      && before <= after
      && forall k :: |before| <= k < |after| ==> IsPartRequest(source, after[k].request)
    }

    constructor (server: Server, source: Source, closeCallback: bool)
      ensures Valid() && pos == 0 && !closed
      ensures this.server == server && this.source == source && this.closeCallback == closeCallback
    {
      this.server, this.source, this.closeCallback := server, source, closeCallback;
      pos, closed, cache, callbacks := 0, false, map[], 0;
    }

    /** `_fetch`, which the cache calls for any interval it likes, also past the end of the object. */
    method FetchRange(start: nat, end: nat) returns (r: Result<Bytes, Error>, ghost answer: Option<Reply>)
      modifies server
      ensures var stop := Min(end, SourceSize(source));
              if start >= stop then answer.None? && server.log == old(server.log)
              else answer.Some?
                   && server.log == old(server.log) + [Exchange(Request(start, stop - 1, source.etag), answer.value)]
      ensures r.Ok? <==> answer.None? || RangeAccepted(answer.value, start, Min(end, SourceSize(source)), source.size)
      ensures r.Ok? ==> |r.value| == Max(0, Min(end, SourceSize(source)) - start)
      ensures start >= Min(end, SourceSize(source)) ==> r == Ok([])
      ensures var v := Pinned(server.contents, source);
              r.Ok? && v.Some? ==> forall i :: 0 <= i < |r.value| ==>
                                       start + i < |v.value| && r.value[i] == v.value[start + i]
    {
      var stop := Min(end, SourceSize(source));
      if start >= stop { return Ok([]), None; }
      var reply;
      r, reply := Fetch(server, source, start, stop);
      answer := Some(reply);
    }

    /** One byte from the range cache, which fetches it if need be, reads ahead and forgets as it likes. */
    method CacheByte(i: nat) returns (r: Result<bv8, Error>)
      requires Valid() && i < SourceSize(source)
      modifies this`cache, server
      ensures Valid() && Asks(old(server.log), server.log)
      ensures i in old(cache) ==> server.log == old(server.log)
      ensures r.Ok? <==> AllServed(SourceSize(source), server.log, old(|server.log|))
      ensures var v := Pinned(server.contents, source); r.Ok? && v.Some? ==> r.value == v.value[i]
    {
      if i !in cache {
        var ahead: int := *;
        var fetched, answer := FetchRange(i, i + Max(1, ahead));
        assert |server.log| > old(|server.log|) && Served(source.size, server.log[old(|server.log|)]) == fetched.Ok?;
        if fetched.Err? { return Err(fetched.error); }
        cache := Put(cache, i, fetched.value);
      }
      r := Ok(cache[i]);
      var forget: set<nat> := *;
      cache := map k | k in cache && k !in forget :: cache[k];
    }

    /** The range cache's answer for an interval inside the object. */
    method CacheFetch(a: nat, b: nat) returns (r: Result<Bytes, Error>)
      requires Valid() && a < b <= SourceSize(source)
      modifies this`cache, server
      ensures Valid() && Asks(old(server.log), server.log)
      ensures r.Ok? <==> AllServed(SourceSize(source), server.log, old(|server.log|))
      ensures r.Ok? ==> |r.value| == b - a
      ensures var v := Pinned(server.contents, source); r.Ok? && v.Some? ==> r.value == v.value[a..b]
    {
      ghost var v := Pinned(server.contents, source);
      var data: Bytes := [];
      var i := a;
      while i < b
        invariant a <= i <= b && |data| == i - a && Valid()
        invariant Asks(old(server.log), server.log) && AllServed(SourceSize(source), server.log, old(|server.log|))
        invariant v.Some? ==> data == v.value[a..i]
      {
        ghost var before := server.log;
        var next := CacheByte(i);
        assert next.Ok? ==> forall k :: old(|server.log|) <= k < |before| ==> server.log[k] == before[k];
        if next.Err? { return Err(next.error); }
        data := data + [next.value];
        i := i + 1;
      }
      return Ok(data);
    }

    method Read(size: int) returns (r: Result<Bytes, Error>)
      requires Valid()
      modifies this`pos, this`cache, server
      ensures Valid() && Asks(old(server.log), server.log)
      ensures closed ==> r == Err(Closed) && server.log == old(server.log)
      ensures r.Err? <==> closed || !AllServed(SourceSize(source), server.log, old(|server.log|))
      ensures r.Err? ==> pos == old(pos)
      ensures r.Ok? ==> pos == old(pos) + |r.value|
      ensures var v := Pinned(server.contents, source); r.Ok? && v.Some? ==>
                r.value == PlainRead(v.value, old(pos), size)
    {
      if closed { return Err(Closed); }
      var end := if size < 0 then SourceSize(source) else Min(pos + size, SourceSize(source));
      if pos >= end { return Ok([]); }
      r := CacheFetch(pos, end);
      if r.Ok? { pos := pos + |r.value|; }
    }

    method Seek(offset: int, whence: Whence) returns (r: Result<nat, Error>)
      requires Valid()
      modifies this`pos
      ensures Valid()
      ensures closed ==> r == Err(Closed)
      ensures !closed ==> var target := PlainSeek(SourceSize(source), old(pos), offset, whence);
                          r == if target.Some? then Ok(target.value) else Err(BadSeek)
      ensures pos == if r.Ok? then r.value else old(pos)
    {
      if closed { return Err(Closed); }
      var target: int;
      match whence {
        case Set => target := offset;
        case Current => target := pos + offset;
        case End => target := SourceSize(source) + offset;
        case Invalid => return Err(BadSeek);
      }
      if target < 0 { return Err(BadSeek); }
      pos := target;
      return Ok(target);
    }

    /** on_close may raise; the handle is closed all the same, and on_close is never called again. */
    method Close() returns (ok: bool)
      requires Valid()
      modifies this
      ensures Valid() && closed && pos == old(pos)
    {
      ok := true;
      if !closed {
        if closeCallback {
          callbacks := callbacks + 1;
          ok := *;
        }
        cache := map[];
        closed := true;
      }
    }
  }

  // ---------------------------------------------------------------- runs

  datatype Operation = ReadOp(size: int) | SeekOp(offset: int, whence: Whence)

  datatype Outcome = Data(bytes: Bytes) | At(pos: nat) | Failed

  /** One operation on an in-memory file; a failed read is an error and moves nothing. */
  predicate Follows(v: Bytes, pos: nat, op: Operation, o: Outcome, next: nat) {
    match op
    case ReadOp(size) =>
      || (o.Failed? && next == pos)
      || (o == Data(PlainRead(v, pos, size)) && next == pos + |PlainRead(v, pos, size)|)
    case SeekOp(offset, whence) =>
      var target := PlainSeek(|v|, pos, offset, whence);
      if target.Some? then o == At(target.value) && next == target.value else o.Failed? && next == pos
  }

  /** Where an in-memory file stands after an operation with this outcome. */
  function After(pos: nat, o: Outcome): nat {
    match o
    case Data(bytes) => pos + |bytes|
    case At(p) => p
    case Failed => pos
  }

  /** The outcomes of a run on an in-memory file. */
  ghost predicate Conforms(v: Bytes, pos: nat, ops: seq<Operation>, outcomes: seq<Outcome>)
    decreases |ops|
  {
    |ops| == |outcomes| &&
    (ops != [] ==>
      && Follows(v, pos, ops[0], outcomes[0], After(pos, outcomes[0]))
      && Conforms(v, After(pos, outcomes[0]), ops[1..], outcomes[1..]))
  }

  lemma ServedInTwo(size: nat, between: seq<Exchange>, after: seq<Exchange>, from: nat)
    requires from <= |between| && between <= after
    ensures AllServed(size, after, from) <==> AllServed(size, between, from) && AllServed(size, after, |between|)
  {
    assert forall k :: 0 <= k < |between| ==> after[k] == between[k];
  }

  method Perform(reader: RangedReader, op: Operation) returns (o: Outcome)
    requires reader.Valid() && !reader.closed
    modifies reader, reader.server
    ensures reader.Valid() && !reader.closed && reader.Asks(old(reader.server.log), reader.server.log)
    ensures reader.server.log == old(reader.server.log) || op.ReadOp?
    ensures op.ReadOp? ==> (o.Failed? <==>
                              !AllServed(SourceSize(reader.source), reader.server.log, old(|reader.server.log|)))
    ensures var v := Pinned(reader.server.contents, reader.source);
            v.Some? ==> Follows(v.value, old(reader.pos), op, o, reader.pos)
  {
    match op {
      case ReadOp(size) =>
        var r := reader.Read(size);
        o := if r.Ok? then Data(r.value) else Failed;
      case SeekOp(offset, whence) =>
        var r := reader.Seek(offset, whence);
        o := if r.Ok? then At(r.value) else Failed;
    }
  }

  ghost predicate ReadsSucceed(ops: seq<Operation>, outcomes: seq<Outcome>) {
    forall i :: 0 <= i < |ops| && i < |outcomes| && ops[i].ReadOp? ==> !outcomes[i].Failed?
  }

  lemma SucceedCons(ops: seq<Operation>, o: Outcome, outcomes: seq<Outcome>)
    requires ops != [] && |outcomes| == |ops| - 1
    ensures ReadsSucceed(ops, [o] + outcomes) <==> !(ops[0].ReadOp? && o.Failed?) && ReadsSucceed(ops[1..], outcomes)
  {
    var all := [o] + outcomes;
    assert forall i :: 0 <= i < |outcomes| ==> ops[1..][i] == ops[i + 1] && outcomes[i] == all[i + 1];
    if ReadsSucceed(ops[1..], outcomes) && !(ops[0].ReadOp? && o.Failed?) {
      forall i | 0 <= i < |ops| && ops[i].ReadOp? ensures !all[i].Failed? {
        if i > 0 { assert ops[1..][i - 1].ReadOp?; }
      }
    }
  }

  /**
   Every run of seeks and reads over a pinned object is a run over the one probed version, whatever
   the server did to the object in between.  A read fails only when the server did not send what it was asked for.
   */
  method PerformAll(reader: RangedReader, ops: seq<Operation>) returns (outcomes: seq<Outcome>)
    requires reader.Valid() && !reader.closed
    modifies reader, reader.server
    ensures reader.Valid() && !reader.closed && reader.Asks(old(reader.server.log), reader.server.log)
    ensures |outcomes| == |ops|
    ensures ReadsSucceed(ops, outcomes) <==>
              AllServed(SourceSize(reader.source), reader.server.log, old(|reader.server.log|))
    ensures var v := Pinned(reader.server.contents, reader.source);
            v.Some? ==> Conforms(v.value, old(reader.pos), ops, outcomes)
    decreases |ops|
  {
    if ops == [] { return []; }
    var first := Perform(reader, ops[0]);
    ghost var between := reader.server.log;
    var rest := PerformAll(reader, ops[1..]);
    SucceedCons(ops, first, rest);
    ServedInTwo(SourceSize(reader.source), between, reader.server.log, old(|reader.server.log|));
    return [first] + rest;
  }

  /**
   Opening an object and reading from it. With a strong tag everything is read from the version that was
   probed; an object that was empty when probed stays empty.
   */
  method OpenAndPerform(server: Server, closeCallback: bool, ops: seq<Operation>)
      returns (outcomes: Result<seq<Outcome>, Error>, answer: Reply)
    requires server.log == []
    modifies server
    ensures outcomes.Ok? <==> ProbeAccepted(answer)
    ensures server.log != [] && server.log[0] == Exchange(Request(0, 0, None), answer)
    // after the probe every request is conditional on the tag that was probed
    ensures outcomes.Ok? && answer.Answer? && HasStrong(answer.r.etag) ==>
              forall k :: 0 < k < |server.log| ==> server.log[k].request.ifMatch == answer.r.etag
    // no read fails unless the server failed to send what it was asked for
    ensures outcomes.Ok? ==>
              (ReadsSucceed(ops, outcomes.value) <==> AllServed(|Probed(answer)|, server.log, 1))
    ensures outcomes.Ok? && (answer.Answer? ==> HasStrong(answer.r.etag)) ==>
              Conforms(Probed(answer), 0, ops, outcomes.value)
  {
    var source;
    source, answer := OpenRanged(server);
    if source.Err? { return Err(source.error), answer; }
    var reader := new RangedReader(server, source.value, closeCallback);
    var performed := PerformAll(reader, ops);
    return Ok(performed), answer;
  }

  // ---------------------------------------------------------------- what a run of reads delivers

  predicate OnlyReads(ops: seq<Operation>) { forall i :: 0 <= i < |ops| ==> ops[i].ReadOp? }

  function Delivered(outcomes: seq<Outcome>): Bytes {
    if outcomes == [] then []
    else (if outcomes[0].Data? then outcomes[0].bytes else []) + Delivered(outcomes[1..])
  }

  /** How many bytes the reads ask for in all; a negative size asks for everything. */
  function Asked(ops: seq<Operation>, everything: nat): nat {
    if ops == [] then 0
    else (if ops[0].ReadOp? && ops[0].size >= 0 then ops[0].size else everything) + Asked(ops[1..], everything)
  }

  lemma PlainReadIsAPiece(v: Bytes, pos: nat, size: int)
    requires pos <= |v|
    ensures var end := if size < 0 then |v| else Min(pos + size, |v|); PlainRead(v, pos, size) == v[pos..end]
  {
    if size == 0 || pos == |v| { assert v[pos..pos] == []; }
  }

  lemma {:induction false} NothingPastTheEnd(v: Bytes, pos: nat, ops: seq<Operation>, outcomes: seq<Outcome>)
    requires pos >= |v| && OnlyReads(ops) && Conforms(v, pos, ops, outcomes)
    ensures Delivered(outcomes) == []
    decreases |ops|
  {
    if ops != [] {
      assert ops[0].ReadOp?;
      NothingPastTheEnd(v, pos, ops[1..], outcomes[1..]);
    }
  }

  /** The first read of a run delivers the next piece, and the rest of the run goes on behind it. */
  lemma FirstPiece(v: Bytes, pos: nat, ops: seq<Operation>, outcomes: seq<Outcome>)
    requires pos <= |v| && ops != [] && ops[0].ReadOp? && Conforms(v, pos, ops, outcomes) && !outcomes[0].Failed?
    ensures var next := if ops[0].size < 0 then |v| else Min(pos + ops[0].size, |v|);
            outcomes[0] == Data(v[pos..next]) && Conforms(v, next, ops[1..], outcomes[1..])
  {
    PlainReadIsAPiece(v, pos, ops[0].size);
  }

  predicate IsPiece(v: Bytes, pos: nat, data: Bytes) { pos + |data| <= |v| && data == v[pos..pos + |data|] }

  /** A piece and the piece behind it are one piece. */
  lemma JoinPieces(v: Bytes, pos: nat, next: nat, head: Bytes, tail: Bytes)
    requires pos <= next <= |v| && head == v[pos..next] && IsPiece(v, next, tail)
    ensures IsPiece(v, pos, head + tail)
  {
    PiecesMeet(v, pos, next, next + |tail|);
  }

  /**
   Whatever the reader delivers over a run of reads, in pieces of any sizes and with failures in
   between, is one contiguous piece of the pinned version.
   */
  lemma {:induction false} ReadsDeliverAPiece(v: Bytes, pos: nat, ops: seq<Operation>, outcomes: seq<Outcome>)
    requires pos <= |v| && OnlyReads(ops) && Conforms(v, pos, ops, outcomes)
    ensures IsPiece(v, pos, Delivered(outcomes))
    decreases |ops|
  {
    if ops == [] {
      assert v[pos..pos] == [];
    } else if outcomes[0].Failed? {
      ReadsDeliverAPiece(v, pos, ops[1..], outcomes[1..]);
    } else {
      assert ops[0].ReadOp?;
      var next := if ops[0].size < 0 then |v| else Min(pos + ops[0].size, |v|);
      FirstPiece(v, pos, ops, outcomes);
      ReadsDeliverAPiece(v, next, ops[1..], outcomes[1..]);
      JoinPieces(v, pos, next, outcomes[0].bytes, Delivered(outcomes[1..]));
    }
  }

  ghost predicate NoneFailed(outcomes: seq<Outcome>) { forall i :: 0 <= i < |outcomes| ==> !outcomes[i].Failed? }

  /** When no read fails that piece is as long as was asked for, up to the end of the object. */
  lemma {:induction false} ReadsDeliverWhatIsAsked(v: Bytes, pos: nat, ops: seq<Operation>, outcomes: seq<Outcome>)
    requires pos <= |v| && OnlyReads(ops) && Conforms(v, pos, ops, outcomes) && NoneFailed(outcomes)
    ensures |Delivered(outcomes)| == Min(pos + Asked(ops, |v|), |v|) - pos
    decreases |ops|
  {
    if ops != [] {
      assert ops[0].ReadOp? && !outcomes[0].Failed?;
      var next := if ops[0].size < 0 then |v| else Min(pos + ops[0].size, |v|);
      FirstPiece(v, pos, ops, outcomes);
      assert forall i :: 0 <= i < |outcomes[1..]| ==> outcomes[1..][i] == outcomes[i + 1];
      ReadsDeliverWhatIsAsked(v, next, ops[1..], outcomes[1..]);
      assert |Delivered(outcomes)| == next - pos + |Delivered(outcomes[1..])|;
    }
  }

  // ---------------------------------------------------------------- where a seek leads

  /** Reading on to the end from a place inside the object. */
  lemma {:induction false} ReadsOn(v: Bytes, pos: nat, op: Operation, at: nat, outcomes: seq<Outcome>)
    requires Conforms(v, pos, [op, ReadOp(-1)], outcomes) && !outcomes[1].Failed? && After(pos, outcomes[0]) == at
    ensures outcomes[1] == Data(v[Min(at, |v|)..])
  {
    assert [op, ReadOp(-1)][1..] == [ReadOp(-1)];
    assert outcomes[1..][0] == outcomes[1];
    if at >= |v| { assert v[|v|..] == []; }
  }

  /** seek(n) and reading on gives the object from byte n on; past the end that is nothing. */
  lemma {:induction false} SeekFromStart(v: Bytes, pos: nat, n: nat, outcomes: seq<Outcome>)
    requires Conforms(v, pos, [SeekOp(n, Set), ReadOp(-1)], outcomes) && !outcomes[1].Failed?
    ensures outcomes[0] == At(n) && outcomes[1] == Data(v[Min(n, |v|)..])
  {
    ReadsOn(v, pos, SeekOp(n, Set), n, outcomes);
  }

  /** seek(-n, SEEK_END) and reading on gives the last n bytes. */
  lemma SeekFromEnd(v: Bytes, pos: nat, n: nat, outcomes: seq<Outcome>)
    requires n <= |v| && Conforms(v, pos, [SeekOp(0 - n, End), ReadOp(-1)], outcomes) && !outcomes[1].Failed?
    ensures outcomes[0] == At(|v| - n) && outcomes[1] == Data(v[|v| - n..])
  {
    ReadsOn(v, pos, SeekOp(0 - n, End), |v| - n, outcomes);
  }

  /** Skipping n bytes and reading on gives what a read of n bytes would have left. */
  lemma {:induction false} SeekFromHere(v: Bytes, pos: nat, n: nat, outcomes: seq<Outcome>, skipped: seq<Outcome>)
    requires pos + n <= |v|
    requires Conforms(v, pos, [SeekOp(n, Current), ReadOp(-1)], outcomes) && !outcomes[1].Failed?
    requires Conforms(v, pos, [ReadOp(n), ReadOp(-1)], skipped) && NoneFailed(skipped)
    ensures outcomes[0] == At(pos + n) && outcomes[1] == skipped[1] == Data(v[pos + n..])
  {
    PlainReadIsAPiece(v, pos, n);
    assert !skipped[0].Failed?;
    ReadsOn(v, pos, SeekOp(n, Current), pos + n, outcomes);
    ReadsOn(v, pos, ReadOp(n), pos + n, skipped);
  }

  /** Seeking back over the bytes just read gives them again. */
  lemma {:induction false} SeekBack(v: Bytes, pos: nat, n: nat, outcomes: seq<Outcome>)
    requires pos + n <= |v| && NoneFailed(outcomes)
    requires Conforms(v, pos, [ReadOp(n), SeekOp(0 - n, Current), ReadOp(n)], outcomes)
    ensures |outcomes| == 3 && outcomes[0] == outcomes[2] == Data(v[pos..pos + n]) && outcomes[1] == At(pos)
  {
    var ops := [ReadOp(n), SeekOp(0 - n, Current), ReadOp(n)];
    FirstPiece(v, pos, ops, outcomes);
    assert ops[1..] == [SeekOp(0 - n, Current), ReadOp(n)];
    var rest := outcomes[1..];
    assert Conforms(v, pos + n, ops[1..], rest) && rest[0] == outcomes[1];
    assert ops[1..][1..] == [ReadOp(n)] && rest[1..][0] == outcomes[2];
    FirstPiece(v, pos, [ReadOp(n)], rest[1..]);
  }

  /** A seek before the start, or by an unknown rule, is refused, and the next read goes on as if it had not been. */
  lemma {:induction false} RefusedSeek(v: Bytes, pos: nat, offset: int, whence: Whence, outcomes: seq<Outcome>)
    requires pos <= |v| && Conforms(v, pos, [SeekOp(offset, whence), ReadOp(-1)], outcomes) && !outcomes[1].Failed?
    requires || whence.Invalid? || (whence.Set? && offset < 0) || (whence.Current? && pos + offset < 0)
             || (whence.End? && |v| + offset < 0)
    ensures outcomes[0].Failed? && outcomes[1] == Data(v[pos..])
  {
    ReadsOn(v, pos, SeekOp(offset, whence), pos, outcomes);
  }
}
