/**
 `_BoundedGzipFile` of _core/transforms/compression.py: a gzip decoder that refuses to go past a limit.

 The decoder underneath is native.  It delivers the payload of the stored bytes, in the pieces its
 methods allow, and may find the stream corrupt at any time.
 */
module BoundedDecoder {
  import opened Common

  const NEWLINE: bv8 := 10
  const CHUNK: nat := 64 * 1024

  datatype Whence = Set | Current | End

  datatype Error = Corrupt | LimitExceeded

  /** Where a line that starts at `pos` ends: after its newline, or at the end of the payload. */
  function LineEnd(v: Bytes, pos: nat): (e: nat)
    requires pos <= |v|
    ensures pos <= e <= |v|
    ensures forall k :: pos <= k < e - 1 ==> v[k] != NEWLINE
    ensures e == |v| || (pos < e && v[e - 1] == NEWLINE)
    decreases |v| - pos
  {
    if pos == |v| then pos else if v[pos] == NEWLINE then pos + 1 else LineEnd(v, pos + 1)
  }

  /** Where a plain read, or readline, of `size` bytes from `pos` ends. */
  function ReadEnd(v: Bytes, pos: nat, size: int): (e: nat)
    requires pos <= |v|
    ensures pos <= e <= |v|
  {
    if size < 0 then |v| else Min(pos + size, |v|)
  }

  function ReadlineEnd(v: Bytes, pos: nat, size: int): (e: nat)
    requires pos <= |v|
    ensures pos <= e <= |v|
  {
    if size < 0 then LineEnd(v, pos) else Min(pos + size, LineEnd(v, pos))
  }

  /** A decoder seeks by rewinding and skipping, so it stops at either end of the payload. */
  function SeekEnd(v: Bytes, pos: nat, offset: int, whence: Whence): (e: nat)
    ensures e <= |v|
  {
    var target := match whence
                  case Set => offset
                  case Current => pos + offset
                  case End => |v| + offset;
    Max(0, Min(target, |v|))
  }

  /**
   gzip.GzipFile in read mode over the stored bytes. `decode` says what they hold: the payload of all
   their members, or nothing when they are no gzip stream. It delivers that payload; it may raise at any
   time, and on bytes that are no gzip stream it does so before it reports their end.
   */
  class GzipFile {
    const payload: Bytes
    const sound: bool
    var pos: nat
    var faults: nat   // how often a call raised

    ghost predicate Valid()
      reads this
    {
      pos <= |payload|
    }

    constructor (stored: Bytes, decode: Bytes -> Option<Bytes>)
      ensures Valid() && pos == 0 && faults == 0
      ensures decode(stored) == if sound then Some(payload) else None
    {
      var text := decode(stored);
      var garbled: Bytes := *;
      sound := text.Some?;
      payload := if text.Some? then text.value else garbled;
      pos, faults := 0, 0;
    }

    method AdvanceTo(end: nat, asks: bool) returns (r: Result<Bytes, Error>)
      requires Valid() && pos <= end <= |payload|
      modifies this
      ensures Valid()
      ensures r.Ok? ==> pos == end && r.value == payload[old(pos)..end]
      ensures r.Ok? && asks && old(pos) == |payload| ==> sound
      ensures if r.Err? then r.error.Corrupt? && faults > old(faults) else faults == old(faults)
    {
      var corrupt: bool := *;
      if corrupt || (!sound && asks && pos == |payload|) {
        faults := faults + 1;
        return Err(Corrupt);
      }
      r := Ok(payload[pos..end]);
      pos := end;
    }

    method Read(size: int) returns (r: Result<Bytes, Error>)
      requires Valid()
      modifies this
      ensures Valid()
      ensures r.Ok? ==> pos == ReadEnd(payload, old(pos), size) && r.value == payload[old(pos)..pos]
      ensures r.Ok? && size != 0 && old(pos) == |payload| ==> sound
      ensures if r.Err? then r.error.Corrupt? && faults > old(faults) else faults == old(faults)
    {
      r := AdvanceTo(ReadEnd(payload, pos, size), size != 0);
    }

    /** At least one byte unless the payload is used up or none is asked for. */
    method Read1(size: nat) returns (r: Result<Bytes, Error>)
      requires Valid()
      modifies this
      ensures Valid()
      ensures r.Ok? ==> old(pos) <= pos <= ReadEnd(payload, old(pos), size) && r.value == payload[old(pos)..pos]
      ensures r.Ok? && old(pos) < |payload| && size > 0 ==> pos > old(pos)
      ensures if r.Err? then r.error.Corrupt? && faults > old(faults) else faults == old(faults)
    {
      var wanted: int := *;
      var most := ReadEnd(payload, pos, size);
      r := AdvanceTo(Max(Min(pos + 1, most), Min(wanted, most)), size != 0);
    }

    method Readline(size: int) returns (r: Result<Bytes, Error>)
      requires Valid()
      modifies this
      ensures Valid()
      ensures r.Ok? ==> pos == ReadlineEnd(payload, old(pos), size) && r.value == payload[old(pos)..pos]
      ensures if r.Err? then r.error.Corrupt? && faults > old(faults) else faults == old(faults)
    {
      r := AdvanceTo(ReadlineEnd(payload, pos, size), size != 0);
    }

    method Seek(offset: int, whence: Whence) returns (r: Result<nat, Error>)
      requires Valid()
      modifies this
      ensures Valid()
      ensures r.Ok? ==> r.value == pos == SeekEnd(payload, old(pos), offset, whence)
      ensures if r.Err? then r.error.Corrupt? && faults > old(faults) else faults == old(faults)
    {
      var corrupt: bool := *;
      if corrupt {
        faults := faults + 1;
        return Err(Corrupt);
      }
      pos := SeekEnd(payload, pos, offset, whence);
      return Ok(pos);
    }
  }

  class BoundedGzipFile {
    const base: GzipFile
    const limit: nat

    /** The state until the first error: at most `limit` bytes were decoded. */
    ghost predicate Usable()
      reads base
    {
      base.Valid() && base.pos <= limit
    }

    constructor (base: GzipFile, limit: nat)
      requires base.Valid() && base.pos == 0
      ensures Usable() && this.base == base && this.limit == limit
    {
      this.base, this.limit := base, limit;
    }

    function Cap(size: int): (n: int)
      reads base
      ensures base.pos <= limit ==> 0 <= n <= limit - base.pos + 1
    {
      var room := limit - base.pos + 1;
      if size < 0 then room else Min(size, room)
    }

    /** What a call that moved from `from` to where an unbounded decoder would be at `plain` must do. */
    ghost predicate Bounded(from: nat, plain: nat, r: Result<Bytes, Error>)
      reads base
    {
      match r
      case Ok(data) => base.pos == plain <= limit && from <= plain <= |base.payload|
        && data == base.payload[from..plain]
      case Err(LimitExceeded) => base.pos == limit + 1 <= plain
      case Err(Corrupt) => true
    }

    /** `_check` after a successful base call. */
    method Check(data: Bytes) returns (r: Result<Bytes, Error>)
      ensures r == if base.pos > limit then Err(LimitExceeded) else Ok(data)
    {
      return if base.pos > limit then Err(LimitExceeded) else Ok(data);
    }

    /** read(size); a negative size (or None) reads to the end, chunk by chunk. */
    method Read(size: int) returns (r: Result<Bytes, Error>)
      requires Usable()
      modifies base
      ensures base.Valid() && (r.Ok? ==> Usable())
      ensures Bounded(old(base.pos), ReadEnd(base.payload, old(base.pos), size), r)
      ensures r.Ok? && size < 0 ==> base.sound
      ensures if r == Err(Corrupt) then base.faults > old(base.faults) else base.faults == old(base.faults)
    {
      if size >= 0 {
        var data := base.Read(Cap(size));
        if data.Err? { return data; }
        r := Check(data.value);
        return;
      }
      var out: Bytes := [];
      while true
        invariant base.faults == old(base.faults)
        invariant Usable() && old(base.pos) <= base.pos && out == base.payload[old(base.pos)..base.pos]
        decreases |base.payload| - base.pos
      {
        var chunk := base.Read(Min(CHUNK, Cap(-1)));
        if chunk.Err? { return chunk; }
        if chunk.value == [] { return Ok(out); }
        out := out + chunk.value;
        var checked := Check(out);
        if checked.Err? { return checked; }
      }
    }

    method Read1(size: int) returns (r: Result<Bytes, Error>)
      requires Usable()
      modifies base
      ensures base.Valid() && (r.Ok? ==> Usable())
      ensures r.Ok? ==> old(base.pos) <= base.pos && r.value == base.payload[old(base.pos)..base.pos]
      ensures r.Ok? && size >= 0 ==> |r.value| <= size
      ensures r.Ok? && r.value == [] ==> old(base.pos) == |base.payload| || size == 0
      ensures r == Err(LimitExceeded) ==> base.pos == limit + 1 <= ReadEnd(base.payload, old(base.pos), size)
      ensures if r == Err(Corrupt) then base.faults > old(base.faults) else base.faults == old(base.faults)
    {
      var data := base.Read1(Cap(size));
      if data.Err? { return data; }
      r := Check(data.value);
    }

    method Readline(size: int) returns (r: Result<Bytes, Error>)
      requires Usable()
      modifies base
      ensures base.Valid() && (r.Ok? ==> Usable())
      ensures Bounded(old(base.pos), ReadlineEnd(base.payload, old(base.pos), size), r)
      ensures if r == Err(Corrupt) then base.faults > old(base.faults) else base.faults == old(base.faults)
    {
      var data := base.Readline(Cap(size));
      if data.Err? { return data; }
      r := Check(data.value);
    }

    method Seek(offset: int, whence: Whence) returns (r: Result<nat, Error>)
      requires Usable()
      modifies base
      ensures base.Valid() && (r.Ok? ==> Usable())
      ensures r.Ok? ==> r.value == base.pos == SeekEnd(base.payload, old(base.pos), offset, whence)
      ensures r == Err(LimitExceeded) ==> SeekEnd(base.payload, old(base.pos), offset, whence) > limit
      ensures if r == Err(Corrupt) then base.faults > old(base.faults) else base.faults == old(base.faults)
    {
      r := base.Seek(offset, whence);
      if r.Ok? && base.pos > limit { r := Err(LimitExceeded); }
    }
  }

  // ---------------------------------------------------------------- runs

  datatype Operation =
    | ReadOp(size: int)
    | Read1Op(size: int)
    | ReadlineOp(size: int)
    | SeekOp(offset: int, whence: Whence)

  datatype Outcome = Data(bytes: Bytes) | At(pos: nat) | Failed(e: Error)

  /** The position after a successful operation of an unbounded decoder. */
  function After(v: Bytes, pos: nat, op: Operation, o: Outcome): nat
    requires pos <= |v|
  {
    match op
    case ReadOp(size) => ReadEnd(v, pos, size)
    case Read1Op(_) => if o.Data? then pos + |o.bytes| else pos
    case ReadlineOp(size) => ReadlineEnd(v, pos, size)
    case SeekOp(offset, whence) => SeekEnd(v, pos, offset, whence)
  }

  /**
   The outcome tells the truth about the payload: an operation that reports success stayed within the limit,
   and one that reports the limit would have gone past it.
   */
  ghost predicate Truthful(v: Bytes, limit: nat, pos: nat, op: Operation, o: Outcome)
    requires pos <= |v|
  {
    var next := After(v, pos, op, o);
    match o
    case At(p) => op.SeekOp? && p == next <= limit
    case Data(bytes) => !op.SeekOp? && pos <= next <= limit && next <= |v| && bytes == v[pos..next]
    case Failed(e) => e.LimitExceeded? ==> limit < match op case Read1Op(size) => ReadEnd(v, pos, size) case _ => next
  }

  /** A run up to its first error, over the payload `v`. */
  ghost predicate Conforms(v: Bytes, limit: nat, pos: nat, ops: seq<Operation>, outcomes: seq<Outcome>)
    requires pos <= |v|
    decreases |ops|
  {
    if ops == [] then outcomes == []
    else
      && outcomes != [] && Truthful(v, limit, pos, ops[0], outcomes[0])
      && (if outcomes[0].Failed? then |outcomes| == 1
          else
            var next := After(v, pos, ops[0], outcomes[0]);
            next <= |v| && Conforms(v, limit, next, ops[1..], outcomes[1..]))
  }

  method Perform(f: BoundedGzipFile, op: Operation) returns (o: Outcome)
    requires f.Usable()
    modifies f.base
    ensures f.base.Valid() && Truthful(f.base.payload, f.limit, old(f.base.pos), op, o)
    ensures o == Failed(Corrupt) <==> f.base.faults > old(f.base.faults)
    ensures f.base.faults >= old(f.base.faults)
    ensures !o.Failed? ==> f.Usable() && f.base.pos == After(f.base.payload, old(f.base.pos), op, o)
  {
    match op {
      case ReadOp(size) =>
        var r := f.Read(size);
        o := if r.Ok? then Data(r.value) else Failed(r.error);
      case Read1Op(size) =>
        var r := f.Read1(size);
        o := if r.Ok? then Data(r.value) else Failed(r.error);
      case ReadlineOp(size) =>
        var r := f.Readline(size);
        o := if r.Ok? then Data(r.value) else Failed(r.error);
      case SeekOp(offset, whence) =>
        var r := f.Seek(offset, whence);
        o := if r.Ok? then At(r.value) else Failed(r.error);
    }
  }

  /** Any mix of operations from a fresh decoder, until the first error. */
  method PerformAll(f: BoundedGzipFile, ops: seq<Operation>) returns (outcomes: seq<Outcome>)
    requires f.Usable()
    modifies f.base
    ensures f.base.Valid()
    ensures Conforms(f.base.payload, f.limit, old(f.base.pos), ops, outcomes)
    // the stream is called corrupt only when the decoder underneath found it so
    ensures f.base.faults >= old(f.base.faults)
    ensures f.base.faults > old(f.base.faults) <==> Failed(Corrupt) in outcomes
    decreases |ops|
  {
    if ops == [] { return []; }
    var first := Perform(f, ops[0]);
    if first.Failed? { return [first]; }
    var rest := PerformAll(f, ops[1..]);
    return [first] + rest;
  }

  /** Reading to the end: everything that is left if the payload is within the limit, else an error one byte past it. */
  method ReadToEnd(f: BoundedGzipFile) returns (r: Result<Bytes, Error>)
    requires f.Usable()
    modifies f.base
    ensures r.Ok? ==> |f.base.payload| <= f.limit && r.value == f.base.payload[old(f.base.pos)..]
    ensures r.Ok? ==> f.base.sound
    ensures f.base.faults != old(f.base.faults) ==> r == Err(Corrupt)
    ensures f.base.faults == old(f.base.faults) ==> (r.Ok? <==> |f.base.payload| <= f.limit)
    ensures r.Err? ==> if r.error.Corrupt? then f.base.faults > old(f.base.faults) else f.base.pos == f.limit + 1
  {
    r := f.Read(-1);
  }

  function Delivered(outcomes: seq<Outcome>): Bytes {
    if outcomes == [] then []
    else (if outcomes[0].Data? then outcomes[0].bytes else []) + Delivered(outcomes[1..])
  }

  /**
   What a run of reads delivers, in whatever pieces, is one contiguous part of the payload that ends within the limit.
   */
  lemma {:induction false} ReadsDeliverAPrefix(v: Bytes, limit: nat, pos: nat, ops: seq<Operation>,
                                               outcomes: seq<Outcome>)
    requires pos <= |v| && pos <= limit && Conforms(v, limit, pos, ops, outcomes)
    requires forall i :: 0 <= i < |ops| ==> !ops[i].SeekOp?
    ensures var end := pos + |Delivered(outcomes)|; end <= limit && end <= |v| && Delivered(outcomes) == v[pos..end]
    decreases |ops|
  {
    if ops != [] {
      var first, rest := outcomes[0], outcomes[1..];
      if first.Data? {
        var next := After(v, pos, ops[0], first);
        ReadsDeliverAPrefix(v, limit, next, ops[1..], rest);
        assert Delivered(outcomes) == v[pos..next] + Delivered(rest)
          && |Delivered(outcomes)| == next - pos + |Delivered(rest)|;
        PiecesMeet(v, pos, next, next + |Delivered(rest)|);
      } else {
        assert rest == [];
      }
    }
  }

  // ---------------------------------------------------------------- what is read where

  ghost predicate NoneFailed(outcomes: seq<Outcome>) { forall i :: 0 <= i < |outcomes| ==> !outcomes[i].Failed? }

  /** How many bytes the reads ask for in all; a negative size asks for everything. */
  function Asked(ops: seq<Operation>, everything: nat): nat {
    if ops == [] then 0
    else (if ops[0].ReadOp? && ops[0].size >= 0 then ops[0].size else everything) + Asked(ops[1..], everything)
  }

  /** When no read fails, the part that is delivered is as long as was asked for, up to the end of the payload. */
  lemma {:induction false} ReadsDeliverWhatIsAsked(v: Bytes, limit: nat, pos: nat, ops: seq<Operation>,
                                                   outcomes: seq<Outcome>)
    requires pos <= |v| && Conforms(v, limit, pos, ops, outcomes) && NoneFailed(outcomes)
    requires forall i :: 0 <= i < |ops| ==> ops[i].ReadOp?
    ensures |Delivered(outcomes)| == Min(pos + Asked(ops, |v|), |v|) - pos
    decreases |ops|
  {
    if ops != [] {
      assert ops[0].ReadOp? && !outcomes[0].Failed?;
      var next := ReadEnd(v, pos, ops[0].size);
      assert |outcomes[0].bytes| == next - pos;
      assert forall i :: 0 <= i < |outcomes[1..]| ==> outcomes[1..][i] == outcomes[i + 1];
      ReadsDeliverWhatIsAsked(v, limit, next, ops[1..], outcomes[1..]);
    }
  }

  /** A seek and a read to the end. */
  function Skim(offset: int, whence: Whence): seq<Operation> { [SeekOp(offset, whence), ReadOp(-1)] }

  lemma {:induction false} SkimReads(v: Bytes, limit: nat, pos: nat, offset: int, whence: Whence,
                                     outcomes: seq<Outcome>)
    requires pos <= |v| && Conforms(v, limit, pos, Skim(offset, whence), outcomes) && NoneFailed(outcomes)
    ensures |outcomes| == 2 && outcomes[0] == At(SeekEnd(v, pos, offset, whence))
    ensures outcomes[1] == Data(v[SeekEnd(v, pos, offset, whence)..])
  {
    assert !outcomes[0].Failed?;
    var ops, rest := Skim(offset, whence), outcomes[1..];
    assert ops[1..] == [ReadOp(-1)] && Conforms(v, limit, SeekEnd(v, pos, offset, whence), ops[1..], rest);
    assert rest[0] == outcomes[1] && !outcomes[1].Failed?;
    assert ops[1..][1..] == [] && Conforms(v, limit, |v|, ops[1..][1..], rest[1..]);
  }

  /** After seek(n) the payload is read from byte n on. */
  lemma {:induction false} SeekFromStart(v: Bytes, limit: nat, pos: nat, n: nat, outcomes: seq<Outcome>)
    requires pos <= |v| && Conforms(v, limit, pos, Skim(n, Set), outcomes) && NoneFailed(outcomes)
    ensures |outcomes| == 2 && outcomes[1] == Data(if n <= |v| then v[n..] else [])
  {
    SkimReads(v, limit, pos, n, Set, outcomes);
  }

  /** After seek(-n, SEEK_END) the last n bytes are read. */
  lemma SeekFromEnd(v: Bytes, limit: nat, pos: nat, n: nat, outcomes: seq<Outcome>)
    requires pos <= |v| && n <= |v| && Conforms(v, limit, pos, Skim(0 - n, End), outcomes) && NoneFailed(outcomes)
    ensures |outcomes| == 2 && outcomes[1] == Data(v[|v| - n..])
  {
    SkimReads(v, limit, pos, 0 - n, End, outcomes);
  }

  /** A seek past either end stops there; before the start it reads the whole payload. */
  lemma {:induction false} SeekFromHere(v: Bytes, limit: nat, pos: nat, n: int, outcomes: seq<Outcome>)
    requires pos <= |v| && Conforms(v, limit, pos, Skim(n, Current), outcomes) && NoneFailed(outcomes)
    ensures |outcomes| == 2
    ensures outcomes[1] == Data(if pos + n < 0 then v else if pos + n <= |v| then v[pos + n..] else [])
  {
    SkimReads(v, limit, pos, n, Current, outcomes);
    assert v[0..] == v;
  }
}
