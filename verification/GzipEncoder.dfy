/**
 The lazy gzip encoder of _core/transforms/_stream_encoder.py.

 The source hands out its text in whatever pieces it likes and may fail; the caller reads into
 buffers of whatever sizes it likes.  zlib's raw deflate object is a `Codec`: what it emits may depend
 on how the text was cut into chunks.
 */
module GzipEncoder {
  import opened Common
  import opened Checksum
  import opened GzipFormat

  /** zlib.compressobj: what compress(chunk) returns after the given chunks, and what flush() returns. */
  datatype Codec = Codec(emit: (seq<Bytes>, Bytes) -> Bytes, finish: seq<Bytes> -> Bytes)

  function Flatten(chunks: seq<Bytes>): Bytes {
    if chunks == [] then [] else Flatten(chunks[..|chunks| - 1]) + chunks[|chunks| - 1]
  }

  function Emitted(codec: Codec, chunks: seq<Bytes>): Bytes {
    if chunks == [] then []
    else
      var before := chunks[..|chunks| - 1];
      Emitted(codec, before) + codec.emit(before, chunks[|chunks| - 1])
  }

  /** The deflate stream of a text cut into these chunks. */
  function Deflated(codec: Codec, chunks: seq<Bytes>): Bytes { Emitted(codec, chunks) + codec.finish(chunks) }

  /** `inflate` undoes the codec however the text was cut. */
  ghost predicate Inverts(codec: Codec, inflate: Bytes -> Option<Bytes>) {
    forall chunks: seq<Bytes> :: inflate(Deflated(codec, chunks)) == Some(Flatten(chunks))
  }

  /** The checksum fields describe exactly the text fed so far. */
  ghost predicate Tally(fed: seq<Bytes>, crc: bv32, size: nat) {
    crc == Crc32(Flatten(fed), 0) && size == |Flatten(fed)| % TWO32
  }

  /** The bytes produced in a state of the encoder. */
  ghost function Produced(codec: Codec, mtime: int, header: bool, fed: seq<Bytes>, trailer: bool, crc: bv32,
                          size: nat): Bytes {
    (if header then Header(mtime) else [])
    + Emitted(codec, fed)
    + (if trailer then codec.finish(fed) + Trailer(crc, size) else [])
  }

  lemma {:induction false} ChunkSnoc(codec: Codec, fed: seq<Bytes>, chunk: Bytes)
    ensures Flatten(fed + [chunk]) == Flatten(fed) + chunk
    ensures Emitted(codec, fed + [chunk]) == Emitted(codec, fed) + codec.emit(fed, chunk)
  {
    assert (fed + [chunk])[..|fed|] == fed;
  }

  lemma SizeContinues(a: nat, b: nat)
    ensures (a % TWO32 + b) % TWO32 == (a + b) % TWO32
  {
  }

  lemma TallyChunk(codec: Codec, fed: seq<Bytes>, crc: bv32, size: nat, chunk: Bytes)
    requires Tally(fed, crc, size)
    ensures Tally(fed + [chunk], Crc32(chunk, crc), (size + |chunk|) % TWO32)
  {
    ChunkSnoc(codec, fed, chunk);
    CrcContinues(Flatten(fed), chunk, 0);
    SizeContinues(|Flatten(fed)|, |chunk|);
  }

  lemma ProducedChunk(codec: Codec, mtime: int, fed: seq<Bytes>, crc: bv32, size: nat, crc': bv32, size': nat,
                      chunk: Bytes)
    ensures Produced(codec, mtime, true, fed + [chunk], false, crc', size') ==
            Produced(codec, mtime, true, fed, false, crc, size) + codec.emit(fed, chunk)
  {
    ChunkSnoc(codec, fed, chunk);
    assert Header(mtime) + (Emitted(codec, fed) + codec.emit(fed, chunk)) ==
           Header(mtime) + Emitted(codec, fed) + codec.emit(fed, chunk);
  }

  lemma ProducedHeader(codec: Codec, mtime: int, crc: bv32, size: nat)
    ensures Produced(codec, mtime, true, [], false, crc, size) ==
              Produced(codec, mtime, false, [], false, crc, size) + Header(mtime)
  {
  }

  lemma ProducedTrailer(codec: Codec, mtime: int, fed: seq<Bytes>, crc: bv32, size: nat)
    ensures Produced(codec, mtime, true, fed, true, crc, size) ==
            Produced(codec, mtime, true, fed, false, crc, size) + (codec.finish(fed) + Trailer(crc, size))
  {
  }

  /** A finished stream is one gzip member for the whole text, however it was cut. */
  lemma {:induction false} ProducedMember(codec: Codec, mtime: int, fed: seq<Bytes>, crc: bv32, size: nat)
    requires Tally(fed, crc, size)
    ensures Produced(codec, mtime, true, fed, true, crc, size) == Member(mtime, Flatten(fed), Deflated(codec, fed))
  {
    var h, e, f, t := Header(mtime), Emitted(codec, fed), codec.finish(fed), Trailer(crc, size);
    assert h + e + (f + t) == h + (e + f) + t;
  }

  class Source {
    var remaining: Bytes
    ghost var raised: nat   // how often read() raised

    constructor (text: Bytes)
      ensures remaining == text
    {
      remaining, raised := text, 0;
    }

    /** read(n): at least one byte unless the text is used up, at most n; everything for a negative n. */
    method Read(n: int) returns (r: Option<Bytes>)
      requires n != 0
      modifies this
      ensures r.None? ==> remaining == old(remaining) && raised == old(raised) + 1
      ensures r.Some? ==> raised == old(raised)
      ensures r.Some? ==> old(remaining) == r.value + remaining && (r.value == [] <==> old(remaining) == [])
      ensures r.Some? && n > 0 ==> |r.value| <= n
    {
      var fails: bool, wanted: int := *, *;
      if fails {
        raised := raised + 1;
        return None;
      }
      var most := if n < 0 || n > |remaining| then |remaining| else n;
      var k := if n < 0 then most else Max(Min(1, most), Min(wanted, most));
      r := Some(remaining[..k]);
      remaining := remaining[k..];
    }
  }

  datatype Taken = Chunk | EndOfText | Raised

  class GzipCompressingReader {
    const source: Source
    const codec: Codec
    const mtime: int
    const chunkSize: int
    var buffer: Bytes
    var sourceExhausted: bool
    var trailerEmitted: bool
    var headerEmitted: bool
    var crc: bv32
    var size: nat
    var fed: seq<Bytes>          // what the compressor was given
    ghost var text: Bytes        // the whole source text
    ghost var delivered: Bytes   // what readers have received

    ghost predicate Valid()
      reads this, source
    {
      && text == Flatten(fed) + source.remaining
      && Tally(fed, crc, size)
      && chunkSize != 0
      && (!headerEmitted ==> fed == [])
      && (trailerEmitted ==> headerEmitted && sourceExhausted)
      && (sourceExhausted ==> source.remaining == [])
      && delivered + buffer == Produced(codec, mtime, headerEmitted, fed, trailerEmitted, crc, size)
    }

    /** How many fill steps can still happen. */
    ghost function Work(): nat
      reads this`trailerEmitted, source
    {
      |source.remaining| + if trailerEmitted then 0 else 1
    }

    constructor (source: Source, codec: Codec, mtime: int, chunkSize: int)
      requires chunkSize != 0
      ensures Valid() && text == source.remaining && delivered == [] && this.source == source
      ensures this.codec == codec && this.mtime == mtime
    {
      this.source, this.codec, this.mtime, this.chunkSize := source, codec, mtime, chunkSize;
      buffer, sourceExhausted, trailerEmitted, headerEmitted := [], false, false, false;
      crc, size, fed := 0, 0, [];
      text, delivered := source.remaining, [];
      new;
      assert Crc32([], 0) == 0 by { InvertTwice(0); }
    }

    method Append(out: Bytes)
      modifies this`buffer
      ensures delivered + buffer == old(delivered + buffer) + out
    {
      assert delivered + (buffer + out) == delivered + buffer + out;
      buffer := buffer + out;
    }

    /** The checksum and the length after one more piece. */
    method Account(ghost before: seq<Bytes>, crc0: bv32, size0: nat, piece: Bytes) returns (crc': bv32, size': nat)
      requires Tally(before, crc0, size0)
      ensures Tally(before + [piece], crc', size') && Flatten(before + [piece]) == Flatten(before) + piece
    {
      TallyChunk(codec, before, crc0, size0, piece);
      ChunkSnoc(codec, before, piece);
      crc', size' := Crc32(piece, crc0), (size0 + |piece|) % TWO32;
    }

    /** Compress one piece of text and account for it. */
    method Compress(piece: Bytes)
      requires headerEmitted && !trailerEmitted && Tally(fed, crc, size)
      requires delivered + buffer == Produced(codec, mtime, true, fed, false, crc, size)
      modifies this`crc, this`size, this`buffer, this`fed
      ensures Tally(fed, crc, size) && Flatten(fed) == old(Flatten(fed)) + piece
      ensures delivered + buffer == Produced(codec, mtime, true, fed, false, crc, size)
    {
      ghost var before, wasCrc, wasSize := fed, crc, size;
      Append(codec.emit(fed, piece));
      crc, size := Account(before, crc, size, piece);
      fed := fed + [piece];
      ProducedChunk(codec, mtime, before, wasCrc, wasSize, crc, size, piece);
    }

    /** Flush the compressor and close the member. */
    method Finish()
      requires Valid() && headerEmitted && sourceExhausted && !trailerEmitted
      modifies this`buffer, this`trailerEmitted
      ensures Valid() && trailerEmitted
    {
      ProducedTrailer(codec, mtime, fed, crc, size);
      Append(codec.finish(fed) + Trailer(crc, size));
      trailerEmitted := true;
    }

    method EmitHeader()
      requires Valid() && !headerEmitted
      modifies this`buffer, this`headerEmitted
      ensures Valid() && headerEmitted
    {
      ProducedHeader(codec, mtime, crc, size);
      Append(Header(mtime));
      headerEmitted := true;
    }

    /** Reads one chunk and compresses it, or notices the end of the text. */
    method TakeChunk() returns (t: Taken)
      requires Valid() && headerEmitted && !sourceExhausted && !trailerEmitted
      modifies this`crc, this`size, this`buffer, this`fed, this`sourceExhausted, source
      ensures Valid() && (sourceExhausted <==> t.EndOfText?)
      ensures if t.Raised? then source.raised > old(source.raised) else source.raised == old(source.raised)
      ensures |source.remaining| <= old(|source.remaining|)
              && (t.Chunk? ==> |source.remaining| < old(|source.remaining|))
      ensures chunkSize > 0 ==> old(|source.remaining|) - |source.remaining| <= chunkSize
    {
      var chunk := source.Read(chunkSize);
      if chunk.None? { return Raised; }
      if chunk.value == [] {
        sourceExhausted := true;
        return EndOfText;
      }
      Compress(chunk.value);
      assert text == Flatten(fed) + source.remaining;
      return Chunk;
    }

    /** `_fill`: the header, then one chunk or the end of the stream; false when the source raised. */
    method Fill() returns (ok: bool)
      requires Valid() && !trailerEmitted
      modifies this`crc, this`size, this`buffer, this`fed, this`headerEmitted, this`sourceExhausted,
               this`trailerEmitted, source
      ensures Valid() && (ok ==> Work() < old(Work()))
      ensures if ok then source.raised == old(source.raised) else source.raised > old(source.raised)
      ensures Work() <= old(Work())
      ensures chunkSize > 0 ==> old(|source.remaining|) - |source.remaining| <= chunkSize
    {
      if !headerEmitted { EmitHeader(); }
      if !sourceExhausted {
        var t := TakeChunk();
        if !t.EndOfText? { return t.Chunk?; }
      }
      Finish();
      return true;
    }

    /** Fills until `wanted` bytes are buffered or the stream is finished; false when the source raised. */
    method FillUpTo(wanted: nat) returns (ok: bool)
      requires Valid()
      modifies this`crc, this`size, this`buffer, this`fed, this`headerEmitted, this`sourceExhausted,
               this`trailerEmitted, source
      ensures Valid() && (ok ==> wanted <= |buffer| || trailerEmitted)
      ensures !ok <==> source.raised > old(source.raised)
      ensures old(|buffer|) >= wanted ==> source.remaining == old(source.remaining) && buffer == old(buffer)
      ensures Work() < old(Work()) || (Work() == old(Work()) && (ok ==> buffer == old(buffer)))
    {
      while |buffer| < wanted && !trailerEmitted
        invariant source.raised == old(source.raised)
        invariant old(|buffer|) >= wanted ==> source.remaining == old(source.remaining) && buffer == old(buffer)
        invariant Valid() && (Work() < old(Work()) || (Work() == old(Work()) && buffer == old(buffer)))
        decreases Work()
      {
        ok := Fill();
        if !ok { return; }
      }
      ok := true;
    }

    /** Copies the first bytes of the buffer into `b` and drops them. */
    method Deliver(b: array<bv8>) returns (n: nat)
      modifies this`buffer, this`delivered, b
      ensures n == Min(b.Length, old(|buffer|)) && b[..n] == old(buffer)[..n] && b[n..] == old(b[n..])
      ensures delivered == old(delivered) + b[..n] && buffer == old(buffer)[n..]
      ensures delivered + buffer == old(delivered + buffer)
    {
      n := Min(b.Length, |buffer|);
      forall i | 0 <= i < n { b[i] := buffer[i]; }
      assert b[..n] == buffer[..n];
      assert buffer == buffer[..n] + buffer[n..];
      delivered := delivered + b[..n];
      buffer := buffer[n..];
    }

    /** With the trailer out and the buffer empty, one member for the whole text was delivered. */
    lemma AllDelivered()
      requires Valid() && trailerEmitted && buffer == []
      ensures delivered == Member(mtime, text, Deflated(codec, fed)) && Flatten(fed) == text
    {
      ProducedMember(codec, mtime, fed, crc, size);
      assert text == Flatten(fed) && delivered == delivered + buffer;
    }

    /** Returns how many bytes were put into `b`, or nothing when the source raised. */
    method ReadInto(b: array<bv8>) returns (n: Option<nat>)
      requires Valid()
      modifies this`crc, this`size, this`buffer, this`fed, this`headerEmitted, this`sourceExhausted,
               this`trailerEmitted, this`delivered, source, b
      ensures Valid()
      ensures n.None? ==> b[..] == old(b[..]) && delivered == old(delivered)
      ensures n.None? <==> source.raised > old(source.raised)
      ensures n.Some? ==> n.value <= b.Length && b[n.value..] == old(b[n.value..])
      ensures n.Some? ==> delivered == old(delivered) + b[..n.value]
      // a short read ends the stream: everything was delivered, and it is one member for the whole text
      ensures n.Some? && n.value < b.Length ==>
                delivered == Member(mtime, text, Deflated(codec, fed)) && Flatten(fed) == text
      // what is in the buffer is delivered without touching the source
      ensures old(|buffer|) >= b.Length ==> source.remaining == old(source.remaining)
      ensures Work() <= old(Work())
      ensures n.Some? ==> Work() < old(Work()) || |buffer| == old(|buffer|) - n.value
    {
      var ok := FillUpTo(b.Length);
      if !ok { return None; }
      var k := Deliver(b);
      if k < b.Length { AllDelivered(); }
      return Some(k);
    }
  }

  /**
   Reading to the end with any buffer sizes and any source pieces yields one member, and a decoder
   gives the text back.  None: the source raised.
   */
  method EncodeAll(text: Bytes, codec: Codec, mtime: int, chunkSize: int, ghost inflate: Bytes -> Option<Bytes>)
      returns (out: Option<Bytes>)
    requires chunkSize != 0 && Inverts(codec, inflate)
    ensures out.Some? ==> exists chunks :: Flatten(chunks) == text
                            && out.value == Member(mtime, text, Deflated(codec, chunks))
    ensures out.Some? ==> DecodeMember(out.value, inflate) == Some(text)
  {
    var source := new Source(text);
    var reader := new GzipCompressingReader(source, codec, mtime, chunkSize);
    var bytes: Bytes := [];
    while true
      invariant reader.Valid() && reader.delivered == bytes && fresh(reader) && fresh(reader.source)
      invariant reader.text == text && reader.codec == codec && reader.mtime == mtime
      decreases reader.Work(), |reader.buffer|
    {
      var wanted: int := *;
      var b := new bv8[Max(1, wanted)];
      var n := reader.ReadInto(b);
      if n.None? { return None; }
      bytes := bytes + b[..n.value];
      if n.value < b.Length {
        MemberRoundTrip(mtime, text, Deflated(codec, reader.fed), inflate);
        return Some(bytes);
      }
    }
  }
}
