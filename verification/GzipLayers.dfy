/**
 The two streams of the Gzip transform (_core/transforms/compression.py): the lazy encoder that `wrap`
 returns and the bounded decoder that `unwrap` returns, against the transform on whole texts.
 */
module GzipLayers {
  import opened Common
  import opened GzipFormat
  import Encoder = GzipEncoder
  import Decoder = BoundedDecoder
  import Pipelines

  function ToOption(r: Result<Bytes, Decoder.Error>): Option<Bytes> { if r.Ok? then Some(r.value) else None }

  /** The stored bytes are what `wrap` gives with a compressor that turns the text into `body`. */
  ghost predicate IsWrapped(stored: Bytes, text: Bytes, mtime: int, body: Bytes, limit: Option<nat>,
                            inflate: Bytes -> Option<Bytes>, decode: Bytes -> Option<Bytes>) {
    inflate(body) == Some(text) && stored == Pipelines.Gzip(mtime, (t: Bytes) => body, decode, limit).wrap(text)
  }

  /**
   Reading the encoder to its end gives what the transform's `wrap` gives, for some deflate stream of the
   text, and every gzip decoder gives the text back.
   */
  method WrapAll(text: Bytes, codec: Encoder.Codec, mtime: int, chunkSize: int, limit: Option<nat>,
                 ghost inflate: Bytes -> Option<Bytes>, ghost decode: Bytes -> Option<Bytes>)
      returns (stored: Option<Bytes>)
    requires chunkSize != 0 && Encoder.Inverts(codec, inflate) && ReadsMembers(decode, inflate)
    ensures stored.Some? ==> exists body :: IsWrapped(stored.value, text, mtime, body, limit, inflate, decode)
    ensures stored.Some? ==> decode(stored.value) == Some(text)
  {
    stored := Encoder.EncodeAll(text, codec, mtime, chunkSize, inflate);
    if stored.Some? {
      ghost var chunks :| Encoder.Flatten(chunks) == text
                          && stored.value == Member(mtime, text, Encoder.Deflated(codec, chunks));
      ghost var body := Encoder.Deflated(codec, chunks);
      assert inflate(body) == Some(text);
      assert IsWrapped(stored.value, text, mtime, body, limit, inflate, decode);
    }
  }

  /**
   Reading the decoder to its end gives what the transform's `unwrap` gives, on any stored bytes, a gzip
   stream or not; only a call that raised may come in between.
   */
  method UnwrapAll(stored: Bytes, decode: Bytes -> Option<Bytes>, limit: nat)
      returns (r: Result<Bytes, Decoder.Error>, raised: bool)
    ensures forall mtime: int, deflate: Bytes -> Bytes ::
              var text := Pipelines.Gzip(mtime, deflate, decode, Some(limit)).unwrap(stored);
              (r.Ok? ==> text == Some(r.value)) && (!raised ==> text == ToOption(r))
    ensures raised ==> r == Err(Decoder.Corrupt)
  {
    var base := new Decoder.GzipFile(stored, decode);
    var decoder := new Decoder.BoundedGzipFile(base, limit);
    r := Decoder.ReadToEnd(decoder);
    raised := base.faults > 0;
    if r.Ok? { assert base.payload[0..] == base.payload; }
  }

  /** Writing a text through the encoder and reading it back through the decoder. */
  method WriteThenRead(text: Bytes, codec: Encoder.Codec, mtime: int, chunkSize: int, limit: nat,
                       ghost inflate: Bytes -> Option<Bytes>, decode: Bytes -> Option<Bytes>)
      returns (r: Option<Result<Bytes, Decoder.Error>>, raised: bool)
    requires chunkSize != 0 && Encoder.Inverts(codec, inflate) && ReadsMembers(decode, inflate)
    ensures r.Some? && r.value.Ok? ==> r.value.value == text
    ensures r.Some? && !raised ==> (r.value.Ok? <==> |text| <= limit)
  {
    raised := false;
    var stored := WrapAll(text, codec, mtime, chunkSize, Some(limit), inflate, decode);
    if stored.None? { return None, raised; }   // the source raised
    var back;
    back, raised := UnwrapAll(stored.value, decode, limit);
    ghost var gzip := Pipelines.Gzip(mtime, (t: Bytes) => t, decode, Some(limit));
    assert gzip.unwrap(stored.value) == if |text| <= limit then Some(text) else None;
    return Some(back), raised;
  }

  /** The same with any mix of read, read1, readline and seek on the decoder, until the first error. */
  method WriteThenPerform(text: Bytes, codec: Encoder.Codec, mtime: int, chunkSize: int, limit: nat,
                          ghost inflate: Bytes -> Option<Bytes>, decode: Bytes -> Option<Bytes>,
                          ops: seq<Decoder.Operation>)
      returns (outcomes: Option<seq<Decoder.Outcome>>)
    requires chunkSize != 0 && Encoder.Inverts(codec, inflate) && ReadsMembers(decode, inflate)
    ensures outcomes.Some? ==> Decoder.Conforms(text, limit, 0, ops, outcomes.value)
  {
    var stored := WrapAll(text, codec, mtime, chunkSize, Some(limit), inflate, decode);
    if stored.None? { return None; }
    var base := new Decoder.GzipFile(stored.value, decode);
    var decoder := new Decoder.BoundedGzipFile(base, limit);
    var performed := Decoder.PerformAll(decoder, ops);
    return Some(performed);
  }
}
