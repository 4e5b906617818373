/** Which bytes a pipeline of transforms produces (_core/transforms/pipeline.py). */
module Pipelines {
  import opened Common
  import opened GzipFormat

  /** A transform on whole texts: `wrap` adds a layer, `unwrap` strips it or fails. */
  datatype Transform = Transform(wrap: Bytes -> Bytes, unwrap: Bytes -> Option<Bytes>)

  /** The stored form: the innermost layer is added first. */
  function Write(ts: seq<Transform>, text: Bytes): Bytes {
    if ts == [] then text else ts[0].wrap(Write(ts[1..], text))
  }

  /** Peeling the layers off, the outermost first. */
  function Read(ts: seq<Transform>, stored: Bytes): Option<Bytes> {
    if ts == [] then Some(stored)
    else
      var inner := ts[0].unwrap(stored);
      if inner.None? then None else Read(ts[1..], inner.value)
  }

  /** Layers in front of others are added after them, and no layer, or one, does what it says. */
  lemma {:induction false} WriteComposes(outer: seq<Transform>, inner: seq<Transform>, text: Bytes)
    ensures Write(outer + inner, text) == Write(outer, Write(inner, text))
    ensures Write([], text) == text && forall layer: Transform :: Write([layer], text) == layer.wrap(text)
  {
    if outer == [] {
      assert outer + inner == inner;
    } else {
      assert (outer + inner)[1..] == outer[1..] + inner;
      WriteComposes(outer[1..], inner, text);
    }
  }

  /** Layers in front of others are stripped before them; what cannot be stripped ends the reading. */
  lemma {:induction false} ReadComposes(outer: seq<Transform>, inner: seq<Transform>, stored: Bytes)
    ensures Read(outer + inner, stored) ==
            match Read(outer, stored) case None => None case Some(between) => Read(inner, between)
    ensures Read([], stored) == Some(stored)
    ensures forall layer: Transform :: Read([layer], stored) == layer.unwrap(stored)
  {
    if outer == [] {
      assert outer + inner == inner;
    } else {
      assert (outer + inner)[1..] == outer[1..] + inner;
      var next := outer[0].unwrap(stored);
      if next.Some? { ReadComposes(outer[1..], inner, next.value); }
    }
  }

  method ApplyWrite(ts: seq<Transform>, text: Bytes) returns (stream: Bytes)
    ensures stream == Write(ts, text)
  {
    stream := text;
    var i := |ts|;
    while i > 0
      invariant 0 <= i <= |ts| && stream == Write(ts[i..], text)
    {
      i := i - 1;
      assert ts[i..][0] == ts[i] && ts[i..][1..] == ts[i + 1..];
      stream := ts[i].wrap(stream);
    }
    assert ts[0..] == ts;
  }

  method ApplyRead(ts: seq<Transform>, stored: Bytes) returns (r: Option<Bytes>)
    ensures r == Read(ts, stored)
  {
    var stream := stored;
    var i := 0;
    assert ts[0..] == ts;
    while i < |ts|
      invariant 0 <= i <= |ts| && Read(ts, stored) == Read(ts[i..], stream)
    {
      assert ts[i..][0] == ts[i] && ts[i..][1..] == ts[i + 1..];
      var inner := ts[i].unwrap(stream);
      if inner.None? { return None; }
      stream := inner.value;
      i := i + 1;
    }
    return Some(stream);
  }

  /** Every layer gives back the text that writing put into it. */
  ghost predicate InvertsOn(ts: seq<Transform>, text: Bytes) {
    forall i :: 0 <= i < |ts| ==> UndoneAt(ts, text, i)
  }

  ghost predicate UndoneAt(ts: seq<Transform>, text: Bytes, i: nat)
    requires i < |ts|
  {
    var inner := Write(ts[i + 1..], text);
    ts[i].unwrap(ts[i].wrap(inner)) == Some(inner)
  }

  /** Reading through a pipeline undoes writing through it. */
  lemma {:induction false} ReadInvertsWrite(ts: seq<Transform>, text: Bytes)
    requires InvertsOn(ts, text)
    ensures Read(ts, Write(ts, text)) == Some(text)
  {
    if ts == [] {
    } else {
      assert UndoneAt(ts, text, 0);
      forall i | 0 <= i < |ts[1..]| ensures UndoneAt(ts[1..], text, i) {
        assert UndoneAt(ts, text, i + 1);
        assert ts[1..][i + 1..] == ts[i + 2..];
      }
      ReadInvertsWrite(ts[1..], text);
    }
  }

  /** Gzip(mtime, limit): `deflate` may be any compressor, `decode` is what a gzip decoder makes of stored bytes. */
  function Gzip(mtime: int, deflate: Bytes -> Bytes, decode: Bytes -> Option<Bytes>, limit: Option<nat>): Transform {
    Transform(
      (text: Bytes) => Member(mtime, text, deflate(text)),
      (stored: Bytes) =>
        var text := decode(stored);
        if text.Some? && limit.Some? && |text.value| > limit.value then None else text)
  }

  /** A gzip layer is undone exactly when the text it holds is within the decompression limit. */
  lemma GzipIsUndoneWithinItsLimit(mtime: int, deflate: Bytes -> Bytes, inflate: Bytes -> Option<Bytes>,
                                   decode: Bytes -> Option<Bytes>, limit: Option<nat>, text: Bytes)
    requires inflate(deflate(text)) == Some(text) && ReadsMembers(decode, inflate)
    ensures var gzip := Gzip(mtime, deflate, decode, limit);
            gzip.unwrap(gzip.wrap(text)) == Some(text) <==> (limit.Some? ==> |text| <= limit.value)
  {
    MemberRoundTrip(mtime, text, deflate(text), inflate);
    assert decode(Member(mtime, text, deflate(text))) == Some(text);
  }
}
