/** The gzip member format of RFC 1952 as far as the encoder uses it. */
module GzipFormat {
  import opened Common
  import opened Checksum

  const TWO32 := 0x1_0000_0000

  /** `n & 0xFFFFFFFF`. */
  function Word(n: int): bv32 { (n % TWO32) as bv32 }

  /** `_gzip_header`: magic, deflate, no flags, the time, no extra flags, unknown system. */
  function Header(mtime: int): Bytes {
    [0x1F, 0x8B, 0x08, 0x00] + Pack(Word(mtime)) + [0x00, 0xFF]
  }

  /** The header is ten bytes; the decoder finds the time, no extra flags and an unknown system in it. */
  lemma HeaderFields(mtime: int)
    ensures var h := Header(mtime);
            && |h| == 10 && h[..4] == [0x1F, 0x8B, 0x08, 0x00] && h[8..] == [0x00, 0xFF]
            && Unpack(h[4..8]) == (mtime % 0x1_0000_0000) as bv32
  {
    UnpackReadsBack(Word(mtime));
    assert Header(mtime)[4..8] == Pack(Word(mtime));
  }

  function Trailer(crc: bv32, size: nat): Bytes { Pack(crc) + Pack(Word(size)) }

  /** The member for `data` whose deflate stream is `body`. */
  function Member(mtime: int, data: Bytes, body: Bytes): Bytes {
    Header(mtime) + body + Trailer(Crc32(data, 0), |data| % TWO32)
  }

  /**
   A decoder in the order of RFC 1952, section 2.3.1: ten header bytes without optional fields, then
   the body, then the CRC-32 and the length of what the body decodes to.
   */
  function DecodeMember(member: Bytes, inflate: Bytes -> Option<Bytes>): Option<Bytes> {
    if |member| < 18 || member[..4] != [0x1F, 0x8B, 0x08, 0x00] then None
    else
      var n := |member|;
      var data := inflate(member[10..n - 8]);
      if data.None? || Unpack(member[n - 8..n - 4]) != Crc32(data.value, 0)
         || Unpack(member[n - 4..]) != (|data.value| % 0x1_0000_0000) as bv32
      then None else data
  }

  /**
   A decoder of the whole format, which also reads optional header fields, several members in a row,
   padding and the empty stream; on a plain member it agrees with the decoder above.
   */
  ghost predicate ReadsMembers(decode: Bytes -> Option<Bytes>, inflate: Bytes -> Option<Bytes>) {
    forall stored :: DecodeMember(stored, inflate).Some? ==> decode(stored) == DecodeMember(stored, inflate)
  }

  lemma Cut(h: Bytes, body: Bytes, crc: Bytes, len: Bytes, member: Bytes)
    requires |h| == 10 && |crc| == |len| == 4 && member == h + body + (crc + len)
    ensures |member| == 18 + |body| && member[..4] == h[..4] && member[10..|member| - 8] == body
    ensures member[|member| - 8..|member| - 4] == crc && member[|member| - 4..] == len
  {
  }

  /** Decoding a member gives back the data, for any body that inflates to it. */
  lemma MemberRoundTrip(mtime: int, data: Bytes, body: Bytes, inflate: Bytes -> Option<Bytes>)
    requires inflate(body) == Some(data)
    ensures DecodeMember(Member(mtime, data, body), inflate) == Some(data)
  {
    HeaderFields(mtime);
    UnpackReadsBack(Crc32(data, 0));
    UnpackReadsBack(Word(|data|));
    Cut(Header(mtime), body, Pack(Crc32(data, 0)), Pack(Word(|data|)), Member(mtime, data, body));
  }
}
