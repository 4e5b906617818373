/** CRC-32 as zlib.crc32 computes it, one bit at a time, and that it is the checksum gzip asks for. */
module Checksum {
  import opened Common

  /** One bit of the reflected division by 0xEDB88320. */
  function CrcBit(c: bv32): bv32 { if c & 1 == 1 then (c >> 1) ^ 0xEDB88320 else c >> 1 }

  function CrcBits(c: bv32, n: nat): bv32
    decreases n
  {
    if n == 0 then c else CrcBits(CrcBit(c), n - 1)
  }

  const BYTE := [0, 1, 2, 3, 4, 5, 6, 7]   // the bits of a byte

  const BITS_IN_BYTE: nat := |BYTE|

  function CrcByte(c: bv32, b: bv8): bv32 { CrcBits(c ^ (b as bv32), BITS_IN_BYTE) }

  /** The register after `data`, without the initial and final inversion. */
  function CrcFold(c: bv32, data: Bytes): bv32
    decreases |data|
  {
    if data == [] then c else CrcByte(CrcFold(c, data[..|data| - 1]), data[|data| - 1])
  }

  function Invert(c: bv32): bv32 { c ^ 0xFFFFFFFF }

  /** zlib.crc32(data, start). */
  function Crc32(data: Bytes, start: bv32): bv32 { Invert(CrcFold(Invert(start), data)) }

  lemma {:induction false} CrcFoldAppend(c: bv32, a: Bytes, b: Bytes)
    ensures CrcFold(c, a + b) == CrcFold(CrcFold(c, a), b)
    decreases |b|
  {
    if b == [] {
      assert a + b == a;
    } else {
      var b' := b[..|b| - 1];
      assert (a + b)[..|a + b| - 1] == a + b';
      CrcFoldAppend(c, a, b');
    }
  }

  lemma InvertTwice(c: bv32)
    ensures Invert(Invert(c)) == c
  {
  }

  /** The checksum of a text does not depend on where it is cut. */
  lemma CrcContinues(a: Bytes, b: Bytes, start: bv32)
    ensures Crc32(b, Crc32(a, start)) == Crc32(a + b, start)
  {
    CrcFoldAppend(Invert(start), a, b);
    InvertTwice(CrcFold(Invert(start), a));
  }

  // ---------------------------------------------------------------- that this is CRC-32

  lemma ShiftIsLinear(a: bv32, b: bv32)
    ensures (a ^ b) >> 1 == (a >> 1) ^ (b >> 1)
  {
  }

  lemma LowBitIsLinear(a: bv32, b: bv32)
    ensures (a ^ b) & 1 == (a & 1) ^ (b & 1)
  {
  }

  lemma LowBitIsABit(a: bv32)
    ensures a & 1 == 0 || a & 1 == 1
  {
  }

  lemma XorMoves(x: bv32, y: bv32, p: bv32)
    ensures (x ^ y) ^ p == (x ^ p) ^ y == x ^ (y ^ p) && x ^ y == (x ^ p) ^ (y ^ p)
  {
  }

  function Sum(a: bv32, b: bv32): bv32 { a ^ b }

  lemma BitIsLinear(a: bv32, b: bv32)
    ensures CrcBit(Sum(a, b)) == Sum(CrcBit(a), CrcBit(b))
  {
    ShiftIsLinear(a, b);
    LowBitIsLinear(a, b);
    LowBitIsABit(a);
    LowBitIsABit(b);
    XorMoves(a >> 1, b >> 1, 0xEDB88320);
  }

  function Iterate<T>(f: T -> T, c: T, n: nat): T
    decreases n
  {
    if n == 0 then c else Iterate(f, f(c), n - 1)
  }

  lemma {:induction false} BitsIterate(c: bv32, n: nat)
    ensures CrcBits(c, n) == Iterate(CrcBit, c, n)
    decreases n
  {
    if n > 0 { BitsIterate(CrcBit(c), n - 1); }
  }

  ghost predicate Distributes<T(!new)>(f: T -> T, sum: (T, T) -> T) {
    forall x: T, y: T :: f(sum(x, y)) == sum(f(x), f(y))
  }

  lemma BitDistributes()
    ensures Distributes(CrcBit, Sum)
  {
    forall x: bv32, y: bv32 ensures CrcBit(Sum(x, y)) == Sum(CrcBit(x), CrcBit(y)) { BitIsLinear(x, y); }
  }

  /** What one step does to a sum, all steps do. */
  lemma {:induction false} IterateDistributes<T(!new)>(f: T -> T, sum: (T, T) -> T, a: T, b: T, n: nat)
    requires Distributes(f, sum)
    ensures Iterate(f, sum(a, b), n) == sum(Iterate(f, a, n), Iterate(f, b, n))
    decreases n
  {
    if n > 0 { IterateDistributes(f, sum, f(a), f(b), n - 1); }
  }

  /** The division is linear: the register of a sum is the sum of the registers. */
  lemma {:induction false} BitsAreLinear(a: bv32, b: bv32, n: nat)
    ensures Iterate(CrcBit, Sum(a, b), n) == Sum(Iterate(CrcBit, a, n), Iterate(CrcBit, b, n))
  {
    BitDistributes();
    IterateDistributes(CrcBit, Sum, a, b, n);
  }

  lemma {:induction false} IterateAdd<T>(f: T -> T, c: T, m: nat, n: nat)
    ensures Iterate(f, c, m + n) == Iterate(f, Iterate(f, c, m), n)
    decreases m
  {
    if m > 0 { IterateAdd(f, f(c), m - 1, n); }
  }

  lemma TwoZeroBits(c: bv32)
    requires c & 3 == 0
    ensures CrcBit(CrcBit(c)) == c >> 2
  {
  }

  lemma {:induction false} IterateTwice(c: bv32)
    ensures Iterate(CrcBit, c, 2) == CrcBit(CrcBit(c))
  {
    assert Iterate(CrcBit, CrcBit(c), 1) == Iterate(CrcBit, CrcBit(CrcBit(c)), 0);
  }

  lemma ShiftAgain(c: bv32)
    requires c & 0xFF == 0
    ensures c & 3 == 0 && (c >> 2) & 3 == 0 && (c >> 4) & 3 == 0 && (c >> 6) & 3 == 0
    ensures (c >> 2) >> 2 == c >> 4 && (c >> 4) >> 2 == c >> 6 && (c >> 6) >> 2 == c >> 8
  {
  }

  /** Two zero bits are shifted out, and the other `n` follow. */
  lemma ZeroBits(c: bv32, n: nat)
    requires c & 3 == 0
    ensures Iterate(CrcBit, c, 2 + n) == Iterate(CrcBit, c >> 2, n)
  {
    IterateAdd(CrcBit, c, 2, n);
    IterateTwice(c);
    TwoZeroBits(c);
  }

  lemma {:induction false} EightZeroBits(c: bv32)
    requires c & 0xFF == 0
    ensures Iterate(CrcBit, c, 8) == c >> 8
  {
    ShiftAgain(c);
    ZeroBits(c, 6);
    ZeroBits(c >> 2, 4);
    ZeroBits(c >> 4, 2);
    ZeroBits(c >> 6, 0);
  }

  /** A zero byte is shifted out. */
  lemma {:induction false} ZeroByte(c: bv32)
    requires c & 0xFF == 0
    ensures Iterate(CrcBit, c, BITS_IN_BYTE) == c >> 8
  {
    assert BITS_IN_BYTE == 8;
    EightZeroBits(c);
  }

  lemma {:induction false} EightBits(c: bv32)
    ensures Iterate(CrcBit, c, BITS_IN_BYTE) ==
            CrcBit(CrcBit(CrcBit(CrcBit(CrcBit(CrcBit(CrcBit(CrcBit(c))))))))
  {
    var d := CrcBit(CrcBit(c));
    var e := CrcBit(CrcBit(d));
    var f := CrcBit(CrcBit(e));
    IterateAdd(CrcBit, c, 2, 6);
    IterateAdd(CrcBit, d, 2, 4);
    IterateAdd(CrcBit, e, 2, 2);
    IterateTwice(c);
    IterateTwice(d);
    IterateTwice(e);
    IterateTwice(f);
  }

  lemma Byte0()
    ensures Iterate(CrcBit, 0x000000FF, BITS_IN_BYTE) == 0x2D02EF8D
  {
    EightBits(0x000000FF);
  }

  lemma Byte1()
    ensures Iterate(CrcBit, 0x2D02EF72, BITS_IN_BYTE) == 0xBE2612FF
  {
    EightBits(0x2D02EF72);
  }

  lemma Byte2()
    ensures Iterate(CrcBit, 0xBE261200, BITS_IN_BYTE) == 0x00BE2612
  {
    EightBits(0xBE261200);
  }

  lemma Byte3()
    ensures Iterate(CrcBit, 0x00BE26ED, BITS_IN_BYTE) == 0xDEBB20E3
  {
    EightBits(0x00BE26ED);
  }

  // ---------------------------------------------------------------- the residue

  function High(hi: bv32): bv32 { hi & 0xFFFFFF00 }

  lemma HighHasNoLowByte(hi: bv32)
    ensures High(hi) & 0xFF == 0
  {
  }

  lemma HighShifts(hi: bv32)
    ensures High(hi) >> 8 == hi >> 8
  {
  }

  lemma SplitLowByte(hi: bv32, k: bv32, b: bv32)
    requires b == (hi & 0xFF) ^ 0xFF
    ensures (hi ^ k) ^ b == Sum(High(hi), k ^ 0xFF)
  {
  }

  lemma ShiftHigh(hi: bv32)
    ensures Iterate(CrcBit, High(hi), BITS_IN_BYTE) == hi >> 8
  {
    HighHasNoLowByte(hi);
    HighShifts(hi);
    ZeroByte(High(hi));
  }

  lemma {:induction false} FeedParts(f: bv32 -> bv32, x: bv32, high: bv32, rest: bv32, n: nat, low: bv32)
    requires Distributes(f, Sum) && x == Sum(high, rest) && Iterate(f, high, n) == low
    ensures Iterate(f, x, n) == Sum(low, Iterate(f, rest, n))
  {
    IterateDistributes(f, Sum, high, rest, n);
  }

  lemma {:induction false} FeedSplit(hi: bv32, x: bv32, rest: bv32)
    requires x == Sum(High(hi), rest)
    ensures Iterate(CrcBit, x, BITS_IN_BYTE) == Sum(hi >> 8, Iterate(CrcBit, rest, BITS_IN_BYTE))
  {
    BitDistributes();
    ShiftHigh(hi);
    FeedParts(CrcBit, x, High(hi), rest, BITS_IN_BYTE, hi >> 8);
  }

  lemma FeedWide(hi: bv32, k: bv32, b: bv32, x: bv32)
    requires b == (hi & 0xFF) ^ 0xFF && x == (hi ^ k) ^ b
    ensures Iterate(CrcBit, x, BITS_IN_BYTE) == Sum(hi >> 8, Iterate(CrcBit, k ^ 0xFF, BITS_IN_BYTE))
  {
    SplitLowByte(hi, k, b);
    FeedSplit(hi, x, k ^ 0xFF);
  }

  lemma {:induction false} ByteIsWide(c: bv32, b: bv8, x: bv32, y: bv32)
    requires x == c ^ (b as bv32) && Iterate(CrcBit, x, BITS_IN_BYTE) == y
    ensures CrcByte(c, b) == y
  {
    BitsIterate(x, BITS_IN_BYTE);
  }

  /**
   Feeding the complement of the low byte of `hi` to the register `hi ^ k` leaves the rest of `hi`, and
   something that depends on `k` alone.
   */
  lemma FeedComplement(hi: bv32, k: bv32, b: bv8, wide: bv32, y: bv32)
    requires b as bv32 == wide == (hi & 0xFF) ^ 0xFF && y == Iterate(CrcBit, k ^ 0xFF, BITS_IN_BYTE)
    ensures CrcByte(hi ^ k, b) == Sum(hi >> 8, y)
  {
    FeedWide(hi, k, wide, (hi ^ k) ^ wide);
    ByteIsWide(hi ^ k, b, (hi ^ k) ^ wide, Sum(hi >> 8, y));
  }

  // ---------------------------------------------------------------- the field that carries it

  /** struct.pack("<I", c). */
  function Pack(c: bv32): (f: Bytes)
    ensures |f| == 4
  {
    [(c & 0xFF) as bv8, ((c >> 8) & 0xFF) as bv8, ((c >> 16) & 0xFF) as bv8, (c >> 24) as bv8]
  }

  /** The number that four bytes stand for, the least significant first (RFC 1952, section 2.1). */
  function Unpack(f: Bytes): bv32
    requires |f| == 4
  {
    (f[0] as bv32) | ((f[1] as bv32) << 8) | ((f[2] as bv32) << 16) | ((f[3] as bv32) << 24)
  }

  lemma UnpackReadsBack(c: bv32)
    ensures Unpack(Pack(c)) == c
  {
  }

  lemma {:induction false} FoldSnoc(c: bv32, data: Bytes, b: bv8)
    ensures CrcFold(c, data + [b]) == CrcByte(CrcFold(c, data), b)
  {
    assert (data + [b])[..|data|] == data;
  }

  /** `b` is the complement of the low byte of `hi`. */
  predicate Complements(b: bv8, hi: bv32) { b as bv32 == (hi & 0xFF) ^ 0xFF }

  lemma FirstByte(r: bv32)
    ensures Complements(Pack(Invert(r))[0], r)
  {
  }

  lemma SecondByte(r: bv32)
    ensures Complements(Pack(Invert(r))[1], r >> 8)
  {
  }

  lemma ThirdByte(r: bv32)
    ensures Complements(Pack(Invert(r))[2], (r >> 8) >> 8)
  {
  }

  lemma FourthByte(r: bv32)
    ensures Complements(Pack(Invert(r))[3], ((r >> 8) >> 8) >> 8) && (((r >> 8) >> 8) >> 8) >> 8 == 0
  {
  }

  lemma FeedFirst(r: bv32, b: bv8)
    requires Complements(b, r)
    ensures CrcByte(r, b) == (r >> 8) ^ 0x2D02EF8D
  {
    Byte0();
    FeedComplement(r, 0, b, b as bv32, 0x2D02EF8D);
  }

  lemma FeedSecond(hi: bv32, b: bv8)
    requires Complements(b, hi)
    ensures CrcByte(hi ^ 0x2D02EF8D, b) == (hi >> 8) ^ 0xBE2612FF
  {
    Byte1();
    FeedComplement(hi, 0x2D02EF8D, b, b as bv32, 0xBE2612FF);
  }

  lemma FeedThird(hi: bv32, b: bv8)
    requires Complements(b, hi)
    ensures CrcByte(hi ^ 0xBE2612FF, b) == (hi >> 8) ^ 0x00BE2612
  {
    Byte2();
    FeedComplement(hi, 0xBE2612FF, b, b as bv32, 0x00BE2612);
  }

  lemma FeedFourth(hi: bv32, b: bv8)
    requires Complements(b, hi)
    ensures CrcByte(hi ^ 0x00BE2612, b) == (hi >> 8) ^ 0xDEBB20E3
  {
    Byte3();
    FeedComplement(hi, 0x00BE2612, b, b as bv32, 0xDEBB20E3);
  }

  lemma {:induction false} FoldOn(c: bv32, f: Bytes, n: nat, before: bv32, after: bv32)
    requires n < |f| && CrcFold(c, f[..n]) == before && CrcByte(before, f[n]) == after
    ensures CrcFold(c, f[..n + 1]) == after
  {
    FoldSnoc(c, f[..n], f[n]);
    assert f[..n + 1] == f[..n] + [f[n]];
  }

  lemma {:induction false} AfterOne(r: bv32, f: Bytes, next: bv32)
    requires |f| == 4 && Complements(f[0], r) && next == r >> 8
    ensures CrcFold(r, f[..1]) == next ^ 0x2D02EF8D
  {
    FeedFirst(r, f[0]);
    FoldOn(r, f, 0, r, next ^ 0x2D02EF8D);
  }

  lemma {:induction false} AfterTwo(r: bv32, f: Bytes, h: bv32, next: bv32)
    requires |f| == 4 && CrcFold(r, f[..1]) == h ^ 0x2D02EF8D && Complements(f[1], h) && next == h >> 8
    ensures CrcFold(r, f[..2]) == next ^ 0xBE2612FF
  {
    FeedSecond(h, f[1]);
    FoldOn(r, f, 1, h ^ 0x2D02EF8D, next ^ 0xBE2612FF);
  }

  lemma {:induction false} AfterThree(r: bv32, f: Bytes, h: bv32, next: bv32)
    requires |f| == 4 && CrcFold(r, f[..2]) == h ^ 0xBE2612FF && Complements(f[2], h) && next == h >> 8
    ensures CrcFold(r, f[..3]) == next ^ 0x00BE2612
  {
    FeedThird(h, f[2]);
    FoldOn(r, f, 2, h ^ 0xBE2612FF, next ^ 0x00BE2612);
  }

  lemma {:induction false} AfterFour(r: bv32, f: Bytes, h: bv32)
    requires |f| == 4 && CrcFold(r, f[..3]) == h ^ 0x00BE2612 && Complements(f[3], h) && h >> 8 == 0
    ensures CrcFold(r, f[..4]) == 0xDEBB20E3
  {
    FeedFourth(h, f[3]);
    FoldOn(r, f, 3, h ^ 0x00BE2612, 0xDEBB20E3);
  }

  /** `f` holds the complements of the bytes of `r`, of which `h1` to `h3` are what the shifts leave. */
  predicate IsField(f: Bytes, r: bv32, h1: bv32, h2: bv32, h3: bv32) {
    && |f| == 4 && h1 == r >> 8 && h2 == h1 >> 8 && h3 == h2 >> 8 && h3 >> 8 == 0
    && Complements(f[0], r) && Complements(f[1], h1) && Complements(f[2], h2) && Complements(f[3], h3)
  }

  lemma FieldComplements(r: bv32)
    ensures IsField(Pack(Invert(r)), r, r >> 8, (r >> 8) >> 8, ((r >> 8) >> 8) >> 8)
  {
    FirstByte(r);
    SecondByte(r);
    ThirdByte(r);
    FourthByte(r);
  }

  lemma {:induction false} ToOne(r: bv32, f: Bytes, h1: bv32, h2: bv32, h3: bv32)
    requires IsField(f, r, h1, h2, h3)
    ensures CrcFold(r, f[..1]) == h1 ^ 0x2D02EF8D
  {
    AfterOne(r, f, h1);
  }

  lemma {:induction false} ToTwo(r: bv32, f: Bytes, h1: bv32, h2: bv32, h3: bv32)
    requires IsField(f, r, h1, h2, h3)
    ensures CrcFold(r, f[..2]) == h2 ^ 0xBE2612FF
  {
    ToOne(r, f, h1, h2, h3);
    AfterTwo(r, f, h1, h2);
  }

  lemma {:induction false} ToThree(r: bv32, f: Bytes, h1: bv32, h2: bv32, h3: bv32)
    requires IsField(f, r, h1, h2, h3)
    ensures CrcFold(r, f[..3]) == h3 ^ 0x00BE2612
  {
    ToTwo(r, f, h1, h2, h3);
    AfterThree(r, f, h2, h3);
  }

  lemma {:induction false} ToFour(r: bv32, f: Bytes, h1: bv32, h2: bv32, h3: bv32)
    requires IsField(f, r, h1, h2, h3)
    ensures CrcFold(r, f) == 0xDEBB20E3
  {
    ToThree(r, f, h1, h2, h3);
    AfterFour(r, f, h3);
    assert f[..4] == f;
  }

  /** The register after a text and the checksum field of that text is the same for every text. */
  lemma {:induction false} RegisterAfterField(r: bv32)
    ensures CrcFold(r, Pack(Invert(r))) == 0xDEBB20E3
  {
    FieldComplements(r);
    ToFour(r, Pack(Invert(r)), r >> 8, (r >> 8) >> 8, ((r >> 8) >> 8) >> 8);
  }

  /**
   The residue law of CRC-32: the checksum of a text followed by its own checksum field is the same
   number for every text.
   */
  lemma ResidueIsConstant(data: Bytes)
    ensures Crc32(data + Pack(Crc32(data, 0)), 0) == 0x2144DF1C
  {
    var r := CrcFold(Invert(0), data);
    CrcFoldAppend(Invert(0), data, Pack(Invert(r)));
    RegisterAfterField(r);
  }

  lemma EmptyChecksum()
    ensures Crc32([], 0) == 0
  {
  }
}
