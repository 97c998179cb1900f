/**
 * The CBOR data item heads of RFC 8949 section 3: an initial byte holding the
 * major type (high three bits) and the additional information (low five
 * bits), followed by an argument of 0, 1, 2, 4 or 8 big-endian bytes. The
 * encoder always writes the shortest head for an argument (the preferred
 * serialization of RFC 8949 section 4.2.1); `DecodeHead` is an independent
 * reading of RFC 8949 section 3 that the encodings are proved against.
 */
module CborHead {
  import opened Events

  // ---------------------------------------------------------------------------
  // Big-endian unsigned integers.

  function Pow256(n: nat): (r: nat)
    ensures r >= 1
  {
    if n == 0 then 1 else 256 * Pow256(n - 1)
  }

  /** The `n` low-order bytes of `v`, most significant first. */
  function BigEndian(v: nat, n: nat): (r: seq<Byte>)
    ensures |r| == n
  {
    if n == 0 then [] else BigEndian(v / 256, n - 1) + [v % 256]
  }

  /** The unsigned integer a sequence of big-endian bytes stands for. */
  function FromBigEndian(bs: seq<Byte>): (v: nat)
    ensures v < Pow256(|bs|)
  {
    if bs == [] then 0 else FromBigEndian(bs[..|bs| - 1]) * 256 + bs[|bs| - 1]
  }

  lemma {:induction false} BigEndianRoundTrip(v: nat, n: nat)
    requires v < Pow256(n)
    ensures FromBigEndian(BigEndian(v, n)) == v
  {
    if n > 0 {
      var bs := BigEndian(v, n);
      assert bs[..n - 1] == BigEndian(v / 256, n - 1);
      assert v / 256 < Pow256(n - 1);
      BigEndianRoundTrip(v / 256, n - 1);
      assert FromBigEndian(bs) == (v / 256) * 256 + v % 256;
    }
  }

  // ---------------------------------------------------------------------------
  // Heads.

  /** Bytes of argument after the initial byte in the shortest head for `v`. */
  function ArgumentWidth(v: nat): (w: nat)
    ensures w in {0, 1, 2, 4, 8}
  {
    if v <= 0x17 then 0 else if v <= 0xff then 1 else if v <= 0xffff then 2 else if v <= 0xffff_ffff then 4 else 8
  }

  /** The additional information that announces an argument of `w` following bytes. */
  function WidthInfo(w: nat): nat
  {
    if w == 1 then 24 else if w == 2 then 25 else if w == 4 then 26 else 27
  }

  /** The width an additional information of 24 to 27 announces. */
  function InfoWidth(info: nat): nat
  {
    if info == 24 then 1 else if info == 25 then 2 else if info == 26 then 4 else 8
  }

  /** The shortest head of major type `major` with argument `v`. */
  function Head(major: nat, v: nat): (r: seq<Byte>)
    requires major < 8 && v < TwoTo64
    ensures |r| == 1 + ArgumentWidth(v)
  {
    if v <= 0x17 then [major * 32 + v]
    else if v <= 0xff then [major * 32 + 24] + BigEndian(v, 1)
    else if v <= 0xffff then [major * 32 + 25] + BigEndian(v, 2)
    else if v <= 0xffff_ffff then [major * 32 + 26] + BigEndian(v, 4)
    else [major * 32 + 27] + BigEndian(v, 8)
  }

  /**
   * The initial byte holds the argument itself up to 0x17; above, it announces
   * 1, 2, 4 or 8 following bytes (additional information 24 to 27) for an
   * argument up to 0xff, 0xffff, 0xffffffff or beyond.
   */
  lemma HeadFirstByte(major: nat, v: nat)
    requires major < 8 && v < TwoTo64
    ensures Head(major, v)[0] == major * 32 + (if v <= 0x17 then v else WidthInfo(ArgumentWidth(v)))
    ensures Head(major, v)[1..] == BigEndian(v, ArgumentWidth(v))
  {
  }

  /** A head beyond 0x17 is the initial byte followed by the argument's big-endian bytes. */
  lemma HeadSplit(major: nat, v: nat)
    requires major < 8 && 0x17 < v < TwoTo64
    ensures Head(major, v) == [major * 32 + WidthInfo(ArgumentWidth(v))] + BigEndian(v, ArgumentWidth(v))
  {
  }

  /** The initial byte of an indefinite-length item of major type `major` (RFC 8949 section 3.2.2). */
  function IndefiniteStart(major: nat): Byte
    requires 2 <= major <= 5
  {
    major * 32 + 31
  }

  /** The "break" stop code that closes an indefinite-length item. */
  const Break: Byte := 0xff

  // ---------------------------------------------------------------------------
  // A reading of RFC 8949 section 3.

  /** A decoded head: its major type, its argument and the number of bytes it took. */
  datatype Header = Header(major: nat, arg: nat, size: nat)

  /**
   * Reads one head with an argument: additional information below 24 is the
   * argument itself; 24 to 27 announce 1, 2, 4 or 8 following bytes; 28 to
   * 31 (reserved values, and the indefinite-length marker) carry no argument.
   */
  function DecodeHead(bs: seq<Byte>): (h: Option<Header>)
    ensures h.Some? ==> 1 <= h.value.size <= |bs| && h.value.major < 8
  {
    if bs == [] then None
    else
      var major := bs[0] / 32;
      var info := bs[0] % 32;
      if info < 24 then Some(Header(major, info, 1))
      else if info <= 27 && |bs| >= 1 + InfoWidth(info) then
        Some(Header(major, FromBigEndian(bs[1..1 + InfoWidth(info)]), 1 + InfoWidth(info)))
      else None
  }

  lemma Pow256Values()
    ensures Pow256(1) == 0x100 && Pow256(2) == 0x1_0000 && Pow256(4) == 0x1_0000_0000
    ensures Pow256(8) == TwoTo64
  {
    assert Pow256(3) == 0x100_0000;
    assert Pow256(5) == 0x100_0000_0000;
    assert Pow256(6) == 0x1_0000_0000_0000;
    assert Pow256(7) == 0x100_0000_0000_0000;
  }

  /** Every shortest head reads back as its major type and argument, whatever follows it. */
  lemma {:induction false} HeadRoundTrip(major: nat, v: nat, rest: seq<Byte>)
    requires major < 8 && v < TwoTo64
    ensures DecodeHead(Head(major, v) + rest) == Some(Header(major, v, |Head(major, v)|))
  {
    var h := Head(major, v);
    var bs := h + rest;
    var w := ArgumentWidth(v);
    assert bs[0] == h[0];
    if w > 0 {
      Pow256Values();
      assert bs[1..1 + w] == BigEndian(v, w);
      BigEndianRoundTrip(v, w);
    }
  }

  /** No head for the same major type and argument is shorter than the one the encoder writes (RFC 8949 section 4.2.1). */
  lemma {:induction false} HeadIsShortest(bs: seq<Byte>, major: nat, v: nat, size: nat)
    requires DecodeHead(bs) == Some(Header(major, v, size))
    ensures v < TwoTo64 && |Head(major, v)| <= size
  {
    Pow256Values();
    var info := bs[0] % 32;
    if info >= 24 {
      assert v < Pow256(InfoWidth(info));
    }
  }

  // ---------------------------------------------------------------------------
  // Integers, tags and simple values.

  /** Major type 0 for a non-negative integer, major type 1 with argument -1-n for a negative one. */
  function EncodeInt(n: int): (r: seq<Byte>)
    requires -TwoTo64 <= n < TwoTo64
    ensures n >= 0 ==> r == Head(0, n)
    ensures n < 0 ==> r == Head(1, -1 - n)
  {
    if n >= 0 then Head(0, n) else Head(1, -1 - n)
  }

  /** The integer a head of major type 0 or 1 stands for. */
  function DecodeInt(bs: seq<Byte>): Option<int>
  {
    var h := DecodeHead(bs);
    if h.Some? && h.value.major == 0 then Some(h.value.arg)
    else if h.Some? && h.value.major == 1 then Some(-1 - h.value.arg)
    else None
  }

  lemma {:induction false} IntRoundTrip(n: int, rest: seq<Byte>)
    requires -TwoTo64 <= n < TwoTo64
    ensures DecodeInt(EncodeInt(n) + rest) == Some(n)
  {
    if n >= 0 {
      HeadRoundTrip(0, n, rest);
    } else {
      HeadRoundTrip(1, -1 - n, rest);
    }
  }

  /** A tag of major type 6 (RFC 8949 section 3.4). */
  function EncodeTag(t: nat): seq<Byte>
    requires t < TwoTo64
  {
    Head(6, t)
  }

  /** A tag reads back as itself, whatever item follows it. */
  lemma {:induction false} TagRoundTrip(t: nat, rest: seq<Byte>)
    requires t < TwoTo64
    ensures DecodeHead(EncodeTag(t) + rest) == Some(Header(6, t, |EncodeTag(t)|))
  {
    HeadRoundTrip(6, t, rest);
  }

  /** A simple value below 24 (RFC 8949 section 3.3): the one-byte head of major type 7. */
  function EncodeSimple(v: nat): (r: seq<Byte>)
    requires v < 24
    ensures r == Head(7, v) && |r| == 1
  {
    [0xe0 + v]
  }

  /**
   * Every one-byte simple value reads back as itself, whatever item follows.
   * The encoder writes false, true, null and undefined as 20, 21, 22 and 23.
   */
  lemma {:induction false} SimpleValues(v: nat, rest: seq<Byte>)
    requires v < 24
    ensures DecodeHead(EncodeSimple(v) + rest) == Some(Header(7, v, 1))
  {
    HeadRoundTrip(7, v, rest);
  }

  // ---------------------------------------------------------------------------
  // Strings.

  /** A definite-length string item: the head of major type 2 or 3 and exactly the string's bytes. */
  function EncodeString(major: nat, bytes: seq<Byte>): (r: seq<Byte>)
    requires (major == 2 || major == 3) && |bytes| < TwoTo64
  {
    Head(major, |bytes|) + bytes
  }

  /** Reads a definite-length string item of major type `major`: its bytes and the number of bytes it took. */
  function DecodeString(major: nat, bs: seq<Byte>): Option<(seq<Byte>, nat)>
  {
    var h := DecodeHead(bs);
    if h.Some? && h.value.major == major && h.value.size + h.value.arg <= |bs| then
      Some((bs[h.value.size..h.value.size + h.value.arg], h.value.size + h.value.arg))
    else None
  }

  lemma {:induction false} StringRoundTrip(major: nat, bytes: seq<Byte>, rest: seq<Byte>)
    requires (major == 2 || major == 3) && |bytes| < TwoTo64
    ensures DecodeString(major, EncodeString(major, bytes) + rest) == Some((bytes, |EncodeString(major, bytes)|))
  {
    var h := Head(major, |bytes|);
    assert EncodeString(major, bytes) + rest == h + (bytes + rest);
    HeadRoundTrip(major, |bytes|, bytes + rest);
    assert (h + (bytes + rest))[|h|..|h| + |bytes|] == bytes;
  }
}
