/**
 * The CBOR encoder: a visitor that serialises events to a byte sink following
 * RFC 8949, keeping a stack of open containers whose declared lengths are
 * checked when they close, and (optionally) packing repeated strings as
 * stringrefs.
 */
module CborEncoding {
  import opened Events
  import opened CborHead

  /** A byte string whose length fits the 64-bit argument of a head. */
  type ByteString = s: seq<Byte> | |s| < TwoTo64

  datatype CborErrc =
    | MaxNestingDepthExceeded | TooFewItems | TooManyItems | InvalidUtf8TextString
    | InvalidDecimalFraction | InvalidBigfloat
    /** The library's integer conversion: text that is not an integer, or one outside 64 bits. */
    | IntegerInvalid | IntegerOutOfRange

  datatype Status = Ok | Error(code: CborErrc)

  datatype CborEncodeOptions = CborEncodeOptions(packStrings: bool, maxNestingDepth: int)

  /**
   * The bytes of a text string: each code unit as the octet it holds. The
   * library's text is made of 8-bit `char` units; a unit above 0xFF, which it
   * cannot hold, keeps only its low octet here.
   */
  function Units(s: string): (r: seq<Byte>)
    ensures |r| == |s|
    ensures forall i :: 0 <= i < |s| ==> r[i] == s[i] as int % 256
  {
    if s == [] then [] else [s[0] as int % 256] + Units(s[1..])
  }

  /** Octets read back as 8-bit code units. */
  function Chars(b: seq<Byte>): (s: string)
    ensures |s| == |b| && forall i :: 0 <= i < |b| ==> s[i] as int == b[i]
  {
    if b == [] then [] else [b[0] as char] + Chars(b[1..])
  }

  lemma ModSmall(x: int)
    requires 0 <= x < 256
    ensures x % 256 == x
  {
  }

  /** On text of 8-bit units, writing the units and reading them back is the identity. */
  lemma UnitsRoundTrip(s: string)
    requires forall i :: 0 <= i < |s| ==> s[i] as int < 256
    ensures Chars(Units(s)) == s
  {
    var t := Chars(Units(s));
    forall i | 0 <= i < |s|
      ensures t[i] == s[i]
    {
      var x := s[i] as int;
      assert 0 <= x < 256;
      ModSmall(x);
      assert t[i] as int == x;
    }
  }

  /** Reading octets as units and writing them back is the identity. */
  lemma CharsRoundTrip(b: seq<Byte>)
    ensures Units(Chars(b)) == b
  {
    var u := Units(Chars(b));
    forall i | 0 <= i < |b|
      ensures u[i] == b[i]
    {
      assert u[i] == Chars(b)[i] as int % 256;
    }
  }

  /** Two's complement wrap-around to 64 bits. */
  function Wrap64(x: int): (r: int)
    ensures IsInt64(r) && (IsInt64(x) ==> r == x)
  {
    var m := x % TwoTo64;
    if m >= TwoTo63 then m - TwoTo64 else m
  }

  // ---------------------------------------------------------------------------
  // Integer text.

  predicate IsRadixDigit(c: char, radix: nat)
  {
    '0' <= c <= '9' || (radix == 16 && ('a' <= c <= 'f' || 'A' <= c <= 'F'))
  }

  function DigitValue(c: char): nat
  {
    if '0' <= c <= '9' then c as nat - '0' as nat
    else if 'a' <= c <= 'f' then c as nat - 'a' as nat + 10
    else if 'A' <= c <= 'F' then c as nat - 'A' as nat + 10
    else 0
  }

  /** The value of a run of digits in base `radix`, most significant first. */
  function Magnitude(s: string, radix: nat): nat
  {
    if s == [] then 0 else Magnitude(s[..|s| - 1], radix) * radix + DigitValue(s[|s| - 1])
  }

  predicate AllRadixDigits(s: string, radix: nat) { forall i :: 0 <= i < |s| ==> IsRadixDigit(s[i], radix) }

  /** Integer text: an optional minus sign and at least one digit of the radix. */
  predicate IsIntegerText(s: string, radix: nat)
  {
    var digits := if |s| > 0 && s[0] == '-' then s[1..] else s;
    digits != [] && AllRadixDigits(digits, radix)
  }

  /** The value of integer text, of any size. */
  function IntegerValue(s: string, radix: nat): int
    requires IsIntegerText(s, radix)
  {
    if s[0] == '-' then -(Magnitude(s[1..], radix) as int) else Magnitude(s, radix)
  }

  datatype IntegerParse = Parsed(value: int) | OutOfRange | Malformed

  /** The library's conversion of integer text to a 64-bit signed integer. */
  function ParseInteger(s: string, radix: nat): (r: IntegerParse)
    ensures r.Parsed? <==> IsIntegerText(s, radix) && IsInt64(IntegerValue(s, radix))
    ensures r.Parsed? ==> r.value == IntegerValue(s, radix)
    ensures r.OutOfRange? <==> IsIntegerText(s, radix) && !IsInt64(IntegerValue(s, radix))
  {
    if !IsIntegerText(s, radix) then Malformed
    else if IsInt64(IntegerValue(s, radix)) then Parsed(IntegerValue(s, radix))
    else OutOfRange
  }

  // ---------------------------------------------------------------------------
  // Decimal fractions and big floats as text.

  /**
   * The phases of the scan of a decimal fraction (`-12.5`, `3e-4`) or a big
   * float in hexadecimal (`-0x1.8p3`): `ExpectZero` and `ExpectX` read the
   * `0x` prefix of a big float.
   */
  datatype ScalePhase = Start | ExpectZero | ExpectX | Integer | Exp1 | Exp2 | Fraction1

  /** What the scan gathers: the mantissa's sign and digits, the exponent's text, and the scale the fraction digits give. */
  datatype Scaled = Scaled(mantissa: string, exponent: string, scale: int)

  const NoScale := Scaled([], [], 0)

  /** One character of the scan; `None` rejects the text. A big float's fraction digit is worth four binary places. */
  function ScaleStep(hex: bool, p: ScalePhase, c: char, acc: Scaled): (r: Option<(ScalePhase, Scaled)>)
    // a character is kept at most once, at the end of the mantissa or of the exponent
    ensures r.Some? ==> acc.mantissa <= r.value.1.mantissa && acc.exponent <= r.value.1.exponent
    ensures r.Some? ==> |r.value.1.mantissa| + |r.value.1.exponent| <= |acc.mantissa| + |acc.exponent| + 1
    ensures r.Some? && |r.value.1.mantissa| > |acc.mantissa| ==> r.value.1.mantissa[|acc.mantissa|] == c
    ensures r.Some? && |r.value.1.exponent| > |acc.exponent| ==> r.value.1.exponent[|acc.exponent|] == c
    // only a fraction digit moves the scale, by one decimal or four binary places
    ensures r.Some? ==> r.value.1.scale == acc.scale - (if p == Fraction1 then (if hex then 4 else 1) else 0)
    // after the point and inside the exponent only digits of the radix are read
    ensures p == Fraction1 || p == Exp2 ==> (r.Some? <==> IsRadixDigit(c, if hex then 16 else 10))
    // once the exponent has begun the mantissa is final
    ensures r.Some? && (r.value.0 == Exp1 || r.value.0 == Exp2) ==> r.value.1.mantissa == acc.mantissa
  {
    var radix := if hex then 16 else 10;
    match p
    case Start =>
      if !hex && (c == '-' || IsRadixDigit(c, 10)) then Some((Integer, acc.(mantissa := acc.mantissa + [c])))
      else if hex && c == '-' then Some((ExpectZero, acc.(mantissa := acc.mantissa + [c])))
      else if hex && c == '0' then Some((ExpectX, acc))
      else None
    case ExpectZero => if hex && c == '0' then Some((ExpectX, acc)) else None
    case ExpectX => if hex && (c == 'x' || c == 'X') then Some((Integer, acc)) else None
    case Integer =>
      if IsRadixDigit(c, radix) then Some((Integer, acc.(mantissa := acc.mantissa + [c])))
      else if (if hex then c == 'p' || c == 'P' else c == 'e' || c == 'E') then Some((Exp1, acc))
      else if c == '.' then Some((Fraction1, acc))
      else None
    case Exp1 =>
      if c == '+' then Some((Exp2, acc))
      else if c == '-' || IsRadixDigit(c, radix) then Some((Exp2, acc.(exponent := acc.exponent + [c])))
      else None
    case Exp2 => if IsRadixDigit(c, radix) then Some((Exp2, acc.(exponent := acc.exponent + [c]))) else None
    case Fraction1 =>
      if IsRadixDigit(c, radix) then Some((Fraction1, acc.(mantissa := acc.mantissa + [c], scale := acc.scale - (if hex then 4 else 1))))
      else None
  }

  /** The scan over the rest `s` of the text from phase `p`. */
  function ScanScaled(hex: bool, p: ScalePhase, s: string, acc: Scaled): Option<Scaled>
    decreases |s|
  {
    if s == [] then Some(acc)
    else match ScaleStep(hex, p, s[0], acc)
      case None => None
      case Some(next) => ScanScaled(hex, next.0, s[1..], next.1)
  }

  /**
   * A scan only extends the mantissa and the exponent gathered so far, keeps
   * no more characters than it reads, and only lowers the scale (by a
   * multiple of four in a big float).
   */
  lemma {:induction false} ScanScaledExtends(hex: bool, p: ScalePhase, s: string, acc: Scaled)
    ensures var r := ScanScaled(hex, p, s, acc);
      r.Some? ==>
        acc.mantissa <= r.value.mantissa && acc.exponent <= r.value.exponent &&
        |r.value.mantissa| + |r.value.exponent| <= |acc.mantissa| + |acc.exponent| + |s| &&
        r.value.scale <= acc.scale && (hex ==> (acc.scale - r.value.scale) % 4 == 0)
    decreases |s|
  {
    if s != [] {
      var step := ScaleStep(hex, p, s[0], acc);
      if step.Some? {
        ScanScaledExtends(hex, step.value.0, s[1..], step.value.1);
      }
    }
  }

  predicate AllDigits(s: string) { AllRadixDigits(s, 10) }

  lemma {:induction false} ScanDigits(hex: bool, p: ScalePhase, d: string, acc: Scaled, rest: string)
    requires p == Integer || p == Fraction1
    requires AllRadixDigits(d, if hex then 16 else 10)
    ensures ScanScaled(hex, p, d + rest, acc) ==
      ScanScaled(hex, p, rest, acc.(mantissa := acc.mantissa + d,
                                   scale := acc.scale - (if p == Fraction1 then (if hex then 4 else 1) * |d| else 0)))
    decreases |d|
  {
    if d != [] {
      assert (d + rest)[0] == d[0] && (d + rest)[1..] == d[1..] + rest;
      var acc' := acc.(mantissa := acc.mantissa + [d[0]], scale := acc.scale - (if p == Fraction1 then (if hex then 4 else 1) else 0));
      ScanDigits(hex, p, d[1..], acc', rest);
      assert acc.mantissa + [d[0]] + d[1..] == acc.mantissa + d;
    } else {
      assert d + rest == rest && acc.mantissa + d == acc.mantissa;
    }
  }

  lemma {:induction false} ScanExponentDigits(hex: bool, d: string, acc: Scaled)
    requires AllRadixDigits(d, if hex then 16 else 10)
    ensures ScanScaled(hex, Exp2, d, acc) == Some(acc.(exponent := acc.exponent + d))
    decreases |d|
  {
    if d != [] {
      ScanExponentDigits(hex, d[1..], acc.(exponent := acc.exponent + [d[0]]));
      assert acc.exponent + [d[0]] + d[1..] == acc.exponent + d;
    } else {
      assert acc.exponent + d == acc.exponent;
    }
  }

  /** The first step of a decimal scan over a sign or a digit, then the rest of the integer digits. */
  lemma {:induction false} ScanIntegerPart(sign: string, i: string, rest: string)
    requires sign == [] || sign == "-"
    requires i != [] && AllDigits(i)
    ensures ScanScaled(false, Start, sign + i + rest, NoScale) == ScanScaled(false, Integer, rest, Scaled(sign + i, [], 0))
  {
    var s := sign + i + rest;
    var first := (sign + i)[0];
    var afterFirst := (sign + i)[1..];
    assert s[0] == first && s[1..] == afterFirst + rest;
    assert first == (if sign == [] then i[0] else '-') && [] + [first] == [first];
    assert ScaleStep(false, Start, first, NoScale) == Some((Integer, Scaled([first], [], 0)));
    assert ScanScaled(false, Start, s, NoScale) == ScanScaled(false, Integer, afterFirst + rest, Scaled([first], [], 0));
    assert AllDigits(afterFirst);
    ScanDigits(false, Integer, afterFirst, Scaled([first], [], 0), rest);
    assert [first] + afterFirst == sign + i;
  }

  /** `[-]digits.digits`: the mantissa is all the digits and the scale minus the number of fraction digits. */
  lemma {:induction false} DecimalWithFraction(sign: string, i: string, f: string)
    requires sign == [] || sign == "-"
    requires i != [] && AllDigits(i) && AllDigits(f)
    ensures ScanScaled(false, Start, sign + i + "." + f, NoScale) == Some(Scaled(sign + i + f, [], -|f|))
  {
    assert sign + i + "." + f == sign + i + ("." + f);
    ScanIntegerPart(sign, i, "." + f);
    var acc := Scaled(sign + i, [], 0);
    assert ("." + f)[0] == '.' && ("." + f)[1..] == f + [];
    assert ScanScaled(false, Integer, "." + f, acc) == ScanScaled(false, Fraction1, f + [], acc);
    ScanDigits(false, Fraction1, f, acc, []);
  }

  /** After the exponent marker: an optional sign, of which only a minus is kept, then the digits. */
  lemma {:induction false} ScanExponentPart(esign: string, x: string, acc: Scaled)
    requires esign == [] || esign == "+" || esign == "-"
    requires x != [] && AllDigits(x) && acc.exponent == []
    ensures ScanScaled(false, Exp1, esign + x, acc) == Some(acc.(exponent := (if esign == "-" then "-" else []) + x))
  {
    var ex := esign + x;
    if esign == [] {
      assert ex == x && [] + [x[0]] == [x[0]];
      assert ScaleStep(false, Exp1, x[0], acc) == Some((Exp2, acc.(exponent := [x[0]])));
      ScanExponentDigits(false, x[1..], acc.(exponent := [x[0]]));
      assert [x[0]] + x[1..] == x;
    } else if esign == "-" {
      assert ex[0] == '-' && ex[1..] == x && [] + ['-'] == "-";
      ScanExponentDigits(false, x, acc.(exponent := "-"));
    } else {
      assert ex[0] == '+' && ex[1..] == x;
      ScanExponentDigits(false, x, acc);
      assert [] + x == x;
    }
  }

  /** `[-]digits e [+|-]digits`: the mantissa is the integer part and the exponent text keeps its minus sign. */
  lemma {:induction false} DecimalWithExponent(sign: string, i: string, e: char, esign: string, x: string)
    requires sign == [] || sign == "-"
    requires i != [] && AllDigits(i) && (e == 'e' || e == 'E')
    requires esign == [] || esign == "+" || esign == "-"
    requires x != [] && AllDigits(x)
    ensures ScanScaled(false, Start, sign + i + [e] + esign + x, NoScale) ==
      Some(Scaled(sign + i, (if esign == "-" then "-" else []) + x, 0))
  {
    var tail := [e] + (esign + x);
    assert sign + i + [e] + esign + x == sign + i + tail;
    ScanIntegerPart(sign, i, tail);
    var acc := Scaled(sign + i, [], 0);
    assert tail[0] == e && tail[1..] == esign + x;
    assert ScanScaled(false, Integer, tail, acc) == ScanScaled(false, Exp1, esign + x, acc);
    ScanExponentPart(esign, x, acc);
  }

  /**
   * A fraction followed by an exponent is refused, as in `1.5e3`: after the
   * point only digits are read, so the exponent marker ends the scan.
   */
  lemma {:induction false} FractionThenExponentRejected(sign: string, i: string, f: string, e: char, rest: string)
    requires sign == [] || sign == "-"
    requires i != [] && AllDigits(i) && AllDigits(f) && (e == 'e' || e == 'E')
    ensures ScanScaled(false, Start, sign + i + "." + f + [e] + rest, NoScale) == None
  {
    var tail := "." + (f + ([e] + rest));
    assert sign + i + "." + f + [e] + rest == sign + i + tail;
    ScanIntegerPart(sign, i, tail);
    var acc := Scaled(sign + i, [], 0);
    assert tail[0] == '.' && tail[1..] == f + ([e] + rest);
    assert ScanScaled(false, Integer, tail, acc) == ScanScaled(false, Fraction1, f + ([e] + rest), acc);
    ScanDigits(false, Fraction1, f, acc, [e] + rest);
    var acc' := acc.(mantissa := acc.mantissa + f, scale := acc.scale - |f|);
    assert ([e] + rest)[0] == e && ScaleStep(false, Fraction1, e, acc') == None;
  }

  /** A trailing exponent marker with nothing after it, as in `12e`, is accepted as if absent. */
  lemma {:induction false} EmptyExponentAccepted(sign: string, i: string, e: char)
    requires sign == [] || sign == "-"
    requires i != [] && AllDigits(i) && (e == 'e' || e == 'E')
    ensures ScanScaled(false, Start, sign + i + [e], NoScale) == Some(Scaled(sign + i, [], 0))
  {
    ScanIntegerPart(sign, i, [e]);
    var acc := Scaled(sign + i, [], 0);
    assert ScaleStep(false, Integer, e, acc) == Some((Exp1, acc));
    assert [e][1..] == [];
  }

  /** A trailing point with nothing after it, as in `1.`, is accepted as if absent. */
  lemma {:induction false} EmptyFractionAccepted(sign: string, i: string)
    requires sign == [] || sign == "-"
    requires i != [] && AllDigits(i)
    ensures ScanScaled(false, Start, sign + i + ".", NoScale) == Some(Scaled(sign + i, [], 0))
  {
    DecimalWithFraction(sign, i, []);
    assert sign + i + "." + [] == sign + i + "." && sign + i + [] == sign + i;
  }

  // ---------------------------------------------------------------------------
  // The items the encoder writes.

  /** A bignum (RFC 8949 section 3.4.3): tag 2 over the magnitude, or tag 3 over -1-n for a negative n. */
  function EncodeBignum(n: int, magnitudeBytes: nat -> ByteString): seq<Byte>
  {
    var m := if n < 0 then -1 - n else n;
    EncodeTag(if n < 0 then 3 else 2) + EncodeString(2, magnitudeBytes(m))
  }

  /** The integer a bignum item stands for, when its byte string holds its magnitude big-endian. */
  function DecodeBignum(bs: seq<Byte>): Option<int>
  {
    var t := DecodeHead(bs);
    if t.None? || t.value.major != 6 || !(t.value.arg == 2 || t.value.arg == 3) then None
    else
      var b := DecodeString(2, bs[t.value.size..]);
      if b.None? then None
      else if t.value.arg == 2 then Some(FromBigEndian(b.value.0))
      else Some(-1 - FromBigEndian(b.value.0))
  }

  lemma {:induction false} BignumRoundTrip(n: int, magnitudeBytes: nat -> ByteString, rest: seq<Byte>)
    requires FromBigEndian(magnitudeBytes(if n < 0 then -1 - n else n)) == (if n < 0 then -1 - n else n)
    ensures DecodeBignum(EncodeBignum(n, magnitudeBytes) + rest) == Some(n)
  {
    var m := if n < 0 then -1 - n else n;
    var t := EncodeTag(if n < 0 then 3 else 2);
    var body := EncodeString(2, magnitudeBytes(m)) + rest;
    assert EncodeBignum(n, magnitudeBytes) + rest == t + body;
    HeadRoundTrip(6, if n < 0 then 3 else 2, body);
    assert (t + body)[|t|..] == body;
    StringRoundTrip(2, magnitudeBytes(m), rest);
  }

  /** A decimal fraction (tag 4) or a big float (tag 5): a two-element array of exponent and mantissa. */
  function EncodeScaled(hex: bool, exponent: int, mantissa: int, big: bool, magnitudeBytes: nat -> ByteString): seq<Byte>
    requires IsInt64(exponent) && (!big ==> IsInt64(mantissa))
  {
    EncodeTag(if hex then 5 else 4) + Head(4, 2) + EncodeInt(exponent) + Mantissa(mantissa, big, magnitudeBytes)
  }

  /** A mantissa within 64 bits is an integer item, one beyond is a bignum. */
  function Mantissa(m: int, big: bool, magnitudeBytes: nat -> ByteString): seq<Byte>
    requires !big ==> IsInt64(m)
  {
    if big then EncodeBignum(m, magnitudeBytes) else EncodeInt(m)
  }

  datatype ScaledResult = Parts(exponent: int, mantissa: int, big: bool) | Fails(code: CborErrc)

  /**
   * The exponent and mantissa a scanned text stands for: the exponent text (in
   * the same radix) added to the scale with 64-bit wrap-around, and the
   * mantissa as a 64-bit integer or, beyond that, as the foreign big-integer
   * parse of its text; or the integer conversion's error.
   */
  function ScaledParts(hex: bool, acc: Scaled, bigintParse: (string, nat) -> int): (r: ScaledResult)
    ensures r.Parts? ==> IsInt64(r.exponent) && (!r.big ==> IsInt64(r.mantissa))
    ensures r.Parts? ==> (IsIntegerText(acc.mantissa, if hex then 16 else 10) &&
      (!r.big ==> r.mantissa == IntegerValue(acc.mantissa, if hex then 16 else 10)))
    ensures r.Fails? <==> (acc.exponent != [] && !ParseInteger(acc.exponent, if hex then 16 else 10).Parsed?)
                          || !IsIntegerText(acc.mantissa, if hex then 16 else 10)
  {
    match ExponentOf(hex, acc)
    case Refused(code) => Fails(code)
    case Converted(exponent) =>
      match ParseInteger(acc.mantissa, if hex then 16 else 10)
      case Malformed => Fails(IntegerInvalid)
      case Parsed(m) => Parts(exponent, m, false)
      case OutOfRange => Parts(exponent, bigintParse(acc.mantissa, if hex then 16 else 10), true)
  }

  datatype Conversion = Converted(value: int) | Refused(code: CborErrc)

  /** The scale plus the value of the exponent text, if any, wrapping at 64 bits; or the conversion's error. */
  function ExponentOf(hex: bool, acc: Scaled): (r: Conversion)
    ensures r.Converted? ==> IsInt64(r.value)
    ensures r.Refused? <==> acc.exponent != [] && !ParseInteger(acc.exponent, if hex then 16 else 10).Parsed?
  {
    if acc.exponent == [] then Converted(Wrap64(acc.scale))
    else match ParseInteger(acc.exponent, if hex then 16 else 10)
      case Malformed => Refused(IntegerInvalid)
      case OutOfRange => Refused(IntegerOutOfRange)
      case Parsed(v) => Converted(Wrap64(acc.scale + v))
  }

  /** Reads back a tag-4 or tag-5 item whose mantissa fits 64 bits: its tag, exponent and mantissa. */
  function DecodeScaled(bs: seq<Byte>): Option<(nat, int, int)>
  {
    var t := DecodeHead(bs);
    if t.None? || t.value.major != 6 then None else DecodeExponentMantissa(t.value.arg, bs[t.value.size..])
  }

  function DecodeExponentMantissa(tag: nat, bs: seq<Byte>): Option<(nat, int, int)>
  {
    var a := DecodeHead(bs);
    if a.None? || a.value.major != 4 || a.value.arg != 2 then None else DecodeIntPair(tag, bs[a.value.size..])
  }

  function DecodeIntPair(tag: nat, bs: seq<Byte>): Option<(nat, int, int)>
  {
    var e := DecodeHead(bs);
    if e.None? then None
    else
      var x := DecodeInt(bs);
      var m := DecodeInt(bs[e.value.size..]);
      if x.Some? && m.Some? then Some((tag, x.value, m.value)) else None
  }

  lemma {:induction false} IntPairRoundTrip(tag: nat, x: int, m: int, rest: seq<Byte>)
    requires IsInt64(x) && IsInt64(m)
    ensures DecodeIntPair(tag, EncodeInt(x) + EncodeInt(m) + rest) == Some((tag, x, m))
  {
    var ex := EncodeInt(x);
    var bs := ex + (EncodeInt(m) + rest);
    assert EncodeInt(x) + EncodeInt(m) + rest == bs;
    IntRoundTrip(x, EncodeInt(m) + rest);
    if x >= 0 { HeadRoundTrip(0, x, EncodeInt(m) + rest); } else { HeadRoundTrip(1, -1 - x, EncodeInt(m) + rest); }
    assert bs[|ex|..] == EncodeInt(m) + rest;
    IntRoundTrip(m, rest);
  }

  lemma {:induction false} ExponentMantissaRoundTrip(tag: nat, x: int, m: int, rest: seq<Byte>)
    requires IsInt64(x) && IsInt64(m)
    ensures DecodeExponentMantissa(tag, Head(4, 2) + (EncodeInt(x) + EncodeInt(m) + rest)) == Some((tag, x, m))
  {
    var a := Head(4, 2);
    var pair := EncodeInt(x) + EncodeInt(m) + rest;
    HeadRoundTrip(4, 2, pair);
    assert (a + pair)[|a|..] == pair;
    IntPairRoundTrip(tag, x, m, rest);
  }

  lemma {:induction false} TaggedRoundTrip(tag: nat, body: seq<Byte>)
    requires tag < TwoTo64
    ensures DecodeScaled(EncodeTag(tag) + body) == DecodeExponentMantissa(tag, body)
  {
    HeadRoundTrip(6, tag, body);
    assert (EncodeTag(tag) + body)[|EncodeTag(tag)|..] == body;
  }

  lemma {:induction false} ScaledRoundTrip(hex: bool, exponent: int, mantissa: int, magnitudeBytes: nat -> ByteString, rest: seq<Byte>)
    requires IsInt64(exponent) && IsInt64(mantissa)
    ensures DecodeScaled(EncodeScaled(hex, exponent, mantissa, false, magnitudeBytes) + rest) ==
      Some((if hex then 5 else 4, exponent, mantissa))
  {
    var tag := if hex then 5 else 4;
    var x := EncodeInt(exponent);
    var m := EncodeInt(mantissa);
    var body := Head(4, 2) + (x + m + rest);
    calc {
      EncodeScaled(hex, exponent, mantissa, false, magnitudeBytes) + rest;
      EncodeTag(tag) + Head(4, 2) + x + m + rest;
      { assert EncodeTag(tag) + Head(4, 2) + x + m + rest == EncodeTag(tag) + body; }
      EncodeTag(tag) + body;
    }
    TaggedRoundTrip(tag, body);
    ExponentMantissaRoundTrip(tag, exponent, mantissa, rest);
  }

  // ---------------------------------------------------------------------------
  // What a decimal fraction stands for.

  function Power(radix: nat, n: nat): nat
  {
    if n == 0 then 1 else radix * Power(radix, n - 1)
  }

  lemma Regroup(a: int, p: int, b: int, r: int, d: int)
    ensures (a * p + b) * r + d == a * (r * p) + (b * r + d)
  {
  }

  lemma {:induction false} MagnitudeConcat(a: string, b: string, radix: nat)
    ensures Magnitude(a + b, radix) == Magnitude(a, radix) * Power(radix, |b|) + Magnitude(b, radix)
    decreases |b|
  {
    if b == [] {
      assert a + b == a;
    } else {
      var b' := b[..|b| - 1];
      assert (a + b)[..|a + b| - 1] == a + b' && (a + b)[|a + b| - 1] == b[|b| - 1];
      MagnitudeConcat(a, b', radix);
      var d := DigitValue(b[|b| - 1]);
      assert Magnitude(a + b, radix) == Magnitude(a + b', radix) * radix + d;
      assert Magnitude(b, radix) == Magnitude(b', radix) * radix + d;
      assert Power(radix, |b|) == radix * Power(radix, |b'|);
      Regroup(Magnitude(a, radix), Power(radix, |b'|), Magnitude(b', radix), radix, d);
    }
  }

  /**
   * `[-]i.f` written as a decimal fraction whose mantissa fits 64 bits: the
   * exponent is minus the number of fraction digits and the mantissa is
   * i * 10^|f| + f with the sign, so mantissa * 10^exponent is the number
   * the text denotes.
   */
  lemma {:induction false} DecimalFractionValue(sign: string, i: string, f: string, bigintParse: (string, nat) -> int)
    requires sign == [] || sign == "-"
    requires i != [] && AllDigits(i) && AllDigits(f) && |f| < TwoTo63
    requires IsInt64(Magnitude(i + f, 10)) && IsInt64(-(Magnitude(i + f, 10) as int))
    ensures ScanScaled(false, Start, sign + i + "." + f, NoScale).Some?
    ensures var r := ScaledParts(false, ScanScaled(false, Start, sign + i + "." + f, NoScale).value, bigintParse);
      r == Parts(-|f|, (if sign == [] then 1 else -1) * (Magnitude(i, 10) * Power(10, |f|) + Magnitude(f, 10)), false)
  {
    DecimalWithFraction(sign, i, f);
    FractionParts(sign, i, f, bigintParse);
  }

  /** The parts of the scan's result for `[-]i.f`. */
  lemma FractionParts(sign: string, i: string, f: string, bigintParse: (string, nat) -> int)
    requires sign == [] || sign == "-"
    requires i != [] && AllDigits(i) && AllDigits(f) && |f| < TwoTo63
    requires IsInt64(Magnitude(i + f, 10)) && IsInt64(-(Magnitude(i + f, 10) as int))
    ensures ScaledParts(false, Scaled(sign + i + f, [], -|f|), bigintParse) ==
      Parts(-|f|, (if sign == [] then 1 else -1) * (Magnitude(i, 10) * Power(10, |f|) + Magnitude(f, 10)), false)
  {
    MagnitudeConcat(i, f, 10);
    SignedConcat(sign, i, f);
    PlainScaledParts(Scaled(sign + i + f, [], -|f|), bigintParse);
  }

  /** The mantissa text of `[-]i.f`: the sign, then the digits of both parts. */
  lemma SignedConcat(sign: string, i: string, f: string)
    requires sign == [] || sign == "-"
    requires i != [] && AllDigits(i) && AllDigits(f)
    ensures IsIntegerText(sign + i + f, 10)
    ensures IntegerValue(sign + i + f, 10) == (if sign == [] then 1 else -1) * (Magnitude(i, 10) * Power(10, |f|) + Magnitude(f, 10))
  {
    assert sign + i + f == sign + (i + f);
    assert AllDigits(i + f);
    MagnitudeConcat(i, f, 10);
    SignedDigits(sign, i + f);
  }

  /** Digits with an optional minus sign are integer text worth the digits' value with that sign. */
  lemma SignedDigits(sign: string, d: string)
    requires sign == [] || sign == "-"
    requires d != [] && AllDigits(d)
    ensures IsIntegerText(sign + d, 10)
    ensures IntegerValue(sign + d, 10) == (if sign == [] then 1 else -1) * Magnitude(d, 10)
  {
    if sign == [] {
      assert sign + d == d && IsRadixDigit(d[0], 10);
    } else {
      assert (sign + d)[0] == '-' && (sign + d)[1..] == d;
    }
  }

  /** With no exponent text and a mantissa that fits, the parts are the scale and the mantissa's value. */
  lemma PlainScaledParts(acc: Scaled, bigintParse: (string, nat) -> int)
    requires acc.exponent == [] && IsInt64(acc.scale)
    requires IsIntegerText(acc.mantissa, 10) && IsInt64(IntegerValue(acc.mantissa, 10))
    ensures ScaledParts(false, acc, bigintParse) == Parts(acc.scale, IntegerValue(acc.mantissa, 10), false)
  {
    assert ExponentOf(false, acc) == Converted(acc.scale);
    assert ParseInteger(acc.mantissa, 10) == Parsed(IntegerValue(acc.mantissa, 10));
  }

  // ---------------------------------------------------------------------------
  // The encoder.

  /** An open container: its kind, its declared length (definite containers) and how many items were written into it. */
  datatype ContainerKind = DefiniteObject | IndefiniteObject | DefiniteArray | IndefiniteArray

  datatype StackItem = StackItem(kind: ContainerKind, length: nat, index: nat)
  {
    predicate IsObject() { kind == DefiniteObject || kind == IndefiniteObject }
    predicate IsIndefinite() { kind == IndefiniteObject || kind == IndefiniteArray }
    /** Members of an object are counted once for the key and once for the value. */
    function Count(): nat { if IsObject() then index / 2 else index }
  }

  /** The head that opens a container. */
  function ContainerStart(kind: ContainerKind, length: nat): seq<Byte>
    requires length < TwoTo64
  {
    match kind
    case IndefiniteObject => [IndefiniteStart(5)]
    case IndefiniteArray => [IndefiniteStart(4)]
    case DefiniteObject => Head(5, length)
    case DefiniteArray => Head(4, length)
  }

  /** Whether a container may close: an indefinite one always, a definite one when exactly its declared number of items was written. */
  function CloseStatus(top: StackItem): (r: Status)
    ensures r == Ok <==> top.IsIndefinite() || top.Count() == top.length
    ensures r == Error(TooFewItems) <==> !top.IsIndefinite() && top.Count() < top.length
    ensures r == Error(TooManyItems) <==> !top.IsIndefinite() && top.Count() > top.length
  {
    if top.IsIndefinite() then Ok
    else if top.Count() < top.length then Error(TooFewItems)
    else if top.Count() > top.length then Error(TooManyItems)
    else Ok
  }

  /** One more item written into the innermost open container, if any. */
  function Bumped(stack: seq<StackItem>): (r: seq<StackItem>)
    ensures |r| == |stack|
    ensures stack == [] ==> r == []
    ensures stack != [] ==>
      r[..|r| - 1] == stack[..|stack| - 1] && r[|r| - 1] == stack[|stack| - 1].(index := stack[|stack| - 1].index + 1)
  {
    if stack == [] then [] else stack[..|stack| - 1] + [stack[|stack| - 1].(index := stack[|stack| - 1].index + 1)]
  }

  /** The stack after `k` items were written, each counted by `Bumped`. */
  function BumpedTimes(stack: seq<StackItem>, k: nat): seq<StackItem>
  {
    if k == 0 then stack else Bumped(BumpedTimes(stack, k - 1))
  }

  /** Writing `k` items into a container just opened leaves the containers below it alone and counts `k` in it. */
  lemma {:induction false} BumpsCountItems(below: seq<StackItem>, kind: ContainerKind, length: nat, k: nat)
    ensures BumpedTimes(below + [StackItem(kind, length, 0)], k) == below + [StackItem(kind, length, k)]
  {
    if k > 0 {
      BumpsCountItems(below, kind, length, k - 1);
      var s := below + [StackItem(kind, length, k - 1)];
      assert s[..|s| - 1] == below;
    }
  }

  /**
   * A definite container opened on top of `below` and then given `k` items:
   * the containers below are untouched, an array closes cleanly exactly
   * after its `length` items, and an object exactly when `k` halved is its
   * `length` (its keys and values, or those and one more key).
   */
  lemma {:induction false} DefiniteClosesAfterItsItems(below: seq<StackItem>, kind: ContainerKind, length: nat, k: nat)
    requires kind == DefiniteArray || kind == DefiniteObject
    ensures var s := BumpedTimes(below + [StackItem(kind, length, 0)], k);
      |s| == |below| + 1 && s[..|below|] == below &&
      (kind == DefiniteArray ==> (CloseStatus(s[|below|]) == Ok <==> k == length)) &&
      (kind == DefiniteObject ==> (CloseStatus(s[|below|]) == Ok <==> k == 2 * length || k == 2 * length + 1))
  {
    BumpsCountItems(below, kind, length, k);
    var s := below + [StackItem(kind, length, k)];
    assert s[..|below|] == below && s[|below|] == StackItem(kind, length, k);
  }

  /** A definite object of `length` members closes cleanly after its keys and values were written, and after nothing else. */
  lemma {:induction false} ObjectClosesAfterItsMembers(below: seq<StackItem>, length: nat, members: nat)
    ensures var s := BumpedTimes(below + [StackItem(DefiniteObject, length, 0)], 2 * members);
      |s| == |below| + 1 && s[..|below|] == below && (CloseStatus(s[|below|]) == Ok <==> members == length)
  {
    DefiniteClosesAfterItsItems(below, DefiniteObject, length, 2 * members);
  }

  /** An entry of the stringref table: a text string or a byte string, numbered in the order first written in full. */
  datatype StringItem = TextItem(text: string) | BytesItem(bytes: seq<Byte>)

  class CborEncoder {
    var sink: seq<Byte>
    var stack: seq<StackItem>
    var stringrefMap: map<string, nat>
    var bytestringrefMap: map<seq<Byte>, nat>
    var nextStringref: nat
    var nestingDepth: int
    /** The stringref table a reader of the output rebuilds: entry k is the k-th string written in full while packing. */
    ghost var refs: seq<StringItem>

    const options: CborEncodeOptions
    /** UTF-8 validation of text, the stringref length threshold for a table of a given size, and a big integer's parse and magnitude bytes: library helpers not part of this model. */
    const validUtf8: string -> bool
    const minLengthForStringref: nat -> nat
    const bigintParse: (string, nat) -> int
    const magnitudeBytes: nat -> ByteString

    /** Both maps number their strings by the one shared counter, and each number names its string in the table. */
    ghost predicate Valid()
      reads this`refs, this`nextStringref, this`stringrefMap, this`bytestringrefMap
    {
      |refs| == nextStringref &&
      (forall t :: t in stringrefMap ==> stringrefMap[t] < |refs| && refs[stringrefMap[t]] == TextItem(t)) &&
      (forall b :: b in bytestringrefMap ==> bytestringrefMap[b] < |refs| && refs[bytestringrefMap[b]] == BytesItem(b))
    }

    /** A packing encoder announces the stringref namespace with tag 256 before anything else. */
    constructor (options: CborEncodeOptions, validUtf8: string -> bool, minLengthForStringref: nat -> nat,
                 bigintParse: (string, nat) -> int, magnitudeBytes: nat -> ByteString)
      ensures Valid() && this.options == options && this.validUtf8 == validUtf8
      ensures this.minLengthForStringref == minLengthForStringref
      ensures this.bigintParse == bigintParse && this.magnitudeBytes == magnitudeBytes
      ensures stack == [] && stringrefMap == map[] && bytestringrefMap == map[] && nextStringref == 0 && nestingDepth == 0
      ensures sink == if options.packStrings then EncodeTag(256) else []
    {
      this.options := options;
      this.validUtf8 := validUtf8;
      this.minLengthForStringref := minLengthForStringref;
      this.bigintParse := bigintParse;
      this.magnitudeBytes := magnitudeBytes;
      sink := [];
      stack := [];
      stringrefMap := map[];
      bytestringrefMap := map[];
      nextStringref := 0;
      nestingDepth := 0;
      refs := [];
      new;
      if options.packStrings {
        WriteTag(256);
      }
    }

    /** Forgets the open containers and the stringref table; the output written so far stays. */
    method Reset()
      modifies this`stack, this`stringrefMap, this`bytestringrefMap, this`nextStringref, this`nestingDepth, this`refs
      ensures Valid()
      ensures stack == [] && stringrefMap == map[] && bytestringrefMap == map[] && nextStringref == 0 && nestingDepth == 0
    {
      stack := [];
      stringrefMap := map[];
      bytestringrefMap := map[];
      nextStringref := 0;
      nestingDepth := 0;
      refs := [];
    }

    /** Reset onto a new sink. */
    method ResetWith(newSink: seq<Byte>)
      modifies this`sink, this`stack, this`stringrefMap, this`bytestringrefMap, this`nextStringref, this`nestingDepth, this`refs
      ensures Valid() && sink == newSink
      ensures stack == [] && stringrefMap == map[] && bytestringrefMap == map[] && nextStringref == 0 && nestingDepth == 0
    {
      sink := newSink;
      Reset();
    }

    // -------------------------------------------------------------------------
    // Heads.

    /** The shortest head: the argument in the initial byte up to 0x17, else in 1, 2, 4 or 8 following bytes. */
    method WriteHead(major: nat, v: nat)
      requires major < 8 && v < TwoTo64
      modifies this`sink
      ensures sink == old(sink) + Head(major, v)
    {
      if v <= 0x17 {
        sink := sink + [major * 32 + v];
      } else {
        var w := ArgumentWidth(v);
        HeadSplit(major, v);
        sink := sink + [major * 32 + WidthInfo(w)];
        PushAll(BigEndian(v, w));
      }
    }

    method WriteTag(t: nat)
      requires t < TwoTo64
      modifies this`sink
      ensures sink == old(sink) + EncodeTag(t)
    {
      WriteHead(6, t);
    }

    method WriteUint64Value(v: nat)
      requires v < TwoTo64
      modifies this`sink
      ensures sink == old(sink) + EncodeInt(v)
    {
      WriteHead(0, v);
    }

    /** Major type 0 for a non-negative value; major type 1 with argument -1-v for a negative one. */
    method WriteInt64Value(v: int)
      requires IsInt64(v)
      modifies this`sink
      ensures sink == old(sink) + EncodeInt(v)
    {
      if v >= 0 {
        WriteHead(0, v);
      } else {
        WriteHead(1, -1 - v);
      }
    }

    /** Appends each byte in order. */
    method PushAll(bytes: seq<Byte>)
      modifies this`sink
      ensures sink == old(sink) + bytes
    {
      var i := 0;
      while i < |bytes|
        invariant i <= |bytes|
        invariant sink == old(sink) + bytes[..i]
      {
        assert bytes[..i + 1] == bytes[..i] + [bytes[i]];
        sink := sink + [bytes[i]];
        i := i + 1;
      }
      assert bytes[..i] == bytes;
    }

    method WriteUtf8String(text: string)
      requires |text| < TwoTo64
      modifies this`sink
      ensures sink == old(sink) + EncodeString(3, Units(text))
    {
      WriteHead(3, |text|);
      PushAll(Units(text));
    }

    method WriteByteString(bytes: ByteString)
      modifies this`sink
      ensures sink == old(sink) + EncodeString(2, bytes)
    {
      WriteHead(2, |bytes|);
      PushAll(bytes);
    }

    /** Tag 3 over the bytes of -1-n for a negative n, tag 2 over those of n otherwise. */
    method WriteBignum(n: int)
      modifies this`sink
      ensures sink == old(sink) + EncodeBignum(n, magnitudeBytes)
    {
      var m := if n < 0 then -1 - n else n;
      WriteTag(if n < 0 then 3 else 2);
      WriteByteString(magnitudeBytes(m));
    }

    // -------------------------------------------------------------------------
    // Containers.

    method EndValue()
      modifies this`stack
      ensures stack == Bumped(old(stack))
    {
      if |stack| > 0 {
        stack := stack[..|stack| - 1] + [stack[|stack| - 1].(index := stack[|stack| - 1].index + 1)];
      }
    }

    /** Counts one more level of nesting, then refuses it beyond the maximum or pushes the container and writes its head. */
    method OpenContainer(kind: ContainerKind, length: nat) returns (st: Status)
      requires length < TwoTo64
      modifies this`nestingDepth, this`stack, this`sink
      ensures nestingDepth == old(nestingDepth) + 1
      ensures nestingDepth > options.maxNestingDepth ==>
        st == Error(MaxNestingDepthExceeded) && stack == old(stack) && sink == old(sink)
      ensures nestingDepth <= options.maxNestingDepth ==>
        st == Ok && stack == old(stack) + [StackItem(kind, length, 0)] && sink == old(sink) + ContainerStart(kind, length)
    {
      nestingDepth := nestingDepth + 1;
      if nestingDepth > options.maxNestingDepth {
        return Error(MaxNestingDepthExceeded);
      }
      stack := stack + [StackItem(kind, length, 0)];
      match kind {
        case IndefiniteObject => sink := sink + [0xbf];
        case IndefiniteArray => sink := sink + [0x9f];
        case DefiniteObject => WriteHead(5, length);
        case DefiniteArray => WriteHead(4, length);
      }
      st := Ok;
    }

    /** An object of the given length, or of indefinite length. */
    method VisitBeginObject(length: Option<nat>) returns (st: Status)
      requires length.Some? ==> length.value < TwoTo64
      modifies this`nestingDepth, this`stack, this`sink
      ensures nestingDepth == old(nestingDepth) + 1
      ensures var kind := if length.Some? then DefiniteObject else IndefiniteObject;
        var n := if length.Some? then length.value else 0;
        if nestingDepth > options.maxNestingDepth
        then st == Error(MaxNestingDepthExceeded) && stack == old(stack) && sink == old(sink)
        else st == Ok && stack == old(stack) + [StackItem(kind, n, 0)] && sink == old(sink) + ContainerStart(kind, n)
    {
      if length.Some? {
        st := OpenContainer(DefiniteObject, length.value);
      } else {
        st := OpenContainer(IndefiniteObject, 0);
      }
    }

    method VisitBeginArray(length: Option<nat>) returns (st: Status)
      requires length.Some? ==> length.value < TwoTo64
      modifies this`nestingDepth, this`stack, this`sink
      ensures nestingDepth == old(nestingDepth) + 1
      ensures var kind := if length.Some? then DefiniteArray else IndefiniteArray;
        var n := if length.Some? then length.value else 0;
        if nestingDepth > options.maxNestingDepth
        then st == Error(MaxNestingDepthExceeded) && stack == old(stack) && sink == old(sink)
        else st == Ok && stack == old(stack) + [StackItem(kind, n, 0)] && sink == old(sink) + ContainerStart(kind, n)
    {
      if length.Some? {
        st := OpenContainer(DefiniteArray, length.value);
      } else {
        st := OpenContainer(IndefiniteArray, 0);
      }
    }

    /**
     * Closes the innermost container, whichever kind it is: an indefinite one
     * gets the break byte; a definite one must hold exactly its declared
     * number of items, or it stays open. Closing counts as one item of the
     * enclosing container.
     */
    method CloseContainer() returns (st: Status)
      requires |stack| > 0
      modifies this`nestingDepth, this`stack, this`sink
      ensures nestingDepth == old(nestingDepth) - 1
      ensures st == CloseStatus(old(stack[|stack| - 1]))
      ensures st == Ok ==> stack == Bumped(old(stack[..|stack| - 1])) &&
                           sink == old(sink) + (if old(stack[|stack| - 1]).IsIndefinite() then [Break] else [])
      ensures st != Ok ==> stack == old(stack) && sink == old(sink)
    {
      nestingDepth := nestingDepth - 1;
      var top := stack[|stack| - 1];
      if top.IsIndefinite() {
        sink := sink + [Break];
      } else if top.Count() < top.length {
        return Error(TooFewItems);
      } else if top.Count() > top.length {
        return Error(TooManyItems);
      }
      stack := stack[..|stack| - 1];
      EndValue();
      st := Ok;
    }

    method VisitEndObject() returns (st: Status)
      requires |stack| > 0
      modifies this`nestingDepth, this`stack, this`sink
      ensures nestingDepth == old(nestingDepth) - 1
      ensures st == CloseStatus(old(stack[|stack| - 1]))
      ensures st == Ok ==> stack == Bumped(old(stack[..|stack| - 1])) &&
                           sink == old(sink) + (if old(stack[|stack| - 1]).IsIndefinite() then [Break] else [])
      ensures st != Ok ==> stack == old(stack) && sink == old(sink)
    {
      st := CloseContainer();
    }

    method VisitEndArray() returns (st: Status)
      requires |stack| > 0
      modifies this`nestingDepth, this`stack, this`sink
      ensures nestingDepth == old(nestingDepth) - 1
      ensures st == CloseStatus(old(stack[|stack| - 1]))
      ensures st == Ok ==> stack == Bumped(old(stack[..|stack| - 1])) &&
                           sink == old(sink) + (if old(stack[|stack| - 1]).IsIndefinite() then [Break] else [])
      ensures st != Ok ==> stack == old(stack) && sink == old(sink)
    {
      st := CloseContainer();
    }

    // -------------------------------------------------------------------------
    // Simple values and integers.

    /** Undefined is simple value 23, every other null simple value 22. */
    method VisitNull(tag: SemanticTag)
      modifies this`sink, this`stack
      ensures sink == old(sink) + EncodeSimple(if tag == Undefined then 23 else 22)
      ensures stack == Bumped(old(stack))
    {
      if tag == Undefined {
        sink := sink + [0xf7];
      } else {
        sink := sink + [0xf6];
      }
      EndValue();
    }

    /** True is simple value 21, false simple value 20. */
    method VisitBool(b: bool)
      modifies this`sink, this`stack
      ensures sink == old(sink) + EncodeSimple(if b then 21 else 20)
      ensures stack == Bumped(old(stack))
    {
      if b {
        sink := sink + [0xf5];
      } else {
        sink := sink + [0xf4];
      }
      EndValue();
    }

    /** Epoch seconds carry tag 1 before the integer. */
    method VisitUint64(v: nat, tag: SemanticTag)
      requires v < TwoTo64 && tag != EpochMilli && tag != EpochNano
      modifies this`sink, this`stack
      ensures sink == old(sink) + (if tag == EpochSecond then EncodeTag(1) else []) + EncodeInt(v)
      ensures stack == Bumped(old(stack))
    {
      ghost var written: seq<Byte> := [];
      if tag == EpochSecond {
        WriteTag(1);
        written := EncodeTag(1);
      }
      assert sink == old(sink) + written;
      WriteUint64Value(v);
      EndValue();
    }

    method VisitInt64(v: int, tag: SemanticTag)
      requires IsInt64(v) && tag != EpochMilli && tag != EpochNano
      modifies this`sink, this`stack
      ensures sink == old(sink) + (if tag == EpochSecond then EncodeTag(1) else []) + EncodeInt(v)
      ensures stack == Bumped(old(stack))
    {
      ghost var written: seq<Byte> := [];
      if tag == EpochSecond {
        WriteTag(1);
        written := EncodeTag(1);
      }
      assert sink == old(sink) + written;
      WriteInt64Value(v);
      EndValue();
    }
 
    // -------------------------------------------------------------------------
    // Strings and stringrefs.

    /** Whether a string of this length is entered in (or looked up in) the stringref table. */
    predicate Packs(length: nat)
      reads this`nextStringref
    {
      options.packStrings && length >= minLengthForStringref(nextStringref)
    }

    /** The number a repeat of `text` is written as, if packing finds it in the table. */
    function KnownText(text: string): (r: Option<nat>)
      reads this`nextStringref, this`stringrefMap
      ensures r.Some? <==> Packs(|text|) && text in stringrefMap
    {
      if Packs(|text|) && text in stringrefMap then Some(stringrefMap[text]) else None
    }

    /** The number a repeat of `bytes` is written as, if packing finds it in the table. */
    function KnownBytes(bytes: seq<Byte>): (r: Option<nat>)
      reads this`nextStringref, this`bytestringrefMap
      ensures r.Some? <==> Packs(|bytes|) && bytes in bytestringrefMap
    {
      if Packs(|bytes|) && bytes in bytestringrefMap then Some(bytestringrefMap[bytes]) else None
    }

    /** Every number the table hands out names its own string, and fits the 64-bit argument of a head. */
    lemma KnownIsInTable(text: string, bytes: seq<Byte>)
      requires Valid() && nextStringref < TwoTo64
      ensures KnownText(text).Some? ==> KnownText(text).value < TwoTo64 && refs[KnownText(text).value] == TextItem(text)
      ensures KnownBytes(bytes).Some? ==> KnownBytes(bytes).value < TwoTo64 && refs[KnownBytes(bytes).value] == BytesItem(bytes)
    {
    }

    /** Enters a text string in the table under the next number. */
    method RegisterText(text: string)
      requires Valid() && text !in stringrefMap
      modifies this`stringrefMap, this`nextStringref, this`refs
      ensures Valid()
      ensures stringrefMap == old(stringrefMap)[text := old(nextStringref)] && nextStringref == old(nextStringref) + 1
      ensures refs == old(refs) + [TextItem(text)]
    {
      stringrefMap := stringrefMap[text := nextStringref];
      refs := refs + [TextItem(text)];
      nextStringref := nextStringref + 1;
    }

    /** Enters a byte string in the table under the next number. */
    method RegisterBytes(bytes: seq<Byte>)
      requires Valid() && bytes !in bytestringrefMap
      modifies this`bytestringrefMap, this`nextStringref, this`refs
      ensures Valid()
      ensures bytestringrefMap == old(bytestringrefMap)[bytes := old(nextStringref)] && nextStringref == old(nextStringref) + 1
      ensures refs == old(refs) + [BytesItem(bytes)]
    {
      bytestringrefMap := bytestringrefMap[bytes := nextStringref];
      refs := refs + [BytesItem(bytes)];
      nextStringref := nextStringref + 1;
    }

    /**
     * A text string, or tag 25 with its number when packing finds it in the
     * table; a long enough string not yet in the table is written in full and
     * takes the next number. Text that is not UTF-8 is refused.
     */
    method WriteString(text: string) returns (st: Status)
      requires Valid() && |text| < TwoTo64 && nextStringref + 1 < TwoTo64
      modifies this`sink, this`stringrefMap, this`nextStringref, this`refs
      ensures Valid()
      ensures !validUtf8(text) ==> (st == Error(InvalidUtf8TextString) && sink == old(sink) &&
        stringrefMap == old(stringrefMap) && nextStringref == old(nextStringref) && refs == old(refs))
      ensures validUtf8(text) ==> st == Ok && sink == old(sink) + Packed(3, Units(text), old(KnownText(text)))
      ensures validUtf8(text) && old(Packs(|text|)) && old(KnownText(text)).None? ==>
        stringrefMap == old(stringrefMap)[text := old(nextStringref)] && nextStringref == old(nextStringref) + 1 &&
        refs == old(refs) + [TextItem(text)]
      ensures !(validUtf8(text) && old(Packs(|text|)) && old(KnownText(text)).None?) ==>
        stringrefMap == old(stringrefMap) && nextStringref == old(nextStringref) && refs == old(refs)
    {
      if !validUtf8(text) {
        return Error(InvalidUtf8TextString);
      }
      var known := KnownText(text);
      if known.Some? {
        WriteTag(25);
        WriteUint64Value(known.value);
      } else {
        if Packs(|text|) {
          RegisterText(text);
        }
        WriteUtf8String(text);
      }
      st := Ok;
    }

    /** The same packing for byte strings, in the same numbering. */
    method WriteBytesPacked(bytes: ByteString)
      requires Valid() && nextStringref + 1 < TwoTo64
      modifies this`sink, this`bytestringrefMap, this`nextStringref, this`refs
      ensures Valid()
      ensures sink == old(sink) + Packed(2, bytes, old(KnownBytes(bytes)))
      ensures old(Packs(|bytes|)) && old(KnownBytes(bytes)).None? ==>
        bytestringrefMap == old(bytestringrefMap)[bytes := old(nextStringref)] && nextStringref == old(nextStringref) + 1 &&
        refs == old(refs) + [BytesItem(bytes)]
      ensures !(old(Packs(|bytes|)) && old(KnownBytes(bytes)).None?) ==>
        bytestringrefMap == old(bytestringrefMap) && nextStringref == old(nextStringref) && refs == old(refs)
    {
      var known := KnownBytes(bytes);
      KnownIsInTable([], bytes);
      if known.Some? {
        WriteTag(25);
        WriteUint64Value(known.value);
      } else {
        var packs := Packs(|bytes|);
        if packs {
          RegisterBytes(bytes);
        }
        WriteByteString(bytes);
      }
    }

    /**
     * The stringref tables after a text string is written: with packing on, a
     * long enough string not yet in the table (`enter`) takes the next
     * number; otherwise the tables are left as they were.
     */
    twostate predicate TextTableAfter(text: string, enter: bool)
      reads this
    {
      if enter then
        stringrefMap == old(stringrefMap)[text := old(nextStringref)] && nextStringref == old(nextStringref) + 1 &&
        refs == old(refs) + [TextItem(text)]
      else
        stringrefMap == old(stringrefMap) && nextStringref == old(nextStringref) && refs == old(refs)
    }

    /** The same for a byte string, in the same numbering. */
    twostate predicate BytesTableAfter(bytes: seq<Byte>, enter: bool)
      reads this
    {
      if enter then
        bytestringrefMap == old(bytestringrefMap)[bytes := old(nextStringref)] && nextStringref == old(nextStringref) + 1 &&
        refs == old(refs) + [BytesItem(bytes)]
      else
        bytestringrefMap == old(bytestringrefMap) && nextStringref == old(nextStringref) && refs == old(refs)
    }

    /** A byte string, after tag 21, 22 or 23 when it is meant to be shown as base64url, base64 or base16 text. */
    method VisitByteString(bytes: ByteString, tag: SemanticTag)
      requires Valid() && nextStringref + 1 < TwoTo64
      modifies this`sink, this`stack, this`bytestringrefMap, this`nextStringref, this`refs
      ensures Valid() && stack == Bumped(old(stack))
      ensures sink == old(sink) + TagBytes(ByteStringHint(tag)) + Packed(2, bytes, old(KnownBytes(bytes)))
      ensures BytesTableAfter(bytes, old(Packs(|bytes|)) && old(KnownBytes(bytes)).None?)
    {
      var hint := ByteStringHint(tag);
      if hint.Some? {
        WriteTag(hint.value);
      }
      WriteBytesPacked(bytes);
      EndValue();
    }

    /**
     * A byte string under a raw tag. The tag is written before the packed
     * string whether or not the string is a repeat (the corrected behaviour;
     * see `ExtBytesAsWritten`).
     */
    method VisitByteStringExt(bytes: ByteString, extTag: nat)
      requires Valid() && nextStringref + 1 < TwoTo64 && extTag < TwoTo64
      modifies this`sink, this`stack, this`bytestringrefMap, this`nextStringref, this`refs
      ensures Valid() && stack == Bumped(old(stack))
      ensures sink == old(sink) + EncodeTag(extTag) + Packed(2, bytes, old(KnownBytes(bytes)))
      ensures BytesTableAfter(bytes, old(Packs(|bytes|)) && old(KnownBytes(bytes)).None?)
    {
      WriteTag(extTag);
      WriteBytesPacked(bytes);
      EndValue();
    }

    /** A text string after the tag its semantic tag calls for; no item is counted when the text is refused. */
    method VisitText(text: string, tag: SemanticTag) returns (st: Status)
      requires Valid() && |text| < TwoTo64 && nextStringref + 1 < TwoTo64
      modifies this`sink, this`stack, this`stringrefMap, this`nextStringref, this`refs
      ensures Valid()
      ensures !validUtf8(text) ==>
        st == Error(InvalidUtf8TextString) && sink == old(sink) + TagBytes(TextHint(tag)) && stack == old(stack)
      ensures validUtf8(text) ==> (st == Ok && stack == Bumped(old(stack)) &&
        sink == old(sink) + TagBytes(TextHint(tag)) + Packed(3, Units(text), old(KnownText(text))))
      ensures TextTableAfter(text, validUtf8(text) && old(Packs(|text|)) && old(KnownText(text)).None?)
    {
      var hint := TextHint(tag);
      if hint.Some? {
        WriteTag(hint.value);
      }
      st := WriteString(text);
      if st == Ok {
        EndValue();
      }
    }

    /**
     * A text string under its semantic tag: a big integer as a bignum, a big
     * decimal as a decimal fraction, a big float in hexadecimal as a big
     * float, a date-time, URI, base64url or base64 text after tag 0, 32, 33
     * or 34; any other text as is.
     */
    method VisitString(text: string, tag: SemanticTag) returns (st: Status)
      requires Valid() && |text| < TwoTo64 && nextStringref + 1 < TwoTo64
      modifies this`sink, this`stack, this`stringrefMap, this`nextStringref, this`refs, this`nestingDepth
      ensures Valid()
      ensures tag == Bigint ==> (st == Ok && sink == old(sink) + EncodeBignum(bigintParse(text, 10), magnitudeBytes) &&
        stack == Bumped(old(stack)))
      ensures (tag == Bigdec || tag == Bigfloat) ==> ScaledOutcome(tag == Bigfloat, text, st)
      ensures tag != Bigint && tag != Bigdec && tag != Bigfloat ==>
        nestingDepth == old(nestingDepth) &&
        (!validUtf8(text) ==> st == Error(InvalidUtf8TextString) && sink == old(sink) + TagBytes(TextHint(tag))) &&
        (!validUtf8(text) ==> stack == old(stack)) &&
        (validUtf8(text) ==> (st == Ok && stack == Bumped(old(stack)) &&
          sink == old(sink) + TagBytes(TextHint(tag)) + Packed(3, Units(text), old(KnownText(text)))))
      ensures TextTableAfter(text,
        tag != Bigint && tag != Bigdec && tag != Bigfloat && validUtf8(text) && old(Packs(|text|)) && old(KnownText(text)).None?)
    {
      if tag == Bigint {
        WriteBignum(bigintParse(text, 10));
        EndValue();
        st := Ok;
      } else if tag == Bigdec {
        st := WriteScaledValue(text, false);
      } else if tag == Bigfloat {
        st := WriteScaledValue(text, true);
      } else {
        st := VisitText(text, tag);
      }
    }

    /** A key is written as a text string. */
    method VisitKey(name: string) returns (st: Status)
      requires Valid() && |name| < TwoTo64 && nextStringref + 1 < TwoTo64
      modifies this`sink, this`stack, this`stringrefMap, this`nextStringref, this`refs
      ensures Valid()
      ensures !validUtf8(name) ==> st == Error(InvalidUtf8TextString) && sink == old(sink) && stack == old(stack)
      ensures validUtf8(name) ==> (st == Ok && stack == Bumped(old(stack)) &&
        sink == old(sink) + Packed(3, Units(name), old(KnownText(name))))
      ensures TextTableAfter(name, validUtf8(name) && old(Packs(|name|)) && old(KnownText(name)).None?)
    {
      // The key takes the untagged branch of VisitString.
      ghost var before := sink;
      st := VisitText(name, NoTag);
      assert TagBytes(TextHint(NoTag)) == [] && before + [] == before;
    }

    // -------------------------------------------------------------------------
    // Decimal fractions and big floats.

    /**
     * What writing a big decimal (or, with `hex`, a big float) as text does:
     * text the scan refuses leaves everything as it was; otherwise the tag is
     * written, then the two-element array, unless it would nest too deep; an
     * exponent or mantissa the integer conversion refuses is an error; else
     * the whole item is written and counts as one item of its container.
     */
    twostate predicate ScaledOutcome(hex: bool, text: string, st: Status)
      reads this
    {
      var scan := ScanScaled(hex, Start, text, NoScale);
      if scan.None? then
        st == Error(if hex then InvalidBigfloat else InvalidDecimalFraction) &&
        sink == old(sink) && stack == old(stack) && nestingDepth == old(nestingDepth)
      else ScaledWritten(hex, scan.value, st)
    }

    /** What `WriteScaled` does with a scanned text. */
    twostate predicate ScaledWritten(hex: bool, acc: Scaled, st: Status)
      reads this
    {
      if old(nestingDepth) + 1 > options.maxNestingDepth then
        st == Error(MaxNestingDepthExceeded) && sink == old(sink) + EncodeTag(if hex then 5 else 4) &&
        stack == old(stack) && nestingDepth == old(nestingDepth) + 1
      else match ScaledParts(hex, acc, bigintParse)
        case Fails(code) =>
          st == Error(code) && nestingDepth == old(nestingDepth) + 1 &&
          var head := old(sink) + EncodeTag(if hex then 5 else 4) + Head(4, 2);
          var ex := ExponentOf(hex, acc);
          (ex.Refused? ==> sink == head && stack == old(stack) + [StackItem(DefiniteArray, 2, 0)]) &&
          (ex.Converted? ==> sink == head + EncodeInt(ex.value) && stack == old(stack) + [StackItem(DefiniteArray, 2, 1)])
        case Parts(e, m, big) =>
          st == Ok && sink == old(sink) + EncodeScaled(hex, e, m, big, magnitudeBytes) &&
          stack == Bumped(old(stack)) && nestingDepth == old(nestingDepth)
    }

    method WriteScaledValue(text: string, hex: bool) returns (st: Status)
      modifies this`sink, this`stack, this`nestingDepth
      ensures ScaledOutcome(hex, text, st)
    {
      var p := Start;
      var acc := NoScale;
      var i := 0;
      while i < |text|
        invariant i <= |text|
        invariant ScanScaled(hex, Start, text, NoScale) == ScanScaled(hex, p, text[i..], acc)
      {
        assert text[i..][0] == text[i] && text[i..][1..] == text[i + 1..];
        var next := ScaleStep(hex, p, text[i], acc);
        if next.None? {
          return Error(if hex then InvalidBigfloat else InvalidDecimalFraction);
        }
        p, acc := next.value.0, next.value.1;
        i := i + 1;
      }
      st := WriteScaled(hex, acc);
    }

    /** Tag, then the two-element array of exponent and mantissa. */
    method WriteScaled(hex: bool, acc: Scaled) returns (st: Status)
      modifies this`sink, this`stack, this`nestingDepth
      ensures ScaledWritten(hex, acc, st)
    {
      var tag := if hex then 5 else 4;
      WriteTag(tag);
      st := OpenContainer(DefiniteArray, 2);
      if st != Ok {
        return;
      }
      ghost var afterHead := sink;
      assert afterHead == old(sink) + EncodeTag(tag) + Head(4, 2);
      assert (old(stack) + [StackItem(DefiniteArray, 2, 0)])[..|old(stack)|] == old(stack);
      ghost var parts := ScaledParts(hex, acc, bigintParse);
      st := WriteExponentMantissa(hex, acc);
      if parts.Parts? {
        assert sink == afterHead + EncodeInt(parts.exponent) + Mantissa(parts.mantissa, parts.big, magnitudeBytes);
        Append4(old(sink), EncodeTag(tag), Head(4, 2), EncodeInt(parts.exponent), Mantissa(parts.mantissa, parts.big, magnitudeBytes));
      }
    }

    /** Inside the freshly opened array: the exponent, then the mantissa, then the array is closed. */
    method WriteExponentMantissa(hex: bool, acc: Scaled) returns (st: Status)
      requires |stack| > 0 && stack[|stack| - 1] == StackItem(DefiniteArray, 2, 0)
      modifies this`sink, this`stack, this`nestingDepth
      ensures match ScaledParts(hex, acc, bigintParse)
        case Fails(code) =>
          st == Error(code) && nestingDepth == old(nestingDepth) &&
          var ex := ExponentOf(hex, acc);
          (ex.Refused? ==> sink == old(sink) && stack == old(stack)) &&
          (ex.Converted? ==>
            sink == old(sink) + EncodeInt(ex.value) && stack == old(stack)[..|old(stack)| - 1] + [StackItem(DefiniteArray, 2, 1)])
        case Parts(e, m, big) =>
          st == Ok && sink == old(sink) + EncodeInt(e) + Mantissa(m, big, magnitudeBytes) &&
          stack == Bumped(old(stack)[..|old(stack)| - 1]) && nestingDepth == old(nestingDepth) - 1
    {
      var ex := ExponentOf(hex, acc);
      if ex.Refused? {
        return Error(ex.code);
      }
      ghost var inner := stack[..|stack| - 1];
      ghost var before := sink;
      VisitInt64(ex.value, NoTag);
      assert before + [] == before;
      assert stack == inner + [StackItem(DefiniteArray, 2, 1)];
      ghost var withExponent := sink;
      st := WriteMantissaAndClose(hex, acc);
      assert withExponent == old(sink) + EncodeInt(ex.value);
    }

    /** The mantissa as a 64-bit integer, or beyond that as a bignum; then the array is closed. */
    method WriteMantissaAndClose(hex: bool, acc: Scaled) returns (st: Status)
      requires |stack| > 0 && stack[|stack| - 1] == StackItem(DefiniteArray, 2, 1)
      modifies this`sink, this`stack, this`nestingDepth
      ensures var m := ParseInteger(acc.mantissa, if hex then 16 else 10);
        if m.Malformed? then
          st == Error(IntegerInvalid) && sink == old(sink) && stack == old(stack) && nestingDepth == old(nestingDepth)
        else
          var v := if m.Parsed? then m.value else bigintParse(acc.mantissa, if hex then 16 else 10);
          st == Ok && sink == old(sink) + Mantissa(v, m.OutOfRange?, magnitudeBytes) &&
          stack == Bumped(old(stack)[..|old(stack)| - 1]) && nestingDepth == old(nestingDepth) - 1
    {
      var radix := if hex then 16 else 10;
      var m := ParseInteger(acc.mantissa, radix);
      if m.Malformed? {
        return Error(IntegerInvalid);
      }
      ghost var inner := stack[..|stack| - 1];
      if m.Parsed? {
        ghost var before := sink;
        VisitInt64(m.value, NoTag);
        assert before + [] == before;
      } else {
        WriteBignum(bigintParse(acc.mantissa, radix));
        EndValue();
      }
      assert stack == inner + [StackItem(DefiniteArray, 2, 2)];
      st := CloseContainer();
    }
  }

  lemma Append4<T>(s: seq<T>, a: seq<T>, b: seq<T>, c: seq<T>, d: seq<T>)
    ensures s + a + b + c + d == s + (a + b + c + d)
  {
  }

  /** Tag 25 with the number of a string already in the table. */
  function StringRef(k: nat): seq<Byte>
    requires k < TwoTo64
  {
    EncodeTag(25) + EncodeInt(k)
  }

  /** A string in full, or the reference to its earlier occurrence. */
  function Packed(major: nat, bytes: seq<Byte>, known: Option<nat>): seq<Byte>
    requires (major == 2 || major == 3) && |bytes| < TwoTo64 && (known.Some? ==> known.value < TwoTo64)
  {
    if known.Some? then StringRef(known.value) else EncodeString(major, bytes)
  }

  function TagBytes(t: Option<nat>): seq<Byte>
    requires t.Some? ==> t.value < TwoTo64
  {
    if t.Some? then EncodeTag(t.value) else []
  }

  /** The tag that says how a byte string is meant to be shown as text: base64url 21, base64 22, base16 23. */
  function ByteStringHint(tag: SemanticTag): (r: Option<nat>)
    ensures r.Some? ==> r.value in {21, 22, 23}
  {
    match tag
    case Base64url => Some(21)
    case Base64 => Some(22)
    case Base16 => Some(23)
    case _ => None
  }

  /** The tag a text string carries for its semantic tag: date-time 0, URI 32, base64url 33, base64 34. */
  function TextHint(tag: SemanticTag): (r: Option<nat>)
    ensures r.Some? ==> r.value in {0, 32, 33, 34}
  {
    match tag
    case Datetime => Some(0)
    case Uri => Some(32)
    case Base64url => Some(33)
    case Base64 => Some(34)
    case _ => None
  }

  // ---------------------------------------------------------------------------
  // Byte strings under a raw tag, as written and as corrected.

  /**
   * The output of the library's byte string under a raw tag: the tag is
   * written only with a full occurrence, so a repeat is a bare stringref.
   */
  function ExtBytesAsWritten(bytes: ByteString, extTag: nat, known: Option<nat>): (r: seq<Byte>)
    requires extTag < TwoTo64 && (known.Some? ==> known.value < TwoTo64)
    ensures DecodeHead(r).Some? && DecodeHead(r).value.major == 6
    ensures DecodeHead(r).value.arg == if known.Some? then 25 else extTag
  {
    if known.Some? then
      TagRoundTrip(25, EncodeInt(known.value));
      StringRef(known.value)
    else
      TagRoundTrip(extTag, EncodeString(2, bytes));
      EncodeTag(extTag) + EncodeString(2, bytes)
  }

  /** With packing, the repeat of a byte string under tag 100 starts with tag 25 where its first occurrence started with tag 100. */
  lemma ExtTagLostOnRepeat()
    ensures DecodeHead(ExtBytesAsWritten([1, 2, 3], 100, None)) == Some(Header(6, 100, 2))
    ensures DecodeHead(ExtBytesAsWritten([1, 2, 3], 100, Some(0))) == Some(Header(6, 25, 2))
  {
    TagRoundTrip(100, EncodeString(2, [1, 2, 3]));
    TagRoundTrip(25, EncodeInt(0));
  }

  /** The corrected output starts with the raw tag whether the string is written in full or as a reference, and agrees with the library's on a full occurrence. */
  lemma {:induction false} ExtTagKept(bytes: ByteString, extTag: nat, known: Option<nat>)
    requires extTag < TwoTo64 && (known.Some? ==> known.value < TwoTo64)
    ensures DecodeHead(EncodeTag(extTag) + Packed(2, bytes, known)) == Some(Header(6, extTag, |EncodeTag(extTag)|))
    ensures known.None? ==> EncodeTag(extTag) + Packed(2, bytes, known) == ExtBytesAsWritten(bytes, extTag, known)
  {
    TagRoundTrip(extTag, Packed(2, bytes, known));
  }
}
