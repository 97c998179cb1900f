/**
 * The string lexer of the JSON parser as a pure machine over one character at
 * a time: the text run, the eight one-character escapes, `\u` escapes with
 * their hex accumulation and UTF-16 surrogate pairing, and the UTF-8 encoding
 * of the resulting code points. `RunString` is what the parser's string scan
 * does to one chunk; `Unescape` is the library's reading of the string
 * grammar of RFC 8259 section 7 written as a decoder, and the two are proved
 * to agree.
 */
module JsonString {
  import opened Events
  import opened JsonErrors

  /** The phases of the string lexer (the parser's `string_state_`). */
  datatype StringState =
    | Text | Escape | EscapeU1 | EscapeU2 | EscapeU3 | EscapeU4
    | EscapeExpectSurrogatePair1 | EscapeExpectSurrogatePair2
    | EscapeU5 | EscapeU6 | EscapeU7 | EscapeU8

  /** The lexer's position in a string and its two code-point registers (`cp_`, `cp2_`). */
  datatype Lexeme = Lexeme(phase: StringState, cp: nat, cp2: nat)

  /** A character the parser refuses anywhere: 0x00-0x08, 0x0b, 0x0c, 0x0e-0x1f. */
  predicate IsIllegalControl(c: char)
  {
    c < ' ' && c != '\t' && c != '\n' && c != '\r'
  }

  predicate IsHexDigit(c: char)
  {
    ('0' <= c <= '9') || ('a' <= c <= 'f') || ('A' <= c <= 'F')
  }

  function HexValue(c: char): (v: nat)
    requires IsHexDigit(c)
    ensures v < 16
  {
    if '0' <= c <= '9' then c as int - '0' as int
    else if 'a' <= c <= 'f' then c as int - 'a' as int + 10
    else c as int - 'A' as int + 10
  }

  /** One step of `append_to_codepoint` on a 32-bit register: a non-hex character contributes nothing. */
  function HexStep(cp: nat, c: char): nat
  {
    (cp * 16 + (if IsHexDigit(c) then HexValue(c) else 0)) % 0x1_0000_0000
  }

  /** The character a one-character escape stands for. */
  function SimpleEscape(c: char): Option<char>
  {
    if c == '"' || c == '\\' || c == '/' then Some(c)
    else if c == 'b' then Some(8 as char)
    else if c == 'f' then Some(12 as char)
    else if c == 'n' then Some('\n')
    else if c == 'r' then Some('\r')
    else if c == 't' then Some('\t')
    else None
  }

  /** The eight phases that read the hex digits of a `\u` escape. */
  predicate IsHexPhase(p: StringState)
  {
    p in {EscapeU1, EscapeU2, EscapeU3, EscapeU4, EscapeU5, EscapeU6, EscapeU7, EscapeU8}
  }

  predicate IsHighSurrogate(cp: int) { 0xD800 <= cp <= 0xDBFF }
  predicate IsLowSurrogate(cp: int) { 0xDC00 <= cp <= 0xDFFF }
  predicate IsSurrogate(cp: int) { 0xD800 <= cp <= 0xDFFF }

  /** `0x10000 + ((hi & 0x3FF) << 10) + (lo & 0x3FF)`. */
  function CombineSurrogates(hi: nat, lo: nat): (cp: nat)
    ensures 0x10000 <= cp <= 0x10FFFF
  {
    0x10000 + (hi % 0x400) * 0x400 + lo % 0x400
  }

  /**
   * UTF-8 encoding of one code point into code units, as RFC 3629 lays out the
   * bits. A surrogate, or a value beyond 0x10FFFF, is refused by the strict
   * conversion and adds nothing.
   */
  function Utf8Encode(cp: nat): (s: seq<char>)
    ensures |s| <= 4
    ensures forall i :: 0 <= i < |s| ==> s[i] < 256 as char
  {
    if cp < 0x80 then [cp as char]
    else if cp < 0x800 then [(0xC0 + cp / 0x40) as char, (0x80 + cp % 0x40) as char]
    else if IsSurrogate(cp) then []
    else if cp < 0x10000 then
      [(0xE0 + cp / 0x1000) as char, (0x80 + cp / 0x40 % 0x40) as char, (0x80 + cp % 0x40) as char]
    else if cp <= 0x10FFFF then
      [(0xF0 + cp / 0x40000) as char, (0x80 + cp / 0x1000 % 0x40) as char,
       (0x80 + cp / 0x40 % 0x40) as char, (0x80 + cp % 0x40) as char]
    else []
  }

  // ---------------------------------------------------------------------------
  // One character.

  /**
   * What one character does. `Take` consumes it and appends `out`; `TakeAndYield`
   * consumes it and hands control back to the parser's driver; `Close` is the
   * closing quote; `Stop` leaves the character unconsumed with an error code.
   * On `Stop`, `record` says whether `string_state_` is set to the phase of `at`,
   * and `counted` whether the position counter already counts the character.
   */
  datatype StringStep =
    | Take(next: Lexeme, out: seq<char>)
    | TakeAndYield(next: Lexeme, out: seq<char>)
    | Close
    | Stop(code: JsonErrc, at: Lexeme, record: bool, counted: bool)

  /** One hex digit of a `\u` escape, asking `handler` about a character that is not one. */
  function HexDigitStep(l: Lexeme, c: char, handler: JsonErrc -> bool, second: bool, next: StringState): StringStep
  {
    var v := HexStep(if second then l.cp2 else l.cp, c);
    var l' := if second then l.(cp2 := v) else l.(cp := v);
    if !IsHexDigit(c) && !handler(InvalidUnicodeEscapeSequence) then
      Stop(InvalidUnicodeEscapeSequence, l', true, false)
    else
      Take(l'.(phase := next), [])
  }

  function StringDelta(l: Lexeme, c: char, handler: JsonErrc -> bool): (r: StringStep)
    // Only the closing quote closes, and only from the text phase.
    ensures r.Close? <==> l.phase == Text && c == '"'
    // Each one-character escape appends exactly that one character.
    ensures l.phase == Escape && SimpleEscape(c).Some? ==> r == Take(l.(phase := Text), [SimpleEscape(c).value])
    ensures l.phase == Escape && SimpleEscape(c).None? && c != 'u' ==>
            r.Stop? && r.code == IllegalEscapedCharacter
    // A high surrogate must be followed by a backslash and then a `u`.
    ensures l.phase == EscapeExpectSurrogatePair1 ==> (r.Stop? <==> c != '\\')
    ensures l.phase == EscapeExpectSurrogatePair2 ==> (r.Stop? <==> c != 'u')
    ensures r.Stop? && l.phase in {EscapeExpectSurrogatePair1, EscapeExpectSurrogatePair2} ==>
            r.code == ExpectedCodepointSurrogatePair
    // In a `\u` escape, a character that is not a hex digit stops the lexer
    // unless the handler lets it through; a hex digit never does.
    ensures IsHexPhase(l.phase) ==>
            (r.Stop? <==> !IsHexDigit(c) && !handler(InvalidUnicodeEscapeSequence)) &&
            (r.Stop? ==> r.code == InvalidUnicodeEscapeSequence)
    // A digit that is not the last of its four only moves to the next phase.
    ensures IsHexPhase(l.phase) && l.phase !in {EscapeU4, EscapeU8} && !r.Stop? ==>
            r.Take? && r.out == [] && r.next.phase == HexNext(l.phase)
  {
    match l.phase
    case Text =>
      if IsIllegalControl(c) then
        if handler(IllegalControlCharacter) then TakeAndYield(l, [])
        else Stop(IllegalControlCharacter, l, true, true)
      else if c == '\n' || c == '\r' || c == '\t' then
        if handler(IllegalCharacterInString) then Take(l, [])
        else Stop(IllegalCharacterInString, l, false, true)
      else if c == '\\' then Take(l.(phase := Escape), [])
      else if c == '"' then Close
      else Take(l, [c])
    case Escape =>
      if SimpleEscape(c).Some? then Take(l.(phase := Text), [SimpleEscape(c).value])
      else if c == 'u' then Take(Lexeme(EscapeU1, 0, l.cp2), [])
      else Stop(IllegalEscapedCharacter, l, true, false)
    case EscapeU1 => HexDigitStep(l.(cp := 0), c, handler, false, EscapeU2)
    case EscapeU2 => HexDigitStep(l, c, handler, false, EscapeU3)
    case EscapeU3 => HexDigitStep(l, c, handler, false, EscapeU4)
    case EscapeU4 =>
      var cp := HexStep(l.cp, c);
      if !IsHexDigit(c) && !handler(InvalidUnicodeEscapeSequence) then
        Stop(InvalidUnicodeEscapeSequence, l.(cp := cp), true, false)
      else if IsHighSurrogate(cp) then Take(Lexeme(EscapeExpectSurrogatePair1, cp, l.cp2), [])
      else TakeAndYield(Lexeme(Text, cp, l.cp2), Utf8Encode(cp))
    case EscapeExpectSurrogatePair1 =>
      if c == '\\' then Take(Lexeme(EscapeExpectSurrogatePair2, l.cp, 0), [])
      else Stop(ExpectedCodepointSurrogatePair, l, true, false)
    case EscapeExpectSurrogatePair2 =>
      if c == 'u' then Take(l.(phase := EscapeU5), [])
      else Stop(ExpectedCodepointSurrogatePair, l, true, false)
    case EscapeU5 => HexDigitStep(l.(cp2 := 0), c, handler, true, EscapeU6)
    case EscapeU6 => HexDigitStep(l, c, handler, true, EscapeU7)
    case EscapeU7 => HexDigitStep(l, c, handler, true, EscapeU8)
    case EscapeU8 =>
      var cp2 := HexStep(l.cp2, c);
      if !IsHexDigit(c) && !handler(InvalidUnicodeEscapeSequence) then
        Stop(InvalidUnicodeEscapeSequence, l.(cp2 := cp2), true, false)
      else Take(Lexeme(Text, l.cp, cp2), Utf8Encode(CombineSurrogates(l.cp, cp2)))
  }

  // ---------------------------------------------------------------------------
  // One chunk.

  datatype StringStop = Exhausted | Yielded | Closed | Failed(code: JsonErrc, record: bool, counted: bool)

  /** `consumed` characters were taken, appending `out`; `lex` is the lexer afterwards. */
  datatype StringRun = StringRun(consumed: nat, out: seq<char>, lex: Lexeme, stop: StringStop)

  function Prefixed(r: StringRun, k: nat, out: seq<char>): StringRun
  {
    r.(consumed := k + r.consumed, out := out + r.out)
  }

  /** The string lexer run over one chunk `s` from `l`. */
  function RunString(l: Lexeme, s: seq<char>, handler: JsonErrc -> bool): (r: StringRun)
    ensures r.consumed <= |s|
    ensures r.stop.Yielded? ==> 0 < r.consumed
    ensures r.stop.Exhausted? <==> r.consumed == |s| && !r.stop.Yielded?
    ensures r.stop.Closed? ==> r.consumed < |s| && s[r.consumed] == '"'
    ensures r.stop.Failed? ==> r.consumed < |s|
    decreases |s|, 1
  {
    if s == [] then StringRun(0, [], l, Exhausted)
    else RunAfter(l, s, StringDelta(l, s[0], handler), handler)
  }

  /** The run once the step `d` for the first character of `s` is known. */
  function RunAfter(l: Lexeme, s: seq<char>, d: StringStep, handler: JsonErrc -> bool): (r: StringRun)
    requires s != []
    requires d.Close? ==> s[0] == '"'
    ensures r.consumed <= |s|
    ensures r.stop.Yielded? ==> 0 < r.consumed
    ensures r.stop.Exhausted? <==> r.consumed == |s| && !r.stop.Yielded?
    ensures r.stop.Closed? ==> r.consumed < |s| && s[r.consumed] == '"'
    ensures r.stop.Failed? ==> r.consumed < |s|
    decreases |s|, 0
  {
    match d
    case Take(l', o) => Prefixed(RunString(l', s[1..], handler), 1, o)
    case TakeAndYield(l', o) => StringRun(1, o, l', Yielded)
    case Close => StringRun(0, [], l, Closed)
    case Stop(code, l', rec, cnt) => StringRun(0, [], l', Failed(code, rec, cnt))
  }

  lemma PrefixedTwice(r: StringRun, k: nat, out: seq<char>, o: seq<char>)
    ensures Prefixed(Prefixed(r, 1, o), k, out) == Prefixed(r, k + 1, out + o)
  {
  }

  /** The lexer across the driver's re-entries: a yield is followed by a new scan in the text phase. */
  function ScanToEnd(l: Lexeme, s: seq<char>, handler: JsonErrc -> bool): (r: StringRun)
    ensures !r.stop.Yielded?
    decreases |s|
  {
    var r := RunString(l, s, handler);
    if r.stop.Yielded? then Prefixed(ScanToEnd(r.lex, s[r.consumed..], handler), r.consumed, r.out)
    else r
  }

  lemma {:induction false} RunStringTake(l: Lexeme, s: seq<char>, handler: JsonErrc -> bool, next: Lexeme, out: seq<char>)
    requires |s| > 0 && StringDelta(l, s[0], handler) == Take(next, out)
    ensures RunString(l, s, handler) == Prefixed(RunString(next, s[1..], handler), 1, out)
  {
  }

  /** A character the lexer simply takes at `s[i]` extends a run that stands at `i`. */
  lemma TakeAt(s: seq<char>, i: nat, l: Lexeme, handler: JsonErrc -> bool, whole: StringRun, k: nat, out: seq<char>)
    requires i < |s| && StringDelta(l, s[i], handler).Take?
    requires whole == Prefixed(RunString(l, s[i..], handler), k, out)
    ensures var d := StringDelta(l, s[i], handler);
      whole == Prefixed(RunString(d.next, s[i + 1..], handler), k + 1, out + d.out)
  {
    var d := StringDelta(l, s[i], handler);
    assert s[i..][1..] == s[i + 1..];
    RunStringTake(l, s[i..], handler, d.next, d.out);
    PrefixedTwice(RunString(d.next, s[i + 1..], handler), k, out, d.out);
  }

  lemma {:induction false} RunStringYield(l: Lexeme, s: seq<char>, handler: JsonErrc -> bool, next: Lexeme, out: seq<char>)
    requires |s| > 0 && StringDelta(l, s[0], handler) == TakeAndYield(next, out)
    ensures RunString(l, s, handler) == StringRun(1, out, next, Yielded)
  {
  }

  lemma PrefixedAgain(r: StringRun, k: nat, o: seq<char>, out: seq<char>)
    ensures Prefixed(Prefixed(r, k, o), 1, out) == Prefixed(r, 1 + k, out + o)
  {
  }

  /** Consuming one character, with or without a yield, is the same to `ScanToEnd`. */
  lemma {:induction false} ScanToEndStep(l: Lexeme, s: seq<char>, handler: JsonErrc -> bool, next: Lexeme, out: seq<char>)
    requires |s| > 0
    requires StringDelta(l, s[0], handler) in {Take(next, out), TakeAndYield(next, out)}
    ensures ScanToEnd(l, s, handler) == Prefixed(ScanToEnd(next, s[1..], handler), 1, out)
  {
    if StringDelta(l, s[0], handler).Take? {
      RunStringTake(l, s, handler, next, out);
      var r' := RunString(next, s[1..], handler);
      if r'.stop.Yielded? {
        var t := s[1..][r'.consumed..];
        assert s[1 + r'.consumed..] == t;
        PrefixedAgain(ScanToEnd(r'.lex, t, handler), r'.consumed, r'.out, out);
      }
    } else {
      RunStringYield(l, s, handler, next, out);
    }
  }

  // ---------------------------------------------------------------------------
  // RFC 8259 section 7 as a decoder.

  predicate AllHex(s: seq<char>) { forall i :: 0 <= i < |s| ==> IsHexDigit(s[i]) }

  /** The value of four hex digits. */
  function Hex4(s: seq<char>): (v: nat)
    requires |s| == 4 && AllHex(s)
    ensures v < 0x10000
  {
    ((HexValue(s[0]) * 16 + HexValue(s[1])) * 16 + HexValue(s[2])) * 16 + HexValue(s[3])
  }

  function Prepend(o: seq<char>, r: Option<seq<char>>): Option<seq<char>>
  {
    if r.Some? then Some(o + r.value) else None
  }

  /**
   * The characters a string body stands for: unescaped characters from 0x20 up
   * other than the quote and the backslash stand for themselves; a backslash
   * starts one of the eight one-character escapes or a `\u` escape of four hex
   * digits. A high surrogate escape is completed by a second `\u` escape and the
   * two are combined as UTF-16. The result is in UTF-8 code units.
   */
  function Unescape(b: seq<char>): Option<seq<char>>
    decreases |b|
  {
    if b == [] then Some([])
    else if b[0] == '\\' then
      if |b| >= 2 && SimpleEscape(b[1]).Some? then Prepend([SimpleEscape(b[1]).value], Unescape(b[2..]))
      else if |b| >= 6 && b[1] == 'u' && AllHex(b[2..6]) then
        var u := Hex4(b[2..6]);
        if !IsHighSurrogate(u) then Prepend(Utf8Encode(u), Unescape(b[6..]))
        else if |b| >= 12 && b[6] == '\\' && b[7] == 'u' && AllHex(b[8..12]) then
          Prepend(Utf8Encode(CombineSurrogates(u, Hex4(b[8..12]))), Unescape(b[12..]))
        else None
      else None
    else if b[0] == '"' || b[0] < ' ' then None
    else Prepend([b[0]], Unescape(b[1..]))
  }

  lemma {:induction false} TailOfClosed(b: seq<char>, k: nat)
    requires k <= |b|
    ensures (b + ['"'])[k..] == b[k..] + ['"']
  {
  }

  lemma {:induction false} HexStepSmall(cp: nat, c: char)
    requires cp < 0x1000 && IsHexDigit(c)
    ensures HexStep(cp, c) == cp * 16 + HexValue(c)
  {
  }

  /** The value of the first three of four hex digits. */
  function Hex3(s: seq<char>): (v: nat)
    requires |s| >= 3 && IsHexDigit(s[0]) && IsHexDigit(s[1]) && IsHexDigit(s[2])
    ensures v < 0x1000
  {
    (HexValue(s[0]) * 16 + HexValue(s[1])) * 16 + HexValue(s[2])
  }

  /** The phase after a hex digit of a `\u` escape that is not the last of its four. */
  function HexNext(p: StringState): StringState
  {
    match p
    case EscapeU1 => EscapeU2
    case EscapeU2 => EscapeU3
    case EscapeU3 => EscapeU4
    case EscapeU5 => EscapeU6
    case EscapeU6 => EscapeU7
    case EscapeU7 => EscapeU8
    case _ => p
  }

  /** The lexeme after one such hex digit: the register of the escape takes the digit. */
  function HexLexeme(l: Lexeme, c: char): Lexeme
  {
    var first := l.phase in {EscapeU1, EscapeU2, EscapeU3};
    var r := if l.phase in {EscapeU1, EscapeU5} then 0 else if first then l.cp else l.cp2;
    if first then Lexeme(HexNext(l.phase), HexStep(r, c), l.cp2) else Lexeme(HexNext(l.phase), l.cp, HexStep(r, c))
  }

  lemma {:induction false} HexTakes(l: Lexeme, s: seq<char>, handler: JsonErrc -> bool)
    requires |s| > 0 && IsHexDigit(s[0])
    requires l.phase in {EscapeU1, EscapeU2, EscapeU3, EscapeU5, EscapeU6, EscapeU7}
    ensures ScanToEnd(l, s, handler) == Prefixed(ScanToEnd(HexLexeme(l, s[0]), s[1..], handler), 1, [])
  {
    assert StringDelta(l, s[0], handler) == Take(HexLexeme(l, s[0]), []);
    ScanToEndStep(l, s, handler, HexLexeme(l, s[0]), []);
  }

  /** The first three hex digits of a `\u` escape accumulate in its register. */
  lemma {:induction false} ThreeHex(l: Lexeme, s: seq<char>, handler: JsonErrc -> bool)
    requires l.phase in {EscapeU1, EscapeU5}
    requires |s| >= 3 && IsHexDigit(s[0]) && IsHexDigit(s[1]) && IsHexDigit(s[2])
    ensures var l3 := HexLexeme(HexLexeme(HexLexeme(l, s[0]), s[1]), s[2]);
      ScanToEnd(l, s, handler) == Prefixed(ScanToEnd(l3, s[3..], handler), 3, [])
  {
    var l1 := HexLexeme(l, s[0]);
    var l2 := HexLexeme(l1, s[1]);
    var l3 := HexLexeme(l2, s[2]);
    HexTakes(l, s, handler);
    var t1 := s[1..];
    HexTakes(l1, t1, handler);
    var t2 := t1[1..];
    HexTakes(l2, t2, handler);
    assert t2[1..] == s[3..];
  }

  /** The registers after three hex digits hold their value. */
  lemma {:induction false} ThreeHexValue(l: Lexeme, s: seq<char>)
    requires l.phase in {EscapeU1, EscapeU5}
    requires |s| >= 3 && IsHexDigit(s[0]) && IsHexDigit(s[1]) && IsHexDigit(s[2])
    ensures HexLexeme(HexLexeme(HexLexeme(l, s[0]), s[1]), s[2]) ==
      if l.phase == EscapeU1 then Lexeme(EscapeU4, Hex3(s), l.cp2) else Lexeme(EscapeU8, l.cp, Hex3(s))
  {
    HexStepSmall(0, s[0]);
    HexStepSmall(HexValue(s[0]), s[1]);
    HexStepSmall(HexValue(s[0]) * 16 + HexValue(s[1]), s[2]);
  }

  /** The four hex digits of a first `\u` escape: a high surrogate waits for its pair, anything else is encoded. */
  lemma {:induction false} FirstFourHex(l: Lexeme, s: seq<char>, handler: JsonErrc -> bool)
    requires l.phase == EscapeU1 && |s| >= 4 && AllHex(s[..4])
    ensures var u := Hex4(s[..4]);
      ScanToEnd(l, s, handler) ==
        if IsHighSurrogate(u) then Prefixed(ScanToEnd(Lexeme(EscapeExpectSurrogatePair1, u, l.cp2), s[4..], handler), 4, [])
        else Prefixed(ScanToEnd(Lexeme(Text, u, l.cp2), s[4..], handler), 4, Utf8Encode(u))
  {
    var u := Hex4(s[..4]);
    assert IsHexDigit(s[0]) && IsHexDigit(s[1]) && IsHexDigit(s[2]) && IsHexDigit(s[3]);
    ThreeHex(l, s, handler);
    ThreeHexValue(l, s);
    var v3 := Hex3(s);
    var t3 := s[3..];
    HexStepSmall(v3, s[3]);
    assert HexStep(v3, t3[0]) == u;
    var l4 := if IsHighSurrogate(u) then Lexeme(EscapeExpectSurrogatePair1, u, l.cp2) else Lexeme(Text, u, l.cp2);
    var o4 := if IsHighSurrogate(u) then [] else Utf8Encode(u);
    assert StringDelta(Lexeme(EscapeU4, v3, l.cp2), t3[0], handler) in {Take(l4, o4), TakeAndYield(l4, o4)};
    ScanToEndStep(Lexeme(EscapeU4, v3, l.cp2), t3, handler, l4, o4);
    assert t3[1..] == s[4..];
  }

  /** The four hex digits of the second `\u` escape of a pair: the pair is combined and encoded. */
  lemma {:induction false} SecondFourHex(l: Lexeme, s: seq<char>, handler: JsonErrc -> bool)
    requires l.phase == EscapeU5 && |s| >= 4 && AllHex(s[..4])
    ensures var lo := Hex4(s[..4]);
      ScanToEnd(l, s, handler) ==
        Prefixed(ScanToEnd(Lexeme(Text, l.cp, lo), s[4..], handler), 4, Utf8Encode(CombineSurrogates(l.cp, lo)))
  {
    var lo := Hex4(s[..4]);
    assert IsHexDigit(s[0]) && IsHexDigit(s[1]) && IsHexDigit(s[2]) && IsHexDigit(s[3]);
    ThreeHex(l, s, handler);
    ThreeHexValue(l, s);
    var v3 := Hex3(s);
    var t3 := s[3..];
    HexStepSmall(v3, s[3]);
    assert HexStep(v3, t3[0]) == lo;
    var o := Utf8Encode(CombineSurrogates(l.cp, lo));
    assert StringDelta(Lexeme(EscapeU8, l.cp, v3), t3[0], handler) == Take(Lexeme(Text, l.cp, lo), o);
    ScanToEndStep(Lexeme(EscapeU8, l.cp, v3), t3, handler, Lexeme(Text, l.cp, lo), o);
    assert t3[1..] == s[4..];
  }

  /**
   * The string lexer, re-entered by the driver after each yield, consumes a
   * body the decoder accepts up to its closing quote and appends exactly the
   * decoded characters, whatever the error handler would answer.
   */
  lemma {:induction false} StringLexerDecodes(b: seq<char>, l: Lexeme, handler: JsonErrc -> bool)
    requires l.phase == Text && Unescape(b).Some?
    ensures var r := ScanToEnd(l, b + ['"'], handler);
      r.consumed == |b| && r.out == Unescape(b).value && r.stop == Closed
    decreases |b|, 3
  {
    if b == [] {
      assert (b + ['"'])[0] == '"';
      assert RunString(l, b + ['"'], handler) == StringRun(0, [], l, Closed);
    } else if b[0] != '\\' {
      DecodesPlain(b, l, handler);
    } else if SimpleEscape(b[1]).Some? {
      DecodesSimpleEscape(b, l, handler);
    } else {
      DecodesUnicodeEscape(b, l, handler);
    }
  }

  /** `StringLexerDecodes` for a body that starts with an unescaped character. */
  lemma {:induction false} DecodesPlain(b: seq<char>, l: Lexeme, handler: JsonErrc -> bool)
    requires l.phase == Text && Unescape(b).Some? && b != [] && b[0] != '\\'
    ensures var r := ScanToEnd(l, b + ['"'], handler);
      r.consumed == |b| && r.out == Unescape(b).value && r.stop == Closed
    decreases |b|, 0
  {
    var s := b + ['"'];
    assert s[0] == b[0];
    assert StringDelta(l, s[0], handler) == Take(l, [b[0]]);
    ScanToEndStep(l, s, handler, l, [b[0]]);
    TailOfClosed(b, 1);
    StringLexerDecodes(b[1..], l, handler);
  }

  /** `StringLexerDecodes` for a body that starts with a one-character escape. */
  lemma {:induction false} DecodesSimpleEscape(b: seq<char>, l: Lexeme, handler: JsonErrc -> bool)
    requires l.phase == Text && Unescape(b).Some? && |b| >= 2 && b[0] == '\\' && SimpleEscape(b[1]).Some?
    ensures var r := ScanToEnd(l, b + ['"'], handler);
      r.consumed == |b| && r.out == Unescape(b).value && r.stop == Closed
    decreases |b|, 0
  {
    var s := b + ['"'];
    assert s[0] == '\\' && s[1] == b[1];
    var le := l.(phase := Escape);
    assert StringDelta(l, s[0], handler) == Take(le, []);
    ScanToEndStep(l, s, handler, le, []);
    var t1 := s[1..];
    var lt := l.(phase := Text);
    ScanToEndStep(le, t1, handler, lt, [SimpleEscape(b[1]).value]);
    assert t1[1..] == b[2..] + ['"'];
    StringLexerDecodes(b[2..], lt, handler);
  }

  /** `StringLexerDecodes` for a body that starts with a `\u` escape. */
  lemma {:induction false} DecodesUnicodeEscape(b: seq<char>, l: Lexeme, handler: JsonErrc -> bool)
    requires l.phase == Text && Unescape(b).Some? && |b| >= 2 && b[0] == '\\' && SimpleEscape(b[1]).None?
    ensures var r := ScanToEnd(l, b + ['"'], handler);
      r.consumed == |b| && r.out == Unescape(b).value && r.stop == Closed
    decreases |b|, 2
  {
    var s := b + ['"'];
    assert s[0] == '\\' && s[1] == b[1];
    assert b[1] == 'u';
    var le := l.(phase := Escape);
    assert StringDelta(l, s[0], handler) == Take(le, []);
    ScanToEndStep(l, s, handler, le, []);
    var t1 := s[1..];
    var l1 := Lexeme(EscapeU1, 0, l.cp2);
    assert StringDelta(le, t1[0], handler) == Take(l1, []);
    ScanToEndStep(le, t1, handler, l1, []);
    assert t1[1..] == b[2..] + ['"'];
    DecodesAfterU(b, l, handler);
  }

  /** The rest of `DecodesUnicodeEscape`, from the first hex digit on. */
  lemma {:induction false} DecodesAfterU(b: seq<char>, l: Lexeme, handler: JsonErrc -> bool)
    requires l.phase == Text && Unescape(b).Some? && |b| >= 2 && b[0] == '\\' && SimpleEscape(b[1]).None?
    ensures var r := ScanToEnd(Lexeme(EscapeU1, 0, l.cp2), b[2..] + ['"'], handler);
      r.consumed == |b| - 2 && r.out == Unescape(b).value && r.stop == Closed
    decreases |b|, 1
  {
    assert |b| >= 6 && b[1] == 'u' && AllHex(b[2..6]);
    var u := Hex4(b[2..6]);
    var l1 := Lexeme(EscapeU1, 0, l.cp2);
    var t2 := b[2..] + ['"'];
    assert t2[..4] == b[2..6];
    FirstFourHex(l1, t2, handler);
    assert t2[4..] == b[6..] + ['"'];
    if !IsHighSurrogate(u) {
      StringLexerDecodes(b[6..], Lexeme(Text, u, l.cp2), handler);
    } else {
      StringLexerPairs(b, l, handler);
    }
  }

  /** The surrogate pair case of `StringLexerDecodes`, from the seventh character on. */
  lemma {:induction false} StringLexerPairs(b: seq<char>, l: Lexeme, handler: JsonErrc -> bool)
    requires l.phase == Text && Unescape(b).Some?
    requires |b| >= 6 && b[0] == '\\' && b[1] == 'u' && SimpleEscape(b[1]).None? && AllHex(b[2..6])
    requires IsHighSurrogate(Hex4(b[2..6]))
    ensures var s := b[6..] + ['"'];
      var r := ScanToEnd(Lexeme(EscapeExpectSurrogatePair1, Hex4(b[2..6]), l.cp2), s, handler);
      r.consumed == |b| - 6 && Unescape(b).value == Utf8Encode(Hex4(b[2..6])) + r.out && r.stop == Closed
    decreases |b|, 0
  {
    var u := Hex4(b[2..6]);
    assert |b| >= 12 && b[6] == '\\' && b[7] == 'u' && AllHex(b[8..12]);
    var lo := Hex4(b[8..12]);
    assert Unescape(b) == Prepend(Utf8Encode(CombineSurrogates(u, lo)), Unescape(b[12..]));
    var t2 := b[8..] + ['"'];
    assert b[6..] + ['"'] == ['\\', 'u'] + t2;
    assert t2[..4] == b[8..12] && t2[4..] == b[12..] + ['"'];
    LowSurrogateEscape(u, l.cp2, t2, handler);
    StringLexerDecodes(b[12..], Lexeme(Text, u, lo), handler);
  }

  /** After a high surrogate, `\u` and four hex digits give the pair's UTF-8 and leave the lexer in text. */
  lemma {:induction false} LowSurrogateEscape(u: nat, cp2: nat, t2: seq<char>, handler: JsonErrc -> bool)
    requires |t2| >= 4 && AllHex(t2[..4])
    ensures var lo := Hex4(t2[..4]);
      ScanToEnd(Lexeme(EscapeExpectSurrogatePair1, u, cp2), ['\\', 'u'] + t2, handler) ==
        Prefixed(ScanToEnd(Lexeme(Text, u, lo), t2[4..], handler), 6, Utf8Encode(CombineSurrogates(u, lo)))
  {
    var s := ['\\', 'u'] + t2;
    var p1 := Lexeme(EscapeExpectSurrogatePair1, u, cp2);
    var p2 := Lexeme(EscapeExpectSurrogatePair2, u, 0);
    var l5 := p2.(phase := EscapeU5);
    assert s[0] == '\\' && s[1..][0] == 'u' && s[1..][1..] == t2;
    ScanToEndStep(p1, s, handler, p2, []);
    ScanToEndStep(p2, s[1..], handler, l5, []);
    SecondFourHex(l5, t2, handler);
    var lo := Hex4(t2[..4]);
    var o := Utf8Encode(CombineSurrogates(u, lo));
    var r := ScanToEnd(Lexeme(Text, u, lo), t2[4..], handler);
    PrefixedAgain(r, 4, o, []);
    PrefixedAgain(r, 5, o, []);
    assert [] + o == o;
  }

  // ---------------------------------------------------------------------------
  // The converse: with a handler that refuses every error, whatever the lexer
  // closes is a body the decoder accepts.

  /** A run that closes either closes on its first character or consumes that character and closes later. */
  lemma {:induction false} ClosedInversion(l: Lexeme, s: seq<char>, handler: JsonErrc -> bool)
    requires ScanToEnd(l, s, handler).stop == Closed
    ensures |s| > 0
    ensures var d := StringDelta(l, s[0], handler);
      (d.Close? && ScanToEnd(l, s, handler) == StringRun(0, [], l, Closed)) ||
      ((d.Take? || d.TakeAndYield?) && ScanToEnd(d.next, s[1..], handler).stop == Closed &&
       ScanToEnd(l, s, handler) == Prefixed(ScanToEnd(d.next, s[1..], handler), 1, d.out))
  {
    var r := RunString(l, s, handler);
    if s != [] {
      var d := StringDelta(l, s[0], handler);
      assert r == RunAfter(l, s, d, handler);
      if d.Take? || d.TakeAndYield? {
        ScanToEndStep(l, s, handler, d.next, d.out);
      }
    }
  }

  /** One character a hex phase takes: with a refusing handler it is a hex digit, and the run goes on from `next`. */
  lemma {:induction false} HexInversion(l: Lexeme, s: seq<char>, handler: JsonErrc -> bool) returns (next: Lexeme)
    requires IsHexPhase(l.phase) && !handler(InvalidUnicodeEscapeSequence)
    requires ScanToEnd(l, s, handler).stop == Closed
    ensures |s| > 0 && IsHexDigit(s[0])
    ensures l.phase !in {EscapeU4, EscapeU8} ==>
      next.phase == HexNext(l.phase) && ScanToEnd(next, s[1..], handler).stop == Closed
  {
    ClosedInversion(l, s, handler);
    next := StringDelta(l, s[0], handler).next;
  }

  /** How many hex digits a hex phase still expects. */
  function HexLeft(p: StringState): nat
  {
    match p
    case EscapeU1 | EscapeU5 => 4
    case EscapeU2 | EscapeU6 => 3
    case EscapeU3 | EscapeU7 => 2
    case _ => 1
  }

  /** A run from a hex phase that closes reads the digits that phase still expects first. */
  lemma {:induction false} HexLeftBeforeClose(l: Lexeme, s: seq<char>, handler: JsonErrc -> bool)
    requires IsHexPhase(l.phase) && !handler(InvalidUnicodeEscapeSequence)
    requires ScanToEnd(l, s, handler).stop == Closed
    ensures |s| >= HexLeft(l.phase) && AllHex(s[..HexLeft(l.phase)])
    decreases HexLeft(l.phase)
  {
    var next := HexInversion(l, s, handler);
    if l.phase !in {EscapeU4, EscapeU8} {
      HexLeftBeforeClose(next, s[1..], handler);
      assert s[..HexLeft(l.phase)] == [s[0]] + s[1..][..HexLeft(next.phase)];
    }
  }

  /** A run from the first hex digit of a `\u` escape that closes has read four hex digits first. */
  lemma FourHexBeforeClose(l: Lexeme, s: seq<char>, handler: JsonErrc -> bool)
    requires l.phase in {EscapeU1, EscapeU5} && !handler(InvalidUnicodeEscapeSequence)
    requires ScanToEnd(l, s, handler).stop == Closed
    ensures |s| >= 4 && AllHex(s[..4])
  {
    HexLeftBeforeClose(l, s, handler);
  }

  /** The two steps of a one-character escape. */
  lemma {:induction false} SimpleEscapeSteps(s: seq<char>, l: Lexeme, handler: JsonErrc -> bool)
    requires l.phase == Text && |s| >= 2 && s[0] == '\\' && SimpleEscape(s[1]).Some?
    ensures ScanToEnd(l, s, handler) == Prefixed(ScanToEnd(l, s[2..], handler), 2, [SimpleEscape(s[1]).value])
  {
    var le := l.(phase := Escape);
    ScanToEndStep(l, s, handler, le, []);
    var s1 := s[1..];
    ScanToEndStep(le, s1, handler, l, [SimpleEscape(s[1]).value]);
    assert s1[1..] == s[2..];
  }

  /** The two steps of the start of a `\u` escape. */
  lemma {:induction false} UnicodeEscapeSteps(s: seq<char>, l: Lexeme, handler: JsonErrc -> bool)
    requires l.phase == Text && |s| >= 2 && s[0] == '\\' && s[1] == 'u'
    ensures ScanToEnd(l, s, handler) == Prefixed(ScanToEnd(Lexeme(EscapeU1, 0, l.cp2), s[2..], handler), 2, [])
  {
    var le := l.(phase := Escape);
    ScanToEndStep(l, s, handler, le, []);
    var s1 := s[1..];
    ScanToEndStep(le, s1, handler, Lexeme(EscapeU1, 0, l.cp2), []);
    assert s1[1..] == s[2..];
  }

  /** What the run consumed, decoded: the property `StringLexerOnlyDecodes` proves of a closed run. */
  predicate DecodedUpToQuote(s: seq<char>, r: StringRun)
  {
    r.consumed < |s| && s[r.consumed] == '"' && Unescape(s[..r.consumed]) == Some(r.out)
  }

  /**
   * With a handler that refuses every error, a run of the re-entered lexer
   * that closes stops on a quote, and the characters it consumed are a body
   * the decoder accepts, decoding to exactly what the lexer appended.
   */
  lemma {:induction false} StringLexerOnlyDecodes(s: seq<char>, l: Lexeme, handler: JsonErrc -> bool)
    requires l.phase == Text && (forall e :: !handler(e))
    requires ScanToEnd(l, s, handler).stop == Closed
    ensures var r := ScanToEnd(l, s, handler);
      r.consumed < |s| && s[r.consumed] == '"' && Unescape(s[..r.consumed]) == Some(r.out)
    decreases |s|, 3
  {
    ClosedInversion(l, s, handler);
    var d := StringDelta(l, s[0], handler);
    if d.Close? {
      assert s[..0] == [];
    } else if s[0] == '\\' {
      EscapeOnlyDecodes(s, l, handler);
    } else {
      var c := s[0];
      assert !handler(IllegalControlCharacter) && !handler(IllegalCharacterInString);
      assert d == Take(l, [c]);
      var r' := ScanToEnd(l, s[1..], handler);
      StringLexerOnlyDecodes(s[1..], l, handler);
      var k := r'.consumed;
      var b := s[..k + 1];
      assert b[1..] == s[1..][..k];
      assert Unescape(b) == Prepend([c], Unescape(b[1..]));
    }
  }

  /** `StringLexerOnlyDecodes` for a run that starts with a backslash. */
  lemma {:induction false} EscapeOnlyDecodes(s: seq<char>, l: Lexeme, handler: JsonErrc -> bool)
    requires l.phase == Text && (forall e :: !handler(e))
    requires |s| > 0 && s[0] == '\\' && ScanToEnd(l, s, handler).stop == Closed
    ensures DecodedUpToQuote(s, ScanToEnd(l, s, handler))
    decreases |s|, 2
  {
    var le := l.(phase := Escape);
    ClosedInversion(l, s, handler);
    assert StringDelta(l, s[0], handler) == Take(le, []);
    var s1 := s[1..];
    ClosedInversion(le, s1, handler);
    if SimpleEscape(s[1]).Some? {
      SimpleEscapeSteps(s, l, handler);
      var r' := ScanToEnd(l, s[2..], handler);
      StringLexerOnlyDecodes(s[2..], l, handler);
      var k := r'.consumed;
      var b := s[..k + 2];
      assert b[2..] == s[2..][..k];
      assert Unescape(b) == Prepend([SimpleEscape(s[1]).value], Unescape(b[2..]));
    } else {
      assert s[1] == 'u';
      UnicodeEscapeSteps(s, l, handler);
      UnicodeOnlyDecodes(s, l, handler);
    }
  }

  /** `StringLexerOnlyDecodes` for a run that starts with `\u`, from the first hex digit on. */
  lemma {:induction false} UnicodeOnlyDecodes(s: seq<char>, l: Lexeme, handler: JsonErrc -> bool)
    requires l.phase == Text && (forall e :: !handler(e))
    requires |s| >= 2 && s[0] == '\\' && s[1] == 'u'
    requires ScanToEnd(Lexeme(EscapeU1, 0, l.cp2), s[2..], handler).stop == Closed
    ensures var r := ScanToEnd(Lexeme(EscapeU1, 0, l.cp2), s[2..], handler);
      DecodedUpToQuote(s, Prefixed(r, 2, []))
    decreases |s|, 1
  {
    var l1 := Lexeme(EscapeU1, 0, l.cp2);
    var t := s[2..];
    FourHexBeforeClose(l1, t, handler);
    FirstFourHex(l1, t, handler);
    assert t[..4] == s[2..6] && t[4..] == s[6..];
    var u := Hex4(s[2..6]);
    var r := ScanToEnd(l1, t, handler);
    if !IsHighSurrogate(u) {
      var lt := Lexeme(Text, u, l.cp2);
      var r' := ScanToEnd(lt, s[6..], handler);
      assert r == Prefixed(r', 4, Utf8Encode(u));
      StringLexerOnlyDecodes(s[6..], lt, handler);
      var k := r'.consumed;
      var b := s[..k + 6];
      assert b[2..6] == s[2..6] && b[6..] == s[6..][..k];
      UnescapeUnicode(b);
      assert Unescape(b) == Some(Utf8Encode(u) + r'.out);
      assert Prefixed(r, 2, []) == r'.(consumed := k + 6, out := Utf8Encode(u) + r'.out);
    } else {
      var r6 := ScanToEnd(Lexeme(EscapeExpectSurrogatePair1, u, l.cp2), s[6..], handler);
      assert r == Prefixed(r6, 4, []);
      PairOnlyDecodes(s, l, handler);
      assert Prefixed(r, 2, []) == Prefixed(r6, 6, []);
    }
  }

  /** One unfolding of `Unescape` at a `\u` escape that is not a high surrogate. */
  lemma {:induction false} UnescapeUnicode(b: seq<char>)
    requires |b| >= 6 && b[0] == '\\' && b[1] == 'u' && AllHex(b[2..6]) && !IsHighSurrogate(Hex4(b[2..6]))
    ensures Unescape(b) == Prepend(Utf8Encode(Hex4(b[2..6])), Unescape(b[6..]))
  {
    assert SimpleEscape(b[1]).None?;
  }

  /** One unfolding of `Unescape` at a surrogate pair. */
  lemma {:induction false} UnescapePair(b: seq<char>)
    requires |b| >= 12 && b[0] == '\\' && b[1] == 'u' && AllHex(b[2..6]) && IsHighSurrogate(Hex4(b[2..6]))
    requires b[6] == '\\' && b[7] == 'u' && AllHex(b[8..12])
    ensures Unescape(b) == Prepend(Utf8Encode(CombineSurrogates(Hex4(b[2..6]), Hex4(b[8..12]))), Unescape(b[12..]))
  {
    assert SimpleEscape(b[1]).None?;
  }

  /** After a high surrogate, a run that closes reads `\u` first. */
  lemma {:induction false} PairPrefixBeforeClose(u: nat, cp2: nat, t: seq<char>, handler: JsonErrc -> bool)
    requires ScanToEnd(Lexeme(EscapeExpectSurrogatePair1, u, cp2), t, handler).stop == Closed
    ensures |t| >= 2 && t[0] == '\\' && t[1] == 'u'
    ensures ScanToEnd(Lexeme(EscapeU5, u, 0), t[2..], handler).stop == Closed
  {
    var p1 := Lexeme(EscapeExpectSurrogatePair1, u, cp2);
    var p2 := Lexeme(EscapeExpectSurrogatePair2, u, 0);
    ClosedInversion(p1, t, handler);
    assert t[0] == '\\' && StringDelta(p1, t[0], handler).next == p2;
    var t1 := t[1..];
    ClosedInversion(p2, t1, handler);
    assert t1[0] == 'u' && StringDelta(p2, t1[0], handler).next == Lexeme(EscapeU5, u, 0);
    assert t1[1..] == t[2..];
  }

  /** `StringLexerOnlyDecodes` after a high surrogate: the run must read `\u` and four more hex digits. */
  lemma {:induction false} PairOnlyDecodes(s: seq<char>, l: Lexeme, handler: JsonErrc -> bool)
    requires l.phase == Text && (forall e :: !handler(e))
    requires |s| >= 6 && s[0] == '\\' && s[1] == 'u' && AllHex(s[2..6]) && IsHighSurrogate(Hex4(s[2..6]))
    requires ScanToEnd(Lexeme(EscapeExpectSurrogatePair1, Hex4(s[2..6]), l.cp2), s[6..], handler).stop == Closed
    ensures var r := ScanToEnd(Lexeme(EscapeExpectSurrogatePair1, Hex4(s[2..6]), l.cp2), s[6..], handler);
      DecodedUpToQuote(s, Prefixed(r, 6, []))
    decreases |s|, 0
  {
    var u := Hex4(s[2..6]);
    var t6 := s[6..];
    PairPrefixBeforeClose(u, l.cp2, t6, handler);
    var t2 := s[8..];
    assert t6[2..] == t2 && t6 == ['\\', 'u'] + t2;
    FourHexBeforeClose(Lexeme(EscapeU5, u, 0), t2, handler);
    LowSurrogateEscape(u, l.cp2, t2, handler);
    var lo := Hex4(t2[..4]);
    var lt := Lexeme(Text, u, lo);
    assert t2[4..] == s[12..] && t2[..4] == s[8..12];
    var r' := ScanToEnd(lt, s[12..], handler);
    var o := Utf8Encode(CombineSurrogates(u, lo));
    assert ScanToEnd(Lexeme(EscapeExpectSurrogatePair1, u, l.cp2), t6, handler) == Prefixed(r', 6, o);
    StringLexerOnlyDecodes(s[12..], lt, handler);
    PairDecoded(s, r');
    assert Prefixed(Prefixed(r', 6, o), 6, []) == Prefixed(r', 12, o);
  }

  /** A surrogate pair followed by a decoded run is decoded. */
  lemma {:induction false} PairDecoded(s: seq<char>, r: StringRun)
    requires |s| >= 12 && s[0] == '\\' && s[1] == 'u' && AllHex(s[2..6]) && IsHighSurrogate(Hex4(s[2..6]))
    requires s[6] == '\\' && s[7] == 'u' && AllHex(s[8..12])
    requires DecodedUpToQuote(s[12..], r)
    ensures DecodedUpToQuote(s, Prefixed(r, 12, Utf8Encode(CombineSurrogates(Hex4(s[2..6]), Hex4(s[8..12])))))
  {
    var k := r.consumed;
    var b := s[..k + 12];
    assert b[2..6] == s[2..6] && b[8..12] == s[8..12] && b[12..] == s[12..][..k];
    UnescapePair(b);
  }

  /**
   * With a handler that refuses every error, the lexer closes a body followed
   * by a quote exactly at that quote if and only if the decoder accepts the
   * body, and then appends exactly the decoded characters.
   */
  lemma {:induction false} StringLexerMatchesUnescape(b: seq<char>, l: Lexeme, handler: JsonErrc -> bool)
    requires l.phase == Text && (forall e :: !handler(e))
    ensures var r := ScanToEnd(l, b + ['"'], handler);
      (r.stop == Closed && r.consumed == |b|) <==> Unescape(b).Some?
    ensures var r := ScanToEnd(l, b + ['"'], handler);
      Unescape(b).Some? ==> r.out == Unescape(b).value
  {
    var r := ScanToEnd(l, b + ['"'], handler);
    if Unescape(b).Some? {
      StringLexerDecodes(b, l, handler);
    } else if r.stop == Closed && r.consumed == |b| {
      StringLexerOnlyDecodes(b + ['"'], l, handler);
    }
  }

  // ---------------------------------------------------------------------------
  // Code points.

  predicate IsScalarValue(cp: int) { 0 <= cp <= 0x10FFFF && !IsSurrogate(cp) }

  predicate IsContinuation(c: char) { 0x80 as char <= c < 0xC0 as char }

  /** RFC 3629 section 4: the one code point a well-formed UTF-8 sequence of code units stands for. */
  function Utf8Decode(s: seq<char>): Option<nat>
  {
    if |s| == 1 && s[0] < 0x80 as char then Some(s[0] as nat)
    else if |s| == 2 && 0xC2 as char <= s[0] <= 0xDF as char && IsContinuation(s[1]) then
      Some((s[0] as nat - 0xC0) * 0x40 + (s[1] as nat - 0x80))
    else if |s| == 3 && 0xE0 as char <= s[0] <= 0xEF as char && IsContinuation(s[1]) && IsContinuation(s[2]) then
      var cp := ((s[0] as nat - 0xE0) * 0x40 + (s[1] as nat - 0x80)) * 0x40 + (s[2] as nat - 0x80);
      if cp < 0x800 || IsSurrogate(cp) then None else Some(cp)
    else if |s| == 4 && 0xF0 as char <= s[0] <= 0xF4 as char && IsContinuation(s[1]) && IsContinuation(s[2]) && IsContinuation(s[3]) then
      var cp := (((s[0] as nat - 0xF0) * 0x40 + (s[1] as nat - 0x80)) * 0x40 + (s[2] as nat - 0x80)) * 0x40 + (s[3] as nat - 0x80);
      if cp < 0x10000 || cp > 0x10FFFF then None else Some(cp)
    else None
  }

  /** The encoder writes the shortest well-formed sequence for every scalar value and nothing for anything else. */
  lemma {:induction false} Utf8RoundTrip(cp: nat)
    ensures IsScalarValue(cp) ==> Utf8Decode(Utf8Encode(cp)) == Some(cp)
    ensures !IsScalarValue(cp) <==> Utf8Encode(cp) == []
    ensures |Utf8Encode(cp)| == (if !IsScalarValue(cp) then 0 else if cp < 0x80 then 1 else if cp < 0x800 then 2
                                 else if cp < 0x10000 then 3 else 4)
  {
    if cp < 0x80 {
    } else if cp < 0x800 {
      Utf8Two(cp);
    } else if IsSurrogate(cp) {
    } else if cp < 0x10000 {
      Utf8Three(cp);
    } else if cp <= 0x10FFFF {
      Utf8Four(cp);
    }
  }

  lemma Utf8Two(cp: nat)
    requires 0x80 <= cp < 0x800
    ensures Utf8Decode(Utf8Encode(cp)) == Some(cp)
  {
    assert cp == (cp / 0x40) * 0x40 + cp % 0x40;
  }

  lemma Utf8Three(cp: nat)
    requires 0x800 <= cp < 0x10000 && !IsSurrogate(cp)
    ensures Utf8Decode(Utf8Encode(cp)) == Some(cp)
  {
    assert cp / 0x40 == (cp / 0x1000) * 0x40 + cp / 0x40 % 0x40;
    assert cp == (cp / 0x40) * 0x40 + cp % 0x40;
  }

  lemma Utf8Four(cp: nat)
    requires 0x10000 <= cp <= 0x10FFFF
    ensures Utf8Decode(Utf8Encode(cp)) == Some(cp)
  {
    assert cp / 0x1000 == (cp / 0x40000) * 0x40 + cp / 0x1000 % 0x40;
    assert cp / 0x40 == (cp / 0x1000) * 0x40 + cp / 0x40 % 0x40;
    assert cp == (cp / 0x40) * 0x40 + cp % 0x40;
  }

  /** Every supplementary code point splits into a high and a low surrogate that combine back to it. */
  lemma {:induction false} SurrogatePairRoundTrip(cp: nat)
    requires 0x10000 <= cp <= 0x10FFFF
    ensures var hi := 0xD800 + (cp - 0x10000) / 0x400;
      var lo := 0xDC00 + (cp - 0x10000) % 0x400;
      IsHighSurrogate(hi) && IsLowSurrogate(lo) && CombineSurrogates(hi, lo) == cp
  {
    var v := cp - 0x10000;
    assert (0xD800 + v / 0x400) % 0x400 == v / 0x400;
    assert (0xDC00 + v % 0x400) % 0x400 == v % 0x400;
  }

  /** Distinct well-formed surrogate pairs combine to distinct code points. */
  lemma {:induction false} CombineSurrogatesInjective(hi: nat, lo: nat, hi': nat, lo': nat)
    requires IsHighSurrogate(hi) && IsLowSurrogate(lo) && IsHighSurrogate(hi') && IsLowSurrogate(lo')
    requires CombineSurrogates(hi, lo) == CombineSurrogates(hi', lo')
    ensures hi == hi' && lo == lo'
  {
    assert hi % 0x400 == hi - 0xD800 && hi' % 0x400 == hi' - 0xD800;
    assert lo % 0x400 == lo - 0xDC00 && lo' % 0x400 == lo' - 0xDC00;
  }

  /**
   * The escape after a high surrogate is combined whatever its value: a body
   * `\uD800\u0041` decodes to the four-byte encoding of U+10041 rather than
   * being refused as an unpaired surrogate.
   */
  lemma SecondHalfIsNotChecked()
    ensures Unescape(['\\', 'u', 'D', '8', '0', '0', '\\', 'u', '0', '0', '4', '1']) == Some(Utf8Encode(0x10041))
  {
    var b := ['\\', 'u', 'D', '8', '0', '0', '\\', 'u', '0', '0', '4', '1'];
    assert AllHex(b[2..6]) && Hex4(b[2..6]) == 0xD800;
    assert AllHex(b[8..12]) && Hex4(b[8..12]) == 0x41;
    assert SimpleEscape(b[1]).None?;
    assert CombineSurrogates(0xD800, 0x41) == 0x10041;
    assert b[12..] == [] && Unescape(b[12..]) == Some([]);
    assert |b| >= 12 && b[0] == '\\' && b[1] == 'u' && b[6] == '\\' && b[7] == 'u';
    assert Unescape(b) == Prepend(Utf8Encode(CombineSurrogates(Hex4(b[2..6]), Hex4(b[8..12]))), Unescape(b[12..]));
    assert Utf8Encode(0x10041) + [] == Utf8Encode(0x10041);
  }
}
