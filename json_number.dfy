/**
 * The number lexer of the JSON parser as a pure automaton, the number grammar
 * of RFC 8259 section 6 as an independent reference, and the decimal-to-integer
 * conversion the parser uses to classify integer literals.
 */
module JsonNumber {
  import opened Events
  import opened JsonErrors

  /** The phases of the number lexer (the parser's `number_state_`). */
  datatype NumberPhase = Minus | Zero | Integer | Fraction1 | Fraction2 | Exp1 | Exp2 | Exp3

  predicate IsDigit(c: char) { '0' <= c <= '9' }
  predicate IsNonzeroDigit(c: char) { '1' <= c <= '9' }
  predicate IsExp(c: char) { c == 'e' || c == 'E' }

  /** A character that can continue a number in some phase. */
  predicate IsNumberChar(c: char) { IsDigit(c) || c == '.' || IsExp(c) || c == '+' || c == '-' }

  /** The effect of one character in one phase. `recorded` is what a rejection leaves in `number_state_`. */
  datatype NumberStep =
    | Advance(next: NumberPhase)
    | EndInteger
    | EndFraction
    | Reject(code: JsonErrc, recorded: Option<NumberPhase>)

  /** One transition of the number lexer; `EndInteger`/`EndFraction` do not consume `c`. */
  function NumberDelta(p: NumberPhase, c: char): (r: NumberStep)
    ensures p == Minus ==> (r.Reject? <==> !IsDigit(c)) && (r.Reject? ==> r.code == InvalidNumber)
    ensures p == Zero ==> (r.Reject? <==> IsDigit(c)) && (r.Reject? ==> r.code == LeadingZero)
    ensures p == Fraction1 ==> (r.Reject? <==> !IsDigit(c)) && (r.Reject? ==> r.code == InvalidNumber)
    ensures p == Exp1 ==> (r.Reject? <==> !(IsDigit(c) || c == '+' || c == '-'))
    ensures p == Exp2 ==> (r.Reject? <==> !IsDigit(c))
    ensures p in {Integer, Fraction2, Exp3} ==> !r.Reject?
    ensures (r.EndInteger? || r.EndFraction?) ==> !IsDigit(c)
  {
    match p
    case Minus =>
      if IsNonzeroDigit(c) then Advance(Integer)
      else if c == '0' then Advance(Zero)
      else Reject(InvalidNumber, None)
    case Zero =>
      if c == '.' then Advance(Fraction1)
      else if IsExp(c) then Advance(Exp1)
      else if IsDigit(c) then Reject(LeadingZero, Some(Zero))
      else EndInteger
    case Integer =>
      if IsDigit(c) then Advance(Integer)
      else if c == '.' then Advance(Fraction1)
      else if IsExp(c) then Advance(Exp1)
      else EndInteger
    case Fraction1 =>
      if IsDigit(c) then Advance(Fraction2)
      else Reject(InvalidNumber, Some(Fraction1))
    case Fraction2 =>
      if IsDigit(c) then Advance(Fraction2)
      else if IsExp(c) then Advance(Exp1)
      else EndFraction
    case Exp1 =>
      if c == '-' then Advance(Exp2)
      else if IsDigit(c) then Advance(Exp3)
      else if c == '+' then Advance(Exp2)
      else Reject(InvalidNumber, None)
    case Exp2 =>
      if IsDigit(c) then Advance(Exp3)
      else Reject(InvalidNumber, None)
    case Exp3 =>
      if IsDigit(c) then Advance(Exp3)
      else EndFraction
  }

  /** The phase the lexer records when the chunk runs out: a pending `0` is recorded as `integer`. */
  function SuspendedPhase(p: NumberPhase): NumberPhase
  {
    if p == Zero then Integer else p
  }

  /**
   * Outcome of scanning one chunk: it runs out (the phase to resume in), the
   * number ends before the `length`-th character, or a character is rejected.
   */
  datatype NumberScan =
    | Suspended(phase: NumberPhase)
    | Ended(fraction: bool, length: nat)
    | Rejected(code: JsonErrc, recorded: Option<NumberPhase>, length: nat)

  function Shifted(r: NumberScan): NumberScan
  {
    match r
    case Suspended(_) => r
    case Ended(f, n) => Ended(f, n + 1)
    case Rejected(code, rec, n) => Rejected(code, rec, n + 1)
  }

  /** The lexer run over one chunk `s` from phase `p`. */
  function ScanNumber(p: NumberPhase, s: seq<char>): (r: NumberScan)
    ensures r.Ended? ==> r.length < |s| && !IsDigit(s[r.length])
    ensures r.Rejected? ==> r.length < |s|
    ensures r.Suspended? ==> r.phase != Zero
    decreases |s|
  {
    if s == [] then Suspended(SuspendedPhase(p))
    else match NumberDelta(p, s[0])
      case Advance(q) => Shifted(ScanNumber(q, s[1..]))
      case EndInteger => Ended(false, 0)
      case EndFraction => Ended(true, 0)
      case Reject(code, rec) => Rejected(code, rec, 0)
  }

  /** How a number suspended in phase `p` is finished when the whole input has been seen. */
  datatype EndOfInput = FinishInteger | FinishFraction | NotFinished

  function AtEndOfInput(p: NumberPhase): EndOfInput
  {
    match p
    case Zero | Integer => FinishInteger
    case Fraction2 | Exp3 => FinishFraction
    case _ => NotFinished
  }

  /** The phase the parser's value-start states enter on the first character of a number. */
  function FirstPhase(c: char): Option<NumberPhase>
  {
    if c == '-' then Some(Minus)
    else if c == '0' then Some(Zero)
    else if IsNonzeroDigit(c) then Some(Integer)
    else None
  }

  // ---------------------------------------------------------------------------
  // RFC 8259 section 6, written as its productions:
  //   number = [ minus ] int [ frac ] [ exp ]
  //   int = zero / ( digit1-9 *DIGIT )   frac = "." 1*DIGIT   exp = ("e"/"E") [ "-" / "+" ] 1*DIGIT

  /** Length of the longest prefix of digits. */
  function DigitRun(s: seq<char>): (n: nat)
    ensures n <= |s|
    ensures forall i :: 0 <= i < n ==> IsDigit(s[i])
    ensures n < |s| ==> !IsDigit(s[n])
  {
    if |s| > 0 && IsDigit(s[0]) then 1 + DigitRun(s[1..]) else 0
  }

  predicate AllDigits(s: seq<char>) { DigitRun(s) == |s| }

  predicate IsIntPart(s: seq<char>)
  {
    s == ['0'] || (|s| > 0 && IsNonzeroDigit(s[0]) && AllDigits(s))
  }

  predicate IsExponentPart(s: seq<char>)
  {
    |s| >= 2 && IsExp(s[0]) &&
    var t := if s[1] == '+' || s[1] == '-' then s[2..] else s[1..];
    |t| > 0 && AllDigits(t)
  }

  /** `[ frac ] [ exp ]`: a fraction is "." followed by its longest digit run. */
  predicate IsFracExp(r: seq<char>)
  {
    r == [] || IsExponentPart(r) ||
    (|r| > 1 && r[0] == '.' && IsDigit(r[1]) &&
     var f := 1 + DigitRun(r[1..]);
     f == |r| || IsExponentPart(r[f..]))
  }

  function Unsigned(t: seq<char>): seq<char>
  {
    if |t| > 0 && t[0] == '-' then t[1..] else t
  }

  /** `number` of RFC 8259 section 6. */
  predicate IsJsonNumber(t: seq<char>)
  {
    var u := Unsigned(t);
    IsIntPart(u[..DigitRun(u)]) && IsFracExp(u[DigitRun(u)..])
  }

  /** A number with neither a fraction nor an exponent. */
  predicate IsJsonInteger(t: seq<char>)
  {
    IsIntPart(Unsigned(t))
  }

  // ---------------------------------------------------------------------------
  // The automaton accepts exactly the grammar.

  /** What each phase still accepts before a terminating character, and whether the result is a fraction. */
  predicate Accepts(p: NumberPhase, s: seq<char>, fraction: bool)
    decreases |s|
  {
    match p
    case Minus => |s| > 0 && ((s[0] == '0' && Accepts(Zero, s[1..], fraction)) ||
                              (IsNonzeroDigit(s[0]) && Accepts(Integer, s[1..], fraction)))
    case Zero => IsFracExp(s) && fraction == (s != [])
    case Integer => IsFracExp(s[DigitRun(s)..]) && fraction == (DigitRun(s) < |s|)
    case Fraction1 => |s| > 0 && IsDigit(s[0]) && Accepts(Fraction2, s[1..], fraction)
    case Fraction2 => fraction && (AllDigits(s) || IsExponentPart(s[DigitRun(s)..]))
    case Exp1 => fraction && IsExponentPart(['e'] + s)
    case Exp2 => fraction && |s| > 0 && AllDigits(s)
    case Exp3 => fraction && AllDigits(s)
  }

  function ShiftedBy(r: NumberScan, n: nat): NumberScan
  {
    match r
    case Suspended(_) => r
    case Ended(f, k) => Ended(f, k + n)
    case Rejected(code, rec, k) => Rejected(code, rec, k + n)
  }

  /** The outcome of a run that stops after `n` characters at a character whose step `d` does not advance. */
  function StopOf(d: NumberStep, n: nat): (r: NumberScan)
    requires !d.Advance?
    ensures !r.Suspended?
  {
    match d
    case EndInteger => Ended(false, n)
    case EndFraction => Ended(true, n)
    case Reject(code, rec) => Rejected(code, rec, n)
  }

  /** A run that cannot advance on its first character stops there, or suspends on empty input. */
  lemma ScanStops(p: NumberPhase, s: seq<char>, n: nat)
    requires s == [] || !NumberDelta(p, s[0]).Advance?
    ensures s == [] ==> ShiftedBy(ScanNumber(p, s), n) == Suspended(SuspendedPhase(p))
    ensures s != [] ==> ShiftedBy(ScanNumber(p, s), n) == StopOf(NumberDelta(p, s[0]), n)
  {
  }

  lemma ShiftedByShifted(r: NumberScan, n: nat)
    ensures ShiftedBy(Shifted(r), n) == ShiftedBy(r, n + 1)
  {
  }

  /** A character the lexer advances on at `s[i]` extends a run that stands at `i`. */
  lemma AdvanceAt(s: seq<char>, i: nat, p: NumberPhase, whole: NumberScan, k: nat)
    requires i < |s| && NumberDelta(p, s[i]).Advance?
    requires whole == ShiftedBy(ScanNumber(p, s[i..]), k)
    ensures whole == ShiftedBy(ScanNumber(NumberDelta(p, s[i]).next, s[i + 1..]), k + 1)
  {
    assert s[i..][1..] == s[i + 1..];
    ShiftedByShifted(ScanNumber(NumberDelta(p, s[i]).next, s[i + 1..]), k);
  }

  lemma {:induction false} ExponentTail(s: seq<char>)
    requires |s| > 0 && IsExp(s[0])
    ensures IsExponentPart(s) == IsExponentPart(['e'] + s[1..])
  {
    var e := ['e'] + s[1..];
    assert e[1..] == s[1..];
    if |s| > 1 {
      assert e[2..] == s[2..];
    }
  }

  /** The looping phases skip a run of digits without changing phase. */
  lemma {:induction false} ScanSkipsDigits(p: NumberPhase, s: seq<char>)
    requires p in {Integer, Fraction2, Exp3}
    ensures ScanNumber(p, s) == ShiftedBy(ScanNumber(p, s[DigitRun(s)..]), DigitRun(s))
    decreases |s|
  {
    if |s| > 0 && IsDigit(s[0]) {
      var t := s[1..];
      var n := DigitRun(t);
      assert NumberDelta(p, s[0]) == Advance(p);
      assert ScanNumber(p, s) == Shifted(ScanNumber(p, t));
      ScanSkipsDigits(p, t);
      assert t[n..] == s[n + 1..];
      ShiftedOfShiftedBy(ScanNumber(p, t[n..]), n);
    } else {
      assert s[0..] == s;
      ShiftedByZero(ScanNumber(p, s));
    }
  }

  lemma ShiftedOfShiftedBy(r: NumberScan, n: nat)
    ensures Shifted(ShiftedBy(r, n)) == ShiftedBy(r, n + 1)
  {
  }

  lemma ShiftedByZero(r: NumberScan)
    ensures ShiftedBy(r, 0) == r
  {
  }

  /** Each phase ends exactly at the terminator on the inputs `Accepts` describes. */
  lemma {:induction false} ScanAccepts(p: NumberPhase, s: seq<char>, c: char, fraction: bool)
    requires !IsNumberChar(c)
    ensures ScanNumber(p, s + [c]) == Ended(fraction, |s|) <==> Accepts(p, s, fraction)
    decreases |s|, if p in {Integer, Fraction2, Exp3} then 2 else 1
  {
    match p
    case Minus => ScanAcceptsMinus(s, c, fraction);
    case Zero => ScanAcceptsZero(s, c, fraction);
    case Integer => ScanAcceptsInteger(s, c, fraction);
    case Fraction1 => ScanAcceptsFraction1(s, c, fraction);
    case Fraction2 => ScanAcceptsFraction2(s, c, fraction);
    case Exp1 => ScanAcceptsExp1(s, c, fraction);
    case Exp2 => ScanAcceptsExp2(s, c, fraction);
    case Exp3 => ScanAcceptsExp3(s, c, fraction);
  }

  lemma {:induction false} HeadTail(s: seq<char>, c: char)
    ensures (s + [c])[0] == if |s| > 0 then s[0] else c
    ensures |s| > 0 ==> (s + [c])[1..] == s[1..] + [c]
  {
  }

  lemma {:induction false} ScanAcceptsMinus(s: seq<char>, c: char, fraction: bool)
    requires !IsNumberChar(c)
    ensures ScanNumber(Minus, s + [c]) == Ended(fraction, |s|) <==> Accepts(Minus, s, fraction)
    decreases |s|, 0
  {
    HeadTail(s, c);
    if |s| > 0 && s[0] == '0' {
      ScanAccepts(Zero, s[1..], c, fraction);
    } else if |s| > 0 && IsNonzeroDigit(s[0]) {
      ScanAccepts(Integer, s[1..], c, fraction);
    }
  }

  lemma {:induction false} ScanAcceptsZero(s: seq<char>, c: char, fraction: bool)
    requires !IsNumberChar(c)
    ensures ScanNumber(Zero, s + [c]) == Ended(fraction, |s|) <==> Accepts(Zero, s, fraction)
    decreases |s|, 0
  {
    HeadTail(s, c);
    if |s| > 0 && s[0] == '.' {
      assert ScanNumber(Zero, s + [c]) == Shifted(ScanNumber(Fraction1, s[1..] + [c]));
      ScanAccepts(Fraction1, s[1..], c, fraction);
      ZeroThenPoint(s, fraction);
    } else if |s| > 0 && IsExp(s[0]) {
      assert ScanNumber(Zero, s + [c]) == Shifted(ScanNumber(Exp1, s[1..] + [c]));
      ScanAccepts(Exp1, s[1..], c, fraction);
      ZeroThenExponent(s, fraction);
    }
  }

  /** After a zero, a point is followed by what the first fraction phase accepts. */
  lemma ZeroThenPoint(s: seq<char>, fraction: bool)
    requires |s| > 0 && s[0] == '.'
    ensures Accepts(Zero, s, fraction) <==> Accepts(Fraction1, s[1..], fraction)
  {
    var r := s[1..];
    if |r| > 0 && IsDigit(r[0]) {
      assert r[1..][DigitRun(r[1..])..] == s[1 + DigitRun(s[1..])..];
    }
  }

  /** After a zero, an exponent marker is followed by what the first exponent phase accepts. */
  lemma ZeroThenExponent(s: seq<char>, fraction: bool)
    requires |s| > 0 && IsExp(s[0])
    ensures Accepts(Zero, s, fraction) <==> Accepts(Exp1, s[1..], fraction)
  {
    ExponentTail(s);
  }

  lemma {:induction false} ScanAcceptsInteger(s: seq<char>, c: char, fraction: bool)
    requires !IsNumberChar(c)
    ensures ScanNumber(Integer, s + [c]) == Ended(fraction, |s|) <==> Accepts(Integer, s, fraction)
    decreases |s|, 1
  {
    var r := s[DigitRun(s)..];
    DigitsThenRest(Integer, s, c);
    HeadTail(r, c);
    assert ScanNumber(Integer, r + [c]) == ScanNumber(Zero, r + [c]);
    ScanAcceptsZero(r, c, fraction);
  }

  /** A looping phase skips the digits of `s` and goes on with the rest. */
  lemma DigitsThenRest(p: NumberPhase, s: seq<char>, c: char)
    requires p in {Integer, Fraction2, Exp3} && !IsDigit(c)
    ensures ScanNumber(p, s + [c]) == ShiftedBy(ScanNumber(p, s[DigitRun(s)..] + [c]), DigitRun(s))
  {
    var n := DigitRun(s);
    ScanSkipsDigits(p, s + [c]);
    DigitRunAppend(s, c);
    assert (s + [c])[n..] == s[n..] + [c];
  }

  lemma {:induction false} ScanAcceptsFraction1(s: seq<char>, c: char, fraction: bool)
    requires !IsNumberChar(c)
    ensures ScanNumber(Fraction1, s + [c]) == Ended(fraction, |s|) <==> Accepts(Fraction1, s, fraction)
    decreases |s|, 0
  {
    HeadTail(s, c);
    if |s| > 0 && IsDigit(s[0]) {
      ScanAccepts(Fraction2, s[1..], c, fraction);
    }
  }

  lemma {:induction false} ScanAcceptsFraction2(s: seq<char>, c: char, fraction: bool)
    requires !IsNumberChar(c)
    ensures ScanNumber(Fraction2, s + [c]) == Ended(fraction, |s|) <==> Accepts(Fraction2, s, fraction)
    decreases |s|, 1
  {
    var r := s[DigitRun(s)..];
    DigitsThenRest(Fraction2, s, c);
    HeadTail(r, c);
    if |r| > 0 && IsExp(r[0]) {
      assert ScanNumber(Fraction2, r + [c]) == Shifted(ScanNumber(Exp1, r[1..] + [c]));
      ScanAccepts(Exp1, r[1..], c, fraction);
    }
    FractionDigitsThenRest(s, fraction);
  }

  /** The fraction's digits end the number or are followed by an exponent. */
  lemma FractionDigitsThenRest(s: seq<char>, fraction: bool)
    ensures var r := s[DigitRun(s)..];
      Accepts(Fraction2, s, fraction) <==> fraction && (r == [] || (IsExp(r[0]) && Accepts(Exp1, r[1..], fraction)))
  {
    var r := s[DigitRun(s)..];
    if |r| > 0 && IsExp(r[0]) {
      ExponentTail(r);
    }
  }

  lemma {:induction false} ScanAcceptsExp1(s: seq<char>, c: char, fraction: bool)
    requires !IsNumberChar(c)
    ensures ScanNumber(Exp1, s + [c]) == Ended(fraction, |s|) <==> Accepts(Exp1, s, fraction)
    decreases |s|, 0
  {
    HeadTail(s, c);
    var e := ['e'] + s;
    assert e[1..] == s;
    if |s| > 0 && (s[0] == '+' || s[0] == '-') {
      assert e[2..] == s[1..];
      ScanAccepts(Exp2, s[1..], c, fraction);
    } else if |s| > 0 && IsDigit(s[0]) {
      ScanAccepts(Exp3, s[1..], c, fraction);
    }
  }

  lemma {:induction false} ScanAcceptsExp2(s: seq<char>, c: char, fraction: bool)
    requires !IsNumberChar(c)
    ensures ScanNumber(Exp2, s + [c]) == Ended(fraction, |s|) <==> Accepts(Exp2, s, fraction)
    decreases |s|, 0
  {
    HeadTail(s, c);
    if |s| > 0 && IsDigit(s[0]) {
      ScanAccepts(Exp3, s[1..], c, fraction);
    }
  }

  lemma {:induction false} ScanAcceptsExp3(s: seq<char>, c: char, fraction: bool)
    requires !IsNumberChar(c)
    ensures ScanNumber(Exp3, s + [c]) == Ended(fraction, |s|) <==> Accepts(Exp3, s, fraction)
    decreases |s|, 1
  {
    DigitsThenRest(Exp3, s, c);
    HeadTail(s[DigitRun(s)..], c);
  }

  lemma {:induction false} DigitRunAppend(s: seq<char>, c: char)
    requires !IsDigit(c)
    ensures DigitRun(s + [c]) == DigitRun(s)
    decreases |s|
  {
    if |s| > 0 {
      assert (s + [c])[1..] == s[1..] + [c];
      DigitRunAppend(s[1..], c);
    }
  }

  lemma {:induction false} DigitRunOfRun(s: seq<char>)
    ensures DigitRun(s[..DigitRun(s)]) == DigitRun(s)
    decreases |s|
  {
    if |s| > 0 && IsDigit(s[0]) {
      DigitRunOfRun(s[1..]);
      assert s[..DigitRun(s)][1..] == s[1..][..DigitRun(s[1..])];
    }
  }

  /** For an unsigned token the automaton's acceptance is the grammar's `int [ frac ] [ exp ]`. */
  lemma {:induction false} UnsignedAcceptsIsGrammar(u: seq<char>, fraction: bool)
    requires |u| > 0 && IsDigit(u[0])
    ensures Accepts(FirstPhase(u[0]).value, u[1..], fraction) <==>
            (IsIntPart(u[..DigitRun(u)]) && IsFracExp(u[DigitRun(u)..]) && fraction == !IsIntPart(u))
  {
    var r := u[1..];
    assert u[DigitRun(u)..] == r[DigitRun(r)..];
    DigitRunOfRun(u);
    if u[0] == '0' {
      if |r| > 0 && IsDigit(r[0]) {
        assert u[..DigitRun(u)][1] == r[0];
      } else {
        assert u[..DigitRun(u)] == ['0'];
      }
    }
  }

  lemma {:induction false} AcceptsIsGrammar(t: seq<char>, fraction: bool)
    requires |t| > 0 && FirstPhase(t[0]).Some?
    ensures Accepts(FirstPhase(t[0]).value, t[1..], fraction) <==>
            IsJsonNumber(t) && fraction == !IsJsonInteger(t)
  {
    var u := Unsigned(t);
    if t[0] == '-' {
      if |u| > 0 && IsDigit(u[0]) {
        UnsignedAcceptsIsGrammar(u, fraction);
      }
    } else {
      UnsignedAcceptsIsGrammar(u, fraction);
    }
  }

  /**
   * A token the parser starts as a number, followed by a character that cannot
   * continue it, ends exactly at that character if and only if it is a number
   * of RFC 8259 section 6; it ends as an integer exactly when it has neither a
   * fraction nor an exponent.
   */
  lemma {:induction false} NumberLexerMatchesGrammar(t: seq<char>, c: char)
    requires |t| > 0 && FirstPhase(t[0]).Some? && !IsNumberChar(c)
    ensures ScanNumber(FirstPhase(t[0]).value, t[1..] + [c]) == Ended(false, |t| - 1) <==> IsJsonInteger(t)
    ensures ScanNumber(FirstPhase(t[0]).value, t[1..] + [c]) == Ended(true, |t| - 1) <==>
            IsJsonNumber(t) && !IsJsonInteger(t)
  {
    var p := FirstPhase(t[0]).value;
    ScanAccepts(p, t[1..], c, false);
    ScanAccepts(p, t[1..], c, true);
    AcceptsIsGrammar(t, false);
    AcceptsIsGrammar(t, true);
  }

  function FinishOf(fraction: bool): EndOfInput
  {
    if fraction then FinishFraction else FinishInteger
  }

  /** Finishing at the end of the whole input agrees with finishing at a terminating character. */
  lemma {:induction false} EndOfInputAgreesWithTerminator(p: NumberPhase, s: seq<char>, c: char, fraction: bool)
    requires !IsNumberChar(c)
    ensures ScanNumber(p, s + [c]) == Ended(fraction, |s|) <==>
            ScanNumber(p, s).Suspended? && AtEndOfInput(ScanNumber(p, s).phase) == FinishOf(fraction)
    decreases |s|
  {
    HeadTail(s, c);
    if |s| > 0 {
      match NumberDelta(p, s[0])
      case Advance(q) => EndOfInputAgreesWithTerminator(q, s[1..], c, fraction);
      case _ =>
    }
  }

  /**
   * A whole input that holds only a number token is finished as an integer
   * exactly when it is an RFC 8259 integer, and as a fraction exactly when it
   * is an RFC 8259 number with a fraction or an exponent.
   */
  lemma {:induction false} NumberAtEndOfInputMatchesGrammar(t: seq<char>)
    requires |t| > 0 && FirstPhase(t[0]).Some?
    ensures var r := ScanNumber(FirstPhase(t[0]).value, t[1..]);
      (r.Suspended? && AtEndOfInput(r.phase) == FinishInteger <==> IsJsonInteger(t)) &&
      (r.Suspended? && AtEndOfInput(r.phase) == FinishFraction <==> IsJsonNumber(t) && !IsJsonInteger(t))
  {
    var p := FirstPhase(t[0]).value;
    EndOfInputAgreesWithTerminator(p, t[1..], ' ', false);
    EndOfInputAgreesWithTerminator(p, t[1..], ' ', true);
    NumberLexerMatchesGrammar(t, ' ');
  }

  // ---------------------------------------------------------------------------
  // Chunk boundaries.

  /** The phase reached after consuming all of `s` without the number ending, if it does not end. */
  function Consume(p: NumberPhase, s: seq<char>): Option<NumberPhase>
    decreases |s|
  {
    if s == [] then Some(p)
    else match NumberDelta(p, s[0])
      case Advance(q) => Consume(q, s[1..])
      case _ => None
  }

  /**
   * Splitting a number across two chunks: the first chunk suspends in the phase
   * reached, recorded through `SuspendedPhase`, and the scan of the joined input
   * continues from the phase actually reached.
   */
  lemma {:induction false} ScanNumberAcrossChunks(p: NumberPhase, s1: seq<char>, s2: seq<char>)
    requires Consume(p, s1).Some?
    ensures ScanNumber(p, s1) == Suspended(SuspendedPhase(Consume(p, s1).value))
    ensures ScanNumber(p, s1 + s2) == ShiftedBy(ScanNumber(Consume(p, s1).value, s2), |s1|)
    decreases |s1|
  {
    if s1 != [] {
      var q := NumberDelta(p, s1[0]).next;
      assert (s1 + s2)[0] == s1[0];
      assert (s1 + s2)[1..] == s1[1..] + s2;
      ScanNumberAcrossChunks(q, s1[1..], s2);
      assert Consume(p, s1) == Consume(q, s1[1..]);
      assert ScanNumber(p, s1 + s2) == Shifted(ScanNumber(q, s1[1..] + s2));
      var x := ScanNumber(Consume(p, s1).value, s2);
      assert Shifted(ShiftedBy(x, |s1| - 1)) == ShiftedBy(x, |s1|) by {
        match x
        case _ =>
      }
    } else {
      assert s1 + s2 == s2;
      var x := ScanNumber(p, s2);
      assert ShiftedBy(x, 0) == x by {
        match x
        case _ =>
      }
    }
  }

  /**
   * Resuming from the recorded phase is faithful unless the first chunk stops
   * right after a leading zero.
   */
  lemma {:induction false} ResumeIsFaithful(p: NumberPhase, s1: seq<char>, s2: seq<char>)
    requires Consume(p, s1).Some? && Consume(p, s1).value != Zero
    ensures ScanNumber(p, s1).Suspended?
    ensures ScanNumber(p, s1 + s2) == ShiftedBy(ScanNumber(ScanNumber(p, s1).phase, s2), |s1|)
  {
    ScanNumberAcrossChunks(p, s1, s2);
  }

  /**
   * The exception: "0" at the end of one chunk and "5" at the start of the next
   * is read as the integer 05, while "05" in one chunk is a leading-zero error.
   */
  lemma ZeroAtChunkEndSkipsLeadingZeroCheck()
    ensures ScanNumber(Zero, "5 ") == Rejected(LeadingZero, Some(Zero), 0)
    ensures ScanNumber(Zero, "") == Suspended(Integer)
    ensures ScanNumber(Integer, "5 ") == Ended(false, 1)
  {
  }

  // ---------------------------------------------------------------------------
  // The value of an integer token.

  predicate DigitChars(s: seq<char>) { forall i :: 0 <= i < |s| ==> IsDigit(s[i]) }

  function Pow10(n: nat): (p: nat)
    ensures p >= 1
  {
    if n == 0 then 1 else 10 * Pow10(n - 1)
  }

  /** The value of a run of decimal digits, most significant first. */
  function DigitsValue(s: seq<char>): nat
    requires DigitChars(s)
  {
    if s == [] then 0 else DigitsValue(s[..|s| - 1]) * 10 + (s[|s| - 1] as int - '0' as int)
  }

  /** A run of n digits is below 10^n, and at least 10^(n-1) when it does not start with 0. */
  lemma {:induction false} DigitsValueBounds(s: seq<char>)
    requires DigitChars(s)
    ensures DigitsValue(s) < Pow10(|s|)
    ensures |s| > 0 && s[0] != '0' ==> Pow10(|s| - 1) <= DigitsValue(s)
  {
    if s != [] {
      var init := s[..|s| - 1];
      DigitsValueBounds(init);
      if |init| > 0 {
        assert init[0] == s[0];
      }
    }
  }

  /**
   * The library's decimal-to-integer conversion: an optional minus sign and at
   * least one digit give their value; anything else fails. Range is checked by
   * the caller.
   */
  function DecimalValue(t: seq<char>): Option<int>
  {
    if |t| > 1 && t[0] == '-' && DigitChars(t[1..]) then Some(-(DigitsValue(t[1..]) as int))
    else if |t| > 0 && DigitChars(t) then Some(DigitsValue(t))
    else None
  }

  /**
   * The event an integer token ends in: a signed value for a token with a minus
   * sign, an unsigned one otherwise, and the token itself tagged as a big
   * integer when the value does not fit the 64-bit type.
   */
  function IntegerEvent(t: seq<char>): (e: Event)
    requires |t| > 0
    ensures e.Int64Value? || e.Uint64Value? || e == StringValue(t, Bigint)
    ensures e.Int64Value? ==> t[0] == '-' && DecimalValue(t) == Some(e.i) && IsInt64(e.i) && e.tag == NoTag
    ensures e.Uint64Value? ==> t[0] != '-' && DecimalValue(t) == Some(e.u) && IsUint64(e.u) && e.tag == NoTag
    ensures e.StringValue? <==>
      (DecimalValue(t).None? || !(if t[0] == '-' then IsInt64(DecimalValue(t).value) else IsUint64(DecimalValue(t).value)))
  {
    var v := DecimalValue(t);
    if t[0] == '-' then
      if v.Some? && IsInt64(v.value) then Int64Value(v.value, NoTag) else StringValue(t, Bigint)
    else
      if v.Some? && IsUint64(v.value) then Uint64Value(v.value, NoTag) else StringValue(t, Bigint)
  }

  lemma {:induction false} AllDigitsAreDigitChars(s: seq<char>)
    requires AllDigits(s)
    ensures DigitChars(s)
  {
    assert s[..DigitRun(s)] == s;
  }

  /**
   * Which RFC 8259 integers stay 64-bit: up to 18 digits always, 19 digits
   * always when unsigned; 20 digits or more when signed, and 21 or more when
   * unsigned, always become big integers.
   */
  lemma {:induction false} IntegerEventByDigitCount(t: seq<char>)
    requires IsJsonInteger(t)
    ensures var n := |Unsigned(t)|;
      var e := IntegerEvent(t);
      (n <= 18 ==> !e.StringValue?) &&
      (t[0] != '-' && n <= 19 ==> e.Uint64Value?) &&
      (t[0] == '-' && n >= 20 ==> e == StringValue(t, Bigint)) &&
      (t[0] != '-' && n >= 21 ==> e == StringValue(t, Bigint))
  {
    var u := Unsigned(t);
    var n := |u|;
    IntegerMagnitude(t);
    var v := DigitsValue(u);
    Pow10Values();
    if n <= 19 {
      Pow10Monotone(n, 19);
      if n <= 18 {
        Pow10Monotone(n, 18);
      }
    } else {
      Pow10Monotone(19, n - 1);
      if n >= 21 {
        Pow10Monotone(20, n - 1);
      }
    }
  }

  /** An integer token's value is its digits' value, signed by its minus, and its digit count bounds it. */
  lemma IntegerMagnitude(t: seq<char>)
    requires IsJsonInteger(t)
    ensures DigitChars(Unsigned(t))
    ensures DecimalValue(t) == Some(if t[0] == '-' then -(DigitsValue(Unsigned(t)) as int) else DigitsValue(Unsigned(t)))
    ensures DigitsValue(Unsigned(t)) < Pow10(|Unsigned(t)|)
    ensures |Unsigned(t)| > 1 ==> Pow10(|Unsigned(t)| - 1) <= DigitsValue(Unsigned(t))
  {
    var u := Unsigned(t);
    if u != ['0'] {
      AllDigitsAreDigitChars(u);
    }
    DigitsValueBounds(u);
  }

  lemma Pow10Values()
    ensures Pow10(18) == 1000000000000000000
    ensures Pow10(19) == 10000000000000000000
    ensures Pow10(20) == 100000000000000000000
  {
    assert Pow10(6) == 1000000;
    assert Pow10(12) == 1000000000000;
    assert Pow10(18) == 1000000000000000000;
  }

  lemma {:induction false} Pow10Monotone(m: nat, n: nat)
    requires m <= n
    ensures Pow10(m) <= Pow10(n)
    decreases n - m
  {
    if m < n {
      Pow10Monotone(m, n - 1);
    }
  }
}
