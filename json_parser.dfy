/**
 * The resumable JSON text parser: a state machine over chunks of characters
 * that reports what it reads as visitor events. The number and string
 * lexers it runs are the pure machines of `JsonNumber` and `JsonString`;
 * this module holds the parser object, its stack of frames and its driver.
 */
module JsonParsing {
  import opened Events
  import opened JsonErrors
  import opened JsonNumber
  import opened JsonString

  /** The parser's `state_`, and the frames its state stack holds. */
  datatype ParseState =
    | Frame(frame: FrameKind)
    | Top(top: TopState)
    | Expect(awaiting: Expectation)
    | Comment(comment: CommentState)
    | Cr | String | Number
    | Keyword(keyword: KeywordState)

  /** The frames that only ever sit on the stack: the root, an open object or array, a key being read. */
  datatype FrameKind = Root | Object | Array | MemberName

  /** The states outside every container: before the document, after it, finished. */
  datatype TopState = Start | Accept | Done

  /**
   * The states inside a container that wait for the next token:
   * `expect_comma_or_end`, `expect_member_name_or_end`, `expect_member_name`,
   * `expect_colon`, `expect_value_or_end` and `expect_value`.
   */
  datatype Expectation = CommaOrEnd | NameOrEnd | Name | Colon | ValueOrEnd | Value

  /** After a slash, in a line comment, in a block comment, and after a star in a block comment. */
  datatype CommentState = Slash | SlashSlash | SlashStar | SlashStarStar

  /** The letters of `true`, `false` and `null` read so far. */
  datatype KeywordState = T | Tr | Tru | F | Fa | Fal | Fals | N | Nu | Nul

  /** What one call into the parser ends with. `Diverges` marks the input on which the library loops forever. */
  datatype Status = Ok | Error(code: JsonErrc) | Diverges

  /** What the library's decimal-to-double conversion reports; the value itself is opaque. */
  datatype DoubleParse = Converted(d: Float64) | OutOfRange(d: Float64) | NotANumber

  datatype ParserOptions = ParserOptions(
    maxNestingDepth: int,
    allowTrailingComma: bool,
    allowComments: bool,
    losslessNumber: bool,
    losslessBignum: bool,
    nanToStr: Option<string>,
    infToStr: Option<string>,
    neginfToStr: Option<string>)

  const NaN: Float64 := Float64(0x7FF8_0000_0000_0000)
  const Infinity: Float64 := Float64(0x7FF0_0000_0000_0000)
  const NegInfinity: Float64 := Float64(0xFFF0_0000_0000_0000)

  /** The text-to-double substitutions the options enable, in the order the parser searches them. */
  function StringDoubleMap(o: ParserOptions): (m: seq<(string, Float64)>)
    ensures |m| <= 3
    ensures o.nanToStr.Some? ==> |m| > 0 && m[0] == (o.nanToStr.value, NaN)
    ensures (o.nanToStr.None? && o.infToStr.None? && o.neginfToStr.None?) <==> m == []
  {
    (if o.nanToStr.Some? then [(o.nanToStr.value, NaN)] else []) +
    (if o.infToStr.Some? then [(o.infToStr.value, Infinity)] else []) +
    (if o.neginfToStr.Some? then [(o.neginfToStr.value, NegInfinity)] else [])
  }

  /** The first substitution for `text`, as a linear search finds it. */
  function Lookup(m: seq<(string, Float64)>, text: string): (r: Option<Float64>)
    ensures r.Some? <==> exists i :: 0 <= i < |m| && m[i].0 == text
    ensures r.Some? ==> exists i :: 0 <= i < |m| && m[i] == (text, r.value) &&
                                    forall j :: 0 <= j < i ==> m[j].0 != text
  {
    if m == [] then None
    else if m[0].0 == text then Some(m[0].1)
    else
      var r := Lookup(m[1..], text);
      if r.Some? then
        var i :| 0 <= i < |m| - 1 && m[1..][i] == (text, r.value) && forall j :: 0 <= j < i ==> m[1..][j].0 != text;
        assert m[i + 1] == (text, r.value);
        r
      else r
  }

  predicate IsJsonSpace(c: char) { c == ' ' || c == '\t' || c == '\n' || c == '\r' }

  /** The states a comment or a pending carriage return hands back to. */
  predicate IsReturnState(s: ParseState)
  {
    s.Expect? || s == Top(Start)
  }

  /** The nesting levels at which a state can be current. */
  predicate StateOk(s: ParseState, level: nat)
  {
    match s
    case Frame(_) => false
    case Top(_) => level == 0
    case Expect(_) => level >= 1
    case _ => true
  }

  predicate ReturnOk(s: ParseState, level: nat) { IsReturnState(s) && StateOk(s, level) }

  /**
   * What the stack holds above the root and the container frames: the frame a
   * comment or a pending carriage return returns to, and the member-name frame
   * of a key being read.
   */
  predicate TailOk(state: ParseState, tail: seq<ParseState>, level: nat)
  {
    if state.Comment? then |tail| == 1 && ReturnOk(tail[0], level)
    else if state == Cr then
      (|tail| == 1 && ReturnOk(tail[0], level)) ||
      (|tail| == 2 && ReturnOk(tail[0], level) && tail[1] == Comment(SlashStar))
    else if state == String then tail == [] || (tail == [Frame(MemberName)] && level >= 1)
    else tail == [] && StateOk(state, level)
  }

  /** The driver's second termination component for steps that consume nothing. */
  function Rank(s: ParseState): nat
  {
    if s == Number then 2 else if s == Top(Accept) then 1 else 0
  }

  /** A carriage return ends a line; so does a line feed that does not complete a CR LF pair. */
  function Lines(s: seq<char>): nat
  {
    if s == [] then 0
    else
      var c := s[|s| - 1];
      var init := s[..|s| - 1];
      Lines(init) + (if c == '\r' || (c == '\n' && !(|init| > 0 && init[|init| - 1] == '\r')) then 1 else 0)
  }

  // ---------------------------------------------------------------------------
  // Block comments.

  /** Where a block comment's body scan stands: in the body, just after a `*`, or past the closing `/`. */
  datatype BlockComment = InBody | AfterStar | PastClose

  /** The block-comment step as the library writes it: any character after a `*` other than `/` returns to the body. */
  function BlockStepAsWritten(b: BlockComment, c: char): BlockComment
  {
    match b
    case InBody => if c == '*' then AfterStar else InBody
    case AfterStar => if c == '/' then PastClose else InBody
    case PastClose => PastClose
  }

  /** The block-comment step with a run of stars kept pending: a `*` after a `*` may still start the closing pair. */
  function BlockStep(b: BlockComment, c: char): BlockComment
  {
    match b
    case InBody => if c == '*' then AfterStar else InBody
    case AfterStar => if c == '/' then PastClose else if c == '*' then AfterStar else InBody
    case PastClose => PastClose
  }

  function ShiftOne(r: Option<nat>): Option<nat>
  {
    if r.Some? then Some(r.value + 1) else None
  }

  /** How many characters of `s` the comment scan consumes up to and including its closing `/`. */
  function BlockRun(s: seq<char>, b: BlockComment, asWritten: bool): Option<nat>
    requires b != PastClose
  {
    if s == [] then None
    else
      var b' := if asWritten then BlockStepAsWritten(b, s[0]) else BlockStep(b, s[0]);
      if b' == PastClose then Some(1) else ShiftOne(BlockRun(s[1..], b', asWritten))
  }

  /** The end of the first `*` `/` pair in a comment body: the C comment rule. */
  function FirstClose(s: seq<char>): (r: Option<nat>)
    ensures r.Some? ==> 2 <= r.value <= |s| && s[r.value - 2] == '*' && s[r.value - 1] == '/'
  {
    if |s| < 2 then None
    else if s[0] == '*' && s[1] == '/' then Some(2)
    else ShiftOne(FirstClose(s[1..]))
  }

  /** With the corrected step, a block comment ends exactly at the first `*` `/` of its body. */
  lemma {:induction false} BlockCommentEndsAtFirstClose(s: seq<char>)
    ensures BlockRun(s, InBody, false) == FirstClose(s)
    ensures BlockRun(s, AfterStar, false) == (var r := FirstClose(['*'] + s); if r.Some? then Some(r.value - 1) else None)
    decreases |s|
  {
    if s != [] {
      BlockCommentEndsAtFirstClose(s[1..]);
      assert (['*'] + s)[1..] == s;
      if s[0] == '*' {
        assert ['*'] + s[1..] == s;
      }
    }
  }

  /** As written, the comment `/` `*` `*` `*` `/` does not end: its second star sends the scan back to the body. */
  lemma AsWrittenMissesStarStarSlash()
    ensures BlockRun("**/", InBody, true) == None
    ensures FirstClose("**/") == Some(3)
  {
    assert "**/"[1..] == "*/" && "*/"[1..] == "/" && "/"[1..] == [];
  }

  // ---------------------------------------------------------------------------
  // What a finished token emits.

  /** The event for a finished string outside a key: a configured substitution wins over the text. */
  function StringValueEvent(m: seq<(string, Float64)>, text: string): (e: Event)
    ensures e.DoubleValue? <==> Lookup(m, text).Some?
    ensures e.DoubleValue? ==> e == DoubleValue(Lookup(m, text).value, NoTag)
    ensures !e.DoubleValue? ==> e == StringValue(text, NoTag)
  {
    var d := Lookup(m, text);
    if d.Some? then DoubleValue(d.value, NoTag) else StringValue(text, NoTag)
  }

  /**
   * The event for a finished number with a fraction or an exponent, or `None`
   * when it is an error: exact text under `losslessNumber`, otherwise the
   * converted double, with an out-of-range conversion kept as text only under
   * `losslessBignum`.
   */
  function FractionEvent(text: seq<char>, losslessNumber: bool, losslessBignum: bool, conv: DoubleParse): (r: Option<Event>)
    ensures losslessNumber ==> r == Some(StringValue(text, Bigdec))
    ensures !losslessNumber && conv.Converted? ==> r == Some(DoubleValue(conv.d, NoTag))
    ensures !losslessNumber && conv.OutOfRange? ==>
      r == Some(if losslessBignum then StringValue(text, Bigdec) else DoubleValue(conv.d, NoTag))
    ensures r.None? <==> !losslessNumber && conv.NotANumber?
  {
    if losslessNumber then Some(StringValue(text, Bigdec))
    else match conv
      case Converted(d) => Some(DoubleValue(d, NoTag))
      case OutOfRange(d) => Some(if losslessBignum then StringValue(text, Bigdec) else DoubleValue(d, NoTag))
      case NotANumber => None
  }

  /** The step a keyword state takes: the character it expects and the state after it, `None` when the keyword is complete. */
  function KeywordStep(k: KeywordState): (r: (char, Option<KeywordState>))
    ensures r.1.None? <==> (k == Tru || k == Fals || k == Nul)
  {
    match k
    case T => ('r', Some(Tr))
    case Tr => ('u', Some(Tru))
    case Tru => ('e', None)
    case F => ('a', Some(Fa))
    case Fa => ('l', Some(Fal))
    case Fal => ('s', Some(Fals))
    case Fals => ('e', None)
    case N => ('u', Some(Nu))
    case Nu => ('l', Some(Nul))
    case Nul => ('l', None)
  }

  /** The keyword each keyword state is reading, and the value it stands for. */
  function KeywordValue(k: KeywordState): Event
  {
    if k == T || k == Tr || k == Tru then BoolValue(true, NoTag)
    else if k == F || k == Fa || k == Fal || k == Fals then BoolValue(false, NoTag)
    else NullValue(NoTag)
  }

  /** How many characters a keyword state still expects. */
  function KeywordRank(k: KeywordState): nat
  {
    match k
    case Fals | Tru | Nul => 1
    case Fal | Tr | Nu => 2
    case Fa | T | N => 3
    case F => 4
  }

  /** The characters the keyword states expect, read from `k` until the keyword is complete. */
  function KeywordRest(k: KeywordState): (r: string)
    ensures |r| == KeywordRank(k)
    decreases KeywordRank(k)
  {
    var step := KeywordStep(k);
    if step.1.None? then [step.0]
    else
      assert KeywordRank(step.1.value) < KeywordRank(k);
      [step.0] + KeywordRest(step.1.value)
  }

  /**
   * Every keyword state stands for the same value as the state it moves to,
   * and reading from the state after a first letter spells exactly the rest
   * of that letter's keyword.
   */
  lemma KeywordStatesSpellKeywords(k: KeywordState)
    ensures KeywordStep(k).1.Some? ==> KeywordValue(KeywordStep(k).1.value) == KeywordValue(k)
    ensures (k == T || k == F || k == N) ==> KeywordText(k) == [KeywordText(k)[0]] + KeywordRest(k)
  {
  }

  /**
   * The stack is the root frame, one object or array frame per open
   * container, and whatever the current state keeps above them.
   */
  predicate StackOk(stack: seq<ParseState>, level: nat, state: ParseState)
  {
    |stack| >= level + 1 && stack[0] == Frame(Root) &&
    (forall i :: 1 <= i <= level ==> stack[i] == Frame(Object) || stack[i] == Frame(Array)) &&
    TailOk(state, stack[level + 1..], level)
  }

  /** A pending carriage return sits on the frame it returns to; popping that frame makes it current again. */
  lemma CrResumes(stack: seq<ParseState>, level: nat)
    requires StackOk(stack, level, Cr)
    ensures |stack| >= level + 2
    ensures StackOk(stack[..|stack| - 1], level, stack[|stack| - 1])
  {
    var tail := stack[level + 1..];
    var rest := stack[..|stack| - 1];
    assert rest[level + 1..] == tail[..|tail| - 1];
    assert forall i :: 1 <= i <= level ==> rest[i] == stack[i];
  }

  /** A state with nothing kept above the containers can be replaced by another such state. */
  lemma StackOkReplace(stack: seq<ParseState>, level: nat, s: ParseState, s': ParseState)
    requires StackOk(stack, level, s) && |stack| == level + 1
    requires StateOk(s', level) && !s'.Comment? && s' != Cr
    ensures StackOk(stack, level, s')
  {
    assert stack[level + 1..] == [];
  }

  /** The keyword a first keyword state starts. */
  function KeywordText(first: KeywordState): (w: string)
    requires first == T || first == F || first == N
    ensures |w| >= 4 && w[0] == (if first == T then 't' else if first == F then 'f' else 'n')
  {
    if first == T then "true" else if first == F then "false" else "null"
  }

  /** A character that starts a value in the value-start states. */
  predicate IsValueStart(c: char)
  {
    c == '{' || c == '[' || c == '"' || c == '-' || IsDigit(c) || c == 'n' || c == 't' || c == 'f'
  }

  // ---------------------------------------------------------------------------
  // Whitespace, lines and columns.

  predicate AllSpace(s: seq<char>) { forall i :: 0 <= i < |s| ==> IsJsonSpace(s[i]) }

  predicate IsLineBreak(c: char) { c == '\r' || c == '\n' }

  /** Just past the last line-break character of `s`, if any. */
  function LastBreak(s: seq<char>): (r: Option<nat>)
    ensures r.Some? ==> 0 < r.value <= |s| && IsLineBreak(s[r.value - 1])
    ensures r.Some? ==> forall i :: r.value <= i < |s| ==> !IsLineBreak(s[i])
    ensures r.None? ==> forall i :: 0 <= i < |s| ==> !IsLineBreak(s[i])
  {
    if s == [] then None
    else if IsLineBreak(s[|s| - 1]) then Some(|s|)
    else LastBreak(s[..|s| - 1])
  }

  /** Where the column mark stands after skipping `s` from `position`: past its last line break, else where it was. */
  function MarkAfter(s: seq<char>, position: nat, mark: nat): nat
  {
    match LastBreak(s)
    case Some(k) => position + k
    case None => mark
  }

  lemma LinesSnoc(s: seq<char>, c: char)
    ensures Lines(s + [c]) == Lines(s) + (if c == '\r' || (c == '\n' && !(|s| > 0 && s[|s| - 1] == '\r')) then 1 else 0)
    ensures LastBreak(s + [c]) == if IsLineBreak(c) then Some(|s| + 1) else LastBreak(s)
  {
    assert (s + [c])[..|s|] == s;
  }

  lemma AllSpaceSnoc(s: seq<char>, c: char)
    ensures AllSpace(s + [c]) <==> AllSpace(s) && IsJsonSpace(c)
  {
    assert forall i :: 0 <= i < |s| ==> (s + [c])[i] == s[i];
    assert (s + [c])[|s|] == c;
  }

  /**
   * The whitespace loop over the rest `s` of a chunk: it stops at the end, at
   * a character that is not whitespace, or before a carriage return that ends
   * the chunk. `ln` and `mark` are the line count and the column mark after
   * the `n` characters it skips.
   */
  method SpaceRun(s: seq<char>, line: nat, position: nat, markPosition: nat) returns (n: nat, ln: nat, mark: nat)
    requires markPosition <= position
    ensures n <= |s| && AllSpace(s[..n])
    ensures n == |s| || !IsJsonSpace(s[n]) || (s[n] == '\r' && n + 1 == |s|)
    ensures ln == line + Lines(s[..n])
    ensures mark == MarkAfter(s[..n], position, markPosition) && mark <= position + n
  {
    n, ln, mark := 0, line, markPosition;
    while n < |s| && IsJsonSpace(s[n]) && !(s[n] == '\r' && n + 1 == |s|)
      invariant n <= |s| && AllSpace(s[..n])
      invariant ln == line + Lines(s[..n])
      invariant mark == MarkAfter(s[..n], position, markPosition) && mark <= position + n
      invariant 0 < n < |s| && s[n - 1] == '\r' ==> s[n] != '\n'
      decreases |s| - n
    {
      var c := s[n];
      SkipOne(s, n, position, markPosition);
      n := n + 1;
      if c == '\n' {
        ln, mark := ln + 1, position + n;
      } else if c == '\r' {
        ln := ln + 1;
        if s[n] == '\n' {
          SkipOne(s, n, position, markPosition);
          n := n + 1;
        }
        mark := position + n;
      }
    }
  }

  /** One more whitespace character of `s` skipped: how the line count, the mark and the all-space fact move. */
  lemma SkipOne(s: seq<char>, n: nat, position: nat, markPosition: nat)
    requires n < |s| && AllSpace(s[..n]) && IsJsonSpace(s[n])
    ensures AllSpace(s[..n + 1])
    ensures Lines(s[..n + 1]) == Lines(s[..n]) + (if s[n] == '\r' || (s[n] == '\n' && !(n > 0 && s[n - 1] == '\r')) then 1 else 0)
    ensures MarkAfter(s[..n + 1], position, markPosition) ==
      if IsLineBreak(s[n]) then position + n + 1 else MarkAfter(s[..n], position, markPosition)
  {
    var c := s[n];
    assert s[..n + 1] == s[..n] + [c];
    LinesSnoc(s[..n], c);
    AllSpaceSnoc(s[..n], c);
  }

  /** The buffered text of a number that starts at `s[i]` and ends `n` characters later. */
  lemma NumberTextPrefix(s: seq<char>, i: nat, n: nat)
    requires i < |s| && i + 1 + n <= |s|
    ensures [s[i]] + s[i + 1..i + 1 + n] == s[i..i + 1 + n]
    ensures i + 1 + n == |s| ==> [s[i]] + s[i + 1..] == s[i..]
    ensures s[i + 1..][..n] == s[i + 1..i + 1 + n]
  {
  }

  /** The string lexer's scan loop over `s` from `from`: it stops at the end of the chunk or at the first character it does not simply take. */
  method StringScan(start: Lexeme, s: seq<char>, from: nat, handler: JsonErrc -> bool) returns (l: Lexeme, i: nat, out: seq<char>)
    requires from <= |s|
    ensures from <= i <= |s|
    ensures i < |s| ==> !StringDelta(l, s[i], handler).Take?
    ensures RunString(start, s[from..], handler) == Prefixed(RunString(l, s[i..], handler), i - from, out)
  {
    l := start;
    i := from;
    out := [];
    assert s[from..] == s[i..];
    while i < |s|
      invariant from <= i <= |s|
      invariant RunString(start, s[from..], handler) == Prefixed(RunString(l, s[i..], handler), i - from, out)
      decreases |s| - i
    {
      var d := StringDelta(l, s[i], handler);
      if !d.Take? {
        break;
      }
      TakeAt(s, i, l, handler, RunString(start, s[from..], handler), i - from, out);
      l := d.next;
      out := out + d.out;
      i := i + 1;
    }
  }

  // ---------------------------------------------------------------------------
  // Open containers of an event log.

  /** The effect of one visitor call on the containers left open. */
  function AfterEvent(open: seq<FrameKind>, e: Event): (r: Option<seq<FrameKind>>)
    ensures (e.BeginObject? || e.BeginArray?) ==> r == Some(open + [if e.BeginObject? then Object else Array])
    ensures (e.EndObject? || e.EndArray?) ==>
      (r.Some? <==> open != [] && open[|open| - 1] == (if e.EndObject? then Object else Array)) &&
      (r.Some? ==> r.value == open[..|open| - 1])
    ensures !(e.BeginObject? || e.BeginArray? || e.EndObject? || e.EndArray?) ==> r == Some(open)
  {
    if e.BeginObject? || e.BeginArray? then Some(open + [if e.BeginObject? then Object else Array])
    else if e.EndObject? || e.EndArray? then
      var kind := if e.EndObject? then Object else Array;
      if open != [] && open[|open| - 1] == kind then Some(open[..|open| - 1]) else None
    else Some(open)
  }

  /**
   * The objects and arrays a run of visitor calls leaves open, outermost
   * first; `None` when a call closes something other than the innermost open
   * container.
   */
  function OpenContainers(es: seq<Event>): Option<seq<FrameKind>>
  {
    if es == [] then Some([])
    else
      var open := OpenContainers(es[..|es| - 1]);
      if open.None? then None else AfterEvent(open.value, es[|es| - 1])
  }

  /** One more call on a log read from `start`. */
  lemma {:induction false} OpenContainersAppend(es: seq<Event>, start: nat, e: Event)
    requires start <= |es|
    ensures OpenContainers((es + [e])[start..]) ==
      (if OpenContainers(es[start..]).None? then None else AfterEvent(OpenContainers(es[start..]).value, e))
  {
    var run := (es + [e])[start..];
    assert run == es[start..] + [e];
    assert run[..|run| - 1] == es[start..];
  }

  /** The parser's frames for the open containers, outermost first, match `open`. */
  predicate FramesMatch(stack: seq<ParseState>, level: nat, open: seq<FrameKind>)
    requires |stack| >= level + 1
  {
    |open| == level && forall i :: 0 <= i < level ==> Frame(open[i]) == stack[i + 1]
  }

  /**
   * Closing the innermost container, of the kind its frame says, pops that
   * frame and that entry alike, and leaves the stack as it must be for the
   * state that follows.
   */
  lemma CloseMatches(stack: seq<ParseState>, level: nat, state: ParseState, es: seq<Event>, start: nat, e: Event)
    requires |stack| == level + 1 && level >= 1 && StackOk(stack, level, state)
    requires Nesting(es, start, stack, level)
    requires e == (if stack[level] == Frame(Object) then EndObject else EndArray)
    ensures Nesting(es + [e], start, stack[..level], level - 1)
    ensures StackOk(stack[..level], level - 1, if level == 1 then Top(Accept) else Expect(CommaOrEnd))
  {
    OpenContainersAppend(es, start, e);
    var open := OpenContainers(es[start..]).value;
    assert Frame(open[level - 1]) == stack[level];
    var open', stack' := open[..level - 1], stack[..level];
    assert AfterEvent(open, e) == Some(open');
    forall i | 0 <= i < level - 1
      ensures Frame(open'[i]) == stack'[i + 1]
    {
      assert open'[i] == open[i];
    }
    assert stack'[level..] == [];
  }

  /**
   * The objects and arrays the calls `es[start..]` have opened and not
   * closed are exactly the container frames `stack[1..level + 1]`.
   */
  predicate Nesting(es: seq<Event>, start: nat, stack: seq<ParseState>, level: nat)
  {
    |stack| >= level + 1 && start <= |es| && OpenContainers(es[start..]).Some? &&
    FramesMatch(stack, level, OpenContainers(es[start..]).value)
  }

  // ---------------------------------------------------------------------------
  // The parser object.

  class JsonParser {
    const options: ParserOptions
    const stringDoubleMap: seq<(string, Float64)>
    /** The caller's error handler: `true` asks the parser to continue past the error. */
    const errHandler: JsonErrc -> bool
    /** UTF-8 validation of a finished string. */
    const validate: seq<char> -> Utf8Check
    /** Decimal text to binary64. */
    const decstrToDouble: seq<char> -> DoubleParse

    var level: nat
    var cp: nat
    var cp2: nat
    var line: nat
    var position: nat
    var markPosition: nat
    var beginPosition: nat
    /** The current chunk and the read position in it. */
    var input: seq<char>
    var inputPtr: nat
    var state: ParseState
    var stringState: StringState
    var numberState: NumberPhase
    var more: bool
    var done: bool
    var cursorMode: bool
    var markLevel: int
    var buffer: seq<char>
    var stateStack: seq<ParseState>
    /** The visitor calls made so far. */
    var events: seq<Event>
    /** Where the current document's calls begin in `events`. */
    ghost var docStart: nat

    /**
     * The parser's invariant between steps: the state stack has the shape the
     * current state calls for, the read position is inside the chunk, a number
     * in progress has text, and the container frames are exactly the objects
     * and arrays the current document's events leave open. After an error
     * only `Reset` restores it.
     */
    ghost predicate Valid()
      reads this
    {
      StackOk(stateStack, level, state) &&
      inputPtr <= |input| && markPosition <= position &&
      (state == Number ==> |buffer| > 0) &&
      Nesting(events, docStart, stateStack, level)
    }

    function Parent(): ParseState
      reads this
      requires |stateStack| >= 1
    {
      stateStack[|stateStack| - 1]
    }

    function Measure(): nat
      reads this
    {
      3 * |stateStack| + Rank(state)
    }

    /** What every step of the driver keeps: the chunk, a read position that only moves on, a log that only grows, and progress. */
    twostate predicate Stepped(st: Status)
      reads this
    {
      input == old(input) && old(inputPtr) <= inputPtr && old(events) <= events && docStart == old(docStart) &&
      (st == Ok ==> Valid()) &&
      (st == Ok && more ==> old(inputPtr) < inputPtr || Measure() < old(Measure()))
    }

    // The outcomes of the first character of a value, one per kind of value.

    /** An opening brace or bracket: the container begins unless it is too deep and the handler refuses. */
    twostate predicate ContainerOpened(kind: FrameKind, st: Status)
      reads this
    {
      (st == Ok <==> !(old(level) + 1 > options.maxNestingDepth && !errHandler(MaxNestingDepthExceeded))) &&
      (st == Ok && kind == Object ==> events == old(events) + [Event.BeginObject(None, NoTag)] && state == Expect(NameOrEnd)) &&
      (st == Ok && kind == Array ==> events == old(events) + [Event.BeginArray(None, NoTag)] && state == Expect(ValueOrEnd)) &&
      (st != Ok ==> st == Error(MaxNestingDepthExceeded) && events == old(events))
    }

    /**
     * An opening quote followed by `rest`: the string lexer runs over `rest`.
     * A run the chunk cuts short leaves the parser inside the string; a closed
     * string is reported as a key or a value when it is UTF-8, and otherwise
     * the handler decides; a lexer error is reported.
     */
    twostate predicate StringRead(key: bool, rest: seq<char>, st: Status)
      reads this
    {
      var r := RunString(Lexeme(Text, old(cp), old(cp2)), rest, errHandler);
      (r.stop.Exhausted? || r.stop.Yielded? ==>
        st == Ok && state == String && buffer == r.out && events == old(events) &&
        (key ==> stateStack == old(stateStack) + [Frame(MemberName)])) &&
      (r.stop.Closed? && validate(r.out).Utf8Ok? ==>
        st == Ok && events == old(events) + [if key then Key(r.out) else StringValueEvent(stringDoubleMap, r.out)]) &&
      (r.stop.Closed? && validate(r.out).Utf8Invalid? ==>
        var code := ConvToJsonErrc(validate(r.out).code);
        more == errHandler(code) && state == String && events == old(events) &&
        (errHandler(code) ==> st == Ok) && (!errHandler(code) ==> st == Error(code))) &&
      (r.stop.Failed? ==> st == Error(r.stop.code) && events == old(events))
    }

    /**
     * A minus sign or a digit `c` followed by `rest`: the number lexer runs
     * from the phase `c` selects. A number the chunk cuts short is suspended
     * with all of it buffered; an integer that ends is reported; a rejected
     * one is an error.
     */
    twostate predicate NumberRead(c: char, rest: seq<char>, st: Status)
      reads this
    {
      FirstPhase(c).Some? &&
      match ScanNumber(FirstPhase(c).value, rest)
      case Suspended(p) => st == Ok && state == Number && numberState == p && buffer == [c] + rest && events == old(events)
      case Ended(fraction, n) => n < |rest| && buffer == [c] + rest[..n] && (!fraction ==> st == Ok && events == old(events) + [IntegerEvent(buffer)])
      case Rejected(code, _, _) => st == Error(code) && events == old(events)
    }

    /**
     * The first letter of a keyword, at the head of `text`: a whole keyword is
     * taken and reported, a wrong one is an invalid value, and one the chunk
     * cuts short leaves the parser in the keyword state after that letter.
     */
    twostate predicate KeywordRead(first: KeywordState, text: seq<char>, st: Status)
      requires first == T || first == F || first == N
      reads this
    {
      var w := KeywordText(first);
      (|text| >= |w| && text[..|w|] == w ==>
        st == Ok && inputPtr == old(inputPtr) + |w| && position == old(position) + |w| &&
        events == old(events) + [KeywordValue(first)] && more == !cursorMode &&
        state == (if level == 0 then Top(Accept) else Expect(CommaOrEnd))) &&
      (|text| >= |w| && text[..|w|] != w ==>
        st == Error(InvalidValue) && !more && inputPtr == old(inputPtr) && position == old(position) && events == old(events)) &&
      (|text| < |w| ==>
        st == Ok && state == Keyword(first) && inputPtr == old(inputPtr) + 1 && position == old(position) + 1 && events == old(events))
    }

    /** Whitespace is skipped and a slash begins a comment, neither reporting anything. */
    twostate predicate SpaceOrComment(c: char, st: Status)
      reads this
    {
      (IsJsonSpace(c) ==> st == Ok && events == old(events)) &&
      (c == '/' ==> st == Ok && state == Comment(Slash) && stateStack == old(stateStack) + [old(state)] && events == old(events))
    }

    /** The first character `c` of a value, followed by `rest`: which of the above happens. */
    twostate predicate ValueBegun(c: char, rest: seq<char>, st: Status)
      reads this
    {
      (c == '{' ==> ContainerOpened(Object, st)) &&
      (c == '[' ==> ContainerOpened(Array, st)) &&
      (c == '"' ==> StringRead(false, rest, st)) &&
      (c == 't' ==> KeywordRead(T, [c] + rest, st)) &&
      (c == 'f' ==> KeywordRead(F, [c] + rest, st)) &&
      (c == 'n' ==> KeywordRead(N, [c] + rest, st)) &&
      (c == '-' || IsDigit(c) ==> NumberRead(c, rest, st))
    }

    constructor (options: ParserOptions, errHandler: JsonErrc -> bool, validate: seq<char> -> Utf8Check,
                 decstrToDouble: seq<char> -> DoubleParse)
      ensures Valid()
      ensures this.options == options && this.errHandler == errHandler && this.validate == validate
      ensures this.decstrToDouble == decstrToDouble && stringDoubleMap == StringDoubleMap(options)
      ensures stateStack == [Frame(Root)] && state == Top(Start) && level == 0 && more && !done && !cursorMode && markLevel == 0
      ensures line == 1 && position == 0 && markPosition == 0 && beginPosition == 0
      ensures input == [] && inputPtr == 0 && buffer == [] && events == [] && cp == 0 && cp2 == 0
      ensures stringState == Text && numberState == Minus
    {
      this.options := options;
      this.errHandler := errHandler;
      this.validate := validate;
      this.decstrToDouble := decstrToDouble;
      stringDoubleMap := StringDoubleMap(options);
      level := 0;
      cp := 0;
      cp2 := 0;
      line := 1;
      position := 0;
      markPosition := 0;
      beginPosition := 0;
      input := [];
      inputPtr := 0;
      state := Top(Start);
      stringState := Text;
      numberState := Minus;
      more := true;
      done := false;
      cursorMode := false;
      markLevel := 0;
      buffer := [];
      stateStack := [Frame(Root)];
      events := [];
      docStart := 0;
    }

    method SetCursorMode(value: bool)
      modifies this`cursorMode
      ensures cursorMode == value
    {
      cursorMode := value;
    }

    method SetMarkLevel(value: int)
      modifies this`markLevel
      ensures markLevel == value
    {
      markLevel := value;
    }

    /** Back to the start of a document; the chunk, the registers and the buffer are kept. */
    method Reset()
      modifies this`stateStack, this`state, this`more, this`done, this`line, this`position, this`markPosition, this`level, this`inputPtr
      modifies this`docStart
      ensures Valid() && docStart == |events|
      ensures stateStack == [Frame(Root)] && state == Top(Start) && more && !done && level == 0
      ensures line == 1 && position == 0 && markPosition == 0
      ensures old(inputPtr) <= |input| ==> inputPtr == old(inputPtr)
    {
      stateStack := [Frame(Root)];
      state := Top(Start);
      more := true;
      done := false;
      line := 1;
      position := 0;
      markPosition := 0;
      level := 0;
      if inputPtr > |input| {
        inputPtr := |input|;
      }
      docStart := |events|;
    }

    /** Lets a parser stopped by cursor mode or a mark level go on. */
    method Restart()
      modifies this`more
      ensures more
    {
      more := true;
    }

    /** Hands the parser its next chunk. */
    method Update(data: seq<char>)
      requires Valid()
      modifies this`input, this`inputPtr
      ensures Valid() && input == data && inputPtr == 0
    {
      input := data;
      inputPtr := 0;
    }

    /** One-based column: characters since the last line break, plus one. */
    function Column(): (c: nat)
      reads this
      requires Valid()
      ensures c >= 1
      ensures position == markPosition ==> c == 1
    {
      position - markPosition + 1
    }
  
    // -------------------------------------------------------------------------
    // Containers.

    /** An opening brace: one level deeper, refused past the nesting limit unless the handler continues. */
    method BeginObject() returns (st: Status)
      requires Valid() && |stateStack| == level + 1
      modifies this`level, this`more, this`stateStack, this`state, this`events
      ensures level == old(level) + 1
      ensures input == old(input) && inputPtr == old(inputPtr) && position == old(position) && markPosition == old(markPosition)
      ensures level > options.maxNestingDepth && !errHandler(MaxNestingDepthExceeded) ==>
        st == Error(MaxNestingDepthExceeded) && !more && stateStack == old(stateStack) && events == old(events)
      ensures !(level > options.maxNestingDepth && !errHandler(MaxNestingDepthExceeded)) ==>
        st == Ok && Valid() && stateStack == old(stateStack) + [Frame(Object)] && state == Expect(NameOrEnd) &&
        events == old(events) + [Event.BeginObject(None, NoTag)] && more == !cursorMode
    {
      level := level + 1;
      if level > options.maxNestingDepth {
        more := errHandler(MaxNestingDepthExceeded);
        if !more {
          return Error(MaxNestingDepthExceeded);
        }
      }
      stateStack := stateStack + [Frame(Object)];
      state := Expect(NameOrEnd);
      OpenContainersAppend(events, docStart, Event.BeginObject(None, NoTag));
      events := events + [Event.BeginObject(None, NoTag)];
      more := !cursorMode;
      st := Ok;
    }

    /** An opening bracket: one level deeper, refused past the nesting limit unless the handler continues. */
    method BeginArray() returns (st: Status)
      requires Valid() && |stateStack| == level + 1
      modifies this`level, this`more, this`stateStack, this`state, this`events
      ensures level == old(level) + 1
      ensures input == old(input) && inputPtr == old(inputPtr) && position == old(position) && markPosition == old(markPosition)
      ensures level > options.maxNestingDepth && !errHandler(MaxNestingDepthExceeded) ==>
        st == Error(MaxNestingDepthExceeded) && !more && stateStack == old(stateStack) && events == old(events)
      ensures !(level > options.maxNestingDepth && !errHandler(MaxNestingDepthExceeded)) ==>
        st == Ok && Valid() && stateStack == old(stateStack) + [Frame(Array)] && state == Expect(ValueOrEnd) &&
        events == old(events) + [Event.BeginArray(None, NoTag)] && more == !cursorMode
    {
      level := level + 1;
      if level > options.maxNestingDepth {
        more := errHandler(MaxNestingDepthExceeded);
        if !more {
          return Error(MaxNestingDepthExceeded);
        }
      }
      stateStack := stateStack + [Frame(Array)];
      state := Expect(ValueOrEnd);
      OpenContainersAppend(events, docStart, Event.BeginArray(None, NoTag));
      events := events + [Event.BeginArray(None, NoTag)];
      more := !cursorMode;
      st := Ok;
    }

    /**
     * A closing brace: it must close an object. Closing the outermost value
     * accepts the document; reaching the mark level stops the parser.
     */
    method EndObject() returns (st: Status)
      requires Valid() && |stateStack| == level + 1
      modifies this`level, this`more, this`stateStack, this`state, this`events
      ensures old(level) == 0 ==> st == Error(UnexpectedRbrace) && !more && events == old(events)
      ensures old(level) >= 1 && old(Parent()) == Frame(Array) ==>
        st == Error(ExpectedCommaOrRbracket) && !more && events == old(events) && stateStack == old(stateStack[..level])
      ensures old(level) >= 1 && old(Parent()) == Frame(Object) ==>
        st == Ok && Valid() && level == old(level) - 1 && stateStack == old(stateStack[..level]) &&
        events == old(events) + [Event.EndObject] && state == (if level == 0 then Top(Accept) else Expect(CommaOrEnd)) &&
        more == (!cursorMode && old(level) != markLevel)
    {
      if level < 1 {
        var _ := errHandler(UnexpectedRbrace);
        more := false;
        return Error(UnexpectedRbrace);
      }
      if Parent() == Frame(Array) {
        state := Parent();
        stateStack := stateStack[..|stateStack| - 1];
        var _ := errHandler(ExpectedCommaOrRbracket);
        more := false;
        return Error(ExpectedCommaOrRbracket);
      }
      PopContainer(Event.EndObject);
      st := Ok;
    }

    /**
     * A closing bracket: it must close an array. Closing the outermost value
     * accepts the document; reaching the mark level stops the parser.
     */
    method EndArray() returns (st: Status)
      requires Valid() && |stateStack| == level + 1
      modifies this`level, this`more, this`stateStack, this`state, this`events
      ensures old(level) == 0 ==> st == Error(UnexpectedRbracket) && !more && events == old(events)
      ensures old(level) >= 1 && old(Parent()) == Frame(Object) ==>
        st == Error(ExpectedCommaOrRbrace) && !more && events == old(events) && stateStack == old(stateStack[..level])
      ensures old(level) >= 1 && old(Parent()) == Frame(Array) ==>
        st == Ok && Valid() && level == old(level) - 1 && stateStack == old(stateStack[..level]) &&
        events == old(events) + [Event.EndArray] && state == (if level == 0 then Top(Accept) else Expect(CommaOrEnd)) &&
        more == (!cursorMode && old(level) != markLevel)
    {
      if level < 1 {
        var _ := errHandler(UnexpectedRbracket);
        more := false;
        return Error(UnexpectedRbracket);
      }
      if Parent() == Frame(Object) {
        state := Parent();
        stateStack := stateStack[..|stateStack| - 1];
        var _ := errHandler(ExpectedCommaOrRbrace);
        more := false;
        return Error(ExpectedCommaOrRbrace);
      }
      PopContainer(Event.EndArray);
      st := Ok;
    }

    /**
     * The close that matches the innermost container: its frame is popped,
     * the call logged and the level dropped; the outermost value accepts the
     * document, and reaching the mark level stops the parser.
     */
    method PopContainer(e: Event)
      requires Valid() && |stateStack| == level + 1 && level >= 1
      requires e == (if Parent() == Frame(Object) then Event.EndObject else Event.EndArray)
      modifies this`level, this`more, this`stateStack, this`state, this`events
      ensures Valid() && level == old(level) - 1 && stateStack == old(stateStack[..level]) && events == old(events) + [e]
      ensures state == (if level == 0 then Top(Accept) else Expect(CommaOrEnd)) && more == (!cursorMode && old(level) != markLevel)
    {
      var stack', events', level', state' :=
        stateStack[..level], events + [e], level - 1, if level == 1 then Top(Accept) else Expect(CommaOrEnd);
      CloseMatches(stateStack, level, state, events, docStart, e);
      assert StackOk(stack', level', state') && Nesting(events', docStart, stack', level');
      more := !cursorMode && level != markLevel;
      stateStack, events, level, state := stack', events', level', state';
    }

    /** After a comma: a member name inside an object, a value inside an array. */
    method BeginMemberOrElement()
      requires Valid() && state == Expect(CommaOrEnd)
      modifies this`state
      ensures Valid()
      ensures state == (if Parent() == Frame(Object) then Expect(Name) else Expect(Value))
    {
      state := if Parent() == Frame(Object) then Expect(Name) else Expect(Value);
    }

    /** After a complete value: the document is accepted at the root, otherwise a comma or a close follows. */
    method AfterValue()
      requires Valid() && |stateStack| == level + 1
      modifies this`state
      ensures Valid()
      ensures state == Top(Accept) <==> level == 0
      ensures state == (if Parent() == Frame(Root) then Top(Accept) else Expect(CommaOrEnd))
    {
      state := if Parent() == Frame(Root) then Top(Accept) else Expect(CommaOrEnd);
    }

    // -------------------------------------------------------------------------
    // Finished tokens.

    /** A finished integer: a 64-bit value when it fits its sign's type, its text tagged as a big integer otherwise. */
    method EndIntegerValue()
      requires Valid() && state == Number
      modifies this`events, this`more, this`state
      ensures Valid() && state != Number && buffer == old(buffer)
      ensures events == old(events) + [IntegerEvent(old(buffer))]
      ensures more == !cursorMode && stateStack == old(stateStack) && level == old(level)
      ensures state == (if level == 0 then Top(Accept) else Expect(CommaOrEnd))
      ensures input == old(input) && inputPtr == old(inputPtr) && position == old(position) && markPosition == old(markPosition)
    {
      OpenContainersAppend(events, docStart, IntegerEvent(buffer));
      events := events + [IntegerEvent(buffer)];
      more := !cursorMode;
      AfterValue();
    }

    /** A finished number with a fraction or an exponent; a text that does not convert is an invalid number. */
    method EndFractionValue() returns (st: Status)
      requires Valid() && state == Number
      modifies this`events, this`more, this`state
      ensures var e := FractionEvent(buffer, options.losslessNumber, options.losslessBignum, decstrToDouble(buffer));
        (e.None? ==> st == Error(InvalidNumber) && !more && events == old(events)) &&
        (e.Some? ==> st == Ok && Valid() && events == old(events) + [e.value] && more == !cursorMode &&
                     state == (if level == 0 then Top(Accept) else Expect(CommaOrEnd)))
      ensures buffer == old(buffer) && stateStack == old(stateStack) && level == old(level)
      ensures input == old(input) && inputPtr == old(inputPtr) && position == old(position) && markPosition == old(markPosition)
    {
      var e := FractionEvent(buffer, options.losslessNumber, options.losslessBignum, decstrToDouble(buffer));
      if e.None? {
        more := false;
        return Error(InvalidNumber);
      }
      OpenContainersAppend(events, docStart, e.value);
      events := events + [e.value];
      more := !cursorMode;
      AfterValue();
      st := Ok;
    }

    /**
     * A finished string. When it is not UTF-8 the position moves to the
     * offending byte and the error handler decides: refused, the parser stops;
     * accepted, nothing is reported and the parser stays in the string state.
     * Otherwise a key under a member-name frame, and a value (or a configured
     * substitution) anywhere else.
     */
    method EndStringValue(text: seq<char>) returns (st: Status)
      requires Valid() && state == String
      modifies this`position, this`events, this`more, this`stateStack, this`state
      ensures validate(text).Utf8Invalid? ==>
        var code := ConvToJsonErrc(validate(text).code);
        more == errHandler(code) && events == old(events) &&
        position == old(position) + validate(text).offset && state == String && stateStack == old(stateStack) &&
        (errHandler(code) ==> st == Ok && Valid()) && (!errHandler(code) ==> st == Error(code))
      ensures validate(text).Utf8Ok? ==> st == Ok && Valid() && more == !cursorMode && position == old(position)
      ensures validate(text).Utf8Ok? && old(Parent()) == Frame(MemberName) ==>
        events == old(events) + [Key(text)] && state == Expect(Colon) && stateStack == old(stateStack[..|stateStack| - 1])
      ensures validate(text).Utf8Ok? && old(Parent()) != Frame(MemberName) ==>
        events == old(events) + [StringValueEvent(stringDoubleMap, text)] && stateStack == old(stateStack) &&
        state == (if level == 0 then Top(Accept) else Expect(CommaOrEnd))
    {
      var v := validate(text);
      if v.Utf8Invalid? {
        var code := ConvToJsonErrc(v.code);
        more := errHandler(code);
        position := position + v.offset;
        return if more then Ok else Error(code);
      }
      if Parent() == Frame(MemberName) {
        EndKey(text);
      } else {
        EndString(text);
      }
      st := Ok;
    }

    /** A finished member name: the key is logged and the member-name frame popped. */
    method EndKey(text: seq<char>)
      requires Valid() && state == String && Parent() == Frame(MemberName)
      modifies this`events, this`more, this`stateStack, this`state
      ensures Valid() && events == old(events) + [Key(text)] && more == !cursorMode
      ensures state == Expect(Colon) && stateStack == old(stateStack[..|stateStack| - 1])
    {
      OpenContainersAppend(events, docStart, Key(text));
      events := events + [Key(text)];
      more := !cursorMode;
      stateStack := stateStack[..|stateStack| - 1];
      state := Expect(Colon);
    }

    /** A finished string value (or the substitution configured for its text). */
    method EndString(text: seq<char>)
      requires Valid() && state == String && Parent() != Frame(MemberName)
      modifies this`events, this`more, this`state
      ensures Valid() && events == old(events) + [StringValueEvent(stringDoubleMap, text)] && more == !cursorMode
      ensures state == (if level == 0 then Top(Accept) else Expect(CommaOrEnd))
    {
      OpenContainersAppend(events, docStart, StringValueEvent(stringDoubleMap, text));
      events := events + [StringValueEvent(stringDoubleMap, text)];
      more := !cursorMode;
      AfterValue();
    }

    // -------------------------------------------------------------------------
    // Numbers.

    /** The number lexer's scan loop: it stops at the end of the chunk or at the first character that does not advance it. */
    method NumberRun() returns (p: NumberPhase, i: nat)
      requires inputPtr <= |input|
      ensures inputPtr <= i <= |input|
      ensures i == |input| ==> ScanNumber(numberState, input[inputPtr..]) == Suspended(SuspendedPhase(p))
      ensures i < |input| ==> !NumberDelta(p, input[i]).Advance?
      ensures i < |input| ==>
        ScanNumber(numberState, input[inputPtr..]) == StopOf(NumberDelta(p, input[i]), i - inputPtr)
    {
      var s, from := input, inputPtr;
      p := numberState;
      ghost var whole := ScanNumber(p, s[from..]);
      i := from;
      ShiftedByZero(whole);
      while i < |s| && NumberDelta(p, s[i]).Advance?
        invariant from <= i <= |s|
        invariant whole == ShiftedBy(ScanNumber(p, s[i..]), i - from)
        decreases |s| - i
      {
        AdvanceAt(s, i, p, whole, i - from);
        p := NumberDelta(p, s[i]).next;
        i := i + 1;
      }
      ScanStops(p, s[i..], i - from);
    }

    /**
     * Continues a number from the recorded phase over the rest of the chunk.
     * A number that runs out with the chunk is suspended, its text buffered;
     * one that ends is finished and its terminator left unread; a rejected
     * character stops the parser without being consumed.
     */
    method ParseNumber() returns (st: Status)
      requires Valid() && state == Number
      modifies this`numberState, this`buffer, this`position, this`inputPtr, this`more, this`events, this`state
      ensures input == old(input) && old(events) <= events && markPosition == old(markPosition)
      ensures old(inputPtr) <= inputPtr && stateStack == old(stateStack) && level == old(level)
      ensures st == Ok ==> Valid() && (old(inputPtr) < |input| ==> old(inputPtr) < inputPtr || Measure() < old(Measure()))
      ensures match ScanNumber(old(numberState), old(input[inputPtr..]))
        case Suspended(p) =>
          st == Ok && Valid() && state == Number && numberState == p && inputPtr == |input| &&
          buffer == old(buffer + input[inputPtr..]) && position == old(position + (|input| - inputPtr)) &&
          events == old(events)
        case Ended(fraction, n) =>
          inputPtr == old(inputPtr) + n && position == old(position) + n &&
          buffer == old(buffer + input[inputPtr..inputPtr + n]) && |buffer| > 0 &&
          (!fraction ==> st == Ok && events == old(events) + [IntegerEvent(buffer)]) &&
          (fraction ==> var e := FractionEvent(buffer, options.losslessNumber, options.losslessBignum, decstrToDouble(buffer));
                        (e.Some? ==> st == Ok && events == old(events) + [e.value]) &&
                        (e.None? ==> st == Error(InvalidNumber) && events == old(events))) &&
          (st == Ok ==> Valid() && state == (if level == 0 then Top(Accept) else Expect(CommaOrEnd)))
        case Rejected(code, rec, n) =>
          st == Error(code) && !more && inputPtr == old(inputPtr) + n && position == old(position) + n &&
          events == old(events) && numberState == (if rec.Some? then rec.value else old(numberState))
    {
      ghost var scan := ScanNumber(numberState, input[inputPtr..]);
      ghost var i0 := inputPtr;
      var p, i := NumberRun();
      if i == |input| {
        assert scan == Suspended(SuspendedPhase(p));
        SuspendNumber(p, i);
        return Ok;
      }
      var d := NumberDelta(p, input[i]);
      if d.Reject? {
        assert scan == Rejected(d.code, d.recorded, i - i0);
        RejectNumber(d, i);
        return Error(d.code);
      }
      assert scan == Ended(d.EndFraction?, i - i0);
      st := FinishNumber(d.EndFraction?, i);
    }

    /** A number that runs out with the chunk: its text is buffered and the phase to resume in recorded. */
    method SuspendNumber(p: NumberPhase, i: nat)
      requires Valid() && state == Number && inputPtr <= i == |input|
      modifies this`numberState, this`buffer, this`position, this`inputPtr
      ensures Valid() && numberState == SuspendedPhase(p) && inputPtr == i
      ensures buffer == old(buffer + input[inputPtr..i]) && position == old(position) + (i - old(inputPtr))
    {
      buffer := buffer + input[inputPtr..i];
      numberState := SuspendedPhase(p);
      position := position + (i - inputPtr);
      inputPtr := i;
    }

    /** A character the number lexer rejects: the parser stops on it, the phase recorded when the lexer asks for it. */
    method RejectNumber(d: NumberStep, i: nat)
      requires d.Reject? && inputPtr <= i
      modifies this`numberState, this`more, this`position, this`inputPtr
      ensures !more && inputPtr == i && position == old(position) + (i - old(inputPtr))
      ensures numberState == (if d.recorded.Some? then d.recorded.value else old(numberState))
    {
      var _ := errHandler(d.code);
      more := false;
      if d.recorded.Some? {
        numberState := d.recorded.value;
      }
      position := position + (i - inputPtr);
      inputPtr := i;
    }

    /**
     * A number that ends before the `i`-th character: its text is buffered and
     * it is finished as an integer, or as a number with a fraction or an
     * exponent; the terminator is left unread.
     */
    method FinishNumber(fraction: bool, i: nat) returns (st: Status)
      requires Valid() && state == Number && inputPtr <= i <= |input|
      modifies this`buffer, this`position, this`inputPtr, this`events, this`more, this`state
      ensures inputPtr == i && position == old(position) + (i - old(inputPtr))
      ensures buffer == old(buffer + input[inputPtr..i]) && |buffer| > 0
      ensures !fraction ==> st == Ok && events == old(events) + [IntegerEvent(buffer)]
      ensures fraction ==> var e := FractionEvent(buffer, options.losslessNumber, options.losslessBignum, decstrToDouble(buffer));
        (e.Some? ==> st == Ok && events == old(events) + [e.value]) &&
        (e.None? ==> st == Error(InvalidNumber) && !more && events == old(events))
      ensures st == Ok ==> Valid() && state == (if level == 0 then Top(Accept) else Expect(CommaOrEnd))
    {
      buffer := buffer + input[inputPtr..i];
      position := position + (i - inputPtr);
      inputPtr := i;
      if fraction {
        st := EndFractionValue();
      } else {
        EndIntegerValue();
        st := Ok;
      }
    }
  
    // -------------------------------------------------------------------------
    // Strings.

    /** Leaves a string unfinished after `i` characters: its text so far is buffered and the lexer recorded. */
    method SuspendString(l: Lexeme, i: nat, out: seq<char>)
      requires Valid() && state == String && inputPtr <= i <= |input|
      modifies this`buffer, this`position, this`stringState, this`cp, this`cp2, this`inputPtr
      ensures Valid() && state == String && stateStack == old(stateStack) && level == old(level)
      ensures inputPtr == i && buffer == old(buffer) + out && position == old(position) + (i - old(inputPtr))
      ensures stringState == l.phase && cp == l.cp && cp2 == l.cp2
      ensures input == old(input) && events == old(events) && more == old(more) && markPosition == old(markPosition)
    {
      buffer := buffer + out;
      position := position + (i - inputPtr);
      stringState := l.phase;
      cp := l.cp;
      cp2 := l.cp2;
      inputPtr := i;
    }

    /**
     * Continues a string from the recorded lexer state over the rest of the
     * chunk. Running out of input or yielding records the lexer; the closing
     * quote finishes the string, and is left unread when the finished text is
     * refused; a lexer error stops the parser at the offending character.
     */
    method ParseString() returns (st: Status)
      requires Valid() && state == String
      modifies this`buffer, this`position, this`stringState, this`cp, this`cp2, this`inputPtr, this`more, this`events, this`stateStack, this`state
      ensures input == old(input) && markPosition == old(markPosition) && old(events) <= events
      ensures old(inputPtr) <= inputPtr && level == old(level)
      ensures st == Ok ==> Valid() && (old(inputPtr) < |input| ==> old(inputPtr) < inputPtr)
      ensures var r := RunString(Lexeme(old(stringState), old(cp), old(cp2)), old(input[inputPtr..]), errHandler);
        cp == r.lex.cp && cp2 == r.lex.cp2 &&
        (r.stop.Exhausted? || r.stop.Yielded? ==>
          st == Ok && Valid() && state == String && stateStack == old(stateStack) && inputPtr == old(inputPtr) + r.consumed &&
          stringState == r.lex.phase && buffer == old(buffer) + r.out && position == old(position) + r.consumed && events == old(events)) &&
        (r.stop.Closed? ==>
          var text := old(buffer) + r.out;
          (validate(text).Utf8Ok? ==>
            st == Ok && Valid() && inputPtr == old(inputPtr) + r.consumed + 1 &&
            position == old(position) + r.consumed + 1 &&
            events == old(events) + [if old(Parent()) == Frame(MemberName) then Key(text) else StringValueEvent(stringDoubleMap, text)]) &&
          (validate(text).Utf8Invalid? ==>
            var code := ConvToJsonErrc(validate(text).code);
            more == errHandler(code) && state == String && stateStack == old(stateStack) &&
            position == old(position) + r.consumed + 1 + validate(text).offset && events == old(events) &&
            (errHandler(code) ==> st == Ok && inputPtr == old(inputPtr) + r.consumed + 1) &&
            (!errHandler(code) ==> st == Error(code) && inputPtr == old(inputPtr) + r.consumed))) &&
        (r.stop.Failed? ==>
          st == Error(r.stop.code) && !more && inputPtr == old(inputPtr) + r.consumed &&
          position == old(position) + r.consumed + (if r.stop.counted then 1 else 0) && events == old(events) &&
          stringState == (if r.stop.record then r.lex.phase else old(stringState)))
    {
      var l, i, out := StringScan(Lexeme(stringState, cp, cp2), input, inputPtr, errHandler);
      ghost var r := RunString(Lexeme(stringState, cp, cp2), input[inputPtr..], errHandler);
      if i == |input| {
        assert input[i..] == [];
        SuspendString(l, i, out);
        return Ok;
      }
      var d := StringDelta(l, input[i], errHandler);
      match d
      case TakeAndYield(l', o) =>
        assert r == StringRun(i + 1 - inputPtr, out + o, l', Yielded);
        SuspendString(l', i + 1, out + o);
        st := Ok;
      case Close =>
        assert r == StringRun(i - inputPtr, out, l, Closed);
        st := CloseString(l, i, out);
      case Stop(code, at, record, counted) =>
        assert r == StringRun(i - inputPtr, out, at, Failed(code, record, counted));
        FailString(at, i, out, record, counted);
        st := Error(code);
    }

    /** A lexer error at `i`: the parser stops there, the lexer state recorded when `record` holds. */
    method FailString(at: Lexeme, i: nat, out: seq<char>, record: bool, counted: bool)
      requires inputPtr <= i
      modifies this`more, this`buffer, this`position, this`stringState, this`cp, this`cp2, this`inputPtr
      ensures !more && inputPtr == i && position == old(position) + (i - old(inputPtr)) + (if counted then 1 else 0)
      ensures stringState == (if record then at.phase else old(stringState)) && cp == at.cp && cp2 == at.cp2
      ensures buffer == old(buffer) + out
      ensures input == old(input) && markPosition == old(markPosition) && events == old(events)
    {
      more := false;
      buffer := buffer + out;
      position := position + (i - inputPtr) + (if counted then 1 else 0);
      if record {
        stringState := at.phase;
      }
      cp := at.cp;
      cp2 := at.cp2;
      inputPtr := i;
    }

    /** The closing quote at `i`: the string's whole text is finished, and the quote consumed when it is accepted. */
    method CloseString(l: Lexeme, i: nat, out: seq<char>) returns (st: Status)
      requires Valid() && state == String && inputPtr <= i < |input|
      modifies this`position, this`cp, this`cp2, this`buffer, this`inputPtr, this`events, this`more, this`stateStack, this`state
      ensures input == old(input) && markPosition == old(markPosition) && cp == l.cp && cp2 == l.cp2
      ensures var text := old(buffer) + out;
        (validate(text).Utf8Ok? ==>
          st == Ok && Valid() && inputPtr == i + 1 && position == old(position) + (i - old(inputPtr)) + 1 &&
          events == old(events) + [if old(Parent()) == Frame(MemberName) then Key(text) else StringValueEvent(stringDoubleMap, text)]) &&
        (validate(text).Utf8Invalid? ==>
          var code := ConvToJsonErrc(validate(text).code);
          more == errHandler(code) && state == String && stateStack == old(stateStack) &&
          position == old(position) + (i - old(inputPtr)) + 1 + validate(text).offset && events == old(events) &&
          (errHandler(code) ==> st == Ok && Valid() && inputPtr == i + 1) &&
          (!errHandler(code) ==> st == Error(code) && inputPtr == i))
    {
      st := EndStringValue(buffer + out);
      position := position + (i - inputPtr) + 1;
      cp := l.cp;
      cp2 := l.cp2;
      buffer := buffer + out;
      inputPtr := if st == Ok then i + 1 else i;
    }
  
    // -------------------------------------------------------------------------
    // Whitespace and the end of a document.

    method Consume()
      requires inputPtr < |input|
      modifies this`inputPtr, this`position
      ensures inputPtr == old(inputPtr) + 1 && position == old(position) + 1
    {
      inputPtr := inputPtr + 1;
      position := position + 1;
    }

    /**
     * Skips spaces, tabs and line breaks, counting lines and moving the column
     * mark past each break. A carriage return that ends the chunk is left
     * pending: the parser enters `Cr` to see whether a line feed follows.
     */
    method SkipSpace()
      requires Valid() && IsReturnState(state) && |stateStack| == level + 1
      requires inputPtr < |input| && IsJsonSpace(input[inputPtr])
      modifies this`stateStack, this`state, this`position, this`inputPtr, this`line, this`markPosition
      ensures Valid() && old(inputPtr) < inputPtr && input == old(input) && events == old(events) && more == old(more)
      ensures level == old(level) && buffer == old(buffer)
      ensures var w := input[old(inputPtr)..inputPtr];
        AllSpace(w) && position == old(position) + |w| &&
        (state == Cr ==>
          inputPtr == |input| && w[|w| - 1] == '\r' && stateStack == old(stateStack) + [old(state)] &&
          line == old(line) + Lines(w[..|w| - 1]) && markPosition == MarkAfter(w[..|w| - 1], old(position), old(markPosition))) &&
        (state != Cr ==>
          state == old(state) && stateStack == old(stateStack) && (inputPtr == |input| || !IsJsonSpace(input[inputPtr])) &&
          line == old(line) + Lines(w) && markPosition == MarkAfter(w, old(position), old(markPosition)))
    {
      var n, ln, mark := SpaceRun(input[inputPtr..], line, position, markPosition);
      var i := inputPtr + n;
      var w := input[inputPtr..i];
      assert w == input[inputPtr..][..n];
      assert i < |input| ==> input[i] == input[inputPtr..][n];
      if i < |input| && IsJsonSpace(input[i]) {
        // A carriage return that ends the chunk.
        assert input[inputPtr..i + 1] == w + ['\r'] && (w + ['\r'])[..|w|] == w;
        AllSpaceSnoc(w, '\r');
        PendCr(i + 1, ln, mark);
      } else {
        SkipTo(i, ln, mark);
      }
    }

    method PendCr(i: nat, ln: nat, mark: nat)
      requires Valid() && IsReturnState(state) && |stateStack| == level + 1
      requires inputPtr < i == |input| && mark <= position + (i - inputPtr)
      modifies this`stateStack, this`state, this`position, this`inputPtr, this`line, this`markPosition
      ensures stateStack == old(stateStack) + [old(state)] && state == Cr && Valid()
      ensures inputPtr == i && position == old(position) + (i - old(inputPtr)) && line == ln && markPosition == mark
      ensures input == old(input) && events == old(events) && more == old(more) && level == old(level) && buffer == old(buffer)
    {
      stateStack := stateStack + [state];
      state := Cr;
      position := position + (i - inputPtr);
      inputPtr := i;
      line, markPosition := ln, mark;
    }

    method SkipTo(i: nat, ln: nat, mark: nat)
      requires Valid() && inputPtr <= i <= |input| && mark <= position + (i - inputPtr)
      modifies this`position, this`inputPtr, this`line, this`markPosition
      ensures stateStack == old(stateStack) && state == old(state) && Valid()
      ensures inputPtr == i && position == old(position) + (i - old(inputPtr)) && line == ln && markPosition == mark
      ensures input == old(input) && events == old(events) && more == old(more) && level == old(level) && buffer == old(buffer)
    {
      position := position + (i - inputPtr);
      inputPtr := i;
      line, markPosition := ln, mark;
    }

    /** After a complete document: only whitespace may follow, unless the handler lets extra characters through. */
    method CheckDone() returns (st: Status)
      requires inputPtr <= |input|
      modifies this`inputPtr, this`more
      ensures st == Ok || st == Error(ExtraCharacter)
      ensures st == Ok <==> errHandler(ExtraCharacter) || AllSpace(old(input[inputPtr..]))
      ensures st == Ok ==> inputPtr == |input| && more == (old(more) || !AllSpace(old(input[inputPtr..])))
      ensures st != Ok ==>
        !more && old(inputPtr) <= inputPtr < |input| && !IsJsonSpace(input[inputPtr]) &&
        AllSpace(input[old(inputPtr)..inputPtr])
    {
      ghost var p0 := inputPtr;
      while inputPtr < |input|
        invariant p0 <= inputPtr <= |input|
        invariant more == (old(more) || !AllSpace(input[p0..inputPtr]))
        invariant !AllSpace(input[p0..inputPtr]) ==> errHandler(ExtraCharacter)
        decreases |input| - inputPtr
      {
        assert input[p0..inputPtr + 1] == input[p0..inputPtr] + [input[inputPtr]];
        AllSpaceSnoc(input[p0..inputPtr], input[inputPtr]);
        if !IsJsonSpace(input[inputPtr]) {
          more := errHandler(ExtraCharacter);
          if !more {
            assert !AllSpace(input[p0..]) by {
              assert input[p0..][inputPtr - p0] == input[inputPtr];
            }
            return Error(ExtraCharacter);
          }
        }
        inputPtr := inputPtr + 1;
      }
      assert input[p0..inputPtr] == input[p0..];
      st := Ok;
    }
  
    // -------------------------------------------------------------------------
    // Keywords.

    /**
     * The first letter of `true`, `false` or `null`. With the whole keyword in
     * the chunk it is checked and reported at once, and a mismatch is an
     * invalid value; otherwise the letter is taken and the keyword is read on
     * state by state.
     */
    method ParseLiteral(first: KeywordState) returns (st: Status)
      requires Valid() && (state == Top(Start) || state == Expect(Value) || state == Expect(ValueOrEnd))
      requires first == T || first == F || first == N
      requires inputPtr < |input| && input[inputPtr] == KeywordText(first)[0]
      modifies this`beginPosition, this`inputPtr, this`position, this`events, this`state, this`more
      ensures Stepped(st) && beginPosition == old(position)
      ensures KeywordRead(first, old(input[inputPtr..]), st)
    {
      var w := KeywordText(first);
      beginPosition := position;
      if |input| - inputPtr >= |w| {
        assert input[inputPtr..][..|w|] == input[inputPtr..inputPtr + |w|];
        if input[inputPtr..inputPtr + |w|] == w {
          TakeKeyword(first);
          st := Ok;
        } else {
          var _ := errHandler(InvalidValue);
          more := false;
          st := Error(InvalidValue);
        }
      } else {
        StartKeyword(first);
        st := Ok;
      }
    }

    /** A keyword cut by the end of the chunk: its first letter is taken and the rest read state by state. */
    method StartKeyword(first: KeywordState)
      requires Valid() && (state == Top(Start) || state == Expect(Value) || state == Expect(ValueOrEnd)) && inputPtr < |input|
      modifies this`inputPtr, this`position, this`state
      ensures Valid() && state == Keyword(first) && inputPtr == old(inputPtr) + 1 && position == old(position) + 1
    {
      Consume();
      state := Keyword(first);
    }

    /** A whole keyword in the chunk: it is taken and its value reported. */
    method TakeKeyword(first: KeywordState)
      requires Valid() && (state == Top(Start) || state == Expect(Value) || state == Expect(ValueOrEnd))
      requires (first == T || first == F || first == N) && |input| - inputPtr >= |KeywordText(first)|
      modifies this`inputPtr, this`position, this`events, this`state, this`more
      ensures Valid() && events == old(events) + [KeywordValue(first)] && more == !cursorMode
      ensures inputPtr == old(inputPtr) + |KeywordText(first)| && position == old(position) + |KeywordText(first)|
      ensures state == (if level == 0 then Top(Accept) else Expect(CommaOrEnd))
    {
      var n := |KeywordText(first)|;
      inputPtr := inputPtr + n;
      position := position + n;
      OpenContainersAppend(events, docStart, KeywordValue(first));
      events := events + [KeywordValue(first)];
      state := if level == 0 then Top(Accept) else Expect(CommaOrEnd);
      more := !cursorMode;
    }

    /**
     * One letter of a keyword split across chunks: the expected letter moves
     * on, and completes the keyword in its last state; any other letter is an
     * invalid value and is not consumed.
     */
    method StepKeyword() returns (st: Status)
      requires Valid() && more && inputPtr < |input| && state.Keyword?
      modifies this`position, this`inputPtr, this`more, this`events, this`state
      ensures Stepped(st) && stateStack == old(stateStack)
      ensures var step := KeywordStep(old(state).keyword);
        (old(input[inputPtr]) == step.0 ==>
          st == Ok && inputPtr == old(inputPtr) + 1 && position == old(position) + 1 &&
          (step.1.Some? ==> state == Keyword(step.1.value) && events == old(events)) &&
          (step.1.None? ==> events == old(events) + [KeywordValue(old(state).keyword)] && more == !cursorMode &&
                            state == (if level == 0 then Top(Accept) else Expect(CommaOrEnd)))) &&
        (old(input[inputPtr]) != step.0 ==>
          st == Error(InvalidValue) && !more && inputPtr == old(inputPtr) && events == old(events) &&
          position == old(position) + (if old(state) == Keyword(Nul) then 1 else 0))
    {
      var k := state.keyword;
      var step := KeywordStep(k);
      if input[inputPtr] != step.0 {
        var _ := errHandler(InvalidValue);
        position := position + (if k == Nul then 1 else 0);
        more := false;
        return Error(InvalidValue);
      }
      if step.1.Some? {
        state := Keyword(step.1.value);
      } else {
        OpenContainersAppend(events, docStart, KeywordValue(k));
        events := events + [KeywordValue(k)];
        more := !cursorMode;
        state := if level == 0 then Top(Accept) else Expect(CommaOrEnd);
      }
      Consume();
      st := Ok;
    }

    // -------------------------------------------------------------------------
    // The first character of a value.

    /** `{` as a value: the brace is taken and an object opens. */
    method OpenObject() returns (st: Status)
      requires Valid() && |stateStack| == level + 1 && inputPtr < |input|
      modifies this`beginPosition, this`inputPtr, this`position, this`level, this`more, this`stateStack, this`state, this`events
      ensures Stepped(st) && beginPosition == old(position)
      ensures ContainerOpened(Object, st)
    {
      beginPosition := position;
      Consume();
      st := BeginObject();
    }

    /** `[` as a value: the bracket is taken and an array opens. */
    method OpenArray() returns (st: Status)
      requires Valid() && |stateStack| == level + 1 && inputPtr < |input|
      modifies this`beginPosition, this`inputPtr, this`position, this`level, this`more, this`stateStack, this`state, this`events
      ensures Stepped(st) && beginPosition == old(position)
      ensures ContainerOpened(Array, st)
    {
      beginPosition := position;
      Consume();
      st := BeginArray();
    }

    /** The opening quote of a string is taken, the buffer cleared and the lexer set to plain text. */
    method StartString(key: bool)
      requires Valid() && |stateStack| == level + 1 && inputPtr < |input| && (key ==> level >= 1)
      modifies this`beginPosition, this`position, this`inputPtr, this`stateStack, this`state, this`stringState, this`buffer
      ensures Valid() && state == String && stringState == Text && buffer == []
      ensures beginPosition == old(position) && position == old(position) + 1 && inputPtr == old(inputPtr) + 1
      ensures stateStack == old(stateStack) + (if key then [Frame(MemberName)] else [])
    {
      beginPosition := position;
      Consume();
      if key {
        stateStack := stateStack + [Frame(MemberName)];
      }
      state := String;
      stringState := Text;
      buffer := [];
    }

    /** The quote that opens a string value: the string is read on from the plain-text lexer state. */
    method OpenString() returns (st: Status)
      requires Valid() && |stateStack| == level + 1 && inputPtr < |input|
      modifies this`beginPosition, this`buffer, this`position, this`stringState, this`cp, this`cp2, this`inputPtr, this`more, this`events, this`stateStack, this`state
      ensures Stepped(st) && beginPosition == old(position)
      ensures StringRead(false, old(input[inputPtr + 1..]), st)
    {
      StartString(false);
      ghost var r := RunString(Lexeme(Text, cp, cp2), input[inputPtr..], errHandler);
      assert buffer + r.out == r.out;
      assert Parent() != Frame(MemberName) by {
        assert stateStack[level] == Frame(Root) || stateStack[level] == Frame(Object) || stateStack[level] == Frame(Array);
      }
      st := ParseString();
    }

    /** The quote that opens a member name: a member-name frame is pushed and the key read as a string. */
    method OpenKey() returns (st: Status)
      requires Valid() && |stateStack| == level + 1 && level >= 1 && inputPtr < |input|
      modifies this`beginPosition, this`buffer, this`position, this`stringState, this`cp, this`cp2, this`inputPtr, this`more, this`events, this`stateStack, this`state
      ensures Stepped(st) && beginPosition == old(position)
      ensures StringRead(true, old(input[inputPtr + 1..]), st)
    {
      StartString(true);
      ghost var r := RunString(Lexeme(Text, cp, cp2), input[inputPtr..], errHandler);
      assert buffer + r.out == r.out;
      st := ParseString();
    }

    /** A minus sign or a digit: the number lexer starts in the phase that character selects. */
    method OpenNumber() returns (st: Status)
      requires Valid() && |stateStack| == level + 1 && inputPtr < |input| && FirstPhase(input[inputPtr]).Some?
      modifies this`beginPosition, this`numberState, this`buffer, this`position, this`inputPtr, this`more, this`events, this`state
      ensures Stepped(st) && beginPosition == old(position)
      ensures NumberRead(old(input[inputPtr]), old(input[inputPtr + 1..]), st)
    {
      ghost var i0 := inputPtr;
      ghost var rest := input[inputPtr + 1..];
      var c := input[inputPtr];
      StartNumber(c);
      ghost var scan := ScanNumber(numberState, input[inputPtr..]);
      st := ParseNumber();
      match scan {
        case Suspended(_) =>
          NumberTextPrefix(input, i0, |input| - i0 - 1);
        case Ended(_, n) =>
          NumberTextPrefix(input, i0, n);
        case Rejected(_, _, _) =>
      }
    }

    /** The first character of a number is taken and buffered, and the lexer set to the phase it selects. */
    method StartNumber(c: char)
      requires Valid() && |stateStack| == level + 1 && inputPtr < |input| && input[inputPtr] == c && FirstPhase(c).Some?
      modifies this`beginPosition, this`numberState, this`buffer, this`position, this`inputPtr, this`state
      ensures Valid() && state == Number && buffer == [c] && numberState == FirstPhase(c).value
      ensures beginPosition == old(position) && position == old(position) + 1 && inputPtr == old(inputPtr) + 1
    {
      beginPosition := position;
      buffer := [c];
      numberState := FirstPhase(c).value;
      Consume();
      state := Number;
    }

    /** The first character of a value: a container opens, or a string, number or keyword is read from here. */
    method BeginValue() returns (st: Status)
      requires Valid() && (state == Top(Start) || state == Expect(Value) || state == Expect(ValueOrEnd))
      requires inputPtr < |input| && IsValueStart(input[inputPtr])
      modifies this
      ensures Stepped(st) && beginPosition == old(position)
      ensures ValueBegun(old(input[inputPtr]), old(input[inputPtr + 1..]), st)
    {
      var c := input[inputPtr];
      assert input[inputPtr..] == [c] + input[inputPtr + 1..];
      if c == '{' {
        st := OpenObject();
      } else if c == '[' {
        st := OpenArray();
      } else if c == '"' {
        st := OpenString();
      } else if c == 't' {
        st := ParseLiteral(T);
      } else if c == 'f' {
        st := ParseLiteral(F);
      } else if c == 'n' {
        st := ParseLiteral(N);
      } else {
        st := OpenNumber();
      }
    }

    // -------------------------------------------------------------------------
    // Closing a container.

    /**
     * `}`: the brace is taken and the object closed. After a comma it is a
     * trailing comma, refused unless allowed or let through by the handler.
     */
    method CloseObject(trailing: bool) returns (st: Status)
      requires Valid() && |stateStack| == level + 1 && inputPtr < |input|
      modifies this`beginPosition, this`inputPtr, this`position, this`level, this`more, this`stateStack, this`state, this`events
      ensures Stepped(st) && beginPosition == old(position)
      ensures trailing && !options.allowTrailingComma && !errHandler(ExtraComma) ==>
        st == Error(ExtraComma) && events == old(events)
      ensures !(trailing && !options.allowTrailingComma && !errHandler(ExtraComma)) ==>
        (old(level) == 0 ==> st == Error(UnexpectedRbrace) && events == old(events)) &&
        (old(level) >= 1 && old(Parent()) == Frame(Array) ==> st == Error(ExpectedCommaOrRbracket) && events == old(events)) &&
        (old(level) >= 1 && old(Parent()) == Frame(Object) ==> st == Ok && events == old(events) + [Event.EndObject] && level == old(level) - 1)
    {
      if trailing && !options.allowTrailingComma {
        more := errHandler(ExtraComma);
        if !more {
          beginPosition := position;
          Consume();
          return Error(ExtraComma);
        }
      }
      st := EndObject();
      beginPosition := position;
      Consume();
    }

    /**
     * `]`: the bracket is taken and the array closed. After a comma it is a
     * trailing comma, refused unless allowed or let through by the handler.
     */
    method CloseArray(trailing: bool) returns (st: Status)
      requires Valid() && |stateStack| == level + 1 && inputPtr < |input|
      modifies this`beginPosition, this`inputPtr, this`position, this`level, this`more, this`stateStack, this`state, this`events
      ensures Stepped(st) && beginPosition == old(position)
      ensures trailing && !options.allowTrailingComma && !errHandler(ExtraComma) ==>
        st == Error(ExtraComma) && events == old(events)
      ensures !(trailing && !options.allowTrailingComma && !errHandler(ExtraComma)) ==>
        (old(level) == 0 ==> st == Error(UnexpectedRbracket) && events == old(events)) &&
        (old(level) >= 1 && old(Parent()) == Frame(Object) ==> st == Error(ExpectedCommaOrRbrace) && events == old(events)) &&
        (old(level) >= 1 && old(Parent()) == Frame(Array) ==> st == Ok && events == old(events) + [Event.EndArray] && level == old(level) - 1)
    {
      if trailing && !options.allowTrailingComma {
        more := errHandler(ExtraComma);
        if !more {
          beginPosition := position;
          Consume();
          return Error(ExtraComma);
        }
      }
      st := EndArray();
      beginPosition := position;
      Consume();
    }

    /** `]` where a value is expected outside an array: a missing value, taken when the handler lets it through. */
    method MissingValue() returns (st: Status)
      requires Valid() && inputPtr < |input|
      modifies this`beginPosition, this`inputPtr, this`position, this`more
      ensures Stepped(st) && beginPosition == old(position) && events == old(events)
      ensures st == Ok <==> errHandler(ExpectedValue)
      ensures st != Ok ==> st == Error(ExpectedValue)
    {
      beginPosition := position;
      Consume();
      more := errHandler(ExpectedValue);
      st := if more then Ok else Error(ExpectedValue);
    }

    // -------------------------------------------------------------------------
    // Whitespace, comments and recovery in the states that wait for a token.

    method SpaceStep() returns (st: Status)
      requires Valid() && IsReturnState(state) && |stateStack| == level + 1
      requires inputPtr < |input| && IsJsonSpace(input[inputPtr])
      modifies this`stateStack, this`state, this`position, this`inputPtr, this`line, this`markPosition
      ensures Stepped(st) && st == Ok && events == old(events)
    {
      SkipSpace();
      st := Ok;
    }

    /** A slash: a comment may start here; the state to come back to is kept on the stack. */
    method BeginComment() returns (st: Status)
      requires Valid() && IsReturnState(state) && |stateStack| == level + 1 && inputPtr < |input|
      modifies this`stateStack, this`state, this`inputPtr, this`position
      ensures Stepped(st) && st == Ok && state == Comment(Slash) && stateStack == old(stateStack) + [old(state)]
      ensures inputPtr == old(inputPtr) + 1 && events == old(events) && more == old(more)
    {
      stateStack := stateStack + [state];
      state := Comment(Slash);
      Consume();
      st := Ok;
    }

    /** An error the handler may let through: the offending character is then taken. */
    method Recover(code: JsonErrc) returns (st: Status)
      requires Valid() && inputPtr < |input|
      modifies this`more, this`inputPtr, this`position
      ensures Stepped(st) && events == old(events) && state == old(state)
      ensures st == Ok <==> errHandler(code)
      ensures st == Ok ==> inputPtr == old(inputPtr) + 1
      ensures st != Ok ==> st == Error(code) && !more && inputPtr == old(inputPtr)
    {
      more := errHandler(code);
      if !more {
        return Error(code);
      }
      Consume();
      st := Ok;
    }

    // -------------------------------------------------------------------------
    // The value-start and expect states.

    /**
     * Before a document: whitespace and comments are skipped and a value
     * begins. A control character the handler lets through is not consumed, so
     * the parser never moves on from it.
     */
    method StepStart() returns (st: Status)
      requires Valid() && more && inputPtr < |input| && state == Top(Start)
      modifies this
      ensures Stepped(st)
      ensures var c := old(input[inputPtr]);
        SpaceOrComment(c, st) && (IsValueStart(c) ==> ValueBegun(c, old(input[inputPtr + 1..]), st)) &&
        (IsIllegalControl(c) ==>
          st == (if errHandler(IllegalControlCharacter) then Diverges else Error(IllegalControlCharacter)) &&
          inputPtr == old(inputPtr)) &&
        (c == '}' ==> st == Error(UnexpectedRbrace) && !more) &&
        (c == ']' ==> st == Error(UnexpectedRbracket) && !more) &&
        (!IsIllegalControl(c) && !IsJsonSpace(c) && c != '/' && !IsValueStart(c) && c != '}' && c != ']' ==>
          st == Error(SyntaxError) && !more)
    {
      var c := input[inputPtr];
      if IsIllegalControl(c) {
        more := errHandler(IllegalControlCharacter);
        st := if more then Diverges else Error(IllegalControlCharacter);
      } else if IsJsonSpace(c) {
        st := SpaceStep();
      } else if c == '/' {
        st := BeginComment();
      } else if IsValueStart(c) {
        st := BeginValue();
      } else if c == '}' {
        var _ := errHandler(UnexpectedRbrace);
        more := false;
        st := Error(UnexpectedRbrace);
      } else if c == ']' {
        var _ := errHandler(UnexpectedRbracket);
        more := false;
        st := Error(UnexpectedRbracket);
      } else {
        var _ := errHandler(SyntaxError);
        more := false;
        st := Error(SyntaxError);
      }
    }

    /** After a value inside a container: a comma, or the close that matches the container. */
    method StepExpectCommaOrEnd() returns (st: Status)
      requires Valid() && more && inputPtr < |input| && state == Expect(CommaOrEnd)
      modifies this
      ensures Stepped(st)
      ensures var c := old(input[inputPtr]);
        SpaceOrComment(c, st) && (IsIllegalControl(c) ==> (st == Ok <==> errHandler(IllegalControlCharacter)) && events == old(events)) &&
        (c == ',' ==>
          st == Ok && inputPtr == old(inputPtr) + 1 &&
          state == (if old(Parent()) == Frame(Object) then Expect(Name) else Expect(Value))) &&
        (c == '}' ==>
          (old(Parent()) == Frame(Object) ==> st == Ok && events == old(events) + [Event.EndObject]) &&
          (old(Parent()) == Frame(Array) ==> st == Error(ExpectedCommaOrRbracket))) &&
        (c == ']' ==>
          (old(Parent()) == Frame(Array) ==> st == Ok && events == old(events) + [Event.EndArray]) &&
          (old(Parent()) == Frame(Object) ==> st == Error(ExpectedCommaOrRbrace))) &&
        (!IsIllegalControl(c) && !IsJsonSpace(c) && c !in ",}]/" ==>
          (st == Ok <==> errHandler(if old(Parent()) == Frame(Array) then ExpectedCommaOrRbracket else ExpectedCommaOrRbrace)))
    {
      var c := input[inputPtr];
      if IsIllegalControl(c) {
        st := Recover(IllegalControlCharacter);
      } else if IsJsonSpace(c) {
        st := SpaceStep();
      } else if c == '/' {
        st := BeginComment();
      } else if c == '}' {
        st := CloseObject(false);
      } else if c == ']' {
        st := CloseArray(false);
      } else if c == ',' {
        BeginMemberOrElement();
        Consume();
        st := Ok;
      } else {
        st := Recover(if Parent() == Frame(Array) then ExpectedCommaOrRbracket else ExpectedCommaOrRbrace);
      }
    }

    /** Just inside an object: a member name or the closing brace. */
    method StepExpectMemberNameOrEnd() returns (st: Status)
      requires Valid() && more && inputPtr < |input| && state == Expect(NameOrEnd)
      modifies this
      ensures Stepped(st)
      ensures var c := old(input[inputPtr]);
        SpaceOrComment(c, st) && (IsIllegalControl(c) ==> (st == Ok <==> errHandler(IllegalControlCharacter)) && events == old(events)) &&
        (c == '"' ==> StringRead(true, old(input[inputPtr + 1..]), st)) &&
        (c == '}' && old(Parent()) == Frame(Object) ==> st == Ok && events == old(events) + [Event.EndObject]) &&
        (c == '\'' ==> (st == Ok <==> errHandler(SingleQuote))) &&
        (!IsIllegalControl(c) && !IsJsonSpace(c) && c !in "/}\"'" ==> (st == Ok <==> errHandler(ExpectedKey)))
    {
      var c := input[inputPtr];
      if IsIllegalControl(c) {
        st := Recover(IllegalControlCharacter);
      } else if IsJsonSpace(c) {
        st := SpaceStep();
      } else if c == '/' {
        st := BeginComment();
      } else if c == '}' {
        st := CloseObject(false);
      } else if c == '"' {
        st := OpenKey();
      } else if c == '\'' {
        st := Recover(SingleQuote);
      } else {
        st := Recover(ExpectedKey);
      }
    }

    /**
     * After a comma in an object: a member name. A closing brace here is a
     * trailing comma, an error unless trailing commas are allowed or the
     * handler lets it through.
     */
    method StepExpectMemberName() returns (st: Status)
      requires Valid() && more && inputPtr < |input| && state == Expect(Name)
      modifies this
      ensures Stepped(st)
      ensures var c := old(input[inputPtr]);
        SpaceOrComment(c, st) && (IsIllegalControl(c) ==> (st == Ok <==> errHandler(IllegalControlCharacter)) && events == old(events)) &&
        (c == '"' ==> StringRead(true, old(input[inputPtr + 1..]), st)) &&
        (c == '}' && !options.allowTrailingComma && !errHandler(ExtraComma) ==> st == Error(ExtraComma) && events == old(events)) &&
        (c == '}' && (options.allowTrailingComma || errHandler(ExtraComma)) && old(Parent()) == Frame(Object) ==>
          st == Ok && events == old(events) + [Event.EndObject]) &&
        (c == '\'' ==> (st == Ok <==> errHandler(SingleQuote))) &&
        (!IsIllegalControl(c) && !IsJsonSpace(c) && c !in "/}\"'" ==> (st == Ok <==> errHandler(ExpectedKey)))
    {
      var c := input[inputPtr];
      if IsIllegalControl(c) {
        st := Recover(IllegalControlCharacter);
      } else if IsJsonSpace(c) {
        st := SpaceStep();
      } else if c == '/' {
        st := BeginComment();
      } else if c == '"' {
        st := OpenKey();
      } else if c == '}' {
        st := CloseObject(true);
      } else if c == '\'' {
        st := Recover(SingleQuote);
      } else {
        st := Recover(ExpectedKey);
      }
    }

    /** After a member name: the colon. */
    method StepExpectColon() returns (st: Status)
      requires Valid() && more && inputPtr < |input| && state == Expect(Colon)
      modifies this
      ensures Stepped(st)
      ensures var c := old(input[inputPtr]);
        SpaceOrComment(c, st) && (IsIllegalControl(c) ==> (st == Ok <==> errHandler(IllegalControlCharacter)) && events == old(events)) &&
        (c == ':' ==> st == Ok && state == Expect(Value) && inputPtr == old(inputPtr) + 1 && events == old(events)) &&
        (!IsIllegalControl(c) && !IsJsonSpace(c) && c !in "/:" ==> (st == Ok <==> errHandler(ExpectedColon)))
    {
      var c := input[inputPtr];
      if IsIllegalControl(c) {
        st := Recover(IllegalControlCharacter);
      } else if IsJsonSpace(c) {
        st := SpaceStep();
      } else if c == '/' {
        st := BeginComment();
      } else if c == ':' {
        state := Expect(Value);
        Consume();
        st := Ok;
      } else {
        st := Recover(ExpectedColon);
      }
    }

    /**
     * After a colon or a comma in an array: a value. A closing bracket here is
     * a trailing comma inside an array, and a missing value inside an object.
     */
    method StepExpectValue() returns (st: Status)
      requires Valid() && more && inputPtr < |input| && state == Expect(Value)
      modifies this
      ensures Stepped(st)
      ensures var c := old(input[inputPtr]);
        SpaceOrComment(c, st) && (IsIllegalControl(c) ==> (st == Ok <==> errHandler(IllegalControlCharacter)) && events == old(events)) &&
        (IsValueStart(c) ==> ValueBegun(c, old(input[inputPtr + 1..]), st)) &&
        (c == ']' && old(Parent()) == Frame(Array) && !options.allowTrailingComma && !errHandler(ExtraComma) ==>
          st == Error(ExtraComma) && events == old(events)) &&
        (c == ']' && old(Parent()) == Frame(Array) && (options.allowTrailingComma || errHandler(ExtraComma)) ==>
          st == Ok && events == old(events) + [Event.EndArray]) &&
        (c == ']' && old(Parent()) != Frame(Array) ==> (st == Ok <==> errHandler(ExpectedValue)) && events == old(events)) &&
        (c == '\'' ==> (st == Ok <==> errHandler(SingleQuote))) &&
        (!IsIllegalControl(c) && !IsJsonSpace(c) && !IsValueStart(c) && c !in "/]'" ==> (st == Ok <==> errHandler(ExpectedValue)))
    {
      var c := input[inputPtr];
      if IsIllegalControl(c) {
        st := Recover(IllegalControlCharacter);
      } else if IsJsonSpace(c) {
        st := SpaceStep();
      } else if c == '/' {
        st := BeginComment();
      } else if IsValueStart(c) {
        st := BeginValue();
      } else if c == ']' && Parent() == Frame(Array) {
        st := CloseArray(true);
      } else if c == ']' {
        st := MissingValue();
      } else if c == '\'' {
        st := Recover(SingleQuote);
      } else {
        st := Recover(ExpectedValue);
      }
    }

    /** Just inside an array: a value or the closing bracket. */
    method StepExpectValueOrEnd() returns (st: Status)
      requires Valid() && more && inputPtr < |input| && state == Expect(ValueOrEnd)
      modifies this
      ensures Stepped(st)
      ensures var c := old(input[inputPtr]);
        SpaceOrComment(c, st) && (IsIllegalControl(c) ==> (st == Ok <==> errHandler(IllegalControlCharacter)) && events == old(events)) &&
        (IsValueStart(c) ==> ValueBegun(c, old(input[inputPtr + 1..]), st)) &&
        (c == ']' && old(Parent()) == Frame(Array) ==> st == Ok && events == old(events) + [Event.EndArray]) &&
        (c == '\'' ==> (st == Ok <==> errHandler(SingleQuote))) &&
        (!IsIllegalControl(c) && !IsJsonSpace(c) && !IsValueStart(c) && c !in "/]'" ==> (st == Ok <==> errHandler(ExpectedValue)))
    {
      var c := input[inputPtr];
      if IsIllegalControl(c) {
        st := Recover(IllegalControlCharacter);
      } else if IsJsonSpace(c) {
        st := SpaceStep();
      } else if c == '/' {
        st := BeginComment();
      } else if IsValueStart(c) {
        st := BeginValue();
      } else if c == ']' {
        st := CloseArray(false);
      } else if c == '\'' {
        st := Recover(SingleQuote);
      } else {
        st := Recover(ExpectedValue);
      }
    }

    // -------------------------------------------------------------------------
    // Accepting a document and pending carriage returns.

    /** A complete document: the log is flushed and the parser is done. */
    method StepAccept() returns (st: Status)
      requires Valid() && state == Top(Accept)
      modifies this`events, this`done, this`state, this`more
      ensures Stepped(st) && st == Ok
      ensures events == old(events) + [Flush] && done && state == Top(Done) && !more
    {
      OpenContainersAppend(events, docStart, Flush);
      events := events + [Flush];
      done := true;
      state := Top(Done);
      more := false;
      st := Ok;
    }

    /**
     * The character after a carriage return: the line ends, a line feed that
     * completes the pair is taken, and the interrupted state resumes.
     */
    method StepCr() returns (st: Status)
      requires Valid() && inputPtr < |input| && state == Cr
      modifies this`line, this`inputPtr, this`position, this`stateStack, this`state, this`markPosition
      ensures Stepped(st) && st == Ok
      ensures line == old(line) + 1 && state == old(Parent()) && stateStack == old(stateStack[..|stateStack| - 1])
      ensures inputPtr == old(inputPtr) + (if old(input[inputPtr]) == '\n' then 1 else 0) && markPosition == position
    {
      CrResumes(stateStack, level);
      line := line + 1;
      if input[inputPtr] == '\n' {
        Consume();
      }
      state := Parent();
      stateStack := stateStack[..|stateStack| - 1];
      markPosition := position;
      st := Ok;
    }

    // -------------------------------------------------------------------------
    // Comments.

    /**
     * The character after a slash: a star or a second slash starts a comment,
     * an error when comments are disabled and reported to the handler when
     * they are enabled; anything else is a syntax error the handler may let
     * through.
     */
    method StepSlash() returns (st: Status)
      requires Valid() && inputPtr < |input| && state == Comment(Slash)
      modifies this`more, this`state, this`inputPtr, this`position
      ensures Stepped(st)
      ensures var c := old(input[inputPtr]);
        ((c == '*' || c == '/') && !options.allowComments ==>
          st == Error(IllegalComment) && more == old(more) && inputPtr == old(inputPtr)) &&
        ((c == '*' || c == '/') && options.allowComments ==> (st == Ok <==> errHandler(IllegalComment))) &&
        (c != '*' && c != '/' ==> (st == Ok <==> errHandler(SyntaxError)) && state == Comment(Slash)) &&
        (st == Ok ==> inputPtr == old(inputPtr) + 1) &&
        (st == Ok ==> state == (if c == '*' then Comment(SlashStar) else if c == '/' then Comment(SlashSlash) else Comment(Slash))) &&
        (st != Ok ==> inputPtr == old(inputPtr))
    {
      var c := input[inputPtr];
      if c == '*' || c == '/' {
        if !options.allowComments {
          return Error(IllegalComment);
        }
        more := errHandler(IllegalComment);
        if !more {
          return Error(IllegalComment);
        }
        state := if c == '*' then Comment(SlashStar) else Comment(SlashSlash);
      } else {
        more := errHandler(SyntaxError);
        if !more {
          return Error(SyntaxError);
        }
      }
      Consume();
      st := Ok;
    }

    /** A line comment: everything up to a line break is skipped; the break itself is left for the resumed state. */
    method StepSlashSlash() returns (st: Status)
      requires Valid() && inputPtr < |input| && state == Comment(SlashSlash)
      modifies this`inputPtr, this`position, this`stateStack, this`state
      ensures Stepped(st) && st == Ok
      ensures IsLineBreak(old(input[inputPtr])) ==>
        inputPtr == old(inputPtr) && state == old(Parent()) && stateStack == old(stateStack[..|stateStack| - 1])
      ensures !IsLineBreak(old(input[inputPtr])) ==>
        inputPtr == old(inputPtr) + 1 && state == Comment(SlashSlash) && stateStack == old(stateStack)
    {
      if IsLineBreak(input[inputPtr]) {
        state := Parent();
        stateStack := stateStack[..|stateStack| - 1];
      } else {
        Consume();
      }
      st := Ok;
    }

    /**
     * The body of a block comment: line breaks are counted (a carriage return
     * through `Cr`, which resumes the comment), and a star may begin the close.
     */
    method StepSlashStar() returns (st: Status)
      requires Valid() && inputPtr < |input| && state == Comment(SlashStar)
      modifies this`inputPtr, this`position, this`stateStack, this`state, this`line, this`markPosition
      ensures Stepped(st) && st == Ok && inputPtr == old(inputPtr) + 1
      ensures var c := old(input[inputPtr]);
        (c == '\r' ==> state == Cr && stateStack == old(stateStack) + [Comment(SlashStar)] && line == old(line)) &&
        (c == '\n' ==> state == Comment(SlashStar) && line == old(line) + 1 && markPosition == position) &&
        (!IsLineBreak(c) ==>
          state == Comment(if BlockStep(InBody, c) == AfterStar then SlashStarStar else SlashStar) &&
          stateStack == old(stateStack) && line == old(line) && markPosition == old(markPosition))
    {
      var c := input[inputPtr];
      if c == '\r' {
        stateStack := stateStack + [state];
        state := Cr;
      } else if c == '*' {
        state := Comment(SlashStarStar);
      }
      Consume();
      if c == '\n' {
        line := line + 1;
        markPosition := position;
      }
      st := Ok;
    }

    /**
     * Just after a star in a block comment: a slash closes the comment and the
     * interrupted state resumes; another star may still begin the close; any
     * other character returns to the body.
     */
    method StepSlashStarStar() returns (st: Status)
      requires Valid() && inputPtr < |input| && state == Comment(SlashStarStar)
      modifies this`inputPtr, this`position, this`stateStack, this`state
      ensures Stepped(st) && st == Ok && inputPtr == old(inputPtr) + 1
      ensures match BlockStep(AfterStar, old(input[inputPtr]))
        case PastClose => state == old(Parent()) && stateStack == old(stateStack[..|stateStack| - 1])
        case AfterStar => state == Comment(SlashStarStar) && stateStack == old(stateStack)
        case InBody => state == Comment(SlashStar) && stateStack == old(stateStack)
    {
      var c := input[inputPtr];
      if c == '/' {
        state := Parent();
        stateStack := stateStack[..|stateStack| - 1];
      } else if c != '*' {
        state := Comment(SlashStar);
      }
      Consume();
      st := Ok;
    }

    // -------------------------------------------------------------------------
    // The driver.

    /**
     * The whole chunk has been read and no more is coming: a number in a
     * final phase is finished, a pending carriage return resumes the state it
     * interrupted, and any other unfinished token or container is an
     * unexpected end of input.
     */
    method AtEnd() returns (st: Status)
      requires Valid() && more && inputPtr == |input|
      modifies this`events, this`more, this`state, this`stateStack, this`done
      ensures Stepped(st)
      ensures old(state) == Number ==>
        match AtEndOfInput(old(numberState))
        case FinishInteger => st == Ok && events == old(events) + [IntegerEvent(buffer)]
        case FinishFraction =>
          var e := FractionEvent(buffer, options.losslessNumber, options.losslessBignum, decstrToDouble(buffer));
          (e.Some? ==> st == Ok && events == old(events) + [e.value]) && (e.None? ==> st == Error(InvalidNumber))
        case NotFinished => st == Error(UnexpectedEof) && !more
      ensures old(state) == Top(Accept) ==> st == Ok && events == old(events) + [Flush] && state == Top(Done) && !more
      ensures old(state) == Top(Start) ==> st == Error(UnexpectedEof) && !more
      ensures old(state) == Top(Done) ==> st == Ok && !more
      ensures old(state) == Cr ==> st == Ok && state == old(Parent()) && stateStack == old(stateStack[..|stateStack| - 1])
      ensures old(state) != Number && !old(state).Top? && old(state) != Cr ==> st == Error(UnexpectedEof) && !more
    {
      if state == Number {
        match AtEndOfInput(numberState)
        case FinishInteger =>
          EndIntegerValue();
          st := Ok;
        case FinishFraction =>
          st := EndFractionValue();
        case NotFinished =>
          var _ := errHandler(UnexpectedEof);
          more := false;
          st := Error(UnexpectedEof);
      } else if state == Top(Accept) {
        st := StepAccept();
      } else if state == Top(Start) {
        more := false;
        st := Error(UnexpectedEof);
      } else if state == Top(Done) {
        more := false;
        st := Ok;
      } else if state == Cr {
        state := Parent();
        stateStack := stateStack[..|stateStack| - 1];
        st := Ok;
      } else {
        var _ := errHandler(UnexpectedEof);
        more := false;
        st := Error(UnexpectedEof);
      }
    }

    /** One step on the next character, by the state the parser is in. */
    method Step() returns (st: Status)
      requires Valid() && more && inputPtr < |input|
      modifies this
      ensures Stepped(st)
    {
      match state
      case Top(t) =>
        if t == Start {
          st := StepStart();
        } else if t == Accept {
          st := StepAccept();
        } else {
          st := Error(AssertionFailure);
        }
      case Expect(e) =>
        match e {
          case CommaOrEnd => st := StepExpectCommaOrEnd();
          case NameOrEnd => st := StepExpectMemberNameOrEnd();
          case Name => st := StepExpectMemberName();
          case Colon => st := StepExpectColon();
          case ValueOrEnd => st := StepExpectValueOrEnd();
          case Value => st := StepExpectValue();
        }
      case Comment(k) =>
        match k {
          case Slash => st := StepSlash();
          case SlashSlash => st := StepSlashSlash();
          case SlashStar => st := StepSlashStar();
          case SlashStarStar => st := StepSlashStarStar();
        }
      case Cr => st := StepCr();
      case String => st := ParseString();
      case Number => st := ParseNumber();
      case Keyword(_) => st := StepKeyword();
    }

    /**
     * Parses as much of the chunk as it can. A complete document is accepted
     * first; at the end of the chunk with no more to come the end of input is
     * handled; otherwise steps run until the chunk is used up, an error stops
     * the parser, or the parser asks to pause.
     */
    method ParseSome() returns (st: Status)
      requires Valid()
      modifies this
      ensures input == old(input) && old(events) <= events && docStart == old(docStart)
      ensures st == Ok ==> Valid() && (inputPtr == |input| || !more)
      ensures st == Ok ==> OpenContainers(events[docStart..]).Some? && |OpenContainers(events[docStart..]).value| == level
      ensures st == Ok && state == Top(Done) ==> OpenContainers(events[docStart..]) == Some([])
    {
      if state == Top(Accept) {
        st := StepAccept();
        return;
      }
      if inputPtr == |input| && more {
        st := AtEnd();
        return;
      }
      st := Ok;
      while inputPtr < |input| && more
        invariant Valid() && input == old(input) && old(events) <= events && docStart == old(docStart) && inputPtr <= |input|
        decreases |input| - inputPtr, Measure()
      {
        st := Step();
        if st != Ok || !more {
          return;
        }
      }
    }
  }
}
