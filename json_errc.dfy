/** The error codes the JSON parser reports, and the UTF-8 validation outcomes it translates. */
module JsonErrors {

  datatype JsonErrc =
    | UnexpectedEof
    | SyntaxError
    | ExtraCharacter
    | MaxNestingDepthExceeded
    | SingleQuote
    | IllegalCharacterInString
    | ExtraComma
    | ExpectedKey
    | ExpectedValue
    | InvalidValue
    | ExpectedColon
    | IllegalControlCharacter
    | IllegalEscapedCharacter
    | ExpectedCodepointSurrogatePair
    | InvalidUnicodeEscapeSequence
    | LeadingZero
    | InvalidNumber
    | ExpectedCommaOrRbrace
    | ExpectedCommaOrRbracket
    | UnexpectedCharacter
    | UnexpectedRbrace
    | UnexpectedRbracket
    | IllegalComment
    | ExpectedContinuationByte
    | OverLongUtf8Sequence
    | IllegalCodepoint
    | IllegalSurrogateValue
    | UnpairedHighSurrogate
    /** Not a json_errc: stands for a failed internal assertion, which the library raises as an exception. */
    | AssertionFailure

  /** What UTF-8 validation of a finished string reports. */
  datatype ConvErrc =
    | OverLong | UnpairedHigh | ExpectedContinuation | IllegalSurrogate
    | SourceIllegal | SourceExhausted

  datatype Utf8Check = Utf8Ok | Utf8Invalid(code: ConvErrc, offset: nat)

  /** The parser's mapping from a validation failure to the code it reports. */
  function ConvToJsonErrc(c: ConvErrc): (r: JsonErrc)
    ensures r in {OverLongUtf8Sequence, UnpairedHighSurrogate, ExpectedContinuationByte, IllegalSurrogateValue, IllegalCodepoint}
  {
    match c
    case OverLong => OverLongUtf8Sequence
    case UnpairedHigh => UnpairedHighSurrogate
    case ExpectedContinuation => ExpectedContinuationByte
    case IllegalSurrogate => IllegalSurrogateValue
    case _ => IllegalCodepoint
  }
}
