# jsoncons core, modelled in Dafny

This project models four parts of the jsoncons C++ library and proves
properties of them.

- **The JSON text parser** (`basic_json_parser`). It is a resumable state
  machine. It reads a document in chunks and reports what it reads as
  visitor events. The model covers:
  - the parser object and its state stack;
  - the number lexer and the string lexer;
  - whitespace, comments and line counting;
  - the error handler's recovery decisions;
  - the driver loop of `parse_some`.
- **The CBOR encoder** (`basic_cbor_encoder`). It turns visitor events into
  the bytes of RFC 8949. The model covers:
  - shortest heads for integers, tags and lengths;
  - definite and indefinite containers, with their item counts;
  - the stringref extension;
  - bignums, decimal fractions and big floats written from text.
- **The tree builder** (`json_decoder`). It turns visitor events back into a
  JSON value, using an item stack and a frame stack.
- **The pull-side replay** (`basic_item_event_receiver`,
  `basic_staj2_filter_view`, `array_expected`). The receiver replays a typed
  array or a multi-dimensional shape one event at a time. The filter view
  skips the events a predicate refuses.

## Layout

| file | module | what it holds |
|---|---|---|
| `events.dfy` | `Events` | the visitor events, semantic tags, typed arrays, 64-bit ranges |
| `json_errc.dfy` | `JsonErrors` | the parser's error codes and the UTF-8 failure mapping |
| `json_number.dfy` | `JsonNumber` | the number lexer, the RFC 8259 number grammar and the integer events |
| `json_string.dfy` | `JsonString` | the string lexer, `\u` escapes, surrogate pairs and UTF-8 encoding |
| `json_parser.dfy` | `JsonParsing` | class `JsonParser`: the parser object, one method per state, the driver |
| `cbor_head.dfy` | `CborHead` | CBOR heads with a reference decoder and round trips |
| `cbor_encoder.dfy` | `CborEncoding` | class `CborEncoder`: the sink, the container stack and the stringref tables |
| `json_decoder.dfy` | `JsonDecoding` | class `JsonDecoder` and the pure builder it is proved against |
| `staj_event_reader.dfy` | `EventReplay` | classes `ItemEventReceiver` and `FilterView`, and `ArrayExpected` |

## How the model is built

- **Classes.** The parser, the encoder, the builder, the receiver and the
  filter view update their fields in place in the library. Each is a class
  here, with the library's fields.
- **Specification functions.** The builder's, the receiver's and the
  lexers' methods give their new state in `ensures`, outright or through a
  pure function of the old state:
  - `JsonDecoding.Open`, `Close` and `Store` for the builder;
  - `EventReplay.SendStep`, `TypedArrayStep`, `MultiDimStep`, `StartTypedArray`
    and `DumpEventsAsWritten` for the receiver;
  - `JsonNumber.ScanNumber` and `JsonString.RunString` for the parser's
    lexer loops.

  The parser's per-state steps are stated per character instead. Two-state
  predicates of `JsonParser` name the outcomes: `ValueBegun` (with
  `ContainerOpened`, `StringRead`, `NumberRead` and `KeywordRead`) for the
  first character of a value, and `SpaceOrComment` for whitespace and a
  comment's slash. A step's new state in the other cases, and the driver
  `ParseSome` as a whole, are bounded by the parser's invariant and the
  nesting of its events rather than given outright.
- **Lemmas.** The properties of those functions are proved as lemmas. They
  are compared with independent references:
  - the number grammar of RFC 8259 section 6;
  - a UTF-8 decoder following RFC 3629 section 4;
  - a CBOR head decoder following RFC 8949 section 3;
  - a serializer of JSON values into events.
- **The parser's driver.** `ParseSome` is a loop over `Step`. It terminates
  on the measure (characters left, then stack depth and state rank). On one
  input the library loops forever: a control character before the document
  when the error handler lets it through. There the model returns
  `Diverges` instead of looping.
- **The parser's events.** `OpenContainers` replays a log of visitor
  events and gives the objects and arrays they leave open, or nothing when
  an end event does not match the innermost open container. The parser's
  invariant ties its container frames to that replay of the current
  document's events. So `ParseSome` only logs properly nested events, and a
  finished document's events close every container they open.

## Model

Paths are relative to the repository root. Abbreviations in the third
column:
- "chunk" is the character range the parser was given by `update`;
- "handler" is the error handler, which answers whether parsing goes on.

| member | source | states |
|---|---|---|
| JsonErrors.ConvToJsonErrc | include/jsoncons/json_parser.hpp:2291-2338 | A UTF-8 validation failure is reported as one of the five Unicode error codes, never as another code |
| JsonNumber.NumberDelta | include/jsoncons/json_parser.hpp:1717-1908 | For each phase of the number lexer, exactly which characters it rejects and with which code: after a minus, a non-digit is an invalid number; after a leading zero, a digit is a leading-zero error; after a point, a non-digit; after the exponent marker, anything but a digit or a sign; after the exponent sign, a non-digit; the integer, fraction and exponent loops never reject |
| JsonNumber.ScanNumber | include/jsoncons/json_parser.hpp:1691-1913 | The number lexer over one chunk: it ends only before a character that is not a digit, rejects only inside the chunk, and never records the leading-zero phase when the chunk runs out |
| JsonNumber.DigitRun | include/jsoncons/json_parser.hpp:1772-1801 | The longest run of digits at the head of the text: every character before it is a digit and the character after it is not |
| JsonNumber.ScanSkipsDigits | include/jsoncons/json_parser.hpp:1772-1801 | The integer, fraction and exponent loops skip a whole run of digits without changing phase |
| JsonNumber.ScanAccepts | include/jsoncons/json_parser.hpp:1717-1908 | For each phase, the lexer ends exactly at a terminator after the inputs that phase still accepts, and says whether the number has a fraction or an exponent |
| JsonNumber.UnsignedAcceptsIsGrammar | include/jsoncons/json_parser.hpp:1740-1908 | For an unsigned token, the lexer's acceptance is the grammar `int [ frac ] [ exp ]` |
| JsonNumber.AcceptsIsGrammar | include/jsoncons/json_parser.hpp:1717-1908 | The same for a token with or without a minus sign |
| JsonNumber.NumberLexerMatchesGrammar | include/jsoncons/json_parser.hpp:1691-1913 | A token the parser starts as a number, followed by a character that cannot continue it, ends at that character exactly when it is an RFC 8259 number. It ends as an integer exactly when it has no fraction and no exponent, in both directions |
| JsonNumber.EndOfInputAgreesWithTerminator | include/jsoncons/json_parser.hpp:587-604 | Finishing a number at the end of the whole input gives the same outcome as finishing it at a terminating character |
| JsonNumber.NumberAtEndOfInputMatchesGrammar | include/jsoncons/json_parser.hpp:583-604 | An input that holds only a number is finished as an integer exactly when it is an RFC 8259 integer. It is finished as a fraction exactly when it is an RFC 8259 number with a fraction or an exponent |
| JsonNumber.ScanNumberAcrossChunks | include/jsoncons/json_parser.hpp:1717-1723 | Splitting a number across two chunks: the first chunk suspends in the phase reached. Scanning the joined input is the same as continuing from that phase |
| JsonNumber.ResumeIsFaithful | include/jsoncons/json_parser.hpp:1696-1713 | Resuming from the recorded phase gives the same result as one scan of the joined input, unless the first chunk stops right after a leading zero |
| JsonNumber.ZeroAtChunkEndSkipsLeadingZeroCheck | include/jsoncons/json_parser.hpp:1740-1766 | The exception: a `0` that ends one chunk is recorded as an integer, so a `5` starting the next chunk continues it as `05`. Inside one chunk, `05` is a leading-zero error |
| JsonNumber.DigitsValueBounds | include/jsoncons/json_parser.hpp:2432-2464 | A run of n digits is below 10^n, and at least 10^(n-1) when it does not start with `0` |
| JsonNumber.IntegerEvent | include/jsoncons/json_parser.hpp:2420-2464 | A finished integer with a minus sign is a signed 64-bit event holding its value. Without one it is an unsigned 64-bit event. When the value does not fit, the event is the text itself tagged as a big integer, and only then |
| JsonNumber.IntegerEventByDigitCount | include/jsoncons/json_parser.hpp:2420-2464 | For RFC 8259 integers, which stay 64-bit: up to 18 digits always, and 19 digits always when unsigned. Signed integers of 20 or more digits, and unsigned ones of 21 or more, always become big integers |
| JsonNumber.IntegerMagnitude | include/jsoncons/json_parser.hpp:2432-2464 | An integer token's value is its digits' value with its sign, and its digit count bounds it |
| JsonString.HexValue | include/jsoncons/json_parser.hpp:2628-2653 | A hex digit is worth less than 16 |
| JsonString.CombineSurrogates | include/jsoncons/json_parser.hpp:2281 | Combining a surrogate pair gives a supplementary code point, from 0x10000 to 0x10FFFF |
| JsonString.Utf8Encode | include/jsoncons/json_parser.hpp:2161 | Encoding one code point writes at most four code units, each below 256 |
| JsonString.StringDelta | include/jsoncons/json_parser.hpp:1950-2289 | One step of the string lexer. Only a quote in plain text closes the string. Each one-character escape stands for its character. After a high surrogate, anything but a backslash, and then anything but `u`, stops the lexer with an expected-surrogate-pair error. In a `\u` escape, a character that is not a hex digit stops the lexer with an invalid-Unicode-escape error exactly when the handler refuses it; a hex digit never stops it, and each digit before the fourth only moves on to the next digit |
| JsonString.RunString | include/jsoncons/json_parser.hpp:1915-2289 | The string lexer over one chunk: it consumes no more than the chunk, yields only after consuming something, stops on a closing quote that is inside the chunk, and is exhausted exactly when it used the whole chunk without yielding |
| JsonString.ScanToEnd | include/jsoncons/json_parser.hpp:1915-2289 | The lexer across the driver's re-entries after each yield never ends in a yield |
| JsonString.ScanToEndStep | include/jsoncons/json_parser.hpp:1950-2024 | Consuming one character, with or without a yield, makes no difference to the re-entered lexer |
| JsonString.FirstFourHex | include/jsoncons/json_parser.hpp:2086-2168 | The four hex digits of a first `\u` escape: a high surrogate waits for its pair, and any other value is encoded at once |
| JsonString.SecondFourHex | include/jsoncons/json_parser.hpp:2214-2285 | The four hex digits of a pair's second escape: the pair is combined and encoded |
| JsonString.StringLexerDecodes | include/jsoncons/json_parser.hpp:1915-2289 | For every string body the reference unescaper accepts, the lexer consumes it up to its closing quote and appends exactly the decoded characters, whatever the handler answers |
| JsonString.StringLexerPairs | include/jsoncons/json_parser.hpp:2153-2285 | The surrogate-pair case of the lexer, from the seventh character of the body on |
| JsonString.ClosedInversion | include/jsoncons/json_parser.hpp:1950-2024 | A lexer run that closes has read at least one character: either that character is the closing quote, or the run consumed it and closed later, appending what that step appended |
| JsonString.HexInversion | include/jsoncons/json_parser.hpp:2628-2653 | With a handler that refuses a bad `\u` digit, a run that closes from inside a `\u` escape reads a hex digit next, and goes on closing from the next digit's phase |
| JsonString.HexLeftBeforeClose | include/jsoncons/json_parser.hpp:2086-2285 | With that handler, a run that closes from inside a `\u` escape first reads all the hex digits the escape still lacks |
| JsonString.PairPrefixBeforeClose | include/jsoncons/json_parser.hpp:2169-2212 | After a high surrogate, a run that closes reads `\u` first and closes from the second escape's first digit |
| JsonString.StringLexerOnlyDecodes | include/jsoncons/json_parser.hpp:1915-2289 | With a handler that refuses every error, a lexer run that closes stops on a quote, and the body it consumed is one the reference unescaper accepts, decoding to exactly the characters the lexer appended |
| JsonString.StringLexerMatchesUnescape | include/jsoncons/json_parser.hpp:1915-2289 | With a handler that refuses every error, the lexer closes a body followed by a quote at that quote if and only if the reference unescaper accepts the body, and then appends exactly the decoded characters |
| JsonString.Utf8RoundTrip | include/jsoncons/json_parser.hpp:2161 | Every scalar value is encoded in the shortest well-formed UTF-8 and decodes back to itself. A surrogate or a value above 0x10FFFF encodes to nothing, and only those do |
| JsonString.SurrogatePairRoundTrip | include/jsoncons/json_parser.hpp:2281 | Every supplementary code point splits into a high and a low surrogate that combine back to it |
| JsonString.CombineSurrogatesInjective | include/jsoncons/json_parser.hpp:2281 | Distinct well-formed surrogate pairs combine to distinct code points |
| JsonString.SecondHalfIsNotChecked | include/jsoncons/json_parser.hpp:2214-2285 | The escape after a high surrogate is combined whatever its value: `\uD800\u0041` decodes to U+10041 and is not refused, because the second escape is not checked to be a low surrogate before its low ten bits are taken (2281) |
| JsonParsing.StringDoubleMap | include/jsoncons/json_parser.hpp:200-211 | The text-to-double substitutions the options enable, NaN first when it is configured. The list is empty exactly when none is configured |
| JsonParsing.Lookup | include/jsoncons/json_parser.hpp:113-121 | A substitution is found exactly when some entry has that text, and the one found is the first such entry |
| JsonParsing.FirstClose | include/jsoncons/json_parser.hpp:1517-1578 | The end of the first `*/` in a comment body, the rule of C comments |
| JsonParsing.BlockCommentEndsAtFirstClose | include/jsoncons/json_parser.hpp:1517-1578 | With the corrected star step, a block comment ends exactly at the first `*/` of its body |
| JsonParsing.AsWrittenMissesStarStarSlash | include/jsoncons/json_parser.hpp:1559-1578 | As written, the comment `/***/` does not end: the second star sends the scan back into the body, although the body holds `*/` |
| JsonParsing.StringValueEvent | include/jsoncons/json_parser.hpp:2525-2555 | A finished string outside a key is a double exactly when a configured substitution matches its text, and then the substitution's value. Otherwise it is the text |
| JsonParsing.FractionEvent | include/jsoncons/json_parser.hpp:2466-2505 | A number with a fraction or an exponent: its exact text under lossless numbers, else the converted double. A conversion out of range gives the text under lossless big numbers, else the double. A text that does not convert is an error, and only then |
| JsonParsing.KeywordStep | include/jsoncons/json_parser.hpp:1295-1471 | Each keyword state expects one letter. The keyword is complete exactly in the states `tru`, `fals` and `nul` |
| JsonParsing.KeywordRest | include/jsoncons/json_parser.hpp:1295-1471 | The letters the keyword states expect from a state on: exactly as many as that state still lacks |
| JsonParsing.KeywordStatesSpellKeywords | include/jsoncons/json_parser.hpp:1295-1471 | For every state, the state it moves to stands for the same value, and the letters expected after `t`, `f` and `n` are the rest of `true`, `false` and `null` |
| JsonParsing.KeywordText | include/jsoncons/json_parser.hpp:1581-1689 | The keyword each first letter starts is at least four characters long and starts with that letter |
| JsonParsing.LastBreak | include/jsoncons/json_parser.hpp:2371-2418 | Just past the last line break of the text, or none when it has no line break |
| JsonParsing.SpaceRun | include/jsoncons/json_parser.hpp:2371-2418 | The whitespace loop consumes only whitespace. It stops at the chunk's end, at a non-space, or before a carriage return that ends the chunk. It counts a line for each line break and moves the column mark past the last one |
| JsonParsing.JsonParser.constructor | include/jsoncons/json_parser.hpp:182-212 | A new parser: only the root frame, the start state, level 0, line 1, position 0, nothing read, and the substitution list its options call for |
| JsonParsing.JsonParser.SetCursorMode | include/jsoncons/json_parser.hpp:214-217 | Sets the cursor mode |
| JsonParsing.JsonParser.SetMarkLevel | include/jsoncons/json_parser.hpp:229-232 | Sets the mark level |
| JsonParsing.JsonParser.Reset | include/jsoncons/json_parser.hpp:474-485 | Back to the start of a document: the root frame only, level 0, line 1, position and mark 0, running and not done. The chunk is kept, and the next document's events begin at the end of the log |
| JsonParsing.JsonParser.Restart | include/jsoncons/json_parser.hpp:487-490 | Lets a paused parser go on |
| JsonParsing.JsonParser.Update | include/jsoncons/json_parser.hpp:531-536 | The next chunk becomes the input, read from its start |
| JsonParsing.JsonParser.Column | include/jsoncons/json_parser.hpp:2345-2348 | The column is at least 1, and is 1 right after a line break |
| JsonParsing.JsonParser.BeginObject | include/jsoncons/json_parser.hpp:334-350 | An opening brace goes one level deeper. Past the nesting limit it is an error unless the handler lets it through. Otherwise an object begins, its frame is pushed and a member name or `}` is expected |
| JsonParsing.JsonParser.BeginArray | include/jsoncons/json_parser.hpp:397-414 | The same for an opening bracket: an array begins and a value or `]` is expected |
| JsonParsing.JsonParser.EndObject | include/jsoncons/json_parser.hpp:352-395 | A closing brace at level 0 is an unexpected `}`. Inside an array it is a mismatch. Inside an object it reports the end, pops the frame, and either accepts the document or expects a comma or end. Reaching the mark level pauses the parser |
| JsonParsing.JsonParser.EndArray | include/jsoncons/json_parser.hpp:416-460 | The same for a closing bracket, with the roles of object and array swapped |
| JsonParsing.JsonParser.PopContainer | include/jsoncons/json_parser.hpp:361-394 | The close that matches the innermost container pops its frame, logs the end event and drops the level. The outermost value accepts the document, and reaching the mark level pauses the parser. The invariant still holds, so the log's open containers are again the frames |
| JsonParsing.AfterEvent | include/jsoncons/json_parser.hpp:334-460 | What one event does to the open containers: a begin pushes its kind, an end pops a matching innermost kind and fails on any other, and every other event changes nothing |
| JsonParsing.OpenContainersAppend | include/jsoncons/json_parser.hpp:334-460 | Replaying a log with one more event is replaying the log and then that event |
| JsonParsing.CloseMatches | include/jsoncons/json_parser.hpp:352-460 | Popping the innermost container frame while logging its end event keeps the frames equal to the log's open containers |
| JsonParsing.JsonParser.BeginMemberOrElement | include/jsoncons/json_parser.hpp:2569-2590 | After a comma, a member name is expected inside an object and a value inside an array |
| JsonParsing.JsonParser.AfterValue | include/jsoncons/json_parser.hpp:2592-2612 | After a complete value, the document is accepted at the root, and only there. Elsewhere a comma or a close is expected |
| JsonParsing.JsonParser.EndIntegerValue | include/jsoncons/json_parser.hpp:2420-2464 | A finished integer reports the event `IntegerEvent` gives for its text, pauses in cursor mode, and moves on as after any value |
| JsonParsing.JsonParser.EndFractionValue | include/jsoncons/json_parser.hpp:2466-2505 | A finished fraction reports the event `FractionEvent` gives. A text that does not convert is an invalid number and stops the parser |
| JsonParsing.JsonParser.EndStringValue | include/jsoncons/json_parser.hpp:2507-2567 | A finished string that is not UTF-8 goes to the error handler, and the position moves to the offending byte. If the handler refuses, the result is `Error` with the converted code. If it accepts, the result is `Ok`, no event is reported and the state stays `String`. A valid string is a key under a member-name frame (the state becomes the colon) and a value anywhere else |
| JsonParsing.JsonParser.EndKey | include/jsoncons/json_parser.hpp:2519-2523 | A finished member name reports the key, pops the member-name frame and expects a colon |
| JsonParsing.JsonParser.EndString | include/jsoncons/json_parser.hpp:2525-2555 | A finished string value reports `StringValueEvent` and moves on as after any value |
| JsonParsing.JsonParser.NumberRun | include/jsoncons/json_parser.hpp:1691-1913 | The number lexer's loop stops at the end of the chunk, where the scan suspends, or at the first character that does not advance it |
| JsonParsing.JsonParser.ParseNumber | include/jsoncons/json_parser.hpp:1691-1913 | A number continues from the recorded phase over the rest of the chunk, exactly as `ScanNumber` says. If it runs out, its text is buffered. If it ends, it is finished and the terminator is left unread. If it is rejected, the parser stops there |
| JsonParsing.JsonParser.SuspendNumber | include/jsoncons/json_parser.hpp:1717-1723 | A number that runs out with the chunk: its text is buffered and the phase to resume in is recorded |
| JsonParsing.JsonParser.RejectNumber | include/jsoncons/json_parser.hpp:1735-1739 | A rejected character stops the parser on it and records the phase where the library does |
| JsonParsing.JsonParser.FinishNumber | include/jsoncons/json_parser.hpp:1768-1771 | A number that ends before a character: its text is buffered, and it is finished as an integer or as a fraction |
| JsonParsing.StringScan | include/jsoncons/json_parser.hpp:1950-2016 | The string lexer's loop agrees with `RunString` up to where it stops: the end of the chunk, or the first character it does not simply take |
| JsonParsing.JsonParser.SuspendString | include/jsoncons/json_parser.hpp:2017-2022 | A string left unfinished: its text so far is buffered and the lexer state recorded |
| JsonParsing.JsonParser.ParseString | include/jsoncons/json_parser.hpp:1915-2289 | A string continues from the recorded lexer state over the rest of the chunk, exactly as `RunString` says. Running out or yielding records the lexer. The closing quote finishes the string. A lexer error stops the parser |
| JsonParsing.JsonParser.FailString | include/jsoncons/json_parser.hpp:1955-1980 | A lexer error stops the parser at the offending character, recording the lexer state where the library does |
| JsonParsing.JsonParser.CloseString | include/jsoncons/json_parser.hpp:1994-2009 | The closing quote finishes the whole text of the string. The quote is consumed when the text is accepted |
| JsonParsing.JsonParser.SkipSpace | include/jsoncons/json_parser.hpp:2371-2418 | Skips whitespace, counting lines and moving the column mark. A carriage return that ends the chunk is left pending in the `cr` state |
| JsonParsing.JsonParser.CheckDone | include/jsoncons/json_parser.hpp:502-524 | After a complete document, the rest of the chunk is accepted exactly when it is all whitespace or the handler lets extra characters through. Otherwise it is an extra-character error |
| JsonParsing.JsonParser.ParseLiteral | include/jsoncons/json_parser.hpp:1581-1689 | The first letter of `true`, `false` or `null`. With the whole keyword in the chunk, it is checked and reported at once, and a mismatch is an invalid value. Otherwise the letter is taken and the keyword state entered |
| JsonParsing.JsonParser.StartKeyword | include/jsoncons/json_parser.hpp:1581-1689 | A keyword cut by the end of the chunk: its first letter is consumed and the parser moves to the state that reads the rest of that keyword |
| JsonParsing.JsonParser.TakeKeyword | include/jsoncons/json_parser.hpp:1581-1616 | A whole keyword in the chunk is taken and its value reported |
| JsonParsing.JsonParser.StepKeyword | include/jsoncons/json_parser.hpp:1295-1471 | One letter of a keyword split across chunks. The expected letter moves on and completes the keyword in its last state. Any other letter is an invalid value and is not consumed |
| JsonParsing.JsonParser.OpenObject | include/jsoncons/json_parser.hpp:1021-1164 | A `{` where a value may start: the brace is taken and an object opens, or the nesting limit refuses it |
| JsonParsing.JsonParser.OpenArray | include/jsoncons/json_parser.hpp:1021-1164 | A `[` where a value may start: the bracket is taken and an array opens, or the nesting limit refuses it |
| JsonParsing.JsonParser.StartString | include/jsoncons/json_parser.hpp:1021-1164 | An opening quote is taken, the buffer cleared and the lexer set to plain text. A member-name frame is pushed for a key |
| JsonParsing.JsonParser.OpenString | include/jsoncons/json_parser.hpp:1021-1164 | The quote that opens a string value; the string is then read as `RunString` says |
| JsonParsing.JsonParser.OpenKey | include/jsoncons/json_parser.hpp:839-906 | The quote that opens a member name; the key is then read as `RunString` says |
| JsonParsing.JsonParser.OpenNumber | include/jsoncons/json_parser.hpp:1021-1164 | A minus sign or a digit starts the number lexer in the phase that character selects |
| JsonParsing.JsonParser.StartNumber | include/jsoncons/json_parser.hpp:1021-1164 | The first character of a number is buffered and consumed, the number's start position is recorded, and the lexer enters the phase that character selects |
| JsonParsing.JsonParser.BeginValue | include/jsoncons/json_parser.hpp:1021-1164 | The first character of a value (`ValueBegun`). `{` and `[` open an object or an array unless the depth limit is passed and the handler refuses. `"` reads a string: its value event when the closing quote is in the chunk and valid UTF-8, the handler's decision when it is not, and the `String` state with the text so far when the chunk ends. A digit or `-` reads a number with `ScanNumber`: an integer event when an integer ends inside the chunk, the `Number` state when the chunk ends, and the scanner's error. `t`, `f` and `n` must be followed by the rest of `true`, `false` or `null`: the keyword event, `InvalidValue` on a mismatch, or the `Keyword` state when the chunk ends first |
| JsonParsing.JsonParser.CloseObject | include/jsoncons/json_parser.hpp:907-979 | A `}`: the brace is taken and the object closed. After a comma it is a trailing comma, refused unless the options allow it or the handler lets it through |
| JsonParsing.JsonParser.CloseArray | include/jsoncons/json_parser.hpp:1021-1164 | A `]`: the bracket is taken and the array closed. After a comma it is a trailing comma, with the same gate |
| JsonParsing.JsonParser.MissingValue | include/jsoncons/json_parser.hpp:1021-1164 | A `]` where a value is expected outside an array is a missing value, taken when the handler lets it through |
| JsonParsing.JsonParser.SpaceStep | include/jsoncons/json_parser.hpp:762-838 | Whitespace between tokens is skipped and reports nothing |
| JsonParsing.JsonParser.BeginComment | include/jsoncons/json_parser.hpp:762-838 | A slash between tokens may start a comment. The state to come back to is kept on the stack |
| JsonParsing.JsonParser.Recover | include/jsoncons/json_parser.hpp:762-838 | An error the handler may let through: the offending character is taken when it does. Otherwise the parser stops with that error |
| JsonParsing.JsonParser.StepStart | include/jsoncons/json_parser.hpp:654-761 | Before a document: whitespace is skipped without an event and `/` enters a comment, pushing the state. A value start gives the `ValueBegun` outcome of `BeginValue`. `}` and `]` are unexpected and any other character is a syntax error. A control character the handler lets through is not consumed, and the library never moves on from it |
| JsonParsing.JsonParser.StepExpectCommaOrEnd | include/jsoncons/json_parser.hpp:762-838 | After a value inside a container: whitespace and comments are skipped, an illegal control character goes to the handler, and then a comma or the close that matches the container |
| JsonParsing.JsonParser.StepExpectMemberNameOrEnd | include/jsoncons/json_parser.hpp:839-906 | Just inside an object: whitespace and comments are skipped and an illegal control character goes to the handler. `"` reads a member name (`StringRead` as a key, pushing a member-name frame while the name is incomplete), and `}` closes the object |
| JsonParsing.JsonParser.StepExpectMemberName | include/jsoncons/json_parser.hpp:907-979 | After a comma in an object: whitespace and comments are skipped and an illegal control character goes to the handler. `"` reads a member name as in `StepExpectMemberNameOrEnd`. A closing brace here is a trailing comma |
| JsonParsing.JsonParser.StepExpectColon | include/jsoncons/json_parser.hpp:980-1020 | After a member name: whitespace and comments are skipped, an illegal control character goes to the handler, and the colon is followed by an expected value |
| JsonParsing.JsonParser.StepExpectValue | include/jsoncons/json_parser.hpp:1021-1164 | After a colon, or a comma in an array: whitespace and comments are skipped and an illegal control character goes to the handler. A value start gives the `ValueBegun` outcome of `BeginValue`. A closing bracket is a trailing comma inside an array and a missing value inside an object |
| JsonParsing.JsonParser.StepExpectValueOrEnd | include/jsoncons/json_parser.hpp:1165-1286 | Just inside an array: whitespace and comments are skipped and an illegal control character goes to the handler. A value start gives the `ValueBegun` outcome of `BeginValue`, and `]` closes the array |
| JsonParsing.JsonParser.StepAccept | include/jsoncons/json_parser.hpp:633-638 | A complete document: the visitor is flushed, the parser is done and stops |
| JsonParsing.JsonParser.StepCr | include/jsoncons/json_parser.hpp:639-653 | The character after a carriage return: the line ends, a line feed that completes the pair is taken, and the interrupted state resumes with the column mark at the current position |
| JsonParsing.JsonParser.StepSlash | include/jsoncons/json_parser.hpp:1472-1516 | After a slash, a star or a second slash starts a comment. With comments disabled that is an illegal-comment error. With comments enabled it is reported to the handler. Any other character is a syntax error the handler may let through |
| JsonParsing.JsonParser.StepSlashSlash | include/jsoncons/json_parser.hpp:1545-1558 | A line comment skips everything up to a line break. The break itself is left for the resumed state |
| JsonParsing.JsonParser.StepSlashStar | include/jsoncons/json_parser.hpp:1517-1544 | The body of a block comment counts its line breaks. A carriage return goes through `cr`, which resumes the comment. A star may begin the close |
| JsonParsing.JsonParser.StepSlashStarStar | include/jsoncons/json_parser.hpp:1559-1578 | After a star in a block comment, a slash ends the comment and the interrupted state resumes. Another star may still begin the close (the corrected step). Anything else returns to the body |
| JsonParsing.JsonParser.AtEnd | include/jsoncons/json_parser.hpp:583-628 | The chunk is used up and no more is coming. A number in a final phase is finished. An accepted document is flushed. Before a document it is an unexpected end. A pending carriage return resumes the state it interrupted. Any other unfinished token or container is an unexpected end |
| JsonParsing.JsonParser.Step | include/jsoncons/json_parser.hpp:629-1579 | One step on the next character, by the state the parser is in. It keeps the parser's invariant or stops it, and always makes progress or reports `Diverges` |
| JsonParsing.JsonParser.ParseSome | include/jsoncons/json_parser.hpp:571-1579 | Parses as much of the chunk as it can. It only appends events. When it ends without an error, the chunk is used up or the parser has stopped, the current document's events are properly nested with exactly `level` containers left open, and a finished document's events close every container they open |
| CborHead.BigEndian | include/jsoncons_ext/cbor/cbor_encoder.hpp:1223-1252 | The n low-order bytes of a value, most significant first, are exactly n bytes |
| CborHead.BigEndianRoundTrip | include/jsoncons_ext/cbor/cbor_encoder.hpp:1223-1252 | A value below 256^n written as n big-endian bytes reads back as itself |
| CborHead.ArgumentWidth | include/jsoncons_ext/cbor/cbor_encoder.hpp:1223-1252 | The argument after the initial byte takes 0, 1, 2, 4 or 8 bytes |
| CborHead.Head | include/jsoncons_ext/cbor/cbor_encoder.hpp:1223-1252 | A head is the initial byte plus the argument's width |
| CborHead.HeadFirstByte | include/jsoncons_ext/cbor/cbor_encoder.hpp:1223-1252 | The initial byte holds the argument itself up to 0x17. Above that it announces 1, 2, 4 or 8 following big-endian bytes for arguments up to 0xff, 0xffff, 0xffffffff or beyond |
| CborHead.DecodeHead | include/jsoncons_ext/cbor/cbor_encoder.hpp:1192-1252 | The reference reader of a head (RFC 8949 section 3): it reads at most the bytes it is given and a major type below 8 |
| CborHead.HeadRoundTrip | include/jsoncons_ext/cbor/cbor_encoder.hpp:1223-1252 | Every head the encoder writes reads back as its major type and argument, and its length, whatever follows it |
| CborHead.HeadIsShortest | include/jsoncons_ext/cbor/cbor_encoder.hpp:1223-1252 | No head for the same major type and argument is shorter than the one the encoder writes (RFC 8949 section 4.2.1) |
| CborHead.EncodeInt | include/jsoncons_ext/cbor/cbor_encoder.hpp:1254-1328 | A non-negative integer is major type 0 with itself as argument. A negative one is major type 1 with argument -1-n |
| CborHead.IntRoundTrip | include/jsoncons_ext/cbor/cbor_encoder.hpp:1223-1328 | Every integer from -2^64 to 2^64-1 reads back as itself |
| CborHead.TagRoundTrip | include/jsoncons_ext/cbor/cbor_encoder.hpp:1192-1221 | A tag reads back as major type 6 with itself as argument, whatever item follows |
| CborHead.SimpleValues | include/jsoncons_ext/cbor/cbor_encoder.hpp:439-452 | Every one-byte simple value, among them false, true, null and undefined (20 to 23), reads back as itself whatever follows it |
| CborHead.EncodeSimple | include/jsoncons_ext/cbor/cbor_encoder.hpp:439-452 | A simple value below 24 is the one-byte head of major type 7 |
| CborHead.StringRoundTrip | include/jsoncons_ext/cbor/cbor_encoder.hpp:1056-1097 | A definite-length byte or text string reads back as exactly its bytes, whatever follows |
| CborEncoding.Units | include/jsoncons_ext/cbor/cbor_encoder.hpp:522-525 | A text string is written as one byte per code unit, each byte the unit's low octet |
| CborEncoding.Chars | include/jsoncons_ext/cbor/cbor_encoder.hpp:522-525 | Bytes read back as 8-bit code units, one unit per byte holding its value |
| CborEncoding.UnitsRoundTrip | include/jsoncons_ext/cbor/cbor_encoder.hpp:522-525 | On text of 8-bit code units, the bytes written read back as the same text |
| CborEncoding.CharsRoundTrip | include/jsoncons_ext/cbor/cbor_encoder.hpp:522-525 | Any bytes, read as units and written again, are the same bytes |
| CborEncoding.Wrap64 | include/jsoncons_ext/cbor/cbor_encoder.hpp:705 | Adding the exponent to the scale wraps in 64 bits and leaves values already in range unchanged |
| CborEncoding.ParseInteger | include/jsoncons_ext/cbor/cbor_encoder.hpp:698-727 | Integer text converts exactly when it is well formed and in the 64-bit range, and then to its value. It is out of range exactly when it is well formed and outside it |
| CborEncoding.ScaleStep | include/jsoncons_ext/cbor/cbor_encoder.hpp:593-691 | One character of the decimal fraction scanner, and of the big float scanner (731-850). A character is kept at most once, at the end of the mantissa or of the exponent. Only a fraction digit moves the scale, by one decimal place or four binary places. After the point and inside the exponent only digits of the radix are accepted, and once the exponent has begun the mantissa no longer changes |
| CborEncoding.ScanScaledExtends | include/jsoncons_ext/cbor/cbor_encoder.hpp:593-691 | The scan of a whole text. It only extends the mantissa and the exponent gathered so far, keeps no more characters than it reads, and only lowers the scale, by a multiple of four in a big float |
| CborEncoding.ScanDigits | include/jsoncons_ext/cbor/cbor_encoder.hpp:618-638 | The integer and fraction phases of the scanner take a whole run of digits. A fraction digit lowers the scale by one, or by four in a big float |
| CborEncoding.ScanExponentDigits | include/jsoncons_ext/cbor/cbor_encoder.hpp:659-673 | The exponent phase appends a whole run of digits to the exponent text |
| CborEncoding.ScanIntegerPart | include/jsoncons_ext/cbor/cbor_encoder.hpp:601-638 | A decimal starts with a sign or a digit, then takes the rest of its integer digits into the mantissa |
| CborEncoding.DecimalWithFraction | include/jsoncons_ext/cbor/cbor_encoder.hpp:593-691 | For `[-]digits.digits`, the mantissa is all the digits and the scale is minus the number of fraction digits |
| CborEncoding.ScanExponentPart | include/jsoncons_ext/cbor/cbor_encoder.hpp:639-673 | After the exponent marker comes an optional sign, of which only a minus is kept, then the digits |
| CborEncoding.DecimalWithExponent | include/jsoncons_ext/cbor/cbor_encoder.hpp:593-691 | For `[-]digits e [+-]digits`, the mantissa is the integer part and the exponent text keeps its minus sign |
| CborEncoding.FractionThenExponentRejected | include/jsoncons_ext/cbor/cbor_encoder.hpp:674-689 | Every decimal with a fraction followed by an exponent marker, such as `1.5e3`, is refused, whatever follows the marker: after the point only digits are read |
| CborEncoding.EmptyExponentAccepted | include/jsoncons_ext/cbor/cbor_encoder.hpp:625-630 | Every integer text followed by an exponent marker and nothing else, such as `12e`, is accepted as if the marker were absent |
| CborEncoding.EmptyFractionAccepted | include/jsoncons_ext/cbor/cbor_encoder.hpp:625-630 | Every integer text followed by a point and nothing else, such as `1.`, is accepted as if the point were absent |
| CborEncoding.BignumRoundTrip | include/jsoncons_ext/cbor/cbor_encoder.hpp:528-589 | A bignum is tag 2 over the magnitude of n, or tag 3 over -1-n when n is negative. It reads back as n (RFC 8949 section 3.4.3) |
| CborEncoding.ScaledParts | include/jsoncons_ext/cbor/cbor_encoder.hpp:693-727 | The exponent is the scale plus the exponent text, wrapped to 64 bits. The mantissa is a 64-bit integer, or the big-integer parse when out of range. It fails exactly when the exponent text does not convert or the mantissa text is malformed |
| CborEncoding.ExponentOf | include/jsoncons_ext/cbor/cbor_encoder.hpp:696-707 | The exponent is a 64-bit value. It is refused exactly when there is exponent text and it does not convert |
| CborEncoding.IntPairRoundTrip | include/jsoncons_ext/cbor/cbor_encoder.hpp:707-716 | Two 64-bit integers written one after the other read back as that pair |
| CborEncoding.ExponentMantissaRoundTrip | include/jsoncons_ext/cbor/cbor_encoder.hpp:693-728 | The two-element array of exponent and mantissa reads back as that pair |
| CborEncoding.TaggedRoundTrip | include/jsoncons_ext/cbor/cbor_encoder.hpp:693 | Reading a decimal fraction or big float starts by reading its tag |
| CborEncoding.ScaledRoundTrip | include/jsoncons_ext/cbor/cbor_encoder.hpp:591-904 | A decimal fraction (tag 4) or big float (tag 5) with a 64-bit mantissa reads back as its tag, exponent and mantissa (RFC 8949 section 3.4.4) |
| CborEncoding.DecimalFractionValue | include/jsoncons_ext/cbor/cbor_encoder.hpp:591-729 | `[-]i.f` with a 64-bit mantissa: the exponent is minus the number of fraction digits and the mantissa is i·10^\|f\| + f with the sign. So mantissa·10^exponent is the number the text denotes |
| CborEncoding.CloseStatus | include/jsoncons_ext/cbor/cbor_encoder.hpp:319-346 | An indefinite container may always close. A definite one closes exactly when it holds its declared number of items; otherwise it has too few or too many |
| CborEncoding.Bumped | include/jsoncons_ext/cbor/cbor_encoder.hpp:1824-1830 | Counting one more item, as `end_value` does, adds one to the innermost container's index and leaves every container below it as it was; an empty stack stays empty |
| CborEncoding.BumpsCountItems | include/jsoncons_ext/cbor/cbor_encoder.hpp:1824-1830 | A container just opened with index 0, then given `k` items, has index `k`, and the containers below it are unchanged |
| CborEncoding.DefiniteClosesAfterItsItems | include/jsoncons_ext/cbor/cbor_encoder.hpp:84-87 | After `k` items in a definite container, the containers below are unchanged. An array may close exactly when `k` is its length; an object exactly when `k` halved is its length, so a trailing key with no value also passes (319-346) |
| CborEncoding.ObjectClosesAfterItsMembers | include/jsoncons_ext/cbor/cbor_encoder.hpp:84-87 | A definite object opened on any stack closes cleanly after the keys and values of `members` members were counted into it exactly when `members` is its declared length, and the stack below is unchanged |
| CborEncoding.CborEncoder.constructor | include/jsoncons_ext/cbor/cbor_encoder.hpp:125-139 | A new encoder has no open container and empty stringref tables. A packing encoder first writes tag 256, which announces the stringref namespace |
| CborEncoding.CborEncoder.Reset | include/jsoncons_ext/cbor/cbor_encoder.hpp:155-162 | Forgets the open containers, the stringref tables and the nesting depth. What was written stays |
| CborEncoding.CborEncoder.ResetWith | include/jsoncons_ext/cbor/cbor_encoder.hpp:164-168 | The same, onto a new sink |
| CborEncoding.CborEncoder.WriteHead | include/jsoncons_ext/cbor/cbor_encoder.hpp:1223-1252 | Appends the shortest head |
| CborEncoding.CborEncoder.WriteTag | include/jsoncons_ext/cbor/cbor_encoder.hpp:1192-1221 | Appends a tag |
| CborEncoding.CborEncoder.WriteUint64Value | include/jsoncons_ext/cbor/cbor_encoder.hpp:1223-1252 | Appends an unsigned integer |
| CborEncoding.CborEncoder.WriteInt64Value | include/jsoncons_ext/cbor/cbor_encoder.hpp:1254-1328 | Appends a signed integer: major type 0 when non-negative, major type 1 with -1-v otherwise |
| CborEncoding.CborEncoder.PushAll | include/jsoncons_ext/cbor/cbor_encoder.hpp:1093-1096 | The copy loop appends the given bytes to the sink, in order and nothing else |
| CborEncoding.CborEncoder.WriteUtf8String | include/jsoncons_ext/cbor/cbor_encoder.hpp:483-526 | Appends a text string in full |
| CborEncoding.CborEncoder.WriteByteString | include/jsoncons_ext/cbor/cbor_encoder.hpp:1056-1097 | Appends a byte string in full |
| CborEncoding.CborEncoder.WriteBignum | include/jsoncons_ext/cbor/cbor_encoder.hpp:528-589 | Appends a bignum |
| CborEncoding.CborEncoder.EndValue | include/jsoncons_ext/cbor/cbor_encoder.hpp:1824-1830 | Counts one more item in the innermost open container, if any |
| CborEncoding.CborEncoder.OpenContainer | include/jsoncons_ext/cbor/cbor_encoder.hpp:273-317 | Counts one more level of nesting. Beyond the maximum it is refused and writes nothing. Otherwise it pushes the container and writes its head |
| CborEncoding.CborEncoder.VisitBeginObject | include/jsoncons_ext/cbor/cbor_encoder.hpp:260-317 | An object of the given length, or of indefinite length |
| CborEncoding.CborEncoder.VisitBeginArray | include/jsoncons_ext/cbor/cbor_encoder.hpp:348-402 | An array of the given length, or of indefinite length |
| CborEncoding.CborEncoder.CloseContainer | include/jsoncons_ext/cbor/cbor_encoder.hpp:319-346 | Closes the innermost container. An indefinite one gets the break byte. A definite one must hold exactly its declared number of items, or it stays open with the error. Closing counts as one item of the enclosing container |
| CborEncoding.CborEncoder.VisitEndObject | include/jsoncons_ext/cbor/cbor_encoder.hpp:319-346 | The end of an object, as `CloseContainer` |
| CborEncoding.CborEncoder.VisitEndArray | include/jsoncons_ext/cbor/cbor_encoder.hpp:404-431 | The end of an array, as `CloseContainer` |
| CborEncoding.CborEncoder.VisitNull | include/jsoncons_ext/cbor/cbor_encoder.hpp:439-452 | Undefined is simple value 23 and every other null is 22. It counts as one item |
| CborEncoding.CborEncoder.VisitBool | include/jsoncons_ext/cbor/cbor_encoder.hpp:1330-1343 | True is simple value 21 and false is 20. It counts as one item |
| CborEncoding.CborEncoder.VisitUint64 | include/jsoncons_ext/cbor/cbor_encoder.hpp:1169-1190 | An unsigned integer, after tag 1 when it is epoch seconds. It counts as one item |
| CborEncoding.CborEncoder.VisitInt64 | include/jsoncons_ext/cbor/cbor_encoder.hpp:1147-1167 | A signed integer, after tag 1 when it is epoch seconds. It counts as one item |
| CborEncoding.CborEncoder.KnownText | include/jsoncons_ext/cbor/cbor_encoder.hpp:462-466 | A text string is written as a reference exactly when packing applies to its length and it is already in the table |
| CborEncoding.CborEncoder.KnownBytes | include/jsoncons_ext/cbor/cbor_encoder.hpp:1001-1005 | The same for byte strings |
| CborEncoding.CborEncoder.KnownIsInTable | include/jsoncons_ext/cbor/cbor_encoder.hpp:462-474 | Every number the table hands out names its own string, and fits the argument of a head |
| CborEncoding.CborEncoder.RegisterText | include/jsoncons_ext/cbor/cbor_encoder.hpp:468 | Enters a text string in the table under the next number, which then advances |
| CborEncoding.CborEncoder.RegisterBytes | include/jsoncons_ext/cbor/cbor_encoder.hpp:1007 | Enters a byte string in the table under the next number, in the numbering text strings share |
| CborEncoding.CborEncoder.WriteString | include/jsoncons_ext/cbor/cbor_encoder.hpp:454-481 | Text that is not UTF-8 is refused and nothing is written. Otherwise a repeat is written as tag 25 with its number. A long enough new string is written in full and takes the next number. Anything else is written in full |
| CborEncoding.CborEncoder.WriteBytesPacked | include/jsoncons_ext/cbor/cbor_encoder.hpp:1001-1019 | The same packing for byte strings, in the same numbering |
| CborEncoding.CborEncoder.VisitByteString | include/jsoncons_ext/cbor/cbor_encoder.hpp:966-1023 | A byte string, after tag 21, 22 or 23 when it is meant to be shown as base64url, base64 or base16. It counts as one item |
| CborEncoding.CborEncoder.VisitByteStringExt | include/jsoncons_ext/cbor/cbor_encoder.hpp:1025-1054 | A byte string under a raw tag. The tag comes before the packed string whether the string is written in full or as a reference (the corrected behaviour). It counts as one item |
| CborEncoding.CborEncoder.VisitText | include/jsoncons_ext/cbor/cbor_encoder.hpp:927-960 | A text string after the tag its semantic tag calls for: date-time 0, URI 32, base64url 33, base64 34. Text that is not UTF-8 is refused after the tag, and no item is counted |
| CborEncoding.CborEncoder.VisitString | include/jsoncons_ext/cbor/cbor_encoder.hpp:906-964 | A string under its semantic tag. A big integer is written as a bignum, a big decimal as a decimal fraction, a big float as a big float, anything else as tagged text |
| CborEncoding.CborEncoder.VisitKey | include/jsoncons_ext/cbor/cbor_encoder.hpp:433-437 | A key is written as untagged text and counts as one item |
| CborEncoding.CborEncoder.WriteScaledValue | include/jsoncons_ext/cbor/cbor_encoder.hpp:591-904 | Writing a big decimal or big float from text. Text the scanner refuses leaves everything as it was. Otherwise the tag and the two-element array are written, unless it would nest too deep. An exponent or mantissa that does not convert is an error. Else the whole item is written and counts as one item |
| CborEncoding.CborEncoder.WriteScaled | include/jsoncons_ext/cbor/cbor_encoder.hpp:693-728 | The tag, then the array of exponent and mantissa |
| CborEncoding.CborEncoder.WriteExponentMantissa | include/jsoncons_ext/cbor/cbor_encoder.hpp:696-728 | Inside the fresh array: the exponent, then the mantissa, then the array is closed |
| CborEncoding.CborEncoder.WriteMantissaAndClose | include/jsoncons_ext/cbor/cbor_encoder.hpp:710-728 | The mantissa as a 64-bit integer, or as a bignum when it is out of range. Malformed text is an error. Then the array is closed |
| CborEncoding.ByteStringHint | include/jsoncons_ext/cbor/cbor_encoder.hpp:971-999 | The only tags a byte string's hint writes are 21, 22 and 23 |
| CborEncoding.TextHint | include/jsoncons_ext/cbor/cbor_encoder.hpp:927-955 | The only tags a text string's semantic tag writes are 0, 32, 33 and 34 |
| CborEncoding.ExtBytesAsWritten | include/jsoncons_ext/cbor/cbor_encoder.hpp:1030-1044 | A byte string under a raw tag, as the library writes it, always starts with a tag head: the raw tag on a first occurrence, tag 25 (a stringref) on a repeat |
| CborEncoding.ExtTagLostOnRepeat | include/jsoncons_ext/cbor/cbor_encoder.hpp:1030-1044 | As written, the first occurrence of a packed byte string under tag 100 starts with tag 100, and its repeat starts with tag 25: the raw tag is lost |
| CborEncoding.ExtTagKept | include/jsoncons_ext/cbor/cbor_encoder.hpp:1025-1054 | The corrected output starts with the raw tag whether the string is written in full or as a reference. On a full occurrence it agrees with the library |
| JsonDecoding.ScalarEvent | include/jsoncons/json_decoder.hpp:219-378 | Every scalar value has an event the builder turns back into that same value |
| JsonDecoding.AfterReset | include/jsoncons/json_decoder.hpp:98-105 | After a reset: only the root frame, no items, index 0 and no result available. The pending key and the old result are kept |
| JsonDecoding.FillNothing | include/jsoncons/json_decoder.hpp:147-151 | A container that receives nothing is left as it was |
| JsonDecoding.EmptyContainer | include/jsoncons/json_decoder.hpp:133 | An empty container of the kind a frame stands for |
| JsonDecoding.Open | include/jsoncons/json_decoder.hpp:125-176 | A begin event pushes one item under the pending key and the running index, holding an empty container. It pushes a frame pointing at that item, clears the key and advances the index |
| JsonDecoding.Store | include/jsoncons/json_decoder.hpp:219-378 | A scalar event leaves the frames alone |
| JsonDecoding.Close | include/jsoncons/json_decoder.hpp:138-210 | An end event pops the innermost frame |
| JsonDecoding.ConsistentAccepts | include/jsoncons/json_decoder.hpp:138-210 | In a consistent state, the only assertion an end event can break is the kind of the innermost frame |
| JsonDecoding.OpenKeepsConsistent | include/jsoncons/json_decoder.hpp:125-176 | A begin event keeps the builder consistent |
| JsonDecoding.StoreKeepsConsistent | include/jsoncons/json_decoder.hpp:219-378 | A scalar event keeps the builder consistent |
| JsonDecoding.CloseKeepsConsistent | include/jsoncons/json_decoder.hpp:138-210 | An end event keeps the builder consistent, and the frame it closes points inside the item stack |
| JsonDecoding.StepKeepsConsistent | include/jsoncons/json_decoder.hpp:125-378 | Every event the builder accepts keeps it consistent |
| JsonDecoding.RunKeepsConsistent | include/jsoncons/json_decoder.hpp:125-378 | So does every stream of events it gets through |
| JsonDecoding.BeginAtTopLevel | include/jsoncons/json_decoder.hpp:127-134 | A begin at the top level discards the earlier items and withdraws the result. The new container is the only item, at index 0 |
| JsonDecoding.BeginInside | include/jsoncons/json_decoder.hpp:133-134 | A begin inside a container keeps every item and pushes exactly one, under the pending key and the running index |
| JsonDecoding.ScalarAtTopLevel | include/jsoncons/json_decoder.hpp:227-230 | A scalar at the top level becomes the available result and touches neither stack |
| JsonDecoding.ScalarInside | include/jsoncons/json_decoder.hpp:223-226 | A scalar inside a container is pushed as exactly one item under the pending key. The result is left alone |
| JsonDecoding.CloseInner | include/jsoncons/json_decoder.hpp:142-154 | Closing an inner container leaves the items below it alone. It erases the items above it and hands them to it in arrival order: an array appends their values, an object their keys and values |
| JsonDecoding.CloseOutermost | include/jsoncons/json_decoder.hpp:155-161 | Closing the outermost container makes it the available result and empties the item stack |
| JsonDecoding.RunAppend | include/jsoncons/json_decoder.hpp:125-378 | Running two streams one after the other is running their concatenation |
| JsonDecoding.ElementValues | include/jsoncons/json_decoder.hpp:190-199 | The items an array's elements leave hold exactly those elements |
| JsonDecoding.MemberPairs | include/jsoncons/json_decoder.hpp:147-151 | The items an object's members leave hold exactly those members |
| JsonDecoding.DocumentInside | include/jsoncons/json_decoder.hpp:125-378 | Inside a container, the events of any document push exactly one item: that document, under the pending key and the running index. Nothing below changes, and the index moves past every value the document contains |
| JsonDecoding.ClosesInside | include/jsoncons/json_decoder.hpp:138-210 | Closing a container opened inside another, once its children are pushed, leaves one more item holding the filled container |
| JsonDecoding.ClosesAtTopLevel | include/jsoncons/json_decoder.hpp:155-161 | Closing a container opened at the top level makes it, filled, the available result |
| JsonDecoding.RunContainer | include/jsoncons/json_decoder.hpp:125-210 | Running a begin, some children and an end is running each part in turn |
| JsonDecoding.RunArray | include/jsoncons/json_decoder.hpp:164-210 | The events of an array are its begin, its elements and its end, run in turn |
| JsonDecoding.RunObject | include/jsoncons/json_decoder.hpp:125-162 | The events of an object are its begin, its members and its end, run in turn |
| JsonDecoding.ArrayCloses | include/jsoncons/json_decoder.hpp:178-210 | Inside a container, the end of an array whose elements are all pushed leaves one item holding the array |
| JsonDecoding.ObjectCloses | include/jsoncons/json_decoder.hpp:138-162 | Inside a container, the end of an object whose members are all pushed leaves one item holding the object |
| JsonDecoding.ArrayInside | include/jsoncons/json_decoder.hpp:164-210 | An array run inside a container leaves one item holding it |
| JsonDecoding.ObjectInside | include/jsoncons/json_decoder.hpp:125-162 | An object run inside a container leaves one item holding it |
| JsonDecoding.ElementsInside | include/jsoncons/json_decoder.hpp:219-378 | The elements of an array, run inside it, leave their values above it in order, each with an empty key |
| JsonDecoding.ElementInside | include/jsoncons/json_decoder.hpp:219-378 | One element, run inside an array, is pushed with the empty key |
| JsonDecoding.MembersInside | include/jsoncons/json_decoder.hpp:213-378 | The members of an object, run inside it, leave their values above it, under their keys and in order |
| JsonDecoding.MemberInside | include/jsoncons/json_decoder.hpp:213-216 | One member, run inside an object: its key, then its value, pushed under that key |
| JsonDecoding.DocumentAtTopLevel | include/jsoncons/json_decoder.hpp:125-378 | At the top level, the events of any document leave exactly that document as the available result. A container leaves the item stack empty and a scalar leaves it alone |
| JsonDecoding.ArrayAtTopLevel | include/jsoncons/json_decoder.hpp:164-210 | The same for an array |
| JsonDecoding.ObjectAtTopLevel | include/jsoncons/json_decoder.hpp:125-162 | The same for an object |
| JsonDecoding.Initial | include/jsoncons/json_decoder.hpp:72-83 | A new builder is consistent, holds only the root frame and has no result available |
| JsonDecoding.DocumentRoundTrip | include/jsoncons/json_decoder.hpp:72-378 | Fed the events of one document, a new builder has exactly that document available. A builder that finished one document and is fed another has the second one available |
| JsonDecoding.JsonDecoder.constructor | include/jsoncons/json_decoder.hpp:72-83 | A new builder is in the initial state |
| JsonDecoding.JsonDecoder.Reset | include/jsoncons/json_decoder.hpp:98-105 | The builder goes to `AfterReset` of its old state |
| JsonDecoding.JsonDecoder.GetResult | include/jsoncons/json_decoder.hpp:112-117 | Hands out the available result and withdraws it; nothing else changes |
| JsonDecoding.JsonDecoder.VisitBeginObject | include/jsoncons/json_decoder.hpp:125-136 | The builder goes to `Open` of its old state, for an object |
| JsonDecoding.JsonDecoder.VisitBeginArray | include/jsoncons/json_decoder.hpp:164-176 | The builder goes to `Open` of its old state, for an array |
| JsonDecoding.JsonDecoder.Begin | include/jsoncons/json_decoder.hpp:125-176 | The begin shared by both kinds, as `Open` |
| JsonDecoding.JsonDecoder.VisitEndObject | include/jsoncons/json_decoder.hpp:138-162 | The builder goes to `Close` of its old state: the object receives all the items above it at once, which are then erased |
| JsonDecoding.JsonDecoder.VisitEndArray | include/jsoncons/json_decoder.hpp:178-210 | The builder goes to `Close` of its old state: the array receives the items above it one by one, which are then erased |
| JsonDecoding.JsonDecoder.FillObject | include/jsoncons/json_decoder.hpp:143-153 | The innermost object takes, at once and in order, the members made by the items above it, and those items are erased; nothing else in the builder changes |
| JsonDecoding.JsonDecoder.FillArray | include/jsoncons/json_decoder.hpp:183-199 | The innermost array takes the values of the items above it, one by one and in order, and those items are erased; nothing else in the builder changes |
| JsonDecoding.JsonDecoder.PushValues | include/jsoncons/json_decoder.hpp:190-198 | The loop appends the values of the items from a given position on, in order |
| JsonDecoding.JsonDecoder.PopFrame | include/jsoncons/json_decoder.hpp:154-161 | Pops the closed container's frame. At the top level, it swaps the container into the result, pops its item and makes the result available |
| JsonDecoding.JsonDecoder.VisitKey | include/jsoncons/json_decoder.hpp:213-216 | The key becomes the pending name; nothing else changes |
| JsonDecoding.JsonDecoder.StoreValue | include/jsoncons/json_decoder.hpp:219-232 | The builder goes to `Store` of its old state |
| JsonDecoding.JsonDecoder.VisitString | include/jsoncons/json_decoder.hpp:219-232 | A string, as `Store` |
| JsonDecoding.JsonDecoder.VisitByteString | include/jsoncons/json_decoder.hpp:235-251 | A byte string, as `Store` |
| JsonDecoding.JsonDecoder.VisitByteStringExt | include/jsoncons/json_decoder.hpp:254-270 | A byte string under a raw tag, as `Store` |
| JsonDecoding.JsonDecoder.VisitInt64 | include/jsoncons/json_decoder.hpp:273-289 | A signed integer, as `Store` |
| JsonDecoding.JsonDecoder.VisitUint64 | include/jsoncons/json_decoder.hpp:292-308 | An unsigned integer, as `Store` |
| JsonDecoding.JsonDecoder.VisitHalf | include/jsoncons/json_decoder.hpp:311-327 | A half float, as `Store` |
| JsonDecoding.JsonDecoder.VisitDouble | include/jsoncons/json_decoder.hpp:330-346 | A double, as `Store` |
| JsonDecoding.JsonDecoder.VisitBool | include/jsoncons/json_decoder.hpp:349-362 | A boolean, as `Store` |
| JsonDecoding.JsonDecoder.VisitNull | include/jsoncons/json_decoder.hpp:365-378 | A null, as `Store` |
| EventReplay.ElementEvents | include/jsoncons/staj_event_reader.hpp:108-184 | One event per element, the i-th replaying the i-th element |
| EventReplay.ShapeEvents | include/jsoncons/staj_event_reader.hpp:186-208 | One untagged unsigned event per shape entry, in order |
| EventReplay.ReceivedView | include/jsoncons/staj_event_reader.hpp:486-616 | The view the receiver builds is never of half floats. Every other array is kept as it arrives. A well-typed half-float array becomes a `uint16` view of the same length whose i-th element is the bit pattern of the i-th half, because the half-float overload (582-592) builds its view exactly as the `uint16_t` overload (498-508) does |
| EventReplay.HoldView | include/jsoncons/staj_event_reader.hpp:486-616 | Holding a view: replaying, at element 0, with that view, exposing an array start with the array's tag; the shape is kept |
| EventReplay.StartTypedArray | include/jsoncons/staj_event_reader.hpp:486-616 | A typed array arrives: the receiver holds its received view, which is never of half floats, replays from element 0, and the puller first sees an array start with the array's tag |
| EventReplay.StartMultiDim | include/jsoncons/staj_event_reader.hpp:626-635 | The shape is stored and the puller first sees the start of a two-element array. The replay position is not reset |
| EventReplay.SendStep | include/jsoncons/staj_event_reader.hpp:82-96 | `send_available` does nothing when idle, a typed-array step in a typed array, and a shape step in a multi-dimensional array |
| EventReplay.Pump | include/jsoncons/staj_event_reader.hpp:82-96 | n calls of `send_available` expose n events |
| EventReplay.AfterDump | include/jsoncons/staj_event_reader.hpp:368-373 | After `dump`, a typed array in progress is abandoned and the receiver is no longer replaying. The current event and the shape are kept |
| EventReplay.DumpEventsAsWritten | include/jsoncons/staj_event_reader.hpp:210-374 | As written, `dump` agrees with `DumpEvents` whenever there is no view or the view is not of half floats, which covers every view the receiver holds |
| EventReplay.HalfArrayReplaysAsUint16 | include/jsoncons/staj_event_reader.hpp:582-592 | As written, every well-typed half-float array is replayed as untagged unsigned integers, the i-th being the bit pattern of the i-th half, followed by the array's end. No replayed event is a half float, so the half-float case of `advance_typed_array` (155-159) is never taken |
| EventReplay.HalfArrayReplaysAsHalves | include/jsoncons/staj_event_reader.hpp:155-159 | With a view that keeps the half-float type, every well-typed half-float array is replayed as half-float events carrying each element's bits, followed by the array's end; `DumpEvents`, which has a half-float case, then forwards the whole array before any element is pulled |
| EventReplay.TypedArrayTail | include/jsoncons/staj_event_reader.hpp:108-184 | From element i on, a typed-array replay exposes the remaining elements in order, then the array's end, and goes idle |
| EventReplay.ViewReplay | include/jsoncons/staj_event_reader.hpp:108-184 | A held view of n elements is pulled as an array start, its n elements in order and the array's end, in n + 1 calls of `send_available`; the receiver is then idle with no typed array |
| EventReplay.TypedArrayReplay | include/jsoncons/staj_event_reader.hpp:108-184 | A typed array of n elements is pulled as an array start, the n elements of its received view in order and the array's end, in n + 1 calls of `send_available` after it arrives. An array of any type but half floats replays its own elements. The receiver is then idle with no typed array |
| EventReplay.ShapeTail | include/jsoncons/staj_event_reader.hpp:186-208 | From entry i on, a shape replay exposes the remaining entries in order, then the shape's end, and goes idle |
| EventReplay.MultiDimReplay | include/jsoncons/staj_event_reader.hpp:186-208 | A non-empty shape of n entries is pulled as the start of a two-element array, the start of an n-element array, the n entries in order and that array's end. This takes n + 2 calls; the receiver is then idle |
| EventReplay.EmptyShapeStalls | include/jsoncons/staj_event_reader.hpp:188 | An empty shape has nothing to replay: `send_available` changes nothing and the receiver stays in the multi-dimensional state |
| EventReplay.DumpCompletesReplay | include/jsoncons/staj_event_reader.hpp:210-374 | `dump` as written, before any element is pulled, forwards the whole received view in one call. After k elements, it forwards the k-th again, then exactly those not yet pulled, so the pulled and forwarded elements are the whole view. No array end is forwarded, and the receiver stops replaying |
| EventReplay.DumpCompletesView | include/jsoncons/staj_event_reader.hpp:210-374 | The same completion for any held view, with `DumpEvents` |
| EventReplay.PumpElements | include/jsoncons/staj_event_reader.hpp:108-184 | After k steps of a typed-array replay, the first k elements have been exposed, the k-th last |
| EventReplay.ItemEventReceiver.constructor | include/jsoncons/staj_event_reader.hpp:57-61 | A new receiver: a null event, idle, no data, an empty shape and position 0 |
| EventReplay.ItemEventReceiver.Reset | include/jsoncons/staj_event_reader.hpp:63-70 | Back to the new receiver's state; nothing is being replayed |
| EventReplay.ItemEventReceiver.SendAvailable | include/jsoncons/staj_event_reader.hpp:82-96 | The receiver goes to `SendStep` of its old state |
| EventReplay.ItemEventReceiver.AdvanceTypedArray | include/jsoncons/staj_event_reader.hpp:108-184 | The receiver goes to `TypedArrayStep` of its old state |
| EventReplay.ItemEventReceiver.AdvanceMultiDim | include/jsoncons/staj_event_reader.hpp:186-208 | The receiver goes to `MultiDimStep` of its old state |
| EventReplay.ItemEventReceiver.Dump | include/jsoncons/staj_event_reader.hpp:210-374 | Forwards exactly `DumpEventsAsWritten` of the old state, half-float views included, and leaves `AfterDump` of it |
| EventReplay.ItemEventReceiver.Visit | include/jsoncons/staj_event_reader.hpp:378-482 | A push call that is an item event becomes the current event; nothing else changes |
| EventReplay.ItemEventReceiver.VisitTypedArray | include/jsoncons/staj_event_reader.hpp:486-616 | The receiver goes to `StartTypedArray` of its old state and is replaying |
| EventReplay.ItemEventReceiver.VisitBeginMultiDim | include/jsoncons/staj_event_reader.hpp:626-635 | The receiver goes to `StartMultiDim` of its old state and is replaying |
| EventReplay.ItemEventReceiver.VisitEndMultiDim | include/jsoncons/staj_event_reader.hpp:637-642 | The end of a multi-dimensional array is pulled as the end of its two-element array |
| EventReplay.ArrayExpected | include/jsoncons/staj_event_reader.hpp:657-663 | A vector may be read exactly when the current event begins an array or is a byte string; a byte string under a raw tag counts, being the same kind of event with its tag (446). Any other event is refused as not a vector |
| EventReplay.ArrayExpectedOnReplay | include/jsoncons/staj_event_reader.hpp:657-663 | A typed array and a multi-dimensional array both first present themselves as a vector. Every element a replay then exposes is refused as not a vector |
| EventReplay.Advance | include/jsoncons/staj_event_reader.hpp:718-725 | The cursor moves to its next event, and stays put at the end |
| EventReplay.Scan | include/jsoncons/staj_event_reader.hpp:687-734 | Where a filtered scan stops: the first position at or after the start that is past the last event, accepted by the predicate, or an error. Every position skipped before it is refused and error-free |
| EventReplay.FilterView.constructor | include/jsoncons/staj_event_reader.hpp:687-695 | The view moves the cursor to the first event the predicate accepts, or to the end |
| EventReplay.FilterView.CursorNext | include/jsoncons/staj_event_reader.hpp:718-725 | The wrapped cursor's `next` moves one event on |
| EventReplay.FilterView.CursorNextChecked | include/jsoncons/staj_event_reader.hpp:727-734 | The same, and it reports an error exactly at a faulty position |
| EventReplay.FilterView.Next | include/jsoncons/staj_event_reader.hpp:718-725 | Moves past the current event to the next one the predicate accepts, or to the end |
| EventReplay.FilterView.NextChecked | include/jsoncons/staj_event_reader.hpp:727-734 | The same, but it also stops at the first error the cursor reports, and reports it |

## Left out

- **Visitor errors.** Errors returned by the visitor the parser reports
  to are not modelled. Events are appended to a log.
- **Helpers the core calls but does not define.** These are parameters of
  the parser and the encoder, not modelled:
  - UTF-8 validation: `validate` in the parser, `validUtf8` in the encoder;
  - `decstr_to_double`: `decstrToDouble`;
  - `min_length_for_stringref`: `minLengthForStringref`;
  - the big-integer parse: `bigintParse`;
  - the magnitude bytes of a big integer: `magnitudeBytes`.

  One helper is modelled concretely instead: the parser's conversion of a
  code point to UTF-8 (`unicode_traits::convert`, called at
  include/jsoncons/json_parser.hpp:2161 and 2282) is `JsonString.Utf8Encode`.
  It assumes the conversion is the strict one: a surrogate or a value above
  U+10FFFF appends nothing, and the parser ignores the conversion's result.
  The header that defines it is not part of this model.
- **Floating point.** Doubles are opaque 64-bit patterns. `visit_double`
  of the CBOR encoder is not modelled (include/jsoncons_ext/cbor/cbor_encoder.hpp:1099-1145).
- **Typed arrays on the CBOR side.** The encoder's typed-array and
  multi-dimensional visitors (include/jsoncons_ext/cbor/cbor_encoder.hpp:1345-1705)
  are not modelled.
- **Allocators, the reserve calls and the sink's flush** are not modelled.
- **Throwing overloads.** The parser's overloads that throw instead of
  returning an error code, `skip_whitespace` and `finish_parse`, are not
  modelled.
- **Stack depth.** The parser's level counter is unbounded here. The
  library's counter is an `int`.
- **JSON storage.** The tree builder's objects are sequences of members in
  arrival order. Sorting and de-duplication happen in the object storage
  (json_object.hpp), which is not part of this model.
- **Moved-from values in the builder.** The key moved into an item is
  modelled as the empty string. The library leaves a moved-from string.
- **Foreign events in the builder.** The builder model accepts no
  typed-array or multi-dimensional events. In the library, the base visitor
  expands them into ordinary events.
- **Error context.** The receiver's and filter's `ser_context` is not
  modelled. The filter's predicate gets the event and its position.
- **The cursor under the filter view** is a finite sequence of events,
  with the set of positions where its `next` reports an error.
  `read_to` is not modelled.
- **Float128 typed arrays** are not modelled: the library's overload is
  empty (include/jsoncons/staj_event_reader.hpp:618-624).
- JsonParsing.JsonParser.ParseSome: where the library loops forever (a
  control character before the document when the handler lets it
  through), the model returns `Diverges` instead of looping.
- JsonParsing.JsonParser.Step: a `done` state inside the loop, which the
  library rejects with an assertion, returns an assertion-failure error.
- **After an error** the model promises only that `Reset` works again.
  The library makes no promise either.
- JsonParsing.JsonParser.CloseString: the buffer holds the string's whole
  text after it closes. The library keeps a string read in one chunk out of
  the buffer. The buffer is cleared when the next string starts, so no
  event differs.
- JsonParsing.JsonParser.FailString: the buffer keeps the text read before
  the error. The library may drop it; no event depends on it.
- JsonParsing.JsonParser.StepSlashStarStar: a star right after a star keeps
  the close pending, as the Findings below describe. Like the library, it
  does not count a line break that follows a star.
- JsonParsing.JsonParser.constructor: the error handler is a pure function
  of the error code. It does not see the parser's position.
- CborEncoding.CborEncoder.CloseContainer: the library asserts that a
  container is open; this is a precondition here.
- CborEncoding.CborEncoder.VisitUint64: epoch milliseconds and nanoseconds
  are not modelled. Their requires excludes them.
- CborEncoding.CborEncoder.VisitInt64: the same.
- CborEncoding.Units: a code unit above 0xFF keeps only its low octet.
  The library's 8-bit `char` text cannot hold such a unit, and
  `UnitsRoundTrip` is stated for text of 8-bit units.
- CborEncoding.CborEncoder.VisitByteStringExt: on a repeated byte string
  with packing on, the library writes only tag 25 and the string's index
  (include/jsoncons_ext/cbor/cbor_encoder.hpp:1030-1044). The method writes
  the raw tag before tag 25, the corrected behaviour of the second Findings
  row. `ExtBytesAsWritten` gives the bytes the library writes.
- CborEncoding.CborEncoder.WriteString: text that is not UTF-8 returns an
  error status. The library throws.
- CborEncoding.CborEncoder.RegisterText: the stringref counter is not
  allowed to wrap. The requires keeps it below 2^64 - 1.
- CborEncoding.CborEncoder.WriteScaledValue: the decimal and the
  hexadecimal scanners are one scanner with a `hex` flag. This is
  faithful to both.
- JsonDecoding.JsonDecoder.GetResult: the moved-from result is modelled as
  unchanged. The library leaves a moved-from value.
- JsonDecoding.JsonDecoder.VisitEndObject: the library's assertions of an
  open object (include/jsoncons/json_decoder.hpp:140-143) are preconditions
  here.
- JsonDecoding.JsonDecoder.VisitEndArray: the library's assertions of an
  open array below the root (include/jsoncons/json_decoder.hpp:180-183) are
  preconditions here.
- JsonDecoding.JsonDecoder.GetResult: the library's assertion that a result
  is available (include/jsoncons/json_decoder.hpp:114) is a precondition
  here.
- EventReplay.FilterView.Next: requires the cursor not to be past the end.
  The filter itself keeps this.
- **Views in the receiver.** The library's receiver keeps a typed array and
  a shape as spans over the visitor's data, which it does not own. Here
  they are copied values, so a caller changing the data behind a span is
  not modelled.
- **What the parser's invariant leaves out.** It ties the container frames
  to the kinds and depth of the open objects and arrays in the event log.
  It does not state that keys and values alternate inside an object.

## Findings

| source | as written | input that shows it | evidently intended | confidence | as-written member | corrected member |
|---|---|---|---|---|---|---|
| include/jsoncons/json_parser.hpp:1559-1578 | In a block comment, any character after a `*` other than `/` goes back to the body, a second `*` included | the comment `/***/`: the third star returns to the body, so `*/` is never seen and the comment runs on | a comment ends at the first `*/`, so a star after a star may still begin the close | high, not executed | JsonParsing.AsWrittenMissesStarStarSlash | JsonParsing.BlockCommentEndsAtFirstClose |
| include/jsoncons_ext/cbor/cbor_encoder.hpp:1030-1044 | With packing on, a byte string under a raw tag writes the tag only with the string's first occurrence. A repeat is a bare stringref | the byte string `01 02 03` under tag 100, twice, with packing and a minimum length of 3 | the raw tag is kept on the repeat and written before tag 25, as `visit_byte_string` does with its own tags (966-1023) | medium, not executed | CborEncoding.ExtTagLostOnRepeat | CborEncoding.ExtTagKept |
| include/jsoncons/staj_event_reader.hpp:582-592 | The half-float overload of `visit_typed_array` builds its view from the `uint16_t` span with the same call as the `uint16_t` overload (504). The receiver therefore holds a `uint16` view, and a half-float array is replayed, and dumped, as unsigned integers. The `half_value` case of `advance_typed_array` (155-159) is never reached | a half-float typed array `[0x3c00, 0x4000]` (1.0 and 2.0): the puller receives `uint64_value(15360)` and `uint64_value(16384)` instead of two half floats | the view keeps the half-float type, so that the half-float case at 155-159 replays each element as a half float | medium, not executed | EventReplay.HalfArrayReplaysAsUint16 | EventReplay.HalfArrayReplaysAsHalves |
