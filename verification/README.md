# A verified model of pjh_json

pjh_json is a C++ JSON library in which almost every fast or incremental form has a simple counterpart. This project
models both sides and proves that they agree: block-wise scans against byte-wise ones, in-place decoding against decoding
into a fresh buffer, an incremental event reader against a recursive-descent parser, a compile-time validator against the
same parser, open-addressing indexes against linear search, a writer against the parser that reads it back, and in-place
tree edits against the standards they implement, with the exact places where they part.

`dafny verify dfyconfig.toml` checks everything.

## What is modelled, and how

* **Values** (`Core`). A `Json` is a tree; an object is the sequence of its entries. Bytes are 0..255. A double is its 64-bit
  pattern. `At` reads NUL behind the text, which is the padding the library guarantees.
* **Text** (`Grammar`, `Numbers`, `Utf8`, `Utf8Gate`, `Strings`, `Json5Lexer`, `ParserSpec`). The parser as functions of a
  buffer with a logical end inside it: value and end, or the first error with its code and offset. `ParserSpec` stops at the
  first error.
* **The parser itself** (`InPlace`, `InPlace5`, `StringTokens`, `Json5Scan`, `KeyIndex`, `Parser`). Methods over a mutable
  `array<byte>`, a class with cursor, depth counter and first-error-wins slot, proved to do what `ParserSpec` says, also after
  a comment error was recorded without stopping the descent.
* **The writer** (`StringWriter`, `DumpSpec`, `Dump`, `ByteOrder`, `StringRoundTrip`, `DumpRoundTrip`). A class that appends
  to a sink, the text it writes as a function of the tree, and the round trip.
* **The event reader and its filter** (`StreamSpec`, `StreamReader`, `StreamNumbers`, `StreamStrings`, `StreamAgreement`,
  `StringErrors`, `EventsNest`, `ItemsSpec`, `ItemsCorrect`, `StreamValues`, `Items`). A class with a sliding window, refills
  and a stack of container phases, refining a machine over the whole stream (one turn at a time) that knows no window; a
  second class that filters events.
* **JSON Lines and JSON5** (`LineCut`, `LineHops`, `LineCut5`, `Jsonl`, `Json5Extension`). What a shared buffer and a second
  lexical layer do and do not change.
* **Meanings** (`Lexis`, `StringMeaning`, `Json5Grammar`, `Json5Numbers`, `Json5Reading`, `Json5Texts`, `JsonlMeaning`,
  `ErrorMeaning`, `Selection`, `WriterMeaning`, `DumpLayout`, `OrderMeaning`, `RfcOps`, `PatchMeaning`). What a text, a token,
  an error, a selection, a layout, an order and a patch operation are, written out from the standards and the documentation
  without the tables and helper functions of the code, and the code against them.
* **Objects** (`Probing`, `ObjectIndex`). Class `Object` with entries and an optional index object, under every operation.
* **Equality, order, hash** (`JsonOrder`, `JsonOrderLaws`).
* **Pointer, Patch, Merge Patch** (`Pointers`, `PatchSpec`, `Patch`, `PatchLaws`, `NumericEquality`,
  `PatchTests`, `MergePatch`).
* **The compile-time validator and the text grammar** (`Validate`, `ValidateAgreement`, `TextGrammar`). The grammar is a
  relation on spans of a text; the validator decides it and the parser agrees with the validator.

A SIMD block is the sequence of its lane results; every proof about one holds for all lane widths from 1 to 64. Shifts and
masks are written as `/` and `%`; 64-bit wrap-around and narrowing to 32 bits are written out where the code depends on them.

What the code calls and this project cannot see is a parameter: `std::from_chars`, `std::to_chars` (record `FloatLib`; only the
round trip of the writer asks anything of them, by `FloatsRoundTrip`), the hash functions of both indexes, the mixers of
`hash64`, and the Unicode identifier tables.

## Findings

* The UTF-8 checker ignores bytes below 0x20 in a continuation slot (`Utf8.CheckerSkipsControls`); `Utf8Gate.CheckerExact`
  says when that matters. An RFC string refuses such bytes at once, so there strict mode is exact
  (`Utf8Gate.StrictIsWellFormed`). In JSON5 mode it is not: a string may hold such bytes
  (`Utf8Gate.Json5LetsIllFormedThrough`), and the gate sees one backslash in place of an escape, so that an escape that takes
  the first byte of a character makes it refuse well-formed text (`Utf8Gate.WideEscapeRefused`) or pass ill-formed text
  (`Utf8Gate.WideEscapePasses`). `Utf8Gate.StrictText5` and `Utf8Gate.StrictValue5` say exactly when, for the text between the
  quotes and for the value.
* A digit count is narrowed to 32 bits before the integer path is chosen (`Numbers.NarrowingMisreads`, `Numbers.ClassifyExact`).
* `strict_index` refuses the last six values of `size_t`, against its comment (`Pointers.StrictIndexRefusesMax`,
  `Pointers.StrictIndexExact`).
* Reader and parser can report different first errors for a string: when it never ends and a control byte or a backslash
  stands in it (`StringErrors.RunsOutSplits`), and in strict mode when it ends, holds an escape, and a control byte follows
  ill-formed text (`StringErrors.ControlBehindBadTextSplits`). These are the only cases (`StringErrors.SameStringError`), for
  whole texts too (`StreamAgreement.ReaderAgreesWithParser`, `StreamValues.MultiReaderAgreesWithParser`).
* A JSON Lines record of JSON5 comments only is refused with another code when a line break follows it than when it stands
  alone (`LineCut5.DocumentAlike`).
* A white space scan is not held back by the end of a JSON Lines record: a line that opens an array can be completed by the
  lines below it. The line with its last bracket then fails by itself, so the outcome is still that of the lines taken alone
  (`Jsonl.RecordsAreLines`).
* Remove undoes an add if and only if the add created the slot (`PatchLaws.RemoveUndoesAdd`); it does not where the add
  overwrote a key or appended through `-` (`PatchLaws.RemoveDoesNotUndoOverwrite`, `PatchLaws.RemoveDoesNotUndoAppend`).
* A patch tests numbers by type before value (src/json.cpp:595): an integer 1 in the document fails a test against 1.0
  (`PatchTests.IntegerTestedAgainstDouble`), which section 4.6 of RFC 6902 lets pass. `PatchTests.PatchIsRfc` says exactly when
  a patch is the one the standard defines; a patch that succeeds always is.
* An escaped surrogate on its own is in the grammar of section 7 of RFC 8259 and refused by validator and parser
  (`TextGrammar.LoneSurrogate`); otherwise, and numbers out of range apart, they accept exactly that grammar
  (`TextGrammar.ParserIsGrammar`).
* In a JSON5 string `\xHH` puts the byte HH into the value (src/parser/string.cpp:93-119), where JSON5 has the code point U+00HH;
  from 0x80 on the value is another one and may be ill-formed (`StringMeaning.HexEscapeIsByte`). `StringMeaning.HexIsCodePoint`
  says exactly when the two agree.
* A move whose source can be removed and whose target is then refused leaves the document without the source
  (`PatchLaws.RefusedMoveLosesSource`, `PatchLaws.RefusalKeeps`). A whole patch works on a copy, so its target is safe
  (`Patch.PatchTarget`).
* Trichotomy of equality and order holds exactly for values without NaN (`JsonOrderLaws.EqIsNeitherLess`).

## Model

| member | source | states |
|---|---|---|
| Utf8.Utf8Checker.FeedByte | include/pjh_json/detail/utf8.hpp:78-179 | feeding one byte at a position takes the checker from its old state to the one the byte-wise machine `Feed` gives; the first failure sticks |
| Utf8.Utf8Checker.Finish | include/pjh_json/detail/utf8.hpp:181-185 | ending with bytes still expected records a truncation at the lead byte |
| Utf8.Utf8Checker.FeedRun | include/pjh_json/detail/utf8.hpp:61-65 | feeding a run is feeding its bytes in order, with the early stop after a failure changing nothing |
| Utf8Gate.CheckerExact | include/pjh_json/detail/utf8.hpp:78-185 | for every text: it is UTF8-octets of section 4 of RFC 3629 if and only if feed-and-end accepts it and no control byte was skipped in a continuation slot |
| Utf8Gate.DecidersAgree | include/pjh_json/detail/utf8.hpp:78-195 | the three deciders (feed-and-end, repeated decode_utf8, the ascii writer) agree with the grammar, the first one on text without bytes below 0x20 |
| Utf8Gate.StrictIsWellFormed | src/parser/string.cpp:218-365 | in RFC mode strict_utf8 refuses exactly the strings whose decoded value is ill-formed and changes no other outcome |
| Utf8Gate.StrictText5 | src/parser/string.cpp:387-455 | in JSON5 mode, against the text between the quotes: a well-formed text is refused if and only if an escape takes a byte of a multi-byte character, and an accepted text is well-formed if and only if no escape does and no control byte was skipped inside a character |
| Utf8Gate.StrictValue5 | src/parser/string.cpp:387-455 | in JSON5 mode, against the decoded value: strict_utf8 checks every run of raw bytes between escapes on its own; an accepted value is well-formed if and only if every run of adjacent escapes decodes to well-formed bytes and no control byte was skipped; a well-formed value is refused if and only if some run of raw bytes is not |
| Utf8Gate.WideEscapeRefused | src/parser/string.cpp:187-192 | at 22 5C C3 A9 22 text and value are well-formed and strict mode refuses the string |
| Utf8Gate.WideEscapePasses | src/parser/string.cpp:187-192 | at 22 5C FF 22 text and value are ill-formed and strict mode accepts the string |
| Utf8Gate.ContinuationRefused | src/parser/string.cpp:62-199 | a line continuation inside a character: the value is well-formed and strict mode refuses the string |
| Utf8Gate.Json5LetsIllFormedThrough | src/parser/string.cpp:387-455 | a control byte in a continuation slot of a JSON5 string: the value is ill-formed and strict mode accepts the string |
| Utf8.CheckerSkipsControls | include/pjh_json/detail/utf8.hpp:158 | the side condition is needed: a control byte in a continuation slot is skipped, and an ill-formed string is accepted |
| StringTokens.CheckUtf8Strict | include/pjh_json/detail/utf8.hpp:189-195 | check_utf8_strict over a buffer range reports the first violation with its position, or none |
| Utf8.DecodeMatchesGrammar | src/parser/unicode.hpp:307-377 | decode_utf8 accepts exactly the UTF8-char forms, with their length, and yields a scalar value |
| Utf8.DecoderIsGrammar | src/parser/unicode.hpp:307-377 | repeated decode_utf8 reaches the end of a string exactly when it is well-formed: the second decider agrees with the grammar on every string |
| Utf8.EncodeUndoesDecode | src/parser/utils.cpp:220-249 | encoding what was decoded gives back exactly the bytes read |
| Utf8.DecodeUndoesEncode | src/parser/utils.cpp:220-249 | for every scalar value, decoding its encoding gives it back and consumes all of it |
| Grammar.ScanNumber | include/pjh_json/grammar.hpp:141-183 | the cursor-moving scanner computes `Scan`, with token end or error anchor, digit count, sign and float flag |
| Grammar.ScanSound | include/pjh_json/grammar.hpp:141-183 | whatever the scanner accepts is a number of section 6 of RFC 8259, and no digit follows the token |
| Grammar.ScanComplete | include/pjh_json/grammar.hpp:141-183 | every number of that grammar that the next byte cannot prolong is accepted up to its end |
| Grammar.ScanPrefix | include/pjh_json/grammar.hpp:141-183 | a scan that stops before the end of its window gives the same answer for every longer window |
| Numbers.ParseU64 | src/parser/number.cpp:15-21 | up to 19 digits the wrapping accumulator holds the decimal value: no step overflows |
| Numbers.LexIsNumeric | src/parser/number.cpp:33-37 | for digit strings of equal length, lexicographic order is numeric order, so the 19-digit comparison decides the int64 range |
| Numbers.ClassifyNumber | src/parser/number.cpp:60-116 | the step-by-step classifier computes `Classify` |
| Numbers.ClassifyCorrect | src/parser/number.cpp:60-116 | below 2^32 digits a pure-integer token becomes Integer exactly when its mathematical value fits int64, with that value; otherwise it is what from_chars says |
| Numbers.ClassifyExact | src/parser/number.cpp:65 | over all digit counts, integer classification is right if and only if the count fits 32 bits or the narrowed count does not send the token down the integer path |
| Numbers.NarrowingMisreads | src/parser/number.cpp:65 | 2^32 + 1 nines are taken for the integer 9 |
| Numbers.ClassifyHex | src/parser/number.cpp:248-302 | the hex path takes a token exactly when its value with sign fits int64, by counting at most 16 significant digits |
| Numbers.AccumulateHex | src/parser/number.cpp:248-302 | accumulating up to 16 significant hex digits never wraps and gives the value |
| Numbers.DumpInt | include/pjh_json/json_constexpr.hpp:833-851 | digits produced backwards and emitted forwards are the decimal text of the value |
| Numbers.DecTextRoundTrip | include/pjh_json/json_constexpr.hpp:833-851 | the decimal text of n consists of digits, has value n and no leading zero |
| Numbers.IntTextClassifies | src/parser/number.cpp:60-116 | the text of any int64, the minimum included, scans as one integer token and classifies back to it |
| Json5Lexer.ParseNumberRfc | src/parser/number.cpp:126-169 | parse_number is scan then classify, with every grammar error at its anchor |
| Json5Lexer.ScanNumber5 | include/pjh_json/grammar.hpp:266-335 | the JSON5 scanner computes `Scan5`: sign, hex, leading and trailing points |
| Json5Lexer.ParseNumberJson5 | src/parser/number.cpp:196-345 | parse_number_json5: Infinity and NaN first, then hex, then decimal, same outcome as its specification; `Json5Numbers.NumberSound` and `Json5Numbers.NumberRead` say what the token stands for |
| Json5Numbers.NumberSound | src/parser/number.cpp:196-345 | whatever parse_number_json5 accepts is a number token of JSON5 with its value: Infinity and NaN by their bits with the sign bit of a minus, a hex number as an int64 or as the double of its digits with the sign put on it, a decimal one as an int64 or what from_chars says |
| Json5Numbers.NumberRead | src/parser/number.cpp:196-345 | every such token that the next byte cannot prolong is accepted, with that value |
| Json5Lexer.Number5Extends | src/parser/number.cpp:196-345 | a number RFC mode accepts, not followed by the x of a hex prefix, JSON5 mode accepts with the same value and end |
| InPlace.ScanToStop | src/parser/string.cpp:218-365 | the block scan for quote, backslash or control byte equals the byte-by-byte scan for every lane width from 1 to 64; every load stays inside the padding |
| InPlace.SkipWhitespaceBlocks | src/parser/utils.cpp:25-87 | the block scan over white space equals the scalar one for every lane width from 1 to 64 |
| InPlace.ReadHex4 | src/parser/utils.cpp:189-207 | four digits read without a bound: value and cursor, or the first bad digit |
| InPlace.HandleEscape | src/parser/utils.cpp:263-331 | an escape is decoded over its own text: the write ends strictly before the cursor, nothing unread changes, and the bytes written are those of the pure decoder; `StringMeaning.StringMeans` says what the text stands for |
| InPlace.DecodeInPlace | src/parser/string.cpp:304-364 | the overlaid result equals decoding into a fresh buffer, the write cursor stays behind the read cursor, unread input is intact |
| InPlace5.ReadEscape5 | src/parser/string.cpp:62-199 | the bounded JSON5 escape decoder, line continuations included, reads nothing past the end |
| InPlace5.ParseStringInPlace5 | src/parser/string.cpp:387-455 | the JSON5 string body decoded in place equals decoding into a fresh buffer; unread input is intact |
| StringTokens.ParseStringRfc | src/parser/string.cpp:218-365 | parse_string (block scan, borrowed fast path, in-place slow path) gives exactly `ParseString`, for every lane width |
| StringTokens.ParseStringJson5 | src/parser/string.cpp:387-455 | parse_string_json5 gives exactly `ParseString5` |
| Strings.FastPathAgrees | src/parser/string.cpp:218-365 | block scan plus fast path accepts what scalar decoding from the first byte accepts, with the same value and end |
| StringMeaning.StringMeans | src/parser/string.cpp:218-365 | parse_string accepts exactly the string tokens of section 7 of RFC 8259 with what they stand for: a raw byte for itself, each two-byte escape for its byte, a `\uXXXX` or a surrogate pair for the UTF-8 of its scalar value; in strict mode those whose value is well-formed |
| StringMeaning.String5Means | src/parser/string.cpp:387-455 | the same for JSON5 strings in either quotes, with their further escapes and line continuations |
| StringMeaning.HexIsCodePoint | src/parser/string.cpp:92-119 | the value of a JSON5 string is the one the standard gives it if and only if no character of it is a hex escape `\xHH` from 0x80 on |
| StringMeaning.HexEscapeIsByte | src/parser/string.cpp:92-119 | `"\xE9"` is read as the byte E9, where JSON5 has the code point U+00E9 |
| Strings.StringSealed | src/parser/string.cpp:220-224 | a string that starts before a logical end closed by a control byte or the end of the buffer is over by then |
| Strings.Decode5Extends | src/parser/string.cpp:387-455 | whatever the RFC decoder accepts inside the end the JSON5 decoder accepts with the same value |
| Dump.Writer.EscapeBlock | src/writer/string.cpp:198-221 | one block: the lowest set lane, then the next, appends exactly the escaped form of the block |
| Dump.Writer.WriteEscapedRaw | src/writer/string.cpp:171-242 | the block-wise escaper appends exactly the scalar escaped form, for every lane width from 1 to 64 |
| Dump.Writer.WriteMultibyte | src/writer/string.cpp:87-141 | the ascii writer decodes, validates in its own order, and emits one escape or a surrogate pair |
| Dump.Writer.WriteEscapedAscii | src/writer/string.cpp:67-157 | the ascii writer appends the ascii form or records the first UTF-8 violation |
| Dump.Writer.WriteEscaped | src/writer/string.cpp:171-242 | the written token, quotes included, in both modes |
| StringWriter.AsciiStepIsGrammar | src/writer/string.cpp:87-141 | a step of the ascii writer accepts exactly the UTF8-char forms and decodes them as decode_utf8 does |
| StringWriter.AsciiIsGrammar | src/writer/string.cpp:67-157 | ascii mode succeeds exactly on well-formed UTF-8: the third decider agrees with the other two |
| StringWriter.AsciiOutputIsAscii | src/writer/string.cpp:67-157 | ascii output is printable ASCII only |
| StringRoundTrip.StringRoundTrips | src/writer/string.cpp:171-249 | parse_string of write_escaped returns the string: every byte string without strict UTF-8, every well-formed one with it, both writer modes |
| WriterMeaning.TokenIsStringText | src/writer/string.cpp:67-249 | the text of a written string: a named escape for quote, backslash, backspace, form feed, line feed, carriage return and tab, a lower-case hex escape for the other control bytes, every other byte as it is; in ascii mode a character beyond ASCII by the hex escape of its code point or of its two surrogates |
| Dump.Writer.WriteDouble | src/writer/dump.cpp:39-70 | a finite double is its to_chars text with ".0" after a bare integer; a non-finite one fails |
| Dump.Writer.WriteValueTo | src/writer/dump.cpp:83-207 | the recursive writer appends exactly the text of the arranged tree, or records the first failure |
| Dump.Writer.WriteArray | src/writer/dump.cpp:116-143 | brackets, commas and indentation of an array |
| Dump.Writer.WriteObject | src/writer/dump.cpp:144-205 | braces, separators and indentation of an object, entries in emission order |
| Dump.Writer.WriteIndent | src/writer/dump.cpp:14-18 | a newline and depth times the indent, or nothing when compact |
| Dump.Writer.DumpValueTo | src/writer/dump.cpp:213-228 | dump_value_to under an indent check and a depth limit |
| ByteOrder.SortMembersSorts | src/writer/dump.cpp:159-184 | emission order under sort_keys is a sorted permutation of the entries; what the order is, `ByteOrder.BytesLessMeans` says |
| ByteOrder.BytesLessMeans | src/writer/dump.cpp:169-170 | the order of keys: a is less than b if and only if, behind a common prefix, a ends and b does not, or both go on and the byte of a is the smaller one |
| ByteOrder.SortedUnique | src/writer/dump.cpp:159-184 | with distinct keys there is only one sorted permutation, so any sorting algorithm gives the modelled order |
| DumpSpec.LimitDecides | src/writer/dump.cpp:116-150 | the depth limit never changes the text: it succeeds exactly when the limit is kept and the unlimited dump succeeds |
| DumpSpec.WritesWritable | src/writer/dump.cpp:83-207 | without a limit the writer succeeds exactly on trees with finite doubles (and well-formed strings in ascii mode) |
| DumpSpec.FiniteMeans | src/writer/dump.cpp:39-70 | the doubles the writer refuses are those with all exponent bits set |
| WriterMeaning.DumpFailuresAreHonest | src/writer/dump.cpp:83-228 | a failed dump says the truth: an indentation that is neither space nor tab, a tree that holds an infinity or a NaN, one too deep for the limit, or in ascii mode a string or key that is no UTF-8 |
| DumpLayout.DumpIsLaid | src/writer/dump.cpp:14-205 | read from the text alone: in a pretty dump a line break and the indentation of the depth stand behind every opening bracket and every comma and in front of every closing bracket, a space behind every colon, and no white space elsewhere; in a compact dump there is none |
| DumpSpec.SortCommutes | src/writer/dump.cpp:159-184 | sorting entries first and sorting inside the values first give the same tree |
| DumpRoundTrip.DumpThenParse | src/writer/dump.cpp:83-228 | parsing undoes dumping for every tree with distinct keys and every option: the written tree comes back, entry order as emitted, when its depth is within the parser limit, and a depth error otherwise |
| DumpRoundTrip.DepthsAgree | src/writer/dump.cpp:116-150 | under the same limit, dump refuses a tree for its depth exactly when parse refuses its text |
| Json5Scan.SkipTrivia | src/parser/utils.cpp:111-161 | skip_json5_trivia reaches the end of the trivia and reports an unterminated block comment |
| Json5Scan.ParseIdentifierKey | src/parser/object.cpp:244-314 | an identifier key, escapes decoded in place, equals the specification; unread input is intact |
| Parser.Parser.constructor | include/pjh_json/parser.hpp:69-83 | a parser over a padded buffer whose logical end is the end of the text or a control byte |
| Parser.Parser.Record | include/pjh_json/parser.hpp:137-157 | the first recorded error wins |
| Parser.Parser.SkipWhitespace | src/parser/utils.cpp:25-161 | white space or trivia; a comment error goes to the slot while the descent goes on |
| Parser.Parser.ParseLiteralToken | src/parser/literal.cpp:29-77 | the three literals by whole-word comparison, and the trailing-byte rule |
| Parser.Parser.ParseStringToken | src/parser/string.cpp:218-365 | the quote test, then the RFC or the JSON5 body |
| Parser.Parser.ParseNumberToken | src/parser/number.cpp:126-345 | the RFC or the JSON5 number at the cursor |
| Parser.Parser.ParseScalarToken | src/parser/value.cpp:16-135 | the scalar dispatch of parse_value and parse_value_inplace, their error codes apart |
| Parser.Parser.ParseKeyAndColon | src/parser/object.cpp:378-423 | key, strict duplicate test, colon |
| Parser.Parser.ParseSeparatorToken | src/parser/array.cpp:44-75 | after a value: close, comma, or the container error; under JSON5 also a trailing comma |
| Parser.Parser.ParseValueInPlace | src/parser/value.cpp:16-135 | a value at the cursor is what the pure parser says, value, end and error alike; an earlier slot error decides the outcome |
| Parser.Parser.ParseArrayInPlace | src/parser/array.cpp:16-77 | the array loop, depth gate included; the depth counter is restored on every exit |
| Parser.Parser.ParseObjectInPlace | src/parser/object.cpp:339-371 | the object entry, depth gate included; the depth counter is restored on every exit |
| Parser.Parser.ParseMembersInPlace | src/parser/object.cpp:376-511 | the member loop produces the left fold of last-wins insertion (first position, last value, distinct keys) across the switch to the key index |
| Parser.Parser.FindPosition | src/parser/object.cpp:425-475 | below 256 entries a sweep, from 256 on the index; both give the first match or the position about to be appended |
| Parser.Parser.Parse | src/parser/parse.cpp:110-136 | Parser::parse is the pure parser on every buffer: same value, same first error; a run that recorded a comment error never succeeds |
| ErrorMeaning.ErrorsAreHonest | src/parser/parse.cpp:110-136 | whatever RFC mode refuses, in any settings, it refuses with the truth: at the recorded offset the text is as the code says, for each of the codes RFC mode can record |
| Probing.Probe | src/object.cpp:231-258 | the probe loop ends at the key or at a free slot; it terminates because the table is not full |
| Probing.IxCovers | src/object.cpp:231-258 | every slot is probed within capacity steps |
| Probing.StoreHolds | src/object.cpp:263-279 | storing a position for a new key in the free slot its probe ended at keeps the table correct |
| Probing.StopIsFirstIndex | src/object.cpp:231-258 | on a correct table a stopped probe decides membership: the first position, or absence |
| KeyIndexes.KeyIndex.Build | src/parser/object.cpp:63-78 | the table built from all entries is correct, counts them all, and is at most a quarter full |
| KeyIndexes.KeyIndex.FindOrInsert | src/parser/object.cpp:83-109 | first match, or a new position stored before its entry exists; the table is correct for the entries with the key appended |
| KeyIndexes.KeyIndex.InsertSlot | src/parser/object.cpp:117-124 | the first free slot of the probe run takes the position |
| KeyIndexes.KeyIndex.Grow | src/parser/object.cpp:126-142 | doubling keeps exactly the stored keys and positions |
| KeyIndexes.StoreAppended | src/parser/object.cpp:83-109 | the position of an entry yet to be appended may be stored before the entry exists |
| Json5Extension.Json5ExtendsRfc | src/parser/parse.cpp:110-136 | whatever RFC mode accepts, JSON5 mode accepts with the same value and end |
| Json5Reading.TriviaSound | src/parser/utils.cpp:111-161 | what skip_json5_trivia skips is white space (single bytes and code points by their UTF-8) and comments, up to where neither starts |
| Json5Reading.TriviaRead | src/parser/utils.cpp:111-161 | every run of white space and comments is skipped to its end |
| Json5Reading.NameMeans | src/parser/object.cpp:244-314 | parse_identifier_key accepts exactly the identifiers, as long as they can be, for the UTF-8 of their code points, escaped or not |
| Json5Texts.Json5IsGrammar | src/parser/parse.cpp:110-136 | in JSON5 mode, for any depth limit and with or without the check for repeated names, a text is accepted if and only if it is JSON5 and keeps to them, with the value it stands for (strings, numbers, comments, names, trailing commas); the UTF-8 check changes no value |
| Json5Texts.RfcValuesToo | src/parser/parse.cpp:110-136 | what RFC mode accepts, in any settings, stands for the value RFC mode gives it |
| Json5Texts.GatheredMeans | src/parser/object.cpp:425-475 | the members of an object: every name once, in the order of the first pairs, with the value of the last pair of that name |
| LineCut.ValueCut | src/parser/value.cpp:16-135 | a value that ends inside its line is the same parsed in the shared buffer and parsed alone, in both directions |
| LineHops.ValueMoved | src/parser/value.cpp:16-135 | a value accepted past the end of its line is accepted, alike, from any later line and at any smaller depth |
| LineHops.ValueHops | src/parser/utils.cpp:67-86 | when a value runs over its line, the line its last byte stands on starts with a closing byte, or with a value that a closing byte follows |
| Jsonl.OverrunIsRefused | src/parser/parse.cpp:349-427 | a line whose value runs over its end has a later non-blank line that is refused |
| LineCut5.DocumentAlike | src/parser/parse.cpp:349-427 | a JSON5 line in the shared buffer gives exactly what it gives alone, errors included, but for the code on a line of comments only that a line break follows |
| Jsonl.RecordsAreLines | src/parser/parse.cpp:349-427 | in both modes parse_jsonl succeeds exactly when every non-blank line parsed alone succeeds, with those values in order |
| Jsonl.RecordErrorsAreLines | src/parser/parse.cpp:349-427 | in JSON5 mode the outcome, error code and offset included, is that of the lines parsed alone up to the first one refused; only a comment line before a line break has a code of its own |
| JsonlMeaning.LinesMean | src/parser/parse.cpp:349-370 | the lines of a text: cut at line feeds, without one carriage return in front of each |
| JsonlMeaning.BlankLineMeans | src/parser/parse.cpp:371-408 | a line is blank if and only if it holds nothing but the white space of the mode, code points included under JSON5 |
| JsonlMeaning.Json5Records | src/parser/parse.cpp:313-432 | in JSON5 mode parse_jsonl yields these items if and only if the lines of the text that are not blank stand for them, one by one |
| Jsonl.IsBlankLine | src/parser/parse.cpp:371-408 | the blank-line rule of both modes, bounded by the line |
| Jsonl.ParseJsonl | src/parser/parse.cpp:313-432 | the line loop over the shared mutable buffer, one parser per line, computes `ParseLines` in both modes |
| StreamReader.StreamReader.constructor | src/parser/stream.cpp:224-237 | a reader at the start of the stream |
| StreamReader.StreamReader.Compact | src/parser/stream.cpp:245-277 | moving the window to the front keeps the unread bytes and their offset |
| StreamReader.StreamReader.Fill | src/parser/stream.cpp:245-277 | one refill: the window is the unread slice of the stream at the absolute offset, or the stream has ended |
| StreamReader.StreamReader.Ensure | src/parser/stream.cpp:279-284 | n bytes are buffered exactly when the stream has n more bytes |
| StreamReader.StreamReader.SkipWhitespace | src/parser/stream.cpp:286-301 | white space skipped across refills, as over the whole stream |
| StreamReader.StreamReader.SkipStartBom | src/parser/stream.cpp:310-322 | a byte order mark at offset 0 is consumed when asked for, for every chunk size |
| StreamReader.StreamReader.ReadRaw | src/parser/stream.cpp:356-400 | the raw body across refills: up to its closing quote or the end of the stream, with the escape flag and first control byte |
| StreamReader.DecodeTokenInPlace | src/parser/stream.cpp:425-477 | the buffered token decoded over itself equals decoding into a fresh buffer |
| StreamReader.StreamReader.ParseStringToken | src/parser/stream.cpp:354-478 | a string token depends on the stream only |
| StreamReader.StreamReader.ParseLiteralToken | src/parser/stream.cpp:489-537 | a literal depends on the stream only, and is what the parser says |
| StreamReader.StreamReader.ParseNumberToken | src/parser/stream.cpp:547-593 | a number rescanned at every refill is the number of the whole stream |
| StreamNumbers.NumberMoved | src/parser/stream.cpp:547-593 | once a scan stops inside the window, or the stream ends there, the window answer is the stream answer, positions apart |
| StreamReader.StreamReader.EnterContainer | src/parser/stream.cpp:595-608 | depth gate and new frame |
| StreamReader.StreamReader.CompleteValue | src/parser/stream.cpp:610-619 | the parent frame or the root takes note of a finished value |
| StreamReader.StreamReader.ExpectValueNext | src/parser/stream.cpp:626-687 | the value dispatch of the reader |
| StreamReader.StreamReader.FrameNext | src/parser/stream.cpp:751-905 | the phase of the innermost frame decides the turn |
| StreamReader.StreamReader.RootDoneNext | src/parser/stream.cpp:709-750 | between roots: end of stream, extra characters, or the next value |
| StreamReader.StreamReader.NextEvent | src/parser/stream.cpp:699-906 | next() is a run of turns of the abstract machine up to an event or a stop |
| StreamReader.StreamReader.ReadAll | include/pjh_json/stream.hpp:338-344 | events, first error with code and offset, and end are those of the whole stream: the same for every chunk size |
| StreamStrings.StringsAgree | src/parser/stream.cpp:354-478 | find-the-quote-then-decode and decode-in-one-pass accept the same strings with the same value and end |
| StringErrors.SameStringError | src/parser/stream.cpp:354-478 | on every refused string the two report the same error, code and offset, if and only if it is neither open behind a byte that stops the block scan nor, in strict mode, closed with an escape and a control byte behind ill-formed text |
| StringErrors.RunsOutSplits | src/parser/stream.cpp:354-423 | at 22 61 01 the parser reports an unescaped control at 2, the reader an unterminated string at 3 |
| StringErrors.ControlBehindBadTextSplits | src/parser/stream.cpp:425-477 | at 22 80 01 5C 6E 22 in strict mode the parser reports an unescaped control at 2, the reader an invalid lead at 1 |
| StreamAgreement.ReaderAgreesWithParser | src/parser/stream.cpp:626-906 | a SingleRoot run ends cleanly exactly when Parser::parse accepts, folding its events with last-wins insertion rebuilds the very tree the parser builds, and on a refused text the errors are equal, code and offset, if and only if the first token of the text that is refused is not one of those two kinds of string |
| StreamValues.MultiReaderAgreesWithParser | src/parser/stream.cpp:626-906 | a MultiValue run ends cleanly exactly when the text is values one after another, delivers the values the parser reads, those before a failure included, and reports its error under the same condition on the text |
| EventsNest.CleanRunNests | src/parser/stream.cpp:699-906 | a clean run, in either mode, emits exactly the events of a list of trees |
| EventsNest.RunsNest | src/parser/stream.cpp:699-906 | any run, in either mode, emits exactly the events of the trees it finished and of the containers it left open; a clean run leaves none open |
| Items.ParsePrefix | src/parser/stream.cpp:988-1045 | the prefix parser accepts exactly the JSON Pointers and classifies `*`, array indexes and names |
| Items.StreamItems.ChildMatchLen | src/parser/stream.cpp:1058-1074 | how far the path of the next child has matched; `Selection.FilterChooses` says what that selects |
| Items.StreamItems.OnMapKey | src/parser/stream.cpp:1079-1092 | a key decides how far the path of its value has matched |
| Items.StreamItems.Take | src/parser/stream.cpp:1100-1178 | one reader event: whether it is yielded, and the new frames |
| Items.StreamItems.NextItem | src/parser/stream.cpp:1100-1178 | one pull yields the next event of the filtered stream, or there is none left |
| Items.StreamItems.AllItems | include/pjh_json/stream.hpp:551-557 | everything the cursor yields is the filtered event stream |
| ItemsCorrect.FilterSelects | src/parser/stream.cpp:1100-1178 | the filter machine yields exactly the event subtrees `Select` takes, in document order, for every prefix and every sequence of values; `Selection` says what those are |
| Selection.ClassifiedMeans | src/parser/stream.cpp:1016-1040 | which token is `*`, which an index (digits of a value below 2^64) and which a name |
| Selection.PrefixMeans | src/parser/stream.cpp:988-1045 | a prefix is taken if and only if it is a JSON Pointer, with the tokens of the pointer |
| Selection.SelectMeans | src/parser/stream.cpp:1058-1092 | on an array `*` selects from every element in order, an index from that element, a name from none; on an object a name selects from the members that have it, in order, `*` and an index from none |
| Selection.FilterChooses | src/parser/stream.cpp:1100-1178 | from the text of the pointer to the events: over any values the filter yields what the tokens of the pointer choose from them |
| Selection.SelectionIsLookup | src/parser/stream.cpp:1058-1092 | with distinct keys a path that resolves selects the events of the value a lookup finds there, unless a hop on an object is by `*` or by digits, and then nothing; a path without `*` and leading zeros that does not resolve selects nothing |
| StreamValues.FilteredStream | src/parser/stream.cpp:988-1178 | over any stream the filter yields what the prefix selects from the trees the stream finished, which merge last-wins to the values the parser reads one after another; on a stream that fails midway it yields a prefix of what it would yield if the stream went on |
| ItemsCorrect.FilterPrefix | src/parser/stream.cpp:1100-1178 | over fewer events the filter yields a prefix: nothing yielded is taken back |
| ObjectIndex.Object.FindSlot | src/object.cpp:231-258 | find_slot is the first-match linear position whether the index is absent, fresh or stale; it may refill a stale index |
| ObjectIndex.Object.IndexInsert | src/object.cpp:263-279 | an entry enters the table, or is skipped as a repeated key |
| ObjectIndex.Object.IndexRefill | src/object.cpp:281-288 | the table refilled in place is correct for the current entries, first occurrence winning |
| ObjectIndex.Object.IndexEnsure | src/object.cpp:290-299 | a comparison may build an index |
| ObjectIndex.Object.IndexBuild | src/object.cpp:301-324 | the built index is correct, fresh and at most half full |
| ObjectIndex.Object.IndexNoteAppend | src/object.cpp:326-349 | an append keeps the index: note it, grow, or drop it |
| ObjectIndex.Object.IndexAfterErase | src/object.cpp:361-369 | an erase marks the index stale or drops it |
| ObjectIndex.Object.Contains | src/object.cpp:385-388 | membership |
| ObjectIndex.Object.GetOrInsert | src/object.cpp:398-407 | operator[] finds the first match or appends a null entry |
| ObjectIndex.TouchedHolds | src/object.cpp:398-407 | after operator[] every key holds what it held, and the key itself null if it held nothing |
| ObjectIndex.Object.Insert | src/object.cpp:465-518 | insert is last-wins insertion on the entries; the index stays right |
| ObjectIndex.Object.Remove | src/object.cpp:529-539 | remove deletes the first match and says whether there was one; a stale index is left stale |
| ObjectIndex.Object.Merge | src/object.cpp:556-579 | merge overwrites matches and appends the rest, in order |
| ObjectIndex.Object.MergeFrom | src/object.cpp:556-579 | merge from another object, which an object merged into itself skips |
| ObjectIndex.MergedHolds | src/object.cpp:556-579 | after a merge a key holds what the other object has for it, two objects merging in turn, and every other key what it held |
| ObjectIndex.MergedWithItself | src/object.cpp:556-579 | with distinct keys at every depth, merging an object into itself would change nothing, so the guard decides no outcome |
| ObjectIndex.Object.Clear | src/object.cpp:636-640 | no entries, no index |
| ObjectIndex.Object.ReplaceData | include/pjh_json/object.hpp:355-363 | after data() hands out the raw entries no index survives |
| ObjectIndex.Object.MoveFrom | src/object.cpp:153-160 | move construction takes entries and index; the source is left empty without an index |
| ObjectIndex.Object.MoveAssign | src/object.cpp:201-221 | move assignment takes the index only together with the storage, that is under the same resource |
| ObjectIndex.Object.Equals | src/object.cpp:604-631 | on distinct keys operator== is tree equality whichever side has an index |
| ObjectIndex.RunOp | src/object.cpp:153-640 | every operation on two objects, moves in either direction, self-move and move construction included, keeps both indexes right and has its value-level effect on both |
| ObjectIndex.LookupAfter | src/object.cpp:153-640 | after any sequence of insert, operator[], remove, merge, self-merge, clear, comparison, lookup, data(), move assignment in both directions, self-move and move construction, find_slot is the linear first match on both objects, the moved-from one included |
| JsonOrder.LessThan | src/json.cpp:640-665 | operator< by rank, then per type; `OrderMeaning.LessMeans` says what the order is |
| OrderMeaning.LessMeans | src/json.cpp:640-665 | operator<, from the values alone: the classes in their documented order, false before true, numbers by value, strings by bytes, arrays by the first difference, objects by their sorted entries |
| OrderMeaning.NanIs | src/json.cpp:52-64 | a NaN has all exponent bits set and a fraction, a finite double has not all of them set |
| OrderMeaning.FloatEnds | src/json.cpp:52-64 | minus infinity comes before every finite double, plus infinity behind it, and a NaN behind everything else |
| JsonOrder.ArrayLess | src/json.cpp:67-78 | the array comparison loop |
| JsonOrder.ObjectLess | src/json.cpp:89-117 | the object comparison loop over both sides sorted by key |
| JsonOrder.Hash64 | src/json.cpp:128-157 | hash64 modulo 2^64 over given mixers |
| JsonOrder.HashObject | src/json.cpp:128-157 | the object fold: a wrapping sum over the entries |
| OrderMeaning.XorBits | src/json.cpp:128-157 | the xor of the hash is bitwise |
| OrderMeaning.HashSeesScalar | src/json.cpp:128-157 | under injective mixers two scalars of one class with equal hashes are equal, up to the two zeros and NaNs; two strings have equal key hashes |
| OrderMeaning.HashSeesItem | src/json.cpp:128-157 | under injective mixers arrays that differ in one element only, in its hash, hash differently |
| OrderMeaning.HashSeesMember | src/json.cpp:128-157 | so do objects that differ in one entry only, in the hash of its key or of its value |
| JsonOrderLaws.LessIsCmp | src/json.cpp:640-665 | operator< is the sign of one three-way comparison of trees |
| JsonOrderLaws.StrictWeakOrder | src/json.cpp:640-665 | operator< is a strict weak order on all trees, NaN included, the sort of repeated keys taken as stable |
| JsonOrderLaws.EqSymmetric | src/json.cpp:591-616 | with distinct keys equality does not depend on the side |
| JsonOrderLaws.EqIsNeitherLess | src/json.cpp:591-665 | with distinct keys, two values are equal if and only if neither is less and there is no NaN in them |
| JsonOrderLaws.EqSelf | src/json.cpp:591-616 | with distinct keys, a value equals itself if and only if it holds no NaN |
| JsonOrderLaws.NanBreaksTrichotomy | src/json.cpp:57-64 | a NaN is neither less than nor equal to itself |
| JsonOrderLaws.SumSorted | src/json.cpp:128-157 | the object hash does not depend on the entry order |
| JsonOrderLaws.EqualHashes | src/json.cpp:128-157 | equal trees with distinct keys have equal hashes, whatever the entry orders |
| Pointers.UnescapeToken | src/patch.cpp:28-50 | ~0 and ~1 decoded, any other use of ~ refused |
| Pointers.ParseJsonPointer | src/patch.cpp:53-77 | the pointer parser computes the reference tokens, or refuses |
| Pointers.PointerRoundTrip | src/patch.cpp:53-77 | every list of tokens survives being written as a pointer (section 3 of RFC 6901) and parsed |
| PatchMeaning.PointerMeans | src/patch.cpp:53-77 | the pointer parser accepts exactly the pointers of section 3 of RFC 6901, with their tokens |
| Pointers.ParseDecimalIndex | src/parser/stream.cpp:92-109 | a prefix index: digits that fit size_t |
| Pointers.ParseStrictIndex | src/patch.cpp:100-117 | strict_index computes its specification |
| Pointers.StrictIndexExact | src/patch.cpp:100-117 | the documented range is kept if and only if the value is not among the last six below 2^64 |
| Pointers.StrictIndexRefusesMax | src/patch.cpp:100-117 | 2^64 - 1, a canonical index, is refused |
| Pointers.CanonicalUnique | src/patch.cpp:100-117 | distinct canonical tokens name distinct indexes |
| Patch.ResolveNode | src/patch.cpp:144-183 | resolve_node walks the path or says why not |
| Patch.ResolveSlot | src/patch.cpp:208-284 | the parent decides: which slot the last token names, for an existing or a new target |
| Patch.InsertAt | src/patch.cpp:293-322 | insert_at is the add operation of section 4.1 of RFC 6902; on an error the document is left as it was |
| Patch.ApplyMove | src/patch.cpp:443-473 | the move operation, same place and descendant cases included; refused, it leaves the document as it was or without the source it had removed |
| Patch.ApplyOneTo | src/patch.cpp:330-475 | apply_one dispatches to the six operations; refused, it leaves exactly `LeftBy`, which `RefusalKeeps` relates to the document before; `PatchTests.OneIsRfc` says when the operation is the one of RFC 6902 |
| Patch.ValidateShape | src/patch.cpp:481-548 | the shape scan reports the first ill-shaped operation |
| Patch.PatchTarget | src/patch.cpp:554-577 | patch_result: the whole patch applied, or the target untouched with the kind and index of the first failure; `PatchTests.PatchIsRfc` says when that is the patch of section 4 of RFC 6902 |
| PatchLaws.ReplaceIsPut | src/patch.cpp:382-405 | replace succeeds exactly on an existing node, and changes the tree at that path only |
| PatchLaws.PutThenLookup | src/patch.cpp:144-183 | a stored value is found at its path, and storing the old one back restores the tree |
| PatchLaws.ReplaceElsewhere | src/patch.cpp:144-183 | a path that leaves the replaced one sees no change, be it found or refused |
| PatchLaws.EditIsPut | src/patch.cpp:208-319 | an edit is: walk to the parent, edit it, store it back |
| PatchLaws.RemoveUndoesAdd | src/patch.cpp:293-381 | after an add at any depth, a remove at the same path restores the tree if and only if the add created the slot it wrote to; then the added value is what a lookup finds |
| PatchLaws.RemoveDoesNotUndoOverwrite | src/patch.cpp:293-381 | where the add overwrote an existing key, remove does not bring the old value back |
| PatchLaws.RemoveDoesNotUndoAppend | src/patch.cpp:208-284 | where the add appended through `-`, remove at `-` is refused |
| PatchLaws.RefusalKeeps | src/patch.cpp:330-475 | a refused operation leaves the document unchanged, except a move whose source was removed and whose target was refused, which always changes it |
| PatchLaws.RefusedMoveLosesSource | src/patch.cpp:455-473 | such a move: from /a to /b/c in an object that holds a only |
| PatchLaws.MovePatch | src/patch.cpp:443-473 | as patches on the whole document: [move] ends as [remove, add of what was there] does, same tree or same refusal kind, and as [remove] does when the source is missing |
| PatchLaws.CopyPatch | src/patch.cpp:433-441 | as patches on the whole document: [copy] ends as [add of what a lookup finds at the source] does, and is refused as that lookup is |
| PatchMeaning.AddIsRfc | src/patch.cpp:293-322 | an add is done if and only if the one of section 4.1 of RFC 6902 is no error, with the same document |
| PatchMeaning.RemoveIsRfc | src/patch.cpp:359-381 | the same for remove and section 4.2; removing the root is an error |
| PatchMeaning.ReplaceIsRfc | src/patch.cpp:382-405 | the same for replace and section 4.3 |
| PatchMeaning.MoveIsRfc | src/patch.cpp:443-473 | the same for move and section 4.4 |
| PatchMeaning.CopyIsRfc | src/patch.cpp:433-441 | the same for copy and section 4.5 |
| PatchMeaning.LookupRefused | src/patch.cpp:144-183 | a refused walk says where it stops and why: a missing name, a token that is no index, an index that is out of range, a node that is no container |
| PatchMeaning.AddRefused | src/patch.cpp:208-284 | a refused add says the same of the walk to the parent, or of the parent |
| PatchLaws.MoveSpecialCases | src/patch.cpp:443-473 | moving the root, a missing source, the same place, or into a descendant |
| PatchLaws.ShapedOpsApply | src/patch.cpp:323-358 | an operation that passes the shape scan is never refused for shape, unknown name or pointer grammar |
| NumericEquality.FloatsAreNumbers | src/json.cpp:591-616 | equality and order of finite doubles are those of the numbers their bit patterns stand for, both zeros being one number |
| NumericEquality.RfcEqMeans | src/patch.cpp:406-416 | the equality of section 4.6 of RFC 6902: numbers by value, arrays by position, objects by name whatever the order |
| NumericEquality.EqIsRfcEq | src/json.cpp:591-616 | operator== holds if and only if two trees are equal in that sense and no integer meets a double, at an index or under a name |
| PatchTests.TestIsRfc | src/patch.cpp:406-416 | a test of something that is there passes if and only if the two are equal in that sense and no integer meets a double |
| PatchTests.ShapeIsWellFormed | src/patch.cpp:481-548 | the shape scan passes exactly the operations that have what section 4 of RFC 6902 asks of them, and refuses an unknown name as such |
| PatchTests.OneIsRfc | src/patch.cpp:330-475 | an operation is done as the standard has it, with the same document, or both refuse it, if and only if it is no test that depends on an integer being equal to a double |
| PatchTests.IntegerTestedAgainstDouble | tests/json_patch.cpp:367-373 | on {"x": 1}, testing /x against 1.0 fails, where the standard lets it pass |
| PatchTests.TestPatch | src/patch.cpp:554-577 | the same for a patch that holds one test |
| PatchTests.PatchIsRfc | src/patch.cpp:554-577 | a patch of well-formed operations ends as sections 3 to 5 of RFC 6902 define, same document or same first failure, if and only if no test it runs depends on an integer being equal to a double; a patch with an ill-formed operation is refused for the first of them; whatever document it arrives at is the one of the standard |
| PatchLaws.PatchKinds | src/patch.cpp:554-577 | after the scan a patch fails for semantic reasons only |
| PatchLaws.PatchComposes | src/patch.cpp:554-577 | when both succeed, p followed by q is the concatenated patch |
| MergePatch.MergePatchImpl | src/patch.cpp:599-623 | the in-place merge (delete on null, null slot for a missing key, recurse) computes `Merge` |
| MergePatch.MergeIsRfc | src/patch.cpp:599-623 | key by key the result is that of section 2 of RFC 7386, whatever the entry orders and whatever the target: one that is no object counts as empty |
| MergePatch.MergeIsSection2 | src/patch.cpp:599-623 | the same at every depth: the result is related to target and patch as section 2 of RFC 7386 has it, whatever is nested in them |
| MergePatch.MergeWellKeyed | src/patch.cpp:599-623 | merging keeps keys distinct at every depth |
| MergePatch.DeepMergeIsMergePatch | src/object.cpp:556-579 | Object::merge is merge patch without deletion: on a patch with no null member the two give the same entries in the same order |
| MergePatch.MergeIdempotent | src/patch.cpp:599-623 | applying the same patch again changes nothing, not even the entry order |
| Validate.ScanString | include/pjh_json/validate.hpp:113-165 | the string scanner of the validator |
| Validate.ValidateNumber | include/pjh_json/validate.hpp:182-186 | the number scanner of the validator |
| Validate.Value | include/pjh_json/validate.hpp:200-223 | the value dispatch of the validator |
| Validate.ScanArray | include/pjh_json/validate.hpp:231-258 | the array scanner of the validator |
| Validate.ScanObject | include/pjh_json/validate.hpp:269-308 | the object scanner of the validator |
| Validate.ConstParse | include/pjh_json/json_constexpr.hpp:468-475 | the verdict of ConstJson::parse |
| ValidateAgreement.ValidatorAgreesWithParser | tests/differential_validation.cpp:38-110 | in default RFC mode with unlimited depth the parser accepts a text if and only if the validator does and every number token of the text is taken as an integer or found in range by from_chars |
| TextGrammar.ValidIsGrammar | include/pjh_json/json_constexpr.hpp:468-475 | the validator accepts exactly the texts of the grammar of sections 2 to 7 of RFC 8259 in which escaped surrogates come in pairs |
| TextGrammar.ParserIsGrammar | src/parser/parse.cpp:110-136 | in default RFC mode with unlimited depth the parser accepts a text if and only if it is in that grammar, its escaped surrogates come in pairs, and every number passes |
| TextGrammar.LoneSurrogate | src/parser/utils.cpp:263-331 | a text of the grammar that both refuse: a string of one escaped high surrogate |

## Left out

- Numbers.ClassifyCorrect: stated below 2^32 digits, because the narrowed digit count makes it false above; `Numbers.ClassifyExact` says exactly when it holds.
- StreamAgreement.ReaderAgreesWithParser: strict duplicate keys and JSON5 are parser-only settings and are off.
- ValidateAgreement.ValidatorAgreesWithParser: covers the default RFC settings with unlimited depth, as the differential test of the repository does; the depth bound of the compiler is not modelled.
- Parser.Parser.ParseValueInPlace: parse_value and parse_value_inplace are one method with a flag for the error codes in which they differ; where the cursor stands after a failure is not specified.
- Jsonl.RecordErrorsAreLines: JSON5 mode only; in RFC mode a line may read on into the lines below it, so its error need not be the one it has alone.
- Jsonl.ParseLine: a new parser object per line is modelled, not the shared arena it draws from.
- ObjectIndex.Object.FindSlot: an object holds at most 2^30 entries (`MAX_ENTRIES`), because the capacity of an index, a power of two at least twice the entry count, is narrowed to 32 bits (src/object.cpp:314-315); the slot home is the hash modulo the capacity.
- ObjectIndex.Object.Merge: nested objects are merged as values; the life of their own indexes is not tracked.
- ObjectIndex.Object.ReplaceData: the caller's edits through data() are one replacement of the entries.
- Dump.Writer.EmissionOrder: std::sort is the function `SortMembers`; with repeated keys std::sort promises no order among them, which the model fixes as entry order.
- JsonOrderLaws.StrictWeakOrder: on objects with repeated keys it holds for the entry order `SortMembers` gives them; std::sort promises none.
- Patch.PatchTarget: the shadow copy is a value; edits reach their place by storing the changed parent back along the path, so aliasing between nodes is not modelled.
- MergePatch.MergePatchImpl: works on values for the same reason, in the loop order of the source.
- JsonOrder.Hash64: the mixers and the key hash are parameters; their bit operations are not modelled.
- Strings are values: owned and borrowed storage, arenas, memory resources and `Document` lifetimes are not part of this model.
- Files, devices, hard read failures, exceptions and message texts: a stream is a byte sequence whose read returns what is left, up to the chunk size.
- `JsonlReader` (src/parser/stream.cpp:138-186): its blank-line rule is RFC-only and differs from parse_jsonl under JSON5, so no agreement is claimed.
- Json5Texts.Json5IsGrammar: under strict UTF-8 it says only that nothing accepted has another value; which strings are refused, `Utf8Gate.StrictText5` and `Utf8Gate.StrictValue5` say.
- ErrorMeaning.ErrorsAreHonest: RFC mode only; the error codes of JSON5 mode are those of the specification functions.
- Unicode category tables (src/parser/unicode.hpp:40-270): identifier keys use abstract predicates.
- src/path.cpp, src/access.cpp, src/std_interop.cpp, include/pjh_json/schema.hpp, iterators, views and accessors: short recursions that would add only easy members.
- Equality, order and hash on objects with repeated keys: documented as outside the contract (include/pjh_json/object.hpp:535-542).
