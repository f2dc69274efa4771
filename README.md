# m3u-tool playlist engine in Dafny

This project models the core of m3u-tool: the M3U / HLS playlist engine and the pieces of
the command-line application built on it. It consists of:

- **Line splitter** (`readAllLines`): a buffer is cut at LF, CR LF and lone CR.
- **Document assembler** (`M3U::m_parse`): it groups lines into entries. In extended mode (first
  line exactly `#EXTM3U`) an `#EXTINF:` or `#EXT-X-STREAM-INF:` line takes the following line as
  its resource. In plain mode every non-empty line is a resource.
- **Attribute-list scanner** (`Entry::m_parseExtData`, `ExtParamValue::m_parse`): a loose form of
  the attribute lists of section 4.2 of RFC 8216, where `KEY=VALUE`, `KEY="a,b"` and bare tokens
  follow the first `:`. It has one extension: a doubled quote inside a quoted value stands for one
  quote.
- **Entry predicates, equality and serialisation**, and the serialisation of a whole document.
- **HLS classifier** (`HLS::m_parse`): it sorts entries into audio renditions, subtitle renditions,
  variant streams and the rest (sections 4.3.4.1 and 4.3.4.2 of RFC 8216). The `Subtitles` and
  `Stream` fields are derived from the attributes.
- **`vstreamdl`**: MAX-RES-HEIGHT handling, the emptiness checks and warnings, the variant
  selection loop (which starts at index 0), the output playlist text and the subtitle download
  script.
- **`path`**: the `#EXTENC:` check, the header handling that depends on the output extension, and
  the per-entry re-rooting rewrite.
- **Command line** (`cliarg`): an option list that splits combined flags such as `-vf` and tracks
  validity and the last unrecognised option, a file list, and `Args`.
- **Small helpers**: base-N `to_string`, ASCII `toUpper`, and the `FileCounter` and
  `ResultCounter` classes.

## How the source's form is kept

- **Loops.** Every loop of the source is a Dafny `method` proved against a specification
  function. Examples:
  - `ReadAllLines` against `Lines`;
  - `ParseExtData` against `ExtAttributes`/`Scan`;
  - `M3U.Parse` against `ParseText`;
  - `HLS.Classify` against `Filter`;
  - `SelectStream` against `IsSelection`;
  - `CopyEntries` against `RewriteAll`;
  - `ToString` against `Numeral`.

  The properties are then proved about those functions.
- **Classes and values.** Objects that the source updates in place are classes with `modifies`
  clauses: `M3U`, `HLS`, `OptionList`, `FileList`, `Args`, `FileCounter` and `ResultCounter`.
  `Entry` is copied into every vector that holds it, so it is a datatype, and its setters return
  the updated value.
- **Two scanner definitions.** The scanner has a token grammar (`Scan`: key up to the first `=` or
  `,`, value up to the first comma outside quotes). It also has a character-by-character transition
  function (`Run`) that mirrors the position-by-position loop. `ScanByRun` proves the two agree.
- **Assumed library predicates.** The `omw` library routines are written out as the engine relies
  on them:
  - `isUInteger`: one or more digits.
  - `isInteger`: an optional sign and then digits.
  - `split`: keeps empty pieces.
  - `replaceAll`: every non-overlapping occurrence, scanning left to right.
  - `peekNewLine`: 2 for CR LF, 1 for LF or CR, 0 otherwise.
- **`std::filesystem` routines.** `lexically_normal` (`normal`) and `path::filename` (`filename`)
  are function-valued parameters of the path rewrite.
- **Date and time.** The date/time string of the subtitle script is a parameter.
- **Counter widths.** The `size_t` counters wrap modulo 2^64 explicitly.

## Notable behaviour the model reproduces

- **The round trip does not hold for every document.** It requires the conditions of
  `WellFormedExtended`. Otherwise it fails: `DanglingDirectiveAbsorbsNext` proves that a bare
  `#EXTINF:` entry that is not the last entry takes the next entry's resource line.
- **A colon-less directive keeps stale attributes.** `setExt` with such a directive leaves the old
  attribute list in place. `operator==` still calls the entry equal to a freshly built one without
  attributes (`SetterAttributes`).
- **MAX-RES-HEIGHT.** A playlist whose first variant is taller than MAX-RES-HEIGHT keeps that
  variant, and the resolution warning fires exactly then (`OverCap`, `JobWarnings`).
- **Double warning.** When only audio is missing, vstreamdl warns "no audio" and then also "no
  audio and no video". The second warning is the `else` of the both-present test (`JobWarnings`).
- **`#EXTENC:` without attributes.** The `path` command meets a size check, and then the error
  message calls `at(0)`, which throws. The model returns `OutOfRange` (`EncodingErrors`).
- **`path --remove` edge cases.** With a non-empty INBASEPATH:
  - a resource line equal to INBASEPATH throws on `uri.at(0)` (`RangeErrors`, `EmptyRest`);
  - a remainder not starting with `/` becomes the empty path (`NewPathCases`).

## Model

| member | source | states |
|---|---|---|
| Util.Numeral | src/middleware/util.cpp:110-123 | reference definition of to_string's text: the zero digit alone for 0, else the numeral; NumeralReadsBack and NumeralInTable state its properties |
| Util.ReadBack | src/middleware/util.cpp:110-123 | the independent partner of to_string: a numeral read back position by position in the digit table; SpellReadsBack proves it inverts the rendering |
| Util.Spell | src/middleware/util.cpp:116-120 | the numeral the loop builds is empty exactly for zero |
| Util.ToString | src/middleware/util.cpp:110-123 | the prepend loop yields `Numeral`: the zero digit for 0, else the base-`base` numeral most significant digit first |
| Util.SpellStep | src/middleware/util.cpp:116-120 | one turn moves the lowest digit to the front and strictly shrinks the value |
| Util.SpellReadsBack | src/middleware/util.cpp:116-120 | with a repeat-free digit table the numeral reads back as the value |
| Util.SpellLeadingDigit | src/middleware/util.cpp:116-120 | a positive value's numeral does not start with the zero digit |
| Util.NumeralReadsBack | src/middleware/util.cpp:114-120 | to_string(0) is digits[0]; for every value the output reads back as the value, and for a positive one its first character is not digits[0] |
| Util.SpellInTable | src/middleware/util.cpp:116-120 | every character of a numeral comes from the digit table |
| Util.NumeralInTable | src/middleware/util.cpp:114-120 | the output is non-empty and drawn from the digit table |
| Util.UpperAscii | src/middleware/util.cpp:131 | `a`-`z` become `A`-`Z` (c-32), everything else is unchanged, and no lower-case letter results |
| Util.Upper | src/middleware/util.cpp:125-135 | same length, each character upper-cased in place |
| Util.ToUpper | src/middleware/util.cpp:125-135 | the in-place loop yields `Upper` of the input |
| Util.UpperIdempotent | src/middleware/util.cpp:125-135 | upper-casing is idempotent and leaves no ASCII lower-case letter |
| Util.FileCounter.constructor | src/middleware/util.h:22 | total 0, copied 0 |
| Util.FileCounter.Add | src/middleware/util.h:25 | adds to both counters (mod 2^64) |
| Util.FileCounter.AddCounter | src/middleware/util.h:26 | adds the other counter's total and copied |
| Util.FileCounter.AddTotal | src/middleware/util.h:27 | adds to total only, copied unchanged |
| Util.FileCounter.AddCopied | src/middleware/util.h:28 | adds to copied only, total unchanged |
| Util.ResultCounter.constructor | src/middleware/util.h:44-45 | starts at (e, w), by default (0, 0) |
| Util.ResultCounter.IncErrors | src/middleware/util.h:51 | increments errors only |
| Util.ResultCounter.IncWarnings | src/middleware/util.h:52 | increments warnings only |
| M3uLines.Head | src/middleware/m3u.cpp:18-23 | `substr(0, n)` has length min(n, size) |
| M3uLines.IsExtType | src/middleware/m3u.cpp:18-26 | definition of both isExtType overloads: `substr(0, base.size())` compared with the base; IsExtTypeIsPrefix proves it is the prefix test |
| M3uLines.IsExtTypeIsPrefix | src/middleware/m3u.cpp:18-21 | isExtType holds iff the base is a prefix of the line |
| M3uLines.IsExtTypeMonotone | src/middleware/m3u.cpp:18-26 | a line of a longer directive type is also of every prefix type (e.g. `#EXTINF:` implies `#EXT`) |
| M3uLines.PeekNewLine | src/middleware/m3u.cpp:88 | 2 only for CR LF, 0 exactly for a non-terminator |
| M3uLines.ReadAllLines | src/middleware/m3u.cpp:82-100 | the position loop yields `Lines`: no line for an empty buffer, else the pieces between terminators |
| M3uLines.ReadStep | src/middleware/m3u.cpp:86-98 | one turn advances the read position (by two over CR LF) and keeps the finished lines equal to the leading pieces |
| M3uLines.Pieces | src/middleware/m3u.cpp:82-100 | every buffer, the empty one included, has at least one piece between terminators |
| M3uLines.PiecesCount | src/middleware/m3u.cpp:82-100 | a buffer has one more piece than terminators, CR LF counting once |
| M3uLines.PiecesClean | src/middleware/m3u.cpp:82-100 | no piece holds a CR or LF |
| M3uLines.LinesShape | src/middleware/m3u.cpp:82-100 | empty buffer: no lines; otherwise terminators + 1 lines, none containing CR or LF |
| M3uLines.PiecesLast | src/middleware/m3u.cpp:82-100 | a buffer ending in a terminator ends in an empty piece |
| M3uLines.TrailingTerminator | src/middleware/m3u.cpp:82-100 | a trailing terminator yields a final empty line |
| M3uLines.LinesOfTerminated | src/middleware/m3u.cpp:82-100 | LF-terminated clean lines split back into the same lines plus a final empty one |
| M3uLines.Lines | src/middleware/m3u.cpp:82-100 | definition of the lines readAllLines returns: none for an empty buffer, else the pieces between terminators (CR, LF or CR LF, each closing one line); ReadAllLines computes it, LinesShape and TrailingTerminator state its shape |
| M3uLines.IsTerminator | src/middleware/m3u.cpp:88 | the characters omw::peekNewLine reports as a line break, CR and LF; PeekNewLine states the break length |
| M3uAttributes.MakeParam | src/middleware/m3u.h:67 | ExtParameter(key, value) is valid, keeps the key and types the value |
| M3uAttributes.Unescape | src/middleware/m3u.cpp:126 | collapsing doubled quotes never lengthens the text |
| M3uAttributes.Escape | src/middleware/m3u.cpp:126 | doubling every quote never shortens the text (the partner of the collapse) |
| M3uAttributes.UnescapeEscape | src/middleware/m3u.cpp:126 | collapsing is the inverse of doubling every quote |
| M3uAttributes.UnescapeNoQuote | src/middleware/m3u.cpp:126 | a text without quotes is left alone |
| M3uAttributes.ParseValue | src/middleware/m3u.cpp:117-138 | empty value: T_UNKNOWN with empty data; quoted (length >= 2): T_STRING with outer quotes removed and `""` collapsed; otherwise T_INTEGER iff isInteger, else T_SYMBOL, the data verbatim (each case iff) |
| M3uAttributes.QuotedRoundTrip | src/middleware/m3u.cpp:121-129 | quoting an escaped text and typing it gives back the text as a string |
| M3uAttributes.LoneQuote | src/middleware/m3u.cpp:121-125 | the written code is undefined exactly for the value `"`, agrees with ParseValue elsewhere, and ParseValue types `"` a symbol |
| M3uAttributes.FindFrom | src/middleware/m3u.cpp:192 | `find(':')`: the first occurrence at or after i, or the end |
| M3uAttributes.FindFromFirst | src/middleware/m3u.cpp:192 | no occurrence of the character lies between the start and the index find returns |
| M3uAttributes.KeyEnd | src/middleware/m3u.cpp:206-237 | a key runs to the first `=` or `,` |
| M3uAttributes.KeyEndClean | src/middleware/m3u.cpp:234-237 | no `=` or `,` lies inside a key |
| M3uAttributes.ValueEnd | src/middleware/m3u.cpp:211-222 | a value ends at the first comma outside double quotes, each `"` toggling |
| M3uAttributes.TokenEnd | src/middleware/m3u.cpp:204-233 | a token ends at a comma or the end of text, after its key and (after `=`) its value |
| M3uAttributes.Pending | src/middleware/m3u.cpp:227-228 | at most one attribute per token, none exactly when key and value are both empty |
| M3uAttributes.Typed | src/middleware/m3u.cpp:227-228 | one parameter per scanned attribute |
| M3uAttributes.TypedAt | src/middleware/m3u.cpp:227-228 | the i-th parameter is ExtParameter of the i-th attribute |
| M3uAttributes.TypedAppend | src/middleware/m3u.cpp:227-242 | typing distributes over concatenation |
| M3uAttributes.Token | src/middleware/m3u.cpp:225-233 | a token contributes at most one attribute |
| M3uAttributes.TokenWithValue | src/middleware/m3u.cpp:206-228 | a token with `=` gives (text before `=`, text after it) |
| M3uAttributes.TokenWithoutValue | src/middleware/m3u.cpp:225-237 | a token without `=` gives its whole text as the key |
| M3uAttributes.ParseExtData | src/middleware/m3u.cpp:190-244 | the scan loop yields `ExtAttributes`: the prior list untouched without `:`, else the typed token attributes of the text after the first `:` |
| M3uAttributes.ScanByRun | src/middleware/m3u.cpp:204-242 | the character-by-character reading agrees with the token grammar |
| M3uAttributes.IsUInteger | src/middleware/m3u.cpp:345 | omw::isUInteger, as used on the RESOLUTION tokens and on MAX-RES-HEIGHT: one or more decimal digits; DecimalNumeral and JobErrors state what it admits |
| M3uAttributes.IsInteger | src/middleware/m3u.cpp:132 | omw::isInteger: an optional sign followed by an unsigned integer; ParseValue's contract types exactly these unquoted values as integers |
| M3uAttributes.IsQuoted | src/middleware/m3u.cpp:121 | the quoted-value test with room for both quotes (the written test lacks the length condition, see Findings); ParseValue types exactly these values as strings |
| M3uAttributes.ParseValueAsWritten | src/middleware/m3u.cpp:117-138 | m_parse as written, undefined (None) where `value.end() - 1` precedes `value.begin() + 1`; LoneQuote states that this happens only for `"` and that it agrees with ParseValue elsewhere |
| M3uAttributes.Scan | src/middleware/m3u.cpp:204-242 | the attribute list read after the colon as separator-closed tokens, each a key with an optional `=` value; ScanByRun proves the character loop reads the same, ScanClean and the Example lemmas state its results |
| M3uAttributes.Run | src/middleware/m3u.cpp:204-242 | the character loop of m_parseExtData followed position by position, with both accumulators and the ignoreComma flag; ScanByRun connects it to Scan |
| M3uAttributes.Flush | src/middleware/m3u.cpp:227-228 | the parameters pushed when a comma or the end closes a token (lines 241-242 repeat it); Pending and Typed state their shape |
| M3uAttributes.ExtAttributes | src/middleware/m3u.cpp:190-244 | the list m_parseExtData leaves: the old list when the directive has no colon, else the typed scan of what follows the first colon; ParseExtData computes it, ExtAttributesShape states its shape |
| M3uAttributes.ValueIs | src/middleware/m3u.h:125-128 | the four operator== overloads between a parameter value and a text compare only the stored text |
| M3uAttributeLists.FirstWithKey | src/middleware/m3u.cpp:158-164 | the first index with the key, with no earlier match |
| M3uAttributeLists.Contains | src/middleware/m3u.cpp:140-154 | true iff some parameter carries the key |
| M3uAttributeLists.Get | src/middleware/m3u.cpp:156-167 | the first parameter with the key; the out_of_range error with its message iff none |
| M3uAttributeLists.ScanClean | src/middleware/m3u.cpp:204-242 | every scanned attribute has a key without `=` or `,` and a non-empty value text |
| M3uAttributeLists.ExtAttributesShape | src/middleware/m3u.cpp:192-199 | without `:` the old list is kept (not cleared); with one every parameter is valid, typed and cleanly keyed |
| M3uAttributeLists.ExampleQuotedComma | src/middleware/m3u.cpp:215-222 | the comma inside `"x,y"` does not end the value |
| M3uAttributeLists.ExampleFirstToken | src/middleware/m3u.cpp:206-233 | `A="x,y"` is one token |
| M3uAttributeLists.ExampleSecondToken | src/middleware/m3u.cpp:206-233 | `B=2` is the next token |
| M3uAttributeLists.ExampleLastToken | src/middleware/m3u.cpp:241 | the bare `C` gives ("", C) |
| M3uAttributeLists.ExampleValues | src/middleware/m3u.cpp:117-138 | `"x,y"` is a string x,y, `2` an integer, `C` a symbol |
| M3uAttributeLists.ExampleAttributes | src/middleware/m3u.cpp:190-243 | `#X:A="x,y",B=2,C` gives [(A, String x,y), (B, Integer 2), ("", Symbol C)] |
| M3uAttributeLists.TypedThree | src/middleware/m3u.cpp:227-242 | three attributes type to three parameters in order |
| M3uAttributeLists.HasKey | src/middleware/m3u.cpp:140-154 | the answer of ExtParamContainer::contains; Contains proves the early-exit loop computes it |
| M3uAttributeLists.NoParameterMessage | src/middleware/m3u.cpp:166 | the message of the out_of_range that get throws; Get's contract returns it exactly when no parameter carries the key |
| M3uEntry.EntryOf | src/middleware/m3u.h:93 | definition of Entry(data, ext): both strings kept and the attributes scanned from ext over an empty list; SetterAttributes shows that a `:`-less directive gets none |
| M3uEntry.NewEntry | src/middleware/m3u.h:93 | Entry(data, ext) stores both strings and reads the attributes from ext |
| M3uEntry.SetData | src/middleware/m3u.h:111 | the result equals (by operator==) a fresh Entry(data, ext), equals the old entry iff the data is unchanged, and keeps the attribute list |
| M3uEntry.IsEmpty | src/middleware/m3u.h:103 | definition: neither directive nor resource line; KindLines proves an entry is empty iff it occupies no playlist line |
| M3uEntry.IsComment | src/middleware/m3u.h:104 | definition: a resource line starting with `#`; EntryKinds proves a comment is never a resource |
| M3uEntry.IsExtension | src/middleware/m3u.h:105 | definition: a directive without resource line; KindLines proves it occupies exactly its directive line |
| M3uEntry.IsResource | src/middleware/m3u.h:106 | definition: a resource line not starting with `#`; EntryKinds proves it excludes empty, comment and bare directive |
| M3uEntry.HasExtension | src/middleware/m3u.h:107 | definition: a non-empty directive; KindLines proves the entry's first line is then the directive |
| M3uEntry.IsRegularRes | src/middleware/m3u.h:108 | definition: a resource without directive; KindLines proves it occupies exactly its resource line |
| M3uEntry.ExtIs | src/middleware/m3u.cpp:169-172 | extIs holds iff the base is a prefix of the directive; a non-empty base then implies a directive |
| M3uEntry.Same | src/middleware/m3u.h:134 | definition of operator==: data and ext compared, attributes ignored; SameLines proves it is implied by equality, symmetric, and that equal entries are written out identically |
| M3uEntry.Serialise | src/middleware/m3u.cpp:174-188 | Entry::serialize: the text is empty iff the entry is empty, and it starts with the directive |
| M3uEntry.SetExt | src/middleware/m3u.h:110 | setExt replaces ext and re-reads the attributes over the old list |
| M3uEntry.EntryKinds | src/middleware/m3u.h:103-108 | every entry is empty, an extension, a comment or a resource; empty excludes the others; comment and resource exclude each other; isRegularRes iff resource without ext |
| M3uEntry.KindLines | src/middleware/m3u.h:103-108 | the kinds read off the lines an entry occupies: empty iff none; a bare directive or a regular resource occupies exactly its one line; a directive is the first line and a resource or comment the last |
| M3uEntry.SameLines | src/middleware/m3u.h:134 | operator== is implied by structural equality and is symmetric, and entries it calls equal give the same lines and the same serialised text |
| M3uEntry.SetterAttributes | src/middleware/m3u.h:110-111 | setData changes only data; setExt with a `:`-less directive keeps stale attributes, yet operator== sees it equal to a fresh entry; with `:` it equals a fresh entry |
| M3uEntry.EntryLines | src/middleware/m3u.cpp:174-188 | an entry occupies at most two lines, none empty |
| M3uEntry.SerialiseTerminated | src/middleware/m3u.cpp:174-188 | a non-empty entry's text plus EOL is its ext line then its data line, each followed by EOL |
| M3uEntry.SerialiseSplits | src/middleware/m3u.cpp:174-188 | a clean serialised entry with LF splits back into its lines |
| M3uDocument.ExtendedNoEmpty | src/middleware/m3u.cpp:272-291 | the extended branch never makes an empty entry |
| M3uDocument.PlainNoEmpty | src/middleware/m3u.cpp:296-299 | the plain branch never makes an empty entry |
| M3uDocument.CollectNoEmpty | src/middleware/m3u.cpp:266-302 | no parsed entry is empty, so the final pop_back never removes one |
| M3uDocument.Collect | src/middleware/m3u.cpp:266-299 | reference definition of the grouping: extended grouping after an exact `#EXTM3U` first line (the header entry first), plain grouping otherwise; CollectNoEmpty and ExtendedIffHeader state its properties |
| M3uDocument.ParseText | src/middleware/m3u.cpp:260-304 | reference definition of m_parse with the final check read as intended; RoundTrip, PlainRoundTrip and ParseTextIsCollect state its properties |
| M3uDocument.ParseTextIsCollect | src/middleware/m3u.cpp:260-304 | the parse is the grouping of the lines, free of empty entries |
| M3uDocument.PlainNothing | src/middleware/m3u.cpp:296-299 | plain grouping makes nothing iff every line is empty |
| M3uDocument.ParseAsWrittenDefined | src/middleware/m3u.cpp:302 | the written parse is undefined exactly when there are lines and all are empty, else equals the corrected parse |
| M3uDocument.BlankLineUndefined | src/middleware/m3u.cpp:302 | "\n" has two empty lines, no entry, and the written parse calls back() on an empty vector |
| M3uDocument.SerialiseDoc | src/middleware/m3u.cpp:248-258 | reference definition of M3U::serialize: each entry's text followed by EOL; SerialiseFlat and RoundTrip state its properties |
| M3uDocument.SerialiseSnoc | src/middleware/m3u.cpp:252-255 | appending an entry appends its text and EOL |
| M3uDocument.SerialiseFlat | src/middleware/m3u.cpp:248-258 | the document text is each entry's lines, each followed by EOL |
| M3uDocument.FlatClean | src/middleware/m3u.cpp:248-258 | entries without terminators occupy clean lines |
| M3uDocument.ExtendedFirstPair | src/middleware/m3u.cpp:277-285 | an EXTINF/EXT-X-STREAM-INF line with a next line becomes Entry(next, line) and both are consumed |
| M3uDocument.ExtendedFirstDirective | src/middleware/m3u.cpp:288 | another `#EXT` line becomes Entry("", line) |
| M3uDocument.ExtendedFirstResource | src/middleware/m3u.cpp:290 | any other line becomes Entry(line) |
| M3uDocument.ExtendedCons | src/middleware/m3u.cpp:272-291 | a body entry's lines in front regroup into that entry in front |
| M3uDocument.ExtendedRoundTrip | src/middleware/m3u.cpp:272-291 | the lines of body entries plus a final empty one group back into them |
| M3uDocument.SerialisedLines | src/middleware/m3u.cpp:248-258 | the LF serialisation of clean non-empty entries splits into their lines and a final empty line |
| M3uDocument.WellFormedClean | src/middleware/m3u.cpp:248-258 | a well-formed extended playlist is non-empty per entry and clean |
| M3uDocument.RoundTrip | src/middleware/m3u.cpp:248-304 | parsing the LF serialisation of a well-formed extended playlist gives the same entries |
| M3uDocument.PlainRoundTripLines | src/middleware/m3u.cpp:296-299 | the lines of plain resources regroup into them |
| M3uDocument.PlainRoundTrip | src/middleware/m3u.cpp:248-304 | parsing the serialisation of a well-formed plain playlist gives the same entries |
| M3uDocument.DanglingDirectiveAbsorbsNext | src/middleware/m3u.cpp:277-284 | the round trip fails when a bare EXTINF entry is not last: it absorbs the next resource |
| M3uDocument.DanglingLines | src/middleware/m3u.cpp:248-258 | the lines of that counterexample |
| M3uDocument.DanglingGroups | src/middleware/m3u.cpp:277-284 | how those lines regroup |
| M3uDocument.ExtendedIffHeader | src/middleware/m3u.h:151 | a parsed playlist is extended (entry 0 == Entry("", "#EXTM3U")) iff its first line is exactly `#EXTM3U` |
| M3uDocument.PlainFirst | src/middleware/m3u.cpp:296-299 | a plain playlist's first entry has no ext |
| M3uDocument.M3U.constructor | src/middleware/m3u.h:140 | no entries |
| M3uDocument.M3U.Copy | src/middleware/m3u.h:219 | the implicit copy constructor of M3U, used by HLS(const M3U&) here: the copy holds the same entries |
| M3uDocument.M3U.FromText | src/middleware/m3u.h:141 | the entries are those parsed from the text |
| M3uDocument.M3U.Parse | src/middleware/m3u.cpp:260-304 | m_parse yields `ParseText` of the text |
| M3uDocument.M3U.Add | src/middleware/m3u.h:145 | appends one entry, the rest unchanged |
| M3uDocument.M3U.IsEmpty | src/middleware/m3u.h:150 | true iff there is no entry |
| M3uDocument.M3U.IsExtended | src/middleware/m3u.h:151 | true iff non-empty and entry 0 == Entry("", "#EXTM3U") by operator== |
| M3uDocument.M3U.Serialise | src/middleware/m3u.cpp:248-258 | each entry's text followed by EOL, in order |
| M3uDocument.CollectExtended | src/middleware/m3u.cpp:268-292 | the extended loop yields the header then the grouped lines |
| M3uDocument.CollectLine | src/middleware/m3u.cpp:274-291 | one pass makes the next entry (if any) and moves past one or two lines |
| M3uDocument.CollectPlain | src/middleware/m3u.cpp:296-299 | the plain loop yields one resource per non-empty line, in order |
| M3uDocument.ExtendedAt | src/middleware/m3u.cpp:274-291 | the grouping of a suffix, one step unfolded by the four branches |
| M3uDocument.Header | src/middleware/m3u.cpp:270 | the `#EXTM3U` entry, also headerEntry at path.cpp:101; ExtendedIffHeader and RerootStart state where it appears |
| M3uDocument.ExtendedEntries | src/middleware/m3u.cpp:272-292 | the entries of the lines after the header: blank lines skipped, EXTINF/EXT-X-STREAM-INF taking the next line, other `#EXT` lines bare, the rest resources; ExtendedCons, ExtendedAt, ExtendedNoEmpty and ExtendedRoundTrip state its properties |
| M3uDocument.PlainEntries | src/middleware/m3u.cpp:296-299 | one resource per non-empty line, in order; PlainAt, PlainFirst, PlainNoEmpty and PlainRoundTripLines state its properties |
| M3uDocument.ParseTextAsWritten | src/middleware/m3u.cpp:260-304 | m_parse as written, undefined (None) where `back()` is taken of an empty entry list; ParseAsWrittenDefined and BlankLineUndefined state when that happens |
| M3uDocument.PairsWithNext | src/middleware/m3u.cpp:277-278 | the directives that take the next line as their resource, EXTINF and EXT-X-STREAM-INF; ExtendedFirstPair states what they absorb |
| M3uHls.Split | src/middleware/m3u.cpp:343 | at least one piece and no piece contains the separator |
| M3uHls.SplitJoin | src/middleware/m3u.cpp:343 | gluing the pieces with the separator gives the text back |
| M3uHls.JoinSplit | src/middleware/m3u.cpp:343 | separator-free pieces glued and split come back unchanged |
| M3uHls.DecimalValue | src/middleware/m3u.cpp:347 | std::stoi of a digit string, as the decimal read-back; DecimalNumeral proves it inverts the decimal to_string |
| M3uHls.ResolutionHeight | src/middleware/m3u.cpp:343-347 | reference definition of the height check: exactly two `x`-separated unsigned integers, the second one the height; ResolutionOfNumerals, ResolutionNeedsSeparator and ResolutionNonNegative state its properties |
| M3uHls.DecimalTable | src/middleware/m3u.cpp:347 | the decimal digit table has ten distinct digits |
| M3uHls.DecimalNumeral | src/middleware/m3u.cpp:345-347 | a decimal to_string numeral is an unsigned integer without `x` that stoi reads as its number |
| M3uHls.ResolutionOfNumerals | src/middleware/m3u.cpp:343-347 | `W x H` written as numerals yields height H |
| M3uHls.ResolutionNeedsSeparator | src/middleware/m3u.cpp:345 | a value without `x` yields no height |
| M3uHls.FallbackGivesNoHeight | src/middleware/m3u.cpp:329 | the fallback "-1x-1" is no valid resolution |
| M3uHls.LastSet | src/middleware/m3u.cpp:308-316 | the index of the last attribute with the key and a non-empty value, none after it |
| M3uHls.LastSetSnoc | src/middleware/m3u.cpp:308-316 | a later setting attribute overrides all earlier ones |
| M3uHls.LastHeight | src/middleware/m3u.cpp:337-352 | the index of the last RESOLUTION that yields a height |
| M3uHls.LastHeightSnoc | src/middleware/m3u.cpp:337-352 | a later valid RESOLUTION overrides the earlier ones |
| M3uHls.ReadSubtitleFields | src/middleware/m3u.cpp:306-317 | the overwrite loop leaves each field at its last non-empty LANGUAGE/FORCED/URI value, or its start value |
| M3uHls.NewSubtitles | src/middleware/m3u.h:180 | defaults "", false, "" then the parsed fields |
| M3uHls.SetSubtitlesExt | src/middleware/m3u.h:187 | re-reads the attributes over the old fields without resetting them |
| M3uHls.SubtitleFields | src/middleware/m3u.cpp:306-317 | language and uri are each the value of the last LANGUAGE/URI attribute with a non-empty value, and "" when there is none; forced iff the last non-empty FORCED is "YES" |
| M3uHls.ReadHeight | src/middleware/m3u.cpp:335-353 | the height is that of the last RESOLUTION splitting into two unsigned integers, else the start value |
| M3uHls.NewStream | src/middleware/m3u.h:201 | height starts at -1 and is then parsed |
| M3uHls.SetStreamExt | src/middleware/m3u.h:207 | re-reads the attributes; the old height stays unless a valid RESOLUTION replaces it |
| M3uHls.StreamHeight | src/middleware/m3u.cpp:335-353 | height -1 iff no RESOLUTION yields one; else the second number of the last one that does |
| M3uHls.ResolutionNonNegative | src/middleware/m3u.cpp:345-347 | a parsed height is never negative |
| M3uHls.ResolutionParamOf | src/middleware/m3u.cpp:319-333 | the first RESOLUTION attribute, or ("RESOLUTION", "-1x-1") when none |
| M3uHls.ResolutionExtParam | src/middleware/m3u.cpp:319-333 | get with the fallback on the exception yields `ResolutionParamOf` |
| M3uHls.StreamGroupIff | src/middleware/m3u.cpp:361-377 | a stream iff an EXT-X-STREAM-INF ext with a resource; one with empty data goes to the others |
| M3uHls.GroupOf | src/middleware/m3u.cpp:357-378 | audio and subtitle groups only for bare EXT-X-MEDIA directives, the stream group only for EXT-X-STREAM-INF with a resource, everything without a directive in the others |
| M3uHls.Filter | src/middleware/m3u.cpp:357-378 | reference definition of one group's list: the entries routed there, in playlist order; FilterMembers and Partition state its properties |
| M3uHls.FilterSnoc | src/middleware/m3u.cpp:357-378 | a group's list grows by the entry exactly when the entry belongs to it |
| M3uHls.FilterMembers | src/middleware/m3u.cpp:357-378 | an entry is in a group iff it is in the playlist and routed there |
| M3uHls.Partition | src/middleware/m3u.cpp:355-381 | the four group sizes add up to the number of entries |
| M3uHls.SubtitlesFor | src/middleware/m3u.cpp:368 | one Subtitles per subtitle entry, in order |
| M3uHls.StreamsFor | src/middleware/m3u.cpp:375 | one Stream per stream entry, in order |
| M3uHls.Route | src/middleware/m3u.cpp:361-377 | the branch of m_parse: EXT-X-MEDIA extension by its first TYPE (AUDIO, SUBTITLES, else other), EXT-X-STREAM-INF with data a stream, else other |
| M3uHls.HLS.constructor | src/middleware/m3u.h:216 | empty playlist, empty groups |
| M3uHls.HLS.FromText | src/middleware/m3u.h:217 | parsed entries sorted into the groups |
| M3uHls.HLS.FromM3U | src/middleware/m3u.h:219 | a copy of the playlist, sorted |
| M3uHls.HLS.Classify | src/middleware/m3u.cpp:355-381 | each group is the order-preserving filter of the entries by `GroupOf`; the entries themselves are kept |
| M3uHls.HLS.Place | src/middleware/m3u.cpp:359-377 | one turn appends the entry to its group only |
| M3uHls.HLS.Serialise | src/middleware/m3u.h:227 | the whole retained playlist is serialised, independent of the groups |
| M3uHls.Sets | src/middleware/m3u.cpp:310-314 | an attribute counts for a field only with a non-empty value; SubtitleFields and LastSetSnoc use it |
| M3uHls.LastValue | src/middleware/m3u.cpp:306-317 | a field after the overwrite loop: the value of the last attribute setting the key, else the start value; ReadSubtitleFields proves the loop computes it |
| M3uHls.ForcedValue | src/middleware/m3u.cpp:313 | forced after the loop: whether the last non-empty FORCED is "YES", else the start value; ReadSubtitleFields proves the loop computes it |
| M3uHls.SubtitlesOver | src/middleware/m3u.h:187 | the fields setExt re-reads over the old ones, which are not reset; SetSubtitlesExt computes it |
| M3uHls.SubtitlesOf | src/middleware/m3u.h:180 | the constructor's fields, read over an empty language and URI and not forced; NewSubtitles computes it, SubtitleFields states what each field is |
| M3uHls.SetsHeight | src/middleware/m3u.cpp:339-347 | an attribute that is a non-empty RESOLUTION that splits into two unsigned integers; StreamHeight and LastHeightSnoc use it |
| M3uHls.HeightValue | src/middleware/m3u.cpp:335-353 | the height after the loop: from the last RESOLUTION that gives one, else the start value; ReadHeight proves the loop computes it |
| M3uHls.StreamOf | src/middleware/m3u.h:201 | the constructor's height, read over -1; NewStream computes it, StreamHeight states it |
| M3uHls.Join | src/middleware/m3u.cpp:343 | the inverse of omw::split, gluing the tokens with the separator; SplitJoin and JoinSplit state the two round trips |
| VStreamDl.IsSelection | src/application/vstreamdl.cpp:179-186 | the independent description of the chosen variant: index 0 when streams[0] is over the cap, else the first tallest within the cap; SelectionUnique and SelectStream connect it to the loop |
| VStreamDl.Heights | src/application/vstreamdl.cpp:182-184 | the heights of the variants, in order |
| VStreamDl.SelectionUnique | src/application/vstreamdl.cpp:179-186 | at most one index meets the selection description |
| VStreamDl.Select | src/application/vstreamdl.cpp:179-186 | the loop's index: 0 when streams[0] is over the cap, else the first tallest height within the cap |
| VStreamDl.SelectStep | src/application/vstreamdl.cpp:180-185 | one turn keeps the description true for one more stream |
| VStreamDl.SelectStream | src/application/vstreamdl.cpp:179-186 | the loop's index is in range and meets the description |
| VStreamDl.OverCap | src/application/vstreamdl.cpp:179-188 | the chosen height is over the cap iff streams[0]'s is, and then index 0 is chosen |
| VStreamDl.SelectExamples | src/application/vstreamdl.cpp:179-188 | [1080,720,480] cap 720 picks 0 and warns; [480,720,1080] cap 720 picks 1; [2160] cap 1080 picks 0 and warns |
| VStreamDl.PlaylistText | src/application/vstreamdl.cpp:159-191 | reference definition of the playlist text: other entries, LF, audio entries, LF, the chosen stream, LF; PlaylistLines states its lines |
| VStreamDl.AppendEntries | src/application/vstreamdl.cpp:163-175 | the txt += loop appends each entry's text and LF |
| VStreamDl.PlaylistLines | src/application/vstreamdl.cpp:161-191 | the playlist's lines: other entries, "", audio entries, "", the chosen stream |
| VStreamDl.PlaylistClean | src/application/vstreamdl.cpp:161-191 | those lines hold no terminator |
| VStreamDl.ScriptText | src/application/vstreamdl.cpp:201-214 | reference definition of the script text: the header then one command per subtitle; ScriptLines states its lines |
| VStreamDl.BuildScript | src/application/vstreamdl.cpp:203-214 | the srtScript += loop yields the header then one command per subtitle with a URI |
| VStreamDl.CommandsTerminated | src/application/vstreamdl.cpp:205-214 | the commands are their lines, each LF-terminated |
| VStreamDl.CommandLinesClean | src/application/vstreamdl.cpp:205-214 | no command line holds a terminator |
| VStreamDl.FfmpegClean | src/application/vstreamdl.cpp:209-211 | an ffmpeg line of clean fields holds no terminator |
| VStreamDl.ScriptLines | src/application/vstreamdl.cpp:203-214 | the script's lines: five header lines, then `ffmpeg -i "<uri>" ... "./subs/<name>-<lang>[-forced].srt"` and `echo $?` per subtitle with a URI, in order, nothing for one without |
| VStreamDl.BuildPlaylist | src/application/vstreamdl.cpp:161-191 | the playlist text with the selected stream, and the resolution warning when it is over the cap |
| VStreamDl.Job | src/application/vstreamdl.cpp:147-220 | reference definition of the run on the groups; JobErrors, DefaultCap and JobWarnings state its properties |
| VStreamDl.Run | src/application/vstreamdl.cpp:80-220 | the run step by step equals `Job`, which gives the errors, warnings, playlist and script |
| VStreamDl.JobErrors | src/application/vstreamdl.cpp:147-155 | the run fails iff an argument is missing, MAX-RES-HEIGHT is no unsigned integer (EC_ERROR) or all groups are empty (EC_STREAM_EMPTY) |
| VStreamDl.DefaultCap | src/application/vstreamdl.cpp:83-84 | without a fifth argument the cap is 1080, otherwise the fifth argument |
| VStreamDl.JobWarnings | src/application/vstreamdl.cpp:151-201 | playlist iff audio and video; script iff subtitles; "no audio" / "no video" each followed by "no audio and no video"; the resolution warning iff streams[0] is over the cap |
| VStreamDl.ExitCode | src/application/common.h:54-64 | EC_ERROR is 1 and EC_STREAM_EMPTY is 83, for the errors raised at vstreamdl.cpp:147 and :155; JobExitCode ties them to the run's failures |
| VStreamDl.JobExitCode | src/application/vstreamdl.cpp:147-155 | with four arguments the run only fails on a reported error: exit 1 iff MAX-RES-HEIGHT is no unsigned integer, exit 83 iff it is one and audio, video and subtitles are all empty |
| VStreamDl.MaxResHeightArg | src/application/vstreamdl.cpp:83-84 | the fifth raw argument when given, else "1080"; DefaultCap states both cases |
| VStreamDl.GroupWarnings | src/application/vstreamdl.cpp:157-158 | "no audio" with video only, "no video" with audio only, nothing otherwise; JobWarnings states the warnings of each case |
| VStreamDl.Chosen | src/application/vstreamdl.cpp:179-186 | the variant at the index the selection loop ends on; SelectStream computes the index, BuildPlaylist the playlist from it, OverCap states when it is over the cap |
| VStreamDl.ResolutionWarning | src/application/vstreamdl.cpp:188 | the warning naming the chosen RESOLUTION, given exactly when its height is over the cap; JobWarnings states when it appears |
| VStreamDl.SubtitleFile | src/application/vstreamdl.cpp:209 | `./subs/<name>-<language>[-forced].srt` |
| VStreamDl.FfmpegLine | src/application/vstreamdl.cpp:211 | the ffmpeg command for one rendition; FfmpegClean states it holds no line terminator |
| VStreamDl.Command | src/application/vstreamdl.cpp:207-213 | the ffmpeg and echo lines for a rendition with a URI, nothing without one; ScriptSnoc states what each rendition adds |
| VStreamDl.ScriptHeader | src/application/vstreamdl.cpp:203 | the comment lines, the date-time parameter and `mkdir subs`; HeaderTerminated and HeaderClean state its lines |
| VStreamDl.Commands | src/application/vstreamdl.cpp:205-214 | the commands of the renditions in order; CommandsTerminated and CommandLinesClean state its lines |
| PathCmd.Substr | src/application/path.cpp:140 | `substr(pos, n)` has the clipped length |
| PathCmd.SubstrPrefix | src/application/path.cpp:140 | the substr comparison is the prefix test |
| PathCmd.ReplaceAll | src/application/path.cpp:144 | every `\` becomes `/`, length preserved |
| PathCmd.ReplaceAllSlashes | src/application/path.cpp:144 | no backslash remains, the replacement is idempotent and a text without one stays |
| PathCmd.StartOf | src/application/path.cpp:114-130 | the index copying resumes at lies within the input |
| PathCmd.NewPath | src/application/path.cpp:148-157 | reference definition of the new path before lexically_normal; NewPathCases states its cases |
| PathCmd.RewriteEntry | src/application/path.cpp:134-179 | reference definition of one turn of the copy loop; RewriteEntryCases and EmptyRest state its cases |
| PathCmd.RewriteAll | src/application/path.cpp:132-180 | on success one rewritten entry per input entry, in order; failure iff some entry fails |
| PathCmd.Reroot | src/application/path.cpp:98-180 | reference definition of the target playlist: the encoding error, or the start entries and the rewritten rest; RerootStart, RerootEntries, EncodingErrors and RangeErrors state its properties |
| PathCmd.RerootPlaylist | src/application/path.cpp:98-182 | the command's steps yield the serialised `Reroot` target, or its error |
| PathCmd.CopyEntries | src/application/path.cpp:132-180 | the loop appends `RewriteAll` of the remaining entries, or stops with its error |
| PathCmd.CheckEncoding | src/application/path.cpp:104-112 | the encoding check yields `EncodingError` |
| PathCmd.StartTarget | src/application/path.cpp:114-130 | the target's first entries and the start index are `StartOf` |
| PathCmd.RewriteOne | src/application/path.cpp:134-179 | one turn yields `RewriteEntry` |
| PathCmd.RewriteStep | src/application/path.cpp:132-180 | one more rewritten entry extends the loop's result |
| PathCmd.LoopFails | src/application/path.cpp:151 | an entry that fails makes the whole copy fail with its error |
| PathCmd.OnlyOutOfRange | src/application/path.cpp:151 | the copy loop can fail only with out_of_range |
| PathCmd.EncodingError | src/application/path.cpp:104-112 | reference definition of the encoding check; EncodingErrors states when it fails and how |
| PathCmd.EncodingErrors | src/application/path.cpp:104-111 | unsupported encoding iff header + `#EXTENC:` whose first value upper-cased is not UTF-8; no attribute gives out_of_range |
| PathCmd.RangeErrors | src/application/path.cpp:148-152 | past the encoding check the command fails iff some copied entry's resource equals INBASEPATH under --remove |
| PathCmd.CopyFails | src/application/path.cpp:148-152 | a run of entries fails iff one has an empty remainder |
| PathCmd.EmptyRest | src/application/path.cpp:151 | one entry fails iff --remove with INBASEPATH and its resource is INBASEPATH itself |
| PathCmd.RerootStart | src/application/path.cpp:114-130 | non-.m3u8 with header: [header, `#EXTENC:UTF-8`] then the rest (input EXTENC dropped); .m3u8 with header + EXTENC: header only, EXTENC dropped; otherwise one output per input entry |
| PathCmd.RerootEntries | src/application/path.cpp:132-180 | each copied entry sits at its place in the target as its rewrite |
| PathCmd.RewriteAllAt | src/application/path.cpp:132-180 | the j-th output is the rewrite of the j-th input |
| PathCmd.RerootBody | src/application/path.cpp:98-180 | a target is the start entries followed by the rewritten ones |
| PathCmd.RewriteEntryCases | src/application/path.cpp:136-179 | non-matching entries are copied unchanged; a matching one keeps its ext and gets the normalised new path |
| PathCmd.NewPathCases | src/application/path.cpp:148-157 | --remove without INBASEPATH: filename; with it: the rest minus leading `/`, or the empty path; otherwise OUTBASEPATH + "/" + rest |
| PathCmd.EncodingEntry | src/application/path.cpp:102 | the `#EXTENC:UTF-8` entry; RerootStart states it follows the header in a non-.m3u8 output |
| PathCmd.DeclaresEncoding | src/application/path.cpp:104-106 | more than one entry, the first operator==-equal to the header and the second an `#EXTENC:`; EncodingErrors and RerootStart state what follows from it |
| PathCmd.DeclaredEncoding | src/application/path.cpp:108-110 | the value of the `#EXTENC:` entry's first attribute; EncodingErrors states when it stops the command |
| PathCmd.Matches | src/application/path.cpp:136-140 | a resource whose line starts with INBASEPATH; RewriteEntryCases states that exactly these are rewritten |
| PathCmd.Rest | src/application/path.cpp:142-144 | the line after INBASEPATH with every backslash made a slash; RewriteEntryCases states how it becomes the new path |
| PathCmd.EmptyRemainder | src/application/path.cpp:148-151 | under --remove with a non-empty INBASEPATH, a resource line that is INBASEPATH itself, so that `uri.at(0)` throws; EmptyRest states exactly these entries fail, RangeErrors that the command stops exactly when one is reached |
| CliArg.CheckOpt | src/application/cliarg.cpp:69-73 | every known option name starts with `-`, has at least two characters and is not a combined option, so it is stored whole |
| CliArg.Expand | src/application/cliarg.cpp:33-44 | reference definition of what add stores for one option; ExpandShape states its shape |
| CliArg.ExpandShape | src/application/cliarg.cpp:33-44 | a combined option becomes `-c` per character after the first, in order; others are kept whole; all start with `-` |
| CliArg.LastUnknown | src/application/cliarg.cpp:58-67 | the last option that is not a known name; none iff all are known |
| CliArg.LastUnknownSnoc | src/application/cliarg.cpp:60-66 | an unknown option becomes the last unknown, a known one leaves it |
| CliArg.OptionList.constructor | src/application/cliarg.cpp:29-31 | empty, valid, no unrecognised index |
| CliArg.OptionList.AddOpt | src/application/cliarg.cpp:58-67 | appends the option; unknown ones clear validity and record the index |
| CliArg.OptionList.Add | src/application/cliarg.cpp:33-44 | appends `Expand(opt)`, keeping the validity flags in step |
| CliArg.OptionList.AddFlags | src/application/cliarg.cpp:37-40 | the for loop adds `-c` for each character after the first |
| CliArg.OptionList.Contains | src/application/cliarg.cpp:46-54 | plain membership |
| CliArg.OptionList.Unrecognized | src/application/cliarg.cpp:56 | the last unknown option, or "" when all are known |
| CliArg.OptionList.IsValid | src/application/cliarg.h:59 | true iff every option is a known name |
| CliArg.FileList.constructor | src/application/cliarg.h:37 | empty |
| CliArg.FileList.Add | src/application/cliarg.h:40 | appends one file |
| CliArg.FileList.GetFile | src/application/cliarg.cpp:23 | the file at the index, "" past the end |
| CliArg.FileList.IsValid | src/application/cliarg.cpp:25 | true iff at least two files |
| CliArg.FilesOfMembers | src/application/cliarg.cpp:97-106 | the files are exactly the arguments not starting with `-` |
| CliArg.OptionsOfMembers | src/application/cliarg.cpp:97-106 | every flag of an option argument is stored, and every stored option starts with `-` |
| CliArg.KeptMembers | src/application/cliarg.cpp:87-95 | raw holds exactly the non-empty arguments after argv[0] |
| CliArg.NothingLost | src/application/cliarg.cpp:97-106 | files plus options are at least the arguments routed |
| CliArg.Args.constructor | src/application/cliarg.h:72 | no arguments, empty lists |
| CliArg.Args.FromArgs | src/application/cliarg.h:74 | raw is the kept arguments and the lists follow them |
| CliArg.Args.Add | src/application/cliarg.cpp:97-106 | `-` arguments go to the options, others to the files; raw always grows by the argument |
| CliArg.Args.Parse | src/application/cliarg.cpp:87-95 | adds every non-empty argument after argv[0] |
| CliArg.Args.InDirs | src/application/cliarg.cpp:108-120 | every file but the last |
| CliArg.Args.OutDir | src/application/cliarg.cpp:122 | the last file |
| CliArg.Args.Size | src/application/cliarg.cpp:124-126 | files plus options |
| CliArg.Args.IsValid | src/application/cliarg.cpp:128-138 | true iff raw is non-empty |
| CliArg.Args.At | src/application/cliarg.cpp:140-144 | options first, then files[i - options.size()] |
| CliArg.Args.IsOption | src/application/cliarg.cpp:146-158 | raw[i] starts with `-`; the throwing at() calls are None |
| CliArg.Args.ContainsOption | src/application/cliarg.h:88 | looks in the options only |
| CliArg.Args.ContainsForce | src/application/cliarg.h:91 | `-f` is among the stored options; FlagFound shows it is found inside a combined option too |
| CliArg.Args.ContainsHelp | src/application/cliarg.h:92 | `-h` or `--help` is among the stored options |
| CliArg.Args.ContainsNoColor | src/application/cliarg.h:93 | `--no-color` is among the stored options |
| CliArg.Args.ContainsQuiet | src/application/cliarg.h:94 | `-q` is among the stored options |
| CliArg.Args.ContainsVerbose | src/application/cliarg.h:95 | `-v` is among the stored options |
| CliArg.Args.ContainsVersion | src/application/cliarg.h:96 | `--version` is among the stored options |
| CliArg.Args.IsGlobalHelp | src/application/cliarg.h:97 | the first raw argument is `-h` or `--help`; GlobalHelpIsHelp proves it implies ContainsHelp |
| CliArg.Args.GlobalHelpIsHelp | src/application/cliarg.h:92-97 | isGlobalHelp implies containsHelp |
| CliArg.Args.FlagFound | src/application/cliarg.h:91-95 | a flag alone or inside a combined option is found by the matching contains query |
| CliArg.Combined | src/application/cliarg.cpp:37 | a single-dash option longer than two characters; ExpandShape states how it is split |
| CliArg.IsOptionArg | src/application/cliarg.cpp:99 | an argument starting with `-`; IsOption, FilesOfMembers and OptionsOfMembers state where each argument goes |
| CliArg.FilesOf | src/application/cliarg.cpp:97-106 | the file list the added arguments give, in order; FilesOfMembers and NothingLost state its contents |
| CliArg.OptionsOf | src/application/cliarg.cpp:97-106 | the option list the added arguments give, combined options split; OptionsOfMembers and NothingLost state its contents |
| CliArg.Kept | src/application/cliarg.cpp:87-95 | all arguments but the program name, without the empty ones; KeptMembers states its contents, Parse adds exactly these |

## Left out

- File and network I/O are not modelled: `readFile`, `writeFile`, `getFromUri`, `enc::writeFile`, the directory checks and creation in vstreamdl, and the existence checks in path. Their results are parameters or absent.
- The BOM and encoding detection in `readAllLines` is commented out in the source and is not modelled. The Windows encoding conversion is a foreign OS call.
- Console output, the print helpers and the verbose "no subtitles" note are not modelled. The interactive `omw_::cli::choice` loop needs console input and is left out.
- `getDateTimeStr`, `getDirName`: the date is a parameter of the script text, and `getDirName` is a filesystem query.
- `lexically_normal`, `path::filename` and the test for a `.m3u8` output extension are parameters of the path rewrite, because their implementation is not visible.
- The arguments of the path command (src/application/path.cpp:37-43: the file names from `raw.at(1)` and `raw.at(2)`, INBASEPATH and OUTBASEPATH from positions 3 and 4 unless they are options, and `--remove`) are taken as given in `PathArgs`; how they are read from `Args` is not modelled.
- Strings are modelled as `seq<char>` with one character per byte of the `std::string`; every character the model inspects (line terminators, quotes, `:`, `=`, `,`, `x`, `\` and `/`, and `a`-`z` in toUpper) is ASCII, so no multi-byte encoding is involved.
- Windows-only routing of `/?` to `-h` in `Args::add` and `isOption` is not modelled; the model is the non-Windows build.
- `Args::parse(int, const char*const*)` is the same loop as the vector overload and is modelled only through `Args.Parse`.
- `AudioStream::uri/setUri` have no body in the source; audio renditions are plain entries.
- M3uHls.DecimalValue: `std::stoi` is taken as a mathematical integer, so the out_of_range exception of stoi on a huge height or MAX-RES-HEIGHT is not modelled.
- VStreamDl.Run: a missing argument is `MissingArgument`, where the source lets `raw.at` throw; the exit code mapping of that exception lives elsewhere.
- CliArg.Args.InDirs: requires a file, because with none the source wraps `size()-1` and reads out of range.
- CliArg.Args.OutDir: requires a file, because `back()` on an empty vector is undefined.
- CliArg.Args.At: requires the index in range, because `operator[]` past the end is undefined.
- M3uHls.Partition: the partition is stated as group sizes adding up plus membership per group (FilterMembers), not as a multiset equation.
- Entry equality: the attribute list is part of the `Entry` value, so Dafny's `==` compares it; the source's `operator==` is `M3uEntry.Same`, which compares data and ext only, and every statement about `isExtended`, the header test and the path command uses `Same`.
- The source file names `serialise` in the header and `serialize` in the implementation; both are the one operation `Serialise` here.
- `Util.FileCounter.Add` and the other counter methods: the wrap-around modulo 2^64 is stated; overflow of the `add(t, c)` arguments beyond 64 bits is excluded by the types.
- The curl download helper and the export command are not part of this model.

## Findings

| source | as written | input that shows it | evidently intended | confidence | as-written member | corrected member |
|---|---|---|---|---|---|---|
| src/middleware/m3u.cpp:121-125 | a value whose first and last character is `"` is cut to `std::string(begin + 1, end - 1)` | the one-character value `"` (attribute `K="`), where the range is inverted and the behaviour undefined | a lone quote is no quoted string and is kept as a symbol | not executed | M3uAttributes.LoneQuote | M3uAttributes.ParseValue |
| src/middleware/m3u.cpp:302 | `m_entries.back()` is called whenever there was a line | the text "\n": two empty lines, no entry, `back()` on an empty vector | the empty-entry check only when an entry exists | not executed | M3uDocument.BlankLineUndefined | M3uDocument.ParseTextIsCollect |
