# Properties of the SQLite 3.21 command-line shell

Dafny models of the parts of `sqlite/sqlite-3.21/shell.c` that compute something hard, and proofs about them. The
models follow the code branch by branch: what the code does in place is done in place on arrays and fields, and each
method is proved against a specification whose own properties are proved beside it. Run `dafny verify dfyconfig.toml`.

- **SHA-3** (`machine_words`, `fips202`, `round_constants`, `keccak`, `modular`, `sponge`, `sha3`). The standard is
  FIPS 202, written bit by bit: sections 3.2 to 3.4 for the permutation, 4 for the sponge, 5.1 for the padding, 6.1 and
  Appendix B for the hash of a byte string. The code's permutation leaves the lanes in other places after each round
  and brings them back after four; its absorb loop has a word path, a byte path and a byte-order mask. Words are
  sequences of 64 bits, least significant first, on which xor, rotation and the rest are defined.
- **sha3_query()** (`query_hash`). The stream it hashes, and a decoder for it.
- **CSV** (`csv`, `csv_streams`, `csv_round_trip`, `csv_rfc4180`). The writer, the reader as a state machine over `c`,
  `pc` and `ppc`, the row loop of `.import`, the round trip, every file in the format of RFC 4180, section 2, and what is
  read of streams with quotes out of place.
- **SQL literals** (`sql_quote`, `sql_round_trip`). The search for markers, the escaped literal, and SQL's evaluation
  of string literals, `replace()` and `char()`.
- **C strings** (`c_string`, `c_string_meaning`, `dot_command`). The printer of MODE_Tcl, the in-place unescaping, and the in-place
  tokenizer of dot-commands.
- **testcase_glob** (`glob`, `glob_meaning`). The matcher against a declarative relation: a text matches if it can be
  cut into one piece per token of the pattern; and what each kind of token matches, in bytes.
- **Keywords** (`keywords`, `keyword_tables`, `keyword_words`, `keyword_hash`). The shell's table of keywords, the hash
  that the tokenizer of the library looks them up in (`sqlite/sqlite-3.21/sqlite3.c`), and that the two agree.
- **Smaller stateful parts** (`pretty`, `pretty_meaning`, `completion`, `explain`, `shell_text`,
  `table_grid`): the schema formatter, the completion cursor, the EXPLAIN indentation, the growing text and identifier
  quoting, and the `.tables` grid.
- `chars`, `numbers`, `seqs` and `wrappers` hold what several of these share.

Where a comment and the code disagree, the model follows the code:

- The comment on sha3_query() (line 1378) calls the stored integers little-endian; they are stored most significant
  byte first.
- The comment on resolve_backslashes() (line 4329) lists `\s`; there is no branch for it, so it stands for `s`.
- testcase_glob() reads white space or `#` right after a run that begins with a star as that byte, and accepts no text
  without it. It also takes the longest run of digits or white space where the comment lets any run match. For patterns
  without brackets it keeps the rules of the comment exactly if neither shows (CodeIsRules); with brackets that is
  enough for it (CodeKeepsRules).
- The comment on the EXPLAIN indentation (lines 3402 to 3412) names four closing opcodes and the value one of P1; the
  code has seven, and takes any P1 but zero. When that shows is IndentedAsDocumented.
- The schema formatter keeps track of quotes and brackets, but no branch depends on it: commas and parentheses inside
  quotes count, and white space inside quotes and behind comments is squeezed. When a quoted literal stays as it is, is
  LiteralIsTidied and LiteralIsPrinted; when a line end does, LineEndIsKept.

Texts are over bytes; C strings have no NUL. Parameters stand for what the library returns: rows of statements, the
keyword table, whether a statement is a view or trigger, the alignment of a buffer and the byte order of the machine.

## Model
| member | source | states |
|---|---|---|
| Keccak.KeccakF1600Step | sqlite/sqlite-3.21/shell.c:893-1206 | Overwriting the 25 lanes in place, four unrolled rounds a turn, computes Keccak-f[1600] of FIPS 202 of every state: there are 25 states, the first the old array and the last the new one, each made of the one before by theta, rho, pi, chi and iota, defined bit by bit, with the 24 entries of RC[] in order |
| Keccak.UnrolledRound0 | sqlite/sqlite-3.21/shell.c:939-1005 | The first unrolled round turns an array that holds any state `a` with every lane at home into one that holds Rnd(a) with the lane of column x, plane y in row x+2y mod 5 |
| Keccak.UnrolledRound1 | sqlite/sqlite-3.21/shell.c:1006-1072 | The second takes the lane map x+2y to 3x+4y (mod 5) and applies one more round |
| Keccak.UnrolledRound2 | sqlite/sqlite-3.21/shell.c:1073-1139 | The third takes the lane map 3x+4y to 2x+3y (mod 5) and applies one more round |
| Keccak.UnrolledRound3 | sqlite/sqlite-3.21/shell.c:1140-1205 | The fourth applies one more round and brings every lane back home |
| Keccak.RowIterates | sqlite/sqlite-3.21/shell.c:938-1205 | The four lane maps are the powers of one permutation whose fourth power is the identity |
| Keccak.RowDiffer | sqlite/sqlite-3.21/shell.c:938-1205 | After any number of in-place rounds no two planes share an array cell |
| Keccak.RndIsRndLane | sqlite/sqlite-3.21/shell.c:939-1005 | Word-wide xor, rotate and and-not over five lanes compute the standard's five bitwise steps, for every lane and every bit |
| RoundConstants.TableIsGenerated | sqlite/sqlite-3.21/shell.c:896-910 | Every entry of RC[] is the constant that the shift register of Algorithms 5 and 6 of FIPS 202 produces for its round |
| Fips202.OffsetsFromWalk | sqlite/sqlite-3.21/shell.c:939-1205 | The rotation distances are those the walk of Algorithm 2 assigns: the triangular numbers modulo 64 along its lanes |
| Fips202.RoundsOfWidth | sqlite/sqlite-3.21/shell.c:938 | The rounds are as many as section 3.4 asks of lanes of 2^l bits: 12 + 2 l |
| Fips202.ThetaAdds | sqlite/sqlite-3.21/shell.c:939-954 | Theta makes a bit the parity of itself, the column to its left, and the column to its right one bit below |
| Fips202.RhoMoves | sqlite/sqlite-3.21/shell.c:950-1004 | Rho moves every bit of a lane up by the offset, around its end |
| Fips202.PiMoves | sqlite/sqlite-3.21/shell.c:950-1004 | Pi moves the lane at (x, y) to (y, 2x + 3y) |
| Fips202.ChiAdds | sqlite/sqlite-3.21/shell.c:955-960 | Chi adds the next but one bit of the row where the next is not set |
| Fips202.IotaAdds | sqlite/sqlite-3.21/shell.c:956 | Iota xors the constant into the first lane and changes nothing else |
| Sha3Engine.SHA3Context.Init | sqlite/sqlite-3.21/shell.c:1214-1238 | A fresh context has absorbed nothing, has the rate of the requested size and the byte mask of its build |
| Sha3Engine.SHA3Context.Update | sqlite/sqlite-3.21/shell.c:1243-1275 | On each of the three byte-order builds and for every alignment the lanes and the fill count are those of the byte-wise sponge after everything fed so far; the fill count stays below the rate |
| Sha3Engine.SHA3Context.TakeWord | sqlite/sqlite-3.21/shell.c:1251-1258 | One aligned eight-byte load has the effect of eight single bytes, with the permutation when the block is full |
| Sha3Engine.SHA3Context.TakeByte | sqlite/sqlite-3.21/shell.c:1261-1273 | One byte, stored through the byte mask, is absorbed at its place in the standard's bit order |
| Sha3Engine.SHA3Context.Final | sqlite/sqlite-3.21/shell.c:1282-1298 | The bytes behind the returned pointer are, in the standard's order, the state after the padding, on every build: the copy does not overlap itself and undoes the byte order |
| Sha3Engine.SHA3Context.Pad | sqlite/sqlite-3.21/shell.c:1284-1293 | The 0x86 case and the 0x06 .. 0x80 case, which skips the zero bytes, both leave the state padded as a whole byte string would |
| Sponge.PaddingAgrees | sqlite/sqlite-3.21/shell.c:1284-1293 | For every message length the padding bytes are the suffix 01 followed by pad10*1, and fill the last block |
| Sponge.FeedBlocks | sqlite/sqlite-3.21/shell.c:1243-1275 | Feeding bytes one at a time over whole blocks is the block-wise absorbing of section 4 of FIPS 202 |
| Sponge.FeedAllConcat | sqlite/sqlite-3.21/shell.c:1243-1275 | How the bytes are cut into calls makes no difference |
| Sha3Engine.FeedWord | sqlite/sqlite-3.21/shell.c:1251-1258 | Xoring one word at a word boundary equals absorbing its eight bytes, including the turn of the block |
| Sha3Engine.StandardRate | sqlite/sqlite-3.21/shell.c:1214-1219 | For the four sizes the rate is 1600 minus twice the size, is a whole number of bytes, and holds the digest |
| Sha3Engine.RateOfSize | sqlite/sqlite-3.21/shell.c:1214-1219 | For any other size too: twice the size taken up to a multiple of 32 bits is kept back, or 512 bits when it is out of range |
| Sponge.StateInBits | sqlite/sqlite-3.21/shell.c:1221-1275 | How the state string, the empty state and the xor of a block are laid out over the lanes, bit by bit |
| Sha3Engine.PaddedIsSha3 | sqlite/sqlite-3.21/shell.c:1282-1298 | The first SIZE/8 bytes of the padded state are SHA3-SIZE of section 6.1 of the message |
| Sha3Engine.HashPieces | sqlite/sqlite-3.21/shell.c:1214-1298 | SHA3Init, any sequence of SHA3Update calls at any alignment, SHA3Final and the SIZE/8 bytes its callers take yield SHA3-SIZE of the concatenated pieces |
| QueryHash.Sha3Query | sqlite/sqlite-3.21/shell.c:1390-1498 | The result is SHA3-SIZE of the stream of the whole trace; an unknown size, or the first statement that fails to prepare or is no query, is reported instead |
| QueryHash.HashStmt | sqlite/sqlite-3.21/shell.c:1435-1494 | One statement feeds its text and all its rows, in order, and nothing else |
| QueryHash.HashValue | sqlite/sqlite-3.21/shell.c:1444-1492 | Each column feeds its type tag and its value |
| QueryHash.StoreWord | sqlite/sqlite-3.21/shell.c:1449-1462 | Integers and floats go into the stream most significant byte first (the comment at line 1378 says otherwise) |
| QueryHash.ValueInCodes | sqlite/sqlite-3.21/shell.c:1444-1492 | The bytes of each value in numbers: the codes of N, I, F, T and B, the size in decimal and a colon, and eight bytes that make the number of the word from the most significant on |
| QueryHash.StatementInCodes | sqlite/sqlite-3.21/shell.c:1435-1442 | A statement is S, the size, a colon and the text; each row adds R and its values behind |
| QueryHash.HeaderFits | sqlite/sqlite-3.21/shell.c:1343-1356 | No size header is ever cut off by the 50-byte buffer |
| QueryHash.DecodeInverts | sqlite/sqlite-3.21/shell.c:1435-1494 | A decoder recovers statements, rows and typed values from the stream of every trace |
| QueryHash.TraceBytesInjective | sqlite/sqlite-3.21/shell.c:1435-1494 | Two results that feed the same bytes to the hash are the same result |
| Csv.OutputCsv | sqlite/sqlite-3.21/shell.c:2537-2566 | A term is written as NULL text, bare, or in doubled quotes, the last exactly if it is empty or has a byte that forces quotes, with the separator as asked |
| Csv.WrittenBare | sqlite/sqlite-3.21/shell.c:2512-2556 | A field is written as it stands exactly if it is not empty, all its bytes are from 33 to 126 and neither 34 nor 39, and it does not hold a separator of one byte, nor start with a longer one |
| Csv.ImportCtx.AppendChar | sqlite/sqlite-3.21/shell.c:4551-4561 | The accumulated text grows by the byte, inside the grown buffer, and nothing else of it changes |
| Csv.ImportCtx.ReadOne | sqlite/sqlite-3.21/shell.c:4576-4652 | For every byte stream the call returns the field, terminator, rest of the stream and line count of the reader's specification, with a NUL behind the field |
| Csv.ImportCtx.ReadQuoted | sqlite/sqlite-3.21/shell.c:4585-4621 | The quoted branch with `pc` and `ppc`, on every stream |
| Csv.ImportCtx.Unquote | sqlite/sqlite-3.21/shell.c:4600-4602 | The back-up loop never leaves the text and cuts it at its last quote |
| Csv.BackUpDrops | sqlite/sqlite-3.21/shell.c:4596-4602 | Whenever the field closes, exactly the closing quote is dropped, or the quote and the carriage return after it |
| Csv.ReadFieldTakes | sqlite/sqlite-3.21/shell.c:4576-4652 | Every call takes a front part of the stream, never nothing of a non-empty one, and its terminator is the last byte taken |
| CsvStreams.BareField | sqlite/sqlite-3.21/shell.c:4623-4648 | A field without an opening quote goes on to the first separator or the end of the file, whatever quotes are in it, less a carriage return before a row separator |
| CsvStreams.MarkIsSkipped | sqlite/sqlite-3.21/shell.c:4624-4637 | The three bytes of a byte order mark in front of everything are skipped, in numbers |
| CsvStreams.ClosedField | sqlite/sqlite-3.21/shell.c:4596-4604 | A quoted field ends at its closing quote before either separator, a carriage return and the row separator, or the end of the file |
| CsvStreams.UnclosedField | sqlite/sqlite-3.21/shell.c:4612-4618 | One that is never closed is all that is left of the file, its quotes undoubled |
| CsvStreams.StrayQuote | sqlite/sqlite-3.21/shell.c:4589-4620 | A quote that neither closes the field nor is doubled is read as if it were doubled, so these laws say what is read of every stream |
| Csv.LinesAreCounted | sqlite/sqlite-3.21/shell.c:4576-4652 | The line number grows by the row separators taken, for all streams, exactly if the row separator is neither the quote nor a byte that reads as the end of file |
| Csv.BindFields | sqlite/sqlite-3.21/shell.c:6007-6030 | The column loop binds the first fields of the record and NULL for the missing ones, whatever was bound before; for every separator with which a record ends |
| Csv.ReadRow | sqlite/sqlite-3.21/shell.c:6005-6046 | One pass of the row loop takes exactly one record of the stream and inserts nCol values, or nothing at the end: value i is the C string of field i, and NULL where the record has no field i or the end of the file in its place; for every stream and every separator with which a record ends (RecordsEnd) |
| Csv.ImportRows | sqlite/sqlite-3.21/shell.c:6005-6047 | The rows inserted are as many as the records of the stream and in their order; column i of row k is the C string of field i of record k, and NULL where record k has none, however ragged the file; for every stream and every separator with which the import ends (ImportEndsExactly) |
| Csv.CTextStops | sqlite/sqlite-3.21/shell.c:6023 | What is bound of a field ends before its first NUL |
| Csv.RecordIsCalls | sqlite/sqlite-3.21/shell.c:6030-6037 | A record is the calls of the reader up to the first that the separator does not end |
| Csv.RecordsEnd | sqlite/sqlite-3.21/shell.c:6030-6037 | Every record ends, on every stream, exactly if the separator byte does not read as the end of the file, as a signed 0xFF does |
| Csv.ImportEndsExactly | sqlite/sqlite-3.21/shell.c:6005-6047 | Exactly with such a separator the loops over a record read on for ever, and then they do on every stream; otherwise the import ends, on every stream |
| CsvRoundTrip.WriteTable | sqlite/sqlite-3.21/shell.c:2873-2889 | MODE_Csv writes the rows one after the other, their terms separated and the row separator at the end |
| CsvRoundTrip.TermsGrow | sqlite/sqlite-3.21/shell.c:2883-2885 | The separator stands between two terms of a row and nowhere else |
| CsvRoundTrip.FieldRead | sqlite/sqlite-3.21/shell.c:2537-2566 | A written field is read back, whichever separator follows it |
| CsvRoundTrip.TableRead | sqlite/sqlite-3.21/shell.c:4576-4652 | Reading a written table gives the same table and stops at the end of the file |
| CsvRoundTrip.RoundTrip | sqlite/sqlite-3.21/shell.c:2873-2889 | The writer and the reader of the code, one after the other, return the table |
| CsvRoundTrip.SeparatorsThatWork | sqlite/sqlite-3.21/shell.c:2537-2566 | For every byte but NUL as column separator and either row separator, every table of texts comes back exactly if the separator is an ASCII byte and neither the quote nor the line feed |
| CsvRoundTrip.SeparatorIsQuoted | sqlite/sqlite-3.21/shell.c:2545-2547 | Every field that holds the separator is written in quotes exactly if the separator is one byte long or has a byte that is always quoted |
| CsvRoundTrip.LongSeparatorsAreAmbiguous | sqlite/sqlite-3.21/shell.c:2545-2547 | With any longer separator none of whose bytes is always quoted, two different rows are written alike |
| CsvRfc4180.FormatIsRead | sqlite/sqlite-3.21/shell.c:4576-4652 | Every file in the format of RFC 4180, section 2, with any field in quotes, either line end per record and the last one optional, is read as its table, but for a bare byte order mark at its start and a bare empty field at its very end |
| CsvRfc4180.FormatIsReadExactly | sqlite/sqlite-3.21/shell.c:4576-4652 | Such a file is read as its table exactly if it neither starts with a bare mark nor ends with a bare empty field that no line end follows |
| CsvRfc4180.ImportFile | sqlite/sqlite-3.21/shell.c:6005-6047 | The import loop of the code inserts exactly those rows |
| SqlQuote.UnusedString | sqlite/sqlite-3.21/shell.c:2326-2338 | The search ends after at most one candidate more than the text has bytes, with the first absent string of the two given and (A0), (A1), ... for the first given, A; none is cut off by the buffer |
| SqlQuote.CandidatesApart | sqlite/sqlite-3.21/shell.c:2333-2336 | Two different candidates cannot occur at the same place |
| SqlQuote.Pigeonhole | sqlite/sqlite-3.21/shell.c:2333-2336 | More candidates than places cannot all occur |
| SqlQuote.CandidateFits | sqlite/sqlite-3.21/shell.c:2334-2335 | Every candidate fits the 20-byte buffer |
| SqlQuote.OutputQuotedEscaped | sqlite/sqlite-3.21/shell.c:2384-2440 | The text printed is the nested replace() calls around the escaped literal, with the first unused markers of the backslash forms, and carries no line ends |
| SqlQuote.CharInLiteral | sqlite/sqlite-3.21/shell.c:2414-2430 | Every character of the text in turn: a quote is doubled, bytes 10 and 13 give way to their markers, all others stand |
| SqlQuote.LineEndsInText | sqlite/sqlite-3.21/shell.c:2401-2438 | What stands around the literal for each kind of line end that the text has |
| SqlRoundTrip.OverlapClashes | sqlite/sqlite-3.21/shell.c:2401-2408 | Two markers disagree wherever they are laid over each other |
| SqlRoundTrip.MarkersApart | sqlite/sqlite-3.21/shell.c:2401-2408 | A newline marker and a carriage-return marker never overlap themselves or each other |
| SqlRoundTrip.ReplaceRestores | sqlite/sqlite-3.21/shell.c:2431-2436 | Leftmost non-overlapping replacement turns every inserted marker back and touches nothing else: no occurrence straddles an inserted marker |
| SqlRoundTrip.EscapedEvaluates | sqlite/sqlite-3.21/shell.c:2384-2440 | Evaluating what is printed gives exactly the original value |
| SqlRoundTrip.RoundTrip | sqlite/sqlite-3.21/shell.c:2384-2440 | The writer followed by the evaluation of SQL returns every text, on one line |
| CString.OutputCString | sqlite/sqlite-3.21/shell.c:2445-2471 | The quoted text with each byte escaped as a C string literal |
| CStringMeaning.ByteIsPrinted | sqlite/sqlite-3.21/shell.c:2447-2468 | Which byte is printed how, in codes: as itself, behind a backslash, as one of three letters, or as the three octal digits of its value |
| CStringMeaning.TextIsPrinted | sqlite/sqlite-3.21/shell.c:2445-2471 | A text is printed unchanged between the quotes exactly if all its bytes are from 32 to 126 and neither the quote nor the backslash |
| CString.ResolveEscape | sqlite/sqlite-3.21/shell.c:4335-4377 | Undoing the escape of one byte restores it whatever follows; three octal digits never take in a fourth |
| CString.ResolveEscapes | sqlite/sqlite-3.21/shell.c:4335-4377 | Undoing the escapes of a text gives the text |
| CString.ResolvedAsDocumented | sqlite/sqlite-3.21/shell.c:4318-4334 | A text is resolved as the comment says exactly if none of its escapes is the documented one for a space |
| CStringMeaning.NamedEscape | sqlite/sqlite-3.21/shell.c:4341-4360 | The named escapes by the codes of their letters; any other byte that is no octal digit stands for itself |
| CStringMeaning.OctalEscape | sqlite/sqlite-3.21/shell.c:4362-4371 | One to three octal digits stand for the low eight bits of their value |
| CString.QuotedEndEscapes | sqlite/sqlite-3.21/shell.c:5444-5447 | The scan for the closing quote passes over every escape and stops at the quote that was printed |
| CString.FirstArgOfQuoted | sqlite/sqlite-3.21/shell.c:5441-5455 | A printed text is taken as one argument and is that text |
| CString.TclRowTokens | sqlite/sqlite-3.21/shell.c:5437-5457 | A row printed by MODE_Tcl and parsed as a dot-command gives its values, up to the 50 entries of the argument array, whatever white space separates them |
| CStringMeaning.WordToken | sqlite/sqlite-3.21/shell.c:5451-5456 | An argument without quotes is the longest run of bytes that are no white space, escapes resolved; there are fifty at most |
| CStringMeaning.SingleQuotedToken | sqlite/sqlite-3.21/shell.c:5441-5450 | One in single quotes goes to the next of them or the end of the line and stays as it is |
| CStringMeaning.UnclosedToken | sqlite/sqlite-3.21/shell.c:5441-5450 | One in double quotes that is not closed is the rest of the line, escapes resolved |
| CString.WriteTclRow | sqlite/sqlite-3.21/shell.c:2857-2872 | The row as MODE_Tcl prints it |
| CString.TclRowGrows | sqlite/sqlite-3.21/shell.c:2866-2870 | The separator stands between two values, the row separator behind the last |
| DotCommand.ResolveBackslashes | sqlite/sqlite-3.21/shell.c:4335-4377 | In place, the string becomes its resolved form followed by NUL, and no byte outside it changes; the write index never passes the read index |
| DotCommand.DecodeAt | sqlite/sqlite-3.21/shell.c:4339-4371 | One escape: the byte it stands for and how far it reaches |
| DotCommand.TakeQuoted | sqlite/sqlite-3.21/shell.c:5441-5450 | A quoted argument is cut off, resolved if in double quotes, in place, without touching what lies before or behind |
| DotCommand.TakeWord | sqlite/sqlite-3.21/shell.c:5451-5456 | The same for an unquoted one |
| DotCommand.Tokenize | sqlite/sqlite-3.21/shell.c:5437-5457 | The strings in azArg[] are the tokens of the line, and stay so while later arguments are rewritten |
| DotCommand.RoundTrip | sqlite/sqlite-3.21/shell.c:2857-2872 | Printing a row in MODE_Tcl and parsing it in place leaves the row's values in the argument strings |
| Glob.TestcaseGlob | sqlite/sqlite-3.21/shell.c:5070-5142 | The backtracking matcher, from any place of pattern and text, accepts exactly what the pattern's tokens match; it terminates |
| Glob.GlobMatches | sqlite/sqlite-3.21/shell.c:5070-5142 | A text is accepted exactly if it can be cut into one longest piece per token and a blank rest; where the stars are plain, only texts that the documented rules allow, and all of them if no tokens clash |
| Glob.TakeRun | sqlite/sqlite-3.21/shell.c:5082-5085 | Collapsing a run of stars and question marks loses no match |
| Glob.Seek | sqlite/sqlite-3.21/shell.c:5086-5100 | Skipping ahead to the next literal byte loses no match |
| Glob.SeekBracket | sqlite/sqlite-3.21/shell.c:5088-5092 | Nor does trying a bracket at every position |
| Glob.MatchBracket | sqlite/sqlite-3.21/shell.c:5103-5131 | A bracket accepts a byte exactly if one of its items has it, or none when inverted; an unclosed one accepts nothing |
| GlobMeaning.RangeMatches | sqlite/sqlite-3.21/shell.c:5103-5131 | A range matches its first byte and those from it up to the last, if that is ASCII; inverted, all others |
| GlobMeaning.ListMatches | sqlite/sqlite-3.21/shell.c:5103-5131 | A bracket of bytes, in which a hyphen can only come first, matches those in it; inverted, all others |
| GlobMeaning.BracketMatches | sqlite/sqlite-3.21/shell.c:5103-5131 | Any bracket of single bytes and ranges, with a caret or not, with a closing bracket in front or not, matches one byte of a part, or of none |
| Glob.TakeSpan | sqlite/sqlite-3.21/shell.c:5077-5080 | White space in the pattern takes a longest span of white space in the text |
| Glob.TakeNumber | sqlite/sqlite-3.21/shell.c:5132-5136 | `#` takes a longest run of digits and a sign in front |
| GlobMeaning.NumberMatches | sqlite/sqlite-3.21/shell.c:5132-5136 | `#` by itself matches at most one sign, then at least one digit, then white space |
| GlobMeaning.SpaceMatches | sqlite/sqlite-3.21/shell.c:5077-5080 | White space by itself matches any white space but none at all |
| GlobMeaning.ByteMatches | sqlite/sqlite-3.21/shell.c:5137-5139 | Any other byte matches itself, and white space may follow |
| GlobMeaning.AnyMatches | sqlite/sqlite-3.21/shell.c:5081-5102 | A question mark matches any one byte, a star anything |
| Glob.MatchIsCuts | sqlite/sqlite-3.21/shell.c:5070-5142 | Matching from left to right is the existence of a cut into longest pieces |
| Glob.QuirkShows | sqlite/sqlite-3.21/shell.c:5092-5098 | The code makes the documented tokens of a pattern exactly if no run that begins with a star comes right before white space or `#`; only those patterns have plain stars |
| Glob.QuirkRefuses | sqlite/sqlite-3.21/shell.c:5092-5098 | For any other pattern there is a byte, white space or `#`, without which the code accepts no text |
| Glob.CodeKeepsRules | sqlite/sqlite-3.21/shell.c:5047-5069 | For patterns with plain stars the code accepts only what the rules of the comment allow, and all of it if no number or span is followed, over any stars, by a token that could take one of its bytes |
| Glob.CodeIsRules | sqlite/sqlite-3.21/shell.c:5047-5069 | For a pattern without brackets the code accepts the texts that the rules of the comment allow exactly if its stars are plain and no tokens clash |
| Glob.ClashIsReal | sqlite/sqlite-3.21/shell.c:5132-5136 | The rules allow `15` for the pattern `#*5` and two blanks for a blank and a question mark; the code, which takes the longest run, refuses both |
| Glob.QuirkIsReal | sqlite/sqlite-3.21/shell.c:5054-5061 | With the pattern `*#` the text `5` is refused and the text `#` accepted, both against the documented rules |
| Glob.SpaceQuirkIsReal | sqlite/sqlite-3.21/shell.c:5054-5061 | With a star and a blank a tab is refused, against the documented rules |
| Glob.HiddenQuirk | sqlite/sqlite-3.21/shell.c:5092-5098 | A pattern that ends in an unclosed bracket matches nothing either way, though its stars are not plain |
| Pretty.Squeeze | sqlite/sqlite-3.21/shell.c:2771-2785 | The first in-place pass leaves the tidied text, behind the read position all the way, and never looks before the buffer |
| Pretty.TidiedKeeps | sqlite/sqlite-3.21/shell.c:2771-2785 | Tidying keeps every byte that is not white space, in order, and leaves none at the ends, doubled, inside parentheses or before one |
| Pretty.TidyIsFixed | sqlite/sqlite-3.21/shell.c:2771-2785 | A text is left alone exactly if it is tidy already; tidying twice is tidying once |
| Pretty.BreakLines | sqlite/sqlite-3.21/shell.c:2786-2813 | The second in-place pass prints the lines of the layout, for every text; the open quote it keeps track of changes nothing |
| Pretty.PrintSchemaLineN | sqlite/sqlite-3.21/shell.c:2640-2645 | Prints the first n bytes and puts back the byte that made way for the terminator |
| Pretty.LayoutKeeps | sqlite/sqlite-3.21/shell.c:2786-2813 | Breaking into lines keeps every byte that is not white space, in order |
| Pretty.LayoutBreaks | sqlite/sqlite-3.21/shell.c:2786-2813 | Lines are the layout of a tidied text exactly if each goes on to the first place where a line is broken: behind an opening parenthesis, comma or line feed at depth one, with the white space behind it dropped, or, once a line was broken off, before the parenthesis that closes the last open one |
| PrettyMeaning.FirstLine | sqlite/sqlite-3.21/shell.c:2788-2812 | The first line and what is printed behind it, by the count of parentheses in it, in bytes |
| Pretty.SchemaIsKept | sqlite/sqlite-3.21/shell.c:2756-2816 | What is printed for a schema statement is its text up to white space and the final semicolon exactly if no line is rewritten to IF NOT EXISTS; each rewritten line adds eleven bytes |
| Pretty.RewrittenStatement | sqlite/sqlite-3.21/shell.c:2634-2639 | A short statement that creates a table is printed with IF NOT EXISTS exactly if its name starts with a single or double quote, and otherwise as it stands |
| Pretty.LineAsItStands | sqlite/sqlite-3.21/shell.c:2633-2639 | Any line is printed as it stands exactly if it is not CREATE TABLE and a single or double quote; a bracket is none |
| Pretty.RewriteIsReal | sqlite/sqlite-3.21/shell.c:2634-2639 | A statement whose printed form has more than its text |
| PrettyMeaning.GapsAreAlike | sqlite/sqlite-3.21/shell.c:2774-2782 | Of white space only the first byte counts, and whether a carriage return stands alone, in every surrounding, quotes and comments included |
| PrettyMeaning.SpaceBetween | sqlite/sqlite-3.21/shell.c:2774-2782 | What is left of white space between any two bytes, by its first byte and the two |
| PrettyMeaning.SpaceAtEnds | sqlite/sqlite-3.21/shell.c:2773-2784 | At the ends of a statement none is left, and a text without any stays |
| PrettyMeaning.BlanksAreSqueezed | sqlite/sqlite-3.21/shell.c:2774-2782 | Two blanks are printed as one, and a line feed behind a blank is lost, wherever they stand |
| PrettyMeaning.LiteralIsTidied | sqlite/sqlite-3.21/shell.c:2774-2785 | A quoted literal is tidied on its own whatever stands around it, and kept exactly if it is tidy with its quotes |
| PrettyMeaning.LiteralIsPrinted | sqlite/sqlite-3.21/shell.c:2756-2816 | A literal that is tidy with its quotes is printed as it stands: in a short statement always, in a long one on the line on which it begins exactly if none of its bytes is a comma, line feed or opening parenthesis at depth one, or a closing one that ends the last |
| PrettyMeaning.TidiedWords | sqlite/sqlite-3.21/shell.c:2774-2785 | Tidying keeps the words of every text, which without quotes and comments bound the tokens of SQL |
| PrettyMeaning.WordsAreKept | sqlite/sqlite-3.21/shell.c:2756-2816 | What is printed for a schema statement has its words and the final semicolon exactly if no line is rewritten |
| PrettyMeaning.LineEndIsKept | sqlite/sqlite-3.21/shell.c:2774-2782 | Of the white space between two bytes a line end, which is what ends a comment, is kept exactly if it comes first, or right behind a carriage return, and no parenthesis drops it |
| PrettyMeaning.LiteralsAreSqueezed | sqlite/sqlite-3.21/shell.c:2774-2782 | A schema whose quoted literal is printed changed |
| Pretty.PrettyRow | sqlite/sqlite-3.21/shell.c:2756-2816 | The two passes together print the statement's lines; views and triggers are printed as they are |
| Completion.Cursor.Next | sqlite/sqlite-3.21/shell.c:1850-1950 | The cursor moves to the next row that has the prefix, over all phases, or to the end; the rowid grows by one |
| Completion.Cursor.Advance | sqlite/sqlite-3.21/shell.c:1856-1943 | Each turn of the loop looks at one more row or goes on to a later phase, so it ends |
| Completion.Cursor.Filter | sqlite/sqlite-3.21/shell.c:1997-2048 | Rewinding takes the prefix given, or the longest run of word bytes at the end of the line, and stands on the first row wanted |
| Completion.LastWordInCodes | sqlite/sqlite-3.21/shell.c:2033-2042 | The prefix taken of a line is its last letters, digits and underscores, in codes |
| Completion.Scan | sqlite/sqlite-3.21/shell.c:1850-2048 | A whole scan yields exactly the rows of keywords, databases, tables and columns that have the prefix, with rowids 1, 2, 3, ... |
| Completion.WantedInOrder | sqlite/sqlite-3.21/shell.c:1945-1948 | They are those with the prefix, each as often and in the same order |
| Chars.PrefixInCodes | sqlite/sqlite-3.21/shell.c:1945-1948 | A row has the prefix exactly if each of its bytes is the same or the other case of the same letter |
| Explain.ShellState.ExplainDataPrepare | sqlite/sqlite-3.21/shell.c:3415-3490 | Every opcode's indentation is twice the number of loops around it that end later, across sub-program addresses and growth of the array; any other statement goes back to the permanent mode |
| Explain.IndentOp | sqlite/sqlite-3.21/shell.c:3442-3487 | One row of the listing keeps the closed form for all rows so far |
| Explain.StartsExplain | sqlite/sqlite-3.21/shell.c:3434-3440 | The text starts with the word explain after blanks, in any case |
| Explain.StartInCodes | sqlite/sqlite-3.21/shell.c:3434-3440 | Which blanks and letters, in codes |
| Explain.IndentsInWords | sqlite/sqlite-3.21/shell.c:3423-3427 | Which opcodes end a loop, and which ones a Goto with P1 zero must point to, in words |
| Explain.LoopsInWords | sqlite/sqlite-3.21/shell.c:3442-3487 | A loop holds the opcodes from its target up to the one before it |
| Explain.BodyIsDeeper | sqlite/sqlite-3.21/shell.c:3402-3413 | Where loops nest, what a loop holds is indented more than the opcode that ends it |
| Explain.IndentedAsDocumented | sqlite/sqlite-3.21/shell.c:3402-3413 | Every opcode is indented as the comment says exactly if what the code takes for the end of a loop and the comment does not has nothing before it in its loop |
| Explain.SorterIsIndented | sqlite/sqlite-3.21/shell.c:3423-3425 | A listing with a sorter is indented by the code and not by the comment |
| ShellText.ShellText.Append | sqlite/sqlite-3.21/shell.c:661-698 | The text grows by the piece, raw or in doubled quotes, stays terminated and inside the buffer |
| ShellText.AppendAll | sqlite/sqlite-3.21/shell.c:661-698 | Any number of pieces: the text is their concatenation |
| ShellText.UnquoteDoubled | sqlite/sqlite-3.21/shell.c:683-691 | Reading a quoted piece back gives the original and stops behind its quote |
| ShellText.QuoteChar | sqlite/sqlite-3.21/shell.c:708-748 | The binary search over any sorted table says that a name needs quotes exactly if it is no bare word or is in the table in any case |
| ShellText.WordInCodes | sqlite/sqlite-3.21/shell.c:734-737 | What a bare word is, in codes |
| ShellText.WordsInCodes | sqlite/sqlite-3.21/shell.c:741-742 | Two words are the same exactly if each byte is the same or the other case of the same letter |
| Keywords.TableIsSorted | sqlite/sqlite-3.21/shell.c:710-733 | The table of 124 words is sorted, as the search needs |
| Keywords.QuoteName | sqlite/sqlite-3.21/shell.c:708-748 | On that table a name needs quotes exactly if it is no bare word or is one of the 124 in any case |
| KeywordHash.KeywordCode | sqlite/sqlite-3.21/shell.c:700-733 | Lines 140969 to 141114 of sqlite3.c: for every text the hash, the chains and the overlapping keyword text find the keyword that it spells, in any case, and nothing for any other |
| KeywordHash.AllFound | sqlite/sqlite-3.21/shell.c:700-733 | Lines 140850 to 140939 of sqlite3.c: the chain of the hash value of every spelling of each of the 124 keywords comes to that keyword |
| KeywordHash.ReservedIsKeyword | sqlite/sqlite-3.21/shell.c:710-733 | A word is in the table of the shell exactly if it spells a keyword in the tables of the library |
| KeywordHash.NameAgainstLibrary | sqlite/sqlite-3.21/shell.c:708-748 | The shell leaves a name bare exactly if it is a word and the hash of the library finds no keyword |
| KeywordHash.NamesAreRead | sqlite/sqlite-3.21/shell.c:700-707 | Whatever words a parser takes for names, it reads all names of the shell back exactly if it takes every word that is no keyword of the library |
| ShellText.NameRead | sqlite/sqlite-3.21/shell.c:708-748 | A parser that reads quoted tokens and some words as names reads a name back as it is written exactly if the name is quoted or is such a word |
| ShellText.TableMustCover | sqlite/sqlite-3.21/shell.c:700-707 | All names are read back exactly if the table holds every word that the parser does not take for a name; it may hold more |
| TableGrid.PrintGrid | sqlite/sqlite-3.21/shell.c:7231-7251 | Every name is printed once, column by column, on as few lines as the columns allow; no line is longer than 78 bytes when a name and its gap fit into 80, and otherwise each line has one name |
| TableGrid.FewestRows | sqlite/sqlite-3.21/shell.c:7239-7242 | No fewer lines hold the names in that many columns |
| TableGrid.ColumnsFit | sqlite/sqlite-3.21/shell.c:7239-7240 | The columns are as many as fit into 80 bytes with the longest name and two blanks each, and one at least |
| TableGrid.LongestIsName | sqlite/sqlite-3.21/shell.c:7235-7238 | The longest name is one of the names |
| TableGrid.PrintLine | sqlite/sqlite-3.21/shell.c:7243-7249 | A line holds exactly its row of the grid |
| TableGrid.CellInLine | sqlite/sqlite-3.21/shell.c:7243-7248 | Column c of a line starts at byte c * (longest + 2) with its name, and blanks follow up to the next |
| TableGrid.OnePlace | sqlite/sqlite-3.21/shell.c:7243-7249 | No two places hold the same name |

## Left out
- Files, pipes, terminal, signals, prompts, timers: input is a byte sequence, output a sequence that grows, and no interrupt arrives.
- The SQLite library: statements are lists of rows; string literals, `replace()` and `char()` are the only SQL evaluated, and the classes of `sqlite3_strglob` and `sqlite3_strlike` used on schemas are a prefix test and a parameter.
- Allocation failure: the out-of-memory exits are not modelled.
- Header rows of MODE_Csv and MODE_Tcl, and NULL values in MODE_Tcl: they print further terms in the same way.
- CsvRoundTrip.RoundTrip: NULL fields are not part of it, since the text printed for NULL is read back as that text; rows have at least one column.
- Multi-byte column separators: `.import` accepts one byte only, so there is no round trip to state; what the writer does with them is SeparatorIsQuoted and LongSeparatorsAreAmbiguous.
- Csv.ImportRows: with a separator byte that reads as the end of the file the loop of the code does not end (ImportEndsExactly), so the methods ReadRow, BindFields and ImportRows are for the other separators.
- Csv.BindFields: the same separator byte.
- Csv.ReadRow: the same separator byte.
- CsvRfc4180.FormatIsRead: quotes inside bare fields, which the format does not have; BareField says what is read of them.
- The warnings of the CSV reader and of `.import`, the transaction around the import, and the creation of a missing table: no value read or inserted depends on them.
- ASCII mode import: a second, simpler reader.
- SqlQuote.UnusedString: the text is shorter than 2^32 - 1 bytes, which every C string of the library is.
- Lengths passed to SHA3Update stay below 2^32, where the code's unsigned counters do not wrap.
- QueryHash.Sha3Query: empty statements at the end of a script, on which the library returns no statement, are not modelled; nor is a NULL script.
- The column count of `sha3_query` rows: a row is the list of its values.
- MODE_Insert and MODE_Quote beyond the escaped literal: numbers and blobs are printed by the library.
- Glob.TestcaseGlob: the pattern and text have no NUL inside, where the C strings would end.
- Pretty.PrettyRow: a NULL schema, for which nothing is printed.
- Completion.Cursor.Filter: a prefix with a NUL inside; the byte count and the string of the prefix are one value.
- Explain.ShellState.ExplainDataPrepare: jumps of loops and gotos must not point before the listing; the code does not check this and compiled programs do not do it.
- KeywordHash.NamesAreRead: which keywords the grammar of SQLite takes for names as well is a parameter.
- Completion.Scan: the keywords are a parameter; the table holds the words of the module Keywords.
- Glob.CodeKeepsRules: for patterns with brackets the condition is sufficient; whether it is necessary depends on what the brackets can match.
- PrettyMeaning.WordsAreKept: the tokens of SQL inside quotes and comments, of which LiteralIsPrinted and LineEndIsKept say what is kept.
- CsvRoundTrip.SeparatorsThatWork: `char` is signed, as on the machines the shell is built for; the separators reach the reader through it.
- The rest of do_meta_command(), main(), `.clone`, `.dump`, statistics and the test drivers of the repository: plumbing around the parts above.
