# A model of MyParser (parser.py)

parser.py is a small recognizer for boolean statements. It uses a plex scanner
and a recursive-descent parser with one token of lookahead. `create_scanner`
hands the scanner an ordered lexicon of (pattern, kind) entries:

- booleans `true`/`t`/`1` and `false`/`f`/`0`, in any letter case;
- `=`, and the keywords `not`, `and`, `or`;
- names (a letter followed by letters and digits);
- ignored whitespace.

`parse` then reads the first lookahead and calls `session`. The procedures
`session`, `equalSign`, `identifier` and `logical` compare the lookahead kind
`la` against fixed strings. They consume it with `match`, which reads the next
token, and call one another. The first `ParseError` or scanner error ends
the parse.

The model has four modules.

- `Lexicon` (lexicon.dfy) holds the entries, the patterns and the scanner's reading discipline.
  - The tie-break rule is stated as an explicit assumption, `LongestFirst`: the longest text any entry matches, then the earliest entry matching it.
  - `ScanOne` and `Read` implement this rule by character class. They are proved to agree with it.
  - `Read` models `read()`. It ends with `Exhausted` at end of input, where plex returns a `None` kind. It ends with `Unrecognized` where plex raises its scanner error.
  - `Tokenize` is the whole stream `read()` would deliver from an offset.
- `Recognition` (recognition.dfy) gives the outcome of each procedure (`Ok`, `ParseError(msg)` or `ScanError(at)`) as a function of the stream of kinds it will meet.
- `Parser` (parser.dfy) is the class `MyParser`. Its fields are the input text, the scanner offset and `la`/`val`.
  - Each procedure is a method that changes these fields, exactly as the Python methods do.
  - Each is proved to return the outcome `Recognition` prescribes.
  - `identifier` and `logical` are mutually recursive. Their recursion terminates on `Pending()`, the characters and lookahead still to be consumed.
  - Scanning is lazy, as in plex. A scanner error is met only when `match` reads that far.
- `Scenarios` (scenarios.dfy) works out the outcome for sample inputs.

The headline fact: no input is accepted. `equalSign` waits for the kind
`"equalSign"` and `session` for the kind `"print"`. The lexicon returns
`"Got an EQUAL_SIGN"` for `=` and `"Identifier"` for `print`, so neither
kind ever arrives. Every parse ends in a `ParseError` or a scanner error
(`Recognition.NoInputAccepted`, `Parser.MyParser.Parse`).

The grammar in the module docstring (parser.py:1-35) describes statement
lists, parentheses and operator precedence, and says that `x = true`,
`print (a and b)` and the empty input are accepted. None of that is what the
methods do. The model follows the code:

- `x = true` fails with "Expected '=' " (`Scenarios.AssignmentRejected`);
- `print (a and b)` is a scanner error at the `(` (`Scenarios.PrintThenParenthesis`);
- the empty input fails with "Expected identifier or print keyword" (`Scenarios.EmptyRejected`).

## Model

| member | source | states |
|---|---|---|
| Lexicon.Lower | parser.py:70-71 | NoCase's case folding keeps the length of the text |
| Lexicon.LowerFolds | parser.py:70-71 | folding is idempotent, keeps letters letters and leaves every other character as it is |
| Lexicon.Matches | parser.py:59-71 | whether one of the eight patterns matches a whole text (the constant `Rules` pairs them with their kinds, or with IGNORE, in the order of parser.py:73-82); no pattern matches the empty text |
| Lexicon.LongestFirst | parser.py:73-82 | the assumed tie-break: entry r matches the n characters at i, nothing matches a longer text there, and no earlier entry matches those n characters; such a choice exists only where some entry matches |
| Lexicon.MatchShape | parser.py:59-71 | a text matched by an entry is non-empty; it starts with whitespace exactly for the whitespace entry, which matches only whitespace; any other entry matches "=", "1", "0" or a letter followed by letters and digits |
| Lexicon.LongestLength | parser.py:59-82 | the length of the longest text the lexicon can match at an offset never runs past the input |
| Lexicon.WordRule | parser.py:70-80 | a word gets a boolean entry, a keyword entry or the name entry, all of which return a kind, never the "=" entry |
| Lexicon.RuleAt | parser.py:73-82 | the entry chosen is the ignored whitespace entry exactly when the text starts with whitespace |
| Lexicon.WordRuleAgrees | parser.py:73-80 | the entry WordRule picks matches the word and no earlier entry does: booleans in any case before keywords, keywords before names |
| Lexicon.RuleAtAgrees | parser.py:73-82 | the entry RuleAt picks matches the longest text at the offset and no earlier entry matches that text |
| Lexicon.ScanOne | parser.py:73-86 | one scanner step is AtEnd exactly at the end of input; a lexeme names an entry of the table and a length within the remaining input |
| Lexicon.ScanOneAgrees | parser.py:73-86 | ScanOne picks the one (entry, length) pair that the longest-match-then-first-entry rule allows, and reports NoMatch exactly when no entry matches any text at the offset |
| Lexicon.Read | parser.py:92-95 | read() emits a kind of the lexicon and moves forward, or reports end of input at the end, or fails at an offset inside the input |
| Lexicon.ScanAtSpace | parser.py:63 | at whitespace the ignored entry takes the whole whitespace run |
| Lexicon.ReadIgnored | parser.py:81 | text taken by the ignored entry yields no token: read() goes on after it |
| Lexicon.SkipSpace | parser.py:63-81 | read() from an offset is read() from the end of the whitespace run there |
| Lexicon.ReadAtToken | parser.py:73-95 | at a non-space offset read() reports exactly the entry and length ScanOne chose, and that entry returns a kind |
| Lexicon.ReadAgrees | parser.py:73-95 | read() skips whitespace, then reports end of input exactly at the end, fails exactly where no entry matches, and otherwise emits the kind and text the tie-break rule chooses |
| Lexicon.TokenText | parser.py:59-71 | the text taken at a non-space offset holds no whitespace and only characters of the lexicon's alphabet |
| Lexicon.ReadShape | parser.py:73-95 | a token's text is the input right after the skipped whitespace, without whitespace; a failure is reported at the first non-space offset |
| Lexicon.Tokenize | parser.py:86-95 | every kind in the stream read() delivers is a lexicon kind; a failure offset lies in the input |
| Lexicon.TextsCoverInput | parser.py:73-82 | up to where scanning stops, the token texts in order spell the input with its whitespace removed |
| Lexicon.ForeignCharStops | parser.py:73-82 | a character outside the lexicon's alphabet, such as "(", ")" or "@", is never read past: scanning fails at or before it, where no entry matches |
| Lexicon.OnlySpaces | parser.py:63 | input of whitespace only gives no token and ends normally |
| Lexicon.LoneWord | parser.py:62-80 | a lone word is one token with the word as its text; its kind is TRUE or FALSE exactly for the boolean words in any case, NOT/AND/OR exactly for the keywords in exact case, and Identifier exactly otherwise |
| Lexicon.BooleanLiterals | parser.py:70-75 | true, t, 1 in any case are one "Got a TRUE" token; false, f, 0 in any case one "Got a FALSE" token |
| Lexicon.LoneEqualSign | parser.py:68 | "=" is one "Got an EQUAL_SIGN" token |
| Lexicon.Keywords | parser.py:65-79 | not, and, or are one token each of their own kind |
| Lexicon.NotReserved | parser.py:65-80 | "NOT" and "print" are Identifiers: keywords are case-sensitive and print is no keyword |
| Lexicon.LongerWords | parser.py:62-80 | "true1" and "nota" are Identifiers: the longest match wins over the earlier entry |
| Recognition.StreamStep | parser.py:92-95 | one read() moves the stream of kinds on by the kind it emits, or ends it normally or with the scanner error |
| Recognition.ChainOutcome | parser.py:138-157 | identifier and logical never return normally: they raise "Expected identifier or boolean" or "Expected not, and, or", or the scanner error that ends the stream |
| Recognition.EqualSignOutcome | parser.py:159-165 | equalSign never returns normally: it raises "Expected '=' " or one of the chain's messages, or the scanner error that ends the stream |
| Recognition.SessionOutcome | parser.py:125-136 | session returns normally only on a "print" lookahead; otherwise it raises one of the four messages of the procedures, or the scanner error that ends the stream |
| Recognition.ParseOutcome | parser.py:115-122 | parse is session over the kinds of the whole input; a scanner error lies inside the input |
| Recognition.FirstBreak | parser.py:138-157 | the first position where operands and operators stop alternating: every kind before it fits its place and the kind there does not |
| Recognition.ChainStep | parser.py:138-157 | consuming a kind that fits hands the rest of the stream from identifier to logical and back |
| Recognition.ChainAlwaysFails | parser.py:138-157 | identifier and logical never return normally; at the end of input they fail with the message of the procedure waiting there, and they fail exactly at the first misplaced kind with its procedure's message |
| Recognition.SessionOkOnlyOnPrint | parser.py:125-165 | session returns normally exactly when the lookahead is "print" and the token after it can be read |
| Recognition.LexedKindsNeverWanted | parser.py:131-160 | no kind the lexicon produces is "equalSign" or "print" |
| Recognition.NoInputAccepted | parser.py:115-165 | parse ends in a ParseError or a scanner error on every input |
| Recognition.ParseOutcomeExact | parser.py:115-165 | parse fails with "Expected identifier or print keyword" unless the first token is an Identifier, and otherwise with "Expected '=' " on whatever follows; a scanner error counts only where the parser reaches it |
| Parser.Show | parser.py:112 | how la and t print in match's message: EOF prints as "None", so "None" can come from EOF or from a kind named "None" and nothing else |
| Parser.MyParser.NextToken | parser.py:92-95 | next_token returns the scanner's read() and moves the scanner offset past what it read |
| Parser.MyParser.CreateScanner | parser.py:54-89 | create_scanner starts scanning the text and loads the first lookahead, so the kinds ahead are those of the whole input; val holds the first token's text, or "" at end of input; a scanner error on the first token is raised |
| Parser.MyParser.Match | parser.py:105-112 | match(t) raises "found {la} instead of {t}" and changes nothing when la differs from t; otherwise it consumes exactly one token, loads the next into la/val, and strictly shrinks what is left to consume |
| Parser.MyParser.Session | parser.py:125-136 | session returns the outcome SessionOutcome prescribes for the kinds ahead; when it returns normally (the "print" branch) it has consumed exactly the lookahead, so the kinds ahead are the old ones without their first |
| Parser.MyParser.Logical | parser.py:138-144 | logical returns the outcome of the operator-first chain over the kinds ahead |
| Parser.MyParser.Identifier | parser.py:147-157 | identifier returns the outcome of the operand-first chain over the kinds ahead |
| Parser.MyParser.EqualSign | parser.py:159-165 | equalSign returns the outcome EqualSignOutcome prescribes for the kinds ahead |
| Parser.MyParser.Parse | parser.py:115-122 | parse returns the outcome ParseOutcome gives for the text, and that outcome is never normal return |
| Scenarios.AssignmentRejected | parser.py:159-165 | every input starting "x = " fails with "Expected '=' ", whatever follows |
| Scenarios.LoneIdentifier | parser.py:159-165 | "x" alone fails with "Expected '=' " at the end of input |
| Scenarios.PrintThenParenthesis | parser.py:125-136 | "print (a and b)" is a scanner error at offset 6, the "(" |
| Scenarios.EmptyRejected | parser.py:125-136 | the empty input fails with "Expected identifier or print keyword" |
| Scenarios.StrayCharacter | parser.py:73-82 | "@" is a scanner error at offset 0 |

## Left out

- The plex library (`Scanner`, `Lexicon`, `Range`, `Rep`, `Rep1`, `Any`, `Str`, `NoCase`, `read`) is not part of this model. Its longest-match-then-first-entry rule is taken as the assumption `Lexicon.LongestFirst`. Its behaviour after end of input and on failure is also assumed: `read()` keeps returning a `None` kind at the end, and the error offset is where the failed match starts.
- Line and column tracking (`position()`, parser.py:98-102) lives inside plex. `ScanError` carries a character offset, and `ParseError` carries only its message.
- The module-level driver (parser.py:171-184) is I/O: it opens the file, catches the exceptions and prints "line {} char {}" using `charno+1`.
- Parser.MyParser.Logical and Parser.MyParser.Identifier terminate on a stream of any length. CPython would raise RecursionError after about a thousand nested calls. parse never reaches this chain, because equalSign never matches.
- The trace `print` calls (parser.py:128, 132, 140, 149, 153, 161) are diagnostic output only.
- The file object `fp` is modelled as the whole text it holds.
- The docstring grammar and its FIRST/FOLLOW tables (parser.py:1-35) are not modelled, because no method implements them. Where they disagree with the methods, the model follows the methods (see above).
- Lexicon.Read: a `None` kind at end of input is `Exhausted`. plex's separate end-of-line and end-of-file events are not modelled: no lexicon entry refers to them, so they yield nothing.
