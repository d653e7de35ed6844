# HypersonicSqlValidatorTest, modelled in Dafny

`HypersonicSqlValidatorTest` is the randomized test harness for JTaint's
SQL-injection validator for HSQLDB. It builds a query one random token at a
time. Each character of the query is either tainted (attacker-controlled) or
clean. The harness has seven token generators:

- a string literal;
- a quoted identifier;
- a numeric literal;
- a line comment;
- a bracketed comment;
- a boolean literal;
- a filler token of operators and identifiers.

While it builds a token, each generator predicts whether the token's taint
lets attacker data escape its lexical context. The prediction is recorded in
the harness's exception flag. After each token, `test()` runs the validator
on the query and demands that the validator throws its security exception
exactly when the flag is set. When both agree that the token is an attack,
the token is rolled back and the run continues.

The model is a class `Harness.HypersonicSqlValidatorTest` with these parts:

- the flag;
- the random source, a class `Randomness.SafeRandom` that reads a tape of
  pre-drawn values;
- the validator, a parameter that holds its character classes, its verdict
  function and its numeric parser.

The query is a `TaintedText.TaintedBuilder`, a class holding UTF-16 code
units and one taint bit per unit. Each generator is a method. Each returns a
ghost record of the choices it drew. Its contract states three things:

- the query grows by exactly the text and bits rendered from those choices;
- the flag becomes `old(flag) || violation(choices)`, or, for the filler
  token, the numeric re-check of its units;
- the random source has advanced.

Separate modules give reference definitions of what the SQL lexer sees:

- quote doubling and the quoted-token reader (`SqlLexical.LexQuoted`);
- the bracketed-comment lexer (`SqlLexical.CommentLex`);
- the line-terminator search;
- the numeric-literal grammar;
- case-insensitive keyword matching.

Lemmas connect each generator's rendering and violation predicate to those
readers. The lemmas show that the generated token reads back as intended, and
that the flag is set exactly when the rendered taint shows a leak.

Modules, one per file: `Utf16`, `TaintedText`, `Randomness`, `Collaborators`,
`SqlLexical`, `QuotedTokens`, `CommentTokens`, `LiteralTokens`,
`OtherTokens`, `Harness`.

## Model

All source paths are under `test/src/tests/jtaint/`.

| member | source | states |
|---|---|---|
| Harness.HypersonicSqlValidatorTest.constructor | test/src/tests/jtaint/HypersonicSqlValidatorTest.java:37-42 | a new harness keeps its length bound, random source and validator, and no exception is pending |
| Harness.HypersonicSqlValidatorTest.ClearException | test/src/tests/jtaint/HypersonicSqlValidatorTest.java:76 | afterwards no exception is expected |
| Harness.HypersonicSqlValidatorTest.SetException | test/src/tests/jtaint/HypersonicSqlValidatorTest.java:77 | afterwards an exception is expected |
| Harness.HypersonicSqlValidatorTest.RandChar | test/src/tests/jtaint/HypersonicSqlValidatorTest.java:66-72 | the character is the one of qChars picked by the next draw, and exactly one draw is used |
| Harness.DrawnCodePoint | test/src/tests/jtaint/HypersonicSqlValidatorTest.java:109-118 | unless the first draw is the one-in-twelve case, the code point is a qChars character; in that case it is below 0x10FFFF, so `Character.MAX_CODE_POINT` itself is never drawn |
| Harness.HypersonicSqlValidatorTest.RandomCodePoint | test/src/tests/jtaint/HypersonicSqlValidatorTest.java:109-118 | the code point is the one the next two draws select, and exactly two draws are used |
| Harness.HypersonicSqlValidatorTest.LiteralOpening | test/src/tests/jtaint/HypersonicSqlValidatorTest.java:86-101 | the opening is a space then a quote when the query ends in a quote, otherwise a quote alone; each of its units may get the rare fault bit, and any fault sets the flag |
| Harness.HypersonicSqlValidatorTest.LiteralCodePoint | test/src/tests/jtaint/HypersonicSqlValidatorTest.java:104-154 | a drawn quote is written doubled; a fault can only strike a drawn quote; the flag rises exactly for a tainted NUL or a faulted quote |
| Harness.HypersonicSqlValidatorTest.LiteralBody | test/src/tests/jtaint/HypersonicSqlValidatorTest.java:103-155 | the body holds len+1-from code points, rendered with every quote doubled, with their segment bits; the flag rises exactly for a violating segment |
| Harness.HypersonicSqlValidatorTest.AppendSingleQuoteLiteral | test/src/tests/jtaint/HypersonicSqlValidatorTest.java:80-165 | the query grows by exactly the literal drawn and its bits; the leading space is present exactly when the query ended in a quote; the flag rises exactly by the literal's violation |
| QuotedTokens.LiteralReadsBack | test/src/tests/jtaint/HypersonicSqlValidatorTest.java:88-158 | after its prefix, the literal is read by the SQL quote lexer as exactly the drawn code points; the lexer ends at the literal's last unit, whatever non-quote follows |
| QuotedTokens.LiteralFlagVisible | test/src/tests/jtaint/HypersonicSqlValidatorTest.java:96-162 | the flag rises exactly when the rendered bits leak: a tainted opening unit, a tainted closing quote, or a leak inside the doubled body |
| QuotedTokens.LiteralBodyFlagVisible | test/src/tests/jtaint/HypersonicSqlValidatorTest.java:127-148 | the body's violation equals the lexer-level leak predicate on the rendered body: a tainted NUL, or a quote pair with a tainted unit |
| QuotedTokens.QuotedUnitsDouble | test/src/tests/jtaint/HypersonicSqlValidatorTest.java:120-144 | rendering each code point with its quote doubled equals doubling every quote in the body's UTF-16 text |
| Harness.HypersonicSqlValidatorTest.IdentifierCodePoint | test/src/tests/jtaint/HypersonicSqlValidatorTest.java:477-513 | a drawn `"` is written doubled, with the taint on the escaping quote; any other code point gets its coin on every unit; a tainted code point sets the flag |
| Harness.HypersonicSqlValidatorTest.IdentifierBody | test/src/tests/jtaint/HypersonicSqlValidatorTest.java:476-514 | the body holds exactly len code points, every `"` doubled; the flag rises exactly when one of them is tainted |
| Harness.HypersonicSqlValidatorTest.AppendQuotedIdentifier | test/src/tests/jtaint/HypersonicSqlValidatorTest.java:468-524 | the query grows by the quoted identifier and a trailing space; the flag rises exactly when some drawn code point is tainted |
| QuotedTokens.IdentifierReadsBack | test/src/tests/jtaint/HypersonicSqlValidatorTest.java:474-520 | the identifier opens with a clean `"` and ends with a clean `"` and a clean space; the quote lexer reads it back as exactly the drawn text |
| QuotedTokens.IdentifierFlagVisible | test/src/tests/jtaint/HypersonicSqlValidatorTest.java:499-513 | the flag rises if and only if some unit of the rendered identifier is tainted |
| QuotedTokens.IdentifierBodyFlagVisible | test/src/tests/jtaint/HypersonicSqlValidatorTest.java:499-513 | some drawn code point is tainted if and only if some rendered body unit is tainted |
| Harness.HypersonicSqlValidatorTest.BlockCommentCodePoint | test/src/tests/jtaint/HypersonicSqlValidatorTest.java:189-239 | one step of the comment state machine: the new level and state are the machine's step on the drawn unit, and the flag rises exactly when the level changes with a tainted unit or a tainted previous unit |
| Harness.HypersonicSqlValidatorTest.BlockCommentBody | test/src/tests/jtaint/HypersonicSqlValidatorTest.java:175-241 | the text is `/*` and then the drawn units; the level left open is the machine's level after the body; the flag rises by the body's violation |
| Harness.HypersonicSqlValidatorTest.AppendBlockComment | test/src/tests/jtaint/HypersonicSqlValidatorTest.java:175-248 | the query grows by the comment, the body, and one ` */` per level still open; the flag rises exactly by the violation of the comment's depth changes |
| CommentTokens.BlockCommentCloses | test/src/tests/jtaint/HypersonicSqlValidatorTest.java:175-248 | the comment lexer, started after `/*`, closes the comment exactly at its last unit; it finds a tainted depth change exactly when the generator flagged one |
| CommentTokens.BodyThenClosersStop | test/src/tests/jtaint/HypersonicSqlValidatorTest.java:188-245 | running the state machine over the body and the appended closers stops exactly at the last closer, with the body's violation |
| CommentTokens.TracksStep | test/src/tests/jtaint/HypersonicSqlValidatorTest.java:188-240 | the loop invariant of the comment loop: the machine state is the run over the body drawn so far, and one more code point extends it by one step |
| CommentTokens.TracksFinish | test/src/tests/jtaint/HypersonicSqlValidatorTest.java:188-245 | when the loop ends, the drawn body is a well-formed comment body whose closing level and violation are the machine's |
| CommentTokens.FlatCommentClosesOnce | test/src/tests/jtaint/HypersonicSqlValidatorTest.java:220-245 | without nesting, at most one ` */` is ever appended |
| SqlLexical.MachineMatchesLexer | test/src/tests/jtaint/HypersonicSqlValidatorTest.java:188-233 | the generator's one-unit-at-a-time state machine agrees with the comment lexer's two-unit lookahead, from any state |
| SqlLexical.ClosersClose | test/src/tests/jtaint/HypersonicSqlValidatorTest.java:243-244 | level copies of ` */` close a comment at that level, exactly at their last unit, adding no violation |
| Harness.HypersonicSqlValidatorTest.LineCommentBody | test/src/tests/jtaint/HypersonicSqlValidatorTest.java:261-300 | the loop stops at the first drawn line terminator or after len code points; before it, no code point is a terminator; the flag rises exactly when that terminator is tainted |
| Harness.HypersonicSqlValidatorTest.LineCommentCodePoint | test/src/tests/jtaint/HypersonicSqlValidatorTest.java:262-296 | one code point with its taint coin: its units are the code point's UTF-16 units, each carrying the coin; the flag rises exactly for a tainted `\r` or `\n` |
| Harness.HypersonicSqlValidatorTest.BuildLineComment | test/src/tests/jtaint/HypersonicSqlValidatorTest.java:250-307 | the text is a marker, the body, and a clean terminator when the body drew none; the flag rises by the comment's violation |
| Harness.HypersonicSqlValidatorTest.AppendLineComment | test/src/tests/jtaint/HypersonicSqlValidatorTest.java:250-311 | the query grows by exactly the line comment and its bits; the flag rises by its violation |
| CommentTokens.LineCommentEnds | test/src/tests/jtaint/HypersonicSqlValidatorTest.java:256-307 | a line comment starts with `--` or `//`; its first line terminator is its last unit |
| CommentTokens.LineCommentFlagVisible | test/src/tests/jtaint/HypersonicSqlValidatorTest.java:285-307 | the flag rises if and only if the closing terminator is tainted; a terminator the generator added is clean |
| Harness.HypersonicSqlValidatorTest.SeparatorGuard | test/src/tests/jtaint/HypersonicSqlValidatorTest.java:319-328 | the space is needed exactly for a tainted literal after a unit of no separator class; then it is inserted clean or, rarely, left out with the flag set |
| Harness.HypersonicSqlValidatorTest.CasedLetters | test/src/tests/jtaint/HypersonicSqlValidatorTest.java:337-350 | each letter keeps its identity, upper- or lower-cased, and its bit is the word's taint flipped by that letter's noise coin |
| Harness.HypersonicSqlValidatorTest.BooleanWord | test/src/tests/jtaint/HypersonicSqlValidatorTest.java:330-354 | the word is `true` or `false` in random case; the flag rises exactly for a missing separator or a partly tainted word |
| Harness.HypersonicSqlValidatorTest.AppendBoolean | test/src/tests/jtaint/HypersonicSqlValidatorTest.java:313-357 | the query grows by the separator decision and the boolean word with their bits; the flag rises exactly by the boolean's violation |
| LiteralTokens.BooleanReadsBack | test/src/tests/jtaint/HypersonicSqlValidatorTest.java:330-350 | the cased word matches `true` or `false` case-insensitively |
| LiteralTokens.PartialTaintRule | test/src/tests/jtaint/HypersonicSqlValidatorTest.java:337-354 | the cardinality test holds exactly when the word has a tainted letter and a clean letter, i.e. exactly when the noise coins are mixed |
| Harness.HypersonicSqlValidatorTest.RandomSign | test/src/tests/jtaint/HypersonicSqlValidatorTest.java:547-552 | the sign is empty, `+` or `-`, and it is empty exactly when the first draw is even |
| Harness.HypersonicSqlValidatorTest.RandomDigits | test/src/tests/jtaint/HypersonicSqlValidatorTest.java:555-557 | count decimal digits, the k-th one picked by the k-th draw |
| Harness.HypersonicSqlValidatorTest.RandomMantissa | test/src/tests/jtaint/HypersonicSqlValidatorTest.java:554-572 | the mantissa is len digits with an optional point and fraction of under 32 digits, or a point and len digits |
| Harness.HypersonicSqlValidatorTest.RandomExponent | test/src/tests/jtaint/HypersonicSqlValidatorTest.java:574-590 | the exponent is absent, or `e`/`E`, an optional sign and 1 to 32 digits |
| Harness.HypersonicSqlValidatorTest.NumberLiteral | test/src/tests/jtaint/HypersonicSqlValidatorTest.java:547-596 | the text is sign, mantissa, exponent and a space; every unit carries the single taint flag except the clean trailing space |
| Harness.HypersonicSqlValidatorTest.AppendNumber | test/src/tests/jtaint/HypersonicSqlValidatorTest.java:526-597 | the query grows by the separator decision and the number with their bits; the flag rises only for a missing separator |
| LiteralTokens.NumberIsLiteral | test/src/tests/jtaint/HypersonicSqlValidatorTest.java:547-590 | every generated number text is a signed numeric literal of SQL's grammar |
| LiteralTokens.UnsignedIsLiteral | test/src/tests/jtaint/HypersonicSqlValidatorTest.java:554-590 | the mantissa and exponent form an unsigned numeric literal: the longest mantissa prefix is the whole mantissa, and the rest is an exponent |
| Harness.HypersonicSqlValidatorTest.OtherCodePoint | test/src/tests/jtaint/HypersonicSqlValidatorTest.java:368-419 | the draw is accepted exactly when it completes no `true`/`false`, is no quote and forms no comment delimiter with the previous unit; with the tape exhausted it is always accepted |
| Harness.HypersonicSqlValidatorTest.OtherBody | test/src/tests/jtaint/HypersonicSqlValidatorTest.java:367-431 | the body holds len code points, each of them accepted after those before it |
| Harness.HypersonicSqlValidatorTest.AppendOther | test/src/tests/jtaint/HypersonicSqlValidatorTest.java:359-465 | the query grows by the filler token and its guard space; the flag becomes the numeric re-check of the new units |
| OtherTokens.OtherHasNoQuotes | test/src/tests/jtaint/HypersonicSqlValidatorTest.java:407-408 | a filler token contains no `'` and no `"` |
| OtherTokens.OtherFormsNoDelimiter | test/src/tests/jtaint/HypersonicSqlValidatorTest.java:400-419 | with the unit before it, a filler token contains no `/*`, `*/`, `--` or `//` |
| OtherTokens.OtherFormsNoBoolean | test/src/tests/jtaint/HypersonicSqlValidatorTest.java:392-397 | no position of a filler token completes `true` or `false`, case-insensitively |
| OtherTokens.OtherEndsClean | test/src/tests/jtaint/HypersonicSqlValidatorTest.java:433-438 | a filler token ends in a clean unit that is not `/`, `*`, `-` or a digit |
| Harness.HypersonicSqlValidatorTest.RecheckNumericValues | test/src/tests/jtaint/HypersonicSqlValidatorTest.java:444-465 | the flag becomes the re-check of the units after the old query length |
| OtherTokens.RecheckSound | test/src/tests/jtaint/HypersonicSqlValidatorTest.java:450-464 | the re-check flags a clean start only if the parser rejects the query at some tainted unit of the token |
| OtherTokens.RecheckFlagsFirstRejection | test/src/tests/jtaint/HypersonicSqlValidatorTest.java:450-464 | when the parser rejects the query at the first tainted unit from the offset on, the re-check flags it (the converse of `RecheckSound` for the first tainted unit) |
| OtherTokens.RecheckClean | test/src/tests/jtaint/HypersonicSqlValidatorTest.java:444-445 | a token with no tainted unit leaves the flag as it was |
| OtherTokens.RecheckKeepsFlag | test/src/tests/jtaint/HypersonicSqlValidatorTest.java:455 | a pending flag stays set |
| Harness.HypersonicSqlValidatorTest.AppendRandomToken | test/src/tests/jtaint/HypersonicSqlValidatorTest.java:599-638 | the token kind is the one the next draw selects; its name is logged; the query and flag change as that kind's generator states, and the query grows |
| Harness.OpsWellFormedSnoc | test/src/tests/jtaint/HypersonicSqlValidatorTest.java:603-604 | appending a token name, or "Exception" right after a token name, keeps the operation log well formed |
| Harness.HypersonicSqlValidatorTest.AppendAndValidate | test/src/tests/jtaint/HypersonicSqlValidatorTest.java:650-653 | the query and the pending flag change exactly as the returned token's draws say (`Appends`), the name logged is that token's kind, and the verdict is the validator's on the new query |
| Harness.HypersonicSqlValidatorTest.Iteration | test/src/tests/jtaint/HypersonicSqlValidatorTest.java:648-661 | one pass of the loop extends the trace by one step that follows the previous ones and records whether the tape was used up when the pass began; a rolled-back step restores the snapshot taken before the token and logs "Exception" after its name, otherwise the query is the token's result and the validator's verdict is on it |
| Harness.TraceSnoc | test/src/tests/jtaint/HypersonicSqlValidatorTest.java:647-661 | a step that starts from the query the previous steps left and is consistent with the validator extends a trace |
| Harness.LogSnoc | test/src/tests/jtaint/HypersonicSqlValidatorTest.java:650-660 | the log of a trace with one more step is the old log followed by that step's entry |
| Harness.LogWellFormed | test/src/tests/jtaint/HypersonicSqlValidatorTest.java:647-661 | the log a trace produces is always well formed: token names, each optionally followed by one "Exception" |
| Harness.AllAsPredictedSnoc | test/src/tests/jtaint/HypersonicSqlValidatorTest.java:653-661 | adding a step that did as predicted (rolled back with the flag set, or accepted with the flag clear) to steps that all did keeps that true |
| Harness.LengthBound | test/src/tests/jtaint/HypersonicSqlValidatorTest.java:641 | `maxlen - 1` on a Java `int`: the result is a 32-bit value congruent to `maxlen - 1` modulo 2^32 (so `Integer.MIN_VALUE - 1` wraps to `Integer.MAX_VALUE`), and it is not positive exactly when `Integer.MIN_VALUE < maxlen <= 1` |
| Harness.HypersonicSqlValidatorTest.Test | test/src/tests/jtaint/HypersonicSqlValidatorTest.java:640-692 | every pass of the loop is recorded as a step of a trace; a passing run reaches the drawn length, every step did as predicted and the query is what the kept tokens leave, with no exception pending and a verdict of acceptance; a failing run's earlier steps all did as predicted and its last step's verdict is a crash or disagrees with its pending flag; a run that cannot go on ended with a rollback of a step that began with the tape already used up; the run ends with `BadBound` exactly when `maxlen - 1`, computed in 32 bits, is not positive, i.e. when `Integer.MIN_VALUE < maxlen <= 1`; otherwise the drawn length is 1 plus the first draw reduced modulo that wrapped bound; the operation log is the trace's log and is well formed |
| Harness.HypersonicSqlValidatorTest.Loop | test/src/tests/jtaint/HypersonicSqlValidatorTest.java:647-691 | the loop of test() for a drawn length of at least 1: it passes with at least that many units and every step as predicted, fails with every step but the last as predicted and the last one not, or stops after rolling back a step that began with the tape already used up; its log is the trace's log |
| Harness.EndsInFailureSnoc | test/src/tests/jtaint/HypersonicSqlValidatorTest.java:653-691 | a step that did not do as predicted, after steps that all did, ends the trace in a failure that carries the step's query, bits, verdict and flag |
| TaintedText.CodePointTaint | test/src/tests/jtaint/HypersonicSqlValidatorTest.java:146-148 | every UTF-16 unit of a drawn code point carries that code point's taint bit |
| TaintedText.DecodeUnits | test/src/tests/jtaint/HypersonicSqlValidatorTest.java:120-148 | a body without surrogate code points decodes back to exactly the drawn code points |
| TaintedText.LoneSurrogatesFuse | test/src/tests/jtaint/HypersonicSqlValidatorTest.java:109-118 | any drawn high surrogate followed by any drawn low surrogate decodes as one supplementary code point, while each unit keeps its own drawn taint bit |
| TaintedText.CountExtremes | test/src/tests/jtaint/HypersonicSqlValidatorTest.java:353 | the bit count is zero exactly when no bit is set, and full exactly when every bit is set |
| TaintedText.MarkUnits | test/src/tests/jtaint/HypersonicSqlValidatorTest.java:146-148 | exactly the units of the marked range get the taint bit; the others keep theirs |
| Utf16.ToChars | test/src/tests/jtaint/HypersonicSqlValidatorTest.java:120-147 | a code point takes one unit below U+10000 and a high then a low surrogate above it |
| Utf16.DecodeToChars | test/src/tests/jtaint/HypersonicSqlValidatorTest.java:120-121 | a non-surrogate code point's units decode back to the code point |
| SqlLexical.LexQuotedRoundTrip | test/src/tests/jtaint/HypersonicSqlValidatorTest.java:130-158 | the quote lexer reads back a doubled body followed by its closing quote as the body, whatever non-quote follows |
| SqlLexical.FirstTerminator | test/src/tests/jtaint/HypersonicSqlValidatorTest.java:298-299 | the result is the index of the first `\r` or `\n`, or the length if there is none |
| SqlLexical.DigitRun | test/src/tests/jtaint/HypersonicSqlValidatorTest.java:555-571 | the result is the length of the longest prefix of decimal digits |
| Randomness.SafeRandom.NextInt | test/src/tests/jtaint/HypersonicSqlValidatorTest.java:81 | the result is the next tape value reduced into [0, bound), and exactly one draw is used |
| Randomness.SafeRandom.NextBoolean | test/src/tests/jtaint/HypersonicSqlValidatorTest.java:256 | the result is the parity of the next tape value, and exactly one draw is used |
| TaintedText.TaintedBuilder.Append | test/src/tests/jtaint/HypersonicSqlValidatorTest.java:164 | appending a tainted string adds its units and their bits at the end, and nothing else changes |

Behaviour of the code worth knowing (the model follows the code):

- **Lone surrogates.** The one-in-twelve code point is
  `Character.MIN_CODE_POINT + nextInt(MAX_CODE_POINT - MIN_CODE_POINT)`
  (lines 109-118), a value in [0, 0x10FFFF). Surrogate values are therefore
  drawn as lone code points. `TaintedText.LoneSurrogatesFuse` shows that any
  high surrogate drawn right before any low surrogate reads back as one
  supplementary code point, while each of its two units keeps the taint bit
  drawn for it.
- **Quotes in the filler token.** The filler token retries on every `'` and
  `"`, tainted or not (line 408). The comment on line 407 gives the reason:
  the literal and quoted-identifier generators produce these characters.
- **A doubled `"` in an identifier.** When the drawn code point is a `"`, the
  escaping quote is appended first (lines 503-504), and the taint loop marks
  `clen` units from `oldlen` (lines 511-512). So the bit goes on the escaping
  quote and the drawn quote stays clean. The bitmap is indexed by UTF-16
  units, not by code points.
- **The literal's leading space.** A space goes in front of the opening quote
  only when the query ends in a `'` (lines 88-92). A `"` at the end of the
  query gets no space.
- **The numeric parser.** The re-check loop jumps to the parser's result when
  it is positive (lines 463-464). The model assumes the parser returns either
  an offset of at most 0 or one at or after the offset it was given. With any
  other result the loop need not end.
- **Bracketed comments.** The dispatcher always asks for un-nested comments
  (line 624). The generator is modelled for both settings.

## Left out

- `main` and its command-line parsing, the log file, and the repetition over test runs (lines 694-752): process set-up and I/O, not harness logic.
- `Log.clearWarning` for queries containing NUL (lines 657-658, 669-671): it only affects the log.
- The failure printout and `System.exit` (lines 673-690): `Test` returns a `Failed` outcome carrying the query, the verdict and the pending flag instead.
- The `[ifJava4]` branches: only the Java 5 code-point paths are modelled.
- The validator's internals: `isSqlWhitespace`, `isSqlOperator`, `isSqlSpecial`, `validateSqlQuery` and `SqlParseUtil.parseTaintedValue` are fields of a `Validator` parameter. HypersonicSqlValidator and SqlParseUtil are not part of this model.
- `SafeRandom`'s algorithm: every draw reads the next value of a tape, and a draw past its end reads 0.
- The `@internal@` taint accessors: the query carries its bits directly.
- The capacity hints of the `StringBuffer`s, which do not change any content.
- Harness.HypersonicSqlValidatorTest.Test: when a token is rolled back and its iteration began with the tape already used up, then under the tape model every further draw is 0, so each iteration appends and rolls back the same token and the loop never ends. The model returns `Diverges` there.
- Harness.HypersonicSqlValidatorTest.Test: when `maxlen - 1`, wrapped to 32 bits, is not positive (`Integer.MIN_VALUE < maxlen <= 1`), the model ends with `BadBound`, taking `SafeRandom.nextInt` to throw for a non-positive bound as `java.util.Random.nextInt` does; SafeRandom is not part of this model.
- Harness.HypersonicSqlValidatorTest.SeparatorGuard: the separator space is returned to the caller, which appends it together with the literal. The source appends it to the query first. The final query and bits are the same, because nothing reads the query in between.
- Harness.HypersonicSqlValidatorTest.AppendBoolean: the draw record it returns is tied to the tape only through the query and flag it produces, not draw by draw. The same holds for the other generators: AppendSingleQuoteLiteral, AppendQuotedIdentifier, AppendNumber, AppendLineComment, AppendBlockComment and AppendOther.
- Harness.HypersonicSqlValidatorTest.AppendNumber: the separator space comes with the literal, as for `SeparatorGuard`. The `oldlen++` after the inserted space is dead code and is not modelled.
- Harness.HypersonicSqlValidatorTest.OtherCodePoint: a retried draw is modelled as one call. Termination of the retry loop rests on the tape: once it is exhausted, every draw yields the accepted code point 0.
- The `opList` `ArrayList` is an `OpList` class holding a sequence of names; `null` is allowed as in the source.
