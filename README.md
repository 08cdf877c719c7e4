# toy-lang lexer in Dafny

A verified model of the scanner of toy-lang, a small scripting language
written in Rust. The model has four modules.

- `Numeric` (numeric.dfy) covers the i64 and u64 ranges and what the two
  standard parsers the scanner relies on accept. For `str::parse::<i64>`
  that is an optional sign, then digits, in range. For `str::parse::<f64>`
  it is Rust's documented float grammar, with `inf`, `infinity` and `nan`
  in any case, and exponents. Floating-point values are symbolic: an `F64`
  records the text it was parsed from, the integer it was converted from,
  or the two values it is the sum of.
- `Tokens` (tokens.dfy) covers `NumberToken` from src/token.rs:
  - its `From<&str>` conversion;
  - its overflow-checked widening addition;
  - the token vocabulary the scanner emits;
  - the constant keyword list and keyword map.
- `Lexer` (lexer.dfy) models src/lexer.rs in two parts.
  - Pure functions state what one call of `next_token` returns (`Step`)
    and what draining the `Iterator` yields (`Drain`). The scanner's
    properties are proved about these functions: EOF idempotence, word
    shape, keyword precedence, escape decoding, tiling, lossless
    tokenization and line counting.
  - The `Scanner` class has the source's fields `cursorStart`, `cursorEnd`
    and `currentLine`. Its methods (`Inc`, `NewLine`,
    `TokenizeStringLiteral`, `NextToken`, `Next`, …) update them in place;
    `Peek`, `CurrentChar` and `EndOfInput` only read them.
    `NextToken` and `Next` are proved against `Step`. The two `while` loops
    of the source carry their invariants. The string-literal loop
    (`TokenizeStringLiteral`) is proved against `ScanString`, and the word
    loop (`ReadWord`) against `WordEnd`. The small helpers have contracts
    of their own.
- `LegacyLexer` (legacy_lexer.dfy) models the older per-character lexer in
  src/lexer/mod.rs:
  - the total one-character table `Token::try_from`;
  - `tokenize` over the pieces of `input.split("")`;
  - `parse`, an imperative loop proved against the `Statements` function;
  - `execute`, whose inner loop (`Evaluate`, proved against the `Evaluation`
    function) is given a list of operator positions that is never filled;
  - its own `NumberToken` conversions.

Positions are indices into the input as a sequence of characters.
`is_alphanumeric` and `is_whitespace` are their ASCII restrictions. On such
input, the byte length used by `end_of_input` equals the character count
used by `current_char` and `peek`.

The keyword and single-character `match` of `next_token` is written as two
arm tables, `KEYWORD_ARMS` and `SYMBOL_ARMS`, in source order. It is
looked up the way a `match` picks its first matching arm. The quote and
newline arms have effects on the scanner (they start the string
sub-scanner, or increment the line counter), so `Step` and
`Scanner.NextToken` handle them directly.

Where src/test.rs and the code disagree, the model follows the code:

- **Span ends.** src/test.rs expects exclusive span ends. In the code, a
  span's `end` is the index of the token's last character, not one past
  it. The EOF token spans `[len, len]` because the cursors stand there.
- **Spans have no column.** src/test.rs expects a `column` field, but
  `capture_token` never records one.
- **No multi-character operators.** src/test.rs expects `==`, `!=`, `>=`,
  `<=`, `&&` and `||` as single tokens. The code has only single-character
  operator words, so `==` is scanned as two `=` tokens.

Some further facts about the code:

- **Decimal points.** A word continues only past an alphanumeric
  character, so a decimal point ends it: `3.14` becomes `Float("3.")`
  followed by `SignedInteger(14)` (`Lexer.DecimalPointSplitsNumber`).
- **No unsigned integers from the scanner.** The scanner never produces
  `UnsignedInteger`. It tries i64, then f64, then identifier, so a digit
  run beyond the i64 range is a `Float` (`Lexer.LongIntegerIsFloat`).
- **No parse panic while lexing.** `next_token` tries the parsers and
  never calls `NumberToken::from`, so on ASCII input lexing cannot panic.
  `NumberToken::from` itself panics on bad input. The model returns
  `Err(UnwrapOnParseError)` for that case.
- **Duplicated conversion.** `NumberToken::from` appears twice, at
  src/lexer.rs:23-31 and src/token.rs:11-19, with the same body. It is
  modelled once, as `Tokens.NumberFromLexeme`.

## Model

| member | source | states |
|---|---|---|
| Numeric.ParseFormatI64 | src/lexer.rs:185 | `parse::<i64>` recognises the decimal text of every i64 as that i64 |
| Numeric.ParseI64Rejects | src/lexer.rs:185 | a digit run whose value exceeds i64::MAX is rejected by `parse::<i64>`, not wrapped |
| Numeric.I64TextIsF64Text | src/lexer.rs:185-188 | every text `parse::<i64>` accepts is also accepted by `parse::<f64>` |
| Numeric.DigitsAccepted | src/lexer.rs:187 | after an integer part, any run of digits (even an empty one) leaves the f64 grammar accepting |
| Numeric.ParseI64 | src/lexer.rs:185 | `parse::<i64>` accepts only a non-empty text that starts with a digit, or with a sign followed by a digit |
| Numeric.IsF64Text | src/lexer.rs:187 | `parse::<f64>` accepts only a non-empty text that starts with a sign, a digit, a point, or the first letter of `inf` or `nan` |
| Tokens.NumberFromLexeme | src/token.rs:11-19 | without `.` or `,`: succeeds iff `parse::<i64>` succeeds, giving that SignedInteger. With a separator: succeeds iff the text is f64 text, giving a Float. Otherwise panics. Never UnsignedInteger |
| Tokens.AsF64 | src/token.rs:29 | `as f64` turns an integer token into the float of its value and leaves a float as it is |
| Tokens.AddNumbers | src/token.rs:20-69 | an integer result is the exact mathematical sum of two integer operands. A Float operand forces a Float result. A Float result is the f64 sum of both operands as f64 |
| Tokens.AddSigned | src/token.rs:25-31 | signed + signed is SignedInteger(a+b) when a+b is in i64 range, else the float sum. Never wraps |
| Tokens.AddUnsigned | src/token.rs:33-39 | unsigned + unsigned is UnsignedInteger(a+b) when a+b <= u64::MAX, else the float sum |
| Tokens.AddMixed | src/token.rs:47-66 | mixed signedness, either order: SignedInteger iff the unsigned operand is <= i64::MAX and the sum fits in i64; otherwise Float |
| Tokens.AddIntegerCommutes | src/token.rs:23-67 | whenever the sum is an integer, swapping the operands gives the same variant and value |
| Tokens.KeywordTablesAgree | src/token.rs:183-190 | KEYWORDS has five distinct words. KEYWORD_STRING_TO_TOKEN has exactly those keys. `let` maps to the control-flow Let |
| Lexer.WordEnd | src/lexer.rs:118-135 | the end of the word starting at i is at or after i and inside the input |
| Lexer.WordEndIsMaximal | src/lexer.rs:118-135 | every character of the word but the last is alphanumeric. None after the first is whitespace. The loop could not have taken one more character |
| Lexer.ArmsAreWordTypes | src/lexer.rs:136-182 | no fixed arm yields an identifier, Unknown, EOF, string or newline token. Every keyword is a lower-case word of length >= 2. No symbol arm is alphanumeric |
| Lexer.FixedWord | src/lexer.rs:136-182 | a word with a fixed arm gets a non-identifier, non-Unknown type. Such a word of length other than 1 starts with a lower-case letter. Such a word of length 1 is not alphanumeric |
| Lexer.LookupFound | src/lexer.rs:136-182 | the arm lookup finds a value only for a key some arm has, and that arm's value. It finds nothing only when no arm has the key |
| Lexer.LookupFirst | src/lexer.rs:136-182 | the first arm with the key is the one taken |
| Lexer.LookupMissing | src/lexer.rs:136-182 | when no arm has the key, the lookup finds nothing |
| Lexer.Classify | src/lexer.rs:136-193 | the classification of a word is never Unknown, EOF, a string literal or a newline |
| Lexer.ArmKeysDistinct | src/lexer.rs:136-182 | no two keyword arms and no two single-character arms share a key, so no arm is shadowed |
| Lexer.ClassifyArms | src/lexer.rs:136-182 | each of the 16 keywords and 22 single-character words is classified as its arm says, including `[`→OpenBrace, `{`→OpenBracket, `&` and the vertical bar →Arithmetic And and Or, `!`→Comparison Not |
| Lexer.NumbersAreNotArms | src/lexer.rs:136-186 | no text accepted by `parse::<i64>` matches a keyword or symbol arm |
| Lexer.ClassifyInteger | src/lexer.rs:184-186 | every word `parse::<i64>` accepts is classified as SignedInteger of the parsed value |
| Lexer.IntegerRoundTrip | src/lexer.rs:184-186 | the decimal text of any i64 is classified back as SignedInteger of that value |
| Lexer.ClassifyIdentifier | src/lexer.rs:184-193 | a word is an Identifier iff it has no arm and `parse::<f64>` rejects it. An identifier's name is the word itself |
| Lexer.ClassifyFloat | src/lexer.rs:184-188 | a word with no arm that `parse::<i64>` rejects and `parse::<f64>` accepts is classified as Float of its text |
| Lexer.InfinityIsFloat | src/lexer.rs:184-188 | `inf` is classified as a Float, not an identifier |
| Lexer.NotANumberIsFloat | src/lexer.rs:184-188 | `NaN` is classified as a Float |
| Lexer.ExponentIsFloat | src/lexer.rs:184-188 | `1e5` is classified as a Float |
| Lexer.LongIntegerIsFloat | src/lexer.rs:185-188 | a digit run too large for i64 is classified as Float of its text; it does not panic |
| Lexer.EscapedChar | src/lexer.rs:86-96 | `\n`, `\t` and `\r` stand for newline, tab and carriage return. Only these three change, each into a whitespace control character. Every other escaped character, the backslash and the quotes included, stands for itself |
| Lexer.EscapedNewLineExample | src/lexer.rs:81-106 | the quoted text `a\nb` (a backslash and an `n` between `a` and `b`) lexes to a string holding an actual newline, spanning [0, 5] |
| Lexer.ScanString | src/lexer.rs:77-109 | the string sub-scanner ends either on a delimiter after its start (closed) or on the last character of the input (unterminated, no failure). That the delimiter is the first unescaped one is ScanStringStopsAtFirst |
| Lexer.ScanStringStopsAtFirst | src/lexer.rs:81-106 | no character of the body ends the literal early: the body holds no unescaped delimiter, a closing delimiter is unescaped, and an unterminated literal contains no unescaped delimiter at all. A backslash delimiter never closes |
| Lexer.ResumesNext | src/lexer.rs:81-106 | one iteration of the string loop: an escaped character is decoded and the flag is cleared. A backslash sets the flag. The delimiter stops the scan. Any other character is appended |
| Lexer.ResumesEnd | src/lexer.rs:81 | when `peek` finds no next character, the literal ends unclosed with the text decoded so far |
| Lexer.ScanStringUnescapes | src/lexer.rs:77-109 | the payload is the decoding (escape by escape) of the raw text strictly between the quotes, or from the quote to the end of an unterminated literal |
| Lexer.ScanPlain | src/lexer.rs:103-105 | a character that is neither backslash nor delimiter is appended as it is |
| Lexer.ScanEscapedPair | src/lexer.rs:84-100 | an escaped backslash or delimiter contributes that character and does not end the literal |
| Lexer.ScanEscaped | src/lexer.rs:77-109 | scanning an escaped text followed by its delimiter closes at that delimiter and returns exactly the text |
| Lexer.ScanEscapedAt | src/lexer.rs:77-109 | as ScanEscaped, with the input given character by character |
| Lexer.UnescapeEscape | src/lexer.rs:84-98 | decoding inverts escaping: the escape table maps `\\`, `\"`, `` \` `` and `\'` back to the character |
| Lexer.Step | src/lexer.rs:112-201 | at the end of input: the EOF token spanning [pos,pos], nothing moves. Otherwise: the cursor strictly advances; the span is [pos, new cursor - 1] on the resulting line; the token is neither EOF nor Unknown; the line goes up by one exactly for a newline word, which is exactly when the newline token is emitted |
| Lexer.SingleCharacterArms | src/lexer.rs:157-162 | the word equals a quote or `\n` exactly when its first character is that character |
| Lexer.WordToken | src/lexer.rs:118-135 | a token not starting with a quote ends at WordEnd. Its lexeme starts with the current character. Every character but the last is alphanumeric. A non-alphanumeric first character gives a one-character lexeme |
| Lexer.WordTokenType | src/lexer.rs:136-193 | such a token is the NewLine token for `\n` and otherwise the classification of its word |
| Lexer.StringToken | src/lexer.rs:157-159 | a quote opens a string literal. Its span runs from the opening quote to the first unescaped quote of the same style, or to the end of input when there is none. Its payload is the decoded text in between |
| Lexer.QuotedStringRoundTrip | src/lexer.rs:77-109 | an escaped text between two quotes of one style is lexed as exactly that text, spanning both quotes |
| Lexer.StepWord | src/lexer.rs:118-199 | a word that starts with neither a quote nor a newline is classified, spans from the start to WordEnd, and moves the cursor past it |
| Lexer.PointWordIsFloat | src/lexer.rs:184-188 | `3.` is classified as Float of `3.` |
| Lexer.PointEndsNumber | src/lexer.rs:118-188 | the first token of `3.14` is Float(`3.`) spanning [0,1] |
| Lexer.DigitsAfterPoint | src/lexer.rs:118-188 | the second token of `3.14` is SignedInteger(14) spanning [2,3] |
| Lexer.DecimalPointSplitsNumber | src/lexer.rs:118-188 | `3.14` is lexed as Float(`3.`) spanning [0,1] and then SignedInteger(14) spanning [2,3] |
| Lexer.EofIdempotent | src/lexer.rs:114-115 | at the end of input the EOF token is returned and cursors and line are left unchanged, so another call returns the same |
| Lexer.Drain | src/lexer.rs:3-13 | every token the iterator yields lies inside the input at or after the start position, and none is EOF |
| Lexer.DrainTiles | src/lexer.rs:195-199 | the drained spans tile the input: the first starts at the start position, each next starts one after the previous end, the last ends at the last index |
| Lexer.TilesLossless | src/lexer.rs:195-199 | tiling spans spell out the tiled text exactly |
| Lexer.DrainLossless | src/lexer.rs:112-201 | the lexemes of the drained tokens concatenate to the rest of the input |
| Lexer.Tokenize | src/lexer.rs:3-13 | the tokens a fresh scanner yields lie inside the input, their lexemes concatenate to exactly the input, and each carries the number of newline tokens up to and including it as its line |
| Lexer.DrainLinesFollow | src/lexer.rs:45-48 | each token's line is the previous token's line, plus one exactly when it is a newline token |
| Lexer.LinesCountNewLines | src/lexer.rs:45-48 | in such a sequence, each token's line is the starting line plus the number of newline tokens up to and including it |
| Lexer.DrainLines | src/lexer.rs:45-48 | every drained token carries the starting line plus the count of newline tokens up to it; newlines inside string literals do not count |
| Lexer.Scanner.constructor | src/lexer.rs:34-41 | a new scanner holds the input with both cursors and the line at 0 |
| Lexer.Scanner.Inc | src/lexer.rs:42-44 | `cursorEnd` goes up by one |
| Lexer.Scanner.NewLine | src/lexer.rs:45-48 | the line counter goes up by one and the NewLine token type is returned |
| Lexer.Scanner.CurrentChar | src/lexer.rs:52-54 | returns the character under `cursorEnd` |
| Lexer.Scanner.Peek | src/lexer.rs:55-57 | returns the character after `cursorEnd`, or None exactly when there is none |
| Lexer.Scanner.CaptureToken | src/lexer.rs:63-72 | the token spans [cursorStart, cursorEnd] on the current line |
| Lexer.Scanner.EndOfInput | src/lexer.rs:73-75 | between calls, the input is used up exactly when the cursor stands at its end; otherwise the cursor is on a character |
| Lexer.Scanner.EofToken | src/lexer.rs:59-61 | the EOF token at the current cursors |
| Lexer.Scanner.TokenizeStringLiteral | src/lexer.rs:77-109 | the loop's result and final cursor equal the string sub-scanner's payload and last index |
| Lexer.Scanner.ReadWord | src/lexer.rs:118-135 | the word loop leaves `cursorEnd` at WordEnd and returns exactly the characters from `cursorStart` to it |
| Lexer.Scanner.NextToken | src/lexer.rs:112-201 | the returned token, the new cursor and the new line are those of Step; both cursors end at the same index |
| Lexer.Scanner.Next | src/lexer.rs:6-12 | returns None exactly when `cursorEnd >= len`, leaving the state unchanged; otherwise it returns the next token, which is never EOF |
| LegacyLexer.NumberFromLexeme | src/lexer/mod.rs:48-56 | without a separator: Integer of the `parse::<i64>` value, or panic. With one: Float of the text when it is f64 text, or panic |
| LegacyLexer.NumberFromLexemeAgrees | src/lexer/mod.rs:48-56 | the old and the new `NumberToken::from` accept the same texts and give corresponding values |
| LegacyLexer.ToI64 | src/lexer/mod.rs:58-67 | conversion succeeds iff the number is an Integer, and then gives its value; a Float gives ConversionError |
| LegacyLexer.LexemeToI64 | src/lexer/mod.rs:48-67 | a parsed lexeme converts to i64 iff it has no separator, and then to the value `parse::<i64>` gives |
| LegacyLexer.I64RoundTrip | src/lexer/mod.rs:48-67 | the decimal text of every i64 is parsed to Integer of it and converts back to it |
| LegacyLexer.CharToken | src/lexer/mod.rs:141-185 | a character becomes a literal exactly when it is a digit, and then Integer of its value. It becomes Unknown exactly when it is none of the 22 arm characters, and then Unknown of itself. No character becomes a SemiColon |
| LegacyLexer.TokenFromText | src/lexer/mod.rs:138-188 | `Token::try_from` never fails and never yields SemiColon. A piece that is not one character long, or one character without an arm, becomes Unknown of the piece |
| LegacyLexer.TokenFromChar | src/lexer/mod.rs:138-188 | a one-character piece gets the character table's token |
| LegacyLexer.TokenFromDigit | src/lexer/mod.rs:142-171 | a piece is a number literal iff it is one digit, and then it is Integer of the value `parse::<i64>` gives |
| LegacyLexer.TokenFromOperators | src/lexer/mod.rs:172-175 | `+ - / *` become Plus, Minus, Divide, Multiply |
| LegacyLexer.TokenFromDelimiters | src/lexer/mod.rs:176-183 | space, the three quotes and `{ } [ ]` become the listed delimiters |
| LegacyLexer.TokenFromOthers | src/lexer/mod.rs:185 | `;` and the empty piece fall through to Unknown |
| LegacyLexer.SplitEmpty | src/lexer/mod.rs:32-33 | splitting on the empty pattern gives two more pieces than the text has characters |
| LegacyLexer.SplitJoin | src/lexer/mod.rs:32-33 | the pieces join back into the text |
| LegacyLexer.TokenizePieces | src/lexer/mod.rs:35-38 | the fold yields one token per piece |
| LegacyLexer.Tokenize | src/lexer/mod.rs:29-39 | `tokenize` yields one token more than the input has characters, the last one Unknown(""), and no SemiColon |
| LegacyLexer.TokenizeShape | src/lexer/mod.rs:29-39 | `tokenize` yields one token per character, each the table's token for that character, followed by Unknown("") |
| LegacyLexer.Parse | src/lexer/mod.rs:192-212 | the loop's tree equals the statements function of the stream |
| LegacyLexer.Statements | src/lexer/mod.rs:192-212 | there is exactly one statement per SemiColon |
| LegacyLexer.TrailingTokensDropped | src/lexer/mod.rs:192-212 | with no SemiColon left, nothing more is emitted, so the tokens after the last SemiColon are discarded |
| LegacyLexer.StatementContents | src/lexer/mod.rs:192-212 | a statement holds, in order, exactly the operator and literal tokens since the previous SemiColon |
| LegacyLexer.Kept | src/lexer/mod.rs:196-208 | a statement keeps only operator and literal tokens |
| LegacyLexer.PiecesHaveNoSemiColon | src/lexer/mod.rs:141-186 | no tokenized piece is a SemiColon |
| LegacyLexer.ParseTokenizeIsEmpty | src/lexer/mod.rs:192-212 | parsing any tokenized text gives no statement at all |
| LegacyLexer.EvaluationOutcome | src/lexer/mod.rs:217-249 | the inner loop panics exactly when some operator position is 0 or has no right neighbour; otherwise the result becomes "0.0" when some position holds a Plus and stays as it was when none does |
| LegacyLexer.Evaluate | src/lexer/mod.rs:217-249 | the `for operator_index in operator_idxs` loop gives the outcome of the evaluation function |
| LegacyLexer.Execute | src/lexer/mod.rs:214-252 | the operator positions are never collected, so the inner loop visits none, nothing panics and the result is always the empty string |

## Left out

- Unicode: `is_alphanumeric` and `is_whitespace` are their ASCII
  restrictions, and positions are character indices. For non-ASCII input,
  the byte length compared by `end_of_input` and the character index used
  by `current_char` and `peek` diverge; that case is not modelled.
- The panic on non-ASCII input is not modelled. For `é` (one character,
  two bytes), the first call yields `Identifier("é")` and leaves the
  cursor at 1. The next call finds 1 < 2, enters the word loop, and
  `current_char` unwraps `chars().nth(1)`, which is `None`.
- Floating point: f64 values are symbolic (`Numeric.F64`), so float sums,
  rounding, `inf` and NaN are never computed. The float-only `Add` of the
  older lexer (src/lexer/mod.rs:69-82) returns a bare f64 and is left out.
- `Numeric.IsF64Text` follows Rust's documented f64 grammar. That grammar
  is the Rust standard library's, not code of this repository.
- Panics: an `unwrap` on a failed parse is the value `Err(UnwrapOnParseError)`,
  and one on `None` in `execute` is `Err(UnwrapOnNone)`. This is how
  `Tokens.NumberFromLexeme`, `LegacyLexer.NumberFromLexeme` and
  `LegacyLexer.Evaluate` model them. No unwinding is modelled.
- `Scanner::dec` (src/lexer.rs:49-51) is never called. `Lexer::optimize`
  only prints. The fields of the older `Lexer` struct and the unused
  `curr_char_idx` have no effect. All of these are left out.
- LegacyLexer.Evaluate: `format!("{:?}", left_inner + right_inner)` is
  modelled as the constant text "0.0", because both operands stay `0f64`
  (the reads of the neighbouring literals are commented out). No f64
  arithmetic or formatting is modelled. Position 0 panics on
  `operator_index - 1` in a debug build and on the `unwrap` of the
  out-of-range `get` in a release build; both are the one error
  `UnwrapOnNone`.
- The older lexer's `Identifier` and `Keywords` variants wrap enums with no
  variants, so no value of either exists. They are left out of
  `LegacyLexer.Token`, and `Unknown` holds the piece's text instead of a
  `Chars` iterator.
- Lexer.Scanner.NextToken and Lexer.Scanner.Next require `Valid()`:
  `cursorStart == cursorEnd <= len` between calls. The constructor
  establishes it and every call keeps it. A scanner whose private fields
  were set otherwise is not modelled.
- The values of the keyword map in src/token.rs use that file's older
  token enum. Only its control-flow part is modelled (`Tokens.TableToken`).
- src/lib.rs is a WebAssembly bridge that marshals tokens into JavaScript
  objects through foreign calls; src/main.rs only prints tokens; the
  node/ directory is a web server and an editor highlighting configuration.
  None of these is part of this model. src/test.rs expects exclusive span
  ends, two-character operators and a `column` field that the code does
  not produce, so its expectations are not turned into contracts.
