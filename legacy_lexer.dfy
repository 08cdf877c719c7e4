/**
 * The older per-character lexer of toy-lang: a total one-character token
 * table, `tokenize` (which runs every piece of `input.split("")` after the
 * first through that table), `parse` (which groups operator and literal
 * tokens into statements ended by `SemiColon`) and the stub `execute`.
 *
 * The `Identifier` and `Keywords` variants of this lexer's token type wrap
 * enums without variants, so no token of either kind can exist; the model
 * leaves them out.
 */
module LegacyLexer {
  import opened Numeric
  import Tokens

  datatype LexingError = ConversionError

  datatype NumberToken = Integer(n: i64) | Float(f: F64)

  datatype DelimiterToken =
    | Space | Period | Comma
    | SingleQuote | DoubleQuote | BackTick
    | OpenParenthesis | CloseParenthesis
    | OpenBracket | CloseBracket
    | OpenBrace | CloseBrace
    | Colon | SemiColon | EOF | NewLine

  datatype LiteralToken = Number(number: NumberToken) | String(text: string)

  datatype OperatorToken = Plus | Minus | Multiply | Divide | Or | And | Not | Assign

  /** `Unknown` keeps the text of the piece it was made from. */
  datatype Token =
    | Operator(operator: OperatorToken)
    | Delimiter(delimiter: DelimiterToken)
    | Literal(literal: LiteralToken)
    | Unknown(text: string)

  // ---------------------------------------------------------------------
  // Numbers

  /**
   * `NumberToken::from(&str)` of this lexer: a text without `.` or `,` is
   * parsed as an i64, any other as an f64; a failed parse panics.
   */
  function NumberFromLexeme(s: string): (r: Result<NumberToken, Tokens.Panic>)
    ensures !Tokens.HasSeparator(s) ==> (r.Ok? <==> ParseI64(s).Some?) && (r.Ok? ==> r.value == Integer(ParseI64(s).value))
    ensures Tokens.HasSeparator(s) ==> (r.Ok? <==> IsF64Text(s)) && (r.Ok? ==> r.value == Float(Parsed(s)))
  {
    if !Tokens.HasSeparator(s) then
      match ParseI64(s)
      case Some(n) => Ok(Integer(n))
      case None => Err(Tokens.UnwrapOnParseError)
    else if IsF64Text(s) then Ok(Float(Parsed(s)))
    else Err(Tokens.UnwrapOnParseError)
  }

  /** The old and the new `NumberToken::from` accept the same texts and agree on every value. */
  lemma NumberFromLexemeAgrees(s: string)
    ensures NumberFromLexeme(s).Ok? <==> Tokens.NumberFromLexeme(s).Ok?
    ensures NumberFromLexeme(s).Ok? ==>
      match NumberFromLexeme(s).value
      case Integer(n) => Tokens.NumberFromLexeme(s).value == Tokens.SignedInteger(n)
      case Float(f) => Tokens.NumberFromLexeme(s).value == Tokens.Float(f)
  {
  }

  /** `i64::try_from(NumberToken)`: only an integer converts. */
  function ToI64(value: NumberToken): (r: Result<i64, LexingError>)
    ensures r.Ok? <==> value.Integer?
    ensures r.Ok? ==> Integer(r.value) == value
  {
    if value.Integer? then Ok(value.n) else Err(ConversionError)
  }

  /** A text parsed as an integer converts back to the i64 that `parse::<i64>` gives for it. */
  lemma LexemeToI64(s: string)
    requires NumberFromLexeme(s).Ok?
    ensures ToI64(NumberFromLexeme(s).value).Ok? <==> !Tokens.HasSeparator(s)
    ensures ToI64(NumberFromLexeme(s).value).Ok? ==> ParseI64(s) == Some(ToI64(NumberFromLexeme(s).value).value)
  {
  }

  /** The decimal text of every i64 goes through the lexeme parser and the conversion unchanged. */
  lemma I64RoundTrip(n: i64)
    ensures NumberFromLexeme(FormatI64(n)) == Ok(Integer(n))
    ensures ToI64(NumberFromLexeme(FormatI64(n)).value) == Ok(n)
  {
    ParseFormatI64(n);
    FormatHasNoSeparator(n);
  }

  lemma FormatHasNoSeparator(n: i64)
    ensures !Tokens.HasSeparator(FormatI64(n))
  {
    var s := FormatI64(n);
    if n < 0 {
      assert s[1..] == FormatNat(-(n as int));
    }
    var digits := if n < 0 then s[1..] else s;
    assert AllDigits(digits);
    assert forall i :: 0 <= i < |s| ==> s[i] == '-' || IsDigit(s[i]);
  }

  // ---------------------------------------------------------------------
  // The one-character table

  /** The characters with an arm of their own: ten digits, four operators, eight delimiters. */
  predicate HasArm(c: char)
  {
    IsDigit(c) || c == '+' || c == '-' || c == '/' || c == '*'
    || c == ' ' || c == '\'' || c == '"' || c == '`' || c == '{' || c == '}' || c == '[' || c == ']'
  }

  /**
   * The token of a one-character piece: a digit is the integer literal of
   * its value, a character without an arm is `Unknown` of itself, and no
   * character is a `SemiColon`.
   */
  function CharToken(c: char): (t: Token)
    ensures t.Literal? <==> IsDigit(c)
    ensures t.Literal? ==> t == Literal(Number(Integer(DigitValue(c))))
    ensures t.Unknown? <==> !HasArm(c)
    ensures !HasArm(c) ==> t == Unknown([c])
    ensures t != Delimiter(SemiColon)
  {
    match c
    case '0' => Literal(Number(Integer(0)))
    case '1' => Literal(Number(Integer(1)))
    case '2' => Literal(Number(Integer(2)))
    case '3' => Literal(Number(Integer(3)))
    case '4' => Literal(Number(Integer(4)))
    case '5' => Literal(Number(Integer(5)))
    case '6' => Literal(Number(Integer(6)))
    case '7' => Literal(Number(Integer(7)))
    case '8' => Literal(Number(Integer(8)))
    case '9' => Literal(Number(Integer(9)))
    case '+' => Operator(Plus)
    case '-' => Operator(Minus)
    case '/' => Operator(Divide)
    case '*' => Operator(Multiply)
    case ' ' => Delimiter(Space)
    case '\'' => Delimiter(SingleQuote)
    case '"' => Delimiter(DoubleQuote)
    case '`' => Delimiter(BackTick)
    case '{' => Delimiter(OpenBrace)
    case '}' => Delimiter(CloseBrace)
    case '[' => Delimiter(OpenBracket)
    case ']' => Delimiter(CloseBracket)
    case _ => Unknown([c])
  }

  /**
   * `Token::try_from(&str)`. Every arm of its `match` is a one-character
   * text, so a piece of any other length is `Unknown`. The conversion never
   * fails and never yields a `SemiColon`.
   */
  function TokenFromText(value: string): (r: Result<Token, LexingError>)
    ensures r.Ok?
    ensures r.value != Delimiter(SemiColon)
    ensures r.value.Unknown? ==> r.value.text == value
    ensures |value| != 1 ==> r.value == Unknown(value)
    ensures |value| == 1 && !HasArm(value[0]) ==> r.value == Unknown(value)
  {
    if |value| == 1 then
      var t := CharToken(value[0]);
      assert t.Unknown? ==> t.text == value;
      Ok(t)
    else Ok(Unknown(value))
  }

  /**
   * A piece becomes a number literal exactly when it is a single digit, and
   * the literal holds the value `parse::<i64>` gives for that digit.
   */
  lemma TokenFromDigit(value: string)
    ensures TokenFromText(value).value.Literal? <==> |value| == 1 && IsDigit(value[0])
    ensures TokenFromText(value).value.Literal? ==>
      TokenFromText(value).value == Literal(Number(Integer(ParseI64(value).value)))
  {
    if |value| == 1 && IsDigit(value[0]) {
      assert value[..0] == [];
    }
  }

  /** A one-character piece goes through the character table. */
  lemma TokenFromChar(c: char)
    ensures TokenFromText([c]) == Ok(CharToken(c))
  {
    assert [c][0] == c;
  }

  /** The operator arms of the table. */
  lemma TokenFromOperators()
    ensures TokenFromText("+").value == Operator(Plus) && TokenFromText("-").value == Operator(Minus)
    ensures TokenFromText("/").value == Operator(Divide) && TokenFromText("*").value == Operator(Multiply)
  {
    TokenFromChar('+'); TokenFromChar('-'); TokenFromChar('/'); TokenFromChar('*');
  }

  /** The delimiter arms of the table. */
  lemma TokenFromDelimiters()
    ensures TokenFromText(" ").value == Delimiter(Space) && TokenFromText("'").value == Delimiter(SingleQuote)
    ensures TokenFromText("\"").value == Delimiter(DoubleQuote) && TokenFromText("`").value == Delimiter(BackTick)
    ensures TokenFromText("{").value == Delimiter(OpenBrace) && TokenFromText("}").value == Delimiter(CloseBrace)
    ensures TokenFromText("[").value == Delimiter(OpenBracket) && TokenFromText("]").value == Delimiter(CloseBracket)
  {
    TokenFromChar(' '); TokenFromChar('\''); TokenFromChar('"'); TokenFromChar('`');
    TokenFromChar('{'); TokenFromChar('}'); TokenFromChar('['); TokenFromChar(']');
  }

  /** A semicolon, like every character without an arm, and the empty piece are `Unknown`. */
  lemma TokenFromOthers()
    ensures TokenFromText(";").value == Unknown(";") && TokenFromText("").value == Unknown("")
  {
  }

  // ---------------------------------------------------------------------
  // tokenize

  /** `s.split("")`: an empty piece, one piece per character, and another empty piece. */
  function SplitEmpty(s: string): (pieces: seq<string>)
    ensures |pieces| == |s| + 2
  {
    [""] + Singletons(s) + [""]
  }

  function Singletons(s: string): (pieces: seq<string>)
    ensures |pieces| == |s|
    ensures forall i :: 0 <= i < |s| ==> pieces[i] == [s[i]]
  {
    if s == [] then [] else [[s[0]]] + Singletons(s[1..])
  }

  function Concat(pieces: seq<string>): string
  {
    if pieces == [] then "" else pieces[0] + Concat(pieces[1..])
  }

  lemma {:induction false} ConcatAppend(a: seq<string>, b: seq<string>)
    ensures Concat(a + b) == Concat(a) + Concat(b)
  {
    if a == [] {
      assert a + b == b;
    } else {
      assert (a + b)[0] == a[0];
      assert (a + b)[1..] == a[1..] + b;
      ConcatAppend(a[1..], b);
    }
  }

  lemma {:induction false} ConcatSingletons(s: string)
    ensures Concat(Singletons(s)) == s
  {
    if s != [] {
      ConcatSingletons(s[1..]);
    }
  }

  /** Splitting on the empty pattern loses nothing: the pieces join back into the text. */
  lemma SplitJoin(s: string)
    ensures Concat(SplitEmpty(s)) == s
  {
    ConcatAppend([""] + Singletons(s), [""]);
    ConcatAppend([""], Singletons(s));
    ConcatSingletons(s);
  }

  /** The fold in `tokenize`: each piece through `Token::try_from`, unwrapped, in order. */
  function TokenizePieces(pieces: seq<string>): (ts: seq<Token>)
    ensures |ts| == |pieces|
  {
    if pieces == [] then [] else [TokenFromText(pieces[0]).value] + TokenizePieces(pieces[1..])
  }

  lemma {:induction false} TokenizePiecesAt(pieces: seq<string>, i: nat)
    requires i < |pieces|
    ensures TokenizePieces(pieces)[i] == TokenFromText(pieces[i]).value
  {
    if i > 0 {
      TokenizePiecesAt(pieces[1..], i - 1);
    }
  }

  /**
   * `Lexer::tokenize`: every piece of `input.split("")` after the first. It
   * yields one token more than the input has characters, the last one
   * `Unknown("")`, and never a `SemiColon`.
   */
  function Tokenize(input: string): (ts: seq<Token>)
    ensures |ts| == |input| + 1
    ensures ts[|input|] == Unknown("")
    ensures SemiColonCount(ts) == 0
  {
    var pieces := SplitEmpty(input)[1..];
    TokenizePiecesAt(pieces, |input|);
    PiecesHaveNoSemiColon(pieces);
    TokenizePieces(pieces)
  }

  /** One token per character, then an `Unknown` for the trailing empty piece. */
  lemma TokenizeShape(input: string)
    ensures |Tokenize(input)| == |input| + 1
    ensures forall i :: 0 <= i < |input| ==> Tokenize(input)[i] == TokenFromText([input[i]]).value
    ensures Tokenize(input)[|input|] == Unknown("")
  {
    var pieces := SplitEmpty(input)[1..];
    assert pieces == Singletons(input) + [""];
    forall i | 0 <= i <= |input|
      ensures Tokenize(input)[i] == TokenFromText(pieces[i]).value
    {
      TokenizePiecesAt(pieces, i);
    }
  }

  // ---------------------------------------------------------------------
  // parse

  predicate IsSemiColon(t: Token) { t == Delimiter(SemiColon) }

  /** The tokens a statement keeps: operators and literals. */
  predicate IsKept(t: Token) { t.Operator? || t.Literal? }

  /**
   * The statements `parse` builds from `ts` when `current` holds the kept
   * tokens since the last `SemiColon`.
   */
  function Statements(ts: seq<Token>, current: seq<Token>): (r: seq<seq<Token>>)
    ensures |r| == SemiColonCount(ts)
  {
    if ts == [] then []
    else if IsSemiColon(ts[0]) then [current] + Statements(ts[1..], [])
    else if IsKept(ts[0]) then Statements(ts[1..], current + [ts[0]])
    else Statements(ts[1..], current)
  }

  /** `parse`: the `for` loop over the token stream. */
  method Parse(tokenStream: seq<Token>) returns (tree: seq<seq<Token>>)
    ensures tree == Statements(tokenStream, [])
  {
    tree := [];
    var currentStatement: seq<Token> := [];
    for i := 0 to |tokenStream|
      invariant tree + Statements(tokenStream[i..], currentStatement) == Statements(tokenStream, [])
    {
      var token := tokenStream[i];
      assert tokenStream[i..][1..] == tokenStream[i + 1..];
      match token {
        case Operator(_) =>
          currentStatement := currentStatement + [token];
        case Literal(_) =>
          currentStatement := currentStatement + [token];
        case Delimiter(delimiter) =>
          if delimiter == SemiColon {
            tree := tree + [currentStatement];
            currentStatement := [];
          }
        case Unknown(_) =>
      }
    }
    assert tokenStream[|tokenStream|..] == [];
  }

  function SemiColonCount(ts: seq<Token>): nat
  {
    if ts == [] then 0 else (if IsSemiColon(ts[0]) then 1 else 0) + SemiColonCount(ts[1..])
  }

  /** The kept tokens of `ts`, in order. */
  function Kept(ts: seq<Token>): (r: seq<Token>)
    ensures forall t :: t in r ==> IsKept(t)
  {
    if ts == [] then [] else (if IsKept(ts[0]) then [ts[0]] else []) + Kept(ts[1..])
  }

  /** Tokens after the last `SemiColon` are discarded. */
  lemma {:induction false} TrailingTokensDropped(ts: seq<Token>, current: seq<Token>)
    requires SemiColonCount(ts) == 0
    ensures Statements(ts, current) == []
  {
  }

  /**
   * A statement holds, in order, the kept tokens since the previous
   * `SemiColon`; the rest of the stream is parsed afresh.
   */
  lemma {:induction false} StatementContents(segment: seq<Token>, rest: seq<Token>, current: seq<Token>)
    requires SemiColonCount(segment) == 0
    ensures Statements(segment + [Delimiter(SemiColon)] + rest, current) == [current + Kept(segment)] + Statements(rest, [])
  {
    if segment == [] {
      var ts := segment + [Delimiter(SemiColon)] + rest;
      assert ts[0] == Delimiter(SemiColon) && ts[1..] == rest;
      assert current + Kept(segment) == current;
    } else {
      var ts := segment + [Delimiter(SemiColon)] + rest;
      assert ts[0] == segment[0];
      assert ts[1..] == segment[1..] + [Delimiter(SemiColon)] + rest;
      if IsKept(segment[0]) {
        StatementContents(segment[1..], rest, current + [segment[0]]);
        assert current + [segment[0]] + Kept(segment[1..]) == current + Kept(segment);
      } else {
        StatementContents(segment[1..], rest, current);
        assert Kept(segment) == Kept(segment[1..]);
      }
    }
  }

  lemma {:induction false} PiecesHaveNoSemiColon(pieces: seq<string>)
    ensures SemiColonCount(TokenizePieces(pieces)) == 0
  {
    if pieces != [] {
      PiecesHaveNoSemiColon(pieces[1..]);
    }
  }

  /** The table never yields a `SemiColon`, so parsing any tokenized text gives no statement. */
  lemma ParseTokenizeIsEmpty(input: string)
    ensures Statements(Tokenize(input), []) == []
  {
    TrailingTokensDropped(Tokenize(input), []);
  }

  // ---------------------------------------------------------------------
  // execute

  /**
   * The text `execute` stores for a `Plus`: `format!("{:?}", left + right)`
   * where both operands stay `0f64`, because the reads of the neighbouring
   * literals are commented out.
   */
  const PLUS_RESULT: string := "0.0"

  /**
   * The inner loop of `execute` over the operator positions `operatorIdxs`
   * of `statement`, with `result` the text so far. A position whose
   * operator or either neighbour is missing makes an `unwrap` on `None`
   * panic (position 0 has no left neighbour); a `Plus` stores
   * `PLUS_RESULT`; every other token leaves the result as it is.
   */
  function Evaluation(statement: seq<Token>, operatorIdxs: seq<nat>, result: string): Result<string, Tokens.Panic>
  {
    if operatorIdxs == [] then Ok(result)
    else
      var i := operatorIdxs[0];
      if i == 0 || i + 1 >= |statement| then Err(Tokens.UnwrapOnNone)
      else Evaluation(statement, operatorIdxs[1..], if statement[i] == Operator(Plus) then PLUS_RESULT else result)
  }

  /**
   * The inner loop panics exactly when some position lacks an operator or a
   * neighbour; otherwise the result is `PLUS_RESULT` when some position
   * holds a `Plus`, and unchanged when none does.
   */
  lemma {:induction false} EvaluationOutcome(statement: seq<Token>, operatorIdxs: seq<nat>, result: string)
    ensures Evaluation(statement, operatorIdxs, result).Ok? <==>
      forall j :: 0 <= j < |operatorIdxs| ==> 0 < operatorIdxs[j] && operatorIdxs[j] + 1 < |statement|
    ensures Evaluation(statement, operatorIdxs, result).Ok? ==>
      Evaluation(statement, operatorIdxs, result).value ==
        if exists j :: 0 <= j < |operatorIdxs| && operatorIdxs[j] < |statement| && statement[operatorIdxs[j]] == Operator(Plus)
        then PLUS_RESULT else result
  {
    if operatorIdxs != [] {
      var i := operatorIdxs[0];
      var rest := operatorIdxs[1..];
      if !(i == 0 || i + 1 >= |statement|) {
        var next := if statement[i] == Operator(Plus) then PLUS_RESULT else result;
        EvaluationOutcome(statement, rest, next);
        assert forall j :: 0 <= j < |rest| ==> rest[j] == operatorIdxs[j + 1];
        if Evaluation(statement, operatorIdxs, result).Ok? && statement[i] != Operator(Plus) {
          if exists j :: 0 <= j < |operatorIdxs| && operatorIdxs[j] < |statement| && statement[operatorIdxs[j]] == Operator(Plus) {
            var j :| 0 <= j < |operatorIdxs| && operatorIdxs[j] < |statement| && statement[operatorIdxs[j]] == Operator(Plus);
            assert rest[j - 1] == operatorIdxs[j];
          }
        }
      }
    }
  }

  /** The `for operator_index in operator_idxs` loop of `execute`. */
  method Evaluate(statement: seq<Token>, operatorIdxs: seq<nat>, result: string) returns (outcome: Result<string, Tokens.Panic>)
    ensures outcome == Evaluation(statement, operatorIdxs, result)
  {
    var current := result;
    for k := 0 to |operatorIdxs|
      invariant Evaluation(statement, operatorIdxs[k..], current) == Evaluation(statement, operatorIdxs, result)
    {
      assert operatorIdxs[k..][1..] == operatorIdxs[k + 1..];
      var operatorIndex := operatorIdxs[k];
      if operatorIndex == 0 || operatorIndex + 1 >= |statement| {
        return Err(Tokens.UnwrapOnNone);
      }
      match statement[operatorIndex] {
        case Operator(Plus) => current := PLUS_RESULT;
        case _ =>
      }
    }
    assert operatorIdxs[|operatorIdxs|..] == [];
    return Ok(current);
  }

  /**
   * `execute`: for each statement the list of operator positions is created
   * empty and never filled, so the inner loop has nothing to visit, nothing
   * panics and the result stays empty.
   */
  method Execute(input: seq<seq<Token>>) returns (outcome: Result<string, Tokens.Panic>)
    ensures outcome == Ok("")
  {
    outcome := Ok("");
    for s := 0 to |input|
      invariant outcome == Ok("")
    {
      var operatorIdxs: seq<nat> := [];
      outcome := Evaluate(input[s], operatorIdxs, outcome.value);
    }
  }
}
