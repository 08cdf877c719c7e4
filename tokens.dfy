/**
 * The token vocabulary of the toy-lang scanner (the `TokenType` it emits and
 * the `TokenSpan` it records), the `NumberToken` value type with its
 * overflow-checked widening addition, and the constant keyword table.
 */
module Tokens {
  import opened Numeric

  // ---------------------------------------------------------------------
  // Numbers

  datatype NumberToken =
    | SignedInteger(s: i64)
    | UnsignedInteger(u: u64)
    | Float(f: F64)

  predicate IsInteger(n: NumberToken) { n.SignedInteger? || n.UnsignedInteger? }

  function IntValue(n: NumberToken): int
    requires IsInteger(n)
  {
    if n.SignedInteger? then n.s else n.u
  }

  /**
   * The error of an `unwrap` that fails, on a parse error or on `None`: the
   * program panics.
   */
  datatype Panic = UnwrapOnParseError | UnwrapOnNone

  predicate HasSeparator(s: string) { '.' in s || ',' in s }

  /**
   * `NumberToken::from(&str)`: a lexeme without `.` or `,` is parsed as an
   * i64, any other as an f64; a parse failure panics.
   */
  function NumberFromLexeme(s: string): (r: Result<NumberToken, Panic>)
    ensures r.Ok? ==> !r.value.UnsignedInteger?
    ensures !HasSeparator(s) ==> (r.Ok? <==> ParseI64(s).Some?)
    ensures !HasSeparator(s) && r.Ok? ==> r.value == SignedInteger(ParseI64(s).value)
    ensures HasSeparator(s) ==> (r.Ok? <==> IsF64Text(s)) && (r.Ok? ==> r.value.Float?)
  {
    if !HasSeparator(s) then
      match ParseI64(s)
      case Some(n) => Ok(SignedInteger(n))
      case None => Err(UnwrapOnParseError)
    else if IsF64Text(s) then Ok(Float(Parsed(s)))
    else Err(UnwrapOnParseError)
  }

  /** `a as f64` for any number token. */
  function AsF64(n: NumberToken): (r: F64)
    ensures IsInteger(n) ==> r == FromInt(IntValue(n))
    ensures n.Float? ==> r == n.f
  {
    match n
    case SignedInteger(x) => FromInt(x)
    case UnsignedInteger(x) => FromInt(x)
    case Float(x) => x
  }

  /**
   * `impl Add for NumberToken`. Two integers of the same signedness stay in
   * that type while `checked_add` succeeds; mixed integers become signed when
   * the unsigned operand fits in i64 and the sum does; everything else is the
   * f64 sum of the operands. The addition never wraps.
   */
  function AddNumbers(a: NumberToken, b: NumberToken): (r: NumberToken)
    ensures IsInteger(r) ==> IsInteger(a) && IsInteger(b) && IntValue(r) == IntValue(a) + IntValue(b)
    ensures a.Float? || b.Float? ==> r.Float?
    ensures r.Float? ==> r.f == Sum(AsF64(a), AsF64(b))
  {
    var fallback := Float(Sum(AsF64(a), AsF64(b)));
    match (a, b)
    case (SignedInteger(l), SignedInteger(r)) =>
      if InI64(l + r) then SignedInteger(l + r) else fallback
    case (UnsignedInteger(l), UnsignedInteger(r)) =>
      if InU64(l + r) then UnsignedInteger(l + r) else fallback
    case (SignedInteger(l), UnsignedInteger(r)) =>
      if r <= I64_MAX then (if InI64(l + r) then SignedInteger(l + r) else fallback)
      else fallback
    case (UnsignedInteger(l), SignedInteger(r)) =>
      if l <= I64_MAX then (if InI64(l + r) then SignedInteger(l + r) else fallback)
      else fallback
    case _ => fallback
  }

  lemma AddSigned(a: i64, b: i64)
    ensures AddNumbers(SignedInteger(a), SignedInteger(b)) ==
      if InI64(a + b) then SignedInteger(a + b) else Float(Sum(FromInt(a), FromInt(b)))
  {
  }

  lemma AddUnsigned(a: u64, b: u64)
    ensures AddNumbers(UnsignedInteger(a), UnsignedInteger(b)) ==
      if a + b <= U64_MAX then UnsignedInteger(a + b) else Float(Sum(FromInt(a), FromInt(b)))
  {
  }

  /** Mixed signedness: a signed result exactly when both range checks pass. */
  lemma AddMixed(a: i64, b: u64)
    ensures AddNumbers(SignedInteger(a), UnsignedInteger(b)).SignedInteger? <==> b <= I64_MAX && InI64(a + b)
    ensures AddNumbers(UnsignedInteger(b), SignedInteger(a)).SignedInteger? <==> b <= I64_MAX && InI64(a + b)
    ensures !AddNumbers(SignedInteger(a), UnsignedInteger(b)).SignedInteger? ==> AddNumbers(SignedInteger(a), UnsignedInteger(b)).Float?
    ensures !AddNumbers(UnsignedInteger(b), SignedInteger(a)).SignedInteger? ==> AddNumbers(UnsignedInteger(b), SignedInteger(a)).Float?
  {
  }

  /** Whenever the sum is an integer, the operand order does not matter. */
  lemma AddIntegerCommutes(a: NumberToken, b: NumberToken)
    requires IsInteger(AddNumbers(a, b))
    ensures AddNumbers(b, a) == AddNumbers(a, b)
  {
  }

  // ---------------------------------------------------------------------
  // The token vocabulary emitted by the scanner

  datatype WhiteSpaceToken = Space | Tab | NewLine

  datatype PunctuatorToken = Semicolon | Comma | Dot | Colon

  datatype DelimiterToken =
    | SingleQuote | DoubleQuote | BackTick
    | OpenParenthesis | CloseParenthesis
    | OpenBracket | CloseBracket
    | OpenBrace | CloseBrace
    | EOF

  datatype LiteralToken =
    | Number(number: NumberToken)
    | String(text: string)
    | Boolean(b: bool)
    | Null
    | Undefined

  datatype ArithmeticToken =
    | Add | Subtract | Multiply | Divide | BitwiseAnd | BitwiseOr | Or | And | Modulo

  datatype ComparisonToken =
    | Equal | NotEqual | GreaterThan | GreaterThanOrEqual | LessThan | LessThanOrEqual | Not

  datatype AssignmentToken =
    | Assign | PlusAssign | MinusAssign | MultiplyAssign | DivideAssign
    | BitwiseAndAssign | BitwiseOrAssign | OrAssign | AndAssign

  datatype ControlFlowToken = If | Else | For | In | Has | Return

  datatype DeclarationToken = Let | Function | Object

  datatype ObjectReferenceToken = This | Super | New

  datatype LogicalToken = And | Or | Not | XOr | XAnd

  datatype TokenType =
    | Identifier(name: string)
    | Literal(literal: LiteralToken)
    | WhiteSpace(space: WhiteSpaceToken)
    | Delimiter(delimiter: DelimiterToken)
    | Punctuation(punctuation: PunctuatorToken)
    | Arithmetic(arithmetic: ArithmeticToken)
    | Comparison(comparison: ComparisonToken)
    | Assignment(assignment: AssignmentToken)
    | ControlFlow(controlFlow: ControlFlowToken)
    | Declaration(declaration: DeclarationToken)
    | ObjectReference(objectReference: ObjectReferenceToken)
    | Logical(logical: LogicalToken)
    | Unknown(c: char)

  /** `end` is the index of the token's last character, not one past it. */
  datatype TokenSpan = TokenSpan(start: nat, end: nat, line: nat)

  datatype Token = Token(tokenType: TokenType, span: TokenSpan)

  // ---------------------------------------------------------------------
  // The constant keyword table. Its values use the file's own older `Token`
  // enum, of which only the control-flow variant occurs in the table.

  datatype TableFlow = TableIf | TableElse | TableLet | TableFor | TableIn | TableHas

  datatype TableToken = TableControlFlow(flow: TableFlow)

  const KEYWORDS: seq<string> := ["if", "let", "for", "in", "has"]

  const KEYWORD_STRING_TO_TOKEN: map<string, TableToken> := map[
    "if" := TableControlFlow(TableIf),
    "let" := TableControlFlow(TableLet),
    "for" := TableControlFlow(TableFor),
    "in" := TableControlFlow(TableIn),
    "has" := TableControlFlow(TableHas)
  ]

  /** The keyword list and the keyword map name exactly the same five words. */
  lemma KeywordTablesAgree()
    ensures |KEYWORDS| == 5
    ensures forall i, j :: 0 <= i < j < |KEYWORDS| ==> KEYWORDS[i] != KEYWORDS[j]
    ensures forall w :: w in KEYWORD_STRING_TO_TOKEN <==> w in KEYWORDS
    ensures KEYWORD_STRING_TO_TOKEN["let"] == TableControlFlow(TableLet)
  {
  }
}
