/**
 * The toy-lang scanner: a cursor machine over an owned input text that
 * produces one token per call.
 *
 * The first half of the module states, as functions, what one call of
 * `next_token` produces (`Step`) and what draining the iterator produces
 * (`Drain`), and proves the scanner's properties about them. The second half
 * is the `Scanner` class itself, whose methods are proved against `Step`.
 *
 * Positions are indices into the input as a sequence of characters, and
 * character classes are ASCII ones.
 */
module Lexer {
  import opened Numeric
  import opened Tokens

  // ---------------------------------------------------------------------
  // Character classes

  /** `char::is_alphanumeric`, restricted to ASCII. */
  predicate IsAlphanumeric(c: char) { 'a' <= c <= 'z' || 'A' <= c <= 'Z' || '0' <= c <= '9' }

  /** `char::is_whitespace`, restricted to ASCII: space and U+0009 to U+000D. */
  predicate IsWhitespace(c: char) { c == ' ' || 9 <= c as int <= 13 }

  // ---------------------------------------------------------------------
  // Words

  /**
   * The index of the last character of the word that starts at `i`: the
   * first character is always taken, and scanning goes on only while the
   * current character is alphanumeric and a next, non-whitespace character
   * exists.
   */
  function WordEnd(input: string, i: nat): (e: nat)
    requires i < |input|
    ensures i <= e < |input|
    decreases |input| - i
  {
    if IsAlphanumeric(input[i]) && i + 1 < |input| && !IsWhitespace(input[i + 1]) then
      WordEnd(input, i + 1)
    else
      i
  }

  /**
   * The word is the longest run that the loop can take: every character but
   * the last is alphanumeric, no character after the first is whitespace,
   * and the loop could not have taken one more character.
   */
  lemma {:induction false} WordEndIsMaximal(input: string, i: nat)
    requires i < |input|
    ensures var e := WordEnd(input, i);
      && (forall k :: i <= k < e ==> IsAlphanumeric(input[k]))
      && (forall k :: i < k <= e ==> !IsWhitespace(input[k]))
      && !(IsAlphanumeric(input[e]) && e + 1 < |input| && !IsWhitespace(input[e + 1]))
    decreases |input| - i
  {
    if IsAlphanumeric(input[i]) && i + 1 < |input| && !IsWhitespace(input[i + 1]) {
      WordEndIsMaximal(input, i + 1);
    }
  }

  /**
   * The arms of the `match` in `next_token` with a fixed meaning (other than
   * the three quotes and the newline, whose arms have effects on the
   * scanner), in source order. A one-character word can only match a
   * one-character arm, so those arms are keyed by their character.
   */
  const KEYWORD_ARMS: seq<(string, TokenType)> := [
    ("let", Declaration(Let)), ("fn", Declaration(Function)), ("obj", Declaration(Object)),
    ("true", Literal(Boolean(true))), ("false", Literal(Boolean(false))),
    ("null", Literal(Null)), ("undefined", Literal(Undefined)),
    ("this", ObjectReference(This)), ("super", ObjectReference(Super)), ("new", ObjectReference(New)),
    ("if", ControlFlow(If)), ("for", ControlFlow(For)), ("else", ControlFlow(Else)),
    ("in", ControlFlow(In)), ("has", ControlFlow(Has)), ("return", ControlFlow(Return))
  ]

  const SYMBOL_ARMS: seq<(char, TokenType)> := [
    (' ', WhiteSpace(Space)), ('\t', WhiteSpace(Tab)),
    ('(', Delimiter(OpenParenthesis)), (')', Delimiter(CloseParenthesis)),
    ('[', Delimiter(OpenBrace)), (']', Delimiter(CloseBrace)),
    ('{', Delimiter(OpenBracket)), ('}', Delimiter(CloseBracket)),
    (',', Punctuation(Comma)), ('.', Punctuation(Dot)), (':', Punctuation(Colon)), (';', Punctuation(Semicolon)),
    ('+', Arithmetic(ArithmeticToken.Add)), ('-', Arithmetic(Subtract)), ('=', Assignment(Assign)),
    ('/', Arithmetic(Divide)), ('&', Arithmetic(ArithmeticToken.And)), ('|', Arithmetic(ArithmeticToken.Or)),
    ('*', Arithmetic(Multiply)), ('!', Comparison(ComparisonToken.Not)),
    ('>', Comparison(GreaterThan)), ('<', Comparison(LessThan))
  ]

  /** The first arm at index `k` or later whose key is `key`, as a `match` picks it. */
  function Lookup<K(==)>(arms: seq<(K, TokenType)>, key: K, k: nat): Option<TokenType>
    decreases |arms| - k
  {
    if k >= |arms| then None
    else if arms[k].0 == key then Some(arms[k].1)
    else Lookup(arms, key, k + 1)
  }

  /** The lookup finds an arm with the key exactly when there is one, and returns that arm's value. */
  lemma {:induction false} LookupFound<K>(arms: seq<(K, TokenType)>, key: K, k: nat)
    ensures var r := Lookup(arms, key, k);
      && (r.Some? ==> exists j :: k <= j < |arms| && arms[j] == (key, r.value))
      && (r.None? ==> forall j :: k <= j < |arms| ==> arms[j].0 != key)
    decreases |arms| - k
  {
    if k < |arms| && arms[k].0 != key {
      LookupFound(arms, key, k + 1);
    }
  }

  /** No arm from `k` on has the key, so the lookup finds nothing. */
  lemma {:induction false} LookupMissing<K>(arms: seq<(K, TokenType)>, key: K, k: nat)
    requires forall j :: k <= j < |arms| ==> arms[j].0 != key
    ensures Lookup(arms, key, k) == None
    decreases |arms| - k
  {
    if k < |arms| {
      LookupMissing(arms, key, k + 1);
    }
  }

  /** The arm at index `i` is taken when no arm between `k` and it has the same key. */
  lemma {:induction false} LookupFirst<K>(arms: seq<(K, TokenType)>, key: K, k: nat, i: nat)
    requires k <= i < |arms| && arms[i].0 == key
    requires forall j :: k <= j < i ==> arms[j].0 != key
    ensures Lookup(arms, key, k) == Some(arms[i].1)
    decreases i - k
  {
    if k < i {
      LookupFirst(arms, key, k + 1, i);
    }
  }

  /** A token type the word arms and the number parsers can give. */
  predicate IsWordType(t: TokenType)
  {
    !t.Unknown? && t != Delimiter(EOF) && !(t.Literal? && t.literal.String?) && t != WhiteSpace(NewLine)
  }

  /** No fixed arm yields an identifier, unknown, end-of-input, string or newline token; every keyword is a lower-case word and no symbol is alphanumeric. */
  lemma ArmsAreWordTypes()
    ensures forall j :: 0 <= j < |KEYWORD_ARMS| ==> IsWordType(KEYWORD_ARMS[j].1) && !KEYWORD_ARMS[j].1.Identifier?
    ensures forall j :: 0 <= j < |SYMBOL_ARMS| ==> IsWordType(SYMBOL_ARMS[j].1) && !SYMBOL_ARMS[j].1.Identifier?
    ensures forall j :: 0 <= j < |SYMBOL_ARMS| ==> !IsAlphanumeric(SYMBOL_ARMS[j].0)
    ensures forall j :: 0 <= j < |KEYWORD_ARMS| ==> |KEYWORD_ARMS[j].0| >= 2 && 'a' <= KEYWORD_ARMS[j].0[0] <= 'z'
  {
  }

  /**
   * The fixed meaning of a word, if one of the keyword or single-character
   * arms matches it. Such a word is never an identifier or unknown; a
   * matched keyword is a lower-case word and a matched symbol is not
   * alphanumeric.
   */
  function FixedWord(word: string): (r: Option<TokenType>)
    ensures r.Some? ==> IsWordType(r.value) && !r.value.Identifier?
    ensures r.Some? && |word| != 1 ==> |word| >= 2 && 'a' <= word[0] <= 'z'
    ensures r.Some? && |word| == 1 ==> !IsAlphanumeric(word[0])
  {
    ArmsAreWordTypes();
    if |word| == 1 then
      LookupFound(SYMBOL_ARMS, word[0], 0);
      Lookup(SYMBOL_ARMS, word[0], 0)
    else
      LookupFound(KEYWORD_ARMS, word, 0);
      Lookup(KEYWORD_ARMS, word, 0)
  }

  /**
   * The token type of a word that is neither a quote nor a newline: its
   * fixed meaning, else a signed integer if it parses as i64, else a float
   * if it parses as f64, else an identifier.
   */
  function Classify(word: string): (t: TokenType)
    ensures IsWordType(t)
  {
    match FixedWord(word)
    case Some(t) => t
    case None =>
      match ParseI64(word)
      case Some(n) => Literal(Number(SignedInteger(n)))
      case None => if IsF64Text(word) then Literal(Number(Float(Parsed(word)))) else Identifier(word)
  }

  /** No two arms of a table share a key, so no arm is shadowed by an earlier one. */
  lemma ArmKeysDistinct()
    ensures forall i, j :: 0 <= i < j < |KEYWORD_ARMS| ==> KEYWORD_ARMS[i].0 != KEYWORD_ARMS[j].0
    ensures forall i, j :: 0 <= i < j < |SYMBOL_ARMS| ==> SYMBOL_ARMS[i].0 != SYMBOL_ARMS[j].0
  {
  }

  /**
   * Every arm's word is classified as that arm's token type: the fixed arms
   * take precedence over the number parsers, so no keyword becomes an
   * identifier or a number.
   */
  lemma ClassifyArms()
    ensures forall k :: 0 <= k < |KEYWORD_ARMS| ==> Classify(KEYWORD_ARMS[k].0) == KEYWORD_ARMS[k].1
    ensures forall k :: 0 <= k < |SYMBOL_ARMS| ==> Classify([SYMBOL_ARMS[k].0]) == SYMBOL_ARMS[k].1
  {
    ArmKeysDistinct();
    ArmsAreWordTypes();
    forall k | 0 <= k < |KEYWORD_ARMS|
      ensures Classify(KEYWORD_ARMS[k].0) == KEYWORD_ARMS[k].1
    {
      LookupFirst(KEYWORD_ARMS, KEYWORD_ARMS[k].0, 0, k);
    }
    forall k | 0 <= k < |SYMBOL_ARMS|
      ensures Classify([SYMBOL_ARMS[k].0]) == SYMBOL_ARMS[k].1
    {
      LookupFirst(SYMBOL_ARMS, SYMBOL_ARMS[k].0, 0, k);
    }
  }

  /** No word that `parse::<i64>` accepts has an arm of its own: numbers are never keywords or symbols. */
  lemma NumbersAreNotArms(word: string)
    requires ParseI64(word).Some?
    ensures FixedWord(word).None?
  {
    var digits := if word[0] == '-' || word[0] == '+' then word[1..] else word;
    DigitsValueIsDecimal(digits);
    assert IsDigit(digits[0]);
  }

  /** Every text `parse::<i64>` accepts is lexed as that signed integer. */
  lemma ClassifyInteger(word: string)
    requires ParseI64(word).Some?
    ensures Classify(word) == Literal(Number(SignedInteger(ParseI64(word).value)))
  {
    NumbersAreNotArms(word);
  }

  /** The decimal text of any i64 is lexed back as that integer. */
  lemma IntegerRoundTrip(n: i64)
    ensures Classify(FormatI64(n)) == Literal(Number(SignedInteger(n)))
  {
    ParseFormatI64(n);
    ClassifyInteger(FormatI64(n));
  }

  /**
   * A word is an identifier exactly when it has no arm and `parse::<f64>`
   * rejects it (every i64 text is an f64 text too); its name is the word.
   */
  lemma ClassifyIdentifier(word: string)
    ensures Classify(word).Identifier? <==> FixedWord(word).None? && !IsF64Text(word)
    ensures Classify(word).Identifier? ==> Classify(word).name == word
  {
    if ParseI64(word).Some? {
      I64TextIsF64Text(word);
    }
  }

  /** A word with no arm that `parse::<i64>` rejects and `parse::<f64>` accepts is lexed as that float. */
  lemma ClassifyFloat(word: string)
    requires FixedWord(word).None? && ParseI64(word).None? && IsF64Text(word)
    ensures Classify(word) == Literal(Number(Float(Parsed(word))))
  {
  }

  /** `inf` is not a keyword: the f64 parser's infinity makes a float, not an identifier. */
  lemma InfinityIsFloat()
    ensures Classify("inf") == Literal(Number(Float(Parsed("inf"))))
  {
    forall j | 0 <= j < |KEYWORD_ARMS|
      ensures KEYWORD_ARMS[j].0 != "inf"
    {
      assert KEYWORD_ARMS[j].0 != "inf" by {
        if |KEYWORD_ARMS[j].0| == 3 {
          assert KEYWORD_ARMS[j].0[2] != 'f';
        }
      }
    }
    LookupMissing(KEYWORD_ARMS, "inf", 0);
    assert IsF64Text("inf");
    assert ParseI64("inf").None?;
  }

  /** `NaN`, in any case, makes a float. */
  lemma NotANumberIsFloat()
    ensures Classify("NaN") == Literal(Number(Float(Parsed("NaN"))))
  {
    assert IsF64Text("NaN");
  }

  /** A number with an exponent makes a float. */
  lemma ExponentIsFloat()
    ensures Classify("1e5") == Literal(Number(Float(Parsed("1e5"))))
  {
    assert IsF64Text("1e5");
    assert DigitsValue("1e5").None?;
  }

  /** A run of digits too large for i64 is lexed as a float, not an error. */
  lemma {:induction false} LongIntegerIsFloat(word: string)
    requires |word| > 0 && AllDigits(word) && DecimalValue(word) > I64_MAX
    ensures Classify(word) == Literal(Number(Float(Parsed(word))))
  {
    assert IsDigit(word[0]);
    ParseI64Rejects(word);
    DigitsAccepted(word[1..]);
  }

  // ---------------------------------------------------------------------
  // String literals

  /** The character an escape sequence `\c` stands for. */
  function EscapedChar(c: char): (r: char)
    ensures r != c <==> c == 'n' || c == 't' || c == 'r'
    ensures r != c ==> IsWhitespace(r) && r != ' '
    ensures c == 'n' ==> r == '\n'
    ensures c == 't' ==> r == '\t'
    ensures c == 'r' ==> r == '\r'
  {
    match c
    case 'n' => '\n'
    case 't' => '\t'
    case 'r' => '\r'
    case '\\' => '\\'
    case '"' => '"'
    case '\'' => '\''
    case '`' => '`'
    case _ => c
  }

  /**
   * The result of the string-literal sub-scanner: the decoded payload, the
   * index of the last character consumed, and whether the literal was closed
   * by its delimiter (rather than by the end of the input).
   */
  datatype StringLiteral = StringLiteral(payload: string, last: nat, closed: bool)

  /**
   * The sub-scanner started with the cursor on index `i`: it looks at the
   * characters after `i` one at a time until an unescaped `delimiter`.
   */
  function ScanString(input: string, i: nat, delimiter: char, escaped: bool): (lit: StringLiteral)
    requires i < |input|
    ensures i <= lit.last < |input|
    ensures lit.closed ==> i < lit.last && input[lit.last] == delimiter
    ensures !lit.closed ==> lit.last == |input| - 1
    decreases |input| - i
  {
    if i + 1 >= |input| then StringLiteral("", i, false)
    else
      var c := input[i + 1];
      if escaped then
        var rest := ScanString(input, i + 1, delimiter, false);
        rest.(payload := [EscapedChar(c)] + rest.payload)
      else if c == '\\' then
        ScanString(input, i + 1, delimiter, true)
      else if c == delimiter then
        StringLiteral("", i + 1, true)
      else
        var rest := ScanString(input, i + 1, delimiter, false);
        rest.(payload := [c] + rest.payload)
  }

  /**
   * The sub-scanner's loop state: `prefix` decoded so far, the cursor on
   * index `i`, and the rest of the scan still to give `whole`.
   */
  ghost predicate Resumes(whole: StringLiteral, input: string, i: nat, delimiter: char, escaped: bool, prefix: string)
  {
    i < |input| &&
    var rest := ScanString(input, i, delimiter, escaped);
    whole.last == rest.last && whole.closed == rest.closed && whole.payload == prefix + rest.payload
  }

  /** One character more for the sub-scanner's loop. */
  lemma ResumesNext(whole: StringLiteral, input: string, i: nat, delimiter: char, escaped: bool, prefix: string)
    requires i + 1 < |input| && Resumes(whole, input, i, delimiter, escaped, prefix)
    ensures var c := input[i + 1];
      if escaped then Resumes(whole, input, i + 1, delimiter, false, prefix + [EscapedChar(c)])
      else if c == '\\' then Resumes(whole, input, i + 1, delimiter, true, prefix)
      else if c == delimiter then whole == StringLiteral(prefix, i + 1, true)
      else Resumes(whole, input, i + 1, delimiter, false, prefix + [c])
  {
    var c := input[i + 1];
    var rest := ScanString(input, i + 1, delimiter, false);
    if escaped {
      assert prefix + ([EscapedChar(c)] + rest.payload) == (prefix + [EscapedChar(c)]) + rest.payload;
    } else if c == '\\' {
    } else if c == delimiter {
      assert prefix + "" == prefix;
    } else {
      assert prefix + ([c] + rest.payload) == (prefix + [c]) + rest.payload;
    }
  }

  /** At the last character the sub-scanner stops, unclosed. */
  lemma ResumesEnd(whole: StringLiteral, input: string, i: nat, delimiter: char, escaped: bool, prefix: string)
    requires i + 1 == |input| && Resumes(whole, input, i, delimiter, escaped, prefix)
    ensures whole == StringLiteral(prefix, i, false)
  {
    assert prefix + "" == prefix;
  }

  /**
   * Decodes the raw text of a literal body, character by character, with
   * `escaped` saying whether a backslash precedes it; a trailing lone
   * backslash is dropped.
   */
  function Unescape(raw: string, escaped: bool): string
  {
    if raw == [] then []
    else if escaped then [EscapedChar(raw[0])] + Unescape(raw[1..], false)
    else if raw[0] == '\\' then Unescape(raw[1..], true)
    else [raw[0]] + Unescape(raw[1..], false)
  }

  /** Encodes `s` as the body of a literal delimited by `delimiter`. */
  function Escape(s: string, delimiter: char): string
  {
    if s == [] then []
    else (if s[0] == '\\' || s[0] == delimiter then ['\\', s[0]] else [s[0]]) + Escape(s[1..], delimiter)
  }

  predicate IsQuote(c: char) { c == '"' || c == '\'' || c == '`' }

  /** The payload is the decoded text between the quotes (or up to the end of the input). */
  lemma {:induction false} ScanStringUnescapes(input: string, i: nat, delimiter: char, escaped: bool)
    requires i < |input|
    ensures var lit := ScanString(input, i, delimiter, escaped);
      lit.payload == Unescape(input[i + 1..if lit.closed then lit.last else lit.last + 1], escaped)
    decreases |input| - i
  {
    var lit := ScanString(input, i, delimiter, escaped);
    var end := if lit.closed then lit.last else lit.last + 1;
    if i + 1 < |input| {
      var c := input[i + 1];
      if escaped || c == '\\' || c != delimiter {
        var next := !escaped && c == '\\';
        var rest := ScanString(input, i + 1, delimiter, next);
        assert lit.last == rest.last && lit.closed == rest.closed;
        ScanStringUnescapes(input, i + 1, delimiter, next);
        var raw := input[i + 1..end];
        assert raw[0] == c && raw[1..] == input[i + 2..end];
        assert rest.payload == Unescape(raw[1..], next);
        if escaped {
          assert lit.payload == [EscapedChar(c)] + rest.payload;
        } else if c == '\\' {
          assert lit.payload == rest.payload;
        } else {
          assert lit.payload == [c] + rest.payload;
        }
      } else {
        assert lit == StringLiteral("", i + 1, true);
      }
    }
  }

  /** The escape flag after reading `raw` from a state whose flag is `escaped`. */
  function FlagAfter(raw: string, escaped: bool): bool
  {
    if raw == [] then escaped else FlagAfter(raw[1..], !escaped && raw[0] == '\\')
  }

  /**
   * No character of `raw` would end the literal: none is an unescaped
   * `delimiter` (a backslash is tested first, so a backslash never ends it).
   */
  predicate NoStop(raw: string, delimiter: char, escaped: bool)
  {
    raw == [] ||
    (!(!escaped && raw[0] != '\\' && raw[0] == delimiter) && NoStop(raw[1..], delimiter, !escaped && raw[0] == '\\'))
  }

  /**
   * The literal stops at the first unescaped delimiter: no character of the
   * body before it ends the literal, the delimiter itself is not escaped,
   * and an unterminated literal holds no unescaped delimiter at all.
   */
  lemma {:induction false} ScanStringStopsAtFirst(input: string, i: nat, delimiter: char, escaped: bool)
    requires i < |input|
    ensures var lit := ScanString(input, i, delimiter, escaped);
      var raw := input[i + 1..if lit.closed then lit.last else lit.last + 1];
      && NoStop(raw, delimiter, escaped)
      && (lit.closed ==> !FlagAfter(raw, escaped) && delimiter != '\\')
    decreases |input| - i
  {
    var lit := ScanString(input, i, delimiter, escaped);
    var end := if lit.closed then lit.last else lit.last + 1;
    if i + 1 < |input| {
      var c := input[i + 1];
      if escaped || c == '\\' || c != delimiter {
        var next := !escaped && c == '\\';
        var rest := ScanString(input, i + 1, delimiter, next);
        assert lit.last == rest.last && lit.closed == rest.closed;
        ScanStringStopsAtFirst(input, i + 1, delimiter, next);
        var raw := input[i + 1..end];
        assert raw[0] == c && raw[1..] == input[i + 2..end];
      } else {
        assert lit == StringLiteral("", i + 1, true);
        assert input[i + 1..end] == [];
      }
    } else {
      assert input[i + 1..end] == [];
    }
  }

  /** Scanning an escaped text followed by its delimiter gives the text back. */
  lemma {:induction false} ScanEscaped(input: string, i: nat, s: string, delimiter: char)
    requires IsQuote(delimiter)
    requires i + |Escape(s, delimiter)| + 1 < |input|
    requires input[i + 1..i + |Escape(s, delimiter)| + 2] == Escape(s, delimiter) + [delimiter]
    ensures ScanString(input, i, delimiter, false) == StringLiteral(s, i + |Escape(s, delimiter)| + 1, true)
  {
    var body := Escape(s, delimiter);
    forall k | 0 <= k < |body|
      ensures input[i + 1 + k] == body[k]
    {
      assert input[i + 1 + k] == input[i + 1..i + |body| + 2][k];
    }
    assert input[i + |body| + 1] == input[i + 1..i + |body| + 2][|body|];
    ScanEscapedAt(input, i, s, delimiter);
  }

  lemma {:induction false} ScanEscapedAt(input: string, i: nat, s: string, delimiter: char)
    requires IsQuote(delimiter)
    requires i + |Escape(s, delimiter)| + 1 < |input|
    requires forall k :: 0 <= k < |Escape(s, delimiter)| ==> input[i + 1 + k] == Escape(s, delimiter)[k]
    requires input[i + |Escape(s, delimiter)| + 1] == delimiter
    ensures ScanString(input, i, delimiter, false) == StringLiteral(s, i + |Escape(s, delimiter)| + 1, true)
    decreases s
  {
    if s != [] {
      var c := s[0];
      var body := Escape(s, delimiter);
      var tail := Escape(s[1..], delimiter);
      if c == '\\' || c == delimiter {
        assert body == ['\\', c] + tail;
        assert input[i + 1] == body[0] && input[i + 2] == body[1];
        forall k | 0 <= k < |tail|
          ensures input[i + 3 + k] == tail[k]
        {
          assert input[i + 1 + (k + 2)] == body[k + 2];
        }
        ScanEscapedAt(input, i + 2, s[1..], delimiter);
        ScanEscapedPair(input, i, delimiter);
      } else {
        assert body == [c] + tail;
        assert input[i + 1] == body[0];
        forall k | 0 <= k < |tail|
          ensures input[i + 2 + k] == tail[k]
        {
          assert input[i + 1 + (k + 1)] == body[k + 1];
        }
        ScanEscapedAt(input, i + 1, s[1..], delimiter);
        ScanPlain(input, i, delimiter);
      }
      assert s == [c] + s[1..];
    }
  }

  /** A character that is neither a backslash nor the delimiter is taken as it is. */
  lemma ScanPlain(input: string, i: nat, delimiter: char)
    requires i + 1 < |input| && input[i + 1] != '\\' && input[i + 1] != delimiter
    ensures var rest := ScanString(input, i + 1, delimiter, false);
      ScanString(input, i, delimiter, false) == rest.(payload := [input[i + 1]] + rest.payload)
  {
  }

  /** An escaped backslash or delimiter contributes that character and the scan goes on. */
  lemma ScanEscapedPair(input: string, i: nat, delimiter: char)
    requires IsQuote(delimiter) && i + 2 < |input|
    requires input[i + 1] == '\\' && (input[i + 2] == '\\' || input[i + 2] == delimiter)
    ensures var rest := ScanString(input, i + 2, delimiter, false);
      ScanString(input, i, delimiter, false) == rest.(payload := [input[i + 2]] + rest.payload)
  {
  }

  lemma {:induction false} UnescapeEscape(s: string, delimiter: char)
    requires IsQuote(delimiter)
    ensures Unescape(Escape(s, delimiter), false) == s
  {
    if s != [] {
      UnescapeEscape(s[1..], delimiter);
      var tail := Escape(s[1..], delimiter);
      if s[0] == '\\' || s[0] == delimiter {
        assert (['\\', s[0]] + tail)[2..] == tail;
      } else {
        assert ([s[0]] + tail)[1..] == tail;
      }
    }
  }

  // ---------------------------------------------------------------------
  // One call of `next_token`

  /** The token produced, and the cursor and line it leaves behind. */
  datatype Scan = Scan(token: Token, pos: nat, line: nat)

  function EofAt(pos: nat, line: nat): Token
  {
    Token(Delimiter(EOF), TokenSpan(pos, pos, line))
  }

  /**
   * What `next_token` returns on a scanner whose cursors both stand at `pos`
   * with line counter `line`, and where it leaves them.
   */
  function Step(input: string, pos: nat, line: nat): (r: Scan)
    requires pos <= |input|
    ensures r.pos <= |input|
    ensures pos == |input| ==> r == Scan(EofAt(pos, line), pos, line)
    ensures pos < |input| ==> pos < r.pos && r.token.span == TokenSpan(pos, r.pos - 1, r.line)
    ensures pos < |input| ==> r.token.tokenType != Delimiter(EOF) && !r.token.tokenType.Unknown?
    ensures r.line == if pos < |input| && input[pos] == '\n' then line + 1 else line
    ensures r.token.tokenType == WhiteSpace(NewLine) <==> pos < |input| && input[pos] == '\n'
  {
    if pos == |input| then Scan(EofAt(pos, line), pos, line)
    else
      var e := WordEnd(input, pos);
      if IsQuote(input[pos]) then
        // a quote is not alphanumeric, so it is a word on its own
        var lit := ScanString(input, pos, input[pos], false);
        Scan(Token(Literal(String(lit.payload)), TokenSpan(pos, lit.last, line)), lit.last + 1, line)
      else if input[pos] == '\n' then
        Scan(Token(WhiteSpace(NewLine), TokenSpan(pos, e, line + 1)), e + 1, line + 1)
      else
        Scan(Token(Classify(input[pos..e + 1]), TokenSpan(pos, e, line)), e + 1, line)
  }

  /**
   * The quote and newline arms of `next_token` fire exactly when the word
   * starts with that character: none of them is alphanumeric, so each is a
   * word on its own.
   */
  lemma SingleCharacterArms(input: string, pos: nat)
    requires pos < |input|
    ensures var w := input[pos..WordEnd(input, pos) + 1];
      && (w == "\"" <==> input[pos] == '"')
      && (w == "'" <==> input[pos] == '\'')
      && (w == "`" <==> input[pos] == '`')
      && (w == "\n" <==> input[pos] == '\n')
  {
    var w := input[pos..WordEnd(input, pos) + 1];
    assert w[0] == input[pos];
    if IsQuote(input[pos]) || input[pos] == '\n' {
      assert w == [input[pos]];
    }
  }

  /** The characters a token covers (its span's ends are both inclusive). */
  function Lexeme(input: string, t: Token): string
    requires t.span.start <= t.span.end < |input|
  {
    input[t.span.start..t.span.end + 1]
  }

  /**
   * A token that does not start with a quote covers one word: it ends where
   * `WordEnd` says, every character but the last is alphanumeric, and a
   * non-alphanumeric first character makes a one-character word.
   */
  lemma WordToken(input: string, pos: nat, line: nat)
    requires pos < |input| && !IsQuote(input[pos])
    ensures var t := Step(input, pos, line).token;
      var w := Lexeme(input, t);
      && t.span.end == WordEnd(input, pos)
      && |w| >= 1 && w[0] == input[pos]
      && (forall k :: 0 <= k < |w| - 1 ==> IsAlphanumeric(w[k]))
      && (!IsAlphanumeric(input[pos]) ==> |w| == 1)
  {
    var w := input[pos..WordEnd(input, pos) + 1];
    WordEndIsMaximal(input, pos);
    assert forall k :: 0 <= k < |w| ==> w[k] == input[pos + k];
  }

  /**
   * The newline is a token of its own; any other word that does not start
   * with a quote is classified by `Classify` (see `SingleCharacterArms` for
   * why testing the first character is testing the word).
   */
  lemma WordTokenType(input: string, pos: nat, line: nat)
    requires pos < |input| && !IsQuote(input[pos])
    ensures var t := Step(input, pos, line).token;
      t.tokenType == if input[pos] == '\n' then WhiteSpace(NewLine) else Classify(input[pos..WordEnd(input, pos) + 1])
  {
    if input[pos] != '\n' {
      StepWord(input, pos, line);
    }
  }

  /**
   * A quote opens a literal that runs to the first unescaped quote of the
   * same style, or to the end of the input; its payload is the decoded text
   * in between.
   */
  lemma StringToken(input: string, pos: nat, line: nat)
    requires pos < |input| && IsQuote(input[pos])
    ensures var t := Step(input, pos, line).token;
      var lit := ScanString(input, pos, input[pos], false);
      var raw := input[pos + 1..if lit.closed then lit.last else lit.last + 1];
      && t == Token(Literal(String(lit.payload)), TokenSpan(pos, lit.last, line))
      && lit.payload == Unescape(raw, false)
      && NoStop(raw, input[pos], false)
      && (lit.closed ==> input[lit.last] == input[pos] && !FlagAfter(raw, false))
      && (!lit.closed ==> lit.last == |input| - 1)
  {
    ScanStringUnescapes(input, pos, input[pos], false);
    ScanStringStopsAtFirst(input, pos, input[pos], false);
  }

  /** A quoted, escaped text is scanned back to exactly that text, quotes and all. */
  lemma QuotedStringRoundTrip(input: string, pos: nat, line: nat, s: string)
    requires pos < |input| && IsQuote(input[pos])
    requires pos + |Escape(s, input[pos])| + 1 < |input|
    requires input[pos + 1..pos + |Escape(s, input[pos])| + 2] == Escape(s, input[pos]) + [input[pos]]
    ensures Step(input, pos, line) ==
      Scan(Token(Literal(String(s)), TokenSpan(pos, pos + |Escape(s, input[pos])| + 1, line)),
           pos + |Escape(s, input[pos])| + 2, line)
  {
    ScanEscaped(input, pos, s, input[pos]);
  }

  /** The escape `\n` inside a literal stands for a newline character. */
  lemma EscapedNewLineExample()
    ensures Step("\"a\\nb\"", 0, 0) == Scan(Token(Literal(String("a\nb")), TokenSpan(0, 5, 0)), 6, 0)
  {
    var input := "\"a\\nb\"";
    assert input[1] == 'a' && input[2] == '\\' && input[3] == 'n' && input[4] == 'b' && input[5] == '"';
    assert ScanString(input, 4, '"', false) == StringLiteral("", 5, true);
    assert ScanString(input, 3, '"', false) == StringLiteral("b", 5, true);
    assert ScanString(input, 2, '"', true) == StringLiteral("\nb", 5, true);
    assert ScanString(input, 0, '"', false) == StringLiteral("a\nb", 5, true);
  }

  /** A word that starts with neither a quote nor a newline is classified and consumed whole. */
  lemma StepWord(input: string, pos: nat, line: nat)
    requires pos < |input| && !IsQuote(input[pos]) && input[pos] != '\n'
    ensures var e := WordEnd(input, pos);
      Step(input, pos, line) == Scan(Token(Classify(input[pos..e + 1]), TokenSpan(pos, e, line)), e + 1, line)
  {
  }

  /** `3.` is no arm and no i64, but an f64. */
  lemma PointWordIsFloat()
    ensures Classify("3.") == Literal(Number(Float(Parsed("3."))))
  {
    assert FixedWord("3.") == None;
    assert DigitsValue("3.") == None;
    assert IsF64Text("3.");
  }

  /** The first token of `3.14` is the float `3.`: the point is taken, then the word ends. */
  lemma PointEndsNumber()
    ensures Step("3.14", 0, 0) == Scan(Token(Literal(Number(Float(Parsed("3.")))), TokenSpan(0, 1, 0)), 2, 0)
  {
    var input := "3.14";
    assert WordEnd(input, 1) == 1 && WordEnd(input, 0) == 1;
    StepWord(input, 0, 0);
    assert input[0..2] == "3.";
    PointWordIsFloat();
  }

  /** The second token of `3.14` is the integer `14`. */
  lemma DigitsAfterPoint()
    ensures Step("3.14", 2, 0) == Scan(Token(Literal(Number(SignedInteger(14))), TokenSpan(2, 3, 0)), 4, 0)
  {
    var input := "3.14";
    assert WordEnd(input, 3) == 3 && WordEnd(input, 2) == 3;
    StepWord(input, 2, 0);
    assert input[2..4] == "14";
    assert ParseI64("14") == Some(14) by {
      assert "14"[..1] == "1";
    }
    ClassifyInteger("14");
  }

  /**
   * A decimal point ends a word (it is not alphanumeric), so `3.14` is lexed
   * as the float `3.` followed by the integer `14`.
   */
  lemma DecimalPointSplitsNumber()
    ensures Step("3.14", 0, 0) == Scan(Token(Literal(Number(Float(Parsed("3.")))), TokenSpan(0, 1, 0)), 2, 0)
    ensures Step("3.14", 2, 0) == Scan(Token(Literal(Number(SignedInteger(14))), TokenSpan(2, 3, 0)), 4, 0)
  {
    PointEndsNumber();
    DigitsAfterPoint();
  }

  /** At the end of the input the EOF token is returned and nothing moves, however often. */
  lemma EofIdempotent(input: string, line: nat)
    ensures Step(input, |input|, line) == Scan(EofAt(|input|, line), |input|, line)
    ensures var s := Step(input, |input|, line); Step(input, s.pos, s.line) == s
  {
  }

  // ---------------------------------------------------------------------
  // Draining the iterator

  /** The tokens `Iterator::next` yields from a scanner at `pos`, until it returns `None`. */
  function Drain(input: string, pos: nat, line: nat): (ts: seq<Token>)
    requires pos <= |input|
    ensures forall k :: 0 <= k < |ts| ==> pos <= ts[k].span.start <= ts[k].span.end < |input|
    ensures forall k :: 0 <= k < |ts| ==> ts[k].tokenType != Delimiter(EOF)
    decreases |input| - pos
  {
    if pos == |input| then []
    else
      var s := Step(input, pos, line);
      [s.token] + Drain(input, s.pos, s.line)
  }

  /**
   * All tokens of a fresh scanner, as a `for` loop over it yields them: their
   * lexemes spell the input, and each carries the number of newline tokens
   * up to and including it as its line.
   */
  function Tokenize(input: string): (ts: seq<Token>)
    ensures forall k :: 0 <= k < |ts| ==> ts[k].span.start <= ts[k].span.end < |input|
    ensures Lexemes(input, ts) == input
    ensures forall k :: 0 <= k < |ts| ==> ts[k].span.line == CountNewLines(ts[..k + 1])
  {
    DrainLossless(input, 0, 0);
    DrainLines(input, 0, 0);
    Drain(input, 0, 0)
  }

  /** The concatenation of the lexemes of `ts`, in order. */
  function Lexemes(input: string, ts: seq<Token>): string
    requires forall k :: 0 <= k < |ts| ==> ts[k].span.start <= ts[k].span.end < |input|
  {
    if ts == [] then [] else Lexeme(input, ts[0]) + Lexemes(input, ts[1..])
  }

  /**
   * The spans of `ts` tile the input from `pos` to its last character: they
   * lie inside the input, the first starts at `pos`, each next one starts
   * right after the previous one ends, and the last ends at the last index.
   */
  predicate Tiles(input: string, ts: seq<Token>, pos: nat)
  {
    && (forall k :: 0 <= k < |ts| ==> ts[k].span.start <= ts[k].span.end < |input|)
    && (ts == [] <==> pos == |input|)
    && (ts != [] ==> ts[0].span.start == pos && ts[|ts| - 1].span.end == |input| - 1)
    && (forall k :: 0 <= k < |ts| - 1 ==> ts[k + 1].span.start == ts[k].span.end + 1)
  }

  /** The tokens drained from `pos` tile the rest of the input. */
  lemma {:induction false} DrainTiles(input: string, pos: nat, line: nat)
    requires pos <= |input|
    ensures Tiles(input, Drain(input, pos, line), pos)
    decreases |input| - pos
  {
    if pos < |input| {
      var s := Step(input, pos, line);
      DrainTiles(input, s.pos, s.line);
    }
  }

  /** Tiling spans spell out the tiled text, with nothing lost and nothing repeated. */
  lemma {:induction false} TilesLossless(input: string, ts: seq<Token>, pos: nat)
    requires pos <= |input| && Tiles(input, ts, pos)
    ensures Lexemes(input, ts) == input[pos..]
    decreases |ts|
  {
    if ts != [] {
      var next := ts[0].span.end + 1;
      assert Tiles(input, ts[1..], next) by {
        if ts[1..] != [] {
          assert ts[1..][0] == ts[1];
        }
        forall k | 0 <= k < |ts[1..]| - 1
          ensures ts[1..][k + 1].span.start == ts[1..][k].span.end + 1
        {
          assert ts[1..][k + 1] == ts[k + 2] && ts[1..][k] == ts[k + 1];
        }
      }
      TilesLossless(input, ts[1..], next);
      assert input[pos..] == input[pos..next] + input[next..];
    }
  }

  /** Lossless tokenization: the lexemes of the drained tokens spell the input. */
  lemma DrainLossless(input: string, pos: nat, line: nat)
    requires pos <= |input|
    ensures Lexemes(input, Drain(input, pos, line)) == input[pos..]
  {
    DrainTiles(input, pos, line);
    TilesLossless(input, Drain(input, pos, line), pos);
  }

  /** The number of newline tokens in `ts`. */
  function CountNewLines(ts: seq<Token>): nat
  {
    if ts == [] then 0
    else (if ts[0].tokenType == WhiteSpace(NewLine) then 1 else 0) + CountNewLines(ts[1..])
  }

  /**
   * Each token's line is the line of the token before it (or `line` for the
   * first), plus one when the token is itself a newline.
   */
  predicate LinesFollow(ts: seq<Token>, line: nat)
  {
    ts == [] ||
    (ts[0].span.line == line + (if ts[0].tokenType == WhiteSpace(NewLine) then 1 else 0)
     && LinesFollow(ts[1..], ts[0].span.line))
  }

  lemma {:induction false} DrainLinesFollow(input: string, pos: nat, line: nat)
    requires pos <= |input|
    ensures LinesFollow(Drain(input, pos, line), line)
    decreases |input| - pos
  {
    if pos < |input| {
      var s := Step(input, pos, line);
      var ts := Drain(input, pos, line);
      DrainLinesFollow(input, s.pos, s.line);
      assert ts[0] == s.token && ts[1..] == Drain(input, s.pos, s.line);
    }
  }

  /** Lines that follow one another count the newline tokens so far. */
  lemma {:induction false} LinesCountNewLines(ts: seq<Token>, line: nat, k: nat)
    requires LinesFollow(ts, line) && k < |ts|
    ensures ts[k].span.line == line + CountNewLines(ts[..k + 1])
    decreases k
  {
    if k > 0 {
      LinesCountNewLines(ts[1..], ts[0].span.line, k - 1);
      assert ts[..k + 1][1..] == ts[1..][..k];
    } else {
      assert ts[..1][1..] == [];
    }
  }

  /**
   * Each token carries the starting line plus the number of newline tokens up
   * to and including it; newlines inside string literals do not count.
   */
  lemma DrainLines(input: string, pos: nat, line: nat)
    requires pos <= |input|
    ensures var ts := Drain(input, pos, line);
      forall k :: 0 <= k < |ts| ==> ts[k].span.line == line + CountNewLines(ts[..k + 1])
  {
    DrainLinesFollow(input, pos, line);
    forall k | 0 <= k < |Drain(input, pos, line)| {
      LinesCountNewLines(Drain(input, pos, line), line, k);
    }
  }

  // ---------------------------------------------------------------------
  // The scanner object

  class Scanner {
    const input: string
    var cursorStart: nat
    var cursorEnd: nat
    var currentLine: nat

    /** Between calls both cursors stand at the next unread character. */
    ghost predicate Valid()
      reads this
    {
      cursorStart == cursorEnd <= |input|
    }

    constructor (input: string)
      ensures Valid() && this.input == input
      ensures cursorEnd == 0 && currentLine == 0
    {
      this.input := input;
      cursorStart := 0;
      cursorEnd := 0;
      currentLine := 0;
    }

    method Inc()
      modifies this`cursorEnd
      ensures cursorEnd == old(cursorEnd) + 1
    {
      cursorEnd := cursorEnd + 1;
    }

    method NewLine() returns (t: TokenType)
      modifies this`currentLine
      ensures currentLine == old(currentLine) + 1
      ensures t == WhiteSpace(WhiteSpaceToken.NewLine)
    {
      currentLine := currentLine + 1;
      t := WhiteSpace(WhiteSpaceToken.NewLine);
    }

    method CurrentChar() returns (c: char)
      requires cursorEnd < |input|
      ensures c == input[cursorEnd]
    {
      c := input[cursorEnd];
    }

    method Peek() returns (c: Option<char>)
      ensures c.Some? <==> cursorEnd + 1 < |input|
      ensures c.Some? ==> c.value == input[cursorEnd + 1]
    {
      c := if cursorEnd + 1 < |input| then Some(input[cursorEnd + 1]) else None;
    }

    method CaptureToken(tokenType: TokenType) returns (t: Token)
      ensures t == Token(tokenType, TokenSpan(cursorStart, cursorEnd, currentLine))
    {
      t := Token(tokenType, TokenSpan(cursorStart, cursorEnd, currentLine));
    }

    method EofToken() returns (t: Token)
      ensures t == Token(Delimiter(EOF), TokenSpan(cursorStart, cursorEnd, currentLine))
    {
      t := CaptureToken(Delimiter(EOF));
    }

    /** Between calls, the input is used up exactly when the cursor stands at its end. */
    predicate EndOfInput()
      reads this
      ensures Valid() ==> (EndOfInput() <==> cursorEnd == |input|)
      ensures !EndOfInput() ==> cursorEnd < |input|
    {
      cursorEnd >= |input|
    }

    method TokenizeStringLiteral(delimiter: char) returns (t: TokenType)
      requires cursorEnd < |input|
      modifies this`cursorEnd
      ensures var lit := ScanString(input, old(cursorEnd), delimiter, false);
        t == Literal(String(lit.payload)) && cursorEnd == lit.last
    {
      var stringValue := "";
      var isEscaped := false;
      ghost var whole := ScanString(input, cursorEnd, delimiter, false);
      assert "" + whole.payload == whole.payload;
      var next := Peek();
      while next.Some?
        invariant next.Some? <==> cursorEnd + 1 < |input|
        invariant next.Some? ==> next.value == input[cursorEnd + 1]
        invariant Resumes(whole, input, cursorEnd, delimiter, isEscaped, stringValue)
        decreases |input| - cursorEnd
      {
        var nextChar := next.value;
        ResumesNext(whole, input, cursorEnd, delimiter, isEscaped, stringValue);
        Inc();
        if isEscaped {
          stringValue := stringValue + [EscapedChar(nextChar)];
          isEscaped := false;
        } else if nextChar == '\\' {
          isEscaped := true;
        } else if nextChar == delimiter {
          break;
        } else {
          stringValue := stringValue + [nextChar];
        }
        next := Peek();
      }
      if next.None? {
        ResumesEnd(whole, input, cursorEnd, delimiter, isEscaped, stringValue);
      }
      t := Literal(String(stringValue));
    }

    /**
     * The word loop at the start of `next_token`: it takes the current
     * character, and moves on while that character is alphanumeric and the
     * next one exists and is not whitespace.
     */
    method ReadWord() returns (word: string)
      requires cursorStart == cursorEnd < |input|
      modifies this`cursorEnd
      ensures cursorEnd == WordEnd(input, cursorStart)
      ensures word == input[cursorStart..cursorEnd + 1]
    {
      word := "";
      ghost var e := WordEnd(input, cursorStart);
      while !EndOfInput()
        invariant cursorStart <= cursorEnd <= e
        invariant WordEnd(input, cursorEnd) == e
        invariant word == input[cursorStart..cursorEnd]
        decreases |input| - cursorEnd
      {
        var c := CurrentChar();
        word := word + [c];
        assert word == input[cursorStart..cursorEnd + 1];
        if IsAlphanumeric(c) {
          var peeked := Peek();
          if peeked.Some? {
            if !IsWhitespace(peeked.value) {
              Inc();
            } else {
              break;
            }
          } else {
            break;
          }
        } else {
          break;
        }
      }
      assert cursorEnd == e;
    }

    method NextToken() returns (token: Token)
      requires Valid()
      modifies this
      ensures Valid()
      ensures var s := Step(input, old(cursorEnd), old(currentLine));
        token == s.token && cursorEnd == s.pos && currentLine == s.line
    {
      if EndOfInput() {
        token := EofToken();
      } else {
        var word := ReadWord();
        SingleCharacterArms(input, cursorStart);
        var tokenType: TokenType;
        if word == "\"" {
          tokenType := TokenizeStringLiteral('"');
        } else if word == "'" {
          tokenType := TokenizeStringLiteral('\'');
        } else if word == "`" {
          tokenType := TokenizeStringLiteral('`');
        } else if word == "\n" {
          tokenType := NewLine();
        } else {
          tokenType := Classify(word);
        }
        token := CaptureToken(tokenType);
        Inc();
      }
      cursorStart := cursorEnd;
    }

    /** `Iterator::next`: `None` exactly at the end of the input, so EOF is never yielded. */
    method Next() returns (item: Option<Token>)
      requires Valid()
      modifies this
      ensures Valid()
      ensures item.None? <==> old(cursorEnd) >= |input|
      ensures item.None? ==> cursorEnd == old(cursorEnd) && currentLine == old(currentLine)
      ensures item.Some? ==> var s := Step(input, old(cursorEnd), old(currentLine));
        item.value == s.token && cursorEnd == s.pos && currentLine == s.line
      ensures item.Some? ==> item.value.tokenType != Delimiter(EOF)
    {
      if EndOfInput() {
        item := None;
      } else {
        var t := NextToken();
        item := Some(t);
      }
    }
  }
}
