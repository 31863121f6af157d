/** The tokenizer of OQL conditions, and the text that stands for a list of tokens. */
module OqlTokens {
  import opened Wrappers
  import opened Text
  import opened Decimals

  datatype Operator = Equal | NotEqual | Greater | AtLeast | Less | AtMost | Like | ILike | In | Is | And | Or

  datatype Token =
    | Identifier(name: string)
    | Number(text: string)
    | Literal(value: string)
    | Boolean(truth: bool)
    | NullToken
    | OperatorToken(operator: Operator)
    | Paren(opens: bool)
    | Bracket(opens: bool)
    | Comma
    | Star

  datatype OqlError =
    | UnexpectedCharacter(c: char)
    | UnterminatedString
    | UnexpectedEnd
    | UnexpectedToken
    | OperatorExpected
    | Expected(token: Token)
    | ScalarsOnly
    | InvalidIdentifier(raw: string)
    | TokensLeft

  predicate IsLetter(c: char) {
    'a' <= c <= 'z' || 'A' <= c <= 'Z'
  }

  predicate IsNameStart(c: char) {
    IsLetter(c) || c == '_'
  }

  predicate IsNamePart(c: char) {
    IsNameStart(c) || IsDigit(c) || c == '.'
  }

  predicate IsQuote(c: char) {
    c == '"' || c == '\''
  }

  function LowerChar(c: char): char {
    if 'A' <= c <= 'Z' then (c as int + 32) as char else c
  }

  function Lower(s: string): (t: string)
    ensures |t| == |s|
  {
    seq(|s|, i requires 0 <= i < |s| => LowerChar(s[i]))
  }

  /** `^(>=|<=|!=|=|>|<)`. */
  function SymbolAt(s: string): Option<Operator> {
    if s == [] then None
    else if |s| >= 2 && s[0] == '>' && s[1] == '=' then Some(AtLeast)
    else if |s| >= 2 && s[0] == '<' && s[1] == '=' then Some(AtMost)
    else if |s| >= 2 && s[0] == '!' && s[1] == '=' then Some(NotEqual)
    else if s[0] == '=' then Some(Equal)
    else if s[0] == '>' then Some(Greater)
    else if s[0] == '<' then Some(Less)
    else None
  }

  function SymbolLength(operator: Operator): nat {
    if operator in {NotEqual, AtLeast, AtMost} then 2 else 1
  }

  /** The words with a meaning of their own, in the order in which the tokenizer compares them. */
  const KEYWORDS: seq<Token> :=
    [Boolean(true), Boolean(false), NullToken, OperatorToken(And), OperatorToken(Or), OperatorToken(Like),
     OperatorToken(ILike), OperatorToken(In), OperatorToken(Is)]

  predicate IsKeyword(token: Token) {
    match token
    case Boolean(_) => true
    case NullToken => true
    case OperatorToken(operator) => !IsSymbol(operator)
    case _ => false
  }

  predicate IsSymbol(operator: Operator) {
    || operator.Equal? || operator.NotEqual?
    || operator.Greater? || operator.AtLeast? || operator.Less? || operator.AtMost?
  }

  function Spelling(keyword: Token): (s: string)
    ensures s != []
  {
    match keyword
    case Boolean(truth) => if truth then "true" else "false"
    case NullToken => "null"
    case OperatorToken(And) => "and"
    case OperatorToken(Or) => "or"
    case OperatorToken(Like) => "like"
    case OperatorToken(ILike) => "ilike"
    case OperatorToken(In) => "in"
    case _ => "is"
  }

  function WordAmong(text: string, keywords: seq<Token>): Token {
    if keywords == [] then Identifier(text)
    else if Lower(text) == Spelling(keywords[0]) then keywords[0]
    else WordAmong(text, keywords[1..])
  }

  /** What a word means, whatever its case. */
  function Word(text: string): Token {
    WordAmong(text, KEYWORDS)
  }

  function NameLength(s: string): nat {
    if s != [] && IsNameStart(s[0]) then Span(IsNamePart, s) else 0
  }

  /** The string behind an opening quote: its value, and how many characters it takes with the closing quote. */
  function Quoted(s: string, quote: char): (r: Option<(string, nat)>)
    ensures r.Some? ==> 0 < r.value.1 <= |s|
  {
    if s == [] then None
    else if s[0] == quote then Some(([], 1))
    else if s[0] == '\\' && |s| > 1 then Continued([s[1]], 2, Quoted(s[2..], quote))
    else Continued([s[0]], 1, Quoted(s[1..], quote))
  }

  function Continued(value: string, length: nat, r: Option<(string, nat)>): Option<(string, nat)> {
    match r
    case Some((more, n)) => Some((value + more, length + n))
    case None => None
  }

  lemma ContinuedTwice(value: string, length: nat, c: char, n: nat, r: Option<(string, nat)>)
    ensures Continued(value, length, Continued([c], n, r)) == Continued(value + [c], length + n, r)
  {
    match r
    case Some((more, _)) => assert value + ([c] + more) == (value + [c]) + more;
    case None =>
  }

  lemma ContinuedNothing(r: Option<(string, nat)>)
    ensures Continued("", 0, r) == r
  {
    match r
    case Some((more, _)) => assert "" + more == more;
    case None =>
  }

  function Escaped(value: string): string {
    if value == [] then []
    else (if value[0] == '"' || value[0] == '\\' then ['\\', value[0]] else [value[0]]) + Escaped(value[1..])
  }

  datatype Lexeme = Blank | Found(token: Token, length: nat) | Bad(error: OqlError)

  function Punctuation(c: char): Option<Token> {
    if c == '(' then Some(Paren(true))
    else if c == ')' then Some(Paren(false))
    else if c == '[' then Some(Bracket(true))
    else if c == ']' then Some(Bracket(false))
    else if c == ',' then Some(Comma)
    else if c == '*' then Some(Star)
    else None
  }

  /** The tokenizer's rules, in the order in which it tries them. */
  datatype Rule = SpaceRule | SymbolRule | PunctuationRule | StringRule | NumberRule | NameRule

  const RULES: seq<Rule> := [SpaceRule, SymbolRule, PunctuationRule, StringRule, NumberRule, NameRule]

  function Apply(rule: Rule, s: string): (r: Option<Lexeme>)
    requires s != []
    ensures r.Some? && r.value.Found? ==> 0 < r.value.length <= |s|
  {
    match rule
    case SpaceRule => if IsSpace(s[0]) then Some(Blank) else None
    case SymbolRule => ApplySymbol(s)
    case PunctuationRule => if Punctuation(s[0]).Some? then Some(Found(Punctuation(s[0]).value, 1)) else None
    case StringRule => if IsQuote(s[0]) then Some(ApplyString(s)) else None
    case NumberRule => if NumberLength(s) > 0 then Some(Found(Number(s[..NumberLength(s)]), NumberLength(s))) else None
    case NameRule => if NameLength(s) > 0 then Some(Found(Word(s[..NameLength(s)]), NameLength(s))) else None
  }

  function ApplySymbol(s: string): Option<Lexeme> {
    match SymbolAt(s)
    case Some(operator) => Some(Found(OperatorToken(operator), SymbolLength(operator)))
    case None => None
  }

  function ApplyString(s: string): Lexeme
    requires s != []
  {
    match Quoted(s[1..], s[0])
    case Some((value, n)) => Found(Literal(value), n + 1)
    case None => Bad(UnterminatedString)
  }

  function LexAmong(s: string, rules: seq<Rule>): (r: Lexeme)
    requires s != []
    ensures r.Found? ==> 0 < r.length <= |s|
  {
    if rules == [] then Bad(UnexpectedCharacter(s[0]))
    else match Apply(rules[0], s)
      case Some(lexeme) => lexeme
      case None => LexAmong(s, rules[1..])
  }

  /** What the tokenizer finds at the start of a text: the first rule that matches says. */
  function Lex(s: string): (r: Lexeme)
    requires s != []
    ensures r.Found? ==> 0 < r.length <= |s|
  {
    LexAmong(s, RULES)
  }

  /** All tokens of a text, or the first error. */
  function Tokens(s: string): Result<seq<Token>, OqlError> {
    if s == [] then Ok([])
    else
      match Lex(s)
      case Blank => Tokens(s[1..])
      case Found(token, n) => Prepend([token], Tokens(s[n..]))
      case Bad(error) => Err(error)
  }

  function Prepend(tokens: seq<Token>, r: Result<seq<Token>, OqlError>): Result<seq<Token>, OqlError> {
    if r.Ok? then Ok(tokens + r.value) else r
  }

  lemma QuotedNext(input: string, index: nat, quote: char, value: string, length: nat)
    requires index < |input| && input[index] != quote
    ensures Continued(value, length, Quoted(input[index..], quote)) ==
      if input[index] == '\\' && index + 1 < |input| then
        Continued(value + [input[index + 1]], length + 2, Quoted(input[index + 2..], quote))
      else
        Continued(value + [input[index]], length + 1, Quoted(input[index + 1..], quote))
  {
    var rest := input[index..];
    if input[index] == '\\' && index + 1 < |input| {
      assert rest[2..] == input[index + 2..];
      ContinuedTwice(value, length, rest[1], 2, Quoted(rest[2..], quote));
    } else {
      assert rest[1..] == input[index + 1..];
      ContinuedTwice(value, length, rest[0], 1, Quoted(rest[1..], quote));
    }
  }

  /** The loop that reads a string literal; `index` stands behind the opening quote. */
  method ReadString(input: string, start: nat, quote: char) returns (value: string, index: nat)
    requires start <= |input|
    ensures start <= index <= |input|
    ensures index < |input| <==> Quoted(input[start..], quote).Some?
    ensures index < |input| ==> Quoted(input[start..], quote) == Some((value, index + 1 - start))
  {
    index, value := start, "";
    ContinuedNothing(Quoted(input[start..], quote));
    while index < |input| && input[index] != quote
      invariant start <= index <= |input|
      invariant Quoted(input[start..], quote) == Continued(value, index - start, Quoted(input[index..], quote))
    {
      QuotedNext(input, index, quote, value, index - start);
      if input[index] == '\\' && index + 1 < |input| {
        value := value + [input[index + 1]];
        index := index + 2;
      } else {
        value := value + [input[index]];
        index := index + 1;
      }
    }
    assert value + [] == value;
  }

  /** One turn of the tokenizer's loop. */
  method LexAt(input: string, index: nat) returns (lexeme: Lexeme)
    requires index < |input|
    ensures lexeme == Lex(input[index..])
  {
    var rest := input[index..];
    for k := 0 to |RULES|
      invariant Lex(rest) == LexAmong(rest, RULES[k..])
    {
      var found := ApplyAt(RULES[k], input, index);
      assert RULES[k..][1..] == RULES[k + 1..];
      if found.Some? {
        return found.value;
      }
    }
    lexeme := Bad(UnexpectedCharacter(input[index]));
  }

  method ApplyAt(rule: Rule, input: string, index: nat) returns (found: Option<Lexeme>)
    requires index < |input|
    ensures found == Apply(rule, input[index..])
  {
    var rest := input[index..];
    if rule == StringRule && IsQuote(input[index]) {
      var value, end := ReadString(input, index + 1, input[index]);
      assert rest[1..] == input[index + 1..];
      return Some(if end == |input| then Bad(UnterminatedString) else Found(Literal(value), end + 1 - index));
    }
    found := Apply(rule, rest);
  }

  /** The tokens found before `index`, with those to be found behind it, are the tokens of the text. */
  ghost predicate IsHalfway(input: string, tokens: seq<Token>, index: nat) {
    index <= |input| && Tokens(input) == Prepend(tokens, Tokens(input[index..]))
  }

  lemma HalfwayStart(input: string)
    ensures IsHalfway(input, [], 0)
  {
    assert input[0..] == input;
    if Tokens(input).Ok? {
      assert [] + Tokens(input).value == Tokens(input).value;
    }
  }

  /** The tokens of a text that begins with this lexeme. */
  function TokensAfter(s: string, lexeme: Lexeme): Result<seq<Token>, OqlError>
    requires s != [] && (lexeme.Found? ==> lexeme.length <= |s|)
  {
    match lexeme
    case Blank => Tokens(s[1..])
    case Found(token, n) => Prepend([token], Tokens(s[n..]))
    case Bad(error) => Err(error)
  }

  lemma TokensStep(s: string)
    requires s != []
    ensures Tokens(s) == TokensAfter(s, Lex(s))
  {
  }

  lemma HalfwayNext(input: string, tokens: seq<Token>, index: nat, lexeme: Lexeme)
    requires IsHalfway(input, tokens, index) && index < |input| && (lexeme.Found? ==> lexeme.length <= |input| - index)
    requires Tokens(input[index..]) == TokensAfter(input[index..], lexeme)
    ensures match lexeme
      case Blank => IsHalfway(input, tokens, index + 1)
      case Found(token, n) => IsHalfway(input, tokens + [token], index + n)
      case Bad(error) => Tokens(input) == Err(error)
  {
    var rest := input[index..];
    match lexeme
    case Blank => assert rest[1..] == input[index + 1..];
    case Found(token, n) =>
      assert rest[n..] == input[index + n..];
      PrependTwice(tokens, token, Tokens(rest[n..]));
    case Bad(_) =>
  }

  lemma HalfwayEnd(input: string, tokens: seq<Token>)
    requires IsHalfway(input, tokens, |input|)
    ensures Tokens(input) == Ok(tokens)
  {
    assert tokens + [] == tokens;
  }

  /** One turn of the tokenizer's loop. */
  method TakeToken(input: string, tokens: seq<Token>, index: nat)
    returns (tokens': seq<Token>, index': nat, error: Option<OqlError>)
    requires index < |input| && IsHalfway(input, tokens, index)
    ensures error.Some? ==> Tokens(input) == Err(error.value)
    ensures error == None ==> index < index' <= |input| && IsHalfway(input, tokens', index')
  {
    var lexeme := LexAt(input, index);
    TokensStep(input[index..]);
    HalfwayNext(input, tokens, index, lexeme);
    tokens', index', error := tokens, index, None;
    match lexeme {
      case Blank =>
        index' := index + 1;
      case Found(token, n) =>
        tokens' := tokens + [token];
        index' := index + n;
      case Bad(e) =>
        error := Some(e);
    }
  }

  method Tokenize(input: string) returns (r: Result<seq<Token>, OqlError>)
    ensures r == Tokens(input)
  {
    var index: nat, tokens: seq<Token> := 0, [];
    HalfwayStart(input);
    while index < |input|
      invariant IsHalfway(input, tokens, index)
      decreases |input| - index
    {
      var error;
      tokens, index, error := TakeToken(input, tokens, index);
      if error.Some? {
        return Err(error.value);
      }
    }
    HalfwayEnd(input, tokens);
    r := Ok(tokens);
  }

  lemma PrependTwice(tokens: seq<Token>, token: Token, r: Result<seq<Token>, OqlError>)
    ensures Prepend(tokens, Prepend([token], r)) == Prepend(tokens + [token], r)
  {
    if r.Ok? {
      assert tokens + ([token] + r.value) == (tokens + [token]) + r.value;
    }
  }

  predicate IsName(text: string) {
    text != [] && IsNameStart(text[0]) && forall i :: 0 <= i < |text| ==> IsNamePart(text[i])
  }

  /** The tokens a text can consist of: names that are not keywords, and numbers as the tokenizer reads them. */
  predicate IsToken(token: Token) {
    match token
    case Identifier(name) => IsName(name) && Word(name) == token
    case Number(text) => IsNumber(text)
    case _ => true
  }

  function SymbolOf(operator: Operator): string {
    match operator
    case Equal => "="
    case NotEqual => "!="
    case Greater => ">"
    case AtLeast => ">="
    case Less => "<"
    case _ => "<="
  }

  function PunctuationOf(token: Token): char {
    match token
    case Paren(opens) => if opens then '(' else ')'
    case Bracket(opens) => if opens then '[' else ']'
    case Comma => ','
    case _ => '*'
  }

  /** A text for each token; strings are put in double quotes. */
  function Render(token: Token): (s: string)
    ensures IsToken(token) ==> s != []
  {
    if IsKeyword(token) then Spelling(token)
    else match token
      case Identifier(name) => name
      case Number(text) => text
      case Literal(value) => ['"'] + Escaped(value) + ['"']
      case OperatorToken(operator) => SymbolOf(operator)
      case _ => [PunctuationOf(token)]
  }

  function Join(tokens: seq<Token>): string {
    if tokens == [] then []
    else if |tokens| == 1 then Render(tokens[0])
    else Render(tokens[0]) + ([' '] + Join(tokens[1..]))
  }

  predicate IsApart(rest: string) {
    rest == [] || rest[0] == ' '
  }

  /** The first rule that matches decides. */
  lemma {:induction false} FirstRule(s: string, k: nat, lexeme: Lexeme, from: nat)
    requires s != [] && from <= k < |RULES| && Apply(RULES[k], s) == Some(lexeme)
    requires forall j :: from <= j < k ==> Apply(RULES[j], s) == None
    ensures LexAmong(s, RULES[from..]) == lexeme
    decreases k - from
  {
    if from < k {
      FirstRule(s, k, lexeme, from + 1);
      assert RULES[from..][1..] == RULES[from + 1..];
    }
  }

  lemma LexFirst(s: string, k: nat, lexeme: Lexeme)
    requires s != [] && k < |RULES| && Apply(RULES[k], s) == Some(lexeme)
    requires forall j :: 0 <= j < k ==> Apply(RULES[j], s) == None
    ensures Lex(s) == lexeme
  {
    FirstRule(s, k, lexeme, 0);
    assert RULES[0..] == RULES;
  }

  lemma {:induction false} QuotedEscaped(value: string, rest: string)
    ensures Quoted(Escaped(value) + (['"'] + rest), '"') == Some((value, |Escaped(value)| + 1))
  {
    var s, tail := Escaped(value) + (['"'] + rest), ['"'] + rest;
    if value != [] {
      var more := Escaped(value[1..]) + tail;
      QuotedEscaped(value[1..], rest);
      assert value == [value[0]] + value[1..];
      if value[0] == '"' || value[0] == '\\' {
        assert s == ['\\', value[0]] + more && s[2..] == more;
      } else {
        assert s == [value[0]] + more && s[1..] == more;
      }
    }
  }

  /** Escaping undoes itself: every string, whatever it holds, comes back as one token. */
  lemma LexLiteral(value: string, rest: string)
    ensures Lex(Render(Literal(value)) + rest) == Found(Literal(value), |Render(Literal(value))|)
  {
    var s := Render(Literal(value)) + rest;
    assert s[1..] == Escaped(value) + (['"'] + rest);
    QuotedEscaped(value, rest);
    LexFirst(s, 3, Found(Literal(value), |Escaped(value)| + 2));
  }

  lemma NoNumberAtName(s: string)
    requires s != [] && IsNameStart(s[0])
    ensures NumberLength(s) == 0
  {
  }

  lemma LexName(text: string, rest: string)
    requires IsName(text) && IsApart(rest)
    ensures Lex(text + rest) == Found(Word(text), |text|)
  {
    var s := text + rest;
    NoNumberAtName(s);
    SpanStops(IsNamePart, text, rest);
    assert s[..|text|] == text;
    LexFirst(s, 5, Found(Word(text), |text|));
  }

  lemma LexNumber(text: string, rest: string)
    requires IsNumber(text) && IsApart(rest)
    ensures Lex(text + rest) == Found(Number(text), |text|)
  {
    var s := text + rest;
    NumberLengthStable(text, rest);
    assert s[..|text|] == text;
    NumberStart(text);
    NoRuleBeforeNumber(s);
    LexFirst(s, 4, Found(Number(text), |text|));
  }

  lemma NumberStart(text: string)
    requires IsNumber(text)
    ensures IsDigit(text[0]) || text[0] == '-'
  {
  }

  lemma NoRuleBeforeNumber(s: string)
    requires s != [] && (IsDigit(s[0]) || s[0] == '-')
    ensures forall j :: 0 <= j < 4 ==> Apply(RULES[j], s) == None
  {
  }

  lemma LexSymbol(operator: Operator, rest: string)
    requires IsSymbol(operator) && IsApart(rest)
    ensures Lex(SymbolOf(operator) + rest) == Found(OperatorToken(operator), |SymbolOf(operator)|)
  {
    LexFirst(SymbolOf(operator) + rest, 1, Found(OperatorToken(operator), SymbolLength(operator)));
  }

  lemma LexPunctuation(token: Token, rest: string)
    requires token.Paren? || token.Bracket? || token.Comma? || token.Star?
    ensures Lex([PunctuationOf(token)] + rest) == Found(token, 1)
  {
    LexFirst([PunctuationOf(token)] + rest, 2, Found(token, 1));
  }

  lemma KeywordsDiffer(j: nat, k: nat)
    requires j < k < |KEYWORDS|
    ensures Spelling(KEYWORDS[j]) != Spelling(KEYWORDS[k])
  {
    var a, b := Spelling(KEYWORDS[j]), Spelling(KEYWORDS[k]);
    if |a| == |b| {
      assert a[0] != b[0] || a[1] != b[1];
    }
  }

  lemma {:induction false} WordAt(text: string, k: nat, from: nat)
    requires from <= k < |KEYWORDS| && Lower(text) == Spelling(KEYWORDS[k])
    ensures WordAmong(text, KEYWORDS[from..]) == KEYWORDS[k]
    decreases k - from
  {
    if from < k {
      KeywordsDiffer(from, k);
      WordAt(text, k, from + 1);
      assert KEYWORDS[from..][1..] == KEYWORDS[from + 1..];
    }
  }

  lemma KeywordSpelling(k: nat)
    requires k < |KEYWORDS|
    ensures IsName(Spelling(KEYWORDS[k])) && Lower(Spelling(KEYWORDS[k])) == Spelling(KEYWORDS[k])
  {
  }

  lemma KeywordIndex(token: Token) returns (k: int)
    requires IsKeyword(token)
    ensures 0 <= k < |KEYWORDS| && KEYWORDS[k] == token
  {
    k := match token
      case Boolean(truth) => if truth then 0 else 1
      case NullToken => 2
      case OperatorToken(And) => 3
      case OperatorToken(Or) => 4
      case OperatorToken(Like) => 5
      case OperatorToken(ILike) => 6
      case OperatorToken(In) => 7
      case _ => 8;
  }

  lemma LexKeyword(token: Token, rest: string)
    requires IsKeyword(token) && IsApart(rest)
    ensures Lex(Spelling(token) + rest) == Found(token, |Spelling(token)|)
  {
    var k := KeywordIndex(token);
    KeywordSpelling(k);
    WordAt(Spelling(token), k, 0);
    assert KEYWORDS[0..] == KEYWORDS;
    LexName(Spelling(token), rest);
  }

  lemma LexRendered(token: Token, rest: string)
    requires IsToken(token) && IsApart(rest)
    ensures Lex(Render(token) + rest) == Found(token, |Render(token)|)
  {
    if IsKeyword(token) {
      LexKeyword(token, rest);
    } else {
      match token
      case Identifier(name) => LexName(name, rest);
      case Number(text) => LexNumber(text, rest);
      case Literal(value) => LexLiteral(value, rest);
      case OperatorToken(operator) => LexSymbol(operator, rest);
      case _ => LexPunctuation(token, rest);
    }
  }

  lemma TokensFound(text: string, token: Token, rest: string)
    requires text != [] && Lex(text + rest) == Found(token, |text|)
    ensures Tokens(text + rest) == Prepend([token], Tokens(rest))
  {
    assert (text + rest)[|text|..] == rest;
  }

  lemma TokensAfterBlank(rest: string)
    ensures Tokens([' '] + rest) == Tokens(rest)
  {
    var s := [' '] + rest;
    LexFirst(s, 0, Blank);
    assert s[1..] == rest;
  }

  /** Tokens written one after the other, a blank between them, are read back. */
  lemma {:induction false} TokensOfJoin(tokens: seq<Token>)
    requires forall i :: 0 <= i < |tokens| ==> IsToken(tokens[i])
    ensures Tokens(Join(tokens)) == Ok(tokens)
  {
    if tokens != [] {
      var first, rest := Render(tokens[0]), if |tokens| == 1 then [] else [' '] + Join(tokens[1..]);
      assert Join(tokens) == first + rest by {
        assert first + [] == first;
      }
      LexRendered(tokens[0], rest);
      TokensFound(first, tokens[0], rest);
      if |tokens| > 1 {
        TokensAfterBlank(Join(tokens[1..]));
        TokensOfJoin(tokens[1..]);
      }
      assert tokens == [tokens[0]] + tokens[1..];
    }
  }

  lemma NumberPrefix(s: string)
    requires NumberLength(s) > 0
    ensures IsNumber(s[..NumberLength(s)])
  {
    UnsignedPrefix(if s[0] == '-' then s[1..] else s);
    if s[0] == '-' {
      assert s[..NumberLength(s)][1..] == s[1..][..UnsignedLength(s[1..])];
    } else {
      assert s[..NumberLength(s)][0] == s[0];
    }
  }

  lemma UnsignedPrefix(s: string)
    ensures UnsignedLength(s) > 0 ==> IsUnsigned(s[..UnsignedLength(s)])
  {
    var n, whole := UnsignedLength(s), Span(IsDigit, s);
    if n > 0 {
      var tail := s[whole..n];
      assert s[..n] == s[..whole] + tail;
      FractionPrefix(s[whole..]);
      assert tail == s[whole..][..FractionLength(s[whole..])];
      SpanStops(IsDigit, s[..whole], tail);
      assert s[..n][whole..] == tail;
    }
  }

  lemma FractionPrefix(s: string)
    ensures FractionLength(s[..FractionLength(s)]) == FractionLength(s)
    ensures FractionLength(s) > 0 ==> s[0] == '.'
  {
    var n := FractionLength(s);
    if n > 0 {
      assert s[..n][1..] == s[1..][..n - 1];
      SpanStops(IsDigit, s[1..][..n - 1], []);
      assert s[1..][..n - 1] + [] == s[1..][..n - 1];
    }
  }

  lemma {:induction false} WordIsToken(text: string, keywords: seq<Token>)
    requires forall k :: 0 <= k < |keywords| ==> IsKeyword(keywords[k])
    ensures WordAmong(text, keywords) == Identifier(text) || IsKeyword(WordAmong(text, keywords))
  {
    if keywords != [] {
      WordIsToken(text, keywords[1..]);
    }
  }

  lemma AppliedIsToken(rule: Rule, s: string)
    requires s != [] && Apply(rule, s).Some? && Apply(rule, s).value.Found?
    ensures IsToken(Apply(rule, s).value.token)
  {
    match rule
    case NumberRule => NumberPrefix(s);
    case NameRule =>
      var text := s[..NameLength(s)];
      WordIsToken(text, KEYWORDS);
    case _ =>
  }

  lemma {:induction false} LexedIsToken(s: string, rules: seq<Rule>)
    requires s != [] && LexAmong(s, rules).Found?
    ensures IsToken(LexAmong(s, rules).token)
  {
    if rules != [] {
      if Apply(rules[0], s).Some? {
        AppliedIsToken(rules[0], s);
      } else {
        LexedIsToken(s, rules[1..]);
      }
    }
  }

  lemma {:induction false} TokensAreTokens(s: string)
    requires Tokens(s).Ok?
    ensures forall i :: 0 <= i < |Tokens(s).value| ==> IsToken(Tokens(s).value[i])
  {
    if s != [] {
      match Lex(s)
      case Blank => TokensAreTokens(s[1..]);
      case Found(token, n) =>
        LexedIsToken(s, RULES);
        TokensAreTokens(s[n..]);
        assert Tokens(s).value == [token] + Tokens(s[n..]).value;
      case Bad(_) =>
    }
  }

  /** However a condition was spaced, cased and quoted, its tokens written out anew give the same tokens. */
  lemma RetokenizeJoined(s: string)
    requires Tokens(s).Ok?
    ensures Tokens(Join(Tokens(s).value)) == Tokens(s)
  {
    TokensAreTokens(s);
    TokensOfJoin(Tokens(s).value);
  }
}
