/** The texts of OQL conditions, written down without the tokenizer, and what the parser reads in them. */
module OqlText {
  import opened Wrappers
  import opened Text
  import opened Decimals
  import opened OqlTokens
  import opened OqlParser

  // ----- Texts

  ghost function WordOf(operator: Operator): string {
    match operator
    case Equal => "="
    case NotEqual => "!="
    case Greater => ">"
    case AtLeast => ">="
    case Less => "<"
    case AtMost => "<="
    case Like => "like"
    case ILike => "ilike"
    case In => "in"
    case Is => "is"
    case And => "and"
    case Or => "or"
  }

  /** A quotation mark or a backslash gets a backslash before it. */
  ghost function Backslashed(s: string): string {
    if s == "" then ""
    else (if s[0] == '"' then "\\\"" else if s[0] == '\\' then "\\\\" else [s[0]]) + Backslashed(s[1..])
  }

  ghost function DecimalText(d: Decimal): string {
    (if d.negative then "-" else "") + Numeral(d.whole) + if d.fraction == "" then "" else "." + d.fraction
  }

  ghost function ScalarText(scalar: Scalar): string {
    match scalar
    case NumberValue(number) => DecimalText(number)
    case StringValue(text) => "\"" + Backslashed(text) + "\""
    case BooleanValue(truth) => if truth then "true" else "false"
    case NullValue => "null"
  }

  ghost function ItemsText(scalars: seq<Scalar>): string {
    if scalars == [] then ""
    else if |scalars| == 1 then ScalarText(scalars[0])
    else ScalarText(scalars[0]) + " , " + ItemsText(scalars[1..])
  }

  ghost function ValueText(value: Value): string {
    match value
    case Ref(reference) => reference.raw
    case Single(scalar) => ScalarText(scalar)
    case List(scalars) => if scalars == [] then "[ ]" else "[ " + ItemsText(scalars) + " ]"
  }

  /** `and` binds more tightly than `or`, and both to the left. */
  ghost function TextOf(condition: Condition): string
    decreases condition, 2
  {
    if condition.EitherOf? then TextOf(condition.first) + " or " + AndText(condition.second) else AndText(condition)
  }

  ghost function AndText(condition: Condition): string
    decreases condition, 1
  {
    if condition.BothOf? then AndText(condition.first) + " and " + OperandText(condition.second)
    else OperandText(condition)
  }

  ghost function OperandText(condition: Condition): string
    decreases condition, 0
  {
    match condition
    case Comparison(operator, left, right) => ValueText(left) + " " + WordOf(operator) + " " + ValueText(right)
    case BothOf(first, second) => "( " + (AndText(first) + " and " + OperandText(second)) + " )"
    case EitherOf(first, second) => "( " + (TextOf(first) + " or " + AndText(second)) + " )"
  }

  // ----- Conditions that have a text

  ghost const WORDS := ["true", "false", "null", "and", "or", "like", "ilike", "in", "is"]

  ghost predicate IsSmall(c: char) {
    'a' <= c <= 'z'
  }

  ghost predicate IsAscii(c: char) {
    IsSmall(c) || 'A' <= c <= 'Z'
  }

  /** The letter itself or its capital, `A` for `a` and so on up to `Z` for `z`. */
  ghost predicate IsCaseOf(c: char, small: char) {
    c == small || (IsSmall(small) && c as int - 'A' as int == small as int - 'a' as int)
  }

  ghost predicate IsCasing(text: string, word: string) {
    |text| == |word| && forall i :: 0 <= i < |text| ==> IsCaseOf(text[i], word[i])
  }

  ghost predicate IsReserved(text: string) {
    exists word :: word in WORDS && IsCasing(text, word)
  }

  /** A letter, and then letters, digits and underscores. */
  ghost predicate IsPlainName(s: string) {
    s != "" && IsAscii(s[0]) && forall c :: c in s ==> IsAscii(c) || '0' <= c <= '9' || c == '_'
  }

  /** A name, or two with a point between them, that is no word of the language. */
  ghost predicate IsPlainReference(r: Reference) {
    && !IsReserved(r.raw)
    && ((IsPlainName(r.raw) && r.path == [r.raw])
        || (|r.path| == 2 && IsPlainName(r.path[0]) && IsPlainName(r.path[1]) && r.raw == r.path[0] + "." + r.path[1]))
  }

  ghost predicate IsPlainDecimal(d: Decimal) {
    && (forall c :: c in d.fraction ==> '0' <= c <= '9')
    && (d.fraction != "" ==> d.fraction[|d.fraction| - 1] != '0')
    && !(d.negative && d.whole == 0 && d.fraction == "")
  }

  ghost predicate IsPlainScalar(scalar: Scalar) {
    scalar.NumberValue? ==> IsPlainDecimal(scalar.number)
  }

  ghost predicate IsPlainValue(value: Value) {
    match value
    case Ref(reference) => IsPlainReference(reference)
    case Single(scalar) => IsPlainScalar(scalar)
    case List(scalars) => forall scalar :: scalar in scalars ==> IsPlainScalar(scalar)
  }

  ghost predicate IsPlain(condition: Condition) {
    match condition
    case Comparison(_, left, right) => IsPlainValue(left) && IsPlainValue(right)
    case BothOf(first, second) => IsPlain(first) && IsPlain(second)
    case EitherOf(first, second) => IsPlain(first) && IsPlain(second)
  }

  // ----- They are the conditions the parser can answer

  lemma Casings(text: string, word: string)
    requires forall c :: c in word ==> IsSmall(c)
    ensures IsCasing(text, word) <==> Lower(text) == word
  {
    if |text| == |word| {
      forall i | 0 <= i < |text|
        ensures IsCaseOf(text[i], word[i]) <==> Lower(text)[i] == word[i]
      {
        assert word[i] in word;
      }
    }
  }

  lemma {:induction false} WordAmongMeans(text: string, keywords: seq<Token>)
    requires forall k :: 0 <= k < |keywords| ==> IsKeyword(keywords[k])
    ensures WordAmong(text, keywords) == Identifier(text) <==>
      forall k :: 0 <= k < |keywords| ==> Lower(text) != Spelling(keywords[k])
  {
    if keywords != [] {
      WordAmongMeans(text, keywords[1..]);
      assert keywords == [keywords[0]] + keywords[1..];
    }
  }

  lemma WordSpelled(k: nat)
    requires k < |WORDS|
    ensures |KEYWORDS| == |WORDS| && Spelling(KEYWORDS[k]) == WORDS[k] && IsKeyword(KEYWORDS[k])
    ensures forall c :: c in WORDS[k] ==> IsSmall(c)
  {
  }

  lemma ReservedIsKeyword(text: string)
    ensures IsReserved(text) <==> Word(text) != Identifier(text)
  {
    forall k | 0 <= k < |WORDS|
      ensures Spelling(KEYWORDS[k]) == WORDS[k] && IsKeyword(KEYWORDS[k])
      ensures IsCasing(text, WORDS[k]) <==> Lower(text) == WORDS[k]
    {
      WordSpelled(k);
      Casings(text, WORDS[k]);
    }
    WordAmongMeans(text, KEYWORDS);
  }

  lemma NameIsSegment(s: string)
    ensures IsPlainName(s) <==> IsSegment(s)
  {
    if IsPlainName(s) {
      assert forall i :: 0 <= i < |s| ==> s[i] in s;
    }
  }

  lemma PlainReferenceIsValue(r: Reference)
    requires IsPlainReference(r)
    ensures IsValue(Ref(r))
  {
    ReservedIsKeyword(r.raw);
    if r.path == [r.raw] && IsPlainName(r.raw) {
      NameIsSegment(r.raw);
      assert IndexOf(r.raw, '.') == -1;
    } else {
      NameIsSegment(r.path[0]);
      NameIsSegment(r.path[1]);
      FirstPoint(r.path[0], r.path[1]);
      assert r.path == [r.path[0], r.path[1]];
      assert ParseReference(r.raw) == Ok(Reference(r.raw, [r.path[0], r.path[1]]));
    }
  }

  lemma ValueIsPlainReference(r: Reference)
    requires IsValue(Ref(r))
    ensures IsPlainReference(r)
  {
    ReservedIsKeyword(r.raw);
    var dot := IndexOf(r.raw, '.');
    if dot == -1 {
      NameIsSegment(r.raw);
    } else {
      assert r.path == [r.raw[..dot], r.raw[dot + 1..]];
      NameIsSegment(r.path[0]);
      NameIsSegment(r.path[1]);
      assert r.raw == r.path[0] + "." + r.path[1];
    }
  }

  lemma FirstPoint(a: string, b: string)
    requires forall c :: c in a ==> c != '.'
    ensures var dot := IndexOf(a + "." + b, '.');
      dot == |a| && (a + "." + b)[..dot] == a && (a + "." + b)[dot + 1..] == b
  {
    var s, dot := a + "." + b, IndexOf(a + "." + b, '.');
    assert s[|a|] == '.';
    assert forall i :: 0 <= i < |a| ==> s[i] in a;
    forall i | 0 <= i < dot
      ensures s[i] != '.'
    {
      assert s[..dot][i] == s[i];
    }
  }

  lemma ScalarIsScalar(scalar: Scalar)
    ensures IsPlainScalar(scalar) <==> IsScalar(scalar)
  {
    if scalar.NumberValue? {
      assert forall i :: 0 <= i < |scalar.number.fraction| ==> scalar.number.fraction[i] in scalar.number.fraction;
    }
  }

  lemma PlainIsValue(value: Value)
    ensures IsPlainValue(value) <==> IsValue(value)
  {
    match value
    case Ref(reference) =>
      if IsPlainReference(reference) {
        PlainReferenceIsValue(reference);
      } else if IsValue(value) {
        ValueIsPlainReference(reference);
      }
    case Single(scalar) => ScalarIsScalar(scalar);
    case List(scalars) =>
      forall i | 0 <= i < |scalars|
        ensures IsPlainScalar(scalars[i]) <==> IsScalar(scalars[i])
      {
        ScalarIsScalar(scalars[i]);
      }
  }

  lemma {:induction false} PlainIsCondition(condition: Condition)
    ensures IsPlain(condition) <==> IsCondition(condition)
  {
    match condition
    case Comparison(_, left, right) =>
      PlainIsValue(left);
      PlainIsValue(right);
    case BothOf(first, second) =>
      PlainIsCondition(first);
      PlainIsCondition(second);
    case EitherOf(first, second) =>
      PlainIsCondition(first);
      PlainIsCondition(second);
  }

  // ----- The texts are those of the tokens

  lemma JoinCons(token: Token, rest: seq<Token>)
    requires rest != []
    ensures Join([token] + rest) == Render(token) + (" " + Join(rest))
  {
    assert ([token] + rest)[0] == token && ([token] + rest)[1..] == rest;
  }

  lemma BlankBetween(first: string, a: string, b: string)
    ensures first + (" " + (a + " " + b)) == (first + (" " + a)) + " " + b
  {
    Regroup(" ", a, " " + b);
    Regroup(a, " ", b);
    Regroup(first, " " + a, " " + b);
    Regroup(first + (" " + a), " ", b);
  }

  lemma {:induction false} JoinTwo(a: seq<Token>, b: seq<Token>)
    requires a != [] && b != []
    ensures Join(a + b) == Join(a) + " " + Join(b)
  {
    if |a| == 1 {
      JoinCons(a[0], b);
      assert a == [a[0]] && Join(a) == Render(a[0]);
      Regroup(Join(a), " ", Join(b));
    } else {
      var rest := a[1..];
      assert a == [a[0]] + rest && a + b == [a[0]] + (rest + b);
      JoinTwo(rest, b);
      JoinCons(a[0], rest);
      JoinCons(a[0], rest + b);
      BlankBetween(Render(a[0]), Join(rest), Join(b));
    }
  }

  lemma BlanksAround(a: string, word: string, b: string)
    ensures a + " " + (word + " " + b) == a + (" " + word + " ") + b
  {
    Regroup(a, " ", word + " " + b);
    Regroup(" ", word, " ");
    Regroup(" ", word + " ", b);
    Regroup(a, " " + word + " ", b);
  }

  lemma JoinAround(a: seq<Token>, token: Token, b: seq<Token>)
    requires a != [] && b != []
    ensures Join(a + ([token] + b)) == Join(a) + (" " + Render(token) + " ") + Join(b)
  {
    JoinTwo([token], b);
    assert Join([token]) == Render(token);
    JoinTwo(a, [token] + b);
    BlanksAround(Join(a), Render(token), Join(b));
  }

  lemma {:induction false} EscapedText(s: string)
    ensures Escaped(s) == Backslashed(s)
  {
    if s != "" {
      EscapedText(s[1..]);
    }
  }

  lemma ScalarRendered(scalar: Scalar)
    ensures Render(PrintScalar(scalar)) == ScalarText(scalar)
  {
    match scalar
    case NumberValue(d) =>
      assert d.fraction == "" ==> Numeral(d.whole) + "" == Numeral(d.whole);
      assert ShowDecimal(d) == DecimalText(d);
    case StringValue(text) => EscapedText(text);
    case _ =>
  }

  lemma Spaced(a: string, word: string, b: string)
    ensures a + (" " + word + " ") + b == a + " " + word + " " + b
  {
    Regroup(a, " " + word, " ");
    Regroup(a, " ", word);
  }

  lemma CommaAround(first: Token, b: seq<Token>)
    requires b != []
    ensures Join([first] + ([Comma] + b)) == Render(first) + " , " + Join(b)
  {
    assert " " + "," + " " == " , " && Render(Comma) == "," && Join([first]) == Render(first);
    JoinAround([first], Comma, b);
  }

  lemma {:induction false} ItemsRendered(scalars: seq<Scalar>)
    requires scalars != []
    ensures PrintItems(scalars) != [] && Join(PrintItems(scalars)) == ItemsText(scalars)
  {
    ScalarRendered(scalars[0]);
    var first := PrintScalar(scalars[0]);
    if |scalars| == 1 {
      assert PrintItems(scalars) == [first];
    } else {
      var rest := PrintItems(scalars[1..]);
      ItemsRendered(scalars[1..]);
      CommaAround(first, rest);
      assert PrintItems(scalars) == [first] + ([Comma] + rest);
    }
  }

  lemma ListRendered(scalars: seq<Scalar>)
    ensures Join(PrintValue(List(scalars))) == ValueText(List(scalars))
  {
    var open, close := Bracket(true), Bracket(false);
    assert Join([open]) == "[" && Join([close]) == "]";
    if scalars == [] {
      assert PrintValue(List(scalars)) == [open] + [close];
      JoinTwo([open], [close]);
    } else {
      var items, text := PrintItems(scalars), ItemsText(scalars);
      ItemsRendered(scalars);
      JoinTwo(items, [close]);
      JoinTwo([open], items + [close]);
      assert "[" + " " == "[ " && " " + "]" == " ]";
      Regroup(text, " ", "]");
      Regroup("[ ", text, " ]");
    }
  }

  lemma ValueRendered(value: Value)
    ensures PrintValue(value) != [] && Join(PrintValue(value)) == ValueText(value)
  {
    match value
    case Ref(reference) =>
    case Single(scalar) => ScalarRendered(scalar);
    case List(scalars) => ListRendered(scalars);
  }

  lemma OperatorRendered(operator: Operator)
    ensures Render(OperatorToken(operator)) == WordOf(operator)
  {
  }

  lemma Enclosed(s: string)
    ensures "(" + " " + (s + " " + ")") == "( " + s + " )"
  {
    assert "(" + " " == "( " && " " + ")" == " )";
    Regroup(s, " ", ")");
    Regroup("( ", s, " )");
  }

  lemma InParentheses(inside: seq<Token>)
    requires inside != []
    ensures Join([Paren(true)] + (inside + [Paren(false)])) == "( " + Join(inside) + " )"
  {
    assert Join([Paren(true)]) == "(" && Join([Paren(false)]) == ")";
    JoinTwo(inside, [Paren(false)]);
    JoinTwo([Paren(true)], inside + [Paren(false)]);
    Enclosed(Join(inside));
  }

  lemma AndAround(a: seq<Token>, b: seq<Token>)
    requires a != [] && b != []
    ensures Join(a + ([OperatorToken(And)] + b)) == Join(a) + " and " + Join(b)
  {
    OperatorRendered(And);
    assert " " + "and" + " " == " and ";
    JoinAround(a, OperatorToken(And), b);
  }

  lemma OrAround(a: seq<Token>, b: seq<Token>)
    requires a != [] && b != []
    ensures Join(a + ([OperatorToken(Or)] + b)) == Join(a) + " or " + Join(b)
  {
    OperatorRendered(Or);
    assert " " + "or" + " " == " or ";
    JoinAround(a, OperatorToken(Or), b);
  }

  /** The tokens of a condition have its text, at each of the three levels. */
  ghost predicate IsRendered(condition: Condition, level: nat) {
    var tokens := if level == 2 then PrintOr(condition) else if level == 1 then PrintAnd(condition)
                  else PrintComparison(condition);
    var text := if level == 2 then TextOf(condition) else if level == 1 then AndText(condition)
                else OperandText(condition);
    tokens != [] && Join(tokens) == text
  }

  lemma OrRendered(first: Condition, second: Condition)
    requires IsRendered(first, 2) && IsRendered(second, 1)
    ensures
      Join(PrintOr(first) + ([OperatorToken(Or)] + PrintAnd(second))) == TextOf(first) + " or " + AndText(second)
  {
    OrAround(PrintOr(first), PrintAnd(second));
  }

  lemma AndRendered(first: Condition, second: Condition)
    requires IsRendered(first, 1) && IsRendered(second, 0)
    ensures Join(PrintAnd(first) + ([OperatorToken(And)] + PrintComparison(second))) ==
      AndText(first) + " and " + OperandText(second)
  {
    AndAround(PrintAnd(first), PrintComparison(second));
  }

  lemma ComparisonRendered(operator: Operator, left: Value, right: Value)
    ensures IsRendered(Comparison(operator, left, right), 0)
  {
    ValueRendered(left);
    ValueRendered(right);
    OperatorRendered(operator);
    JoinAround(PrintValue(left), OperatorToken(operator), PrintValue(right));
    Spaced(ValueText(left), WordOf(operator), ValueText(right));
  }

  lemma {:induction false} TextRendered(condition: Condition, level: nat)
    requires level <= 2
    ensures IsRendered(condition, level)
    decreases condition, level + 1
  {
    if level == 2 && condition.EitherOf? {
      TextRendered(condition.first, 2);
      TextRendered(condition.second, 1);
      OrRendered(condition.first, condition.second);
    } else if level == 1 && condition.BothOf? {
      TextRendered(condition.first, 1);
      TextRendered(condition.second, 0);
      AndRendered(condition.first, condition.second);
    } else if level > 0 {
      TextRendered(condition, level - 1);
    } else {
      OperandRendered(condition);
    }
  }

  lemma {:induction false} OperandRendered(condition: Condition)
    ensures IsRendered(condition, 0)
    decreases condition, 0
  {
    match condition
    case Comparison(operator, left, right) => ComparisonRendered(operator, left, right);
    case BothOf(first, second) =>
      TextRendered(first, 1);
      TextRendered(second, 0);
      AndRendered(first, second);
      InParentheses(PrintAnd(first) + ([OperatorToken(And)] + PrintComparison(second)));
    case EitherOf(first, second) =>
      TextRendered(first, 2);
      TextRendered(second, 1);
      OrRendered(first, second);
      InParentheses(PrintOr(first) + ([OperatorToken(Or)] + PrintAnd(second)));
  }

  /** The text of every plain condition is parsed as that condition. */
  lemma TextParses(condition: Condition)
    requires IsPlain(condition)
    ensures ParseCondition(TextOf(condition)) == Ok(condition)
  {
    PlainIsCondition(condition);
    TextRendered(condition, 2);
    PrintParse(condition);
  }

  /** The parser answers plain conditions only. */
  lemma ParsedIsPlain(input: string)
    requires ParseCondition(input).Ok?
    ensures IsPlain(ParseCondition(input).value)
  {
    ParsePrint(input);
    PlainIsCondition(ParseCondition(input).value);
  }

  // ----- How a text may be laid out

  /** The characters between which tokens may stand: tabs, line ends, blanks of every kind. */
  ghost predicate IsBlank(c: char) {
    c as int in {9, 10, 11, 12, 13, 32, 160, 5760, 8192, 8193, 8194, 8195, 8196, 8197, 8198, 8199, 8200, 8201, 8202,
                 8232, 8233, 8239, 8287, 12288, 65279}
  }

  lemma Blanks(c: char)
    ensures IsBlank(c) <==> IsSpace(c)
  {
  }

  lemma BlankSkipped(c: char, rest: string)
    requires IsBlank(c)
    ensures Tokens([c] + rest) == Tokens(rest)
  {
    Blanks(c);
    LexFirst([c] + rest, 0, Blank);
    assert ([c] + rest)[1..] == rest;
  }

  /** The text is read as one token, whatever follows it. */
  ghost predicate IsRead(text: string, token: Token, rest: string) {
    Tokens(text + rest) == match Tokens(rest) case Ok(tokens) => Ok([token] + tokens) case Err(e) => Err(e)
  }

  lemma FoundIsRead(text: string, token: Token, rest: string)
    requires text != "" && Lex(text + rest) == Found(token, |text|)
    ensures IsRead(text, token, rest)
  {
    TokensFound(text, token, rest);
  }

  /** What each of the nine words is. */
  ghost function Meaning(k: nat): Token
    requires k < |WORDS|
  {
    if k == 0 then Boolean(true) else if k == 1 then Boolean(false) else if k == 2 then NullToken
    else OperatorToken(if k == 3 then And else if k == 4 then Or else if k == 5 then Like else if k == 6 then ILike
                       else if k == 7 then In else Is)
  }

  /** A character that cannot continue a name. */
  ghost predicate EndsName(rest: string) {
    rest == "" || !(IsAscii(rest[0]) || '0' <= rest[0] <= '9' || rest[0] == '_' || rest[0] == '.')
  }

  lemma NameIsRead(text: string, rest: string)
    requires IsName(text) && EndsName(rest)
    ensures Lex(text + rest) == Found(Word(text), |text|)
  {
    var s := text + rest;
    NoNumberAtName(s);
    SpanStops(IsNamePart, text, rest);
    assert s[..|text|] == text;
    LexFirst(s, 5, Found(Word(text), |text|));
  }

  /** Each of the nine words means the same in any case. */
  lemma AnyCasing(text: string, k: nat, rest: string)
    requires k < |WORDS| && IsCasing(text, WORDS[k]) && EndsName(rest)
    ensures IsRead(text, Meaning(k), rest)
  {
    WordSpelled(k);
    Casings(text, WORDS[k]);
    assert forall i :: 0 <= i < |text| ==> WORDS[k][i] in WORDS[k];
    assert KEYWORDS[0..] == KEYWORDS;
    WordAt(text, k, 0);
    NameIsRead(text, rest);
    FoundIsRead(text, Meaning(k), rest);
  }

  /** Any other name stands for itself. */
  lemma OtherNames(text: string, rest: string)
    requires text != "" && (IsAscii(text[0]) || text[0] == '_') && !IsReserved(text) && EndsName(rest)
    requires forall c :: c in text ==> IsAscii(c) || '0' <= c <= '9' || c == '_' || c == '.'
    ensures IsRead(text, Identifier(text), rest)
  {
    assert forall i :: 0 <= i < |text| ==> text[i] in text;
    ReservedIsKeyword(text);
    NameIsRead(text, rest);
    FoundIsRead(text, Identifier(text), rest);
  }

  /** The symbols need no blanks around them; of two that fit the longer one is read. */
  lemma SymbolsAreRead(operator: Operator, rest: string)
    requires operator in {Equal, NotEqual, Greater, AtLeast, Less, AtMost}
    requires operator in {Greater, Less} ==> rest == "" || rest[0] != '='
    ensures IsRead(WordOf(operator), OperatorToken(operator), rest)
  {
    LexFirst(WordOf(operator) + rest, 1, Found(OperatorToken(operator), |WordOf(operator)|));
    FoundIsRead(WordOf(operator), OperatorToken(operator), rest);
  }

  lemma PunctuationIsRead(token: Token, rest: string)
    requires token.Paren? || token.Bracket? || token.Comma? || token.Star?
    ensures IsRead(match token
                   case Paren(opens) => if opens then "(" else ")"
                   case Bracket(opens) => if opens then "[" else "]"
                   case Comma => ","
                   case _ => "*", token, rest)
  {
    LexPunctuation(token, rest);
    FoundIsRead([PunctuationOf(token)], token, rest);
  }

  /** Between quotation marks of either kind, each character may have a backslash before it; these two must. */
  ghost predicate IsBody(body: string, value: string, quote: char)
    decreases |body|
  {
    if body == "" then value == ""
    else if body[0] == '\\' then |body| > 1 && value != "" && value[0] == body[1]
         && IsBody(body[2..], value[1..], quote)
    else body[0] != quote && value != "" && value[0] == body[0] && IsBody(body[1..], value[1..], quote)
  }

  lemma {:induction false} QuotedBody(body: string, value: string, quote: char, rest: string)
    requires IsBody(body, value, quote) && quote != '\\'
    ensures Quoted(body + ([quote] + rest), quote) == Some((value, |body| + 1))
    ensures Quoted(body, quote) == None
    decreases |body|
  {
    var s := body + ([quote] + rest);
    if body != "" {
      var n := if body[0] == '\\' then 2 else 1;
      QuotedBody(body[n..], value[1..], quote, rest);
      assert s[n..] == body[n..] + ([quote] + rest);
      assert value == [value[0]] + value[1..];
    }
  }

  lemma StringsAreRead(body: string, value: string, quote: char, rest: string)
    requires quote in {'"', '\''} && IsBody(body, value, quote)
    ensures IsRead([quote] + body + [quote], Literal(value), rest)
  {
    var text, s := [quote] + body + [quote], [quote] + body + [quote] + rest;
    QuotedBody(body, value, quote, rest);
    assert s[0] == quote && s[1..] == body + ([quote] + rest);
    LexFirst(s, 3, Found(Literal(value), |body| + 2));
    FoundIsRead(text, Literal(value), rest);
  }

  /** A string must end. */
  lemma StringsMustEnd(body: string, value: string, quote: char)
    requires quote in {'"', '\''} && IsBody(body, value, quote)
    ensures Tokens([quote] + body) == Err(UnterminatedString)
  {
    var s := [quote] + body;
    QuotedBody(body, value, quote, "");
    assert s[0] == quote && s[1..] == body;
    LexFirst(s, 3, Bad(UnterminatedString));
  }

  ghost predicate AreDigits(s: string) {
    forall i :: 0 <= i < |s| ==> '0' <= s[i] <= '9'
  }

  /** A decimal ends where no digit follows, nor, behind a whole number, a point with a digit. */
  ghost predicate EndsDecimal(d: Decimal, rest: string) {
    rest != "" ==>
      && !('0' <= rest[0] <= '9')
      && (d.fraction == "" && rest[0] == '.' && |rest| > 1 ==> !('0' <= rest[1] <= '9'))
  }

  lemma WholeEnds(whole: nat, rest: string)
    requires rest != "" ==> !('0' <= rest[0] <= '9') && (rest[0] == '.' && |rest| > 1 ==> !('0' <= rest[1] <= '9'))
    ensures UnsignedLength(Numeral(whole) + rest) == |Numeral(whole)|
  {
    assert (Numeral(whole) + rest)[|Numeral(whole)|..] == rest;
    SpanStops(IsDigit, Numeral(whole), rest);
    assert |rest| > 1 ==> rest[1..][0] == rest[1];
  }

  lemma FractionEnds(whole: nat, fraction: string, rest: string)
    requires AreDigits(fraction) && fraction != "" && (rest != "" ==> !('0' <= rest[0] <= '9'))
    ensures UnsignedLength(Numeral(whole) + (['.'] + (fraction + rest))) == |Numeral(whole)| + 1 + |fraction|
  {
    var n, tail := Numeral(whole), ['.'] + (fraction + rest);
    assert (n + tail)[|n|..] == tail && tail[1..] == fraction + rest;
    SpanStops(IsDigit, n, tail);
    SpanStops(IsDigit, fraction, rest);
  }

  lemma UnsignedEnds(d: Decimal, rest: string)
    requires IsPlainDecimal(d) && EndsDecimal(d, rest)
    ensures UnsignedLength(ShowUnsigned(d) + rest) == |ShowUnsigned(d)|
  {
    var n, f := Numeral(d.whole), d.fraction;
    if f == "" {
      assert n + "" == n;
      WholeEnds(d.whole, rest);
    } else {
      assert AreDigits(f) by {
        assert forall i :: 0 <= i < |f| ==> f[i] in f;
      }
      Regroup(n, ['.'] + f, rest);
      Regroup(['.'], f, rest);
      FractionEnds(d.whole, f, rest);
    }
  }

  lemma SignedLength(unsigned: string, rest: string)
    requires unsigned != "" && IsDigit(unsigned[0]) && UnsignedLength(unsigned + rest) == |unsigned|
    ensures NumberLength(unsigned + rest) == |unsigned|
    ensures NumberLength((['-'] + unsigned) + rest) == |['-'] + unsigned|
  {
    assert (unsigned + rest)[0] == unsigned[0];
    Regroup(['-'], unsigned, rest);
    assert (['-'] + (unsigned + rest))[1..] == unsigned + rest;
  }

  lemma DecimalEnds(d: Decimal, rest: string)
    requires IsPlainDecimal(d) && EndsDecimal(d, rest)
    ensures DecimalText(d) != "" && NumberLength(DecimalText(d) + rest) == |DecimalText(d)|
    ensures IsDigit(DecimalText(d)[0]) || DecimalText(d)[0] == '-'
  {
    var u := ShowUnsigned(d);
    ScalarRendered(NumberValue(d));
    assert DecimalText(d) == ShowDecimal(d) == if d.negative then ['-'] + u else u;
    UnsignedEnds(d, rest);
    assert IsDigit(u[0]) by {
      assert u[0] == Numeral(d.whole)[0];
    }
    SignedLength(u, rest);
  }

  lemma NumberIsRead(text: string, rest: string)
    requires text != "" && NumberLength(text + rest) == |text| && (IsDigit(text[0]) || text[0] == '-')
    ensures IsRead(text, Number(text), rest)
  {
    var s := text + rest;
    assert s[..|text|] == text;
    NoRuleBeforeNumber(s);
    LexFirst(s, 4, Found(Number(text), |text|));
    FoundIsRead(text, Number(text), rest);
  }

  lemma NumbersAreRead(d: Decimal, rest: string)
    requires IsPlainDecimal(d) && EndsDecimal(d, rest)
    ensures IsRead(DecimalText(d), Number(DecimalText(d)), rest) && DecimalOf(DecimalText(d)) == d
  {
    ScalarIsScalar(NumberValue(d));
    ScalarRendered(NumberValue(d));
    ShownDecimal(d);
    DecimalEnds(d, rest);
    NumberIsRead(DecimalText(d), rest);
  }

  ghost function ZeroText(n: nat): string {
    seq(n, _ => '0')
  }

  lemma {:induction false} ZerosTrimmed(fraction: string, zeros: nat)
    requires fraction == "" || fraction[|fraction| - 1] != '0'
    ensures TrimZeros(fraction + ZeroText(zeros)) == fraction
  {
    var s := fraction + ZeroText(zeros);
    if zeros > 0 {
      assert s[..|s| - 1] == fraction + ZeroText(zeros - 1);
      ZerosTrimmed(fraction, zeros - 1);
    } else {
      assert s == fraction;
    }
  }

  lemma FractionRead(digits: string)
    requires AreDigits(digits) && digits != ""
    ensures FractionOf("." + digits) == TrimZeros(digits)
  {
    var tail := "." + digits;
    assert tail[1..] == digits && digits + "" == digits;
    SpanStops(IsDigit, digits, "");
    assert digits[..|digits|] == digits;
  }

  lemma UnsignedRead(whole: nat, tail: string)
    requires tail == "" || tail[0] == '.'
    ensures UnsignedOf(Numeral(whole) + tail) == Decimal(false, whole, FractionOf(tail))
  {
    var n, s := Numeral(whole), Numeral(whole) + tail;
    SpanStops(IsDigit, n, tail);
    assert s[..|n|] == n && s[|n|..] == tail;
    NumeralRoundTrip(whole);
  }

  lemma SignRead(negative: bool, unsigned: string)
    requires unsigned != "" && '0' <= unsigned[0] <= '9'
    ensures var d := UnsignedOf(unsigned);
      DecimalOf(if negative then "-" + unsigned else unsigned) ==
        d.(negative := negative && (d.whole != 0 || d.fraction != ""))
  {
    assert ("-" + unsigned)[1..] == unsigned;
  }

  /** Zeros behind the last digit of a fraction do not count, nor does a sign before a zero. */
  lemma ZerosDoNotCount(negative: bool, whole: nat, fraction: string, zeros: nat)
    requires AreDigits(fraction) && (fraction == "" || fraction[|fraction| - 1] != '0')
    requires fraction != "" || zeros > 0
    ensures
      var unsigned := Numeral(whole) + ("." + (fraction + ZeroText(zeros)));
      DecimalOf(if negative then "-" + unsigned else unsigned) ==
        Decimal(negative && (whole != 0 || fraction != ""), whole, fraction)
  {
    var digits := fraction + ZeroText(zeros);
    var unsigned := Numeral(whole) + ("." + digits);
    FractionRead(digits);
    ZerosTrimmed(fraction, zeros);
    UnsignedRead(whole, "." + digits);
    assert IsDigit(Numeral(whole)[0]) && unsigned[0] == Numeral(whole)[0];
    SignRead(negative, unsigned);
  }

  /** What no token begins with is an error. */
  lemma NothingElseIsRead(c: char, rest: string)
    requires !IsBlank(c) && !IsAscii(c) && !('0' <= c <= '9')
    requires c !in {'_', '=', '<', '>', '(', ')', '[', ']', ',', '*'}
    requires c !in {'"', '\''} && (c == '!' ==> rest == "" || rest[0] != '=')
    requires c == '-' ==> rest == "" || !('0' <= rest[0] <= '9')
    ensures Tokens([c] + rest) == Err(UnexpectedCharacter(c))
  {
    Blanks(c);
    var s := [c] + rest;
    assert s[1..] == rest;
    NoRule(s, 0);
    assert RULES[0..] == RULES;
  }

  lemma {:induction false} NoRule(s: string, from: nat)
    requires s != "" && from <= |RULES| && forall k :: 0 <= k < |RULES| ==> Apply(RULES[k], s) == None
    ensures LexAmong(s, RULES[from..]) == Bad(UnexpectedCharacter(s[0]))
    decreases |RULES| - from
  {
    if from < |RULES| {
      NoRule(s, from + 1);
      assert RULES[from..][1..] == RULES[from + 1..];
    }
  }
}
