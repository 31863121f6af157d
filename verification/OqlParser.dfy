/** The recursive-descent parser of OQL conditions, and a printer it undoes. */
module OqlParser {
  import opened Wrappers
  import opened Text
  import opened Decimals
  import opened OqlTokens

  datatype Reference = Reference(raw: string, path: seq<string>)

  datatype Scalar = NumberValue(number: Decimal) | StringValue(text: string) | BooleanValue(truth: bool) | NullValue

  datatype Value = Ref(reference: Reference) | Single(scalar: Scalar) | List(scalars: seq<Scalar>)

  datatype Condition =
    | Comparison(operator: Operator, left: Value, right: Value)
    | BothOf(first: Condition, second: Condition)
    | EitherOf(first: Condition, second: Condition)

  datatype Parse<+T> = Done(value: T, rest: seq<Token>) | Failed(error: OqlError)

  /** `[a-z][a-z0-9_]*`, in either case. */
  predicate IsSegment(s: string) {
    s != [] && IsLetter(s[0]) && forall i :: 0 <= i < |s| ==> IsNamePart(s[i]) && s[i] != '.'
  }

  function ParseReference(raw: string): Result<Reference, OqlError> {
    var dot := IndexOf(raw, '.');
    if dot == -1 then
      if IsSegment(raw) then Ok(Reference(raw, [raw])) else Err(InvalidIdentifier(raw))
    else if IsSegment(raw[..dot]) && IsSegment(raw[dot + 1..]) then
      Ok(Reference(raw, [raw[..dot], raw[dot + 1..]]))
    else
      Err(InvalidIdentifier(raw))
  }

  predicate Begins(tokens: seq<Token>, token: Token) {
    tokens != [] && tokens[0] == token
  }

  function ScalarOf(token: Token): Option<Scalar> {
    match token
    case Number(text) => Some(NumberValue(DecimalOf(text)))
    case Literal(value) => Some(StringValue(value))
    case Boolean(truth) => Some(BooleanValue(truth))
    case NullToken => Some(NullValue)
    case _ => None
  }

  /** `expect`. */
  function Closed<T>(r: Parse<T>, close: Token): Parse<T> {
    match r
    case Failed(_) => r
    case Done(value, rest) => if Begins(rest, close) then Done(value, rest[1..]) else Failed(Expected(close))
  }

  function ParseName(name: string, rest: seq<Token>): Parse<Value> {
    match ParseReference(name)
    case Ok(reference) => Done(Ref(reference), rest)
    case Err(error) => Failed(error)
  }

  function AsList(r: Parse<seq<Scalar>>): Parse<Value> {
    match r
    case Done(scalars, rest) => Done(List(scalars), rest)
    case Failed(error) => Failed(error)
  }

  function ParseValue(tokens: seq<Token>): (r: Parse<Value>)
    ensures r.Done? ==> |r.rest| < |tokens|
    decreases |tokens|, 0
  {
    if tokens == [] then Failed(UnexpectedEnd)
    else if tokens[0].Identifier? then ParseName(tokens[0].name, tokens[1..])
    else if ScalarOf(tokens[0]).Some? then Done(Single(ScalarOf(tokens[0]).value), tokens[1..])
    else if tokens[0] == Bracket(true) then AsList(Closed(ParseItems(tokens[1..], []), Bracket(false)))
    else Failed(UnexpectedToken)
  }

  function ParseItems(tokens: seq<Token>, items: seq<Scalar>): (r: Parse<seq<Scalar>>)
    ensures r.Done? ==> |r.rest| <= |tokens|
    decreases |tokens|, 1
  {
    if Begins(tokens, Bracket(false)) then Done(items, tokens)
    else match ParseValue(tokens)
      case Failed(error) => Failed(error)
      case Done(value, rest) =>
        if !value.Single? then Failed(ScalarsOnly)
        else if Begins(rest, Comma) then ParseItems(rest[1..], items + [value.scalar])
        else Done(items + [value.scalar], rest)
  }

  function ParseOr(tokens: seq<Token>): (r: Parse<Condition>)
    ensures r.Done? ==> |r.rest| < |tokens|
    decreases |tokens|, 2
  {
    match ParseAnd(tokens)
    case Failed(error) => Failed(error)
    case Done(left, rest) => OrTail(left, rest)
  }

  function OrTail(left: Condition, tokens: seq<Token>): (r: Parse<Condition>)
    ensures r.Done? ==> |r.rest| <= |tokens|
    decreases |tokens|, 0
  {
    if !Begins(tokens, OperatorToken(Or)) then Done(left, tokens)
    else match ParseAnd(tokens[1..])
      case Failed(error) => Failed(error)
      case Done(right, rest) => OrTail(EitherOf(left, right), rest)
  }

  function ParseAnd(tokens: seq<Token>): (r: Parse<Condition>)
    ensures r.Done? ==> |r.rest| < |tokens|
    decreases |tokens|, 1
  {
    match ParseComparison(tokens)
    case Failed(error) => Failed(error)
    case Done(left, rest) => AndTail(left, rest)
  }

  function AndTail(left: Condition, tokens: seq<Token>): (r: Parse<Condition>)
    ensures r.Done? ==> |r.rest| <= |tokens|
    decreases |tokens|, 0
  {
    if !Begins(tokens, OperatorToken(And)) then Done(left, tokens)
    else match ParseComparison(tokens[1..])
      case Failed(error) => Failed(error)
      case Done(right, rest) => AndTail(BothOf(left, right), rest)
  }

  function ParseComparison(tokens: seq<Token>): (r: Parse<Condition>)
    ensures r.Done? ==> |r.rest| < |tokens|
    decreases |tokens|, 0
  {
    if Begins(tokens, Paren(true)) then Closed(ParseOr(tokens[1..]), Paren(false))
    else match ParseValue(tokens)
      case Failed(error) => Failed(error)
      case Done(left, rest) =>
        if rest == [] || !rest[0].OperatorToken? then Failed(OperatorExpected)
        else match ParseValue(rest[1..])
          case Failed(error) => Failed(error)
          case Done(right, rest') => Done(Comparison(rest[0].operator, left, right), rest')
  }

  function Finished(r: Parse<Condition>): Result<Condition, OqlError> {
    match r
    case Failed(error) => Err(error)
    case Done(condition, rest) => if rest == [] then Ok(condition) else Err(TokensLeft)
  }

  /** `parseCondition`. */
  function ParseCondition(input: string): Result<Condition, OqlError> {
    match Tokens(input)
    case Err(error) => Err(error)
    case Ok(tokens) => Finished(ParseOr(tokens))
  }

  // The printer: parentheses only where precedence or the left association needs them.

  function PrintScalar(scalar: Scalar): Token {
    match scalar
    case NumberValue(number) => Number(ShowDecimal(number))
    case StringValue(text) => Literal(text)
    case BooleanValue(truth) => Boolean(truth)
    case NullValue => NullToken
  }

  function PrintItems(scalars: seq<Scalar>): seq<Token> {
    if scalars == [] then []
    else if |scalars| == 1 then [PrintScalar(scalars[0])]
    else [PrintScalar(scalars[0])] + ([Comma] + PrintItems(scalars[1..]))
  }

  function PrintValue(value: Value): seq<Token> {
    match value
    case Ref(reference) => [Identifier(reference.raw)]
    case Single(scalar) => [PrintScalar(scalar)]
    case List(scalars) => [Bracket(true)] + (PrintItems(scalars) + [Bracket(false)])
  }

  function PrintOr(condition: Condition): seq<Token>
    decreases condition, 2
  {
    if condition.EitherOf? then PrintOr(condition.first) + ([OperatorToken(Or)] + PrintAnd(condition.second))
    else PrintAnd(condition)
  }

  function PrintAnd(condition: Condition): seq<Token>
    decreases condition, 1
  {
    if condition.BothOf? then PrintAnd(condition.first) + ([OperatorToken(And)] + PrintComparison(condition.second))
    else PrintComparison(condition)
  }

  function PrintComparison(condition: Condition): seq<Token>
    decreases condition, 0
  {
    match condition
    case Comparison(operator, left, right) => PrintValue(left) + ([OperatorToken(operator)] + PrintValue(right))
    case BothOf(first, second) =>
      [Paren(true)] + ((PrintAnd(first) + ([OperatorToken(And)] + PrintComparison(second))) + [Paren(false)])
    case EitherOf(first, second) =>
      [Paren(true)] + ((PrintOr(first) + ([OperatorToken(Or)] + PrintAnd(second))) + [Paren(false)])
  }

  predicate IsScalar(scalar: Scalar) {
    scalar.NumberValue? ==> IsNormal(scalar.number)
  }

  /** References have one or two segments and are no keywords; numbers are normal. */
  predicate IsValue(value: Value) {
    match value
    case Ref(reference) =>
      ParseReference(reference.raw) == Ok(reference) && Word(reference.raw) == Identifier(reference.raw)
    case Single(scalar) => IsScalar(scalar)
    case List(scalars) => forall i :: 0 <= i < |scalars| ==> IsScalar(scalars[i])
  }

  predicate IsCondition(condition: Condition) {
    match condition
    case Comparison(_, left, right) => IsValue(left) && IsValue(right)
    case BothOf(first, second) => IsCondition(first) && IsCondition(second)
    case EitherOf(first, second) => IsCondition(first) && IsCondition(second)
  }

  lemma Regroup<T>(a: seq<T>, b: seq<T>, c: seq<T>)
    ensures (a + b) + c == a + (b + c)
  {
  }

  lemma Rest<T>(first: T, rest: seq<T>)
    ensures ([first] + rest)[1..] == rest
  {
  }

  lemma ScalarPrinted(scalar: Scalar)
    requires IsScalar(scalar)
    ensures ScalarOf(PrintScalar(scalar)) == Some(scalar) && !PrintScalar(scalar).Identifier?
    ensures IsToken(PrintScalar(scalar))
  {
    if scalar.NumberValue? {
      ShownDecimal(scalar.number);
    }
  }

  lemma ScalarParsed(scalar: Scalar, rest: seq<Token>)
    requires IsScalar(scalar)
    ensures ParseValue([PrintScalar(scalar)] + rest) == Done(Single(scalar), rest)
  {
    ScalarPrinted(scalar);
    Rest(PrintScalar(scalar), rest);
  }

  lemma OneItemParsed(scalar: Scalar, items: seq<Scalar>, rest: seq<Token>)
    requires IsScalar(scalar) && Begins(rest, Bracket(false))
    ensures ParseItems([PrintScalar(scalar)] + rest, items) == Done(items + [scalar], rest)
  {
    ScalarPrinted(scalar);
    ScalarParsed(scalar, rest);
  }

  lemma ItemParsed(scalar: Scalar, items: seq<Scalar>, rest: seq<Token>)
    requires IsScalar(scalar)
    ensures ParseItems([PrintScalar(scalar)] + ([Comma] + rest), items) == ParseItems(rest, items + [scalar])
  {
    ScalarPrinted(scalar);
    ScalarParsed(scalar, [Comma] + rest);
    Rest(Comma, rest);
  }

  lemma ItemsGrouped(scalars: seq<Scalar>, items: seq<Scalar>, rest: seq<Token>)
    requires |scalars| > 1
    ensures PrintItems(scalars) + rest == [PrintScalar(scalars[0])] + ([Comma] + (PrintItems(scalars[1..]) + rest))
    ensures (items + [scalars[0]]) + scalars[1..] == items + scalars
  {
    Regroup([PrintScalar(scalars[0])], [Comma] + PrintItems(scalars[1..]), rest);
    Regroup([Comma], PrintItems(scalars[1..]), rest);
    Regroup(items, [scalars[0]], scalars[1..]);
    assert scalars == [scalars[0]] + scalars[1..];
  }

  lemma {:induction false} ItemsParsed(scalars: seq<Scalar>, items: seq<Scalar>, rest: seq<Token>)
    requires forall i :: 0 <= i < |scalars| ==> IsScalar(scalars[i])
    requires Begins(rest, Bracket(false))
    ensures ParseItems(PrintItems(scalars) + rest, items) == Done(items + scalars, rest)
    decreases |scalars|
  {
    if scalars == [] {
      assert [] + rest == rest && items + [] == items;
    } else if |scalars| == 1 {
      OneItemParsed(scalars[0], items, rest);
      assert items + scalars == items + [scalars[0]];
    } else {
      ItemsParsed(scalars[1..], items + [scalars[0]], rest);
      ItemParsed(scalars[0], items, PrintItems(scalars[1..]) + rest);
      ItemsGrouped(scalars, items, rest);
    }
  }

  lemma ListParsed(scalars: seq<Scalar>, rest: seq<Token>)
    requires forall i :: 0 <= i < |scalars| ==> IsScalar(scalars[i])
    ensures ParseValue([Bracket(true)] + (PrintItems(scalars) + ([Bracket(false)] + rest))) == Done(List(scalars), rest)
  {
    var close := [Bracket(false)] + rest;
    ItemsParsed(scalars, [], close);
    assert [] + scalars == scalars;
    Rest(Bracket(true), PrintItems(scalars) + close);
    Rest(Bracket(false), rest);
  }

  lemma ValueParsed(value: Value, rest: seq<Token>)
    requires IsValue(value)
    ensures ParseValue(PrintValue(value) + rest) == Done(value, rest)
  {
    match value
    case Ref(reference) => Rest(Identifier(reference.raw), rest);
    case Single(scalar) => ScalarParsed(scalar, rest);
    case List(scalars) =>
      ListParsed(scalars, rest);
      Regroup(PrintItems(scalars), [Bracket(false)], rest);
      Regroup([Bracket(true)], PrintItems(scalars) + [Bracket(false)], rest);
  }

  lemma ValueStart(value: Value)
    requires IsValue(value)
    ensures PrintValue(value) != [] && !Begins(PrintValue(value), Paren(true))
  {
    if value.Single? {
      ScalarPrinted(value.scalar);
    }
  }

  lemma ComparisonParsed(operator: Operator, left: Value, right: Value, rest: seq<Token>)
    requires IsValue(left) && IsValue(right)
    ensures ParseComparison(PrintComparison(Comparison(operator, left, right)) + rest) ==
      Done(Comparison(operator, left, right), rest)
  {
    var tail := [OperatorToken(operator)] + (PrintValue(right) + rest);
    var tokens := PrintValue(left) + tail;
    assert PrintComparison(Comparison(operator, left, right)) + rest == tokens by {
      Regroup([OperatorToken(operator)], PrintValue(right), rest);
      Regroup(PrintValue(left), [OperatorToken(operator)] + PrintValue(right), rest);
    }
    ValueStart(left);
    assert tokens[0] == PrintValue(left)[0];
    ValueParsed(left, tail);
    Rest(OperatorToken(operator), PrintValue(right) + rest);
    ValueParsed(right, rest);
  }

  lemma ParenthesesParsed(condition: Condition, inside: seq<Token>, rest: seq<Token>)
    requires ParseOr(inside + ([Paren(false)] + rest)) == Done(condition, [Paren(false)] + rest)
    ensures ParseComparison(([Paren(true)] + (inside + [Paren(false)])) + rest) == Done(condition, rest)
  {
    Regroup(inside, [Paren(false)], rest);
    Regroup([Paren(true)], inside + [Paren(false)], rest);
    Rest(Paren(true), inside + ([Paren(false)] + rest));
    Rest(Paren(false), rest);
  }

  /** A printed condition is parsed as the first operand of what follows it. */
  lemma {:induction false} OrParsed(condition: Condition, rest: seq<Token>)
    requires IsCondition(condition) && !Begins(rest, OperatorToken(And))
    ensures ParseOr(PrintOr(condition) + rest) == OrTail(condition, rest)
    decreases condition, 3
  {
    if condition.EitherOf? {
      EitherParsed(condition, rest);
    } else {
      AndParsed(condition, rest);
    }
  }

  lemma {:induction false} AndParsed(condition: Condition, rest: seq<Token>)
    requires IsCondition(condition)
    ensures ParseAnd(PrintAnd(condition) + rest) == AndTail(condition, rest)
    decreases condition, 2
  {
    if condition.BothOf? {
      BothParsed(condition, rest);
    } else {
      OperandParsed(condition, rest);
    }
  }

  lemma {:induction false} OperandParsed(condition: Condition, rest: seq<Token>)
    requires IsCondition(condition)
    ensures ParseComparison(PrintComparison(condition) + rest) == Done(condition, rest)
    decreases condition, 1
  {
    var close := [Paren(false)] + rest;
    match condition
    case Comparison(operator, left, right) => ComparisonParsed(operator, left, right, rest);
    case BothOf(_, _) =>
      BothParsed(condition, close);
      ParenthesesParsed(condition, PrintAnd(condition), rest);
    case EitherOf(_, _) =>
      EitherParsed(condition, close);
      ParenthesesParsed(condition, PrintOr(condition), rest);
  }

  lemma {:induction false} EitherParsed(condition: Condition, rest: seq<Token>)
    requires IsCondition(condition) && condition.EitherOf? && !Begins(rest, OperatorToken(And))
    ensures ParseOr(PrintOr(condition) + rest) == OrTail(condition, rest)
    decreases condition, 0
  {
    var first, second := PrintOr(condition.first), PrintAnd(condition.second);
    Regroup([OperatorToken(Or)], second, rest);
    Regroup(first, [OperatorToken(Or)] + second, rest);
    OrParsed(condition.first, [OperatorToken(Or)] + (second + rest));
    Rest(OperatorToken(Or), second + rest);
    AndParsed(condition.second, rest);
  }

  lemma {:induction false} BothParsed(condition: Condition, rest: seq<Token>)
    requires IsCondition(condition) && condition.BothOf?
    ensures ParseAnd(PrintAnd(condition) + rest) == AndTail(condition, rest)
    decreases condition, 0
  {
    var first, second := PrintAnd(condition.first), PrintComparison(condition.second);
    Regroup([OperatorToken(And)], second, rest);
    Regroup(first, [OperatorToken(And)] + second, rest);
    AndParsed(condition.first, [OperatorToken(And)] + (second + rest));
    Rest(OperatorToken(And), second + rest);
    OperandParsed(condition.second, rest);
  }

  predicate AreTokens(tokens: seq<Token>) {
    forall i :: 0 <= i < |tokens| ==> IsToken(tokens[i])
  }

  lemma {:induction false} ItemsAreTokens(scalars: seq<Scalar>)
    requires forall i :: 0 <= i < |scalars| ==> IsScalar(scalars[i])
    ensures AreTokens(PrintItems(scalars))
  {
    if scalars != [] {
      ScalarPrinted(scalars[0]);
      if |scalars| > 1 {
        ItemsAreTokens(scalars[1..]);
        JoinedAreTokens([PrintScalar(scalars[0])], Comma, PrintItems(scalars[1..]));
      }
    }
  }

  lemma SegmentIsName(s: string)
    requires IsSegment(s)
    ensures IsName(s)
  {
  }

  lemma ReferenceIsName(raw: string)
    requires ParseReference(raw).Ok?
    ensures IsName(raw)
  {
    var dot := IndexOf(raw, '.');
    if dot == -1 {
      SegmentIsName(raw);
    } else {
      SegmentIsName(raw[..dot]);
      SegmentIsName(raw[dot + 1..]);
      assert raw == raw[..dot] + (['.'] + raw[dot + 1..]);
    }
  }

  lemma ValueIsTokens(value: Value)
    requires IsValue(value)
    ensures AreTokens(PrintValue(value))
  {
    match value
    case Ref(reference) => ReferenceIsName(reference.raw);
    case Single(scalar) => ScalarPrinted(scalar);
    case List(scalars) => ItemsAreTokens(scalars);
  }

  lemma JoinedAreTokens(a: seq<Token>, token: Token, b: seq<Token>)
    requires AreTokens(a) && IsToken(token) && AreTokens(b)
    ensures AreTokens(a + ([token] + b))
  {
  }

  lemma {:induction false} PrintedAreTokens(condition: Condition)
    requires IsCondition(condition)
    ensures AreTokens(PrintOr(condition)) && AreTokens(PrintAnd(condition)) && AreTokens(PrintComparison(condition))
  {
    match condition
    case Comparison(operator, left, right) =>
      ValueIsTokens(left);
      ValueIsTokens(right);
      JoinedAreTokens(PrintValue(left), OperatorToken(operator), PrintValue(right));
    case BothOf(first, second) =>
      PrintedAreTokens(first);
      PrintedAreTokens(second);
      JoinedAreTokens(PrintAnd(first), OperatorToken(And), PrintComparison(second));
    case EitherOf(first, second) =>
      PrintedAreTokens(first);
      PrintedAreTokens(second);
      JoinedAreTokens(PrintOr(first), OperatorToken(Or), PrintAnd(second));
  }

  /** The text of a condition. */
  function Print(condition: Condition): string {
    Join(PrintOr(condition))
  }

  /** Parsing undoes printing, for every condition over all operators, references and scalars, with no tokens left. */
  lemma PrintParse(condition: Condition)
    requires IsCondition(condition)
    ensures ParseCondition(Print(condition)) == Ok(condition)
  {
    PrintedAreTokens(condition);
    TokensOfJoin(PrintOr(condition));
    OrParsed(condition, []);
    assert PrintOr(condition) + [] == PrintOr(condition);
  }

  lemma PrintInjective(a: Condition, b: Condition)
    requires IsCondition(a) && IsCondition(b) && Print(a) == Print(b)
    ensures a == b
  {
    PrintParse(a);
    PrintParse(b);
  }

  lemma {:induction false} ParsedValue(tokens: seq<Token>)
    requires AreTokens(tokens) && ParseValue(tokens).Done?
    ensures IsValue(ParseValue(tokens).value) && AreTokens(ParseValue(tokens).rest)
    decreases |tokens|, 0
  {
    if tokens[0] == Bracket(true) {
      ParsedItems(tokens[1..], []);
    }
  }

  lemma {:induction false} ParsedItems(tokens: seq<Token>, items: seq<Scalar>)
    requires AreTokens(tokens) && ParseItems(tokens, items).Done?
    requires forall i :: 0 <= i < |items| ==> IsScalar(items[i])
    ensures forall i :: 0 <= i < |ParseItems(tokens, items).value| ==> IsScalar(ParseItems(tokens, items).value[i])
    ensures AreTokens(ParseItems(tokens, items).rest)
    decreases |tokens|, 1
  {
    if !Begins(tokens, Bracket(false)) {
      ParsedValue(tokens);
      var r := ParseValue(tokens);
      if Begins(r.rest, Comma) {
        ParsedItems(r.rest[1..], items + [r.value.scalar]);
      }
    }
  }

  ghost predicate IsGoodParse(r: Parse<Condition>) {
    r.Done? ==> IsCondition(r.value) && AreTokens(r.rest)
  }

  lemma {:induction false} ParsedOr(tokens: seq<Token>)
    requires AreTokens(tokens)
    ensures IsGoodParse(ParseOr(tokens))
    decreases |tokens|, 2
  {
    ParsedAnd(tokens);
    var r := ParseAnd(tokens);
    if r.Done? {
      ParsedOrTail(r.value, r.rest);
    }
  }

  lemma {:induction false} ParsedOrTail(left: Condition, tokens: seq<Token>)
    requires AreTokens(tokens) && IsCondition(left)
    ensures IsGoodParse(OrTail(left, tokens))
    decreases |tokens|, 0
  {
    if Begins(tokens, OperatorToken(Or)) {
      ParsedAnd(tokens[1..]);
      var r := ParseAnd(tokens[1..]);
      if r.Done? {
        ParsedOrTail(EitherOf(left, r.value), r.rest);
      }
    }
  }

  lemma {:induction false} ParsedAnd(tokens: seq<Token>)
    requires AreTokens(tokens)
    ensures IsGoodParse(ParseAnd(tokens))
    decreases |tokens|, 1
  {
    ParsedComparison(tokens);
    var r := ParseComparison(tokens);
    if r.Done? {
      ParsedAndTail(r.value, r.rest);
    }
  }

  lemma {:induction false} ParsedAndTail(left: Condition, tokens: seq<Token>)
    requires AreTokens(tokens) && IsCondition(left)
    ensures IsGoodParse(AndTail(left, tokens))
    decreases |tokens|, 0
  {
    if Begins(tokens, OperatorToken(And)) {
      ParsedComparison(tokens[1..]);
      var r := ParseComparison(tokens[1..]);
      if r.Done? {
        ParsedAndTail(BothOf(left, r.value), r.rest);
      }
    }
  }

  lemma {:induction false} ParsedComparison(tokens: seq<Token>)
    requires AreTokens(tokens)
    ensures IsGoodParse(ParseComparison(tokens))
    decreases |tokens|, 0
  {
    if Begins(tokens, Paren(true)) {
      ParsedOr(tokens[1..]);
    } else if ParseValue(tokens).Done? {
      ParsedValue(tokens);
      var rest := ParseValue(tokens).rest;
      if rest != [] && ParseValue(rest[1..]).Done? {
        ParsedValue(rest[1..]);
      }
    }
  }

  /** Every text the parser accepts has a normal form with the same meaning: printing the parsed condition. */
  lemma ParsePrint(input: string)
    requires ParseCondition(input).Ok?
    ensures IsCondition(ParseCondition(input).value)
    ensures ParseCondition(Print(ParseCondition(input).value)) == ParseCondition(input)
  {
    TokensAreTokens(input);
    ParsedOr(Tokens(input).value);
    PrintParse(ParseCondition(input).value);
  }

  /** Any operator token is taken between two values: `a and b` is a comparison whose operator is `and`. */
  lemma ConnectiveAsComparison(a: string, b: string)
    requires IsValue(Ref(Reference(a, [a]))) && IsValue(Ref(Reference(b, [b])))
    ensures ParseCondition(Join([Identifier(a), OperatorToken(And), Identifier(b)])) ==
      Ok(Comparison(And, Ref(Reference(a, [a])), Ref(Reference(b, [b]))))
  {
    var condition := Comparison(And, Ref(Reference(a, [a])), Ref(Reference(b, [b])));
    assert PrintOr(condition) == PrintAnd(condition) == PrintComparison(condition);
    assert PrintComparison(condition) == [Identifier(a), OperatorToken(And), Identifier(b)];
    PrintParse(condition);
  }

  /** The result of a parsing method, with the tokens left behind, is what the function says. */
  ghost predicate Agrees<T>(r: Result<T, OqlError>, rest: seq<Token>, parse: Parse<T>) {
    match parse
    case Done(value, after) => r == Ok(value) && rest == after
    case Failed(error) => r == Err(error)
  }

  class ConditionParser {
    const tokens: seq<Token>
    var position: nat

    constructor (tokens: seq<Token>)
      ensures this.tokens == tokens && position == 0 && Left() == tokens
    {
      this.tokens, position := tokens, 0;
    }

    /** The tokens not yet consumed. */
    function Left(): seq<Token>
      reads this
    {
      if position < |tokens| then tokens[position..] else []
    }

    predicate IsDone()
      reads this
    {
      position >= |tokens|
    }

    predicate Peek(token: Token)
      reads this
    {
      position < |tokens| && tokens[position] == token
    }

    method Consume() returns (token: Option<Token>)
      modifies this`position
      ensures token == if old(Left()) == [] then None else Some(old(Left())[0])
      ensures Left() == if old(Left()) == [] then [] else old(Left())[1..]
    {
      token := if position < |tokens| then Some(tokens[position]) else None;
      position := position + 1;
    }

    method Expect(token: Token) returns (ok: bool)
      modifies this`position
      ensures ok == Begins(old(Left()), token)
      ensures ok ==> Left() == old(Left())[1..]
    {
      var found := Consume();
      ok := found == Some(token);
    }

    method ParseExpression() returns (r: Result<Condition, OqlError>)
      modifies this`position
      ensures Agrees(r, Left(), ParseOr(old(Left())))
      decreases |Left()|, 3
    {
      r := ParseOrLevel();
    }

    method ParseOrLevel() returns (r: Result<Condition, OqlError>)
      modifies this`position
      ensures Agrees(r, Left(), ParseOr(old(Left())))
      decreases |Left()|, 2
    {
      r := ParseAndLevel();
      while r.Ok? && Peek(OperatorToken(Or))
        invariant r.Ok? ==> |Left()| < |old(Left())|
        invariant if r.Ok? then ParseOr(old(Left())) == OrTail(r.value, Left())
                  else ParseOr(old(Left())) == Failed(r.error)
        decreases r.Ok?, |Left()|
      {
        var left := r.value;
        var _ := Consume();
        r := ParseAndLevel();
        if r.Ok? {
          r := Ok(EitherOf(left, r.value));
        }
      }
    }

    method ParseAndLevel() returns (r: Result<Condition, OqlError>)
      modifies this`position
      ensures Agrees(r, Left(), ParseAnd(old(Left())))
      decreases |Left()|, 1
    {
      r := ParsePrimary();
      while r.Ok? && Peek(OperatorToken(And))
        invariant r.Ok? ==> |Left()| < |old(Left())|
        invariant if r.Ok? then ParseAnd(old(Left())) == AndTail(r.value, Left())
                  else ParseAnd(old(Left())) == Failed(r.error)
        decreases r.Ok?, |Left()|
      {
        var left := r.value;
        var _ := Consume();
        r := ParsePrimary();
        if r.Ok? {
          r := Ok(BothOf(left, r.value));
        }
      }
    }

    /** `parseComparison`. */
    method ParsePrimary() returns (r: Result<Condition, OqlError>)
      modifies this`position
      ensures Agrees(r, Left(), ParseComparison(old(Left())))
      decreases |Left()|, 0
    {
      if Peek(Paren(true)) {
        var _ := Consume();
        r := ParseExpression();
        if r.Ok? {
          var ok := Expect(Paren(false));
          r := if ok then r else Err(Expected(Paren(false)));
        }
        return;
      }
      var left := ParseOperand();
      if left.Err? {
        return Err(left.error);
      }
      var operator := Consume();
      if operator == None || !operator.value.OperatorToken? {
        return Err(OperatorExpected);
      }
      var right := ParseOperand();
      if right.Err? {
        return Err(right.error);
      }
      r := Ok(Comparison(operator.value.operator, left.value, right.value));
    }

    /** `parseValue`. */
    method ParseOperand() returns (r: Result<Value, OqlError>)
      modifies this`position
      ensures Agrees(r, Left(), ParseValue(old(Left())))
      decreases |Left()|, 0
    {
      var found := Consume();
      if found == None {
        return Err(UnexpectedEnd);
      }
      var token := found.value;
      if token.Identifier? {
        var reference := ParseReference(token.name);
        return if reference.Ok? then Ok(Ref(reference.value)) else Err(reference.error);
      }
      if ScalarOf(token).Some? {
        return Ok(Single(ScalarOf(token).value));
      }
      if token != Bracket(true) {
        return Err(UnexpectedToken);
      }
      var values := ParseElements();
      if values.Err? {
        return Err(values.error);
      }
      var ok := Expect(Bracket(false));
      r := if ok then Ok(List(values.value)) else Err(Expected(Bracket(false)));
    }

    /** The loop over the elements of an array. */
    method ParseElements() returns (r: Result<seq<Scalar>, OqlError>)
      modifies this`position
      ensures Agrees(r, Left(), ParseItems(old(Left()), []))
      decreases |Left()|, 1
    {
      var values: seq<Scalar> := [];
      while !Peek(Bracket(false))
        invariant |Left()| <= |old(Left())|
        invariant ParseItems(old(Left()), []) == ParseItems(Left(), values)
        decreases |Left()|
      {
        var value := ParseOperand();
        if value.Err? {
          return Err(value.error);
        }
        if !value.value.Single? {
          return Err(ScalarsOnly);
        }
        values := values + [value.value.scalar];
        if Peek(Comma) {
          var _ := Consume();
        } else {
          break;
        }
      }
      r := Ok(values);
    }
  }

  /** `parseCondition`. */
  method ParseText(input: string) returns (r: Result<Condition, OqlError>)
    ensures r == ParseCondition(input)
  {
    var tokens := Tokenize(input);
    if tokens.Err? {
      return Err(tokens.error);
    }
    var parser := new ConditionParser(tokens.value);
    r := parser.ParseExpression();
    if r.Ok? && !parser.IsDone() {
      r := Err(TokensLeft);
    }
  }
}
