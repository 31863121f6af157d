/** What cron expressions mean, read off their texts. */
module CronText {
  import opened Wrappers
  import opened Text
  import opened Cron

  // ----- Numbers

  ghost predicate AreDigits(s: string) {
    forall i :: 0 <= i < |s| ==> '0' <= s[i] <= '9'
  }

  ghost predicate IsDigitText(s: string) {
    s != "" && AreDigits(s)
  }

  /** The number a run of digits stands for. */
  ghost function Worth(s: string): nat
    requires AreDigits(s)
  {
    if s == "" then 0 else 10 * Worth(s[..|s| - 1]) + (s[|s| - 1] as int - '0' as int)
  }

  lemma {:induction false} WorthOfDigits(s: string)
    requires AreDigits(s)
    ensures (forall i :: 0 <= i < |s| ==> IsDigit(s[i])) && NumeralValue(s) == Worth(s)
  {
    if s != "" {
      WorthOfDigits(s[..|s| - 1]);
    }
  }

  lemma DigitsRead(s: string)
    ensures IsDigitText(s) ==> DigitsOf(s) == Some(Worth(s))
    ensures !IsDigitText(s) ==> DigitsOf(s) == None
  {
    if IsDigitText(s) {
      WorthOfDigits(s);
    }
  }

  /** A numeral is worth its number. */
  lemma {:induction false} NumeralWorth(n: nat)
    ensures IsDigitText(Numeral(n)) && Worth(Numeral(n)) == n
  {
    WorthOfDigits(Numeral(n));
    NumeralRoundTrip(n);
  }

  // ----- Parts

  /** Within the bounds. */
  ghost predicate Fits(v: int, bounds: Bounds) {
    bounds.min <= v && v <= bounds.max
  }

  ghost predicate HasNo(s: string, c: char) {
    forall i :: 0 <= i < |s| ==> s[i] != c
  }

  lemma NotFound(s: string, c: char)
    requires HasNo(s, c)
    ensures IndexOf(s, c) == -1
  {
  }

  lemma OnePart(part: string, bounds: Bounds)
    requires HasNo(part, ',')
    ensures FieldValues(part, bounds) == PartValues(part, bounds)
  {
    NotFound(part, ',');
    assert [part][..0] == [];
    assert PartsValues([part][..0], bounds) == Ok({});
    if PartValues(part, bounds).Ok? {
      assert {} + PartValues(part, bounds).value == PartValues(part, bounds).value;
    }
  }

  /** `*` allows every value. */
  lemma StarMeans(bounds: Bounds)
    ensures FieldValues("*", bounds).Ok? && forall v :: v in FieldValues("*", bounds).value <==> Fits(v, bounds)
  {
    OnePart("*", bounds);
    assert forall v :: Fits(v, bounds) ==> Allows(Star, bounds, v);
  }

  lemma NumberIsSingle(s: string)
    requires IsDigitText(s)
    ensures PartOf(s) == Single(Some(Worth(s)))
  {
    DigitsRead(s);
    NotFound(s, '-');
  }

  lemma SingleValues(part: string, v: int, bounds: Bounds)
    requires HasNo(part, ',') && PartOf(part) == Single(Some(v))
    ensures FieldValues(part, bounds) == if Fits(v, bounds) then Ok({v}) else Err(OutOfBounds(part))
  {
    OnePart(part, bounds);
    if Fits(v, bounds) {
      assert Allows(PartOf(part), bounds, v);
      assert ValuesOf(PartOf(part), bounds) == {v};
    }
  }

  /** A number allows itself, or is out of bounds. */
  lemma NumberMeans(s: string, bounds: Bounds)
    requires IsDigitText(s)
    ensures FieldValues(s, bounds) == if Fits(Worth(s), bounds) then Ok({Worth(s) as int}) else Err(OutOfBounds(s))
  {
    NumberIsSingle(s);
    SingleValues(s, Worth(s), bounds);
  }

  ghost function SignedWorth(s: string, sign: char): int
    requires AreDigits(s)
  {
    if sign == '-' then -(Worth(s) as int) else Worth(s)
  }

  lemma SignedIsRead(s: string, sign: char)
    requires IsDigitText(s) && sign in {'-', '+'}
    ensures PartOf([sign] + s) == Single(Some(SignedWorth(s, sign)))
  {
    var part := [sign] + s;
    assert part[0] == sign && part[1..] == s;
    DigitsRead(s);
    NoRangeBehindSign(part);
    assert StepOf(part) == None;
  }

  /** So does a number with a sign. */
  lemma SignedMeans(s: string, sign: char, bounds: Bounds)
    requires IsDigitText(s) && sign in {'-', '+'}
    ensures var v := SignedWorth(s, sign);
      FieldValues([sign] + s, bounds) == if Fits(v, bounds) then Ok({v}) else Err(OutOfBounds([sign] + s))
  {
    SignedIsRead(s, sign);
    SingleValues([sign] + s, SignedWorth(s, sign), bounds);
  }

  /** Nothing at all counts as 0. */
  lemma NothingMeansZero(bounds: Bounds)
    ensures FieldValues("", bounds) == if Fits(0, bounds) then Ok({0}) else Err(OutOfBounds(""))
  {
    NotFound("", '-');
    SingleValues("", 0, bounds);
  }

  lemma NoRangeBehindSign(part: string)
    requires part != "" && part[0] in {'-', '+'} && forall i :: 1 <= i < |part| ==> '0' <= part[i] <= '9'
    ensures RangeOf(part) == None
  {
    var dash := IndexOf(part, '-');
    if dash >= 0 {
      assert dash == 0;
      assert part[..dash] == "";
    }
  }

  lemma RangeIsRead(a: string, b: string)
    requires IsDigitText(a) && IsDigitText(b)
    ensures PartOf(a + "-" + b) == Range(Worth(a), Worth(b))
  {
    var part := a + "-" + b;
    assert part[0] == a[0] && part[|a|] == '-';
    var dash := IndexOf(part, '-');
    assert dash == |a| by {
      assert forall i :: 0 <= i < |a| ==> part[i] == a[i];
      assert forall i :: 0 <= i < dash ==> part[..dash][i] == part[i];
    }
    assert part[..dash] == a && part[dash + 1..] == b;
    DigitsRead(a);
    DigitsRead(b);
  }

  /** `a-b` allows the values from `a` to `b`; an end outside the bounds, or two ends in the wrong order, are errors. */
  lemma RangeMeans(a: string, b: string, bounds: Bounds)
    requires IsDigitText(a) && IsDigitText(b)
    ensures var part, field := a + "-" + b, FieldValues(a + "-" + b, bounds);
      if !Fits(Worth(a), bounds) || !Fits(Worth(b), bounds) then field == Err(OutOfBounds(part))
      else if Worth(b) < Worth(a) then field == Err(InvalidRange(part))
      else field.Ok? && forall v :: v in field.value <==> Worth(a) <= v <= Worth(b)
  {
    RangeIsRead(a, b);
    OnePart(a + "-" + b, bounds);
    assert forall v :: Worth(a) <= v <= Worth(b) ==> Allows(Range(Worth(a), Worth(b)), bounds, v);
  }

  lemma {:induction false} MultiplesOf(a: int, n: nat)
    requires n > 0
    ensures IsMultiple(a, n) <==> a >= 0 && a % n == 0
    decreases a
  {
    if a >= n {
      MultiplesOf(a - n, n);
      OneLess(a, n);
    } else if a >= 0 {
      SmallRemainder(a, n);
    }
  }

  lemma SmallRemainder(a: nat, n: nat)
    requires a < n
    ensures a % n == a
  {
  }

  lemma OneLess(a: nat, n: nat)
    requires 0 < n <= a
    ensures (a - n) % n == a % n
  {
    var q, r := (a - n) / n, (a - n) % n;
    assert a == (q + 1) * n + r;
    SameRemainder(a, n, q + 1, r);
  }

  lemma AtLeastOnce(d: int, n: nat)
    requires d >= 1
    ensures d * n >= n
  {
  }

  lemma SameRemainder(a: int, n: nat, q: int, r: int)
    requires n > 0 && a == q * n + r && 0 <= r < n
    ensures a % n == r
  {
    var d := q - a / n;
    assert d * n == q * n - a / n * n;
    if d >= 1 {
      AtLeastOnce(d, n);
    } else if d <= -1 {
      AtLeastOnce(-d, n);
    }
  }

  lemma StepIsRead(s: string)
    requires IsDigitText(s)
    ensures PartOf("*/" + s) == Step(Worth(s)) && HasNo("*/" + s, ',')
  {
    assert ("*/" + s)[2..] == s;
    DigitsRead(s);
  }

  ghost predicate IsOnStep(v: int, bounds: Bounds, n: nat) {
    n > 0 && Fits(v, bounds) && (v - bounds.min) % n == 0
  }

  lemma StepAllows(v: int, bounds: Bounds, n: nat)
    requires n > 0 && Fits(v, bounds)
    ensures Allows(Step(n), bounds, v) <==> IsOnStep(v, bounds, n)
  {
    MultiplesOf(v - bounds.min, n);
  }

  /** Every `n`-th value from the lower bound on is allowed by a star with the step `n`; the step 0 is an error. */
  lemma StepMeans(s: string, bounds: Bounds)
    requires IsDigitText(s)
    ensures Worth(s) == 0 ==> FieldValues("*/" + s, bounds) == Err(InvalidStep("*/" + s))
    ensures Worth(s) > 0 ==>
      FieldValues("*/" + s, bounds).Ok?
      && forall v :: v in FieldValues("*/" + s, bounds).value <==> IsOnStep(v, bounds, Worth(s))
  {
    StepIsRead(s);
    OnePart("*/" + s, bounds);
    if Worth(s) > 0 {
      forall v | Fits(v, bounds)
        ensures Allows(Step(Worth(s)), bounds, v) <==> IsOnStep(v, bounds, Worth(s))
      {
        StepAllows(v, bounds, Worth(s));
      }
    }
  }

  /** Where a star or a slash stands, and it is neither `*` nor a step, there is no value. */
  lemma StarElsewhere(part: string, bounds: Bounds, i: nat)
    requires HasNo(part, ',') && part != "*" && i < |part| && part[i] in {'*', '/'}
    requires |part| >= 2 && part[0] == '*' && part[1] == '/' ==> !IsDigitText(part[2..])
    ensures FieldValues(part, bounds) == Err(InvalidField(part))
  {
    OnePart(part, bounds);
    if |part| >= 2 {
      DigitsRead(part[2..]);
    }
    assert StepOf(part) == None;
    NoRangeAround(part, i);
    assert NumberOf(part) == None by {
      DigitsRead(part);
      if i > 0 {
        assert part[1..][i - 1] == part[i];
        DigitsRead(part[1..]);
      }
    }
  }

  lemma NoRangeAround(part: string, i: nat)
    requires i < |part| && part[i] in {'*', '/'}
    ensures RangeOf(part) == None
  {
    var dash := IndexOf(part, '-');
    if dash >= 0 {
      if i < dash {
        assert part[..dash][i] == part[i];
        DigitsRead(part[..dash]);
      } else {
        assert part[dash + 1..][i - dash - 1] == part[i];
        DigitsRead(part[dash + 1..]);
      }
    }
  }

  // ----- Lists

  ghost function WithComma(a: string, b: string): string {
    a + "," + b
  }

  /** The first comma of two texts with a comma between them. */
  lemma FirstComma(a: string, b: string)
    ensures IndexOf(WithComma(a, b), ',') == if IndexOf(a, ',') == -1 then |a| else IndexOf(a, ',')
  {
    var s, i, j := WithComma(a, b), IndexOf(a, ','), IndexOf(WithComma(a, b), ',');
    var first := if i == -1 then |a| else i;
    assert HasNo(a[..first], ',') && s[first] == ',' && s[..first] == a[..first];
    assert forall k :: 0 <= k < first ==> s[k] == a[..first][k];
    assert forall k :: 0 <= k < j ==> s[..j][k] == s[k];
  }

  lemma CutBehind(a: string, b: string)
    ensures WithComma(a, b)[..|a|] == a && WithComma(a, b)[|a| + 1..] == b
  {
  }

  lemma CutWithin(a: string, b: string, i: nat)
    requires i < |a|
    ensures WithComma(a, b)[..i] == a[..i] && WithComma(a, b)[i + 1..] == WithComma(a[i + 1..], b)
  {
  }

  lemma SplitFirst(s: string, i: nat)
    requires IndexOf(s, ',') == i
    ensures Split(s, ',') == [s[..i]] + Split(s[i + 1..], ',')
  {
  }

  lemma OneMore(first: string, more: seq<string>, last: seq<string>)
    ensures [first] + (more + last) == ([first] + more) + last
  {
  }

  lemma {:induction false} SplitTwo(a: string, b: string)
    ensures Split(WithComma(a, b), ',') == Split(a, ',') + Split(b, ',')
    decreases |a|
  {
    var i := IndexOf(a, ',');
    FirstComma(a, b);
    if i == -1 {
      SplitFirst(WithComma(a, b), |a|);
      CutBehind(a, b);
    } else {
      SplitFirst(WithComma(a, b), i);
      CutWithin(a, b, i);
      SplitFirst(a, i);
      SplitTwo(a[i + 1..], b);
      OneMore(a[..i], Split(a[i + 1..], ','), Split(b, ','));
    }
  }

  ghost function Joined(a: Result<set<int>, CronError>, b: Result<set<int>, CronError>): Result<set<int>, CronError> {
    if a.Err? then a else if b.Err? then b else Ok(a.value + b.value)
  }

  lemma {:induction false} PartsTogether(a: seq<string>, b: seq<string>, bounds: Bounds)
    ensures PartsValues(a + b, bounds) == Joined(PartsValues(a, bounds), PartsValues(b, bounds))
    decreases |b|
  {
    if b == [] {
      assert a + b == a;
      if PartsValues(a, bounds).Ok? {
        assert PartsValues(a, bounds).value + {} == PartsValues(a, bounds).value;
      }
    } else {
      assert (a + b)[..|a + b| - 1] == a + b[..|b| - 1];
      PartsTogether(a, b[..|b| - 1], bounds);
      var x, y, z := PartsValues(a, bounds), PartsValues(b[..|b| - 1], bounds), PartValues(b[|b| - 1], bounds);
      if x.Ok? && y.Ok? && z.Ok? {
        assert (x.value + y.value) + z.value == x.value + (y.value + z.value);
      }
    }
  }

  /** A comma joins what stands before and behind it; the first error counts. */
  lemma CommaMeans(a: string, b: string, bounds: Bounds)
    ensures FieldValues(a + "," + b, bounds) == Joined(FieldValues(a, bounds), FieldValues(b, bounds))
  {
    SplitTwo(a, b);
    PartsTogether(Split(a, ','), Split(b, ','), bounds);
  }

  // ----- Expressions

  /** Tabs, line ends, and blanks of every kind. */
  ghost predicate IsBlank(c: char) {
    c as int in {9, 10, 11, 12, 13, 32, 160, 5760, 8192, 8193, 8194, 8195, 8196, 8197, 8198, 8199, 8200, 8201, 8202,
                 8232, 8233, 8239, 8287, 12288, 65279}
  }

  ghost predicate AreBlanks(s: string) {
    forall i :: 0 <= i < |s| ==> IsBlank(s[i])
  }

  ghost predicate IsField(s: string) {
    s != "" && forall i :: 0 <= i < |s| ==> !IsBlank(s[i])
  }

  /** Fields with blanks between them, and perhaps around them. */
  ghost predicate IsLaidOut(text: string, fields: seq<string>)
    decreases |fields|
  {
    if fields == [] then AreBlanks(text)
    else
      exists before, after :: text == before + fields[0] + after && AreBlanks(before) && IsField(fields[0])
                              && (after == "" || IsBlank(after[0])) && IsLaidOut(after, fields[1..])
  }

  lemma {:induction false} BlanksSkipped(blanks: string, rest: string)
    requires AreBlanks(blanks)
    ensures Words(blanks + rest) == Words(rest)
    decreases |blanks|
  {
    if blanks == "" {
      assert blanks + rest == rest;
    } else {
      assert IsBlank(blanks[0]) && (blanks + rest)[1..] == blanks[1..] + rest;
      BlanksSkipped(blanks[1..], rest);
    }
  }

  lemma FirstWord(field: string, rest: string)
    requires IsField(field) && (rest == "" || IsBlank(rest[0]))
    ensures Words(field + rest) == [field] + Words(rest)
  {
    var s, f := field + rest, (c: char) => !IsSpace(c);
    SpanStops(f, field, rest);
    var n := Span(c => !IsSpace(c), s);
    assert n == |field| by {
      assert forall i :: 0 <= i < |field| ==> s[i] == field[i];
      assert rest != "" ==> s[|field|] == rest[0];
    }
    assert s[..n] == field && s[n..] == rest && s[0] == field[0];
  }

  lemma {:induction false} WordsAre(text: string, fields: seq<string>)
    requires IsLaidOut(text, fields)
    ensures Words(text) == fields
    decreases |fields|
  {
    if fields == [] {
      assert text + "" == text;
      BlanksSkipped(text, "");
    } else {
      var before, after :| text == before + fields[0] + after && AreBlanks(before) && IsField(fields[0])
                           && (after == "" || IsBlank(after[0])) && IsLaidOut(after, fields[1..]);
      assert text == before + (fields[0] + after);
      BlanksSkipped(before, fields[0] + after);
      FirstWord(fields[0], after);
      WordsAre(after, fields[1..]);
    }
  }

  /** The bounds of minute, hour, day, month and weekday. */
  ghost function Limits(i: nat): Bounds
    requires i < 5
  {
    if i == 0 then Bounds(0, 59) else if i == 1 then Bounds(0, 23) else if i == 2 then Bounds(1, 31)
    else if i == 3 then Bounds(1, 12) else Bounds(0, 6)
  }

  ghost predicate IsFirstError(fields: seq<string>, n: nat, e: CronError) {
    exists i :: 0 <= i < n && i < |fields| && i < 5 && FieldValues(fields[i], Limits(i)) == Err(e)
                && forall j :: 0 <= j < i ==> FieldValues(fields[j], Limits(j)).Ok?
  }

  ghost predicate AreFields(fields: seq<string>, n: nat, values: seq<set<int>>) {
    |values| == n && n <= |fields| && n <= 5
    && forall i :: 0 <= i < n ==> FieldValues(fields[i], Limits(i)) == Ok(values[i])
  }

  /** What reading the first `n` fields gives. */
  ghost predicate IsReading(fields: seq<string>, n: nat, r: Result<seq<set<int>>, CronError>) {
    if r.Ok? then AreFields(fields, n, r.value) else IsFirstError(fields, n, r.error)
  }

  lemma NextField(fields: seq<string>, n: nat, values: seq<set<int>>)
    requires n < |fields| && n < 5 && AreFields(fields, n, values)
    ensures match FieldValues(fields[n], Limits(n))
      case Ok(field) => AreFields(fields, n + 1, values + [field])
      case Err(e) => IsFirstError(fields, n + 1, e)
  {
    assert forall j :: 0 <= j < n ==> FieldValues(fields[j], Limits(j)).Ok?;
  }

  lemma {:induction false} FieldsTogether(fields: seq<string>, n: nat)
    requires n <= |fields| && n <= 5
    ensures IsReading(fields, n, FieldsOf(fields, n))
  {
    if n > 0 {
      FieldsTogether(fields, n - 1);
      assert FIELD_LIMITS[n - 1] == Limits(n - 1);
      var before := FieldsOf(fields, n - 1);
      if before.Ok? {
        NextField(fields, n - 1, before.value);
      } else {
        assert FieldsOf(fields, n) == before;
      }
    }
  }

  /** An expression has five fields, each of which stands for a set; the first one that does not is the error. */
  lemma ExpressionMeans(text: string, fields: seq<string>)
    requires IsLaidOut(text, fields)
    ensures |fields| != 5 ==> ParseCron(text) == Err(WrongFieldCount)
    ensures |fields| == 5 && ParseCron(text).Ok? ==> AreFields(fields, 5, ParseCron(text).value)
    ensures |fields| == 5 && ParseCron(text).Err? ==> IsFirstError(fields, 5, ParseCron(text).error)
  {
    WordsAre(text, fields);
    if |fields| == 5 {
      FieldsTogether(fields, 5);
    }
  }

  // ----- Moments

  /**
   * The minute, hour and day of a local time, counted from the first day of 1970, and the weekday, counted from Sunday;
   * that day was a Thursday.
   */
  ghost predicate IsLocalTime(calendar: Calendar, minute: int, past: int, hour: int, day: int, weekday: int) {
    && minute + calendar.offset == 1440 * day + 60 * hour + past && 0 <= past < 60 && 0 <= hour < 24
    && 0 <= weekday < 7 && exists week :: day + 4 == 7 * week + weekday
  }

  /** A minute matches when its local time is in the five fields. */
  lemma MatchMeans(fields: seq<set<int>>, calendar: Calendar, minute: int, past: int, hour: int, day: int, weekday: int)
    requires |fields| == 5 && IsLocalTime(calendar, minute, past, hour, day, weekday)
    ensures Matches(fields, calendar, minute) <==>
      past in fields[0] && hour in fields[1] && calendar.day(day) in fields[2] && calendar.month(day) in fields[3]
      && weekday in fields[4]
  {
    var local := minute + calendar.offset;
    DivideBy60(local, 24 * day + hour, past);
    DivideBy24(24 * day + hour, day, hour);
    DivideBy1440(local, day, 60 * hour + past);
    var week :| day + 4 == 7 * week + weekday;
    assert (day + 4) % 7 == weekday;
    assert Matches(fields, calendar, minute) <==>
      Component(calendar, minute, 0) in fields[0] && Component(calendar, minute, 1) in fields[1]
      && Component(calendar, minute, 2) in fields[2] && Component(calendar, minute, 3) in fields[3]
      && Component(calendar, minute, 4) in fields[4];
  }

  /** Five stars, but for one field. */
  ghost function Stars(k: nat, field: string): seq<string>
    requires k < 5
  {
    seq(5, i => if i == k then field else "*")
  }

  /** The fields of an expression with stars in all places but one. */
  lemma StarsElsewhere(text: string, k: nat, field: string, values: set<int>)
    requires k < 5 && IsLaidOut(text, Stars(k, field)) && FieldValues(field, Limits(k)) == Ok(values)
    ensures ParseCron(text).Ok? && |ParseCron(text).value| == 5 && ParseCron(text).value[k] == values
    ensures forall i, v :: 0 <= i < 5 && i != k ==> (v in ParseCron(text).value[i] <==> Fits(v, Limits(i)))
  {
    var fields := Stars(k, field);
    forall i | 0 <= i < 5 && i != k
      ensures FieldValues(fields[i], Limits(i)).Ok?
      ensures forall v :: v in FieldValues(fields[i], Limits(i)).value <==> Fits(v, Limits(i))
    {
      StarMeans(Limits(i));
    }
    ExpressionMeans(text, fields);
  }

  /** With stars elsewhere the month alone decides. */
  lemma MonthDecides(text: string, month: string, values: set<int>, calendar: Calendar, minute: int, past: int,
                     hour: int, day: int, weekday: int)
    requires IsLaidOut(text, Stars(3, month)) && FieldValues(month, Bounds(1, 12)) == Ok(values)
    requires IsLocalTime(calendar, minute, past, hour, day, weekday) && 1 <= calendar.day(day) <= 31
    ensures ParseCron(text).Ok?
    ensures Matches(ParseCron(text).value, calendar, minute) <==> calendar.month(day) in values
  {
    StarsElsewhere(text, 3, month, values);
    MatchMeans(ParseCron(text).value, calendar, minute, past, hour, day, weekday);
  }

  /** With stars elsewhere the day of the month alone decides. */
  lemma DayDecides(text: string, monthDay: string, values: set<int>, calendar: Calendar, minute: int, past: int,
                   hour: int, day: int, weekday: int)
    requires IsLaidOut(text, Stars(2, monthDay)) && FieldValues(monthDay, Bounds(1, 31)) == Ok(values)
    requires IsLocalTime(calendar, minute, past, hour, day, weekday) && 1 <= calendar.month(day) <= 12
    ensures ParseCron(text).Ok?
    ensures Matches(ParseCron(text).value, calendar, minute) <==> calendar.day(day) in values
  {
    StarsElsewhere(text, 2, monthDay, values);
    MatchMeans(ParseCron(text).value, calendar, minute, past, hour, day, weekday);
  }
}
