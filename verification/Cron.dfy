/** Cron expressions: the sets their fields stand for, and the search for the next matching minute. */
module Cron {
  import opened Wrappers
  import opened Text

  datatype Bounds = Bounds(min: int, max: int)

  const FIELD_LIMITS := [Bounds(0, 59), Bounds(0, 23), Bounds(1, 31), Bounds(1, 12), Bounds(0, 6)]
  const HORIZON := 43200
  const WEEK := 10080

  datatype CronError =
    | WrongFieldCount
    | InvalidStep(part: string)
    | InvalidRange(part: string)
    | InvalidField(part: string)
    | OutOfBounds(part: string)

  datatype Part = Star | Step(step: nat) | Range(start: nat, end: nat) | Single(value: Option<int>)

  predicate IsDigits(s: string) {
    s != [] && forall i :: 0 <= i < |s| ==> IsDigit(s[i])
  }

  /** `\d+`. */
  function DigitsOf(s: string): Option<nat> {
    if IsDigits(s) then Some(NumeralValue(s)) else None
  }

  function Signed(negative: bool, n: Option<nat>): Option<int> {
    if n == None then None else Some(if negative then -(n.value as int) else n.value)
  }

  /** `Number(part)` where it is a whole number in decimal; the empty text counts as 0. */
  function NumberOf(s: string): Option<int> {
    if s == [] then Some(0)
    else if s[0] == '-' || s[0] == '+' then Signed(s[0] == '-', DigitsOf(s[1..]))
    else Signed(false, DigitsOf(s))
  }

  /** `^\*\/(\d+)$`. */
  function StepOf(s: string): Option<nat> {
    if |s| >= 2 && s[0] == '*' && s[1] == '/' then DigitsOf(s[2..]) else None
  }

  function Both(a: Option<nat>, b: Option<nat>): Option<(nat, nat)> {
    if a.Some? && b.Some? then Some((a.value, b.value)) else None
  }

  /** `^(\d+)-(\d+)$`. */
  function RangeOf(s: string): Option<(nat, nat)> {
    var dash := IndexOf(s, '-');
    if dash >= 0 then Both(DigitsOf(s[..dash]), DigitsOf(s[dash + 1..])) else None
  }

  function PartOf(s: string): Part {
    if s == ['*'] then Star
    else if StepOf(s).Some? then Step(StepOf(s).value)
    else if RangeOf(s).Some? then Range(RangeOf(s).value.0, RangeOf(s).value.1)
    else Single(NumberOf(s))
  }

  predicate IsWithin(value: int, bounds: Bounds) {
    bounds.min <= value <= bounds.max
  }

  predicate IsMultiple(a: int, n: nat)
    requires n > 0
    decreases a
  {
    a == 0 || (a >= n && IsMultiple(a - n, n))
  }

  /** Why a part is refused; nothing when it is accepted. */
  function PartError(text: string, bounds: Bounds): Option<CronError> {
    match PartOf(text)
    case Star => None
    case Step(step) => if step == 0 then Some(InvalidStep(text)) else None
    case Range(start, end) =>
      if !IsWithin(start, bounds) || !IsWithin(end, bounds) then Some(OutOfBounds(text))
      else if end < start then Some(InvalidRange(text))
      else None
    case Single(value) =>
      if value == None then Some(InvalidField(text))
      else if !IsWithin(value.value, bounds) then Some(OutOfBounds(text))
      else None
  }

  /** The values of a field that a part allows. */
  predicate Allows(part: Part, bounds: Bounds, v: int) {
    match part
    case Star => true
    case Step(step) => step > 0 && IsMultiple(v - bounds.min, step)
    case Range(start, end) => start <= v <= end
    case Single(value) => value == Some(v)
  }

  function ValuesOf(part: Part, bounds: Bounds): set<int> {
    set v: int {:trigger Allows(part, bounds, v)} | bounds.min <= v <= bounds.max && Allows(part, bounds, v)
  }

  function PartValues(text: string, bounds: Bounds): Result<set<int>, CronError> {
    match PartError(text, bounds)
    case Some(error) => Err(error)
    case None => Ok(ValuesOf(PartOf(text), bounds))
  }

  /** `text.split(separator)`. */
  function Split(text: string, separator: char): (parts: seq<string>)
    ensures parts != []
  {
    var i := IndexOf(text, separator);
    if i == -1 then [text] else [text[..i]] + Split(text[i + 1..], separator)
  }

  /** `expression.trim().split(/\s+/)`. */
  function Words(text: string): seq<string>
    decreases |text|
  {
    if text == [] then []
    else if IsSpace(text[0]) then Words(text[1..])
    else
      var n := Span(c => !IsSpace(c), text);
      [text[..n]] + Words(text[n..])
  }

  function PartsValues(parts: seq<string>, bounds: Bounds): Result<set<int>, CronError> {
    if parts == [] then Ok({})
    else match PartsValues(parts[..|parts| - 1], bounds)
      case Err(error) => Err(error)
      case Ok(values) => Added(values, PartValues(parts[|parts| - 1], bounds))
  }

  function Added(values: set<int>, more: Result<set<int>, CronError>): Result<set<int>, CronError> {
    match more
    case Ok(set') => Ok(values + set')
    case Err(error) => Err(error)
  }

  function FieldValues(segment: string, bounds: Bounds): Result<set<int>, CronError> {
    PartsValues(Split(segment, ','), bounds)
  }

  /** The first `n` fields, or the first error. */
  function FieldsOf(segments: seq<string>, n: nat): (r: Result<seq<set<int>>, CronError>)
    requires n <= |segments| && n <= |FIELD_LIMITS|
    ensures r.Ok? ==> |r.value| == n
  {
    if n == 0 then Ok([])
    else match FieldsOf(segments, n - 1)
      case Err(error) => Err(error)
      case Ok(fields) =>
        match FieldValues(segments[n - 1], FIELD_LIMITS[n - 1])
        case Err(error) => Err(error)
        case Ok(values) => Ok(fields + [values])
  }

  function ParseCron(expression: string): (r: Result<seq<set<int>>, CronError>)
    ensures r.Ok? ==> |r.value| == |FIELD_LIMITS|
  {
    var segments := Words(expression);
    if |segments| != |FIELD_LIMITS| then Err(WrongFieldCount) else FieldsOf(segments, |FIELD_LIMITS|)
  }

  /** A local time that is a whole number of minutes ahead of the epoch's; day and month are given for each day. */
  datatype Calendar = Calendar(offset: int, day: int -> int, month: int -> int)

  function Component(calendar: Calendar, minute: int, field: nat): int
    requires field < |FIELD_LIMITS|
  {
    var local := minute + calendar.offset;
    if field == 0 then local % 60
    else if field == 1 then local / 60 % 24
    else if field == 2 then calendar.day(local / 1440)
    else if field == 3 then calendar.month(local / 1440)
    else (local / 1440 + 4) % 7
  }

  /** `cronMatches`, for an expression that has been parsed. */
  predicate Matches(fields: seq<set<int>>, calendar: Calendar, minute: int)
    requires |fields| == |FIELD_LIMITS|
  {
    forall i :: 0 <= i < |fields| ==> Component(calendar, minute, i) in fields[i]
  }

  /** The values the loops of the parser add for a part that is accepted. */
  method AddPart(part: Part, bounds: Bounds) returns (values: set<int>)
    requires part.Step? ==> part.step > 0
    requires part.Range? ==> IsWithin(part.start, bounds) && IsWithin(part.end, bounds)
    requires part.Single? ==> part.value.Some? && IsWithin(part.value.value, bounds)
    ensures values == ValuesOf(part, bounds)
  {
    if part.Single? {
      assert Allows(part, bounds, part.value.value);
      return {part.value.value};
    }
    values := {};
    var start := if part.Range? then part.start else bounds.min;
    var end := if part.Range? then part.end else bounds.max;
    var step := if part.Step? then part.step else 1;
    var value := start;
    while value <= end
      invariant start <= value && (part.Step? ==> IsMultiple(value - start, step))
      invariant forall v {:trigger v in values} {:trigger Allows(part, bounds, v)} ::
        v in values <==> start <= v <= end && v < value && Allows(part, bounds, v)
    {
      if part.Step? {
        forall v | value < v < value + step
          ensures !Allows(part, bounds, v)
        {
          BetweenMultiples(value - start, v - value, step);
        }
      }
      assert Allows(part, bounds, value);
      values := values + {value};
      value := value + step;
    }
  }

  lemma {:induction false} BetweenMultiples(a: int, d: int, n: nat)
    requires 0 < d < n && IsMultiple(a, n)
    ensures !IsMultiple(a + d, n)
    decreases a
  {
    if a > 0 {
      BetweenMultiples(a - n, d, n);
    }
  }

  method ParseField(segment: string, bounds: Bounds) returns (r: Result<set<int>, CronError>)
    ensures r == FieldValues(segment, bounds)
  {
    var values: set<int> := {};
    var parts := Split(segment, ',');
    for i := 0 to |parts|
      invariant PartsValues(parts[..i], bounds) == Ok(values)
    {
      assert parts[..i + 1][..i] == parts[..i];
      var error := PartError(parts[i], bounds);
      if error.Some? {
        FirstErrorStays(parts, bounds, i + 1);
        return Err(error.value);
      }
      var more := AddPart(PartOf(parts[i]), bounds);
      values := values + more;
    }
    assert parts[..|parts|] == parts;
    r := Ok(values);
  }

  lemma {:induction false} FirstErrorStays(parts: seq<string>, bounds: Bounds, n: nat)
    requires n <= |parts| && PartsValues(parts[..n], bounds).Err?
    ensures PartsValues(parts, bounds) == PartsValues(parts[..n], bounds)
    decreases |parts|
  {
    if n == |parts| {
      assert parts[..n] == parts;
    } else {
      assert parts[..|parts| - 1][..n] == parts[..n];
      FirstErrorStays(parts[..|parts| - 1], bounds, n);
    }
  }

  method ParseCronExpression(expression: string) returns (r: Result<seq<set<int>>, CronError>)
    ensures r == ParseCron(expression)
  {
    var segments := Words(expression);
    if |segments| != 5 {
      return Err(WrongFieldCount);
    }
    var fields: seq<set<int>> := [];
    for i := 0 to 5
      invariant FieldsOf(segments, i) == Ok(fields)
    {
      var field := ParseField(segments[i], FIELD_LIMITS[i]);
      if field.Err? {
        FirstFieldErrorStays(segments, i + 1, 5);
        return Err(field.error);
      }
      fields := fields + [field.value];
    }
    r := Ok(fields);
  }

  lemma {:induction false} FirstFieldErrorStays(segments: seq<string>, n: nat, m: nat)
    requires n <= m <= |segments| && m <= |FIELD_LIMITS| && FieldsOf(segments, n).Err?
    ensures FieldsOf(segments, m) == FieldsOf(segments, n)
  {
    if n < m {
      FirstFieldErrorStays(segments, n, m - 1);
    }
  }

  /** The search returns the least match after `from` (in milliseconds) unless there is none within 30 days. */
  method NextCronMatch(expression: string, calendar: Calendar, from: int) returns (r: Result<Option<int>, CronError>)
    ensures r.Err? <==> ParseCron(expression).Err?
    ensures r.Err? ==> r.error == ParseCron(expression).error
    ensures r.Ok? && r.value.Some? ==> IsNext(ParseCron(expression).value, calendar, from, r.value.value)
    ensures r.Ok? && r.value == None ==>
      forall m :: from / 60000 < m <= from / 60000 + 43200 ==> !Matches(ParseCron(expression).value, calendar, m)
    ensures r.Ok? && IsEveryDay(expression) && IsCalendar(calendar) ==> r.value.Some?
  {
    var parsed := ParseCronExpression(expression);
    if parsed.Err? {
      return Err(parsed.error);
    }
    var candidate := from / 60000 + 1;
    for iteration := 0 to HORIZON
      invariant candidate == from / 60000 + 1 + iteration
      invariant forall m :: from / 60000 < m < candidate ==> !Matches(parsed.value, calendar, m)
    {
      if Matches(parsed.value, calendar, candidate) {
        return Ok(Some(candidate));
      }
      candidate := candidate + 1;
    }
    if IsCalendar(calendar) {
      NothingIsNotEveryDay(expression, calendar, from / 60000);
    }
    r := Ok(None);
  }

  ghost predicate IsNext(fields: seq<set<int>>, calendar: Calendar, from: int, minute: int)
    requires |fields| == |FIELD_LIMITS|
  {
    && from < minute * 60000 && minute <= from / 60000 + 43200 && Matches(fields, calendar, minute)
    && forall m :: from < m * 60000 && m < minute ==> !Matches(fields, calendar, m)
  }

  ghost predicate IsField(values: set<int>, bounds: Bounds) {
    (exists v :: v in values) && forall v :: v in values ==> IsWithin(v, bounds)
  }

  lemma PartIsField(text: string, bounds: Bounds)
    requires bounds.min <= bounds.max && PartValues(text, bounds).Ok?
    ensures IsField(PartValues(text, bounds).value, bounds)
  {
    var part := PartOf(text);
    var v := match part
      case Range(start, _) => start as int
      case Single(value) => value.value
      case _ => bounds.min;
    assert Allows(part, bounds, v);
    assert v in ValuesOf(part, bounds);
  }

  lemma {:induction false} PartsAreField(parts: seq<string>, bounds: Bounds)
    requires parts != [] && bounds.min <= bounds.max && PartsValues(parts, bounds).Ok?
    ensures IsField(PartsValues(parts, bounds).value, bounds)
  {
    PartIsField(parts[|parts| - 1], bounds);
    if |parts| > 1 {
      PartsAreField(parts[..|parts| - 1], bounds);
    }
  }

  /** Every field of an accepted expression allows something, and nothing outside its bounds. */
  lemma {:induction false} FieldsAreFields(segments: seq<string>, n: nat)
    requires n <= |segments| && n <= |FIELD_LIMITS| && FieldsOf(segments, n).Ok?
    ensures forall i :: 0 <= i < n ==>
      && FieldValues(segments[i], FIELD_LIMITS[i]) == Ok(FieldsOf(segments, n).value[i])
      && IsField(FieldsOf(segments, n).value[i], FIELD_LIMITS[i])
  {
    if n > 0 {
      FieldsAreFields(segments, n - 1);
      PartsAreField(Split(segments[n - 1], ','), FIELD_LIMITS[n - 1]);
    }
  }

  lemma StarAllowsAll(bounds: Bounds)
    ensures FieldValues("*", bounds).Ok?
    ensures forall v :: v in FieldValues("*", bounds).value <==> IsWithin(v, bounds)
  {
    assert IndexOf("*", ',') == -1;
    var parts := Split("*", ',');
    assert parts == ["*"] && parts[..0] == [];
    assert PartOf("*") == Star;
    assert PartsValues(parts[..0], bounds) == Ok({});
    assert PartsValues(parts, bounds) == Added({}, PartValues("*", bounds));
    assert forall v :: IsWithin(v, bounds) ==> Allows(Star, bounds, v);
  }

  ghost predicate IsCalendar(calendar: Calendar) {
    forall d :: IsWithin(calendar.day(d), FIELD_LIMITS[2]) && IsWithin(calendar.month(d), FIELD_LIMITS[3])
  }

  /** The minute, hour and weekday fields see nothing but the minute of the week. */
  lemma MinuteOfWeek(calendar: Calendar, minute: int, q: int, weekday: int, hour: int, past: int)
    requires 0 <= weekday < 7 && 0 <= hour < 24 && 0 <= past < 60
    requires minute + calendar.offset + 4 * 1440 == WEEK * q + 1440 * weekday + 60 * hour + past
    ensures Component(calendar, minute, 0) == past && Component(calendar, minute, 1) == hour
    ensures Component(calendar, minute, 4) == weekday
  {
    var local := minute + calendar.offset;
    var hours, days := 168 * q + 24 * weekday + hour - 96, 7 * q + weekday - 4;
    assert local == 60 * hours + past && local == 1440 * days + (60 * hour + past) && hours == 24 * days + hour;
    DivideBy60(local, hours, past);
    DivideBy24(hours, days, hour);
    DivideBy1440(local, days, 60 * hour + past);
    assert days + 4 == 7 * q + weekday;
  }

  lemma DivideBy60(a: int, q: int, r: int)
    requires a == 60 * q + r && 0 <= r < 60
    ensures a / 60 == q && a % 60 == r
  {
  }

  lemma DivideBy24(a: int, q: int, r: int)
    requires a == 24 * q + r && 0 <= r < 24
    ensures a / 24 == q && a % 24 == r
  {
  }

  lemma DivideBy1440(a: int, q: int, r: int)
    requires a == 1440 * q + r && 0 <= r < 1440
    ensures a / 1440 == q
  {
  }

  lemma EveryDayMatches(fields: seq<set<int>>, calendar: Calendar, from: int) returns (minute: int)
    requires |fields| == |FIELD_LIMITS| && IsCalendar(calendar)
    requires forall i :: 0 <= i < |fields| ==> IsField(fields[i], FIELD_LIMITS[i])
    requires forall v :: IsWithin(v, FIELD_LIMITS[2]) ==> v in fields[2]
    requires forall v :: IsWithin(v, FIELD_LIMITS[3]) ==> v in fields[3]
    ensures from < minute <= from + WEEK && Matches(fields, calendar, minute)
  {
    var past := Member(fields[0], FIELD_LIMITS[0]);
    var hour := Member(fields[1], FIELD_LIMITS[1]);
    var weekday := Member(fields[4], FIELD_LIMITS[4]);
    var shift, target := calendar.offset + 4 * 1440, 1440 * weekday + 60 * hour + past;
    minute := from + 1 + (target - (from + 1 + shift)) % WEEK;
    var q := (minute + shift - target) / WEEK;
    MinuteOfWeek(calendar, minute, q, weekday, hour, past);
    var day := (minute + calendar.offset) / 1440;
    assert IsWithin(calendar.day(day), FIELD_LIMITS[2]) && IsWithin(calendar.month(day), FIELD_LIMITS[3]);
  }

  lemma Member(values: set<int>, bounds: Bounds) returns (v: int)
    requires IsField(values, bounds)
    ensures v in values && IsWithin(v, bounds)
  {
    v :| v in values;
  }

  ghost predicate IsEveryDay(expression: string) {
    var segments := Words(expression);
    |segments| == 5 && segments[2] == "*" && segments[3] == "*"
  }

  /** With any day and any month allowed, something matches within a week of any moment. */
  lemma EveryDayWithinWeek(expression: string, calendar: Calendar, from: int) returns (minute: int)
    requires ParseCron(expression).Ok? && IsEveryDay(expression) && IsCalendar(calendar)
    ensures from < minute <= from + WEEK && Matches(ParseCron(expression).value, calendar, minute)
  {
    var fields := ParseCron(expression).value;
    FieldsAreFields(Words(expression), 5);
    StarAllowsAll(FIELD_LIMITS[2]);
    StarAllowsAll(FIELD_LIMITS[3]);
    minute := EveryDayMatches(fields, calendar, from);
  }

  lemma NothingIsNotEveryDay(expression: string, calendar: Calendar, from: int)
    requires ParseCron(expression).Ok? && IsCalendar(calendar)
    requires forall m :: from < m <= from + 43200 ==> !Matches(ParseCron(expression).value, calendar, m)
    ensures !IsEveryDay(expression)
  {
    if IsEveryDay(expression) {
      var m := EveryDayWithinWeek(expression, calendar, from);
    }
  }

  lemma DigitAllows(c: char, bounds: Bounds)
    requires IsDigit(c) && IsWithin(DigitValue(c), bounds)
    ensures FieldValues([c], bounds) == Ok({DigitValue(c) as int})
  {
    var parts := Split([c], ',');
    assert IndexOf([c], ',') == -1;
    assert parts == [[c]] && parts[..0] == [];
    assert StepOf([c]) == None && IndexOf([c], '-') == -1 && RangeOf([c]) == None;
    assert [c][..0] == [] && NumeralValue([c]) == DigitValue(c);
    assert NumberOf([c]) == Some(DigitValue(c));
    assert PartOf([c]) == Single(Some(DigitValue(c)));
    assert Allows(PartOf([c]), bounds, DigitValue(c));
    assert {} + ValuesOf(PartOf([c]), bounds) == {DigitValue(c) as int};
    assert PartsValues(parts, bounds) == Added({}, PartValues([c], bounds));
  }

  /**
   * Thirty days are less than a long month: asked at the first midnight of a month of 31 days, the search for
   * `0 0 1 ...` ends one day before the next first of the month and finds nothing.
   */
  lemma FirstOfMonthMissed(expression: string, calendar: Calendar, from: int, day: int)
    requires ParseCron(expression).Ok?
    requires Words(expression)[0] == "0" && Words(expression)[1] == "0" && Words(expression)[2] == "1"
    requires from + calendar.offset == 1440 * day
    requires forall d :: day < d < day + 31 ==> calendar.day(d) != 1
    ensures forall m :: from < m <= from + 43200 ==> !Matches(ParseCron(expression).value, calendar, m)
  {
    FieldAt(expression, 0);
    DigitAllows('0', FIELD_LIMITS[0]);
    FieldAt(expression, 1);
    DigitAllows('0', FIELD_LIMITS[1]);
    FieldAt(expression, 2);
    DigitAllows('1', FIELD_LIMITS[2]);
    NoFirstInReach(ParseCron(expression).value, calendar, from, day);
  }

  lemma FieldAt(expression: string, i: nat)
    requires ParseCron(expression).Ok? && i < |FIELD_LIMITS|
    ensures |Words(expression)| == |FIELD_LIMITS|
    ensures FieldValues(Words(expression)[i], FIELD_LIMITS[i]) == Ok(ParseCron(expression).value[i])
  {
    FieldsAreFields(Words(expression), |FIELD_LIMITS|);
  }

  lemma NoFirstInReach(fields: seq<set<int>>, calendar: Calendar, from: int, day: int)
    requires |fields| == |FIELD_LIMITS| && fields[0] == {0} && fields[1] == {0} && fields[2] == {1}
    requires from + calendar.offset == 1440 * day
    requires forall d :: day < d < day + 31 ==> calendar.day(d) != 1
    ensures forall m :: from < m <= from + 43200 ==> !Matches(fields, calendar, m)
  {
  }
}
