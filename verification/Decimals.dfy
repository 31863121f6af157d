/** Number literals: the regular expression of the tokenizer, and the exact decimal a literal stands for. */
module Decimals {
  import opened Wrappers
  import opened Text

  /** `fraction` holds the digits behind the point. */
  datatype Decimal = Decimal(negative: bool, whole: nat, fraction: string)

  /** One form for each number: no zeros at the end of the fraction, and no negative zero. */
  predicate IsNormal(d: Decimal) {
    && (forall i :: 0 <= i < |d.fraction| ==> IsDigit(d.fraction[i]))
    && (d.fraction != [] ==> d.fraction[|d.fraction| - 1] != '0')
    && (d.negative ==> d.whole != 0 || d.fraction != [])
  }

  function TrimZeros(s: string): (t: string)
    ensures t <= s && (t != [] ==> t[|t| - 1] != '0')
  {
    if s != [] && s[|s| - 1] == '0' then TrimZeros(s[..|s| - 1]) else s
  }

  /** `(?:\.\d+)?` at the start of the text: how many characters it takes. */
  function FractionLength(s: string): (n: nat)
    ensures n <= |s|
  {
    if s != [] && s[0] == '.' && Span(IsDigit, s[1..]) > 0 then 1 + Span(IsDigit, s[1..]) else 0
  }

  /** `\d+(?:\.\d+)?`; 0 when it does not match. */
  function UnsignedLength(s: string): (n: nat)
    ensures n <= |s|
  {
    var whole := Span(IsDigit, s);
    if whole == 0 then 0 else whole + FractionLength(s[whole..])
  }

  /** `^-?\d+(?:\.\d+)?`; 0 when it does not match. */
  function NumberLength(s: string): (n: nat)
    ensures n <= |s|
  {
    if s != [] && s[0] == '-' then (if UnsignedLength(s[1..]) == 0 then 0 else 1 + UnsignedLength(s[1..]))
    else UnsignedLength(s)
  }

  predicate IsNumber(s: string) {
    s != [] && NumberLength(s) == |s|
  }

  predicate IsUnsigned(s: string) {
    s != [] && UnsignedLength(s) == |s|
  }

  function FractionOf(s: string): (fraction: string)
    ensures forall i :: 0 <= i < |fraction| ==> IsDigit(fraction[i])
    ensures fraction != [] ==> fraction[|fraction| - 1] != '0'
  {
    if s != [] && s[0] == '.' then TrimZeros(s[1..][..Span(IsDigit, s[1..])]) else []
  }

  function UnsignedOf(s: string): (d: Decimal)
    ensures IsNormal(d) && !d.negative
  {
    var whole := Span(IsDigit, s);
    Decimal(false, NumeralValue(s[..whole]), FractionOf(s[whole..]))
  }

  /** `Number(text)`, exactly. */
  function DecimalOf(s: string): (d: Decimal)
    ensures IsNormal(d)
  {
    if s != [] && s[0] == '-' then
      var d := UnsignedOf(s[1..]);
      d.(negative := d.whole != 0 || d.fraction != [])
    else UnsignedOf(s)
  }

  function ShowUnsigned(d: Decimal): string {
    Numeral(d.whole) + if d.fraction == [] then [] else ['.'] + d.fraction
  }

  function ShowDecimal(d: Decimal): string {
    if d.negative then ['-'] + ShowUnsigned(d) else ShowUnsigned(d)
  }

  /** The text of a number ends where a character comes that cannot continue it. */
  predicate EndsNumber(rest: string) {
    rest == [] || (!IsDigit(rest[0]) && rest[0] != '.')
  }

  lemma SpanOfAll(a: string, b: string)
    requires Span(IsDigit, a) == |a| && (b == [] || !IsDigit(b[0]))
    ensures Span(IsDigit, a + b) == |a|
  {
    SpanStops(IsDigit, a, b);
  }

  lemma FractionLengthStable(s: string, rest: string)
    requires FractionLength(s) == |s| && EndsNumber(rest)
    ensures FractionLength(s + rest) == |s|
  {
    if s == [] {
      assert s + rest == rest;
    } else {
      assert (s + rest)[1..] == s[1..] + rest;
      SpanOfAll(s[1..], rest);
    }
  }

  lemma UnsignedLengthStable(s: string, rest: string)
    requires IsUnsigned(s) && EndsNumber(rest)
    ensures UnsignedLength(s + rest) == |s|
  {
    var whole := Span(IsDigit, s);
    var digits, tail := s[..whole], s[whole..];
    assert s + rest == digits + (tail + rest);
    FractionLengthStable(tail, rest);
    assert tail == [] ==> tail + rest == rest;
    SpanStops(IsDigit, digits, tail + rest);
    assert (s + rest)[whole..] == tail + rest;
  }

  lemma NumberLengthStable(s: string, rest: string)
    requires IsNumber(s) && EndsNumber(rest)
    ensures NumberLength(s + rest) == |s|
  {
    if s[0] == '-' {
      assert (s + rest)[1..] == s[1..] + rest;
      UnsignedLengthStable(s[1..], rest);
    } else {
      UnsignedLengthStable(s, rest);
    }
  }

  lemma ShownFraction(fraction: string)
    requires fraction != [] && forall i :: 0 <= i < |fraction| ==> IsDigit(fraction[i])
    requires fraction[|fraction| - 1] != '0'
    ensures FractionLength(['.'] + fraction) == 1 + |fraction| && FractionOf(['.'] + fraction) == fraction
  {
    var s := ['.'] + fraction;
    assert s[1..] == fraction && fraction + [] == fraction;
    SpanStops(IsDigit, fraction, []);
    assert fraction[..|fraction|] == fraction;
  }

  lemma ShownUnsigned(d: Decimal)
    requires IsNormal(d)
    ensures IsUnsigned(ShowUnsigned(d)) && UnsignedOf(ShowUnsigned(d)) == d.(negative := false)
  {
    var whole, tail := Numeral(d.whole), if d.fraction == [] then [] else ['.'] + d.fraction;
    SpanStops(IsDigit, whole, tail);
    assert (whole + tail)[..|whole|] == whole && (whole + tail)[|whole|..] == tail;
    NumeralRoundTrip(d.whole);
    if d.fraction != [] {
      ShownFraction(d.fraction);
    }
  }

  /** Every normal decimal can be written down and is read back. */
  lemma ShownDecimal(d: Decimal)
    requires IsNormal(d)
    ensures IsNumber(ShowDecimal(d)) && DecimalOf(ShowDecimal(d)) == d
  {
    ShownUnsigned(d);
    if d.negative {
      assert ShowDecimal(d)[1..] == ShowUnsigned(d);
    } else {
      assert IsDigit(Numeral(d.whole)[0]) && ShowUnsigned(d)[0] == Numeral(d.whole)[0];
    }
  }
}
