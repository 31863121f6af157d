/** Base32 character by character. */
module Base32Text {
  import opened Base32

  // ----- Bits

  /** The weight of the bit that has `k` bits behind it. */
  ghost function Weight(k: nat): nat
    requires k < 8
  {
    [1, 2, 4, 8, 16, 32, 64, 128][k]
  }

  /** Bit `i` of a number of `width` bits, the highest first. */
  ghost predicate IsSet(value: nat, width: nat, i: nat)
    requires i < width <= 8
  {
    value / Weight(width - 1 - i) % 2 == 1
  }

  lemma BitIs(value: nat, width: nat, i: nat)
    requires i < width <= 8
    ensures Bits(value, width)[i] <==> IsSet(value, width, i)
  {
    if i < width - 1 {
      BitIs(value / 2, width - 1, i);
      HalvedTwice(value, width - 2 - i);
    }
  }

  lemma HalvedTwice(value: nat, k: nat)
    requires k < 7
    ensures value / 2 / Weight(k) == value / Weight(k + 1)
  {
  }

  lemma {:induction false} StreamBit(values: seq<nat>, width: nat, i: nat, j: nat)
    requires i < |values| && j < width <= 8
    ensures |BitsOf(values, width)| == |values| * width && i * width + j < |values| * width
    ensures BitsOf(values, width)[i * width + j] <==> IsSet(values[i], width, j)
  {
    var n := |values| - 1;
    BitsLength(values, width);
    BitsLength(values[..n], width);
    if i < n {
      StreamBit(values[..n], width, i, j);
    } else {
      BitIs(values[n], width, j);
      Before(i, |values|, width, j);
    }
    Before(i, |values|, width, j);
  }

  lemma Before(i: nat, n: nat, width: nat, j: nat)
    requires i < n && j < width
    ensures i * width + j < n * width
  {
    var more := n - i - 1;
    assert n * width == i * width + width + more * width;
  }

  // ----- Digits

  /** The digit a character is: the letters stand for 0 to 25, `2` to `7` for 26 to 31. */
  ghost function DigitOf(c: char): int {
    if 'A' <= c <= 'Z' then c as int - 'A' as int
    else if 'a' <= c <= 'z' then c as int - 'a' as int
    else if '2' <= c <= '7' then c as int - '2' as int + 26
    else -1
  }

  /** The digits in a text; small letters count as capitals, and what is no digit is left out. */
  ghost function DigitsIn(text: string): seq<nat> {
    if text == "" then []
    else
      var d := DigitOf(text[|text| - 1]);
      DigitsIn(text[..|text| - 1]) + if d < 0 then [] else [d]
  }

  /** The decoder reads just these digits. */
  lemma {:induction false} DigitsRead(input: string)
    ensures Values(Normalized(input)) == DigitsIn(input)
  {
    if input != "" {
      var n := |input| - 1;
      if input[n] == '=' {
        DigitsRead(input[..n]);
      } else {
        CapitalsRead(input);
      }
    }
  }

  ghost function Capital(c: char): char {
    if 'a' <= c <= 'z' then (c as int - 32) as char else c
  }

  ghost predicate AreCapitals(text: string, capitals: string) {
    |capitals| == |text| && forall i :: 0 <= i < |text| ==> capitals[i] == Capital(text[i])
  }

  lemma CapitalsRead(input: string)
    requires input != "" && input[|input| - 1] != '='
    ensures Values(Normalized(input)) == DigitsIn(input)
  {
    CapitalValues(input, Normalized(input));
  }

  lemma {:induction false} CapitalValues(text: string, capitals: string)
    requires AreCapitals(text, capitals)
    ensures Values(capitals) == DigitsIn(text)
  {
    if text != "" {
      CapitalValues(text[..|text| - 1], capitals[..|text| - 1]);
    }
  }

  // ----- What the methods compute

  /** Bit `k` of the bits of a sequence of numbers. */
  lemma AnyBit(values: seq<nat>, width: nat, k: nat)
    requires 0 < width <= 8 && k < |values| * width
    ensures k / width < |values| && |BitsOf(values, width)| == |values| * width
    ensures BitsOf(values, width)[k] <==> IsSet(values[k / width], width, k % width)
  {
    var i, j := k / width, k % width;
    assert k == i * width + j;
    if i >= |values| {
      Behind(i, |values|, width);
    }
    StreamBit(values, width, i, j);
  }

  lemma Behind(i: nat, n: nat, width: nat)
    requires i >= n
    ensures i * width >= n * width
  {
    var more := i - n;
    assert i * width == n * width + more * width;
  }

  lemma EncodedBit(bytes: seq<Byte>, text: string, k: nat)
    requires IsEncoding(bytes, text) && |Values(text)| == |text| && k < 5 * |text|
    ensures IsSet(Values(text)[k / 5], 5, k % 5) <==> k < 8 * |bytes| && IsSet(bytes[k / 8], 8, k % 8)
  {
    var bits, pad := BitsOf(bytes, 8), Zeros(5 * |text| - 8 * |bytes|);
    AnyBit(Values(text), 5, k);
    BitsLength(bytes, 8);
    if k < 8 * |bytes| {
      AnyBit(bytes, 8, k);
      assert (bits + pad)[k] == bits[k];
    } else {
      assert (bits + pad)[k] == pad[k - |bits|];
    }
  }

  lemma Place(i: nat, j: nat)
    requires j < 5
    ensures (5 * i + j) / 5 == i && (5 * i + j) % 5 == j
  {
  }

  /** Bit `j` of digit `i` of an encoding is the next bit of the bytes, or 0 behind the last one. */
  lemma EncodedDigit(bytes: seq<Byte>, text: string, i: nat, j: nat)
    requires IsEncoding(bytes, text) && i < |text| && j < 5
    ensures 'A' <= text[i] <= 'Z' || '2' <= text[i] <= '7'
    ensures var k := 5 * i + j;
      IsSet(DigitOf(text[i]), 5, j) <==> k < 8 * |bytes| && IsSet(bytes[k / 8], 8, k % 8)
  {
    ValueAt(text, i);
    Place(i, j);
    EncodedBit(bytes, text, 5 * i + j);
    assert CharDigit(text[i]) != -1;
  }

  lemma {:induction false} ValueAt(text: string, i: nat)
    requires IsBase32(text) && i < |text|
    ensures |Values(text)| == |text| && Values(text)[i] == DigitOf(text[i])
  {
    ValuesLength(text);
    if i < |text| - 1 {
      ValueAt(text[..|text| - 1], i);
    } else {
      ValuesLength(text[..|text| - 1]);
    }
  }

  lemma DecodedBit(digits: seq<nat>, bytes: seq<Byte>, m: nat)
    requires IsDecoding(digits, bytes) && m < 8 * |bytes|
    ensures m / 5 < |digits| && m / 8 < |bytes|
    ensures IsSet(bytes[m / 8], 8, m % 8) <==> IsSet(digits[m / 5], 5, m % 5)
  {
    var rest :| BitsOf(digits, 5) == BitsOf(bytes, 8) + rest;
    AnyBit(bytes, 8, m);
    AnyBit(digits, 5, m);
    assert (BitsOf(bytes, 8) + rest)[m] == BitsOf(bytes, 8)[m];
  }

  lemma PlaceInByte(k: nat, j: nat)
    requires j < 8
    ensures (8 * k + j) / 8 == k && (8 * k + j) % 8 == j
  {
  }

  /** Bit `j` of byte `k` of a decoding is the next bit of the digits; bits that do not fill a byte are left out. */
  lemma DecodedByte(input: string, bytes: seq<Byte>, k: nat, j: nat)
    requires IsDecoding(Values(Normalized(input)), bytes) && k < |bytes| && j < 8
    ensures |bytes| == 5 * |DigitsIn(input)| / 8 && (8 * k + j) / 5 < |DigitsIn(input)|
    ensures IsSet(bytes[k], 8, j) <==> IsSet(DigitsIn(input)[(8 * k + j) / 5], 5, (8 * k + j) % 5)
  {
    DigitsRead(input);
    PlaceInByte(k, j);
    DecodedBit(DigitsIn(input), bytes, 8 * k + j);
  }
}
