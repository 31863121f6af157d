/** Base32 (section 6 of RFC 4648) as the TOTP code does it, with JavaScript's 32-bit shift operators. */
module Base32 {
  const ALPHABET := "ABCDEFGHIJKLMNOPQRSTUVWXYZ234567"
  const WORD := 0x1_0000_0000

  type Byte = b: nat | b < 256

  function Pow2(n: nat): (p: nat)
    ensures p > 0
  {
    if n == 0 then 1 else 2 * Pow2(n - 1)
  }

  /** The low `n` bits of a number, highest first. */
  function Bits(value: nat, n: nat): (bits: seq<bool>)
    ensures |bits| == n
  {
    if n == 0 then [] else Bits(value / 2, n - 1) + [value % 2 == 1]
  }

  /** The bits of a sequence of numbers of the same width, one after the other. */
  function BitsOf(values: seq<nat>, width: nat): seq<bool> {
    if values == [] then [] else BitsOf(values[..|values| - 1], width) + Bits(values[|values| - 1], width)
  }

  lemma {:induction false} BitsLength(values: seq<nat>, width: nat)
    ensures |BitsOf(values, width)| == |values| * width
  {
    if values != [] {
      var n := |values| - 1;
      BitsLength(values[..n], width);
      assert n * width + width == (n + 1) * width;
    }
  }

  lemma {:induction false} Pow2Add(m: nat, n: nat)
    ensures Pow2(m + n) == Pow2(m) * Pow2(n)
  {
    if m > 0 {
      Pow2Add(m - 1, n);
    }
  }

  /** Appending `n` low bits to a number puts their bits behind its own. */
  lemma {:induction false} BitsAppend(high: nat, low: nat, m: nat, n: nat)
    requires low < Pow2(n)
    ensures Bits(high * Pow2(n) + low, m + n) == Bits(high, m) + Bits(low, n)
    decreases n
  {
    if n == 0 {
      assert Bits(high, m) + [] == Bits(high, m);
    } else {
      var whole := high * Pow2(n) + low;
      assert whole == 2 * (high * Pow2(n - 1)) + low by {
        assert high * (2 * Pow2(n - 1)) == 2 * (high * Pow2(n - 1));
      }
      assert whole / 2 == high * Pow2(n - 1) + low / 2 && whole % 2 == low % 2;
      BitsAppend(high, low / 2, m, n - 1);
      assert Bits(low, n) == Bits(low / 2, n - 1) + [low % 2 == 1];
    }
  }

  /** Only the low bits of the accumulator are ever looked at. */
  lemma {:induction false} BitsOfRemainder(value: nat, n: nat, k: nat)
    requires n <= k
    ensures Bits(value % Pow2(k), n) == Bits(value, n)
    decreases n
  {
    if n > 0 {
      HalfOfRemainder(value, Pow2(k - 1));
      BitsOfRemainder(value / 2, n - 1, k - 1);
    }
  }

  lemma HalfOfRemainder(value: nat, p: nat)
    requires p > 0
    ensures (value % (2 * p)) / 2 == (value / 2) % p && (value % (2 * p)) % 2 == value % 2
  {
    var q, r := value / (2 * p), value % (2 * p);
    assert value == 2 * (p * q) + r by {
      assert (2 * p) * q == 2 * (p * q);
    }
    assert value / 2 == p * q + r / 2;
    assert 0 <= r / 2 < p;
    RemainderUnique(value / 2, p, q, r / 2);
  }

  lemma AtLeastOnce(p: nat, k: nat)
    requires k >= 1
    ensures p * k >= p
  {
    assert p * k == p * (k - 1) + p;
  }

  lemma RemainderUnique(a: nat, p: nat, q: nat, r: nat)
    requires p > 0 && r < p && a == p * q + r
    ensures a % p == r
  {
    QuotientUnique(p, q, r, a / p, a % p);
  }

  lemma QuotientUnique(p: nat, q: nat, r: nat, q': nat, r': nat)
    requires r < p && r' < p && p * q + r == p * q' + r'
    ensures r == r'
  {
    if q > q' {
      assert p * q == p * (q - q') + p * q';
      AtLeastOnce(p, q - q');
    } else if q < q' {
      assert p * q' == p * (q' - q) + p * q;
      AtLeastOnce(p, q' - q);
    }
  }

  lemma {:induction false} BitsInjective(a: nat, b: nat, n: nat)
    requires a < Pow2(n) && b < Pow2(n) && Bits(a, n) == Bits(b, n)
    ensures a == b
  {
    if n > 0 {
      var x, y := Bits(a / 2, n - 1), Bits(b / 2, n - 1);
      assert (x + [a % 2 == 1])[..n - 1] == x && (y + [b % 2 == 1])[..n - 1] == y;
      assert (x + [a % 2 == 1])[n - 1] == (y + [b % 2 == 1])[n - 1];
      BitsInjective(a / 2, b / 2, n - 1);
    }
  }

  lemma {:induction false} BitsOfInjective(a: seq<nat>, b: seq<nat>, width: nat)
    requires |a| == |b| && BitsOf(a, width) == BitsOf(b, width)
    requires forall i :: 0 <= i < |a| ==> a[i] < Pow2(width) && b[i] < Pow2(width)
    ensures a == b
  {
    if a != [] {
      var n := |a| - 1;
      BitsLength(a[..n], width);
      BitsLength(b[..n], width);
      var x, y := BitsOf(a[..n], width), BitsOf(b[..n], width);
      assert (x + Bits(a[n], width))[..|x|] == x && (y + Bits(b[n], width))[..|x|] == y;
      assert (x + Bits(a[n], width))[|x|..] == Bits(a[n], width) && (y + Bits(b[n], width))[|x|..] == Bits(b[n], width);
      BitsInjective(a[n], b[n], width);
      BitsOfInjective(a[..n], b[..n], width);
    }
  }

  lemma BitsOfSnoc(values: seq<nat>, v: nat, width: nat)
    ensures BitsOf(values + [v], width) == BitsOf(values, width) + Bits(v, width)
  {
    assert (values + [v])[..|values|] == values;
  }

  lemma WordIsPow2()
    ensures WORD == Pow2(32) && Pow2(5) == 32 && Pow2(8) == 256
  {
    assert Pow2(8) == 256 && Pow2(16) == 65536 by {
      Pow2Add(8, 8);
    }
    Pow2Add(16, 16);
  }

  /** `value >>> n`. */
  function ShiftRight(value: nat, n: nat): nat {
    if n == 0 then value else ShiftRight(value / 2, n - 1)
  }

  /** `value << n`, before it is cut to 32 bits. */
  function ShiftLeft(value: nat, n: nat): nat {
    if n == 0 then value else 2 * ShiftLeft(value, n - 1)
  }

  /**
   * The accumulator keeps its pending bits and gains the `n` bits of `low`; what overflows 32 bits is never pending.
   */
  lemma ShiftIn(value: nat, bits: nat, low: nat, n: nat)
    requires low < Pow2(n) && bits + n <= 32
    ensures Bits((value * Pow2(n) + low) % WORD, bits + n) == Bits(value, bits) + Bits(low, n)
  {
    WordIsPow2();
    BitsOfRemainder(value * Pow2(n) + low, bits + n, 32);
    BitsAppend(value, low, bits, n);
  }

  /** Shifting right looks at the top `n` of the pending bits and leaves the others pending. */
  lemma {:induction false} ShiftOut(value: nat, n: nat, rest: nat)
    ensures Bits(value, n + rest) == Bits(ShiftRight(value, rest), n) + Bits(value, rest)
    decreases rest
  {
    var top := Bits(ShiftRight(value, rest), n);
    if rest == 0 {
      assert top + [] == top;
    } else {
      var low := [value % 2 == 1];
      ShiftOut(value / 2, n, rest - 1);
      Assoc(top, Bits(value / 2, rest - 1), low);
      assert Bits(value, n + rest) == Bits(value / 2, n + rest - 1) + low;
    }
  }

  lemma {:induction false} ShiftZerosIn(value: nat, bits: nat, n: nat)
    ensures Bits(ShiftLeft(value, n), bits + n) == Bits(value, bits) + Zeros(n)
  {
    if n > 0 {
      ShiftZerosIn(value, bits, n - 1);
      assert Zeros(n) == Zeros(n - 1) + [false];
    }
  }

  /** `x & 31`, `x & 255`. */
  lemma MaskKeepsBits(x: nat, n: nat)
    ensures Bits(x % Pow2(n), n) == Bits(x, n)
  {
    BitsOfRemainder(x, n, n);
  }

  function Zeros(n: nat): (bits: seq<bool>)
    ensures |bits| == n && forall i :: 0 <= i < n ==> !bits[i]
  {
    seq(n, _ => false)
  }

  /** `BASE32_ALPHABET[d]`. */
  function DigitChar(d: nat): char
    requires d < 32
  {
    if d < 26 then ('A' as int + d) as char else ('2' as int + d - 26) as char
  }

  /** `BASE32_ALPHABET.indexOf(c)`. */
  function CharDigit(c: char): (d: int)
    ensures -1 <= d < 32
    ensures d >= 0 ==> DigitChar(d) == c
  {
    if 'A' <= c <= 'Z' then c as int - 'A' as int
    else if '2' <= c <= '7' then c as int - '2' as int + 26
    else -1
  }

  /** The two readings are those of the alphabet, and one is the inverse of the other. */
  lemma AlphabetDigits(d: nat)
    requires d < 32
    ensures |ALPHABET| == 32 && ALPHABET[d] == DigitChar(d) && CharDigit(DigitChar(d)) == d
  { }

  /** The numbers the characters stand for; characters outside the alphabet are skipped. */
  function Values(text: string): (values: seq<nat>)
    ensures forall i :: 0 <= i < |values| ==> values[i] < 32
  {
    if text == [] then []
    else Values(text[..|text| - 1])
         + if CharDigit(text[|text| - 1]) == -1 then [] else [CharDigit(text[|text| - 1]) as nat]
  }

  predicate IsBase32(text: string) {
    forall i :: 0 <= i < |text| ==> CharDigit(text[i]) != -1
  }

  lemma {:induction false} ValuesLength(text: string)
    requires IsBase32(text)
    ensures |Values(text)| == |text|
  {
    if text != [] {
      ValuesLength(text[..|text| - 1]);
    }
  }

  lemma ValuesSnoc(text: string, d: nat)
    requires d < 32
    ensures Values(text + [DigitChar(d)]) == Values(text) + [d]
  {
    assert (text + [DigitChar(d)])[..|text|] == text;
  }

  lemma {:induction false} ValuesInjective(a: string, b: string)
    requires IsBase32(a) && IsBase32(b) && Values(a) == Values(b)
    ensures a == b
  {
    ValuesLength(a);
    ValuesLength(b);
    if a != [] {
      var n := |a| - 1;
      ValuesLength(a[..n]);
      ValuesLength(b[..n]);
      assert Values(a)[..n] == Values(a[..n]) && Values(b)[..n] == Values(b[..n]);
      assert Values(a)[n] == CharDigit(a[n]) && Values(b)[n] == CharDigit(b[n]);
      ValuesInjective(a[..n], b[..n]);
    }
  }

  /** RFC 4648, section 6, without padding characters: the bits of the bytes, filled up with zeros to whole digits. */
  ghost predicate IsEncoding(bytes: seq<Byte>, text: string) {
    && IsBase32(text) && 0 <= 5 * |text| - 8 * |bytes| < 5
    && BitsOf(Values(text), 5) == BitsOf(bytes, 8) + Zeros(5 * |text| - 8 * |bytes|)
  }

  /** The whole bytes among the bits of the digits. */
  ghost predicate IsDecoding(digits: seq<nat>, bytes: seq<Byte>) {
    && 0 <= 5 * |digits| - 8 * |bytes| < 8
    && exists rest :: BitsOf(digits, 5) == BitsOf(bytes, 8) + rest
  }

  lemma Assoc<T>(a: seq<T>, b: seq<T>, c: seq<T>)
    ensures (a + b) + c == a + (b + c)
  {
  }

  /** What has been written and what is pending, together, are the bits read. */
  ghost predicate IsUnderway(written: seq<bool>, value: nat, bits: nat, read: seq<bool>) {
    written + Bits(value, bits) == read
  }

  /** The encoder at work on the first bytes: fewer than `limit` bits wait for a digit. */
  ghost predicate IsEncodingUnderway(output: string, value: nat, bits: nat, limit: nat, bytes: seq<Byte>) {
    && IsBase32(output) && bits < limit && 5 * |output| + bits == 8 * |bytes|
    && IsUnderway(BitsOf(Values(output), 5), value, bits, BitsOf(bytes, 8))
  }

  method ToBase32(buffer: seq<Byte>) returns (output: string)
    ensures IsEncoding(buffer, output)
  {
    var bits: nat, value: nat := 0, 0;
    output := "";
    ghost var read: seq<Byte> := [];
    for i := 0 to |buffer|
      invariant read == buffer[..i] && IsEncodingUnderway(output, value, bits, 5, read)
    {
      value := TakeByte(BitsOf(Values(output), 5), value, bits, read, buffer[i]);
      read := read + [buffer[i]];
      output, bits := EncodePending(output, value, bits + 8, read);
    }
    assert read == buffer;
    output := EncodeEnd(output, value, bits, read);
  }

  /** The inner loop: a digit for every five bits that wait. */
  method EncodePending(output: string, value: nat, bits: nat, ghost bytes: seq<Byte>)
    returns (output': string, bits': nat)
    requires IsEncodingUnderway(output, value, bits, 13, bytes)
    ensures IsEncodingUnderway(output', value, bits', 5, bytes)
  {
    output', bits' := output, bits;
    while bits' >= 5
      invariant IsEncodingUnderway(output', value, bits', 13, bytes)
    {
      output' := EncodeDigit(output', value, bits' - 5, BitsOf(bytes, 8));
      bits' := bits' - 5;
    }
  }

  method EncodeEnd(output: string, value: nat, bits: nat, ghost bytes: seq<Byte>) returns (output': string)
    requires IsEncodingUnderway(output, value, bits, 5, bytes)
    ensures IsEncoding(bytes, output')
  {
    if bits > 0 {
      output' := EncodeRest(output, value, bits, BitsOf(bytes, 8));
    } else {
      output' := output;
      assert BitsOf(Values(output), 5) + Bits(value, 0) == BitsOf(Values(output), 5);
      assert BitsOf(bytes, 8) + Zeros(0) == BitsOf(bytes, 8);
    }
  }

  /** `value = (value << 8) | byte`. */
  method TakeByte(ghost written: seq<bool>, value: nat, bits: nat, ghost bytes: seq<Byte>, byte: Byte)
    returns (value': nat)
    requires bits < 5 && IsUnderway(written, value, bits, BitsOf(bytes, 8))
    ensures IsUnderway(written, value', bits + 8, BitsOf(bytes + [byte], 8))
  {
    WordIsPow2();
    BitsOfSnoc(bytes, byte, 8);
    ShiftIn(value, bits, byte, 8);
    Assoc(written, Bits(value, bits), Bits(byte, 8));
    value' := (value * 256 + byte) % WORD;
  }

  /** `output += BASE32_ALPHABET[(value << (5 - bits)) & 31]`. */
  method EncodeRest(output: string, value: nat, bits: nat, ghost read: seq<bool>) returns (output': string)
    requires IsBase32(output) && bits < 5 && IsUnderway(BitsOf(Values(output), 5), value, bits, read)
    ensures IsBase32(output') && |output'| == |output| + 1
    ensures BitsOf(Values(output'), 5) == read + Zeros(5 - bits)
  {
    WordIsPow2();
    var shifted := ShiftLeft(value, 5 - bits);
    var d := shifted % WORD % 32;
    ShiftZerosIn(value, bits, 5 - bits);
    BitsOfRemainder(shifted, 5, 32);
    MaskKeepsBits(shifted % WORD, 5);
    ValuesSnoc(output, d);
    BitsOfSnoc(Values(output), d, 5);
    Assoc(BitsOf(Values(output), 5), Bits(value, bits), Zeros(5 - bits));
    output' := output + [DigitChar(d)];
  }

  /** `output += BASE32_ALPHABET[(value >>> rest) & 31]`. */
  method EncodeDigit(output: string, value: nat, rest: nat, ghost read: seq<bool>) returns (output': string)
    requires IsBase32(output) && IsUnderway(BitsOf(Values(output), 5), value, 5 + rest, read)
    ensures IsBase32(output') && |output'| == |output| + 1
    ensures IsUnderway(BitsOf(Values(output'), 5), value, rest, read)
  {
    WordIsPow2();
    var shifted := ShiftRight(value, rest);
    ShiftOut(value, 5, rest);
    MaskKeepsBits(shifted, 5);
    ValuesSnoc(output, shifted % 32);
    BitsOfSnoc(Values(output), shifted % 32, 5);
    Assoc(BitsOf(Values(output), 5), Bits(shifted, 5), Bits(value, rest));
    output' := output + [DigitChar(shifted % 32)];
  }

  /** `output.push((value >>> rest) & 0xff)`. */
  method DecodeByte(output: seq<Byte>, value: nat, rest: nat, ghost read: seq<bool>) returns (output': seq<Byte>)
    requires IsUnderway(BitsOf(output, 8), value, 8 + rest, read)
    ensures |output'| == |output| + 1
    ensures IsUnderway(BitsOf(output', 8), value, rest, read)
  {
    WordIsPow2();
    var shifted := ShiftRight(value, rest);
    ShiftOut(value, 8, rest);
    MaskKeepsBits(shifted, 8);
    BitsOfSnoc(output, shifted % 256, 8);
    Assoc(BitsOf(output, 8), Bits(shifted, 8), Bits(value, rest));
    output' := output + [shifted % 256];
  }

  /** `value = (value << 5) | index`. */
  method TakeDigit(ghost written: seq<bool>, value: nat, bits: nat, ghost digits: seq<nat>, digit: nat)
    returns (value': nat)
    requires bits < 8 && digit < 32 && IsUnderway(written, value, bits, BitsOf(digits, 5))
    ensures IsUnderway(written, value', bits + 5, BitsOf(digits + [digit], 5))
  {
    WordIsPow2();
    BitsOfSnoc(digits, digit, 5);
    ShiftIn(value, bits, digit, 5);
    Assoc(written, Bits(value, bits), Bits(digit, 5));
    value' := (value * 32 + digit) % WORD;
  }

  /** `toUpperCase` on ASCII, then `replace(/=+$/, '')`. */
  function Normalized(input: string): string {
    if input != [] && input[|input| - 1] == '=' then Normalized(input[..|input| - 1])
    else seq(|input|,
             i requires 0 <= i < |input| => if 'a' <= input[i] <= 'z' then (input[i] as int - 32) as char else input[i])
  }

  lemma ValuesNext(text: string, i: nat)
    requires i < |text|
    ensures Values(text[..i + 1]) ==
      if CharDigit(text[i]) == -1 then Values(text[..i]) else Values(text[..i]) + [CharDigit(text[i]) as nat]
  {
    assert text[..i + 1][..i] == text[..i];
  }

  /** The decoder between two characters: fewer than `limit` bits wait for a byte of their own. */
  ghost predicate IsDecodingUnderway(output: seq<Byte>, value: nat, bits: nat, limit: nat, digits: seq<nat>) {
    bits < limit && 8 * |output| + bits == 5 * |digits| && IsUnderway(BitsOf(output, 8), value, bits, BitsOf(digits, 5))
  }

  /** The end of one turn of the decoding loop: at most one byte is complete. */
  method DecodePending(output: seq<Byte>, value: nat, bits: nat, ghost digits: seq<nat>)
    returns (output': seq<Byte>, bits': nat)
    requires IsDecodingUnderway(output, value, bits, 13, digits)
    ensures IsDecodingUnderway(output', value, bits', 8, digits)
  {
    output', bits' := output, bits;
    if bits >= 8 {
      output' := DecodeByte(output, value, bits - 8, BitsOf(digits, 5));
      bits' := bits - 8;
    }
  }

  method FromBase32(input: string) returns (output: seq<Byte>)
    ensures IsDecoding(Values(Normalized(input)), output)
  {
    var normalized := Normalized(input);
    var bits: nat, value: nat := 0, 0;
    output := [];
    ghost var digits: seq<nat> := [];
    for i := 0 to |normalized|
      invariant digits == Values(normalized[..i]) && IsDecodingUnderway(output, value, bits, 8, digits)
    {
      ValuesNext(normalized, i);
      var index := CharDigit(normalized[i]);
      if index != -1 {
        value := TakeDigit(BitsOf(output, 8), value, bits, digits, index);
        digits := digits + [index];
        output, bits := DecodePending(output, value, bits + 5, digits);
      }
    }
    assert normalized[..|normalized|] == normalized;
    assert BitsOf(digits, 5) == BitsOf(output, 8) + Bits(value, bits);
  }

  /** Decoding undoes encoding, for every byte sequence. */
  lemma DecodeEncode(bytes: seq<Byte>, text: string, decoded: seq<Byte>)
    requires IsEncoding(bytes, text) && IsDecoding(Values(Normalized(text)), decoded)
    ensures decoded == bytes
  {
    NormalizedBase32(text);
    ValuesLength(text);
    var rest :| BitsOf(Values(text), 5) == BitsOf(decoded, 8) + rest;
    BitsLength(bytes, 8);
    BitsLength(decoded, 8);
    assert |decoded| == |bytes|;
    assert BitsOf(decoded, 8) == BitsOf(Values(text), 5)[..8 * |bytes|] == BitsOf(bytes, 8);
    WordIsPow2();
    BitsOfInjective(decoded, bytes, 8);
  }

  lemma NormalizedBase32(text: string)
    requires IsBase32(text)
    ensures Normalized(text) == text
  {
  }

  /** The digits hold no more than the bytes need, and the bits left over are zero. */
  ghost predicate IsCanonical(text: string) {
    var left, bits := 5 * |text| % 8, BitsOf(Values(text), 5);
    left < 5 && left <= |bits| && bits[|bits| - left..] == Zeros(left)
  }

  /** The bits a decoding leaves over. */
  lemma LeftOver(text: string, bytes: seq<Byte>) returns (rest: seq<bool>)
    requires IsBase32(text) && IsDecoding(Values(text), bytes)
    ensures BitsOf(Values(text), 5) == BitsOf(bytes, 8) + rest && |rest| == 5 * |text| % 8
    ensures 8 * |bytes| + |rest| == 5 * |text|
    ensures IsCanonical(text) <==> |rest| < 5 && rest == Zeros(|rest|)
  {
    ValuesLength(text);
    BitsLength(bytes, 8);
    BitsLength(Values(text), 5);
    rest :| BitsOf(Values(text), 5) == BitsOf(bytes, 8) + rest;
    SuffixIs(BitsOf(bytes, 8), rest);
    RemainderOf8(5 * |text|, |bytes|, |rest|);
  }

  lemma RemainderOf8(whole: nat, bytes: nat, rest: nat)
    requires whole == 8 * bytes + rest && rest < 8
    ensures rest == whole % 8
  {
  }

  /** Encoding undoes decoding on exactly the canonical texts. */
  lemma EncodeDecode(text: string, bytes: seq<Byte>, encoded: string)
    requires IsBase32(text) && IsDecoding(Values(text), bytes) && IsEncoding(bytes, encoded)
    ensures encoded == text <==> IsCanonical(text)
  {
    var rest := LeftOver(text, bytes);
    if IsCanonical(text) {
      assert |encoded| == |text|;
      ValuesLength(text);
      ValuesLength(encoded);
      WordIsPow2();
      BitsOfInjective(Values(encoded), Values(text), 5);
      ValuesInjective(encoded, text);
    }
    if encoded == text {
      CancelPrefix(BitsOf(bytes, 8), rest, Zeros(5 * |encoded| - 8 * |bytes|));
    }
  }

  lemma SuffixIs<T>(a: seq<T>, b: seq<T>)
    ensures (a + b)[|a + b| - |b|..] == b
  {
  }

  lemma CancelPrefix<T>(a: seq<T>, b: seq<T>, c: seq<T>)
    requires a + b == a + c
    ensures b == c
  {
    assert (a + b)[|a|..] == b && (a + c)[|a|..] == c;
  }
}
