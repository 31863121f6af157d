/** Strings as the source uses them: decimal numerals, prefixes, and cutting a sequence into chunks. */
module Text {
  import opened Wrappers

  /** `/\s/`. */
  predicate IsSpace(c: char) {
    var n := c as int;
    || 9 <= n <= 13 || n == 32 || n == 0xA0 || n == 0x1680 || 0x2000 <= n <= 0x200A
    || n == 0x2028 || n == 0x2029 || n == 0x202F || n == 0x205F || n == 0x3000 || n == 0xFEFF
  }

  const DIGITS := "0123456789"

  predicate IsDigit(c: char) {
    '0' <= c <= '9'
  }

  function DigitValue(c: char): (v: nat)
    requires IsDigit(c)
    ensures v < 10 && DIGITS[v] == c
  {
    c as int - '0' as int
  }

  /** The decimal numeral of a natural number: `String(n)`, and `n` inside `JSON.stringify`. */
  function Numeral(n: nat): (s: string)
    ensures s != [] && forall i :: 0 <= i < |s| ==> IsDigit(s[i])
  {
    if n < 10 then [DIGITS[n]] else Numeral(n / 10) + [DIGITS[n % 10]]
  }

  /** The number a run of digits stands for. */
  function NumeralValue(s: string): nat
    requires forall i :: 0 <= i < |s| ==> IsDigit(s[i])
  {
    if s == [] then 0 else 10 * NumeralValue(s[..|s| - 1]) + DigitValue(s[|s| - 1])
  }

  lemma {:induction false} NumeralRoundTrip(n: nat)
    ensures NumeralValue(Numeral(n)) == n
  {
    if n >= 10 {
      NumeralRoundTrip(n / 10);
      assert Numeral(n)[..|Numeral(n)| - 1] == Numeral(n / 10);
    }
  }

  lemma NumeralInjective(m: nat, n: nat)
    requires Numeral(m) == Numeral(n)
    ensures m == n
  {
    NumeralRoundTrip(m);
    NumeralRoundTrip(n);
  }

  /** `String(n)` for an integer. */
  function ShowInt(n: int): string {
    if n < 0 then ['-'] + Numeral(-n) else Numeral(n)
  }

  lemma ShowIntSign(n: int)
    ensures n < 0 <==> ShowInt(n)[0] == '-'
    ensures n < 0 ==> ShowInt(n)[1..] == Numeral(-n)
  {
    if n >= 0 {
      assert IsDigit(Numeral(n)[0]);
    }
  }

  lemma ShowIntInjective(m: int, n: int)
    requires ShowInt(m) == ShowInt(n)
    ensures m == n
  {
    ShowIntSign(m);
    ShowIntSign(n);
    if m < 0 {
      NumeralInjective(-m, -n);
    } else {
      NumeralInjective(m, n);
    }
  }

  predicate IsPrefix<T(==)>(p: seq<T>, s: seq<T>) {
    |p| <= |s| && s[..|p|] == p
  }

  function StripPrefix(p: string, s: string): Option<string> {
    if IsPrefix(p, s) then Some(s[|p|..]) else None
  }

  lemma StripOwnPrefix(p: string, s: string)
    ensures StripPrefix(p, p + s) == Some(s)
  {
    assert (p + s)[..|p|] == p && (p + s)[|p|..] == s;
  }

  lemma PrefixTransitive(p: string, q: string, s: string)
    requires IsPrefix(p, q)
    ensures IsPrefix(q, s) ==> IsPrefix(p, s)
  {
    if IsPrefix(q, s) {
      assert s[..|p|] == s[..|q|][..|p|];
    }
  }

  /** Length of the longest prefix of `s` whose characters all satisfy `f`. */
  function Span(f: char -> bool, s: string): (n: nat)
    ensures n <= |s| && (forall i :: 0 <= i < n ==> f(s[i])) && (n < |s| ==> !f(s[n]))
  {
    if s == [] || !f(s[0]) then 0 else 1 + Span(f, s[1..])
  }

  lemma SpanStops(f: char -> bool, a: string, b: string)
    requires forall i :: 0 <= i < |a| ==> f(a[i])
    requires b == [] || !f(b[0])
    ensures Span(f, a + b) == |a|
  {
    assert forall i :: 0 <= i < |a| ==> (a + b)[i] == a[i];
    if b != [] {
      assert (a + b)[|a|] == b[0];
    }
  }

  /** `text.indexOf(c)`: the first position of `c`, or -1. */
  function IndexOf(text: string, c: char): (i: int)
    ensures -1 <= i < |text|
    ensures i == -1 ==> c !in text
    ensures i >= 0 ==> text[i] == c && c !in text[..i]
  {
    var n := Span(x => x != c, text);
    if n == |text| then -1 else n
  }

  function Concat<T>(parts: seq<seq<T>>): seq<T> {
    if parts == [] then [] else parts[0] + Concat(parts[1..])
  }

  lemma {:induction false} ConcatAppend<T>(a: seq<seq<T>>, b: seq<seq<T>>)
    ensures Concat(a + b) == Concat(a) + Concat(b)
  {
    if a == [] {
      assert a + b == b;
    } else {
      ConcatAppend(a[1..], b);
      assert (a + b)[0] == a[0] && (a + b)[1..] == a[1..] + b;
      calc {
        Concat(a + b);
        a[0] + (Concat(a[1..]) + Concat(b));
        (a[0] + Concat(a[1..])) + Concat(b);
      }
    }
  }

  lemma ConcatOne<T>(part: seq<T>)
    ensures Concat([part]) == part
  {
    assert [part][1..] == [];
  }

  lemma ConcatSnoc<T>(a: seq<seq<T>>, last: seq<T>)
    ensures Concat(a + [last]) == Concat(a) + last
  {
    ConcatAppend(a, [last]);
    assert [last][1..] == [];
  }

  /** `s` cut after every `size` elements; only the last piece may be shorter. */
  function Chunks<T>(s: seq<T>, size: nat): seq<seq<T>>
    requires size > 0
    decreases |s|
  {
    if s == [] then []
    else if |s| <= size then [s]
    else [s[..size]] + Chunks(s[size..], size)
  }

  /** What a partition into pieces of `size` is, without saying how it is computed. */
  ghost predicate IsPartition<T>(parts: seq<seq<T>>, s: seq<T>, size: nat) {
    && Concat(parts) == s
    && (forall i :: 0 <= i < |parts| ==> 0 < |parts[i]| <= size)
    && (forall i :: 0 <= i < |parts| - 1 ==> |parts[i]| == size)
  }

  lemma PartitionCons<T>(part: seq<T>, rest: seq<seq<T>>, s: seq<T>, size: nat)
    requires size > 0 && |part| == size && rest != [] && IsPartition(rest, s, size)
    ensures IsPartition([part] + rest, part + s, size)
  {
    assert ([part] + rest)[1..] == rest;
  }

  lemma {:induction false} ChunksPartition<T>(s: seq<T>, size: nat)
    requires size > 0
    ensures IsPartition(Chunks(s, size), s, size)
    decreases |s|
  {
    if |s| > size {
      ChunksPartition(s[size..], size);
      PartitionCons(s[..size], Chunks(s[size..], size), s[size..], size);
      assert s == s[..size] + s[size..];
    } else if s != [] {
      assert [s][1..] == [];
    }
  }

  /** A partition is determined by the bytes and the size alone. */
  lemma {:induction false} PartitionUnique<T>(parts: seq<seq<T>>, s: seq<T>, size: nat)
    requires size > 0 && IsPartition(parts, s, size)
    ensures parts == Chunks(s, size)
    decreases |parts|
  {
    if parts != [] {
      var rest := parts[1..];
      assert s == parts[0] + Concat(rest);
      if rest == [] {
        assert s == parts[0] && parts == [s];
      } else {
        assert Concat(rest) == rest[0] + Concat(rest[1..]);
        assert |parts[0]| == size;
        assert s[..size] == parts[0] && s[size..] == Concat(rest);
        forall i | 0 <= i < |rest|
          ensures 0 < |rest[i]| <= size && (i < |rest| - 1 ==> |rest[i]| == size)
        {
          assert rest[i] == parts[i + 1];
        }
        PartitionUnique(rest, s[size..], size);
      }
    }
  }
}
