/**
 * The slice of JavaScript's number and string built-ins that the scheduling code leans on:
 * `Number(s)` on decimal strings, `String(n)` on integers, `s.padStart` and `s.split`.
 * A JavaScript number is modelled as an integer or NaN; every comparison involving NaN is false
 * and NaN absorbs arithmetic, as in JavaScript.
 */
module JsText {

  /** A JavaScript number as far as this model needs one: an integer, or NaN. */
  datatype Num = Int(value: int) | NaN

  /** `a < b`; false whenever either side is NaN. */
  predicate Lt(a: Num, b: Num) { a.Int? && b.Int? && a.value < b.value }

  /** `a <= b`; false whenever either side is NaN. */
  predicate Le(a: Num, b: Num) { a.Int? && b.Int? && a.value <= b.value }

  /** `a + b`; NaN if either side is. */
  function Add(a: Num, b: Num): Num {
    if a.Int? && b.Int? then Int(a.value + b.value) else NaN
  }

  /** `a * b`; NaN if either side is. */
  function Mul(a: Num, b: Num): Num {
    if a.Int? && b.Int? then Int(a.value * b.value) else NaN
  }

  predicate IsDigit(c: char) { '0' <= c <= '9' }

  predicate AllDigits(s: string) { forall i :: 0 <= i < |s| ==> IsDigit(s[i]) }

  function DigitValue(c: char): nat
    requires IsDigit(c)
  {
    c as int - '0' as int
  }

  function DigitChar(d: nat): (c: char)
    requires d < 10
    ensures IsDigit(c) && DigitValue(c) == d
  {
    ('0' as int + d) as char
  }

  /** The decimal digits of `n`, most significant first, without leading zeros. */
  function Decimal(n: nat): (s: string)
    ensures |s| >= 1 && AllDigits(s)
    ensures n < 10 ==> |s| == 1
    ensures n < 100 ==> |s| <= 2
    ensures |s| > 1 ==> s[0] != '0'
  {
    if n < 10 then [DigitChar(n)] else Decimal(n / 10) + [DigitChar(n % 10)]
  }

  /** The value of a string of decimal digits, read most significant first; "" is 0. */
  function DigitsValue(s: string): nat
    requires AllDigits(s)
  {
    if s == [] then 0 else DigitsValue(s[..|s| - 1]) * 10 + DigitValue(s[|s| - 1])
  }

  /** A two-digit string is worth ten times its first digit plus its second. */
  lemma TwoDigitValue(s: string)
    requires |s| == 2 && AllDigits(s)
    ensures DigitsValue(s) == DigitValue(s[0]) * 10 + DigitValue(s[1])
  {
    var head := s[..1];
    assert head[..|head| - 1] == [] && head[|head| - 1] == s[0];
    assert DigitsValue(head) == DigitValue(s[0]);
    assert s[..|s| - 1] == head;
  }

  /** Reading back the decimal digits of `n` gives `n`. */
  lemma {:induction false} DecimalRoundTrip(n: nat)
    ensures DigitsValue(Decimal(n)) == n
  {
    if n >= 10 {
      DecimalRoundTrip(n / 10);
      var s := Decimal(n);
      assert s[..|s| - 1] == Decimal(n / 10);
    }
  }

  /** A leading '0' does not change the value of a digit string. */
  lemma {:induction false} LeadingZero(s: string)
    requires AllDigits(s)
    ensures AllDigits(['0'] + s) && DigitsValue(['0'] + s) == DigitsValue(s)
  {
    var z := ['0'] + s;
    if s != [] {
      LeadingZero(s[..|s| - 1]);
      assert z[..|z| - 1] == ['0'] + s[..|s| - 1];
    } else {
      assert z[..|z| - 1] == [];
    }
  }

  /** `n` copies of `c`. */
  function Repeat(c: char, n: nat): (r: string)
    ensures |r| == n && forall i :: 0 <= i < n ==> r[i] == c
  {
    if n == 0 then [] else [c] + Repeat(c, n - 1)
  }

  /** Any number of leading zeros leaves the value of a digit string unchanged. */
  lemma {:induction false} LeadingZeros(k: nat, s: string)
    requires AllDigits(s)
    ensures AllDigits(Repeat('0', k) + s) && DigitsValue(Repeat('0', k) + s) == DigitsValue(s)
  {
    if k > 0 {
      LeadingZeros(k - 1, s);
      var rest := Repeat('0', k - 1) + s;
      LeadingZero(rest);
      assert Repeat('0', k) == ['0'] + Repeat('0', k - 1);
      assert Repeat('0', k) + s == ['0'] + rest;
    } else {
      assert Repeat('0', k) + s == s;
    }
  }

  /** `s.padStart(width, c)`: `s` preceded by as many copies of `c` as it takes to reach `width`. */
  function PadStart(s: string, width: nat, c: char): (r: string)
  {
    if |s| >= width then s else Repeat(c, width - |s|) + s
  }

  /** The shape of `s.padStart(width, c)`: `s` at the end, copies of `c` before it, at least `width` long. */
  lemma PadStartShape(s: string, width: nat, c: char)
    ensures var r := PadStart(s, width, c);
      |r| == (if |s| >= width then |s| else width) &&
      r[|r| - |s|..] == s &&
      forall i :: 0 <= i < |r| - |s| ==> r[i] == c
  {
  }

  /** `Number(s)` restricted to what this model reads: "" is 0, a run of decimal digits is its value, anything else is NaN. */
  function ParseNumber(s: string): (r: Num)
    ensures r.Int? <==> AllDigits(s)
    ensures r.Int? ==> r.value >= 0
  {
    if AllDigits(s) then Int(DigitsValue(s)) else NaN
  }

  /** A zero-padded decimal reads back as the number it was made from. */
  lemma PaddedDecimalRoundTrip(n: nat, width: nat)
    ensures AllDigits(PadStart(Decimal(n), width, '0'))
    ensures ParseNumber(PadStart(Decimal(n), width, '0')) == Int(n)
  {
    var d := Decimal(n);
    DecimalRoundTrip(n);
    if |d| < width {
      LeadingZeros(width - |d|, d);
      assert PadStart(d, width, '0') == Repeat('0', width - |d|) + d;
    } else {
      assert PadStart(d, width, '0') == d;
    }
  }

  /** `String(n)` for an integer `n`. */
  function NumberToString(n: int): (s: string)
    ensures |s| >= 1
    ensures n >= 0 ==> AllDigits(s)
    ensures n < 0 ==> s[0] == '-'
  {
    if n < 0 then "-" + Decimal(-n) else Decimal(n)
  }

  /** Different integers print differently, so ids compared through `String(id)` are compared faithfully. */
  lemma NumberToStringInjective(a: int, b: int)
    requires NumberToString(a) == NumberToString(b)
    ensures a == b
  {
    if a < 0 && b < 0 {
      var sa, sb := NumberToString(a), NumberToString(b);
      assert sa[1..] == Decimal(-a) && sb[1..] == Decimal(-b);
      DecimalRoundTrip(-a);
      DecimalRoundTrip(-b);
    } else if a >= 0 && b >= 0 {
      DecimalRoundTrip(a);
      DecimalRoundTrip(b);
    }
  }

  /** `s.split(sep)`: the pieces of `s` between occurrences of `sep`; a string without `sep` is one piece. */
  function Split(s: string, sep: char): (parts: seq<string>)
    ensures |parts| >= 1
    ensures forall i :: 0 <= i < |parts| ==> sep !in parts[i]
  {
    if s == [] then [""]
    else
      var rest := Split(s[1..], sep);
      if s[0] == sep then [""] + rest else [[s[0]] + rest[0]] + rest[1..]
  }

  /** `parts.join(sep)`. */
  function Join(parts: seq<string>, sep: char): string
    requires |parts| >= 1
  {
    if |parts| == 1 then parts[0] else parts[0] + [sep] + Join(parts[1..], sep)
  }

  /** Splitting and joining back on the same separator gives the original string. */
  lemma {:induction false} SplitJoin(s: string, sep: char)
    ensures Join(Split(s, sep), sep) == s
  {
    if s != [] {
      SplitJoin(s[1..], sep);
      var rest := Split(s[1..], sep);
      if s[0] == sep {
        assert ([""] + rest)[1..] == rest;
      } else {
        var parts := [[s[0]] + rest[0]] + rest[1..];
        if |rest| == 1 {
          assert parts == [[s[0]] + rest[0]];
        } else {
          assert parts[1..] == rest[1..];
          assert Join(rest, sep) == rest[0] + [sep] + Join(rest[1..], sep);
        }
      }
    }
  }

  /** A piece without the separator, followed by more text, stays at the head of the first piece. */
  lemma {:induction false} SplitPrefix(a: string, t: string, sep: char)
    requires sep !in a
    ensures Split(a + t, sep) == [a + Split(t, sep)[0]] + Split(t, sep)[1..]
  {
    if a != [] {
      SplitPrefix(a[1..], t, sep);
      var st := Split(t, sep);
      var rest := Split(a[1..] + t, sep);
      assert (a + t)[1..] == a[1..] + t;
      assert (a + t)[0] == a[0] && a[0] != sep;
      assert Split(a + t, sep) == [[a[0]] + rest[0]] + rest[1..];
      assert rest[0] == a[1..] + st[0] && rest[1..] == st[1..];
      assert [a[0]] + (a[1..] + st[0]) == a + st[0];
    } else {
      var parts := Split(t, sep);
      assert a + t == t;
      assert a + parts[0] == parts[0];
      assert [parts[0]] + parts[1..] == parts;
    }
  }

  /** Two separator-free pieces joined by one separator split back into exactly those two pieces. */
  lemma SplitTwo(a: string, b: string, sep: char)
    requires sep !in a && sep !in b
    ensures Split(a + [sep] + b, sep) == [a, b]
  {
    SplitPrefix(b, [], sep);
    assert b + [] == b;
    var sb := Split(b, sep);
    assert sb == [b + ""] + [];
    assert sb == [b];
    var t := [sep] + b;
    assert t[0] == sep && t[1..] == b;
    var st := Split(t, sep);
    assert st == [""] + sb;
    SplitPrefix(a, t, sep);
    assert a + [sep] + b == a + t;
    assert st[0] == "" && st[1..] == [b];
    assert a + "" == a;
  }
}
