/** Text helpers shared by the token and location models: the Java string
    operations the source relies on (`indexOf` of a newline, `substring` up to
    it, `StringBuilder` concatenation, decimal rendering of an `int`), each
    with a contract that characterises its result. `LastIndexOf` and
    `ParseDecimal` have no counterpart in the source: they read the location
    renderings back so that round-trip lemmas can be stated. */
module Strings {

  datatype Option<T> = None | Some(value: T)

  /** Concatenation of `parts` in order, as successive `StringBuilder.append` calls build it. */
  function Concat(parts: seq<string>): string
  {
    if |parts| == 0 then "" else Concat(parts[..|parts| - 1]) + parts[|parts| - 1]
  }

  lemma {:induction false} ConcatAppend(a: seq<string>, b: seq<string>)
    ensures Concat(a + b) == Concat(a) + Concat(b)
    decreases |b|
  {
    if |b| == 0 {
      assert a + b == a;
    } else {
      assert (a + b)[..|a + b| - 1] == a + b[..|b| - 1];
      ConcatAppend(a, b[..|b| - 1]);
    }
  }

  /** A character that occurs in no part does not occur in their concatenation. */
  lemma {:induction false} ConcatAvoids(parts: seq<string>, c: char)
    requires forall i | 0 <= i < |parts| :: c !in parts[i]
    ensures c !in Concat(parts)
    decreases |parts|
  {
    if |parts| > 0 {
      ConcatAvoids(parts[..|parts| - 1], c);
    }
  }

  /** Java's `String.indexOf` for a single character: the first position of `c`, or -1. */
  function IndexOf(s: string, c: char): (k: int)
    ensures -1 <= k < |s|
    ensures k == -1 <==> c !in s
    ensures k >= 0 ==> s[k] == c && c !in s[..k]
  {
    if |s| == 0 then -1
    else if s[0] == c then 0
    else
      var k := IndexOf(s[1..], c);
      if k == -1 then -1
      else
        assert s[..k + 1] == [s[0]] + s[1..][..k];
        k + 1
  }

  /** The first `c` in `a + [c] + b` is the one between them when `a` holds none. */
  lemma IndexOfSeparator(a: string, c: char, b: string)
    requires c !in a
    ensures IndexOf(a + [c] + b, c) == |a|
  {
    var s := a + [c] + b;
    var k := IndexOf(s, c);
    assert s[|a|] == c;
    assert s[..|a|] == a;
    if k != |a| {
      assert false;
    }
  }

  /** Java's `String.lastIndexOf` for a single character: the last position of `c`, or -1. */
  function LastIndexOf(s: string, c: char): (k: int)
    ensures -1 <= k < |s|
    ensures k == -1 <==> c !in s
    ensures k >= 0 ==> s[k] == c && c !in s[k + 1..]
  {
    if |s| == 0 then -1
    else if s[|s| - 1] == c then |s| - 1
    else
      var t := s[..|s| - 1];
      var k := LastIndexOf(t, c);
      assert s == t + [s[|s| - 1]];
      k
  }

  /** The last `c` in `a + [c] + b` is the one between them when `b` holds none. */
  lemma LastIndexOfSeparator(a: string, c: char, b: string)
    requires c !in b
    ensures LastIndexOf(a + [c] + b, c) == |a|
  {
    var s := a + [c] + b;
    var k := LastIndexOf(s, c);
    assert s[|a|] == c;
    if k != |a| {
      assert false;
    }
  }

  /** The text of `s` before its first newline, or all of `s` when it has none. */
  function FirstLine(s: string): (r: string)
    ensures '\n' !in r
    ensures r <= s
    ensures |r| < |s| ==> s[|r|] == '\n'
  {
    var k := IndexOf(s, '\n');
    if k < 0 then s else s[..k]
  }

  /** The three facts in `FirstLine`'s contract determine its result. */
  lemma FirstLineUnique(s: string, r: string)
    requires '\n' !in r && r <= s
    requires |r| < |s| ==> s[|r|] == '\n'
    ensures r == FirstLine(s)
  {
    var f := FirstLine(s);
    if |r| != |f| {
      assert false;
    }
  }

  /** Appending after a newline-free prefix: the first line continues into the suffix. */
  lemma FirstLineAfterPlain(a: string, b: string)
    requires '\n' !in a
    ensures FirstLine(a + b) == a + FirstLine(b)
  {
    var r := a + FirstLine(b);
    assert FirstLine(b) <= b;
    assert r <= a + b;
    if |r| < |a + b| {
      assert (a + b)[|r|] == b[|FirstLine(b)|];
    }
    FirstLineUnique(a + b, r);
  }

  /** Appending after text that holds a newline does not change the first line. */
  lemma FirstLineBeforeNewline(a: string, b: string)
    requires '\n' in a
    ensures FirstLine(a + b) == FirstLine(a)
  {
    var r := FirstLine(a);
    assert |r| < |a|;
    assert r <= a + b;
    FirstLineUnique(a + b, r);
  }

  predicate IsDigit(c: char)
  {
    '0' <= c <= '9'
  }

  predicate AllDigits(s: string)
  {
    forall i | 0 <= i < |s| :: IsDigit(s[i])
  }

  function DigitChar(d: nat): (c: char)
    requires d < 10
    ensures IsDigit(c)
  {
    (d + '0' as int) as char
  }

  function DigitValue(c: char): (d: nat)
    requires IsDigit(c)
    ensures d < 10
  {
    (c as int) - ('0' as int)
  }

  /** The decimal digits of `n`, most significant first, with no leading zero. */
  function Digits(n: nat): (r: string)
    ensures |r| > 0 && AllDigits(r)
    ensures |r| > 1 ==> r[0] != '0'
    decreases n
  {
    if n < 10 then [DigitChar(n)] else Digits(n / 10) + [DigitChar(n % 10)]
  }

  /** The number a string of decimal digits denotes. */
  function DigitsValue(s: string): nat
    requires AllDigits(s)
  {
    if |s| == 0 then 0 else DigitsValue(s[..|s| - 1]) * 10 + DigitValue(s[|s| - 1])
  }

  lemma {:induction false} DigitsRoundTrip(n: nat)
    ensures DigitsValue(Digits(n)) == n
    decreases n
  {
    if n >= 10 {
      var r := Digits(n);
      assert r[..|r| - 1] == Digits(n / 10);
      DigitsRoundTrip(n / 10);
    }
  }

  /** Java's `Integer.toString` (what `"..." + n` appends for an `int`). */
  function Decimal(n: int): (r: string)
    ensures |r| > 0
    ensures n >= 0 ==> AllDigits(r)
    ensures n < 0 ==> r[0] == '-' && AllDigits(r[1..])
  {
    if n < 0 then "-" + Digits(-n) else Digits(n)
  }

  /** Reads back a rendering of `Decimal`: an optional minus sign and at least one digit. */
  function ParseDecimal(s: string): Option<int>
  {
    if |s| > 1 && s[0] == '-' && AllDigits(s[1..]) then Some(0 - DigitsValue(s[1..]))
    else if |s| > 0 && AllDigits(s) then Some(DigitsValue(s))
    else None
  }

  lemma DecimalRoundTrip(n: int)
    ensures ParseDecimal(Decimal(n)) == Some(n)
  {
    if n < 0 {
      assert Decimal(n)[1..] == Digits(-n);
      DigitsRoundTrip(-n);
    } else {
      DigitsRoundTrip(n);
    }
  }

  /** A decimal rendering holds no separator or line break. */
  lemma DecimalPlain(n: int)
    ensures ':' !in Decimal(n) && '\n' !in Decimal(n) && ' ' !in Decimal(n)
  {
    var r := Decimal(n);
    forall i | 0 <= i < |r|
      ensures r[i] != ':' && r[i] != '\n' && r[i] != ' '
    {
      if n < 0 && i > 0 {
        assert r[i] == r[1..][i - 1];
      }
    }
  }
}
