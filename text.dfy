/**
 * Python built-ins shared by the quiz handlers: `str(int)`, `int(str)`,
 * `str.strip()`, `sep.join(xs)`, `s.split(sep)`, the callback-data decoding
 * `int(data.split(sep)[1])` used by every inline-keyboard handler, and
 * `round(n / d)` for integers `n` and `d`.
 *
 * Digits and whitespace are the ASCII ones; Python also accepts other Unicode
 * digits and spaces, and `_` between digits, which this model does not.
 */
module Text {
  import opened Wrappers

  predicate IsDigit(c: char) { '0' <= c <= '9' }

  predicate AllDigits(s: string) { forall k :: 0 <= k < |s| ==> IsDigit(s[k]) }

  predicate NoDigits(s: string) { forall k :: 0 <= k < |s| ==> !IsDigit(s[k]) }

  /**
   * The ASCII characters Python's `str.strip()` removes: the space, `\t`,
   * `\n`, `\v`, `\f`, `\r` (9 to 13), and the separators `\x1c` to `\x1f`.
   */
  predicate IsSpace(c: char)
  {
    c == ' ' || '\t' <= c <= '\r' || '\U{1C}' <= c <= '\U{1F}'
  }

  predicate AllSpace(s: string) { forall k :: 0 <= k < |s| ==> IsSpace(s[k]) }

  function DigitChar(d: nat): (c: char)
    requires d < 10
    ensures IsDigit(c)
  {
    (('0' as int) + d) as char
  }

  function DigitValue(c: char): (d: nat)
    requires IsDigit(c)
    ensures d < 10 && DigitChar(d) == c
  {
    (c as int) - ('0' as int)
  }

  /** Decimal digits of `n`, most significant first, without leading zeros. */
  function NatToString(n: nat): (s: string)
    ensures |s| >= 1 && AllDigits(s)
    ensures s[0] == '0' ==> n == 0
    decreases n
  {
    if n < 10 then [DigitChar(n)] else NatToString(n / 10) + [DigitChar(n % 10)]
  }

  /** Python's `str(i)` for an `int`. */
  function IntToString(i: int): (s: string)
    ensures |s| >= 1
    ensures forall k :: 0 <= k < |s| ==> IsDigit(s[k]) || (k == 0 && s[k] == '-')
  {
    if i < 0 then "-" + NatToString(-i) else NatToString(i)
  }

  /** The value of a run of decimal digits (leading zeros allowed). */
  function DigitsValue(s: string): nat
    requires AllDigits(s)
  {
    if s == [] then 0 else DigitsValue(s[..|s| - 1]) * 10 + DigitValue(s[|s| - 1])
  }

  lemma {:induction false} DigitsValueOfNatToString(n: nat)
    ensures DigitsValue(NatToString(n)) == n
    decreases n
  {
    if n >= 10 {
      var s := NatToString(n / 10);
      DigitsValueOfNatToString(n / 10);
      assert (s + [DigitChar(n % 10)])[..|s|] == s;
    }
  }

  function StripLeft(s: string): (r: string)
    ensures |r| <= |s|
  {
    if s != [] && IsSpace(s[0]) then StripLeft(s[1..]) else s
  }

  function StripRight(s: string): (r: string)
    ensures |r| <= |s|
  {
    if s != [] && IsSpace(s[|s| - 1]) then StripRight(s[..|s| - 1]) else s
  }

  /** Python's `s.strip()`: leading and trailing whitespace removed. */
  function Strip(s: string): (r: string)
  {
    StripRight(StripLeft(s))
  }

  lemma {:induction false} StripKeepsInner(s: string)
    ensures Strip(s) == s <==> (s == [] || (!IsSpace(s[0]) && !IsSpace(s[|s| - 1])))
  {
    if s != [] && !IsSpace(s[0]) {
      assert StripLeft(s) == s;
      if IsSpace(s[|s| - 1]) {
        assert |StripRight(s[..|s| - 1])| < |s|;
      }
    } else if s != [] {
      assert |StripLeft(s[1..])| < |s|;
    }
  }

  /** Python's `int(s)` for a `str`: optional surrounding whitespace, an optional sign, digits. */
  function ParseInt(s: string): (r: Option<int>)
  {
    var t := Strip(s);
    if |t| >= 2 && (t[0] == '-' || t[0] == '+') && AllDigits(t[1..]) then
      var v: int := DigitsValue(t[1..]);
      Some(if t[0] == '-' then -v else v)
    else if |t| >= 1 && AllDigits(t) then
      Some(DigitsValue(t))
    else
      None
  }

  /** `int(str(i)) == i`: the decimal rendering of an integer parses back to it. */
  lemma ParseIntToString(i: int)
    ensures ParseInt(IntToString(i)) == Some(i)
  {
    if i < 0 {
      ParseNegative(NatToString(-i));
      DigitsValueOfNatToString(-i);
    } else {
      ParseDigits(NatToString(i));
      DigitsValueOfNatToString(i);
    }
  }

  /** `int()` of a non-empty digit string is its value. */
  lemma ParseDigits(d: string)
    requires |d| >= 1 && AllDigits(d)
    ensures ParseInt(d) == Some(DigitsValue(d) as int)
  {
    StripKeepsInner(d);
    assert IsDigit(d[0]) && IsDigit(d[|d| - 1]);
  }

  /** `int()` of a minus sign and a non-empty digit string is minus its value. */
  lemma ParseNegative(d: string)
    requires |d| >= 1 && AllDigits(d)
    ensures ParseInt("-" + d) == Some(-(DigitsValue(d) as int))
  {
    var s := "-" + d;
    StripKeepsInner(s);
    assert IsDigit(s[|s| - 1]) && s[1..] == d;
  }

  /** Distinct integers render as distinct strings. */
  lemma IntToStringInjective(i: int, j: int)
    ensures IntToString(i) == IntToString(j) <==> i == j
  {
    ParseIntToString(i);
    ParseIntToString(j);
  }

  /** A string without any digit is not a Python integer literal. */
  lemma ParseIntNeedsDigit(s: string)
    requires NoDigits(s)
    ensures ParseInt(s) == None
  {
    StripSubstring(s);
  }

  lemma {:induction false} StripLeftStart(s: string)
    ensures StripLeft(s) == [] || !IsSpace(StripLeft(s)[0])
  {
    if s != [] && IsSpace(s[0]) {
      StripLeftStart(s[1..]);
    }
  }

  lemma {:induction false} StripRightEnd(s: string)
    ensures StripRight(s) == [] || !IsSpace(StripRight(s)[|StripRight(s)| - 1])
  {
    if s != [] && IsSpace(s[|s| - 1]) {
      StripRightEnd(s[..|s| - 1]);
    }
  }

  /** Stripping twice is stripping once. */
  lemma StripIdempotent(s: string)
    ensures Strip(Strip(s)) == Strip(s)
  {
    var u := StripLeft(s);
    StripLeftStart(s);
    StripRightEnd(u);
    StripRightPrefix(u);
    StripKeepsInner(Strip(s));
  }

  /** Every character of `Strip(s)` is a character of `s`. */
  lemma {:induction false} StripSubstring(s: string)
    ensures forall k :: 0 <= k < |Strip(s)| ==> Strip(s)[k] in s
  {
    StripLeftSuffix(s);
    StripRightPrefix(StripLeft(s));
  }

  lemma {:induction false} StripLeftSuffix(s: string)
    ensures StripLeft(s) == s[|s| - |StripLeft(s)|..]
  {
    if s != [] && IsSpace(s[0]) {
      StripLeftSuffix(s[1..]);
    }
  }

  lemma {:induction false} StripRightPrefix(s: string)
    ensures StripRight(s) == s[..|StripRight(s)|]
  {
    if s != [] && IsSpace(s[|s| - 1]) {
      StripRightPrefix(s[..|s| - 1]);
    }
  }

  /** `list(map(str, xs))` */
  function MapToString(xs: seq<int>): (ss: seq<string>)
    ensures |ss| == |xs| && forall k :: 0 <= k < |xs| ==> ss[k] == IntToString(xs[k])
  {
    if xs == [] then [] else [IntToString(xs[0])] + MapToString(xs[1..])
  }

  /** Python's `xs.index(x)`: the first position holding `x`. */
  function IndexOf<T(==)>(xs: seq<T>, x: T): (i: nat)
    requires x in xs
    ensures i < |xs| && xs[i] == x
    ensures forall j :: 0 <= j < i ==> xs[j] != x
  {
    if xs[0] == x then 0 else 1 + IndexOf(xs[1..], x)
  }

  /** A rendered integer is one line: it holds no newline. */
  lemma NoNewlineInNumber(i: int)
    ensures '\n' !in IntToString(i)
  {
  }

  /** Python's `sep.join(xs)`. */
  function Join(sep: string, xs: seq<string>): string
  {
    if xs == [] then "" else if |xs| == 1 then xs[0] else xs[0] + sep + Join(sep, xs[1..])
  }

  /** Python's `s.split(c)` for a one-character separator. */
  function Split(s: string, c: char): (parts: seq<string>)
    ensures |parts| >= 1
    decreases |s|
  {
    if s == [] then [""]
    else if s[0] == c then [""] + Split(s[1..], c)
    else
      var rest := Split(s[1..], c);
      [[s[0]] + rest[0]] + rest[1..]
  }

  lemma {:induction false} SplitNoSep(a: string, c: char)
    requires c !in a
    ensures Split(a, c) == [a]
    decreases |a|
  {
    if a != [] {
      SplitNoSep(a[1..], c);
      assert [a[0]] + a[1..] == a;
    }
  }

  lemma {:induction false} SplitAtFirst(a: string, c: char, b: string)
    requires c !in a
    ensures Split(a + [c] + b, c) == [a] + Split(b, c)
    decreases |a|
  {
    if a == [] {
      assert a + [c] + b == [c] + b;
      assert ([c] + b)[1..] == b;
    } else {
      var s := a + [c] + b;
      assert s[0] == a[0] && s[1..] == a[1..] + [c] + b;
      SplitAtFirst(a[1..], c, b);
      assert [a[0]] + a[1..] == a;
    }
  }

  /** Splitting a join at its separator gives back the pieces (`s.join(xs).split(s) == xs`). */
  lemma {:induction false} SplitJoin(xs: seq<string>, c: char)
    requires |xs| >= 1
    requires forall k :: 0 <= k < |xs| ==> c !in xs[k]
    ensures Split(Join([c], xs), c) == xs
    decreases |xs|
  {
    if |xs| == 1 {
      SplitNoSep(xs[0], c);
    } else {
      SplitJoin(xs[1..], c);
      SplitAtFirst(xs[0], c, Join([c], xs[1..]));
      assert [xs[0]] + xs[1..] == xs;
    }
  }

  /** Python's `s.split(sep, 1)[1]`: the text after the first `sep`, or none (an IndexError). */
  function AfterFirst(s: string, sep: char): (r: Option<string>)
    ensures r.None? <==> sep !in s
    ensures r.Some? ==> |r.value| < |s| && s[|s| - |r.value| - 1] == sep
    ensures r.Some? ==> sep !in s[..|s| - |r.value| - 1]
  {
    if s == [] then None
    else if s[0] == sep then Some(s[1..])
    else AfterFirst(s[1..], sep)
  }

  /** Python's `s.split(sep)[1]`: the field after the first `sep`, or none (an IndexError). */
  function SecondField(s: string, sep: char): (r: Option<string>)
  {
    var parts := Split(s, sep);
    if |parts| >= 2 then Some(parts[1]) else None
  }

  /**
   * `try: chosen = int(field) except Exception: chosen = -1`: the index a
   * button press carries, -1 when the field is missing or not an integer.
   */
  function ChosenIndex(field: Option<string>): (chosen: int)
    ensures field.None? ==> chosen == -1
    ensures field.Some? && ParseInt(field.value).None? ==> chosen == -1
    ensures field.Some? && ParseInt(field.value).Some? ==> chosen == ParseInt(field.value).value
  {
    match field
    case None => -1
    case Some(t) => ParseInt(t).GetOr(-1)
  }

  /** A button encoded as `f"{prefix}{sep}{i}"` decodes, via `split(sep, 1)[1]`, to `i`. */
  lemma AfterFirstRoundTrip(prefix: string, sep: char, i: int)
    requires sep !in prefix
    ensures ChosenIndex(AfterFirst(prefix + [sep] + IntToString(i), sep)) == i
  {
    AfterFirstOf(prefix, sep, IntToString(i));
    ParseIntToString(i);
  }

  lemma {:induction false} AfterFirstOf(a: string, sep: char, b: string)
    requires sep !in a
    ensures AfterFirst(a + [sep] + b, sep) == Some(b)
    decreases |a|
  {
    if a == [] {
      assert (a + [sep] + b)[1..] == b;
    } else {
      assert (a + [sep] + b)[1..] == a[1..] + [sep] + b;
      AfterFirstOf(a[1..], sep, b);
    }
  }

  /** A button encoded as `f"{prefix}{sep}{i}"` decodes, via `split(sep)[1]`, to `i`. */
  lemma SecondFieldRoundTrip(prefix: string, sep: char, i: int)
    requires sep !in prefix && !IsDigit(sep) && sep != '-'
    ensures ChosenIndex(SecondField(prefix + [sep] + IntToString(i), sep)) == i
  {
    var s := IntToString(i);
    assert sep !in s;
    SplitAtFirst(prefix, sep, s);
    SplitNoSep(s, sep);
    ParseIntToString(i);
  }

  /**
   * Python's `round(n / d)` for integers: the nearest integer to the exact
   * quotient, ties to the even one. (For the small operands used here the
   * float quotient is never on the other side of a half from the exact one,
   * and a tie `k + 1/2` is exact in binary.)
   */
  function RoundHalfEven(n: int, d: int): (r: int)
    requires d > 0
    ensures -d <= 2 * (n - r * d) <= d
    ensures 2 * (n - r * d) == d || 2 * (n - r * d) == -d ==> r % 2 == 0
  {
    var q, m := n / d, n % d;
    assert n - q * d == m;
    assert n - (q + 1) * d == m - d;
    if 2 * m < d then q
    else if 2 * m > d then q + 1
    else if q % 2 == 0 then q
    else q + 1
  }

  /** The contract of `RoundHalfEven` has one solution: it is the nearest integer, ties to even. */
  lemma RoundHalfEvenUnique(n: int, d: int, r: int)
    requires d > 0
    requires -d <= 2 * (n - r * d) <= d
    requires 2 * (n - r * d) == d || 2 * (n - r * d) == -d ==> r % 2 == 0
    ensures r == RoundHalfEven(n, d)
  {
    var e := RoundHalfEven(n, d);
    ScaleDifference(n, d, r, e);
    ScaleCases(d, e - r);
  }

  /** Where `d * k` lies, for `d > 0`, by the size of `k`. */
  lemma ScaleCases(d: int, k: int)
    requires d > 0
    ensures k >= 2 ==> d * k >= 2 * d
    ensures k <= -2 ==> d * k <= -2 * d
    ensures k == 1 ==> d * k == d
    ensures k == -1 ==> d * k == -d
    ensures k == 0 ==> d * k == 0
  {
    if k >= 2 {
      ScaleAtLeast(d, k, 2);
    } else if k <= -2 {
      ScaleAtLeast(d, -k, 2);
      assert d * -k == -(d * k);
    }
  }

  /** Moving the multiple from `r` to `e` moves the remainder by `d` per unit. */
  lemma ScaleDifference(n: int, d: int, r: int, e: int)
    ensures (n - r * d) - (n - e * d) == d * (e - r)
  {
    calc {
      (n - r * d) - (n - e * d);
    ==
      e * d - r * d;
    ==
      d * (e - r);
    }
  }

  lemma ScaleAtLeast(d: int, k: int, m: int)
    requires d > 0 && k >= m
    ensures d * k >= d * m
  {
  }
}
