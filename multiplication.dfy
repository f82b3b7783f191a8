/**
 * The multiplication-table mode of multiplication.py: the text of a message
 * has its Arabic-Indic digits turned into ASCII digits and is stripped; a
 * product such as `7x7` or `٧×٩` is answered with its value, otherwise the
 * first integer in the text gets its ten-line table. The mode is the
 * `awaiting_multiplication_number` flag of `user_data`.
 *
 * The regular expressions are written out as scanners over ASCII digits and
 * ASCII whitespace.
 */
module Multiplication {
  import opened Wrappers
  import opened Text

  // ---------------------------------------------------------------------------
  // normalize_digits
  // ---------------------------------------------------------------------------

  /** One of ٠١٢٣٤٥٦٧٨٩ (U+0660 to U+0669). */
  predicate IsArabicDigit(c: char)
  {
    '\U{0660}' <= c <= '\U{0669}'
  }

  /** The `ARABIC_DIGITS` translation of one character. */
  function TranslateChar(c: char): (d: char)
    ensures IsArabicDigit(c) ==> IsDigit(d) && DigitValue(d) == c as int - 0x660
    ensures !IsArabicDigit(c) ==> d == c
  {
    if IsArabicDigit(c) then DigitChar(c as int - 0x660) else c
  }

  /** `(text or "").translate(ARABIC_DIGITS)`; `None` stands for a message without text. */
  function NormalizeDigits(text: Option<string>): (r: string)
    ensures text.None? ==> r == ""
    ensures text.Some? ==> |r| == |text.value|
    ensures text.Some? ==> forall k :: 0 <= k < |r| ==> r[k] == TranslateChar(text.value[k])
    ensures forall k :: 0 <= k < |r| ==> !IsArabicDigit(r[k])
  {
    if text.None? then "" else Translate(text.value)
  }

  function Translate(s: string): (r: string)
    ensures |r| == |s| && forall k :: 0 <= k < |s| ==> r[k] == TranslateChar(s[k])
  {
    if s == [] then [] else [TranslateChar(s[0])] + Translate(s[1..])
  }

  /** Normalising twice is normalising once. */
  lemma NormalizeIdempotent(text: Option<string>)
    ensures NormalizeDigits(Some(NormalizeDigits(text))) == NormalizeDigits(text)
  {
    var r := NormalizeDigits(text);
    var rr := NormalizeDigits(Some(r));
    assert forall k :: 0 <= k < |r| ==> rr[k] == r[k];
  }

  // ---------------------------------------------------------------------------
  // The product form `\s*(-?\d+)\s*[x×X*]\s*(-?\d+)\s*\Z`
  // ---------------------------------------------------------------------------

  /** `X_CHARS` */
  predicate IsTimes(c: char)
  {
    c == 'x' || c == '×' || c == 'X' || c == '*'
  }

  /** A match of `-?\d+`: an optional minus sign and at least one digit. */
  predicate IsSigned(a: string)
  {
    (|a| >= 1 && AllDigits(a)) || (|a| >= 2 && a[0] == '-' && AllDigits(a[1..]))
  }

  /** `int()` of a match of `-?\d+`. */
  function SignedValue(a: string): int
    requires IsSigned(a)
  {
    if a[0] == '-' then -(DigitsValue(a[1..]) as int) else DigitsValue(a) as int
  }

  /** `int()` reads a match of `-?\d+` as its signed value. */
  lemma SignedParses(a: string)
    requires IsSigned(a)
    ensures ParseInt(a) == Some(SignedValue(a))
  {
    StripKeepsInner(a);
  }

  /** A rendered integer is a match of `-?\d+` whose value is the integer. */
  lemma SignedOfIntToString(i: int)
    ensures IsSigned(IntToString(i)) && SignedValue(IntToString(i)) == i
  {
    ParseIntToString(i);
    SignedParses(IntToString(i));
  }

  /** Length of the longest all-whitespace prefix of `s` (a greedy `\s*`). */
  function SpanSpace(s: string): (n: nat)
    ensures n <= |s| && AllSpace(s[..n]) && (n == |s| || !IsSpace(s[n]))
  {
    if s == [] || !IsSpace(s[0]) then 0
    else
      var n := 1 + SpanSpace(s[1..]);
      assert s[..n] == [s[0]] + s[1..][..n - 1];
      n
  }

  /** Length of the longest all-digit prefix of `s` (a greedy `\d*`). */
  function SpanDigits(s: string): (n: nat)
    ensures n <= |s| && AllDigits(s[..n]) && (n == |s| || !IsDigit(s[n]))
  {
    if s == [] || !IsDigit(s[0]) then 0
    else
      var n := 1 + SpanDigits(s[1..]);
      assert s[..n] == [s[0]] + s[1..][..n - 1];
      n
  }

  /** Length of the match of `-?\d+` at the start of `s`, or 0 when there is none there. */
  function SpanSigned(s: string): (n: nat)
    ensures n <= |s|
    ensures n > 0 ==> IsSigned(s[..n]) && (n == |s| || !IsDigit(s[n]))
    ensures n == 0 ==> s == [] || (!IsDigit(s[0]) && (s[0] != '-' || |s| == 1 || !IsDigit(s[1])))
  {
    if s != [] && s[0] == '-' && SpanDigits(s[1..]) > 0 then
      var n := 1 + SpanDigits(s[1..]);
      assert s[..n][1..] == s[1..][..n - 1];
      n
    else
      SpanDigits(s)
  }

  /** `s` cut after its leading whitespace (a greedy `\s*`). */
  function SplitSpace(s: string): (r: (string, string))
    ensures AllSpace(r.0) && r.0 + r.1 == s && (r.1 == [] || !IsSpace(r.1[0]))
  {
    var n := SpanSpace(s);
    assert s[..n] + s[n..] == s;
    (s[..n], s[n..])
  }

  /** `s` cut after the match of `-?\d+` at its start, or None when there is none there. */
  function SplitSigned(s: string): (r: Option<(string, string)>)
    ensures r.Some? ==> IsSigned(r.value.0) && r.value.0 + r.value.1 == s
    ensures r.Some? ==> r.value.1 == [] || !IsDigit(r.value.1[0])
  {
    var n := SpanSigned(s);
    assert s[..n] + s[n..] == s;
    if n == 0 then None else Some((s[..n], s[n..]))
  }

  /** The pieces of a text matching the product form. */
  datatype ProductMatch = ProductMatch(lead: string, first: string, before: string, times: char,
                                       after: string, second: string, trail: string)

  function Joined(m: ProductMatch): string
  {
    m.lead + (m.first + (m.before + ([m.times] + (m.after + (m.second + m.trail)))))
  }

  /** Whitespace, a signed number, whitespace, a times sign, whitespace, a signed number, whitespace. */
  predicate Shaped(m: ProductMatch)
  {
    AllSpace(m.lead) && IsSigned(m.first) && AllSpace(m.before) && IsTimes(m.times) &&
    AllSpace(m.after) && IsSigned(m.second) && AllSpace(m.trail)
  }

  /** The product form from the times sign on: the sign, whitespace, a signed number, whitespace. */
  function MatchTail(r3: string): (r: Option<(char, string, string, string)>)
    ensures r.Some? ==> var (x, after, second, trail) := r.value;
              IsTimes(x) && AllSpace(after) && IsSigned(second) && AllSpace(trail) &&
              r3 == [x] + (after + (second + trail))
  {
    if r3 == [] || !IsTimes(r3[0]) then None
    else
      var (after, r5) := SplitSpace(r3[1..]);
      match SplitSigned(r5)
      case None => None
      case Some((second, trail)) =>
        if !AllSpace(trail) then None
        else
          assert r3 == [r3[0]] + r3[1..];
          Some((r3[0], after, second, trail))
  }

  /** `re.fullmatch` of the product form: the pieces of the match, or None. */
  function MatchProduct(t: string): (r: Option<ProductMatch>)
    ensures r.Some? ==> Shaped(r.value) && Joined(r.value) == t
  {
    var (lead, r1) := SplitSpace(t);
    match SplitSigned(r1)
    case None => None
    case Some((first, r2)) =>
      var (before, r3) := SplitSpace(r2);
      match MatchTail(r3)
      case None => None
      case Some((x, after, second, trail)) => Some(ProductMatch(lead, first, before, x, after, second, trail))
  }

  lemma {:induction false} SpanSpaceOf(w: string, rest: string)
    requires AllSpace(w) && (rest == [] || !IsSpace(rest[0]))
    ensures SpanSpace(w + rest) == |w|
  {
    if w != [] {
      assert (w + rest)[1..] == w[1..] + rest;
      SpanSpaceOf(w[1..], rest);
    }
  }

  /** A whitespace prefix followed by a non-whitespace character is exactly what `\s*` takes. */
  lemma SplitSpaceOf(w: string, rest: string)
    requires AllSpace(w) && (rest == [] || !IsSpace(rest[0]))
    ensures SplitSpace(w + rest) == (w, rest)
  {
    SpanSpaceOf(w, rest);
    assert (w + rest)[..|w|] == w && (w + rest)[|w|..] == rest;
  }

  /** A signed number followed by a non-digit is exactly what `-?\d+` takes. */
  lemma {:induction false} SplitSignedOf(a: string, rest: string)
    requires IsSigned(a) && (rest == [] || !IsDigit(rest[0]))
    ensures SplitSigned(a + rest) == Some((a, rest))
  {
    var s := a + rest;
    if a[0] == '-' && |a| >= 2 && AllDigits(a[1..]) {
      assert s[1..] == a[1..] + rest;
      SpanDigitsOf(a[1..], rest);
      assert SpanSigned(s) == |a|;
    } else {
      SpanDigitsOf(a, rest);
    }
    assert s[..|a|] == a && s[|a|..] == rest;
  }

  lemma {:induction false} SpanDigitsOf(a: string, rest: string)
    requires AllDigits(a) && (rest == [] || !IsDigit(rest[0]))
    ensures SpanDigits(a + rest) == |a|
  {
    if a != [] {
      assert (a + rest)[1..] == a[1..] + rest;
      SpanDigitsOf(a[1..], rest);
    }
  }

  lemma MatchTailComplete(x: char, after: string, second: string, trail: string)
    requires IsTimes(x) && AllSpace(after) && IsSigned(second) && AllSpace(trail)
    ensures MatchTail([x] + (after + (second + trail))) == Some((x, after, second, trail))
  {
    var r3 := [x] + (after + (second + trail));
    assert r3[1..] == after + (second + trail);
    SplitSpaceOf(after, second + trail);
    SplitSignedOf(second, trail);
  }

  /** Every text of the product form is recognised, and split into exactly its pieces. */
  lemma MatchProductComplete(m: ProductMatch)
    requires Shaped(m)
    ensures MatchProduct(Joined(m)) == Some(m)
  {
    var r3 := [m.times] + (m.after + (m.second + m.trail));
    var r2 := m.before + r3;
    var r1 := m.first + r2;
    SplitSpaceOf(m.lead, r1);
    SplitSignedOf(m.first, r2);
    SplitSpaceOf(m.before, r3);
    MatchTailComplete(m.times, m.after, m.second, m.trail);
  }

  /** The times sign of a match is in the text. */
  lemma TimesIn(m: ProductMatch)
    ensures m.times in Joined(m)
  {
    var tail := [m.times] + (m.after + (m.second + m.trail));
    assert tail[0] == m.times;
    assert Joined(m) == (m.lead + (m.first + m.before)) + tail;
    assert Joined(m)[|m.lead + (m.first + m.before)|] == m.times;
  }

  /** A text of digits alone is never a product. */
  lemma DigitsAreNoProduct(t: string)
    requires AllDigits(t)
    ensures MatchProduct(t).None?
  {
    if MatchProduct(t).Some? {
      TimesIn(MatchProduct(t).value);
      assert false;
    }
  }

  /** `7x7`-style text: the two factors as `int()` reads them. */
  function Factors(m: ProductMatch): (int, int)
    requires Shaped(m)
  {
    (SignedValue(m.first), SignedValue(m.second))
  }

  lemma Regroup(s1: string, s2: string, s3: string, s4: string, s5: string, s6: string, s7: string)
    ensures s1 + s2 + s3 + s4 + s5 + s6 + s7 == s1 + (s2 + (s3 + (s4 + (s5 + (s6 + s7)))))
  {
    var l := s1 + s2 + s3 + s4 + s5 + s6 + s7;
    var r := s1 + (s2 + (s3 + (s4 + (s5 + (s6 + s7)))));
    assert |l| == |r|;
    forall k | 0 <= k < |l|
      ensures l[k] == r[k]
    {
    }
  }

  /** Any two integers written around a times sign, with any spacing, are read back as themselves. */
  lemma ProductRoundTrip(a: int, b: int, x: char, w1: string, w2: string, w3: string, w4: string)
    requires IsTimes(x) && AllSpace(w1) && AllSpace(w2) && AllSpace(w3) && AllSpace(w4)
    ensures var t := w1 + IntToString(a) + w2 + [x] + w3 + IntToString(b) + w4;
            MatchProduct(t).Some? && Factors(MatchProduct(t).value) == (a, b)
  {
    SignedOfIntToString(a);
    SignedOfIntToString(b);
    var m := ProductMatch(w1, IntToString(a), w2, x, w3, IntToString(b), w4);
    MatchProductComplete(m);
    Regroup(w1, IntToString(a), w2, [x], w3, IntToString(b), w4);
  }

  // ---------------------------------------------------------------------------
  // The first integer `re.search(r"-?\d+", text)`
  // ---------------------------------------------------------------------------

  /** The leftmost match of `-?\d+` in `t`, read as an integer, or None. */
  function FirstInt(t: string): (r: Option<int>)
    ensures r.None? <==> NoDigits(t)
  {
    if t == [] then None
    else if SpanSigned(t) > 0 then
      assert IsDigit(t[0]) || IsDigit(t[1]);
      Some(SignedValue(t[..SpanSigned(t)]))
    else
      var r := FirstInt(t[1..]);
      assert NoDigits(t) <==> NoDigits(t[1..]) by {
        assert forall k :: 0 < k < |t| ==> t[k] == t[1..][k - 1];
      }
      r
  }

  /** Text without digits, not ending in a minus sign, before a rendered integer leaves that integer first. */
  lemma {:induction false} FirstIntOf(w: string, n: int, rest: string)
    requires NoDigits(w) && (w == [] || w[|w| - 1] != '-')
    requires rest == [] || !IsDigit(rest[0])
    ensures FirstInt(w + IntToString(n) + rest) == Some(n)
  {
    SignedOfIntToString(n);
    var t := w + IntToString(n) + rest;
    if w == [] {
      assert t == IntToString(n) + rest;
      SplitSignedOf(IntToString(n), rest);
    } else {
      assert t[1..] == w[1..] + IntToString(n) + rest;
      FirstIntOf(w[1..], n, rest);
      assert !IsDigit(t[0]);
      if t[0] == '-' {
        assert |w| >= 2;
        assert t[1] == w[1] && !IsDigit(t[1]);
      }
    }
  }

  // ---------------------------------------------------------------------------
  // Replies and the handler
  // ---------------------------------------------------------------------------

  /** `f"{n} × {i} = {n*i}"` */
  function TableLine(n: int, i: int): string
  {
    IntToString(n) + " × " + IntToString(i) + " = " + IntToString(n * i)
  }

  /** The lines for i = 1..10. */
  function TableLines(n: int): (lines: seq<string>)
    ensures |lines| == 10 && forall k :: 0 <= k < 10 ==> lines[k] == TableLine(n, k + 1)
  {
    seq(10, k => TableLine(n, k + 1))
  }

  function TableReply(n: int): string
  {
    Join("\n", TableLines(n))
  }

  /** The table reply has exactly ten lines, line `i` being `n × i = n*i`, in order. */
  lemma TableReplyLines(n: int)
    ensures Split(TableReply(n), '\n') == TableLines(n)
  {
    forall k | 0 <= k < 10
      ensures '\n' !in TableLines(n)[k]
    {
      NoNewlineInNumber(n);
      NoNewlineInNumber(k + 1);
      NoNewlineInNumber(n * (k + 1));
    }
    assert Join("\n", TableLines(n)) == Join(['\n'], TableLines(n));
    SplitJoin(TableLines(n), '\n');
  }

  function ProductReply(a: int, b: int): string
  {
    IntToString(a) + " × " + IntToString(b) + " = " + IntToString(a * b) + "\n\nأرسل رقمًا لعرض جدول ضربه:"
  }

  const AskReply: string := "أدخل الرقم الذي تريد جدول الضرب له (مثال: 7 أو ٩)."
  const NumberError: string := "الرجاء إدخال رقم صحيح (مثال: 5 أو ٨)."

  /** The part of `context.user_data` the mode uses: is `awaiting_multiplication_number` set. */
  class UserData {
    var awaiting: bool

    constructor ()
      ensures !awaiting
    {
      awaiting := false;
    }

    /** `ask_for_number`: enter the mode and prompt for a number. */
    method AskForNumber() returns (reply: string)
      modifies this
      ensures awaiting && reply == AskReply
    {
      awaiting := true;
      reply := AskReply;
    }

    /**
     * `handle_possible_number_message` for a message whose text is `text`.
     * Outside the mode nothing is answered. A product is answered with its
     * value, text without digits with an error, and both keep the mode; the
     * first integer otherwise gets its table, and only then the mode ends.
     */
    method HandlePossibleNumber(text: Option<string>) returns (reply: Option<string>)
      modifies this
      ensures !old(awaiting) ==> reply.None? && !awaiting
      ensures old(awaiting) ==> reply.Some?
      ensures old(awaiting) ==>
                var t := Strip(NormalizeDigits(text));
                (MatchProduct(t).Some? ==>
                   reply.value == ProductReply(Factors(MatchProduct(t).value).0, Factors(MatchProduct(t).value).1)) &&
                (MatchProduct(t).None? && NoDigits(t) ==> reply.value == NumberError) &&
                (MatchProduct(t).None? && !NoDigits(t) ==> reply.value == TableReply(FirstInt(t).value)) &&
                (awaiting <==> MatchProduct(t).Some? || NoDigits(t))
    {
      if !awaiting {
        return None;
      }
      var t := Strip(NormalizeDigits(text));
      var product := MatchProduct(t);
      if product.Some? {
        var (a, b) := Factors(product.value);
        return Some(ProductReply(a, b));
      }
      var first := FirstInt(t);
      if first.None? {
        return Some(NumberError);
      }
      reply := Some(TableReply(first.value));
      awaiting := false;
    }
  }

  /** A message of Arabic-Indic digits only gets the table of the number they spell. */
  lemma ArabicNumberGetsTable(s: string, n: nat)
    requires Translate(s) == NatToString(n)
    ensures MatchProduct(Strip(NormalizeDigits(Some(s)))).None?
    ensures FirstInt(Strip(NormalizeDigits(Some(s)))) == Some(n)
  {
    var t := NatToString(n);
    assert NormalizeDigits(Some(s)) == t;
    StripKeepsInner(t);
    assert Strip(NormalizeDigits(Some(s))) == t;
    assert IntToString(n) == t;
    assert [] + IntToString(n) + [] == t;
    FirstIntOf([], n, []);
    DigitsAreNoProduct(t);
  }
}
