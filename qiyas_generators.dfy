/**
 * The question generators of the 200-question aptitude quiz (qiyas_200.py).
 *
 * Every generator draws a few numbers, computes the integer answer `val`,
 * asks `mk_opts` for three distractors around it and returns the prompt, the
 * four options and the position of `val` among them. The random draws are
 * parameters whose `requires` are the literal ranges of the source; the
 * draws `mk_opts` makes are a supplied sequence `draws`, and the shuffle of
 * the four options is a supplied permutation `perm`.
 */
module QiyasGenerators {
  import opened Wrappers
  import opened Text

  /** `{"q": text, "options": opts, "answer_idx": opts.index(val)}` */
  datatype Question = Question(q: string, options: seq<int>, answerIdx: nat)

  predicate Distinct(s: seq<int>)
  {
    forall i, j :: 0 <= i < j < |s| ==> s[i] != s[j]
  }

  /** Four pairwise-distinct options and a valid answer index. */
  predicate WellFormed(qn: Question)
  {
    |qn.options| == 4 && Distinct(qn.options) && qn.answerIdx < 4
  }

  /** `qn` is well formed and its marked option is `val`. */
  predicate Answers(qn: Question, val: int)
  {
    WellFormed(qn) && qn.options[qn.answerIdx] == val
  }

  // ---------------------------------------------------------------------------
  // Distractors: mk_opts
  // ---------------------------------------------------------------------------

  const DefaultSpreads: seq<int> := [-12, -8, -5, -3, -2, -1, 1, 2, 3, 5, 8, 12]
  const GcdSpreads: seq<int> := [-3, -2, -1, 1, 2, 3]

  /** `minval is None or v >= minval` */
  predicate Admits(minval: Option<int>, v: int)
  {
    minval.None? || v >= minval.value
  }

  /**
   * The candidate set after `mk_opts` has tried the deltas `ds` in order with
   * no limit, listed in the order its members were first added.
   */
  function Collected(correct: int, ds: seq<int>, minval: Option<int>): (c: seq<int>)
    ensures |c| >= 1 && c[0] == correct
  {
    if ds == [] then [correct]
    else
      var prev := Collected(correct, ds[..|ds| - 1], minval);
      var v := correct + ds[|ds| - 1];
      if Admits(minval, v) && v !in prev then prev + [v] else prev
  }

  /** The collected candidates are distinct, begin with `correct`, and are exactly the admissible `correct + d`. */
  lemma {:induction false} CollectedShape(correct: int, ds: seq<int>, minval: Option<int>)
    ensures Distinct(Collected(correct, ds, minval)) && Collected(correct, ds, minval)[0] == correct
    ensures forall x :: x in Collected(correct, ds, minval) <==>
              x == correct || (Admits(minval, x) && exists k :: 0 <= k < |ds| && x == correct + ds[k])
  {
    if ds != [] {
      var init := ds[..|ds| - 1];
      CollectedShape(correct, init, minval);
      forall x | x != correct && Admits(minval, x) && (exists k :: 0 <= k < |ds| && x == correct + ds[k])
        ensures x in Collected(correct, ds, minval)
      {
        var k :| 0 <= k < |ds| && x == correct + ds[k];
        if k < |ds| - 1 {
          assert init[k] == ds[k];
        }
      }
      forall x | x in Collected(correct, ds, minval) && x != correct
        ensures Admits(minval, x) && exists k :: 0 <= k < |ds| && x == correct + ds[k]
      {
        if x in Collected(correct, init, minval) {
          var k :| 0 <= k < |init| && x == correct + init[k];
          assert ds[k] == init[k];
        } else {
          assert x == correct + ds[|ds| - 1];
        }
      }
    }
  }

  /** Trying more deltas only appends candidates. */
  lemma {:induction false} CollectedPrefix(correct: int, ds: seq<int>, j: nat, minval: Option<int>)
    requires j <= |ds|
    ensures Collected(correct, ds[..j], minval) <= Collected(correct, ds, minval)
    decreases |ds| - j
  {
    if j < |ds| {
      CollectedPrefix(correct, ds[..|ds| - 1], j, minval);
      assert ds[..|ds| - 1][..j] == ds[..j];
    } else {
      assert ds[..j] == ds;
    }
  }

  lemma CollectedStep(correct: int, ds: seq<int>, i: nat, minval: Option<int>)
    requires i < |ds|
    ensures Collected(correct, ds[..i + 1], minval) ==
              var prev := Collected(correct, ds[..i], minval);
              var v := correct + ds[i];
              if Admits(minval, v) && v !in prev then prev + [v] else prev
  {
    assert ds[..i + 1][..i] == ds[..i];
  }

  /** A shuffle of four items: `perm[k]` is where item `k` of the unshuffled list comes from. */
  predicate IsPermutation4(perm: seq<nat>)
  {
    |perm| == 4 && (forall k :: 0 <= k < 4 ==> perm[k] < 4) &&
    (forall i, j :: 0 <= i < j < 4 ==> perm[i] != perm[j]) &&
    forall m :: 0 <= m < 4 ==> m in perm
  }

  /**
   * `mk_opts(correct, spreads, minval)`: collect `correct + delta` for drawn
   * deltas until four distinct admissible candidates exist, then shuffle the
   * list of them. `draws` are the successive `random.choice(spreads)`
   * results; when they run out first the result is None (the source would
   * keep drawing). `perm` is the shuffle; `used` is how many draws the loop
   * consumed.
   */
  method MkOpts(correct: int, spreads: Option<seq<int>>, minval: Option<int>, draws: seq<int>, perm: seq<nat>)
    returns (r: Option<seq<int>>, used: nat)
    requires forall k :: 0 <= k < |draws| ==> draws[k] in spreads.GetOr(DefaultSpreads)
    requires IsPermutation4(perm)
    ensures used <= |draws|
    ensures r.None? <==> |Collected(correct, draws, minval)| < 4
    ensures r.Some? ==> |r.value| == 4 && Distinct(r.value) && correct in r.value
    ensures r.Some? ==> forall x :: x in r.value <==> x in Collected(correct, draws[..used], minval)
    ensures r.Some? ==> used >= 1 && |Collected(correct, draws[..used - 1], minval)| < 4
    ensures r.Some? ==> forall x :: x in r.value && x != correct ==>
                          x - correct in spreads.GetOr(DefaultSpreads) && Admits(minval, x)
  {
    var sp := spreads.GetOr(DefaultSpreads);
    var candidates, i := Collect(correct, sp, minval, draws);
    used := i;
    if |candidates| < 4 {
      return None, used;
    }
    CollectedPrefix(correct, draws, i, minval);
    // list(candidates) followed by random.shuffle(opts)
    var opts := [candidates[perm[0]], candidates[perm[1]], candidates[perm[2]], candidates[perm[3]]];
    ShuffleKeepsItems(candidates, perm);
    r := Some(opts);
  }

  /** Shuffling four distinct items by a permutation keeps them distinct and keeps exactly the same items. */
  lemma ShuffleKeepsItems(c: seq<int>, perm: seq<nat>)
    requires |c| == 4 && Distinct(c) && IsPermutation4(perm)
    ensures var opts := [c[perm[0]], c[perm[1]], c[perm[2]], c[perm[3]]];
            Distinct(opts) && forall x :: x in opts <==> x in c
  {
    var opts := [c[perm[0]], c[perm[1]], c[perm[2]], c[perm[3]]];
    forall x | x in c
      ensures x in opts
    {
      var m :| 0 <= m < 4 && c[m] == x;
      assert m in perm;
      var j :| 0 <= j < 4 && perm[j] == m;
      assert opts[j] == x;
    }
  }

  /** The `while len(candidates) < 4` loop of `mk_opts`, run over the supplied draws. */
  method Collect(correct: int, sp: seq<int>, minval: Option<int>, draws: seq<int>)
    returns (candidates: seq<int>, used: nat)
    requires forall k :: 0 <= k < |draws| ==> draws[k] in sp
    ensures used <= |draws| && candidates == Collected(correct, draws[..used], minval)
    ensures Distinct(candidates) && correct in candidates && |candidates| <= 4
    ensures |candidates| < 4 ==> used == |draws| && candidates == Collected(correct, draws, minval)
    ensures used >= 1 ==> |Collected(correct, draws[..used - 1], minval)| < 4
    ensures forall x :: x in candidates && x != correct ==> x - correct in sp && Admits(minval, x)
  {
    candidates := [correct];
    var i := 0;
    assert draws[..0] == [];
    while |candidates| < 4 && i < |draws|
      invariant 0 <= i <= |draws|
      invariant candidates == Collected(correct, draws[..i], minval) && |candidates| <= 4
      invariant i >= 1 ==> |Collected(correct, draws[..i - 1], minval)| < 4
      decreases |draws| - i
    {
      var v := correct + draws[i];
      CollectedStep(correct, draws, i, minval);
      if Admits(minval, v) && v !in candidates {
        candidates := candidates + [v];
      }
      i := i + 1;
    }
    used := i;
    if |candidates| < 4 {
      assert draws[..i] == draws;
    }
    CollectedShape(correct, draws[..i], minval);
    CollectedSpreads(correct, draws[..i], sp, minval);
  }

  /** Every non-correct candidate is `correct` moved by one of the spreads the deltas come from. */
  lemma CollectedSpreads(correct: int, ds: seq<int>, sp: seq<int>, minval: Option<int>)
    requires forall k :: 0 <= k < |ds| ==> ds[k] in sp
    ensures forall x :: x in Collected(correct, ds, minval) && x != correct ==> x - correct in sp && Admits(minval, x)
  {
    CollectedShape(correct, ds, minval);
  }

  /**
   * The common tail of every generator: `opts = mk_opts(val, ...)` and
   * `{"q": text, "options": opts, "answer_idx": opts.index(val)}`.
   */
  method MakeQuestion(text: string, val: int, spreads: Option<seq<int>>, minval: Option<int>, draws: seq<int>, perm: seq<nat>)
    returns (r: Option<Question>)
    requires forall k :: 0 <= k < |draws| ==> draws[k] in spreads.GetOr(DefaultSpreads)
    requires IsPermutation4(perm)
    ensures r.None? <==> |Collected(val, draws, minval)| < 4
    ensures r.Some? ==> Answers(r.value, val) && r.value.q == text
    ensures r.Some? ==> forall k :: 0 <= k < 4 && r.value.options[k] != val ==>
                          r.value.options[k] - val in spreads.GetOr(DefaultSpreads) && Admits(minval, r.value.options[k])
  {
    var opts, _ := MkOpts(val, spreads, minval, draws, perm);
    if opts.None? {
      return None;
    }
    assert forall k :: 0 <= k < |opts.value| ==> opts.value[k] in opts.value;
    r := Some(Question(text, opts.value, IndexOf(opts.value, val)));
  }

  /** `mk_opts` draws from the default spreads, and the shuffle is a permutation. */
  predicate DefaultRng(draws: seq<int>, perm: seq<nat>)
  {
    (forall k :: 0 <= k < |draws| ==> draws[k] in DefaultSpreads) && IsPermutation4(perm)
  }

  function S(i: int): string { IntToString(i) }

  // ---------------------------------------------------------------------------
  // Arithmetic facts used by the generators
  // ---------------------------------------------------------------------------

  predicate Divides(d: int, n: int)
  {
    d != 0 && n % d == 0
  }

  lemma MulMod(g: int, k: int)
    requires g > 0
    ensures (g * k) % g == 0 && (g * k) / g == k
  {
    var q, r := (g * k) / g, (g * k) % g;
    assert g * k == g * q + r && 0 <= r < g;
    assert g * (k - q) == r;
    if k - q >= 1 {
      MulAtLeast(g, k - q);
    } else if k - q <= -1 {
      MulAtLeast(g, q - k);
    }
  }

  lemma MulAtLeast(x: int, y: int)
    requires x > 0 && y >= 1
    ensures x * y >= x
  {
  }

  /** A product of two bounded naturals lies between the products of the bounds. */
  lemma ProductBetween(x: int, y: int, lx: int, hx: int, ly: int, hy: int)
    requires 0 <= lx <= x <= hx && 0 <= ly <= y <= hy
    ensures lx * ly <= x * y <= hx * hy
  {
    assert lx * ly <= x * ly by { assert (x - lx) * ly >= 0; }
    assert x * ly <= x * y by { assert x * (y - ly) >= 0; }
    assert x * y <= hx * y by { assert (hx - x) * y >= 0; }
    assert hx * y <= hx * hy by { assert hx * (hy - y) >= 0; }
  }

  lemma DivExact(x: int, d: int)
    requires d > 0 && x % d == 0
    ensures (x / d) * d == x
  {
  }

  lemma DividesLinear(g: int, x: int, y: int, q: int)
    requires g > 0 && Divides(g, x) && Divides(g, y)
    ensures Divides(g, x * q + y)
  {
    var m, n := x / g, y / g;
    assert x == g * m && y == g * n;
    assert x * q + y == g * (m * q + n);
    MulMod(g, m * q + n);
  }

  lemma DivisorAtMost(d: int, n: int)
    requires d > 0 && n > 0 && Divides(d, n)
    ensures d <= n
  {
    var m := n / d;
    assert n == d * m;
    assert m >= 1;
  }

  /** Python's `math.gcd` on naturals, by Euclid's algorithm. */
  function Gcd(a: nat, b: nat): (g: nat)
    ensures a > 0 || b > 0 ==> g > 0
    decreases b
  {
    if b == 0 then a else Gcd(b, a % b)
  }

  lemma {:induction false} GcdDivides(a: nat, b: nat)
    requires a > 0 || b > 0
    ensures Gcd(a, b) >= 1 && Divides(Gcd(a, b), a) && Divides(Gcd(a, b), b)
    decreases b
  {
    if b > 0 {
      GcdDivides(b, a % b);
      var g := Gcd(b, a % b);
      assert a == b * (a / b) + a % b;
      DividesLinear(g, b, a % b, a / b);
    }
  }

  lemma {:induction false} GcdGreatest(a: nat, b: nat, d: int)
    requires a > 0 || b > 0
    requires d > 0 && Divides(d, a) && Divides(d, b)
    ensures Divides(d, Gcd(a, b))
    decreases b
  {
    if b > 0 {
      assert a % b == b * (-(a / b)) + a;
      DividesLinear(d, b, a, -(a / b));
      GcdGreatest(b, a % b, d);
    }
  }

  /** Euclid's Gcd is the greatest common divisor of two positive numbers. */
  lemma GcdIsGreatestCommonDivisor(a: nat, b: nat)
    requires a > 0 && b > 0
    ensures Gcd(a, b) >= 1 && Divides(Gcd(a, b), a) && Divides(Gcd(a, b), b)
    ensures forall d :: d > 0 && Divides(d, a) && Divides(d, b) ==> d <= Gcd(a, b)
  {
    GcdDivides(a, b);
    forall d | d > 0 && Divides(d, a) && Divides(d, b)
      ensures d <= Gcd(a, b)
    {
      GcdGreatest(a, b, d);
      DivisorAtMost(d, Gcd(a, b));
    }
  }

  /** `a*b // math.gcd(a, b)` is a positive common multiple of `a` and `b`, at most `a*b`. */
  lemma LcmIsCommonMultiple(a: nat, b: nat)
    requires a > 0 && b > 0
    ensures (a * b) / Gcd(a, b) >= 1 && (a * b) / Gcd(a, b) <= a * b
    ensures Divides(a, (a * b) / Gcd(a, b)) && Divides(b, (a * b) / Gcd(a, b))
    ensures ((a * b) / Gcd(a, b)) * Gcd(a, b) == a * b
  {
    GcdDivides(a, b);
    var g := Gcd(a, b);
    DivExact(a, g);
    DivExact(b, g);
    LcmOfCofactors(g, a / g, b / g);
  }

  /** With `a == n*g` and `b == m*g`, `a*b // g` is `n*m*g`, a multiple of both. */
  lemma LcmOfCofactors(g: int, n: int, m: int)
    requires g > 0 && n >= 1 && m >= 1
    ensures var a, b := n * g, m * g;
            (a * b) / g == n * m * g && (a * b) / g >= 1 && (a * b) / g <= a * b &&
            Divides(a, (a * b) / g) && Divides(b, (a * b) / g) && ((a * b) / g) * g == a * b
  {
    var a, b, l := n * g, m * g, n * m * g;
    CofactorProducts(g, n, m);
    MulMod(g, l);
    MulMod(a, m);
    MulMod(b, n);
    MulAtLeast(n, m);
    MulAtLeast(n * m, g);
    MulAtLeast(l, g);
  }

  /** The product identities behind `LcmOfCofactors`, one regrouping each. */
  lemma CofactorProducts(g: int, n: int, m: int)
    ensures (n * g) * (m * g) == g * (n * m * g)
    ensures n * m * g == (n * g) * m && n * m * g == (m * g) * n
    ensures (n * m * g) * g == (n * g) * (m * g)
  {
    calc {
      (n * g) * (m * g);
    ==
      ((n * g) * m) * g;
    ==
      ((n * m) * g) * g;
    ==
      g * (n * m * g);
    }
    assert n * m * g == (n * g) * m == (m * g) * n;
  }

  // ---------------------------------------------------------------------------
  // gen_arith
  // ---------------------------------------------------------------------------

  datatype ArithKind = SumTimes | ProductPlus | ProductMinus | Quotient

  function ArithText(kind: ArithKind, a: int, b: int, c: int): string
  {
    match kind
    case SumTimes => "كم يساوي (" + S(a) + " + " + S(b) + ") × " + S(c) + "؟"
    case ProductPlus => "كم يساوي " + S(a) + " × " + S(b) + " + " + S(c) + "؟"
    case ProductMinus => "كم يساوي " + S(a) + " × " + S(b) + " − " + S(c) + "؟"
    case Quotient => "كم يساوي (" + S(a) + " × " + S(c) + ") ÷ " + S(b) + "؟"
  }

  predicate ArithRanges(a: int, b: int, c: int, a2: int, c2: int)
  {
    2 <= a <= 15 && 2 <= b <= 12 && 1 <= c <= 10 && 2 <= a2 <= 12 && 2 <= c2 <= 12
  }

  /**
   * `gen_arith` as written. For the quotient kind the source redraws `c` and
   * `a` (here `c2`, `a2`) but keeps `b`, so the answer is the floor of
   * `(a2*c2)/b`, not an exact quotient.
   */
  method GenArith(kind: ArithKind, a: int, b: int, c: int, a2: int, c2: int, draws: seq<int>, perm: seq<nat>)
    returns (r: Option<Question>)
    requires ArithRanges(a, b, c, a2, c2) && DefaultRng(draws, perm)
    ensures r.Some? && kind == SumTimes ==> Answers(r.value, (a + b) * c)
    ensures r.Some? && kind == ProductPlus ==> Answers(r.value, a * b + c)
    ensures r.Some? && kind == ProductMinus ==> Answers(r.value, a * b - c)
    ensures r.Some? && kind == Quotient ==>
              WellFormed(r.value) &&
              r.value.options[r.value.answerIdx] * b <= a2 * c2 < (r.value.options[r.value.answerIdx] + 1) * b
  {
    var val: int;
    var text: string;
    match kind {
      case SumTimes =>
        val := (a + b) * c;
        text := ArithText(kind, a, b, c);
      case ProductPlus =>
        val := a * b + c;
        text := ArithText(kind, a, b, c);
      case ProductMinus =>
        val := a * b - c;
        text := ArithText(kind, a, b, c);
      case Quotient =>
        var x := a2 * c2;
        val := x / b;
        FloorDiv(x, b);
        text := ArithText(kind, a2, b, c2);
        r := MakeQuestion(text, val, None, None, draws, perm);
        assert r.Some? ==> r.value.options[r.value.answerIdx] == val;
        return;
    }
    r := MakeQuestion(text, val, None, None, draws, perm);
  }

  lemma FloorDiv(x: int, d: int)
    requires d > 0
    ensures (x / d) * d <= x < (x / d + 1) * d
  {
  }

  /**
   * With `b = 5`, `a2 = 2`, `c2 = 3` (all in range), the only marked answer
   * `v` that `GenArith`'s quotient contract allows is 1, and 1 is not the
   * value of (2 × 3) ÷ 5, which is 1.2.
   */
  lemma QuotientNotExact(v: int)
    requires v * 5 <= 2 * 3 < (v + 1) * 5
    ensures ArithRanges(2, 5, 1, 2, 3)
    ensures v == 1 && v * 5 != 2 * 3
  {
  }

  /** `d` is one of the values in 2..12 that divide `m`. */
  predicate ExactDivisor(d: int, m: int)
  {
    2 <= d <= 12 && m % d == 0
  }

  /**
   * `gen_arith` with the quotient kind as its comment intends: the divisor
   * `d` is drawn among the values in 2..12 that divide `a2*c2` (there is
   * one: `a2` itself), so the marked answer is the exact quotient. The other
   * kinds are unchanged.
   */
  method GenArithExact(kind: ArithKind, a: int, b: int, c: int, a2: int, c2: int, d: int, draws: seq<int>, perm: seq<nat>)
    returns (r: Option<Question>)
    requires ArithRanges(a, b, c, a2, c2) && DefaultRng(draws, perm)
    requires kind == Quotient ==> ExactDivisor(d, a2 * c2)
    ensures r.Some? && kind == SumTimes ==> Answers(r.value, (a + b) * c)
    ensures r.Some? && kind == ProductPlus ==> Answers(r.value, a * b + c)
    ensures r.Some? && kind == ProductMinus ==> Answers(r.value, a * b - c)
    ensures r.Some? && kind == Quotient ==>
              WellFormed(r.value) &&
              r.value.options[r.value.answerIdx] * d == a2 * c2
  {
    if kind == Quotient {
      var val := (a2 * c2) / d;
      r := MakeQuestion(ArithText(kind, a2, d, c2), val, None, None, draws, perm);
      if r.Some? {
        DivExact(a2 * c2, d);
        assert r.value.options[r.value.answerIdx] * d == a2 * c2;
      }
    } else {
      r := GenArith(kind, a, b, c, a2, c2, draws, perm);
    }
  }

  /** An exact divisor is always available: `a2` divides `a2*c2`. */
  lemma ExactDivisorExists(a2: int, c2: int)
    requires 2 <= a2 <= 12 && 2 <= c2 <= 12
    ensures ExactDivisor(a2, a2 * c2)
  {
    MulMod(a2, c2);
  }

  // ---------------------------------------------------------------------------
  // gen_percent
  // ---------------------------------------------------------------------------

  const PercentBases: seq<int> := [80, 100, 120, 160, 200, 240, 300, 400]
  const Percents: seq<int> := [10, 12, 20, 25, 30, 40, 50]

  function PercentText(base: int, p: int): string
  {
    "كم يساوي " + S(p) + "% من " + S(base) + "؟"
  }

  /** `gen_percent` as written: the marked answer is `base*p // 100`, the floor of p% of base. */
  method GenPercent(base: int, p: int, draws: seq<int>, perm: seq<nat>) returns (r: Option<Question>)
    requires base in PercentBases && p in Percents && DefaultRng(draws, perm)
    ensures r.Some? ==> WellFormed(r.value)
    ensures r.Some? ==> r.value.options[r.value.answerIdx] * 100 <= base * p < (r.value.options[r.value.answerIdx] + 1) * 100
  {
    var val := base * p / 100;
    r := MakeQuestion(PercentText(base, p), val, None, None, draws, perm);
  }

  /**
   * With `base = 80` and `p = 12`, the only marked answer `v` that
   * `GenPercent`'s contract allows is 9, while 12% of 80 is 9.6.
   */
  lemma PercentNotExact(v: int)
    requires v * 100 <= 80 * 12 < (v + 1) * 100
    ensures 80 in PercentBases && 12 in Percents
    ensures v == 9 && v * 100 != 80 * 12
  {
  }

  /** `p` is one of the listed percentages that gives a whole answer for `base`. */
  predicate ExactPercent(base: int, p: int)
  {
    p in Percents && (base * p) % 100 == 0
  }

  /** Every base has an exact percentage: 10% of a multiple of 10. */
  lemma ExactPercentExists(base: int)
    requires base in PercentBases
    ensures ExactPercent(base, 10)
  {
  }

  /** `gen_percent` drawing `p` only among the percentages exact for `base`. */
  method GenPercentExact(base: int, p: int, draws: seq<int>, perm: seq<nat>) returns (r: Option<Question>)
    requires base in PercentBases && ExactPercent(base, p) && DefaultRng(draws, perm)
    ensures r.Some? ==> WellFormed(r.value) && r.value.options[r.value.answerIdx] * 100 == base * p
  {
    r := GenPercent(base, p, draws, perm);
  }

  // ---------------------------------------------------------------------------
  // gen_series
  // ---------------------------------------------------------------------------

  /** `[start + i*step for i in range(n)]` */
  function SeriesTerms(start: int, step: int, n: nat): (terms: seq<int>)
    ensures |terms| == n
  {
    seq(n, i => start + i * step)
  }

  /** The displayed terms form an arithmetic progression with difference `step`. */
  lemma SeriesIsArithmetic(start: int, step: int, n: nat)
    ensures forall i :: 0 <= i < n - 1 ==> SeriesTerms(start, step, n)[i + 1] - SeriesTerms(start, step, n)[i] == step
  {
  }

  function SeriesText(terms: seq<int>): string
  {
    "ما العدد التالي في المتتالية: " + Join(", ", MapToString(terms)) + " ؟"
  }

  /** `gen_series`: the marked answer is the displayed last term plus the step. */
  method GenSeries(start: int, step: int, n: int, draws: seq<int>, perm: seq<nat>) returns (r: Option<Question>)
    requires 1 <= start <= 12 && 2 <= step <= 9 && 4 <= n <= 6 && DefaultRng(draws, perm)
    ensures r.Some? ==> Answers(r.value, SeriesTerms(start, step, n)[n - 1] + step)
    ensures r.Some? ==> r.value.q == SeriesText(SeriesTerms(start, step, n))
  {
    var terms := SeriesTerms(start, step, n);
    var val := start + n * step;
    assert val == terms[n - 1] + step by {
      assert n * step == (n - 1) * step + step;
    }
    r := MakeQuestion(SeriesText(terms), val, None, None, draws, perm);
  }

  // ---------------------------------------------------------------------------
  // gen_area_rect, gen_speed_time
  // ---------------------------------------------------------------------------

  method GenAreaRect(len: int, width: int, draws: seq<int>, perm: seq<nat>) returns (r: Option<Question>)
    requires 5 <= len <= 20 && 3 <= width <= 15 && DefaultRng(draws, perm)
    ensures r.Some? ==> Answers(r.value, len * width)
    ensures r.Some? ==> 15 <= r.value.options[r.value.answerIdx] <= 300
  {
    var val := len * width;
    ProductBetween(len, width, 5, 20, 3, 15);
    r := MakeQuestion("مساحة مستطيل طوله " + S(len) + " وعرضه " + S(width) + " تساوي؟", val, None, None, draws, perm);
  }

  const Speeds: seq<int> := [40, 50, 60, 70, 80, 90, 100]
  const Hours: seq<int> := [2, 3, 4, 5]

  method GenSpeedTime(v: int, t: int, draws: seq<int>, perm: seq<nat>) returns (r: Option<Question>)
    requires v in Speeds && t in Hours && DefaultRng(draws, perm)
    ensures r.Some? ==> Answers(r.value, v * t)
    ensures r.Some? ==> 80 <= r.value.options[r.value.answerIdx] <= 500
  {
    var val := v * t;
    r := MakeQuestion("سيارة سرعتها " + S(v) + " كم/ساعة تسير لمدة " + S(t) + " ساعات. كم كيلومتراً تقطع؟",
                      val, None, None, draws, perm);
  }

  // ---------------------------------------------------------------------------
  // gen_gcd, gen_lcm
  // ---------------------------------------------------------------------------

  /** `gen_gcd`: the marked option is the greatest common divisor; every option is at least 1. */
  method GenGcd(a: int, b: int, draws: seq<int>, perm: seq<nat>) returns (r: Option<Question>)
    requires 12 <= a <= 90 && 12 <= b <= 90
    requires (forall k :: 0 <= k < |draws| ==> draws[k] in GcdSpreads) && IsPermutation4(perm)
    ensures r.Some? ==> WellFormed(r.value) && forall k :: 0 <= k < 4 ==> r.value.options[k] >= 1
    ensures r.Some? ==> var g := r.value.options[r.value.answerIdx];
              Divides(g, a) && Divides(g, b) &&
              forall d :: d > 0 && Divides(d, a) && Divides(d, b) ==> d <= g
  {
    var val := Gcd(a, b);
    GcdIsGreatestCommonDivisor(a, b);
    r := MakeQuestion("ما القاسم المشترك الأكبر للعددين " + S(a) + " و " + S(b) + "؟",
                      val, Some(GcdSpreads), Some(1), draws, perm);
  }

  /** `gen_lcm`: the marked option is a common multiple of `a` and `b`, and times gcd it is `a*b`. */
  method GenLcm(a: int, b: int, draws: seq<int>, perm: seq<nat>) returns (r: Option<Question>)
    requires 4 <= a <= 20 && 4 <= b <= 20 && DefaultRng(draws, perm)
    ensures r.Some? ==> WellFormed(r.value)
    ensures r.Some? ==> var l := r.value.options[r.value.answerIdx];
              l >= 1 && Divides(a, l) && Divides(b, l) && l * Gcd(a, b) == a * b
  {
    LcmIsCommonMultiple(a, b);
    var val := a * b / Gcd(a, b);
    r := MakeQuestion("ما المضاعف المشترك الأصغر للعددين " + S(a) + " و " + S(b) + "؟", val, None, None, draws, perm);
  }

  // ---------------------------------------------------------------------------
  // gen_avg
  // ---------------------------------------------------------------------------

  /** Python's `sum(nums)`. */
  function Sum(s: seq<int>): int
  {
    if s == [] then 0 else Sum(s[..|s| - 1]) + s[|s| - 1]
  }

  lemma {:induction false} SumBumpLast(s: seq<int>, d: int)
    requires |s| >= 1
    ensures Sum(s[|s| - 1 := s[|s| - 1] + d]) == Sum(s) + d
  {
    var t := s[|s| - 1 := s[|s| - 1] + d];
    assert t[..|t| - 1] == s[..|s| - 1];
  }

  /** Adding `n - s % n` to `s` reaches a multiple of `n`. */
  lemma RoundUpToMultiple(s: int, n: int)
    requires n > 0
    ensures (s + (n - s % n)) % n == 0
  {
    var q := s / n;
    assert s + (n - s % n) == n * (q + 1);
    MulMod(n, q + 1);
  }

  function AvgText(nums: seq<int>): string
  {
    "ما متوسط الأعداد التالية: " + Join(", ", MapToString(nums)) + " ؟"
  }

  /**
   * `gen_avg`: draws `n` numbers, then raises the last one by the least
   * amount that makes the sum divisible by `n`. The displayed numbers are
   * returned as `nums`; the marked answer is their exact mean.
   */
  method GenAvg(n: int, drawn: seq<int>, draws: seq<int>, perm: seq<nat>) returns (r: Option<Question>, nums: seq<int>)
    requires 3 <= n <= 6 && |drawn| == n && DefaultRng(draws, perm)
    requires forall k :: 0 <= k < n ==> 5 <= drawn[k] <= 40
    ensures |nums| == n && nums[..n - 1] == drawn[..n - 1]
    ensures 0 <= nums[n - 1] - drawn[n - 1] < n
    ensures Sum(nums) % n == 0
    ensures r.Some? ==> WellFormed(r.value) && r.value.options[r.value.answerIdx] * n == Sum(nums)
    ensures r.Some? ==> r.value.q == AvgText(nums)
  {
    nums := drawn;
    var s := Sum(nums);
    if s % n != 0 {
      var rem := s % n;
      SumBumpLast(nums, n - rem);
      RoundUpToMultiple(s, n);
      nums := nums[n - 1 := nums[n - 1] + (n - rem)];
      s := Sum(nums);
    }
    var val := s / n;
    DivExact(s, n);
    r := MakeQuestion(AvgText(nums), val, None, None, draws, perm);
  }

  // ---------------------------------------------------------------------------
  // gen_proportion
  // ---------------------------------------------------------------------------

  const ProportionPairs: seq<(int, int)> := [(2, 3), (3, 4), (3, 5), (4, 5), (5, 6)]
  const ProportionRhs: seq<int> := [12, 15, 18, 20, 24, 30]

  /** Among ten consecutive values from `rhs0` one makes `rhs * a` divisible by `b`. */
  lemma ProportionSolvable(a: int, b: int, rhs0: int)
    requires (a, b) in ProportionPairs && rhs0 in ProportionRhs
    ensures exists k :: rhs0 <= k < rhs0 + 10 && (k * a) % b == 0
  {
    var k := rhs0 + (b - rhs0 % b) % b;
    assert k % b == 0;
    var m := k / b;
    assert k * a == b * (m * a);
    MulMod(b, m * a);
  }

  /**
   * `gen_proportion`: from the drawn `rhs0` the loop moves `rhs` up until
   * `rhs * a` is divisible by `b`; for the listed pairs that happens within
   * the ten iterations allowed, so `x` is always bound. The displayed `rhs`
   * is returned; the marked answer `x` satisfies a:b = x:rhs exactly.
   */
  method GenProportion(a: int, b: int, rhs0: int, draws: seq<int>, perm: seq<nat>) returns (r: Option<Question>, rhs: int)
    requires (a, b) in ProportionPairs && rhs0 in ProportionRhs && DefaultRng(draws, perm)
    ensures rhs0 <= rhs < rhs0 + 10
    ensures (rhs * a) % b == 0 && forall k :: rhs0 <= k < rhs ==> (k * a) % b != 0
    ensures r.Some? ==> WellFormed(r.value) && r.value.options[r.value.answerIdx] * b == rhs * a
  {
    rhs := rhs0;
    var x := 0;
    var found := false;
    var i := 0;
    while i < 10 && !found
      invariant 0 <= i <= 10
      invariant rhs0 <= rhs <= rhs0 + i
      invariant forall k :: rhs0 <= k < rhs ==> (k * a) % b != 0
      invariant found ==> (rhs * a) % b == 0 && x * b == rhs * a
      invariant !found ==> rhs == rhs0 + i
      decreases 10 - i, if found then 0 else 1
    {
      if (rhs * a) % b == 0 {
        x := (rhs * a) / b;
        found := true;
      } else {
        rhs := rhs + 1;
        i := i + 1;
      }
    }
    ProportionSolvable(a, b, rhs0);
    assert found;
    var val := x;
    r := MakeQuestion("إذا كانت النسبة " + S(a) + ":" + S(b) + " = س:" + S(rhs) + " فما قيمة س؟",
                      val, None, None, draws, perm);
  }

  // ---------------------------------------------------------------------------
  // GENERATORS: random.choice(GENERATORS)()
  // ---------------------------------------------------------------------------

  /** One draw of `random.choice(GENERATORS)` together with that generator's own draws. */
  datatype Draw =
    | ArithDraw(kind: ArithKind, a: int, b: int, c: int, a2: int, c2: int)
    | PercentDraw(base: int, p: int)
    | SeriesDraw(start: int, step: int, n: int)
    | AreaDraw(len: int, width: int)
    | GcdDraw(x: int, y: int)
    | LcmDraw(x: int, y: int)
    | AvgDraw(n: int, drawn: seq<int>)
    | SpeedDraw(v: int, t: int)
    | ProportionDraw(pa: int, pb: int, rhs0: int)

  /** The literal ranges of each generator's draws, and of the `mk_opts` draws it makes. */
  predicate ValidDraw(d: Draw, draws: seq<int>, perm: seq<nat>)
  {
    match d
    case ArithDraw(kind, a, b, c, a2, c2) => ArithRanges(a, b, c, a2, c2) && DefaultRng(draws, perm)
    case PercentDraw(base, p) => base in PercentBases && p in Percents && DefaultRng(draws, perm)
    case SeriesDraw(start, step, n) => 1 <= start <= 12 && 2 <= step <= 9 && 4 <= n <= 6 && DefaultRng(draws, perm)
    case AreaDraw(len, width) => 5 <= len <= 20 && 3 <= width <= 15 && DefaultRng(draws, perm)
    case GcdDraw(x, y) =>
      12 <= x <= 90 && 12 <= y <= 90 && (forall k :: 0 <= k < |draws| ==> draws[k] in GcdSpreads) &&
      IsPermutation4(perm)
    case LcmDraw(x, y) => 4 <= x <= 20 && 4 <= y <= 20 && DefaultRng(draws, perm)
    case AvgDraw(n, drawn) =>
      3 <= n <= 6 && |drawn| == n && (forall k :: 0 <= k < n ==> 5 <= drawn[k] <= 40) && DefaultRng(draws, perm)
    case SpeedDraw(v, t) => v in Speeds && t in Hours && DefaultRng(draws, perm)
    case ProportionDraw(pa, pb, rhs0) => (pa, pb) in ProportionPairs && rhs0 in ProportionRhs && DefaultRng(draws, perm)
  }

  /**
   * One generated question: the drawn generator run as written. Whatever was
   * drawn, the question is well formed; the quotient kind and the percentage
   * mark the floor of their value.
   */
  method Generate(d: Draw, draws: seq<int>, perm: seq<nat>) returns (r: Option<Question>)
    requires ValidDraw(d, draws, perm)
    ensures r.Some? ==> WellFormed(r.value)
    ensures r.Some? && d.ArithDraw? && d.kind == Quotient ==>
              r.value.options[r.value.answerIdx] * d.b <= d.a2 * d.c2 < (r.value.options[r.value.answerIdx] + 1) * d.b
    ensures r.Some? && d.PercentDraw? ==>
              r.value.options[r.value.answerIdx] * 100 <= d.base * d.p < (r.value.options[r.value.answerIdx] + 1) * 100
  {
    match d {
      case ArithDraw(kind, a, b, c, a2, c2) => r := GenArith(kind, a, b, c, a2, c2, draws, perm);
      case PercentDraw(base, p) => r := GenPercent(base, p, draws, perm);
      case SeriesDraw(start, step, n) => r := GenSeries(start, step, n, draws, perm);
      case AreaDraw(len, width) => r := GenAreaRect(len, width, draws, perm);
      case GcdDraw(x, y) => r := GenGcd(x, y, draws, perm);
      case LcmDraw(x, y) => r := GenLcm(x, y, draws, perm);
      case AvgDraw(n, drawn) =>
        var shown;
        r, shown := GenAvg(n, drawn, draws, perm);
      case SpeedDraw(v, t) => r := GenSpeedTime(v, t, draws, perm);
      case ProportionDraw(pa, pb, rhs0) =>
        var rhs;
        r, rhs := GenProportion(pa, pb, rhs0, draws, perm);
    }
  }

  /**
   * The draws of the corrected registry: the quotient kind divides by a
   * divisor `dv` of `a2*c2`, and the percentage is one exact for its base.
   */
  predicate ValidExactDraw(d: Draw, dv: int, draws: seq<int>, perm: seq<nat>)
  {
    match d
    case ArithDraw(kind, a, b, c, a2, c2) =>
      ArithRanges(a, b, c, a2, c2) && (kind == Quotient ==> ExactDivisor(dv, a2 * c2)) && DefaultRng(draws, perm)
    case PercentDraw(base, p) => base in PercentBases && ExactPercent(base, p) && DefaultRng(draws, perm)
    case _ => ValidDraw(d, draws, perm)
  }

  /**
   * The registry with `gen_arith` and `gen_percent` in their corrected form:
   * the quotient and the percentage are marked exactly.
   */
  method GenerateExact(d: Draw, dv: int, draws: seq<int>, perm: seq<nat>) returns (r: Option<Question>)
    requires ValidExactDraw(d, dv, draws, perm)
    ensures r.Some? ==> WellFormed(r.value)
    ensures r.Some? && d.ArithDraw? && d.kind == Quotient ==> r.value.options[r.value.answerIdx] * dv == d.a2 * d.c2
    ensures r.Some? && d.PercentDraw? ==> r.value.options[r.value.answerIdx] * 100 == d.base * d.p
  {
    match d {
      case ArithDraw(kind, a, b, c, a2, c2) => r := GenArithExact(kind, a, b, c, a2, c2, dv, draws, perm);
      case PercentDraw(base, p) => r := GenPercentExact(base, p, draws, perm);
      case _ => r := Generate(d, draws, perm);
    }
  }
}
