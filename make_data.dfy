/**
 * The dataset script make_data.py: multiple-choice records built by
 * `four_choices` and `mcq`, the section loops that number them through the
 * counter `qid` under per-section caps, and the final fill loop that brings
 * the dataset to 500 questions.
 *
 * The random draws of the script are parameters. The average section is
 * kept as the five drawn numbers of each question only, because its answer
 * is a float.
 */
module MakeData {
  import opened Text
  import G = QiyasGenerators

  // ---------------------------------------------------------------------------
  // four_choices and mcq
  // ---------------------------------------------------------------------------

  function Abs(x: int): nat
  {
    if x < 0 then -x else x
  }

  /** `max(1, abs(correct) // 20)` */
  function Step(c: int): (step: int)
    ensures step >= 1
    ensures step == 1 <==> Abs(c) < 40
    ensures step > 1 ==> step * 20 <= Abs(c) < (step + 1) * 20
  {
    var s := Abs(c) / 20;
    if s > 1 then s else 1
  }

  /** `[step, -step, step*2, -step*2, step*3, -step*3, step+1, -(step+1)]` */
  function Deltas(step: int): seq<int>
  {
    [step, -step, step * 2, -step * 2, step * 3, -step * 3, step + 1, -(step + 1)]
  }

  /**
   * `four_choices(correct)` for an integer: the set `{correct}` grows by
   * `correct + delta` until it holds four values, then is listed and
   * shuffled (`perm`). The first three deltas already give four distinct
   * values, so the loop stops there and the padding loop never runs.
   */
  method FourChoices(correct: int, perm: seq<nat>) returns (opts: seq<int>)
    requires G.IsPermutation4(perm)
    ensures |opts| == 4 && G.Distinct(opts)
    ensures forall x :: x in opts <==>
              x == correct || x == correct + Step(correct) || x == correct - Step(correct) ||
              x == correct + 2 * Step(correct)
  {
    var step := Step(correct);
    var deltas := Deltas(step);
    var s: seq<int> := [correct];
    var i := 0;
    while i < |deltas|
      invariant 0 <= i <= 3
      invariant i == 0 ==> s == [correct]
      invariant i == 1 ==> s == [correct, correct + step]
      invariant i == 2 ==> s == [correct, correct + step, correct - step]
      invariant i == 3 ==> s == [correct, correct + step, correct - step, correct + 2 * step]
    {
      if |s| == 4 {
        break;
      }
      var v := correct + deltas[i];
      if v !in s {
        s := s + [v];
      }
      i := i + 1;
    }
    opts := [s[perm[0]], s[perm[1]], s[perm[2]], s[perm[3]]];
    forall x | x in s
      ensures x in opts
    {
      var m :| 0 <= m < 4 && s[m] == x;
      assert m in perm;
    }
  }

  /** A shuffle of the four choices of one question. */
  type Shuffle4 = p: seq<nat> | G.IsPermutation4(p) witness [0, 1, 2, 3]

  /** One record of `data.json`; the average questions keep only their numbers. */
  datatype Entry =
    | Mcq(id: nat, qtype: string, question: string, choices: seq<string>, answerIndex: nat,
          explanation: string, tags: seq<string>)
    | Average(id: nat, nums: seq<int>)

  /** `e` is a four-choice record whose marked choice is `str(correct)`. */
  predicate Marks(e: Entry, correct: int)
  {
    e.Mcq? && |e.choices| == 4 && e.answerIndex < 4 && e.choices[e.answerIndex] == IntToString(correct)
  }

  /**
   * `mcq(qid, qtype, question, correct, explanation, tags)` for an integer
   * `correct`: the choices of `four_choices` as strings, the position of
   * `correct` among them, and the other fields copied through.
   */
  method MakeMcq(qid: nat, qtype: string, question: string, correct: int, explanation: string,
                 tags: seq<string>, perm: seq<nat>) returns (e: Entry)
    requires G.IsPermutation4(perm)
    ensures Marks(e, correct)
    ensures e.id == qid && e.qtype == qtype && e.question == question
    ensures e.explanation == explanation && e.tags == tags
    ensures forall i, j :: 0 <= i < j < 4 ==> e.choices[i] != e.choices[j]
  {
    var choices := FourChoices(correct, perm);
    var idx := IndexOf(choices, correct);
    var texts := MapToString(choices);
    forall i, j | 0 <= i < j < 4
      ensures texts[i] != texts[j]
    {
      IntToStringInjective(choices[i], choices[j]);
    }
    e := Mcq(qid, qtype, question, texts, idx, explanation, tags);
  }

  // ---------------------------------------------------------------------------
  // Facts about the section answers
  // ---------------------------------------------------------------------------

  /**
   * The division pairs among the first `n` values of `a` in 12..99, where
   * `bs[a - 12]` is the `randint(2, 12)` drawn for `a`.
   */
  function PairsUpTo(bs: seq<int>, n: nat): (pairs: seq<(int, int)>)
    requires n <= |bs|
    requires forall k :: 0 <= k < |bs| ==> 2 <= bs[k] <= 12
    ensures |pairs| <= n
    ensures forall k :: 0 <= k < |pairs| ==>
              12 <= pairs[k].0 < 12 + n && 2 <= pairs[k].1 <= 12 && pairs[k].0 % pairs[k].1 == 0
  {
    if n == 0 then []
    else
      var prev := PairsUpTo(bs, n - 1);
      var a, b := 12 + (n - 1), bs[n - 1];
      if a % b == 0 then prev + [(a, b)] else prev
  }

  /** `e` asks for `a ÷ b` for one of the collected pairs, and its marked quotient is exact: `q * b == a`. */
  ghost predicate ExactDivision(e: Entry, pairs: seq<(int, int)>)
  {
    exists p :: p in pairs && p.1 > 0 && Marks(e, p.0 / p.1) && (p.0 / p.1) * p.1 == p.0
  }

  /** `[start + i*d for i in range(5)]` */
  function ArithTerms(start: int, d: int): seq<int>
  {
    seq(5, i => start + i * d)
  }

  /** The answer of an arithmetic-sequence question: `seq[-1] + d`. */
  function ArithAnswer(start: int, d: int): int
  {
    ArithTerms(start, d)[4] + d
  }

  /** The arithmetic sequence advances by `d`, and the answer `seq[-1] + d` continues it. */
  lemma ArithNext(start: int, d: int)
    ensures forall i :: 0 <= i < 4 ==> ArithTerms(start, d)[i + 1] == ArithTerms(start, d)[i] + d
    ensures ArithAnswer(start, d) == start + 5 * d
  {
  }

  function Pow(r: int, i: nat): int
  {
    if i == 0 then 1 else Pow(r, i - 1) * r
  }

  /** `[start * r**i for i in range(5)]` */
  function GeoTerms(start: int, r: int): seq<int>
  {
    seq(5, (i: nat) requires i < 5 => start * Pow(r, i))
  }

  /** The answer of a geometric-sequence question: `seq[-1] * r`. */
  function GeoAnswer(start: int, r: int): int
  {
    GeoTerms(start, r)[4] * r
  }

  /** The geometric sequence advances by the factor `r`, and the answer `seq[-1] * r` continues it. */
  lemma GeoNext(start: int, r: int)
    ensures forall i :: 0 <= i < 4 ==> GeoTerms(start, r)[i + 1] == GeoTerms(start, r)[i] * r
    ensures GeoAnswer(start, r) == start * Pow(r, 5)
  {
    forall i | 0 <= i < 4
      ensures GeoTerms(start, r)[i + 1] == GeoTerms(start, r)[i] * r
    {
      assert Pow(r, i + 1) == Pow(r, i) * r;
      assert start * (Pow(r, i) * r) == (start * Pow(r, i)) * r;
    }
    assert start * (Pow(r, 4) * r) == (start * Pow(r, 4)) * r;
  }

  /** `range(120, 980, 17)` */
  function PercentBases(): (bases: seq<int>)
    ensures |bases| == 51 && bases[0] == 120 && bases[50] == 970
  {
    seq(51, k => 120 + 17 * k)
  }

  const PercentList: seq<int> := [5, 10, 12, 15, 20, 25, 30, 40, 50]

  /** `order` lists each position of a list of length `n` once: a shuffle of it. */
  predicate IsShuffle(order: seq<nat>, n: nat)
  {
    |order| == n && (forall k :: 0 <= k < n ==> order[k] < n) &&
    forall i, j :: 0 <= i < j < n ==> order[i] != order[j]
  }

  /** The sum the addition section asks for as its record `k`: row `k / 5`, column `k % 5`. */
  function AdditionAnswer(k: int): int
  {
    (11 + 5 * (k / 5)) + (9 + 7 * (k % 5))
  }

  /** The difference the subtraction section asks for as record `k`: `m = k - 50`, row `m / 6`, column `m % 6`. */
  function SubtractionAnswer(k: int): int
  {
    var m := k - 50;
    (90 - 4 * (m / 6)) - (5 + 5 * (m % 6))
  }

  /** The records from position `lo` on mark `answers`, in order. */
  ghost predicate MarksFrom(qs: seq<Entry>, lo: nat, answers: seq<int>)
  {
    lo <= |qs| <= lo + |answers| && forall k :: lo <= k < |qs| ==> Marks(qs[k], answers[k - lo])
  }

  /** Appending a record that marks the next of `answers` keeps `MarksFrom`. */
  lemma MarksFromStep(qs: seq<Entry>, lo: nat, answers: seq<int>)
    requires lo < |qs| <= lo + |answers| && MarksFrom(qs[..|qs| - 1], lo, answers)
    requires Marks(qs[|qs| - 1], answers[|qs| - 1 - lo])
    ensures MarksFrom(qs, lo, answers)
  {
    forall k | lo <= k < |qs| - 1
      ensures Marks(qs[k], answers[k - lo])
    {
      assert qs[k] == qs[..|qs| - 1][k];
    }
  }

  /** The product the product section asks for as record `k`: `m = k - 116`, `a = 6 + m / 10`, `b = 6 + m % 10`. */
  function ProductAnswer(k: int): int
  {
    var m := k - 116;
    (6 + m / 10) * (6 + m % 10)
  }

  /** `base + round(base * p / 100)` */
  function PercentAnswer(base: int, p: int): int
  {
    base + RoundHalfEven(base * p, 100)
  }

  /** The sum the fill loop asks for in its `m`-th record: `(31 + m) + (47 + 2m)`. */
  function FillAt(m: int): int
  {
    (31 + m) + (47 + 2 * m)
  }

  /** Every record from position `lo` on is an exact division question for one of `pairs`. */
  ghost predicate DivisionsFrom(qs: seq<Entry>, lo: nat, pairs: seq<(int, int)>)
  {
    lo <= |qs| && forall k :: lo <= k < |qs| ==> ExactDivision(qs[k], pairs)
  }

  /** Appending an exact division question keeps `DivisionsFrom`. */
  lemma DivisionsStep(qs: seq<Entry>, lo: nat, pairs: seq<(int, int)>)
    requires lo < |qs| && DivisionsFrom(qs[..|qs| - 1], lo, pairs) && ExactDivision(qs[|qs| - 1], pairs)
    ensures DivisionsFrom(qs, lo, pairs)
  {
    forall k | lo <= k < |qs| - 1
      ensures ExactDivision(qs[k], pairs)
    {
      assert qs[k] == qs[..|qs| - 1][k];
    }
  }

  /** Position `w*i + j` of a row-major grid of width `w` lies in row `i` and column `j`. */
  lemma RowColumn(w: int, i: int, j: int)
    requires w > 0 && i >= 0 && 0 <= j < w
    ensures (w * i + j) / w == i && (w * i + j) % w == j
  {
    var n := w * i + j;
    var q, r := n / w, n % w;
    assert w * (q - i) == j - r;
    if q - i >= 1 {
      G.MulAtLeast(w, q - i);
    } else if q - i <= -1 {
      G.MulAtLeast(w, i - q);
    }
  }

  // ---------------------------------------------------------------------------
  // The script: questions and qid
  // ---------------------------------------------------------------------------

  /** Size of the dataset. */
  const Total: nat := 500

  /** The module-level `questions` list and `qid` counter. */
  class Dataset {
    var questions: seq<Entry>
    var qid: nat
    /** `perms[k]` is the shuffle `four_choices` makes for question `k + 1`. */
    const perms: seq<Shuffle4>

    /** `qid` is the id the next question gets; ids so far are 1, 2, ... in order. */
    ghost predicate Valid()
      reads this
    {
      qid == |questions| + 1 &&
      (forall k :: 0 <= k < |questions| ==> questions[k].id == k + 1) &&
      |perms| == Total
    }

    constructor (shuffles: seq<Shuffle4>)
      requires |shuffles| == Total
      ensures Valid() && questions == [] && qid == 1 && perms == shuffles
    {
      questions := [];
      qid := 1;
      perms := shuffles;
    }

    /** `questions.append(mcq(qid, ...)); qid += 1` */
    method Add(qtype: string, question: string, correct: int, explanation: string, tags: seq<string>)
      requires Valid() && qid <= Total
      modifies this
      ensures Valid() && qid == old(qid) + 1 && |questions| == old(|questions|) + 1
      ensures questions[..old(|questions|)] == old(questions)
      ensures forall k :: 0 <= k < old(|questions|) ==> questions[k] == old(questions[k])
      ensures Marks(questions[old(|questions|)], correct)
      ensures questions[old(|questions|)].question == question
    {
      var e := MakeMcq(qid, qtype, question, correct, explanation, tags, perms[qid - 1]);
      questions := questions + [e];
      qid := qid + 1;
    }

    /** One division question `a ÷ b` with its quotient `q = a // b`, exact since `b` divides `a`. */
    method AddQuotient(a: int, b: int)
      requires Valid() && qid <= Total && b > 0 && a % b == 0
      modifies this
      ensures Valid() && qid == old(qid) + 1
      ensures questions[..old(|questions|)] == old(questions)
      ensures Marks(questions[old(|questions|)], a / b) && (a / b) * b == a
    {
      var q := a / b;
      G.DivExact(a, b);
      Add("math", "ما ناتج " + IntToString(a) + " ÷ " + IntToString(b) + "؟", q,
          IntToString(a) + "÷" + IntToString(b) + "=" + IntToString(q) + ".", ["رياضيات", "قسمة"]);
    }

    /** One addition question `a + b`, marking the sum. */
    method AddSum(a: int, b: int)
      requires Valid() && qid <= Total
      modifies this
      ensures Valid() && qid == old(qid) + 1
      ensures questions[..old(|questions|)] == old(questions)
      ensures Marks(questions[old(|questions|)], a + b)
    {
      var s := a + b;
      Add("math", "ما ناتج " + IntToString(a) + " + " + IntToString(b) + "؟", s,
          IntToString(a) + "+" + IntToString(b) + "=" + IntToString(s) + ".", ["رياضيات", "جمع"]);
    }

    /** One subtraction question `a - b`, marking the difference. */
    method AddDifference(a: int, b: int)
      requires Valid() && qid <= Total
      modifies this
      ensures Valid() && qid == old(qid) + 1
      ensures questions[..old(|questions|)] == old(questions)
      ensures Marks(questions[old(|questions|)], a - b)
    {
      var d := a - b;
      Add("math", "ما ناتج " + IntToString(a) + " - " + IntToString(b) + "؟", d,
          IntToString(a) + "-" + IntToString(b) + "=" + IntToString(d) + ".", ["رياضيات", "طرح"]);
    }

    /** One multiplication question `a × b`, marking the product. */
    method AddProduct(a: int, b: int)
      requires Valid() && qid <= Total
      modifies this
      ensures Valid() && qid == old(qid) + 1
      ensures questions[..old(|questions|)] == old(questions)
      ensures Marks(questions[old(|questions|)], a * b)
    {
      var p := a * b;
      Add("math", "ما ناتج " + IntToString(a) + " × " + IntToString(b) + "؟", p,
          IntToString(a) + "×" + IntToString(b) + "=" + IntToString(p) + ".", ["رياضيات", "ضرب"]);
    }

    /** One percentage question: `base` raised by `p` percent, marking `base + round(base * p / 100)`. */
    method AddPercent(base: int, p: int)
      requires Valid() && qid <= Total
      modifies this
      ensures Valid() && qid == old(qid) + 1
      ensures questions[..old(|questions|)] == old(questions)
      ensures Marks(questions[old(|questions|)], PercentAnswer(base, p))
    {
      var inc := RoundHalfEven(base * p, 100);
      var newv := base + inc;
      Add("math", "زِيدَ عدد من " + IntToString(base) + " بنسبة " + IntToString(p) + "٪، فما القيمة الجديدة؟", newv,
          "الزيادة=" + IntToString(inc) + "؛ الجديد=" + IntToString(newv) + ".", ["رياضيات", "نسب"]);
    }

    /** One arithmetic-sequence question: the five terms from `start` with difference `d`, marking `seq[-1] + d`. */
    method AddArithmetic(start: int, d: int)
      requires Valid() && qid <= Total
      modifies this
      ensures Valid() && qid == old(qid) + 1
      ensures questions[..old(|questions|)] == old(questions)
      ensures Marks(questions[old(|questions|)], ArithAnswer(start, d))
    {
      var terms := ArithTerms(start, d);
      var nxt := terms[4] + d;
      Add("logic", "أكمل: " + Join(", ", MapToString(terms)) + ", ___", nxt,
          "حسابية d=" + IntToString(d) + "؛ التالي=" + IntToString(nxt) + ".", ["منطق", "متتاليات"]);
    }

    /** One geometric-sequence question: the five terms from `start` with ratio `r`, marking `seq[-1] * r`. */
    method AddGeometric(start: int, r: int)
      requires Valid() && qid <= Total
      modifies this
      ensures Valid() && qid == old(qid) + 1
      ensures questions[..old(|questions|)] == old(questions)
      ensures Marks(questions[old(|questions|)], GeoAnswer(start, r))
    {
      var terms := GeoTerms(start, r);
      var nxt := terms[4] * r;
      Add("logic", "أكمل: " + Join(", ", MapToString(terms)) + ", ___", nxt,
          "هندسية r=" + IntToString(r) + "؛ التالي=" + IntToString(nxt) + ".", ["منطق", "متتاليات"]);
    }

    /**
     * Section 1, additions: `a` in 11, 16, ..., 56 and `b` in 9, 16, ..., 37,
     * capped at id 100. Record `k` asks for `a + b` with `a` from row `k / 5`
     * and `b` from column `k % 5`.
     */
    method AdditionSection()
      requires Valid() && qid == 1
      modifies this
      ensures Valid() && qid == 51
      ensures forall k :: 0 <= k < 50 ==> Marks(questions[k], AdditionAnswer(k))
    {
      ghost var answers := seq(50, k => AdditionAnswer(k));
      var i := 0;
      while i < 10
        invariant 0 <= i <= 10 && Valid() && qid == 1 + 5 * i
        invariant MarksFrom(questions, 0, answers)
      {
        var a := 11 + 5 * i;
        var j := 0;
        while j < 5
          invariant 0 <= j <= 5 && Valid() && qid == 1 + 5 * i + j
          invariant MarksFrom(questions, 0, answers)
        {
          if qid > 100 {
            break;
          }
          var b := 9 + 7 * j;
          RowColumn(5, i, j);
          assert answers[|questions|] == a + b;
          ghost var before := questions;
          AddSum(a, b);
          assert questions[..|questions| - 1] == before;
          MarksFromStep(questions, 0, answers);
          j := j + 1;
        }
        if qid > 100 {
          break;
        }
        i := i + 1;
      }
      forall k | 0 <= k < 50
        ensures Marks(questions[k], AdditionAnswer(k))
      {
        assert Marks(questions[k], answers[k - 0]);
      }
    }

    /**
     * Section 1, subtractions: `a` in 90, 86, ..., 50 and `b` in 5, 10, ..., 30,
     * capped at id 150. Record `50 + m` asks for `a - b` with `a` from row
     * `m / 6` and `b` from column `m % 6`; the additions are kept.
     */
    method SubtractionSection()
      requires Valid() && qid == 51
      modifies this
      ensures Valid() && qid == 117
      ensures questions[..50] == old(questions)
      ensures forall k :: 50 <= k < 116 ==>
                Marks(questions[k], SubtractionAnswer(k))
    {
      ghost var answers := seq(66, m => SubtractionAnswer(50 + m));
      var i := 0;
      while i < 11
        invariant 0 <= i <= 11 && Valid() && qid == 51 + 6 * i
        invariant questions[..50] == old(questions)
        invariant MarksFrom(questions, 50, answers)
      {
        var a := 90 - 4 * i;
        var j := 0;
        while j < 6
          invariant 0 <= j <= 6 && Valid() && qid == 51 + 6 * i + j
          invariant questions[..50] == old(questions)
          invariant MarksFrom(questions, 50, answers)
        {
          if qid > 150 {
            break;
          }
          var b := 5 + 5 * j;
          RowColumn(6, i, j);
          assert answers[|questions| - 50] == a - b;
          ghost var before := questions;
          AddDifference(a, b);
          assert questions[..|questions| - 1] == before;
          MarksFromStep(questions, 50, answers);
          j := j + 1;
        }
        if qid > 150 {
          break;
        }
        i := i + 1;
      }
      forall k | 50 <= k < 116
        ensures Marks(questions[k], SubtractionAnswer(k))
      {
        assert Marks(questions[k], answers[k - 50]);
      }
    }

    /**
     * Section 2, products: `a` and `b` in 6..15, capped at id 270. Record
     * `116 + m` asks for `a × b` with `a = 6 + m / 10` and `b = 6 + m % 10`;
     * the earlier records are kept.
     */
    method ProductSection()
      requires Valid() && qid == 117
      modifies this
      ensures Valid() && qid == 217
      ensures questions[..116] == old(questions)
      ensures forall k :: 116 <= k < 216 ==> Marks(questions[k], ProductAnswer(k))
    {
      ghost var answers := seq(100, m => ProductAnswer(116 + m));
      var a := 6;
      while a < 16
        invariant 6 <= a <= 16 && Valid() && qid == 117 + 10 * (a - 6)
        invariant questions[..116] == old(questions)
        invariant MarksFrom(questions, 116, answers)
      {
        var b := 6;
        while b < 16
          invariant 6 <= b <= 16 && Valid() && qid == 117 + 10 * (a - 6) + (b - 6)
          invariant questions[..116] == old(questions)
          invariant MarksFrom(questions, 116, answers)
        {
          if qid > 270 {
            break;
          }
          RowColumn(10, a - 6, b - 6);
          assert answers[|questions| - 116] == a * b;
          ghost var before := questions;
          AddProduct(a, b);
          assert questions[..|questions| - 1] == before;
          MarksFromStep(questions, 116, answers);
          b := b + 1;
        }
        if qid > 270 {
          break;
        }
        a := a + 1;
      }
      forall k | 116 <= k < 216
        ensures Marks(questions[k], ProductAnswer(k))
      {
        assert Marks(questions[k], answers[k - 116]);
      }
    }

    /**
     * Section 3, divisions: the pairs `(a, b)` with `a % b == 0` for `a` in
     * 12..99, shuffled (`order`), the first 80 of them, capped at id 350.
     */
    method DivisionSection(bs: seq<int>, order: seq<nat>)
      requires Valid() && qid == 217
      requires |bs| == 88 && forall k :: 0 <= k < 88 ==> 2 <= bs[k] <= 12
      requires IsShuffle(order, |PairsUpTo(bs, 88)|)
      modifies this
      ensures Valid()
      ensures qid == 217 + (if |PairsUpTo(bs, 88)| < 80 then |PairsUpTo(bs, 88)| else 80)
      ensures questions[..216] == old(questions)
      ensures forall j :: 216 <= j < |questions| ==> ExactDivision(questions[j], PairsUpTo(bs, 88))
    {
      var pairs := CollectPairs(bs);
      var shuffled := seq(|pairs|, k requires 0 <= k < |pairs| => pairs[order[k]]);
      var count := if |shuffled| < 80 then |shuffled| else 80;
      var k := 0;
      while k < count
        invariant 0 <= k <= count && Valid() && qid == 217 + k
        invariant questions[..216] == old(questions)
        invariant DivisionsFrom(questions, 216, pairs)
      {
        if qid > 350 {
          break;
        }
        var p := shuffled[k];
        assert p in pairs;
        ghost var before := questions;
        AddQuotient(p.0, p.1);
        assert questions[..|questions| - 1] == before;
        assert ExactDivision(questions[|questions| - 1], pairs);
        DivisionsStep(questions, 216, pairs);
        k := k + 1;
      }
    }

    /**
     * Section 4, percentage increases: the first 50 of the shuffled bases
     * (`order`), each with its drawn percentage `ps[k]`, capped at id 400.
     * Record `k` of the section marks the base plus its rounded increase.
     */
    method PercentSection(order: seq<nat>, ps: seq<int>)
      requires Valid() && 217 <= qid <= 297
      requires IsShuffle(order, 51) && |ps| == 50 && forall k :: 0 <= k < 50 ==> ps[k] in PercentList
      modifies this
      ensures Valid() && qid == old(qid) + 50
      ensures questions[..old(|questions|)] == old(questions)
      ensures forall k :: 0 <= k < 50 ==> Marks(questions[old(|questions|) + k], PercentAnswer(PercentBases()[order[k]], ps[k]))
    {
      var bases := PercentBases();
      ghost var n0 := |questions|;
      ghost var answers := seq(50, m requires 0 <= m < 50 => PercentAnswer(PercentBases()[order[m]], ps[m]));
      var k := 0;
      while k < 50
        invariant 0 <= k <= 50 && Valid() && qid == old(qid) + k && |questions| == n0 + k
        invariant questions[..n0] == old(questions)
        invariant MarksFrom(questions, n0, answers)
      {
        if qid > 400 {
          break;
        }
        var base := bases[order[k]];
        var p := ps[k];
        assert answers[k] == PercentAnswer(base, p);
        ghost var before := questions;
        AddPercent(base, p);
        assert questions[..|questions| - 1] == before;
        MarksFromStep(questions, n0, answers);
        k := k + 1;
      }
      forall k | 0 <= k < 50
        ensures Marks(questions[n0 + k], PercentAnswer(PercentBases()[order[k]], ps[k]))
      {
        assert Marks(questions[n0 + k], answers[n0 + k - n0]);
      }
    }

    /** Section 5, averages of five numbers: one record per drawn set, in order, capped at id 450. */
    method AverageSection(sets: seq<seq<int>>)
      requires Valid() && 267 <= qid <= 347
      requires |sets| == 50 && forall k :: 0 <= k < 50 ==> |sets[k]| == 5
      modifies this
      ensures Valid() && qid == old(qid) + 50
      ensures questions == old(questions) + seq(50, k requires 0 <= k < 50 => Average(old(qid) + k, sets[k]))
    {
      var k := 0;
      while k < 50
        invariant 0 <= k <= 50 && Valid() && qid == old(qid) + k
        invariant questions == old(questions) + seq(k, m requires 0 <= m < k => Average(old(qid) + m, sets[m]))
      {
        if qid > 450 {
          break;
        }
        questions := questions + [Average(qid, sets[k])];
        qid := qid + 1;
        k := k + 1;
      }
    }

    /**
     * Section 6, arithmetic sequences from 2, 5, ..., 17 with drawn
     * differences `ds`, capped at id 475. Record `k` of the section marks
     * `seq[-1] + d`, the term after the five shown.
     */
    method ArithmeticSection(ds: seq<int>)
      requires Valid() && 317 <= qid <= 397
      requires |ds| == 6 && forall k :: 0 <= k < 6 ==> 2 <= ds[k] <= 9
      modifies this
      ensures Valid() && qid == old(qid) + 6
      ensures questions[..old(|questions|)] == old(questions)
      ensures forall k :: 0 <= k < 6 ==> Marks(questions[old(|questions|) + k], ArithAnswer(2 + 3 * k, ds[k]))
    {
      ghost var n0 := |questions|;
      ghost var answers := seq(6, m requires 0 <= m < 6 => ArithAnswer(2 + 3 * m, ds[m]));
      var k := 0;
      while k < 6
        invariant 0 <= k <= 6 && Valid() && qid == old(qid) + k && |questions| == n0 + k
        invariant questions[..n0] == old(questions)
        invariant MarksFrom(questions, n0, answers)
      {
        if qid > 475 {
          break;
        }
        assert answers[k] == ArithAnswer(2 + 3 * k, ds[k]);
        ghost var before := questions;
        AddArithmetic(2 + 3 * k, ds[k]);
        assert questions[..|questions| - 1] == before;
        MarksFromStep(questions, n0, answers);
        k := k + 1;
      }
      forall k | 0 <= k < 6
        ensures Marks(questions[n0 + k], ArithAnswer(2 + 3 * k, ds[k]))
      {
        assert Marks(questions[n0 + k], answers[n0 + k - n0]);
      }
    }

    /**
     * Section 6, geometric sequences from 2..6 with drawn ratios `rs`,
     * capped at id 500. Record `k` of the section marks `seq[-1] * r`, the
     * term after the five shown.
     */
    method GeometricSection(rs: seq<int>)
      requires Valid() && 323 <= qid <= 403
      requires |rs| == 5 && forall k :: 0 <= k < 5 ==> 2 <= rs[k] <= 5
      modifies this
      ensures Valid() && qid == old(qid) + 5
      ensures questions[..old(|questions|)] == old(questions)
      ensures forall k :: 0 <= k < 5 ==> Marks(questions[old(|questions|) + k], GeoAnswer(2 + k, rs[k]))
    {
      ghost var n0 := |questions|;
      ghost var answers := seq(5, m requires 0 <= m < 5 => GeoAnswer(2 + m, rs[m]));
      var k := 0;
      while k < 5
        invariant 0 <= k <= 5 && Valid() && qid == old(qid) + k && |questions| == n0 + k
        invariant questions[..n0] == old(questions)
        invariant MarksFrom(questions, n0, answers)
      {
        if qid > 500 {
          break;
        }
        assert answers[k] == GeoAnswer(2 + k, rs[k]);
        ghost var before := questions;
        AddGeometric(2 + k, rs[k]);
        assert questions[..|questions| - 1] == before;
        MarksFromStep(questions, n0, answers);
        k := k + 1;
      }
      forall k | 0 <= k < 5
        ensures Marks(questions[n0 + k], GeoAnswer(2 + k, rs[k]))
      {
        assert Marks(questions[n0 + k], answers[n0 + k - n0]);
      }
    }

    /**
     * The fill loop: additions `31 + 47`, `32 + 49`, ... until the last id
     * is 500. The `m`-th appended record marks `(31 + m) + (47 + 2m)`.
     */
    method Fill()
      requires Valid() && qid <= Total + 1
      modifies this
      ensures Valid() && qid == Total + 1
      ensures questions[..old(|questions|)] == old(questions)
      ensures forall k :: old(|questions|) <= k < Total ==> Marks(questions[k], FillAt(k - old(|questions|)))
    {
      ghost var n0 := |questions|;
      ghost var answers := seq(Total - n0, m => FillAt(m));
      var a, b := 31, 47;
      while qid <= Total
        invariant Valid() && qid <= Total + 1
        invariant a == 31 + (|questions| - n0) && b == 47 + 2 * (|questions| - n0)
        invariant questions[..n0] == old(questions)
        invariant MarksFrom(questions, n0, answers)
        decreases Total + 1 - qid
      {
        assert answers[|questions| - n0] == a + b;
        ghost var before := questions;
        AddSum(a, b);
        assert questions[..|questions| - 1] == before;
        MarksFromStep(questions, n0, answers);
        a := a + 1;
        b := b + 2;
      }
      forall k | n0 <= k < Total
        ensures Marks(questions[k], FillAt(k - n0))
      {
        assert Marks(questions[k], answers[k - n0]);
      }
    }
  }

  /** The `for a in range(12, 100)` loop that collects the division pairs. */
  method CollectPairs(bs: seq<int>) returns (pairs: seq<(int, int)>)
    requires |bs| == 88 && forall k :: 0 <= k < 88 ==> 2 <= bs[k] <= 12
    ensures pairs == PairsUpTo(bs, 88)
  {
    pairs := [];
    var a := 12;
    while a < 100
      invariant 12 <= a <= 100 && pairs == PairsUpTo(bs, a - 12)
    {
      var b := bs[a - 12];
      if a % b == 0 {
        pairs := pairs + [(a, b)];
      }
      a := a + 1;
    }
  }

  /** The random draws of the whole script. */
  datatype Draws = Draws(
    shuffles: seq<Shuffle4>,
    divisors: seq<int>,
    pairOrder: seq<nat>,
    baseOrder: seq<nat>,
    percents: seq<int>,
    sets: seq<seq<int>>,
    differences: seq<int>,
    ratios: seq<int>)

  /** Every draw is in the literal range the script draws it from. */
  predicate ValidDraws(r: Draws)
  {
    |r.shuffles| == Total &&
    |r.divisors| == 88 && (forall k :: 0 <= k < 88 ==> 2 <= r.divisors[k] <= 12) &&
    IsShuffle(r.pairOrder, |PairsUpTo(r.divisors, 88)|) &&
    IsShuffle(r.baseOrder, 51) &&
    |r.percents| == 50 && (forall k :: 0 <= k < 50 ==> r.percents[k] in PercentList) &&
    |r.sets| == 50 && (forall k :: 0 <= k < 50 ==> |r.sets[k]| == 5 && forall m :: 0 <= m < 5 ==> 10 <= r.sets[k][m] <= 99) &&
    |r.differences| == 6 && (forall k :: 0 <= k < 6 ==> 2 <= r.differences[k] <= 9) &&
    |r.ratios| == 5 && (forall k :: 0 <= k < 5 ==> 2 <= r.ratios[k] <= 5)
  }

  /** The whole script: exactly 500 questions, numbered 1 to 500 in order. */
  method BuildDataset(r: Draws) returns (d: Dataset)
    requires ValidDraws(r)
    ensures |d.questions| == Total
    ensures forall k :: 0 <= k < Total ==> d.questions[k].id == k + 1
  {
    d := new Dataset(r.shuffles);
    d.AdditionSection();
    d.SubtractionSection();
    d.ProductSection();
    d.DivisionSection(r.divisors, r.pairOrder);
    d.PercentSection(r.baseOrder, r.percents);
    d.AverageSection(r.sets);
    d.ArithmeticSection(r.differences);
    d.GeometricSection(r.ratios);
    d.Fill();
  }
}
