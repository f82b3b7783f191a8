/**
 * The question bank of app.py: loading `data.json` items of two shapes into
 * one normalised form, drawing questions without repetition for a user,
 * judging a button press, the 1..12 multiplication table and the guard of
 * the multiplication mode.
 */
module QuestionBank {
  import opened Wrappers
  import opened Text

  // ---------------------------------------------------------------------------
  // load_questions
  // ---------------------------------------------------------------------------

  /** A JSON `id`: a number or a string. */
  datatype IdValue = IdInt(n: int) | IdStr(s: string)

  /** A JSON `answer_index`: an integer, a boolean (a Python `int`), or anything else. */
  datatype IndexValue = JInt(n: int) | JBool(b: bool) | JOther

  /**
   * One item of `data.json`. A field is None when the key is absent; for
   * `question`, `q`, `choices` and `options` a JSON `null` is None as well.
   */
  datatype RawItem = RawItem(
    id: Option<IdValue>,
    question: Option<string>,
    q: Option<string>,
    choices: Option<seq<string>>,
    options: Option<seq<string>>,
    answer: Option<string>,
    answerIndex: Option<IndexValue>,
    explanation: Option<string>)

  /** `{"id", "q", "choices", "correct", "explanation"}` */
  datatype Norm = Norm(id: string, q: string, choices: seq<string>, correct: string, explanation: string)

  /** `a or b` for an optional string: `a` when it is a non-empty string. */
  function OrText(a: Option<string>, b: string): (r: string)
    ensures a.Some? && a.value != "" ==> r == a.value
    ensures a.None? || a.value == "" ==> r == b
  {
    if a.Some? && a.value != "" then a.value else b
  }

  /** `a or b` for an optional list: `a` when it is a non-empty list. */
  function OrList(a: Option<seq<string>>, b: seq<string>): (r: seq<string>)
    ensures a.Some? && a.value != [] ==> r == a.value
    ensures a.None? || a.value == [] ==> r == b
  {
    if a.Some? && a.value != [] then a.value else b
  }

  /** The integer `answer_index` denotes when `isinstance(item["answer_index"], int)`; `True` is 1. */
  function AnswerIndexOf(v: Option<IndexValue>): Option<int>
  {
    match v
    case Some(JInt(n)) => Some(n)
    case Some(JBool(b)) => Some(if b then 1 else 0)
    case _ => None
  }

  /** `str(item.get("id", i))` */
  function IdText(id: Option<IdValue>, position: nat): string
  {
    match id
    case None => IntToString(position)
    case Some(IdInt(n)) => IntToString(n)
    case Some(IdStr(s)) => s
  }

  /** `answer_index` is an integer that indexes `choices`. */
  predicate HasValidIndex(item: RawItem, choices: seq<string>)
  {
    AnswerIndexOf(item.answerIndex).Some? && 0 <= AnswerIndexOf(item.answerIndex).value < |choices|
  }

  /** The choices after the fallbacks: `choices`, else `options`, else `[answer]`, else none. */
  function ChoicesOf(item: RawItem): (choices: seq<string>)
    ensures choices == [] <==>
              (item.choices.None? || item.choices.value == []) &&
              (item.options.None? || item.options.value == []) && item.answer.None?
  {
    var c := OrList(item.choices, OrList(item.options, []));
    if c == [] && item.answer.Some? then [item.answer.value] else c
  }

  /**
   * The normalised form of the item at 1-based `position`. The marked answer
   * is the choice `answer_index` points at, else `answer`, else the first
   * choice, else the empty string.
   */
  function Normalize(position: nat, item: RawItem): (r: Norm)
    ensures r.choices == ChoicesOf(item)
    ensures r.q == OrText(item.question, OrText(item.q, ""))
    ensures r.id == IdText(item.id, position) && r.explanation == item.explanation.GetOr("")
    ensures HasValidIndex(item, r.choices) ==> r.correct == r.choices[AnswerIndexOf(item.answerIndex).value]
    ensures !HasValidIndex(item, r.choices) && item.answer.Some? ==> r.correct == item.answer.value
    ensures !HasValidIndex(item, r.choices) && item.answer.None? && r.choices != [] ==> r.correct == r.choices[0]
    ensures item.answer.None? ==> (r.correct in r.choices <==> r.choices != [])
    ensures r.choices == [] ==> r.correct == ""
  {
    var choices := ChoicesOf(item);
    var correct :=
      if HasValidIndex(item, choices) then choices[AnswerIndexOf(item.answerIndex).value]
      else if item.answer.Some? then item.answer.value
      else if choices != [] then choices[0]
      else "";
    Norm(IdText(item.id, position), OrText(item.question, OrText(item.q, "")), choices, correct,
         item.explanation.GetOr(""))
  }

  /** An item with only an `answer` gets that answer as its single choice, and marks it. */
  lemma AnswerOnlyItem(position: nat, item: RawItem)
    requires item.answer.Some? && item.choices.None? && item.options.None?
    ensures Normalize(position, item).choices == [item.answer.value]
    ensures Normalize(position, item).correct == item.answer.value
  {
  }

  /** Items without an `id` at different positions get different ids. */
  lemma DefaultIdsDistinct(i: nat, a: RawItem, j: nat, b: RawItem)
    requires a.id.None? && b.id.None? && i != j
    ensures Normalize(i, a).id != Normalize(j, b).id
  {
    IntToStringInjective(i, j);
  }

  /**
   * `load_questions`: one normalised entry per item, in order, numbered
   * from 1; a missing file (`raw` is None) gives no questions.
   */
  method LoadQuestions(raw: Option<seq<RawItem>>) returns (norm: seq<Norm>)
    ensures raw.None? ==> norm == []
    ensures raw.Some? ==> |norm| == |raw.value|
    ensures raw.Some? ==> forall k :: 0 <= k < |norm| ==> norm[k] == Normalize(k + 1, raw.value[k])
  {
    if raw.None? {
      return [];
    }
    var items := raw.value;
    norm := [];
    var i := 0;
    while i < |items|
      invariant 0 <= i <= |items| && |norm| == i
      invariant forall k :: 0 <= k < i ==> norm[k] == Normalize(k + 1, items[k])
    {
      norm := norm + [Normalize(i + 1, items[i])];
      i := i + 1;
    }
  }

  // ---------------------------------------------------------------------------
  // _pick_next_question
  // ---------------------------------------------------------------------------

  /** `[q for q in QUESTIONS if q["id"] not in asked]` */
  function Remaining(bank: seq<Norm>, asked: set<string>): (r: seq<Norm>)
    ensures |r| <= |bank|
    ensures forall x :: x in r <==> x in bank && x.id !in asked
  {
    if bank == [] then []
    else
      var rest := Remaining(bank[1..], asked);
      if bank[0].id !in asked then [bank[0]] + rest else rest
  }

  /** The ids of the questions in the bank. */
  function Ids(bank: seq<Norm>): set<string>
  {
    set x | x in bank :: x.id
  }

  lemma RemainingEmpty(bank: seq<Norm>, asked: set<string>)
    ensures Remaining(bank, asked) == [] <==> Ids(bank) <= asked
  {
    if Remaining(bank, asked) != [] {
      var x := Remaining(bank, asked)[0];
      assert x.id in Ids(bank);
    }
  }

  /** Showing one more question adds its id. */
  lemma IdsAppend(shown: seq<Norm>, q: Norm)
    ensures Ids(shown + [q]) == Ids(shown) + {q.id}
  {
    assert forall x :: x in shown + [q] <==> x in shown || x == q;
  }

  lemma SubsetCard(a: set<string>, b: set<string>)
    requires a <= b
    ensures |a| <= |b|
  {
    assert b == a + (b - a);
  }

  /** Questions shown so far: from the bank, no id twice. */
  ghost predicate ShownFrom(bank: seq<Norm>, shown: seq<Norm>)
  {
    (forall a, b :: 0 <= a < b < |shown| ==> shown[a].id != shown[b].id) &&
    (forall k :: 0 <= k < |shown| ==> shown[k] in bank) &&
    Ids(shown) <= Ids(bank) && |Ids(shown)| == |shown|
  }

  /** Showing a bank question whose id is new keeps `ShownFrom`. */
  lemma ShownStep(bank: seq<Norm>, shown: seq<Norm>, q: Norm)
    requires ShownFrom(bank, shown)
    requires q in bank && q.id !in Ids(shown)
    ensures ShownFrom(bank, shown + [q])
    ensures Ids(shown + [q]) == Ids(shown) + {q.id}
  {
    IdsAppend(shown, q);
    forall k | 0 <= k < |shown|
      ensures shown[k].id != q.id
    {
      assert shown[k] in shown;
    }
    assert q.id in Ids(bank);
  }

  /** `context.user_data`'s `"asked_ids"` and `"current_q"`, with the loaded bank. */
  class Player {
    const bank: seq<Norm>
    var askedIds: Option<set<string>>
    var currentQ: Option<Norm>

    constructor (questions: seq<Norm>)
      ensures bank == questions && askedIds.None? && currentQ.None?
    {
      bank := questions;
      askedIds := None;
      currentQ := None;
    }

    /** `user_data.get("asked_ids")`, an absent set read as empty. */
    function Asked(): set<string>
      reads this
    {
      askedIds.GetOr({})
    }

    /**
     * `_pick_next_question`: a question whose id has not been asked, chosen
     * as `remaining[r % len(remaining)]` for the supplied draw `r` (every
     * index can be drawn), is recorded as asked and as current. When every
     * id has been asked nothing is stored and none is returned.
     */
    method PickNext(r: nat) returns (q: Option<Norm>)
      modifies this
      ensures q.None? <==> Ids(bank) <= old(Asked())
      ensures q.None? ==> unchanged(this)
      ensures q.Some? ==> q.value in bank && q.value.id !in old(Asked())
      ensures q.Some? ==> askedIds == Some(old(Asked()) + {q.value.id}) && currentQ == q
    {
      var asked := Asked();
      var remaining := Remaining(bank, asked);
      RemainingEmpty(bank, asked);
      if remaining == [] {
        return None;
      }
      var chosen := remaining[r % |remaining|];
      askedIds := Some(asked + {chosen.id});
      currentQ := Some(chosen);
      q := Some(chosen);
    }

    /**
     * `menu_quiz` followed by `quiz_next` presses: the asked set is reset,
     * then one pick per draw. The questions shown never repeat an id, their
     * ids are exactly the asked set, one is shown per draw until every
     * distinct id has been shown, and the last one shown is current.
     */
    method Run(draws: seq<nat>) returns (shown: seq<Norm>)
      modifies this
      ensures forall i, j :: 0 <= i < j < |shown| ==> shown[i].id != shown[j].id
      ensures forall i :: 0 <= i < |shown| ==> shown[i] in bank
      ensures |shown| <= |Ids(bank)|
      ensures |shown| < |draws| ==> Ids(bank) <= Asked()
      ensures askedIds == Some(Ids(shown)) && |Ids(shown)| == |shown|
      ensures |shown| == (if |draws| < |Ids(bank)| then |draws| else |Ids(bank)|)
      ensures |shown| > 0 ==> currentQ == Some(shown[|shown| - 1])
      ensures |shown| == 0 ==> currentQ == old(currentQ)
    {
      askedIds := Some({});
      shown := [];
      assert Ids(shown) == {};
      var i := 0;
      while i < |draws|
        invariant 0 <= i <= |draws| && |shown| <= i
        invariant askedIds == Some(Ids(shown)) && ShownFrom(bank, shown)
        invariant |shown| == i || Ids(shown) == Ids(bank)
        invariant |shown| > 0 ==> currentQ == Some(shown[|shown| - 1])
        invariant |shown| == 0 ==> currentQ == old(currentQ)
      {
        var q := PickNext(draws[i]);
        if q.Some? {
          ShownStep(bank, shown, q.value);
          shown := shown + [q.value];
        }
        i := i + 1;
      }
      SubsetCard(Ids(shown), Ids(bank));
    }

    /**
     * The check in `quiz_answer` for callback data `data` (`"quiz_ans:<i>"`):
     * None without a current question; otherwise whether the chosen text,
     * `""` for an index out of range or not a number, equals the marked answer.
     */
    function QuizAnswer(data: string): (r: Option<bool>)
      reads this
      ensures r.None? <==> currentQ.None?
    {
      match currentQ
      case None => None
      case Some(cur) =>
        var chosen := ChosenIndex(SecondField(data, ':'));
        var chosenText := if 0 <= chosen < |cur.choices| then cur.choices[chosen] else "";
        Some(chosenText == cur.correct)
    }
  }

  /** Pressing the button of choice `i` is judged correct exactly when that choice is the marked answer. */
  lemma ButtonJudged(p: Player, i: nat)
    requires p.currentQ.Some? && i < |p.currentQ.value.choices|
    ensures p.QuizAnswer("quiz_ans:" + IntToString(i)) == Some(p.currentQ.value.choices[i] == p.currentQ.value.correct)
  {
    assert "quiz_ans:" + IntToString(i) == "quiz_ans" + [':'] + IntToString(i);
    SecondFieldRoundTrip("quiz_ans", ':', i);
  }

  /** Callback data that does not carry an index in range compares `""` with the marked answer. */
  lemma OutOfRangeJudged(p: Player, data: string)
    requires p.currentQ.Some?
    requires var c := ChosenIndex(SecondField(data, ':')); c < 0 || c >= |p.currentQ.value.choices|
    ensures p.QuizAnswer(data) == Some(p.currentQ.value.correct == "")
  {
  }

  // ---------------------------------------------------------------------------
  // _make_table and the multiplication mode of text_router
  // ---------------------------------------------------------------------------

  const TableHeader: string := "📚 جدول الضرب"

  /** Line `i` of `_make_table(n)`: `f"{i} × {n} = {i*n}"`. */
  function TableLine(i: int, n: int): string
  {
    IntToString(i) + " × " + IntToString(n) + " = " + IntToString(i * n)
  }

  /** The twelve lines `i × n = i*n` for i = 1..12. */
  function TableBody(n: int): (lines: seq<string>)
    ensures |lines| == 12 && forall k :: 0 <= k < 12 ==> lines[k] == TableLine(k + 1, n)
  {
    seq(12, k => TableLine(k + 1, n))
  }

  /** `_make_table(n)`: the header line and the lines for i = 1..12. */
  function MakeTable(n: int): string
  {
    TableHeader + "\n" + Join("\n", TableBody(n))
  }

  lemma NoNewlineInLine(i: int, n: int)
    ensures '\n' !in TableLine(i, n)
  {
    NoNewlineInNumber(i);
    NoNewlineInNumber(n);
    NoNewlineInNumber(i * n);
  }

  /** The table splits into the header and exactly 12 lines, line `i` being `i × n = i*n`. */
  lemma MakeTableLines(n: int)
    ensures |Split(MakeTable(n), '\n')| == 13
    ensures Split(MakeTable(n), '\n')[0] == TableHeader
    ensures forall i :: 1 <= i <= 12 ==> Split(MakeTable(n), '\n')[i] == TableLine(i, n)
  {
    MakeTableSplit(n);
    var lines := Split(MakeTable(n), '\n');
    forall i | 1 <= i <= 12
      ensures lines[i] == TableLine(i, n)
    {
      assert lines[i] == TableBody(n)[i - 1];
    }
  }

  /** Splitting the table at its newlines gives the header, then the body. */
  lemma MakeTableSplit(n: int)
    ensures Split(MakeTable(n), '\n') == [TableHeader] + TableBody(n)
  {
    var lines := TableBody(n);
    forall k | 0 <= k < 12
      ensures '\n' !in lines[k]
    {
      NoNewlineInLine(k + 1, n);
    }
    SplitJoin(lines, '\n');
    assert '\n' !in TableHeader;
    SplitAtFirst(TableHeader, '\n', Join("\n", lines));
  }

  /** What the multiplication mode answers to a text message. */
  datatype MultOutcome = NotANumber | Table(text: string) | Crash

  /** Python's `s.isdigit()` on ASCII text: non-empty and all digits. */
  predicate IsDigitString(s: string)
  {
    |s| >= 1 && AllDigits(s)
  }

  /** `s.lstrip("-")` */
  function StripMinus(s: string): (r: string)
    ensures |r| <= |s| && r == s[|s| - |r|..]
    ensures r == [] || r[0] != '-'
  {
    if s != [] && s[0] == '-' then StripMinus(s[1..]) else s
  }

  /**
   * The `mode == "mult"` branch of `text_router` as written: the text must
   * pass `txt.lstrip("-").isdigit()`, and then `int(txt)` is tabulated; an
   * `int` that fails raises (Crash).
   */
  function MultReplyAsWritten(text: Option<string>): (r: MultOutcome)
    ensures var txt := Strip(text.GetOr(""));
      (r == NotANumber <==> !IsDigitString(StripMinus(txt))) &&
      (r == Crash <==> IsDigitString(StripMinus(txt)) && ParseInt(txt).None?) &&
      (r.Table? ==> ParseInt(txt).Some? && r.text == MakeTable(ParseInt(txt).value))
    ensures r == Crash ==> var txt := Strip(text.GetOr(""));
      |txt| >= 2 && txt[0] == '-' && txt[1] == '-'
  {
    var txt := Strip(text.GetOr(""));
    StripIdempotent(text.GetOr(""));
    StripMinusShape(txt);
    if IsDecimal(txt) then DecimalParses(txt); ReplyFor(txt)
    else ReplyFor(txt)
  }

  /** The guard, then `int(txt)`, on an already stripped text. */
  function ReplyFor(txt: string): MultOutcome
  {
    if !IsDigitString(StripMinus(txt)) then NotANumber
    else match ParseInt(txt)
      case None => Crash
      case Some(n) => Table(MakeTable(n))
  }

  /** `"--7"` passes the guard, and `int("--7")` raises. */
  lemma DoubleMinusCrashes()
    ensures IsDigitString(StripMinus("--7"))
    ensures ParseInt("--7").None?
    ensures MultReplyAsWritten(Some("--7")) == Crash
  {
    DoubleMinusPassesGuard();
    DoubleMinusFailsInt();
  }

  /** `"--7"` has no surrounding whitespace, so `strip` keeps it. */
  lemma DoubleMinusStrips()
    ensures Strip("--7") == "--7"
  {
    var t := "--7";
    StripKeepsInner(t);
    assert t[0] == '-' && t[|t| - 1] == '7';
  }

  /** `"--7"` survives `strip` and its `lstrip("-")` is the digit string `"7"`. */
  lemma DoubleMinusPassesGuard()
    ensures Strip("--7") == "--7" && StripMinus("--7") == "7" && IsDigitString("7")
  {
    DoubleMinusStrips();
    assert "7"[0] != '-';
    assert StripMinus("7") == "7";
    assert "-7"[0] == '-' && "-7"[1..] == "7";
    assert StripMinus("-7") == "7";
    assert "--7"[0] == '-' && "--7"[1..] == "-7";
  }

  /** `int("--7")` fails: neither the text nor the text after its sign is all digits. */
  lemma DoubleMinusFailsInt()
    ensures ParseInt("--7").None?
  {
    var t := "--7";
    StripKeepsInner(t);
    assert !IsDigit(t[1..][0]) && !IsDigit(t[0]);
  }

  /** The evident intent of the guard: at most one leading minus sign, then digits. */
  predicate IsDecimal(txt: string)
  {
    IsDigitString(txt) || (|txt| >= 2 && txt[0] == '-' && IsDigitString(txt[1..]))
  }

  /**
   * The multiplication mode with the guard it evidently intends: a table for
   * an optionally negative decimal number, the error reply otherwise, never
   * an exception.
   */
  function MultModeReply(text: Option<string>): (r: MultOutcome)
    ensures r != Crash
    ensures r.Table? <==> IsDecimal(Strip(text.GetOr("")))
    ensures r.Table? ==> exists n :: ParseInt(Strip(text.GetOr(""))) == Some(n) && r.text == MakeTable(n)
  {
    var txt := Strip(text.GetOr(""));
    if !IsDecimal(txt) then NotANumber
    else
      DecimalParses(txt);
      Table(MakeTable(ParseInt(txt).value))
  }

  /** A decimal that survives `strip` parses as an integer. */
  lemma DecimalParses(txt: string)
    requires IsDecimal(txt) && txt == Strip(txt)
    ensures ParseInt(txt).Some?
  {
  }

  /** On every text the corrected guard and the written one agree, except where the written one crashes. */
  lemma MultRepliesAgree(text: Option<string>)
    ensures MultReplyAsWritten(text) != Crash ==> MultReplyAsWritten(text) == MultModeReply(text)
  {
    var txt := Strip(text.GetOr(""));
    StripIdempotent(text.GetOr(""));
    StripMinusShape(txt);
    if IsDecimal(txt) {
      assert IsDigitString(StripMinus(txt)) by {
        if !IsDigitString(txt) {
          assert StripMinus(txt) == StripMinus(txt[1..]);
        }
      }
    } else if IsDigitString(StripMinus(txt)) {
      assert txt[1] == txt[1..][0];
      assert ParseInt(txt).None?;
    }
  }

  /** What `lstrip("-")` leaves is digits exactly when the text is minus signs then digits. */
  lemma StripMinusShape(s: string)
    ensures IsDigitString(StripMinus(s)) && !IsDecimal(s) ==> |s| >= 2 && s[0] == '-' && s[1] == '-'
  {
    if s != [] && s[0] == '-' {
      StripMinusShape(s[1..]);
    }
  }
}
