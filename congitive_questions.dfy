/**
 * The conversation-style quiz of congitive_questions.py. Its state lives
 * directly in `context.user_data` under the keys `"score"`,
 * `"current_question_index"` and `"questions"`; finishing or cancelling the
 * quiz clears the whole of `user_data`, the keys of other features included.
 * A button's callback data is the option text itself.
 */
module CongitiveQuestions {
  import opened Wrappers
  import opened Text
  import IndexedQuiz

  /** `{"question": ..., "options": [...], "answer": ...}` */
  datatype Entry = Entry(question: string, options: seq<string>, answer: string)

  /** `cognitive_questions_data` */
  const Data: seq<Entry> :=
    [
      Entry("ما هو حاصل ضرب 7 × 8؟",
            ["54", "56", "63", "49"],
            "56"),
      Entry("إذا كان لديك 5 تفاحات وأكلت 2، فكم تفاحة بقيت لديك؟",
            ["2", "3", "4", "5"],
            "3"),
      Entry("ما هو اليوم الذي يأتي بعد الأربعاء؟",
            ["الثلاثاء", "الخميس", "الجمعة", "السبت"],
            "الخميس"),
      Entry("أي من هذه الحيوانات يبيض؟",
            ["القطة", "الكلب", "الدجاجة", "البقرة"],
            "الدجاجة"),
      Entry("ما هو لون السماء في يوم صافٍ؟",
            ["أخضر", "أحمر", "أزرق", "أصفر"],
            "أزرق"),
      Entry("ما هو الشهر الأول في السنة الميلادية؟",
            ["فبراير", "مارس", "يناير", "أبريل"],
            "يناير"),
      Entry("كم عدد أصابع اليد الواحدة؟",
            ["3", "4", "5", "6"],
            "5"),
      Entry("ما هو عكس كلمة 'كبير'؟",
            ["طويل", "صغير", "واسع", "قصير"],
            "صغير"),
      Entry("ما هو الصوت الذي يصدره الكلب؟",
            ["مواء", "نباح", "صهيل", "زئير"],
            "نباح"),
      Entry("ما هي عاصمة المملكة العربية السعودية؟",
            ["جدة", "الرياض", "مكة", "الدمام"],
            "الرياض")
    ]

  /** Every entry's answer is exactly one of its options, and a quiz asks five of the ten entries. */
  lemma DataAnswersListed()
    ensures |Data| == 10 && IndexedQuiz.QuizSize(|Data|) == 5
    ensures forall k :: 0 <= k < |Data| ==> Data[k].answer in Data[k].options
    ensures forall k, i, j :: 0 <= k < |Data| && 0 <= i < j < |Data[k].options| ==>
              Data[k].options[i] != Data[k].options[j]
  {
  }

  /** What `ask_question` shows: the current question, or the final score out of the total. */
  datatype Shown =
    | Asking(number: int, entry: Entry)
    | Finished(score: int, total: nat)

  /** What `handle_answer` does: a `KeyError` when no quiz is running, otherwise a judged answer. */
  datatype Reply =
    | NoQuiz
    | Judged(correct: bool, next: Shown)

  /** `context.user_data`: the three quiz keys, and the names of the keys other features keep there. */
  class UserData {
    var score: Option<int>
    var index: Option<int>
    var questions: Option<seq<Entry>>
    var otherKeys: set<string>

    /** The keys are present together, and between answers `0 <= score <= index < len(questions)`. */
    ghost predicate Valid()
      reads this
    {
      (score.Some? <==> index.Some?) && (index.Some? <==> questions.Some?) &&
      (index.Some? ==> 0 <= score.value <= index.value < |questions.value|)
    }

    constructor (keys: set<string>)
      ensures Valid() && score.None? && index.None? && questions.None? && otherKeys == keys
    {
      score, index, questions := None, None, None;
      otherKeys := keys;
    }

    /** `start_cognitive_quiz`: a fresh score and index over five sampled entries, then the first question. */
    method Start(picks: seq<nat>) returns (shown: Shown)
      requires IndexedQuiz.IsSample(|Data|, IndexedQuiz.QuizSize(|Data|), picks)
      modifies this
      ensures Valid() && otherKeys == old(otherKeys)
      ensures score == Some(0) && index == Some(0) && questions == Some(IndexedQuiz.Sample(Data, picks))
      ensures shown == Asking(1, Data[picks[0]])
    {
      DataAnswersListed();
      score := Some(0);
      index := Some(0);
      questions := Some(IndexedQuiz.Sample(Data, picks));
      shown := AskQuestion();
    }

    /**
     * `ask_question`: the question at the current index, or, once the index
     * has reached the end, the final score followed by `user_data.clear()`.
     */
    method AskQuestion() returns (shown: Shown)
      requires score.Some? && index.Some? && questions.Some?
      requires 0 <= score.value <= index.value <= |questions.value|
      modifies this
      ensures Valid()
      ensures old(index.value) < old(|questions.value|) ==>
                unchanged(this) && shown == Asking(index.value + 1, questions.value[index.value])
      ensures old(index.value) >= old(|questions.value|) ==>
                shown == Finished(old(score.value), old(|questions.value|)) &&
                score.None? && index.None? && questions.None? && otherKeys == {}
    {
      var i, qs := index.value, questions.value;
      if i < |qs| {
        shown := Asking(i + 1, qs[i]);
      } else {
        shown := Finished(score.value, |qs|);
        Clear();
      }
    }

    /** `user_data.clear()`: every key goes, this quiz's and everyone else's. */
    method Clear()
      modifies this
      ensures Valid() && score.None? && index.None? && questions.None? && otherKeys == {}
    {
      score, index, questions := None, None, None;
      otherKeys := {};
    }

    /**
     * `handle_answer` for a button whose callback data is `data`: one point
     * iff `data` is the current entry's answer, the index advances, and
     * `ask_question` follows. Without a running quiz the key lookup fails
     * and nothing changes.
     */
    method HandleAnswer(data: string) returns (reply: Reply)
      requires Valid()
      modifies this
      ensures Valid()
      ensures reply.NoQuiz? <==> old(index.None?)
      ensures reply.NoQuiz? ==> unchanged(this)
      ensures reply.Judged? ==> (reply.correct <==> data == old(questions.value[index.value].answer))
      ensures reply.Judged? && old(index.value) + 1 < old(|questions.value|) ==>
                score == Some(old(score.value) + (if reply.correct then 1 else 0)) &&
                index == Some(old(index.value) + 1) && questions == old(questions) && otherKeys == old(otherKeys) &&
                reply.next == Asking(old(index.value) + 2, old(questions.value[index.value + 1]))
      ensures reply.Judged? && old(index.value) + 1 >= old(|questions.value|) ==>
                reply.next == Finished(old(score.value) + (if reply.correct then 1 else 0), old(|questions.value|)) &&
                score.None? && index.None? && questions.None? && otherKeys == {}
    {
      if index.None? {
        return NoQuiz;
      }
      var i, qs := index.value, questions.value;
      var correct := data == qs[i].answer;
      if correct {
        score := Some(score.value + 1);
      }
      index := Some(i + 1);
      var next := AskQuestion();
      reply := Judged(correct, next);
    }

    /** `cancel_quiz`: `user_data.clear()`. */
    method Cancel()
      modifies this
      ensures Valid() && score.None? && index.None? && questions.None? && otherKeys == {}
    {
      Clear();
    }
  }

  /** Pressing option `i` of a listed entry scores exactly when that option is the entry's answer. */
  lemma PressedOptionScores(k: nat, i: nat)
    requires k < |Data| && i < |Data[k].options|
    ensures Data[k].options[i] == Data[k].answer <==> i == IndexOfAnswer(Data[k])
  {
    DataAnswersListed();
  }

  /** The position of the answer among the entry's options. */
  function IndexOfAnswer(e: Entry): (i: nat)
    requires e.answer in e.options
    ensures i < |e.options| && e.options[i] == e.answer
    ensures forall j :: 0 <= j < i ==> e.options[j] != e.answer
  {
    IndexOf(e.options, e.answer)
  }
}
