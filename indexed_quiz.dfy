/**
 * The five-question button quizzes of cognitive_questions.py and
 * intelligence_questions.py. Both files hold the same code over their own
 * question list and their own `user_data` key (`"cog_quiz"`, `"iq_quiz"`):
 * a record `{"score", "idx", "qs"}` created on demand from a random sample of
 * the list, advanced by one on every button press, removed at the end.
 */
module IndexedQuiz {
  import opened Text

  /** `{"q": ..., "options": [...], "answer_idx": ...}` */
  datatype Item = Item(q: string, options: seq<string>, answerIdx: nat)

  predicate ItemValid(it: Item)
  {
    it.answerIdx < |it.options|
  }

  predicate AllValid(items: seq<Item>)
  {
    forall k :: 0 <= k < |items| ==> ItemValid(items[k])
  }

  /** Number of questions one quiz asks: `min(5, len(QUESTIONS))`. */
  function QuizSize(n: nat): (k: nat)
    ensures k <= 5 && k <= n && (k == 5 || k == n)
  {
    if n < 5 then n else 5
  }

  /**
   * The positions `random.sample(QUESTIONS, k)` picked: `k` distinct
   * positions of a list of length `n`, in the order drawn.
   */
  predicate IsSample(n: nat, k: nat, picks: seq<nat>)
  {
    |picks| == k && (forall i :: 0 <= i < k ==> picks[i] < n) &&
    forall i, j :: 0 <= i < j < k ==> picks[i] != picks[j]
  }

  /** The sampled questions themselves. */
  function Sample<T>(bank: seq<T>, picks: seq<nat>): (qs: seq<T>)
    requires forall i :: 0 <= i < |picks| ==> picks[i] < |bank|
    ensures |qs| == |picks|
    ensures forall i :: 0 <= i < |picks| ==> qs[i] == bank[picks[i]]
  {
    if picks == [] then [] else [bank[picks[0]]] + Sample(bank, picks[1..])
  }

  /** A sample of valid questions consists of valid questions. */
  lemma SampleValid(bank: seq<Item>, picks: seq<nat>)
    requires AllValid(bank) && IsSample(|bank|, |picks|, picks)
    ensures AllValid(Sample(bank, picks))
  {
  }

  /** A sample of a list without repeated questions has none either. */
  lemma SampleDistinct<T>(bank: seq<T>, picks: seq<nat>)
    requires IsSample(|bank|, |picks|, picks)
    requires forall i, j :: 0 <= i < j < |bank| ==> bank[i] != bank[j]
    ensures forall i, j :: 0 <= i < j < |picks| ==> Sample(bank, picks)[i] != Sample(bank, picks)[j]
  {
  }

  /** The `{"score", "idx", "qs"}` record of one running quiz. */
  class Quiz {
    var score: nat
    var idx: nat
    var qs: seq<Item>

    /** At most one point per answered question, and never past the end. */
    ghost predicate Valid()
      reads this
    {
      score <= idx <= |qs| && AllValid(qs)
    }

    constructor (questions: seq<Item>)
      requires AllValid(questions)
      ensures Valid() && score == 0 && idx == 0 && qs == questions
    {
      score := 0;
      idx := 0;
      qs := questions;
    }

    /** One point iff the chosen button is the marked option, then the next question. */
    method Answer(chosen: int) returns (correct: bool)
      requires Valid() && idx < |qs|
      modifies this
      ensures Valid() && qs == old(qs)
      ensures correct <==> chosen == old(qs[idx]).answerIdx
      ensures idx == old(idx) + 1
      ensures score == old(score) + (if correct then 1 else 0)
    {
      correct := chosen == qs[idx].answerIdx;
      if correct {
        score := score + 1;
      }
      idx := idx + 1;
    }
  }

  /** What the send function shows: the next question, or the final score out of the total. */
  datatype Shown =
    | Asking(number: nat, question: Item)
    | Finished(score: nat, total: nat)

  /** What the callback handler shows. */
  datatype Reply =
    | Expired
    | Judged(correct: bool, next: Shown)

  /** One `user_data` key of a quiz, and the question list it samples from. */
  class Store {
    const bank: seq<Item>
    var quiz: Quiz?

    ghost predicate Valid()
      reads this, quiz
    {
      AllValid(bank) && (quiz != null ==> quiz.Valid())
    }

    constructor (questions: seq<Item>)
      requires AllValid(questions)
      ensures Valid() && bank == questions && quiz == null
    {
      bank := questions;
      quiz := null;
    }

    /** The sample `random.sample` would draw: `min(5, len(bank))` distinct positions. */
    predicate SampleOk(picks: seq<nat>)
    {
      IsSample(|bank|, QuizSize(|bank|), picks)
    }

    /** `_ensure_quiz`: an existing quiz is returned untouched; otherwise a new one over the sample. */
    method EnsureQuiz(picks: seq<nat>) returns (q: Quiz)
      requires Valid() && SampleOk(picks)
      modifies this
      ensures Valid() && quiz == q
      ensures old(quiz) != null ==> q == old(quiz) && unchanged(q)
      ensures old(quiz) == null ==> fresh(q) && q.score == 0 && q.idx == 0 && q.qs == Sample(bank, picks)
    {
      if quiz == null {
        SampleValid(bank, picks);
        quiz := new Quiz(Sample(bank, picks));
      }
      q := quiz;
    }

    /** The start handler: drop any quiz, create one and show its first question. */
    method Start(picks: seq<nat>) returns (shown: Shown)
      requires Valid() && SampleOk(picks)
      modifies this
      ensures Valid()
      ensures quiz != null ==> fresh(quiz)
      ensures |bank| == 0 ==> quiz == null && shown == Finished(0, 0)
      ensures |bank| > 0 ==> quiz != null && quiz.score == 0 && quiz.idx == 0 && quiz.qs == Sample(bank, picks)
      ensures |bank| > 0 ==> shown == Asking(1, bank[picks[0]])
    {
      quiz := null;
      var q := EnsureQuiz(picks);
      shown := Send(picks);
    }

    /** The send function: at the end the score is shown and the quiz removed; otherwise the current question. */
    method Send(picks: seq<nat>) returns (shown: Shown)
      requires Valid() && SampleOk(picks)
      modifies this
      ensures Valid()
      ensures old(quiz) != null ==> unchanged(old(quiz))
      ensures old(quiz) == null && quiz != null ==>
                fresh(quiz) && quiz.score == 0 && quiz.idx == 0 && quiz.qs == Sample(bank, picks)
      ensures shown.Finished? <==> (if old(quiz) == null then |bank| == 0 else old(quiz.idx >= |quiz.qs|))
      ensures shown.Finished? ==> quiz == null
      ensures shown.Finished? && old(quiz) != null ==> shown == Finished(old(quiz.score), old(|quiz.qs|))
      ensures shown.Asking? ==> quiz != null && quiz.idx < |quiz.qs|
      ensures shown.Asking? ==> shown == Asking(quiz.idx + 1, quiz.qs[quiz.idx])
      ensures shown.Asking? && old(quiz) != null ==> quiz == old(quiz)
    {
      var q := EnsureQuiz(picks);
      if q.idx >= |q.qs| {
        quiz := null;
        return Finished(q.score, |q.qs|);
      }
      shown := Asking(q.idx + 1, q.qs[q.idx]);
    }

    ghost function IdxOrZero(): nat
      reads this, quiz
    {
      if quiz == null then 0 else quiz.idx
    }

    ghost function ScoreOrZero(): nat
      reads this, quiz
    {
      if quiz == null then 0 else quiz.score
    }

    ghost function QsOr(picks: seq<nat>): seq<Item>
      reads this, quiz
      requires SampleOk(picks)
    {
      if quiz == null then Sample(bank, picks) else quiz.qs
    }

    /**
     * The callback handler for callback data `data` (`"<prefix>|<i>"`). A
     * quiz past its last question is removed. Otherwise
     * `int(data.split("|", 1)[1])`, or -1, is compared with the marked
     * option, the score and index advance, and the send function follows.
     * The judged quiz `q` is the stored one, or a new one when none was stored.
     */
    method HandleCallback(data: string, picks: seq<nat>) returns (reply: Reply, q: Quiz)
      requires Valid() && SampleOk(picks)
      modifies this, quiz
      ensures Valid() && q.Valid()
      ensures old(quiz) != null ==> q == old(quiz)
      ensures old(quiz) == null ==> fresh(q)
      ensures reply.Expired? <==> old(IdxOrZero() >= |QsOr(picks)|)
      ensures reply.Expired? ==> quiz == null
      ensures reply.Expired? && old(quiz) != null ==> unchanged(q)
      ensures reply.Judged? ==>
                var before := old(IdxOrZero());
                var qs := old(QsOr(picks));
                before < |qs| && q.qs == qs &&
                q.idx == before + 1 &&
                (reply.correct <==> ChosenIndex(AfterFirst(data, '|')) == qs[before].answerIdx) &&
                q.score == old(ScoreOrZero()) + (if reply.correct then 1 else 0)
      ensures reply.Judged? ==> (reply.next.Finished? <==> q.idx >= |q.qs|)
      ensures reply.Judged? && reply.next.Finished? ==> quiz == null
      ensures reply.Judged? && reply.next.Asking? ==> quiz == q
      ensures reply.Judged? && reply.next.Asking? ==> q.idx < |q.qs| && reply.next == Asking(q.idx + 1, q.qs[q.idx])
      ensures reply.Judged? && reply.next.Finished? ==> reply.next == Finished(q.score, |q.qs|)
    {
      q := EnsureQuiz(picks);
      if q.idx >= |q.qs| {
        quiz := null;
        return Expired, q;
      }
      var chosen := ChosenIndex(AfterFirst(data, '|'));
      var correct := q.Answer(chosen);
      var next := Send(picks);
      reply := Judged(correct, next);
    }
  }

  /** The button for option `i` of a quiz with callback prefix `prefix` decodes back to `i`. */
  lemma ButtonRoundTrip(prefix: string, i: int)
    requires '|' !in prefix
    ensures ChosenIndex(AfterFirst(prefix + "|" + IntToString(i), '|')) == i
  {
    assert prefix + "|" + IntToString(i) == prefix + ['|'] + IntToString(i);
    AfterFirstRoundTrip(prefix, '|', i);
  }

  /** Callback data that is not a number never scores: -1 is no option's index. */
  lemma UnparsableNeverCorrect(data: string, it: Item)
    requires AfterFirst(data, '|').None? || ParseInt(AfterFirst(data, '|').value).None?
    ensures ChosenIndex(AfterFirst(data, '|')) != it.answerIdx
  {
  }
}
