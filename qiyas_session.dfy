/**
 * The per-user state of the 200-question aptitude quiz (qiyas_200.py): the
 * `user_data["q200"]` record `{"idx", "score", "qs"}`, created on demand,
 * advanced by one on every button press and removed when the quiz ends.
 *
 * Sending messages and editing them is not modelled; each handler returns
 * what it would show.
 */
module QiyasSession {
  import opened Wrappers
  import opened Text
  import opened QiyasGenerators

  /** Number of questions `_ensure_session` generates. */
  const SessionLength: nat := 200

  predicate AllWellFormed(qs: seq<Question>)
  {
    forall k :: 0 <= k < |qs| ==> WellFormed(qs[k])
  }

  /** The inputs of one generator call: its own draws, the `mk_opts` deltas and the shuffle. */
  datatype GeneratorCall = GeneratorCall(draw: Draw, deltas: seq<int>, perm: seq<nat>)

  /**
   * `[random.choice(GENERATORS)() for _ in range(200)]`, one entry of `calls`
   * per question. None when some `mk_opts` ran out of supplied deltas.
   */
  method GenerateQuestions(calls: seq<GeneratorCall>) returns (qs: Option<seq<Question>>)
    requires forall k :: 0 <= k < |calls| ==> ValidDraw(calls[k].draw, calls[k].deltas, calls[k].perm)
    ensures qs.Some? ==> |qs.value| == |calls| && AllWellFormed(qs.value)
  {
    var acc: seq<Question> := [];
    var i := 0;
    while i < |calls|
      invariant 0 <= i <= |calls|
      invariant |acc| == i && AllWellFormed(acc)
    {
      var q := Generate(calls[i].draw, calls[i].deltas, calls[i].perm);
      if q.None? {
        return None;
      }
      acc := acc + [q.value];
      i := i + 1;
    }
    qs := Some(acc);
  }

  /** The `{"idx", "score", "qs"}` record of one running quiz. */
  class Session {
    var idx: nat
    var score: nat
    var qs: seq<Question>

    /** At most one point per answered question, and never past the end. */
    ghost predicate Valid()
      reads this
    {
      score <= idx <= |qs| && |qs| == SessionLength && AllWellFormed(qs)
    }

    constructor (questions: seq<Question>)
      requires |questions| == SessionLength && AllWellFormed(questions)
      ensures Valid() && idx == 0 && score == 0 && qs == questions
    {
      idx := 0;
      score := 0;
      qs := questions;
    }

    /**
     * The scoring step of `handle_qiyas_200_callback`: one point iff the
     * chosen button is the marked option, then the next question.
     */
    method Answer(chosen: int) returns (correct: bool)
      requires Valid() && idx < |qs|
      modifies this
      ensures Valid() && qs == old(qs)
      ensures correct <==> chosen == old(qs[idx]).answerIdx
      ensures idx == old(idx) + 1
      ensures score == old(score) + (if correct then 1 else 0)
    {
      correct := chosen == qs[idx].answerIdx;
      if correct {
        score := score + 1;
      }
      idx := idx + 1;
    }
  }

  /** What `_send_q` shows: the next question, or the final score with its rounded percentage. */
  datatype Shown =
    | Asking(number: nat, total: nat, question: Question)
    | Finished(score: nat, total: nat, pct: int)

  /** What `handle_qiyas_200_callback` shows. */
  datatype Reply =
    | Expired
    | Judged(correct: bool, next: Shown)

  /** The part of `context.user_data` this quiz uses. */
  class UserData {
    var q200: Session?

    ghost predicate Valid()
      reads this, q200
    {
      q200 != null ==> q200.Valid()
    }

    constructor ()
      ensures Valid() && q200 == null
    {
      q200 := null;
    }

    /**
     * `_ensure_session`: an existing session is returned untouched; otherwise
     * a new one over the freshly generated questions is stored.
     */
    method EnsureSession(generated: seq<Question>) returns (s: Session)
      requires Valid() && |generated| == SessionLength && AllWellFormed(generated)
      modifies this
      ensures Valid() && q200 == s
      ensures old(q200) != null ==> s == old(q200) && unchanged(s)
      ensures old(q200) == null ==> fresh(s) && s.idx == 0 && s.score == 0 && s.qs == generated
    {
      if q200 == null {
        q200 := new Session(generated);
      }
      s := q200;
    }

    /** `start_qiyas_200_quiz`: drop any session, start a new one and show its first question. */
    method Start(generated: seq<Question>) returns (shown: Shown)
      requires Valid() && |generated| == SessionLength && AllWellFormed(generated)
      modifies this
      ensures Valid() && q200 != null && fresh(q200)
      ensures q200.idx == 0 && q200.score == 0 && q200.qs == generated
      ensures shown == Asking(1, SessionLength, generated[0])
    {
      q200 := null;
      var s := EnsureSession(generated);
      shown := SendQ(generated);
    }

    /**
     * `_send_q`: at the end of the questions the score and
     * `round(score*100/total)` are shown and the session is removed;
     * otherwise the current question is shown.
     */
    method SendQ(generated: seq<Question>) returns (shown: Shown)
      requires Valid() && |generated| == SessionLength && AllWellFormed(generated)
      modifies this
      ensures Valid()
      ensures old(q200) != null ==> unchanged(old(q200))
      ensures old(q200) == null ==> fresh(q200) && q200.idx == 0 && q200.score == 0 && q200.qs == generated
      ensures shown.Finished? <==> old(q200) != null && old(q200.idx >= |q200.qs|)
      ensures shown.Finished? ==> q200 == null
      ensures shown.Finished? ==>
                shown == Finished(old(q200.score), SessionLength, RoundHalfEven(old(q200.score) * 100, SessionLength))
      ensures shown.Asking? ==> q200 != null && q200.idx < |q200.qs|
      ensures shown.Asking? ==> shown == Asking(q200.idx + 1, SessionLength, q200.qs[q200.idx])
      ensures shown.Asking? && old(q200) != null ==> q200 == old(q200)
    {
      var s := EnsureSession(generated);
      if s.idx >= |s.qs| {
        q200 := null;
        return Finished(s.score, SessionLength, RoundHalfEven(s.score * 100, SessionLength));
      }
      shown := Asking(s.idx + 1, SessionLength, s.qs[s.idx]);
    }

    /** The index of the current question when the session is missing or current. */
    ghost function IdxOrZero(): nat
      reads this, q200
    {
      if q200 == null then 0 else q200.idx
    }

    ghost function ScoreOrZero(): nat
      reads this, q200
    {
      if q200 == null then 0 else q200.score
    }

    ghost function QsOr(generated: seq<Question>): seq<Question>
      reads this, q200
    {
      if q200 == null then generated else q200.qs
    }

    /**
     * `handle_qiyas_200_callback` for a button whose callback data is `data`
     * (`"q200|<i>"`). A session past its last question is removed. Otherwise
     * `int(data.split("|", 1)[1])`, or -1, is compared with the marked
     * option, the score and index advance, and `_send_q` follows. The judged
     * session `s` is the stored one, or a new one when none was stored.
     */
    method HandleCallback(data: string, generated: seq<Question>) returns (reply: Reply, s: Session)
      requires Valid() && |generated| == SessionLength && AllWellFormed(generated)
      modifies this, q200
      ensures Valid() && s.Valid()
      ensures old(q200) != null ==> s == old(q200)
      ensures old(q200) == null ==> fresh(s)
      ensures reply.Expired? <==> old(q200) != null && old(q200.idx >= |q200.qs|)
      ensures reply.Expired? ==> q200 == null && unchanged(s)
      ensures reply.Judged? ==>
                var before := old(IdxOrZero());
                var qs := old(QsOr(generated));
                before < |qs| && s.qs == qs &&
                s.idx == before + 1 &&
                (reply.correct <==> ChosenIndex(AfterFirst(data, '|')) == qs[before].answerIdx) &&
                s.score == old(ScoreOrZero()) + (if reply.correct then 1 else 0)
      ensures reply.Judged? ==> (reply.next.Finished? <==> s.idx >= |s.qs|)
      ensures reply.Judged? && reply.next.Finished? ==> q200 == null
      ensures reply.Judged? && reply.next.Asking? ==> q200 == s
      ensures reply.Judged? && reply.next.Asking? ==> s.idx < |s.qs| && reply.next == Asking(s.idx + 1, SessionLength, s.qs[s.idx])
      ensures reply.Judged? && reply.next.Finished? ==>
                reply.next == Finished(s.score, SessionLength, RoundHalfEven(s.score * 100, SessionLength))
    {
      s := EnsureSession(generated);
      if s.idx >= |s.qs| {
        q200 := null;
        return Expired, s;
      }
      var chosen := ChosenIndex(AfterFirst(data, '|'));
      var correct := s.Answer(chosen);
      var next := SendQ(generated);
      reply := Judged(correct, next);
    }
  }

  /** The button for option `i` carries `"q200|" + str(i)`, which the handler decodes back to `i`. */
  lemma CallbackDataRoundTrip(i: int)
    ensures ChosenIndex(AfterFirst("q200|" + IntToString(i), '|')) == i
  {
    assert "q200|" + IntToString(i) == "q200" + ['|'] + IntToString(i);
    AfterFirstRoundTrip("q200", '|', i);
  }

  /** With 200 questions the finishing percentage is half the score, rounded half to even. */
  lemma FinalPercentage(score: nat)
    requires score <= SessionLength
    ensures 0 <= RoundHalfEven(score * 100, SessionLength) <= 100
    ensures score % 2 == 0 ==> RoundHalfEven(score * 100, SessionLength) == score / 2
  {
    if score % 2 == 0 {
      RoundHalfEvenUnique(score * 100, SessionLength, score / 2);
    }
  }
}
