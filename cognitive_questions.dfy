/**
 * The question list of cognitive_questions.py. Its quiz, stored under
 * `user_data["cog_quiz"]`, is an `IndexedQuiz.Store` over this list.
 */
module CognitiveQuestions {
  import opened Text
  import opened IndexedQuiz

  /** `QUESTIONS` */
  const Questions: seq<Item> :=
    [
      Item("ما هو حاصل ضرب 7 × 8؟",
           ["54", "56", "63", "49"], 1),
      Item("إذا كان لديك 5 تفاحات وأكلت 2، فكم تبقى؟",
           ["2", "3", "4", "5"], 1),
      Item("ما هو اليوم الذي يأتي بعد الأربعاء؟",
           ["الثلاثاء", "الخميس", "الجمعة", "السبت"], 1),
      Item("أي من هذه الحيوانات يبيض؟",
           ["القطة", "الكلب", "الدجاجة", "البقرة"], 2),
      Item("ما هو لون السماء في يوم صافٍ؟",
           ["أخضر", "أحمر", "أزرق", "أصفر"], 2)
    ]

  /** Every listed question marks one of its own options, and a quiz asks all 5 of them. */
  lemma QuestionsValid()
    ensures AllValid(Questions) && QuizSize(|Questions|) == 5
  {
  }

  /** The `"cog_quiz"` slot of a user's data, with no quiz running. */
  method NewStore() returns (store: Store)
    ensures fresh(store) && store.Valid() && store.bank == Questions && store.quiz == null
  {
    QuestionsValid();
    store := new Store(Questions);
  }

  /** The button `f"cog|{i}"` decodes back to `i`. */
  lemma CallbackRoundTrip(i: int)
    ensures ChosenIndex(AfterFirst("cog|" + IntToString(i), '|')) == i
  {
    assert "cog|" + IntToString(i) == "cog" + "|" + IntToString(i);
    ButtonRoundTrip("cog", i);
  }
}
