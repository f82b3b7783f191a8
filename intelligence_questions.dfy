/**
 * The question list of intelligence_questions.py. Its quiz, stored under
 * `user_data["iq_quiz"]`, is an `IndexedQuiz.Store` over this list.
 */
module IntelligenceQuestions {
  import opened Text
  import opened IndexedQuiz

  /** `QUESTIONS` */
  const Questions: seq<Item> :=
    [
      Item("ما هو الشيء الذي كلما أخذت منه كبر؟",
           ["الحفرة", "البئر", "الجبل", "البحر"], 0),
      Item("ما هو الشيء الذي يمشي ويقف وليس له أرجل؟",
           ["الساعة", "النهر", "السيارة", "القطار"], 0),
      Item("له عين واحدة ولا يرى؟",
           ["الإبرة", "العمود", "القلم", "المسمار"], 0),
      Item("ما هو الشيء الذي يرتفع ولا ينزل؟",
           ["الدخان", "العمر", "البالون", "الصاروخ"], 1),
      Item("ما الذي يتكلم جميع لغات العالم؟",
           ["صدى الصوت", "اللسان", "القاموس", "الترجمة"], 0)
    ]

  /** Every listed question marks one of its own options, and a quiz asks all 5 of them. */
  lemma QuestionsValid()
    ensures AllValid(Questions) && QuizSize(|Questions|) == 5
  {
  }

  /** The `"iq_quiz"` slot of a user's data, with no quiz running. */
  method NewStore() returns (store: Store)
    ensures fresh(store) && store.Valid() && store.bank == Questions && store.quiz == null
  {
    QuestionsValid();
    store := new Store(Questions);
  }
}
