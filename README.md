# qiyas-bot in Dafny

qiyas-bot is a Telegram bot that trains users for the Saudi "Qiyas" aptitude tests. This project models the parts of the bot that compute answers or keep per-user state, and proves properties of them:

- **The 200-question generated quiz** (qiyas_200.py).
  - Nine question generators: arithmetic, percentages, arithmetic series, rectangle area, GCD, LCM, averages, speed × time and proportions.
  - Each generator builds its four options with `mk_opts`.
  - The per-user session record `{"idx", "score", "qs"}` in `user_data["q200"]`: created on demand, advanced by every button press, removed at the end with the rounded percentage.
- **The question bank of app.py.**
  - `data.json` items in either of two shapes are normalised into `{"id", "q", "choices", "correct", "explanation"}`.
  - Questions are drawn for a user without repeating an id.
  - A button press is judged.
  - The multiplication mode prints a 1..12 table.
- **The two five-question button quizzes**: cognitive_questions.py and intelligence_questions.py.
  - The two files hold the same code over their own question lists and `user_data` keys (`"cog_quiz"`, `"iq_quiz"`).
  - The shared module `IndexedQuiz` models that code. Its table rows cite cognitive_questions.py; the same lines sit in intelligence_questions.py.
- **The conversation-style quiz of congitive_questions.py.** Its keys live directly in `user_data`, and finishing or cancelling clears the whole of `user_data`.
- **The dataset script make_data.py.** It writes 500 multiple-choice records, numbered by a running `qid` under per-section caps.
- **The two multiplication-table handlers.**
  - multiplication.py: Arabic-Indic digits, `7x7`-style products, first-integer fallback, and a flag that marks the mode.
  - mutiplicaton.py: a ten-line table built in a loop.

How the Python translates:

- **Randomness.**
  - Every `random` call becomes a parameter constrained to the literal range it is drawn from.
  - The shuffles (`random.shuffle`, and the iteration order of a `set` turned into a list) become supplied permutations.
  - `random.choice(remaining)` becomes `remaining[r % len(remaining)]` for a supplied `r`, so every element can be chosen.
  - `random.sample` becomes a supplied list of distinct positions.
- **Python semantics written out:**
  - `int()` over ASCII digits, with surrounding whitespace and an optional sign;
  - `str.strip`, `split`, `join`, `x or y` on strings and lists;
  - `isinstance(True, int)`;
  - `round` of an integer quotient, which rounds half to even;
  - the two regular expressions of multiplication.py, written as scanners.
- **Handlers.** A handler returns what it would show; sending and editing messages is not modelled.
- **State that changes.**
  - Objects the source updates in place are classes: the session and quiz records, the `user_data` parts, the dataset with its `qid`.
  - Value-level code is functions and lemmas.

## Model

| member | source | states |
|---|---|---|
| QiyasGenerators.CollectedShape | qiyas_200.py:118-124 | the candidates gathered from the drawn deltas are pairwise distinct, start with `correct`, and are exactly `correct` plus every drawn `correct + delta` that passes the `minval` test |
| QiyasGenerators.CollectedPrefix | qiyas_200.py:119-124 | the candidates gathered from fewer draws form a prefix of those gathered from more |
| QiyasGenerators.CollectedStep | qiyas_200.py:120-124 | one more draw adds `correct + delta` exactly when it passes `minval` and is new, and otherwise nothing |
| QiyasGenerators.Collect | qiyas_200.py:118-124 | the `while` loop stops at the first draw that completes four candidates, or when the draws run out; what it holds is the gathered candidates, at most four, distinct, each non-correct one a spread away from `correct` and at least `minval` |
| QiyasGenerators.MkOpts | qiyas_200.py:115-127 | none exactly when the draws never reach four candidates; otherwise four distinct options, containing `correct`, which are the gathered candidates in shuffled order, each other option being `correct + d` for a `d` in `spreads` and at least `minval` |
| QiyasGenerators.MakeQuestion | qiyas_200.py:27-28 | `{"q", "options", "answer_idx": opts.index(val)}`: the marked option is `val` and the text is kept; none exactly when `mk_opts` runs out of draws |
| QiyasGenerators.GenArith | qiyas_200.py:8-28 | the marked option is `(a+b)*c`, `a*b+c` or `a*b-c` for those kinds; for the quotient kind it is the floor of `(a*c)/b`, not necessarily exact |
| QiyasGenerators.QuotientNotExact | qiyas_200.py:22-25 | with `b = 5`, `a = 2`, `c = 3` (all in their ranges), any answer the quotient kind may mark is 1, and 1 × 5 is not 2 × 3: `(2 × 3) ÷ 5` is 1.2 |
| QiyasGenerators.GenArithExact | qiyas_200.py:8-28 | as `gen_arith`, with the divisor drawn among the values in 2..12 that divide `a*c`, so the marked quotient times the divisor is `a*c` |
| QiyasGenerators.ExactDivisorExists | qiyas_200.py:22-24 | such a divisor always exists: `a` divides `a*c` |
| QiyasGenerators.GenPercent | qiyas_200.py:30-36 | the marked option is the floor of `p%` of `base`: `opt*100 <= base*p < (opt+1)*100` |
| QiyasGenerators.PercentNotExact | qiyas_200.py:31-33 | with `base = 80` and `p = 12` (both listed), any answer `gen_percent` may mark is 9, and 9 × 100 is not 80 × 12: 12% of 80 is 9.6 |
| QiyasGenerators.ExactPercentExists | qiyas_200.py:31-32 | every listed base has an exact listed percentage (10%) |
| QiyasGenerators.GenPercentExact | qiyas_200.py:30-36 | with `p` drawn among the percentages exact for `base`, the marked option times 100 is `base*p` |
| QiyasGenerators.SeriesIsArithmetic | qiyas_200.py:42 | consecutive terms of the shown series differ by `step` |
| QiyasGenerators.GenSeries | qiyas_200.py:38-46 | the marked option is the last shown term plus `step`, and the text lists the terms |
| QiyasGenerators.GenAreaRect | qiyas_200.py:48-54 | the marked option is `L*W`, between 15 and 300 |
| QiyasGenerators.GcdIsGreatestCommonDivisor | qiyas_200.py:59 | `Gcd(a, b)` is at least 1, divides both, and every common divisor is at most it |
| QiyasGenerators.GenGcd | qiyas_200.py:56-62 | the marked option divides `a` and `b` and is the greatest such; every option is at least 1 (`minval=1`) |
| QiyasGenerators.LcmIsCommonMultiple | qiyas_200.py:67 | `a*b // gcd(a, b)` is between 1 and `a*b`, divisible by `a` and by `b`, and times the GCD gives `a*b` |
| QiyasGenerators.GenLcm | qiyas_200.py:64-70 | the marked option is at least 1, a multiple of `a` and of `b`, and times `gcd(a, b)` equals `a*b` |
| QiyasGenerators.SumBumpLast | qiyas_200.py:80-81 | raising the last number by `d` raises the sum by `d` |
| QiyasGenerators.RoundUpToMultiple | qiyas_200.py:77-81 | adding `n - s % n` makes the sum a multiple of `n` |
| QiyasGenerators.GenAvg | qiyas_200.py:72-85 | only the last number changes, by less than `n`; the shown sum is divisible by `n`; the marked option times `n` is that sum; the text lists the shown numbers |
| QiyasGenerators.GenSpeedTime | qiyas_200.py:87-93 | the marked option is `v*t`, between 80 and 500 |
| QiyasGenerators.ProportionSolvable | qiyas_200.py:96-104 | for every listed pair and right-hand side some `rhs` among the next ten values makes `rhs*a` divisible by `b` |
| QiyasGenerators.GenProportion | qiyas_200.py:95-108 | the loop stops at the first `rhs` within ten steps with `rhs*a % b == 0`, and the marked option times `b` is `rhs*a` |
| QiyasGenerators.Generate | qiyas_200.py:110-113 | the drawn generator runs as written: the question has four distinct options and `answer_idx` points into them; the quotient kind marks the floor of `(a*c)/b` and the percentage the floor of `p%` of `base` |
| QiyasGenerators.GenerateExact | qiyas_200.py:110-113 | the same registry with the quotient and the percentage drawn so that they are exact: those answers times the divisor, or times 100, give `a*c`, or `base*p` |
| QiyasSession.GenerateQuestions | qiyas_200.py:133 | one question per call, all well formed (none when a `mk_opts` runs out of draws) |
| QiyasSession.Session.constructor | qiyas_200.py:134 | a new record has `idx = 0`, `score = 0` and the given questions |
| QiyasSession.Session.Answer | qiyas_200.py:175-182 | `score` rises by one exactly when `chosen == answer_idx`, `idx` rises by exactly one, and `score <= idx <= 200` is kept |
| QiyasSession.UserData.EnsureSession | qiyas_200.py:130-135 | an existing record is returned untouched; otherwise a new one over the generated questions is stored |
| QiyasSession.UserData.Start | qiyas_200.py:137-140 | the old record is dropped, a new one is stored, and question 1 of 200 is shown |
| QiyasSession.UserData.SendQ | qiyas_200.py:142-157 | past the last question: the score, 200 and `round(score*100/200)` are shown and the record removed; otherwise question `idx+1` is shown and the record kept |
| QiyasSession.UserData.HandleCallback | qiyas_200.py:159-183 | a finished record is removed (expired); otherwise the pressed index, or -1, is compared with `answer_idx` and score and index advance accordingly; then question `idx+1` of 200 is shown with the record kept, or, past the last question, the score, 200 and `round(score*100/200)` with the record removed |
| QiyasSession.CallbackDataRoundTrip | qiyas_200.py:152-173 | the button data `"q200|" + str(i)` decodes back to `i` |
| QiyasSession.FinalPercentage | qiyas_200.py:144-147 | the final percentage lies in 0..100, and is `score/2` for an even score |
| Text.RoundHalfEven | qiyas_200.py:147 | Python's `round(n / d)`: within half a unit of `n/d`, and even on an exact tie |
| Text.RoundHalfEvenUnique | qiyas_200.py:147 | that rounding is the only integer with those two properties |
| Text.ParseIntToString | qiyas_200.py:171 | `int(str(i)) == i` |
| Text.IntToStringInjective | make_data.py:35 | distinct integers have distinct decimal strings |
| Text.ChosenIndex | qiyas_200.py:170-173 | the index a callback carries, or -1 when it has no field or the field is not an integer |
| Text.AfterFirstRoundTrip | qiyas_200.py:171 | `int((prefix + "|" + str(i)).split("\|", 1)[1]) == i` when the prefix has no separator |
| Text.SecondFieldRoundTrip | app.py:123-168 | `int((prefix + ":" + str(i)).split(":")[1]) == i` when the prefix has no separator |
| Text.SplitJoin | app.py:201 | splitting a newline-joined list of lines without newlines gives the lines back |
| Text.StripIdempotent | app.py:206 | stripping twice is stripping once |
| Text.IndexOf | qiyas_200.py:28 | `list.index`: the first position holding the value |
| Text.MapToString | qiyas_200.py:44 | `map(str, xs)`: one decimal string per number, in order |
| QuestionBank.OrText | app.py:69 | `a or b` for a string: `a` when it is present and non-empty, else `b` |
| QuestionBank.OrList | app.py:70 | `a or b` for a list: `a` when it is present and non-empty, else `b` |
| QuestionBank.ChoicesOf | app.py:70-72 | the choices are empty exactly when `choices` and `options` are absent or empty and there is no `answer` |
| QuestionBank.Normalize | app.py:69-83 | question text is `question`, else `q`, else `""`; choices are `choices`, else `options`, else `[answer]`; a valid integer `answer_index` selects `correct`; otherwise the `answer`, else the first choice, else `""`; id and explanation default to the position and `""` |
| QuestionBank.AnswerOnlyItem | app.py:71-76 | an item with only an `answer` gets that answer as its single choice and as `correct` |
| QuestionBank.DefaultIdsDistinct | app.py:68-78 | items without ids at different positions get different ids |
| QuestionBank.LoadQuestions | app.py:52-84 | a missing file gives no questions; otherwise one normalised entry per item, in order, numbered from 1 |
| QuestionBank.Remaining | app.py:113 | the remaining questions are exactly the bank's questions whose id is not asked |
| QuestionBank.RemainingEmpty | app.py:113-115 | nothing remains exactly when every id of the bank has been asked |
| QuestionBank.Player.constructor | app.py:110-112 | a new user has neither `asked_ids` nor `current_q` |
| QuestionBank.Player.PickNext | app.py:109-120 | none exactly when every id is asked, and then nothing changes; otherwise a bank question with an unasked id, whose id joins `asked_ids` and which becomes `current_q` |
| QuestionBank.Player.Run | app.py:133-194 | after the reset, the shown questions never repeat an id and all come from the bank; `asked_ids` is exactly the set of their ids; one question is shown per draw until every distinct id has been shown (so as many as the smaller of the draws and the distinct ids), a pick comes back empty only once every id was asked, and the last one shown is `current_q` |
| QuestionBank.Player.QuizAnswer | app.py:158-173 | no judgement without `current_q`; reads the state without changing it |
| QuestionBank.ButtonJudged | app.py:123-173 | pressing the button of choice `i` is judged correct exactly when `choices[i] == correct` |
| QuestionBank.OutOfRangeJudged | app.py:167-173 | an index out of range or not a number compares `""` with `correct` |
| QuestionBank.MakeTableLines | app.py:199-201 | the table is the header followed by exactly twelve lines, line `i` being `i × n = i*n` |
| QuestionBank.StripMinus | app.py:207 | `lstrip("-")` leaves a suffix that does not start with a minus sign |
| QuestionBank.MultReplyAsWritten | app.py:205-212 | strip, then the `lstrip("-").isdigit()` guard, then `int(txt)`: the error reply exactly when the guard fails, a crash exactly when the guard passes and `int` rejects the text, otherwise the table of the number `int` reads; a crash happens only on text that starts with two minus signs |
| QuestionBank.DoubleMinusCrashes | app.py:205-210 | `"--7"` passes the `lstrip("-").isdigit()` guard and `int("--7")` then fails |
| QuestionBank.MultModeReply | app.py:205-212 | with the guard corrected, the mode never fails: a table exactly for an optionally negative decimal, whose number is what `int` reads |
| QuestionBank.DecimalParses | app.py:210 | a stripped decimal always parses |
| QuestionBank.MultRepliesAgree | app.py:205-212 | the guard as written and the corrected one give the same reply wherever the written one does not fail |
| QuestionBank.StripMinusShape | app.py:207 | text that passes the written guard but not the corrected one starts with two minus signs |
| IndexedQuiz.QuizSize | cognitive_questions.py:20 | `min(5, len(QUESTIONS))` |
| IndexedQuiz.Sample | cognitive_questions.py:20 | the sampled questions are the list's questions at the drawn positions, in order |
| IndexedQuiz.SampleValid | cognitive_questions.py:20 | a sample of valid questions is valid |
| IndexedQuiz.SampleDistinct | cognitive_questions.py:20 | a sample of a list without repeats has none |
| IndexedQuiz.Quiz.constructor | cognitive_questions.py:17-21 | a new record has `score = 0`, `idx = 0` and the sample |
| IndexedQuiz.Quiz.Answer | cognitive_questions.py:65-72 | `score` rises by one exactly when `chosen == answer_idx`, `idx` by exactly one, and `score <= idx <= len(qs)` is kept |
| IndexedQuiz.Store.EnsureQuiz | cognitive_questions.py:15-22 | an existing record is returned untouched; otherwise a new one over the sample is stored |
| IndexedQuiz.Store.Start | cognitive_questions.py:24-27 | any old record is dropped and a new one created; its first question is shown (an empty list gives the result 0 of 0 and no record) |
| IndexedQuiz.Store.Send | cognitive_questions.py:29-46 | past the last question: the score out of the total is shown and the record removed; otherwise question `idx+1` is shown and the record kept |
| IndexedQuiz.Store.HandleCallback | cognitive_questions.py:48-74 | a finished record is removed (expired); otherwise the pressed index, or -1, is compared with `answer_idx` and score and index advance accordingly; then question `idx+1` is shown with the record kept, or, past the last question, the score out of `len(qs)` with the record removed |
| IndexedQuiz.ButtonRoundTrip | cognitive_questions.py:40-61 | the button data `prefix + "\|" + str(i)` decodes back to `i` |
| IndexedQuiz.UnparsableNeverCorrect | cognitive_questions.py:60-65 | callback data without a number never scores |
| CognitiveQuestions.QuestionsValid | cognitive_questions.py:7-13 | every `answer_idx` is an index of its options, and a quiz asks five questions |
| CognitiveQuestions.NewStore | cognitive_questions.py:15-22 | the `"cog_quiz"` store starts over this list with no record |
| CognitiveQuestions.CallbackRoundTrip | cognitive_questions.py:40-61 | `"cog|" + str(i)` decodes back to `i` |
| IntelligenceQuestions.QuestionsValid | intelligence_questions.py:6-12 | every `answer_idx` is an index of its options, and a quiz asks five questions |
| IntelligenceQuestions.NewStore | intelligence_questions.py:14-21 | the `"iq_quiz"` store starts over this list with no record |
| CongitiveQuestions.DataAnswersListed | congitive_questions.py:9-60 | ten entries, so five are asked; every `answer` is one of its options, and no entry repeats an option |
| CongitiveQuestions.UserData.constructor | congitive_questions.py:62-63 | no quiz keys, other features' keys as given |
| CongitiveQuestions.UserData.Start | congitive_questions.py:65-71 | `score = 0`, index 0, the sampled questions; other keys kept; question 1 shown |
| CongitiveQuestions.UserData.AskQuestion | congitive_questions.py:73-89 | before the end the current question is shown and nothing changes; at the end the score out of the total is shown and all of `user_data` is cleared |
| CongitiveQuestions.UserData.Clear | congitive_questions.py:88 | every key goes, the quiz's and every other feature's |
| CongitiveQuestions.UserData.HandleAnswer | congitive_questions.py:91-109 | no running quiz: the key lookup fails and nothing changes; otherwise correct exactly when the data is the answer text, the score rises by one for it, the index by one, and the next question or the cleared result follows |
| CongitiveQuestions.UserData.Cancel | congitive_questions.py:111-115 | all of `user_data` is cleared |
| CongitiveQuestions.PressedOptionScores | congitive_questions.py:81-101 | pressing option `i` scores exactly when `i` is the position of the answer |
| CongitiveQuestions.IndexOfAnswer | congitive_questions.py:9-60 | the first position of the answer among the options |
| MakeData.Step | make_data.py:10 | `max(1, abs(c) // 20)` is at least 1, is 1 exactly when `abs(c) < 40`, and otherwise the twentieth of `abs(c)` rounded down |
| MakeData.FourChoices | make_data.py:7-22 | four distinct values, exactly `c`, `c+step`, `c-step` and `c+2*step`, in shuffled order; the padding loop never adds anything |
| MakeData.MakeMcq | make_data.py:24-39 | `choices[answer_index] == str(correct)`, the four choice strings are distinct, and id, type, question, explanation and tags are copied through |
| MakeData.PairsUpTo | make_data.py:71-75 | every kept pair has `a` in range, `b` in 2..12 and `a % b == 0` |
| MakeData.CollectPairs | make_data.py:71-75 | the loop keeps exactly the pairs `PairsUpTo` describes |
| MakeData.ArithNext | make_data.py:112-115 | the shown terms advance by `d`, and the answer `seq[-1] + d` is the sixth term |
| MakeData.GeoNext | make_data.py:122-125 | the shown terms advance by the factor `r`, and the answer `seq[-1] * r` is `start * r**5` |
| MakeData.PercentBases | make_data.py:85 | `range(120, 980, 17)` has 51 values, from 120 to 970 |
| MakeData.Dataset.constructor | make_data.py:41-42 | no questions, `qid = 1` |
| MakeData.Dataset.Add | make_data.py:49-50 | one record is appended with id `qid`, marking `str(correct)`; `qid` rises by one; earlier records are kept |
| MakeData.Dataset.AddQuotient | make_data.py:79-81 | the division record marks `a // b`, and `(a // b) * b == a` |
| MakeData.Dataset.AddSum | make_data.py:48-50 | one record is appended marking `a + b`; earlier records are kept |
| MakeData.Dataset.AddDifference | make_data.py:56-58 | one record is appended marking `a - b`; earlier records are kept |
| MakeData.Dataset.AddProduct | make_data.py:65-67 | one record is appended marking `a * b`; earlier records are kept |
| MakeData.Dataset.AddPercent | make_data.py:89-94 | one record is appended marking `base + round(base*p/100)`; earlier records are kept |
| MakeData.Dataset.AddArithmetic | make_data.py:113-119 | one record is appended marking `seq[-1] + d` for the five terms from `start`; earlier records are kept |
| MakeData.Dataset.AddGeometric | make_data.py:123-129 | one record is appended marking `seq[-1] * r` for the five terms from `start`; earlier records are kept |
| MakeData.Dataset.AdditionSection | make_data.py:45-51 | 50 additions, so `qid` goes from 1 to 51; record `k` marks `(11 + 5*(k // 5)) + (9 + 7*(k % 5))`, the sum for row `k // 5` and column `k % 5` |
| MakeData.Dataset.SubtractionSection | make_data.py:53-59 | 66 subtractions, so `qid` goes from 51 to 117; the additions are kept, and record `50 + m` marks `(90 - 4*(m // 6)) - (5 + 5*(m % 6))` |
| MakeData.Dataset.ProductSection | make_data.py:62-68 | 100 products, so `qid` goes from 117 to 217; the earlier records are kept, and record `116 + m` marks `(6 + m // 10) * (6 + m % 10)` |
| MakeData.Dataset.DivisionSection | make_data.py:76-81 | `min(len(pairs), 80)` divisions, each of a collected pair with an exact quotient |
| MakeData.Dataset.PercentSection | make_data.py:84-94 | 50 percentage increases after the kept records; record `k` of the section marks `base + round(base*p/100)` for the `k`-th shuffled base and its drawn `p` |
| MakeData.Dataset.AverageSection | make_data.py:99-108 | 50 average records after the kept ones, record `k` with id `qid + k` and the `k`-th drawn set of five numbers |
| MakeData.Dataset.ArithmeticSection | make_data.py:112-119 | 6 arithmetic sequences after the kept records; record `k` marks `seq[-1] + d` for the sequence from `2 + 3k` with the `k`-th drawn `d` |
| MakeData.Dataset.GeometricSection | make_data.py:122-129 | 5 geometric sequences after the kept records; record `k` marks `seq[-1] * r` for the sequence from `2 + k` with the `k`-th drawn `r` |
| MakeData.Dataset.Fill | make_data.py:132-137 | additions are appended until `qid` is 501, the earlier records kept; the `m`-th appended record marks `(31 + m) + (47 + 2m)` |
| MakeData.BuildDataset | make_data.py:41-137 | the script writes exactly 500 records with ids 1 to 500, in order |
| Multiplication.TranslateChar | multiplication.py:6 | each of ٠..٩ becomes the ASCII digit of the same value; every other character is kept |
| Multiplication.NormalizeDigits | multiplication.py:9-10 | `None` gives `""`; otherwise the same length, each character translated, and no Arabic-Indic digit left |
| Multiplication.NormalizeIdempotent | multiplication.py:9-10 | normalising twice is normalising once |
| Multiplication.SignedParses | multiplication.py:26 | `int()` of a match of `-?\d+` is its signed value |
| Multiplication.MatchProduct | multiplication.py:24 | a match splits the text into whitespace, a signed number, whitespace, one of `x×X*`, whitespace, a signed number and whitespace |
| Multiplication.MatchProductComplete | multiplication.py:24 | every text of that shape matches, split into exactly those pieces |
| Multiplication.ProductRoundTrip | multiplication.py:24-26 | any two integers around a times sign, with any spacing, are read back as themselves |
| Multiplication.DigitsAreNoProduct | multiplication.py:24 | a text of digits alone is never a product |
| Multiplication.FirstInt | multiplication.py:31-36 | the leftmost match of `-?\d+`; none exactly when the text has no digit |
| Multiplication.FirstIntOf | multiplication.py:31-36 | an integer preceded by digit-free text that does not end in `-` is the one found |
| Multiplication.TableLines | multiplication.py:37 | ten lines, line `i` being `n × i = n*i` |
| Multiplication.TableReplyLines | multiplication.py:37-38 | the reply splits into exactly those ten lines, in order |
| Multiplication.UserData.constructor | multiplication.py:18 | the flag starts unset |
| Multiplication.UserData.AskForNumber | multiplication.py:12-14 | the flag is set and the prompt shown |
| Multiplication.UserData.HandlePossibleNumber | multiplication.py:16-41 | without the flag nothing is answered; a product gets its value and the error text gets the error reply, both keeping the flag; the first integer otherwise gets its table, and only then is the flag cleared |
| Multiplication.ArabicNumberGetsTable | multiplication.py:9-38 | a message of Arabic-Indic digits is no product, and its first integer is the number it spells |
| Mutiplicaton.LinesUpTo | mutiplicaton.py:14-15 | line `i` is `number x i = number*i` |
| Mutiplicaton.GenerateTable | mutiplicaton.py:9-18 | no text: the uncaught error; text `int` rejects: the error reply alone; a number: exactly the ten lines, each ended by a newline, with no header |
| Mutiplicaton.TerminatedFirst | mutiplicaton.py:13-15 | the table starts with its first line and a newline |
| Mutiplicaton.SplitTerminated | mutiplicaton.py:13-16 | splitting newline-ended lines at the newlines gives the lines and then `""` |
| Mutiplicaton.TableLines | mutiplicaton.py:13-16 | the table is exactly its ten lines for 1..10, in order, each ended by a newline |

## Left out

- Telegram and Flask plumbing is not modelled. This covers sending and editing messages, keyboards, the menu handlers (`show_menu`, `start_cmd`, `menu_mult`, `menu_ai`, `multiplication_table_handler`), `build_telegram_app`, the webhook, the health check and polling. Reason: it is I/O in foreign libraries. Handlers return what they would show instead.
- The AI branch of `text_router` and ask_qiyas_ai.py are not modelled, because they are network calls to an LLM.
- The environment configuration of app.py is not modelled; it reads the process environment.
- Reading `data.json` and writing it in make_data.py are not modelled.
  - `LoadQuestions` takes the parsed items, or None for a missing file.
  - An `answer`, `choices` or `explanation` value that is not a string, or a list of non-strings, is outside the item datatype.
  - A `question` or `q` value that is present but not a string (app.py:69) is outside the item datatype.
  - An `id` that is neither an integer nor a string (null, a float or a boolean, which `str()` renders as `"None"`, `"1.5"` or `"True"`; app.py:78) is outside the id datatype.
- The pseudo-random generator and `random.seed(42)` are not modelled. Every draw is a parameter constrained to its literal range.
- MkOpts: `mk_opts` loops until it has four candidates. The model reads a finite list of drawn deltas and returns None when the list runs out first. `MkOpts`, `MakeQuestion` and every generator therefore state their results for the Some case.
- MakeData.Dataset.AverageSection: the average questions are kept as their five numbers only. Their answer `round(sum/5, 1)` is a float, and `four_choices` on a float (the `norm` branch) is not modelled.
- `int()`, `str.isdigit`, regex `\d` and `\s` accept only ASCII digits here, and as whitespace only the ASCII characters Python counts as whitespace (space, `\t`, `\n`, `\v`, `\f`, `\r` and `\x1c` to `\x1f`). Python also accepts other Unicode digits and spaces (such as `\x85` and `\xa0`), and `int()` accepts underscores between digits.
- Floating point in the percentage section: `round(base*p/100)` is computed as the half-to-even rounding of the exact quotient. A tie `x.5` is exact in binary floating point, and every other quotient is at least 0.01 away from a tie, so this is the value Python computes.
- The `list(set)` order in `mk_opts` and `four_choices` depends on hashing. Both are followed by a shuffle, so they are modelled as one supplied permutation of the candidates in insertion order.

## Findings

| source | as written | input that shows it | evidently intended | confidence | as-written member | corrected member |
|---|---|---|---|---|---|---|
| qiyas_200.py:22-25 | the quotient kind draws `b` in 2..12 independently of `a` and `c` and marks `(a*c) // b` | `b = 5`, `a = 2`, `c = 3`: marked 1 for `(2 × 3) ÷ 5 = 1.2` | the comment asks for `b` dividing `a*c`, so that the answer is exact | high (not executed) | QiyasGenerators.QuotientNotExact | QiyasGenerators.GenArithExact |
| qiyas_200.py:31-33 | `gen_percent` marks `base*p // 100` | `base = 80`, `p = 12`: marked 9 for 9.6 | a whole answer, with `p` among the percentages exact for `base` | medium (not executed) | QiyasGenerators.PercentNotExact | QiyasGenerators.GenPercentExact |
| app.py:207-210 | the guard `txt.lstrip("-").isdigit()` admits any number of leading minus signs, and `int(txt)` is not guarded | text `"--7"`: the guard passes, `int` raises and the handler fails | at most one leading minus sign, so that a passing text always parses | high (not executed) | QuestionBank.DoubleMinusCrashes | QuestionBank.MultModeReply |
