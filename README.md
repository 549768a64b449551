# English vocabulary quiz — a Dafny model of its quiz core

The program is a Streamlit page (`streamlit_app.py`) that quizzes a learner on
the English words of a vocabulary sheet (columns No., 単語 = word, 語の意味 =
meaning). In the sidebar the learner chooses a test form: 英語→日本語 shows a
word and asks for its meaning, 日本語→英語 shows a meaning and asks for its word,
and 間違えた問題 reviews the questions answered wrongly in earlier rounds and
asks like 英語→日本語. The learner also chooses a range of one hundred numbers and
a question count. Pressing テスト開始 draws the questions of a round. Each
question offers up to five distinct answer texts, plus the button わからない
("I don't know"), in a random order. Clicking an option scores it. After the
last question a results screen shows the score and the round's mistakes. It
merges those mistakes into the wrong-answer list that the review form draws
from.

The model consists of seven modules:

- `Seqs` (seqs.dfy) holds the sequence operations that stand for the pandas
  and NumPy calls: `drop_duplicates` (`Distinct`), `~isin` filtering
  (`Without`), `sample` (`Draw`) and `np.random.shuffle` (`Shuffle`). The
  random generator is not modelled as a distribution. The caller passes the
  values it hands out (`Choices`). `DrawCanYield` and `ShuffleCanYield` prove
  that every outcome of the real call has some such values.
- `Vocabulary` (vocabulary.dfy) holds the sheet rows, the test forms, and
  which field is the question and which the answer.
- `Ranges` (ranges.dfy) holds the windows of the range selector.
- `Pools` (pools.dfy) chooses the question pool: the wrong-answer list, or the
  sheet rows of the window.
- `Options` (options.dfy) builds the answer buttons. This is an imperative
  method, proved against a specification function `Candidates`.
- `Rounds` (rounds.dfy) is the quiz as a state machine over the session
  values: start, answer and results.
- `Session` (session.dfy) is the session as a class whose fields the methods
  update in place, as the script does to `st.session_state`. Each method is
  proved equal to the `Rounds` step on the old values, and keeps the session
  invariant `Rounds.Valid`.

Each run of the script is modelled as one or two method calls:

- Pressing テスト開始 is `Session.QuizSession.StartTest` followed by
  `Session.QuizSession.Rerun`. The start (l.66-83) runs inside the same run
  that goes on to show the first question (l.102-139).
- Clicking a button is `Session.QuizSession.AnswerQuestion` followed by
  `Session.QuizSession.Rerun`. Streamlit runs the callback before the next run
  of the script.

Points of the script's behaviour that the model keeps:

- **Distractors.** Up to four distractors are drawn (l.108).
- **Windows.** Windows start at 1 and step by 100 (l.51).
- **Review removal.** A correct answer in review removes the entry from the
  wrong-answer list at once (l.94-96).
- **Merging duplicates.** The results screen judges duplicates by the whole
  (No., word, meaning) triple (l.146). An entry with the same number but other
  text is appended again (`Rounds.MergeKeepsSameNumber`).
- **Review with an empty list.** Review mode with an empty wrong-answer list
  selects the window pool (l.60-63), and starting is refused (l.67).
- **"わからない".** This option is an ordinary button. It counts as correct
  only if the answer text itself is わからない (`Rounds.SentinelIsAMistake`).

The top-up from the pool (l.111-115) can never add an option: when fewer than
four options remain after the first draw, they already hold every pool text
(`Options.PoolTopUpAddsNothing`).

## Model

| member | source | states |
|---|---|---|
| Vocabulary.ModesAsk | streamlit_app.py:89-90 | 英語→日本語 shows the word and takes the meaning as the answer; review asks exactly the same; 日本語→英語 shows what 英語→日本語 asks for and asks for what it shows |
| Vocabulary.QuestionAndAnswerAreTheFields | streamlit_app.py:103-105 | in every form the question text and the correct answer are the word and the meaning of the entry, one each |
| Vocabulary.AnswerColumn | streamlit_app.py:107 | the answer column has one text per row, and row k's text is the correct answer of entry k in the chosen form |
| Vocabulary.AnswerColumnHas | streamlit_app.py:107 | a text is in the answer column exactly when some entry of the table has it as its correct answer |
| Ranges.MaxNo | streamlit_app.py:50 | the largest number of a non-empty sheet: it is some row's number, and no row's number is larger |
| Ranges.WindowAt | streamlit_app.py:51 | window k exists exactly when 100k + 1 <= maxNo, and it runs from 100k + 1 to min(100k + 100, maxNo) |
| Ranges.WindowCount | streamlit_app.py:51 | there are ⌈maxNo / 100⌉ windows, and none when maxNo < 1 |
| Ranges.WindowsTile | streamlit_app.py:51-52 | windows exist exactly when maxNo >= 1; each holds 1 to 100 numbers; the first starts at 1, each starts right after the one before, and the last ends at maxNo |
| Ranges.WindowsPartition | streamlit_app.py:51 | number no lies in window k exactly when 1 <= no <= maxNo and k = (no - 1) / 100 |
| Ranges.WindowFor | streamlit_app.py:51-54 | every number in 1..maxNo lies in some window the selector offers |
| Ranges.EveryRowHasOneWindow | streamlit_app.py:50-54 | every sheet row numbered 1 or more lies in exactly one window of the sheet's ranges |
| Pools.InWindow | streamlit_app.py:63 | the rows kept are exactly the sheet rows whose number is in the window, each as often as in the sheet |
| Pools.InWindowAppend | streamlit_app.py:63 | filtering keeps the sheet order: the rows of a concatenation are the rows of each part, in turn |
| Pools.SelectPool | streamlit_app.py:60-63 | review with a non-empty wrong-answer list draws from that list; in every other case (review with an empty list included) the pool is the sheet rows of the window |
| Seqs.WithoutHas | streamlit_app.py:112 | filtering with `~isin` keeps exactly the values not in the exclusion list |
| Seqs.DistinctFacts | streamlit_app.py:108 | `drop_duplicates` keeps each value once, drops no value, and never lengthens the sequence |
| Seqs.Draw | streamlit_app.py:74 | `sample(n)` yields min(n, len(s)) elements |
| Seqs.DrawSubMultiset | streamlit_app.py:80 | `sample(n)` draws without replacement: no element more often than the source holds it |
| Seqs.DrawAll | streamlit_app.py:74 | sampling all rows yields a permutation of the rows |
| Seqs.DrawCanYield | streamlit_app.py:74 | every arrangement of a sub-multiset of the right size is a possible sample |
| Seqs.Shuffle | streamlit_app.py:127 | `np.random.shuffle` returns a permutation of its input |
| Seqs.ShuffleCanYield | streamlit_app.py:127 | every permutation is a possible shuffle |
| Options.FirstChoicesFacts | streamlit_app.py:108-110 | the first choices are min(4, len(d)) distinct distractors drawn from the pool texts other than the answer, followed by the answer once; when there are fewer than four, they already hold every pool text |
| Options.TopUpFacts | streamlit_app.py:112-115 | a top-up keeps the earlier options as a prefix, adds only source texts not yet offered, keeps the options distinct, never goes beyond four, and leaves no source text out when it ends below four |
| Options.PoolTopUpAddsNothing | streamlit_app.py:111-115 | the top-up from the pool never changes the options |
| Options.CandidatesWellFormed | streamlit_app.py:108-122 | before わからない is added, no text appears twice; the correct answer appears exactly once; there are 1 to 5 options; each is the answer, a pool text, or the answer of an earlier correct question |
| Options.NoTopUpWhenEnough | streamlit_app.py:108-111 | with three or more distinct distractors, no top-up happens: the options are the drawn distractors and the answer |
| Options.ShortOnlyWhenExhausted | streamlit_app.py:116-124 | the shortage warning appears only when every pool text and every earlier correct answer is already an option |
| Options.WithSentinel | streamlit_app.py:126-127 | adding わからない and shuffling keeps every candidate, the answer included |
| Options.ButtonsDistinct | streamlit_app.py:126-139 | the buttons have distinct labels exactly when no candidate is the text わからない |
| Options.GenerateOptions | streamlit_app.py:107-127 | the buttons are a permutation of the candidates plus わからない; the correct answer and わからない are among them; the warning flag is set exactly when there are fewer than four candidates |
| Vocabulary.QuestionText | streamlit_app.py:104 | the question text: the word in 英語→日本語 and review, the meaning in 日本語→英語 (stated by `Vocabulary.ModesAsk`) |
| Vocabulary.CorrectAnswer | streamlit_app.py:90 | the answer an option must equal: the meaning in 英語→日本語 and review, the word in 日本語→英語 (stated by `Vocabulary.ModesAsk`) |
| Ranges.Windows | streamlit_app.py:51 | the windows (i, min(i + 99, max_no)) for i = 1, 101, … up to max_no (stated by `Ranges.WindowAt`, `Ranges.WindowCount`, `Ranges.WindowsTile`) |
| Seqs.Without | streamlit_app.py:112 | `s[~s.isin(excl)]`: the elements of s not in excl, in order (stated by `Seqs.WithoutHas`) |
| Seqs.Distinct | streamlit_app.py:108 | `drop_duplicates()`: the first occurrence of each value, in order (stated by `Seqs.DistinctFacts`) |
| Options.Distractors | streamlit_app.py:108 | the distinct pool texts other than the correct answer, in pool order (stated by `Options.FirstChoicesFacts`) |
| Options.FirstChoices | streamlit_app.py:108-110 | min(4, len(d)) distractors drawn, then the correct answer unless already drawn (stated by `Options.FirstChoicesFacts`) |
| Options.TopUp | streamlit_app.py:112-115 | one top-up: up to 4 - len(choices) distinct source texts not yet offered, drawn and appended (stated by `Options.TopUpFacts`) |
| Options.Candidates | streamlit_app.py:108-122 | the options before わからない: the first choices, topped up from the pool and then from earlier correct answers while fewer than four (stated by `Options.CandidatesWellFormed`, `Options.NoTopUpWhenEnough`, `Options.ShortOnlyWhenExhausted`) |
| Rounds.Start | streamlit_app.py:66-83 | pressing テスト開始: refusal for review without mistakes or an empty pool, otherwise a new round of sampled questions with a shortfall notice when the pool is smaller than the count (stated by `Rounds.StartRefusal`, `Rounds.StartRound`) |
| Rounds.RemoveNo | streamlit_app.py:96 | the wrong-answer list without the entries with the question's number (stated by `Rounds.RemoveNoFacts`) |
| Rounds.Answer | streamlit_app.py:86-99 | `answer_question`: nothing after the end; otherwise score or record the mistake and move on (stated by `Rounds.AnswerAfterEnd`, `Rounds.AnswerStep`) |
| Rounds.Merge | streamlit_app.py:145-147 | appends each round mistake, in order, unless an equal tuple is already in the list (stated by `Rounds.MergeAppendsNew`, `Rounds.MergeFacts`) |
| Rounds.Finish | streamlit_app.py:142-158 | the results screen: merges the mistakes, ends the round, and shows score, total and mistakes (stated by `Rounds.FinishValid`) |
| Rounds.InitialValid | streamlit_app.py:21-26 | the fresh session satisfies the invariant: an empty tally and a wrong-answer list without repeats |
| Rounds.StartRefusal | streamlit_app.py:66-70 | a start is refused exactly for review with no mistakes yet, or otherwise for an empty pool; a refused start changes nothing |
| Rounds.StartRound | streamlit_app.py:71-83 | an accepted start draws min(num, len(pool)) questions from the pool without replacement; it resets the position, score and mistakes, keeps both answer lists, and warns of a shortfall exactly when the pool is smaller than num |
| Rounds.StartCanDrawAny | streamlit_app.py:71-83 | any arrangement of min(num, len(pool)) pool entries is a possible question list |
| Rounds.StartValid | streamlit_app.py:66-83 | every start keeps the session invariant |
| Rounds.RemoveNoFacts | streamlit_app.py:95-96 | the review removal keeps exactly the entries with another number, none more often than before |
| Rounds.RemoveNoAppend | streamlit_app.py:96 | the review removal keeps the order of the remaining entries |
| Rounds.RemoveNoAbsent | streamlit_app.py:96 | the removal leaves a list holding no entry with that number unchanged |
| Rounds.AnswerAfterEnd | streamlit_app.py:87-88 | an answer after the last question changes nothing |
| Rounds.AnswerStep | streamlit_app.py:89-99 | before the end, an answer moves to the next question and does exactly one of two things; a right answer scores a point and records the question as answered correctly; a wrong one adds the question to the round's mistakes; only a right answer in review changes the wrong-answer list |
| Rounds.SentinelIsAMistake | streamlit_app.py:91-98 | choosing わからない records a mistake unless the answer itself is that text |
| Rounds.AnswerTally | streamlit_app.py:91-99 | answering keeps the tally: correct + mistakes = position <= question count, and the mistakes are answered questions |
| Rounds.AnswerNoDup | streamlit_app.py:94-96 | answering keeps the wrong-answer list free of repeated entries |
| Rounds.AnswerValid | streamlit_app.py:86-99 | answering keeps the session invariant |
| Rounds.AnswerAllCompletes | streamlit_app.py:86-99 | answering the questions one by one keeps the invariant and the questions; after as many answers as questions the round is over, and every question was scored once |
| Rounds.MergeAppendsNew | streamlit_app.py:145-147 | the merged list is the old list followed by the first occurrence of each round mistake the old list does not hold, in round order |
| Rounds.MergeFacts | streamlit_app.py:145-147 | the merge keeps the old list as a prefix, contains every mistake of the round, adds nothing else, and keeps a list without repeats free of repeats |
| Rounds.MergeIdempotent | streamlit_app.py:145-147 | merging the same mistakes a second time changes nothing |
| Rounds.MergeKeepsSameNumber | streamlit_app.py:146 | an entry with a number already in the list but other text is still appended |
| Rounds.FinishValid | streamlit_app.py:142-158 | the results screen keeps the invariant, ends the round, and keeps the round's questions, position and score; the congratulation (no mistakes) is shown exactly for a full score |
| Session.QuizSession.constructor | streamlit_app.py:21-26 | the first run starts with empty answer lists, no round, and the invariant |
| Session.QuizSession.StartTest | streamlit_app.py:60-83 | pressing テスト開始 updates the session exactly as the start step does for the pool of the current form, and keeps the invariant |
| Session.QuizSession.AnswerQuestion | streamlit_app.py:86-99 | the click handler updates the session exactly as the answer step does, and keeps the invariant |
| Session.QuizSession.Rerun | streamlit_app.py:102-158 | while a round runs, the rerun shows question current + 1 of len(questions) with its text and a permutation of the candidates plus わからない (the answer among them), and changes nothing; after the last answer, its merge loop updates the session exactly as the results step does; otherwise it shows nothing |

## Left out

- Loading the spreadsheet (`pd.read_excel`, the column renaming and caching) is not modelled. The sheet is a parameter of type `seq<Entry>`.
- Numbers are `int`. The pandas/NumPy integer types and the `int(...)` conversion on l.50 are not modelled. An empty sheet, where `max()` is NaN and the conversion fails, is not modelled either: `Ranges.MaxNo` requires a non-empty sheet.
- The page layout is left out: the image, CSS, title, caption, subheader and the big question text. Only the values they display appear, in `Session.View`.
- The progress bars (l.130, l.150) compute float ratios and are left out. With the slider's minimum of 1 question, a started round has at least one question, so the division on l.150 is defined.
- The sidebar widgets are parameters: the radio becomes `Mode` and the slider becomes `num`. The selectbox and its labels (l.52-54) become a `Window`. The methods accept any window, not just one from `Ranges.Windows`.
- The warning and error messages are modelled as `Rounds.StartNotice` values and the `short` flag, not as text.
- Randomness is modelled as the values the generator hands out (`Seqs.Choices`), not as a probability distribution.
- Streamlit's rerun mechanics are not modelled: widget state, callback ordering, and the `test_mode` a callback sees. `Session.QuizSession.AnswerQuestion` takes the form as a parameter.
- The table of mistakes (`st.dataframe`, l.152-157) is modelled as the `missed` field of `Rounds.Summary`.
- Session values that do not yet exist before the first start (`questions`, `current`, `correct`, `temp_wrongs`) are empty or zero in `Rounds.Initial`. The script never reads them before a start, because `test_started` is false until then.
- Options are compared as whole strings. pandas' element-wise `!=` and `isin` on strings behave the same way.
- Streamlit refuses two buttons with the same label. This is not modelled; `Options.ButtonsDistinct` states when it cannot happen.
