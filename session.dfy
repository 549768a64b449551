/** The session of the quiz page: the values Streamlit keeps between reruns of
    the script, and the three events that change them (pressing テスト開始, clicking
    an option, and a rerun of the main area). Each method does what the script
    does to the session values and is proved equal to the step of the state
    machine in Rounds. */
module Session {
  import opened Seqs
  import opened Vocabulary
  import opened Ranges
  import opened Pools
  import opened Options
  import opened Rounds

  /** What the main area shows after a rerun: the current question with its
      number, the question count, the text, the option buttons and the shortage
      warning; the results of a finished round; or nothing. */
  datatype View =
    | Question(number: nat, total: nat, text: string, options: seq<string>, short: bool)
    | Shown(summary: Summary)
    | Nothing

  class QuizSession {
    var wrongAnswers: seq<Entry>
    var correctAnswers: seq<Entry>
    var testStarted: bool
    var questions: seq<Entry>
    var current: nat
    var correct: nat
    var tempWrongs: seq<Entry>

    /** The session values as a value of the state machine. */
    function Snapshot(): State
      reads this
    {
      State(wrongAnswers, correctAnswers, testStarted, questions, current, correct, tempWrongs)
    }

    ghost predicate Valid()
      reads this
    {
      Rounds.Valid(Snapshot())
    }

    /** The first run of the script: empty answer lists and no round. */
    constructor ()
      ensures Snapshot() == Initial() && Valid()
    {
      wrongAnswers := [];
      correctAnswers := [];
      testStarted := false;
      questions := [];
      current := 0;
      correct := 0;
      tempWrongs := [];
    }

    /** Pressing テスト開始 for the form, the sheet, the window and the question
        count chosen in the sidebar. */
    method StartTest(mode: Mode, words: seq<Entry>, w: Window, num: nat, choice: Choices)
      returns (notice: StartNotice)
      requires Valid()
      modifies this
      ensures (Snapshot(), notice) == Start(old(Snapshot()), mode, SelectPool(mode, old(wrongAnswers), words, w), num, choice)
      ensures Valid()
    {
      var pool := SelectPool(mode, wrongAnswers, words, w);
      if mode == Review && |wrongAnswers| == 0 {
        notice := NoWrongAnswers;
      } else if |pool| == 0 {
        notice := EmptyRange;
      } else if |pool| < num {
        notice := Shortfall(|pool|);
        testStarted := true;
        questions := Draw(pool, |pool|, choice);
        current := 0;
        correct := 0;
        tempWrongs := [];
      } else {
        notice := Started;
        testStarted := true;
        questions := Draw(pool, num, choice);
        current := 0;
        correct := 0;
        tempWrongs := [];
      }
      StartValid(old(Snapshot()), mode, pool, num, choice);
    }

    /** Clicking the option `opt` of the current question. */
    method AnswerQuestion(mode: Mode, opt: string)
      requires Valid()
      modifies this
      ensures Snapshot() == Answer(old(Snapshot()), mode, opt)
      ensures Valid()
    {
      ghost var st := Snapshot();
      if current < |questions| {
        var q := questions[current];
        if opt == CorrectAnswer(mode, q) {
          correct := correct + 1;
          correctAnswers := correctAnswers + [q];
          if mode == Review {
            wrongAnswers := RemoveNo(wrongAnswers, q.no);
          }
        } else {
          tempWrongs := tempWrongs + [q];
        }
        current := current + 1;
      }
      assert Snapshot() == Answer(st, mode, opt);
      AnswerValid(st, mode, opt);
    }

    /** A rerun of the main area. While a round runs it shows the current
        question and changes nothing; once all questions are answered it merges
        the round's mistakes into the wrong-answer list, shows the results and
        ends the round; otherwise it shows nothing. */
    method Rerun(mode: Mode, words: seq<Entry>, w: Window,
                 c1: Choices, c2: Choices, c3: Choices, shuffle: Choices)
      returns (view: View)
      requires Valid()
      modifies this
      ensures Valid()
      ensures PhaseOf(old(Snapshot())) == Asking ==>
        Snapshot() == old(Snapshot()) && view.Question?
        && var q := questions[current];
          var candidates := Candidates(CorrectAnswer(mode, q),
                                       AnswerColumn(SelectPool(mode, wrongAnswers, words, w), mode),
                                       AnswerColumn(correctAnswers, mode), c1, c2, c3);
          view.number == current + 1 && view.total == |questions| && view.text == QuestionText(mode, q)
          && multiset(view.options) == multiset(candidates) + multiset{Sentinel}
          && (view.short <==> |candidates| < 4)
          && CorrectAnswer(mode, q) in view.options
      ensures PhaseOf(old(Snapshot())) == Results ==>
        view.Shown? && (Snapshot(), view.summary) == Finish(old(Snapshot()))
      ensures PhaseOf(old(Snapshot())) == Idle ==> Snapshot() == old(Snapshot()) && view == Nothing
    {
      if testStarted && current < |questions| {
        var q := questions[current];
        var text := QuestionText(mode, q);
        var answer := CorrectAnswer(mode, q);
        var pool := AnswerColumn(SelectPool(mode, wrongAnswers, words, w), mode);
        var correctPool := AnswerColumn(correctAnswers, mode);
        var options, short := GenerateOptions(answer, pool, correctPool, c1, c2, c3, shuffle);
        view := Question(current + 1, |questions|, text, options, short);
      } else if testStarted {
        var summary := Summary(correct, |questions|, tempWrongs);
        var k := 0;
        while k < |tempWrongs|
          invariant k <= |tempWrongs|
          invariant wrongAnswers == Merge(old(wrongAnswers), tempWrongs[..k])
          invariant correctAnswers == old(correctAnswers) && testStarted == old(testStarted)
          invariant questions == old(questions) && current == old(current) && correct == old(correct)
          invariant tempWrongs == old(tempWrongs)
        {
          var wrong := tempWrongs[k];
          assert tempWrongs[..k + 1][..k] == tempWrongs[..k];
          if wrong !in wrongAnswers {
            wrongAnswers := wrongAnswers + [wrong];
          }
          k := k + 1;
        }
        assert tempWrongs[..k] == tempWrongs;
        testStarted := false;
        view := Shown(summary);
        FinishValid(old(Snapshot()));
      } else {
        view := Nothing;
      }
    }
  }
}
