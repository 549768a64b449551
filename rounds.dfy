/** The quiz as a state machine over the session values: starting a round,
    answering a question, and the results screen that merges the round's
    mistakes into the wrong-answer list. Each step is a function from the old
    session values to the new ones. */
module Rounds {
  import opened Seqs
  import opened Vocabulary

  /** The session values: the wrong-answer and correct-answer lists kept across
      rounds, whether a round is running, its questions, the position of the
      next question, the score and the round's mistakes. */
  datatype State = State(
    wrongAnswers: seq<Entry>,
    correctAnswers: seq<Entry>,
    testStarted: bool,
    questions: seq<Entry>,
    current: nat,
    correct: nat,
    tempWrongs: seq<Entry>)

  /** A new session: empty answer lists and no round. The round values do not
      exist before the first start; they are empty here. */
  function Initial(): State
  {
    State([], [], false, [], 0, 0, [])
  }

  /** Within a round every answered question is scored once, either as correct
      or as a mistake, and the mistakes are answered questions. */
  ghost predicate Tally(st: State)
  {
    st.correct + |st.tempWrongs| == st.current <= |st.questions|
    && multiset(st.tempWrongs) <= multiset(st.questions[..st.current])
  }

  /** The session invariant: the tally, and no tuple twice in the wrong-answer list. */
  ghost predicate Valid(st: State)
  {
    Tally(st) && NoDup(st.wrongAnswers)
  }

  lemma InitialValid()
    ensures Valid(Initial())
  {
  }

  // ---- Starting a round ----

  /** What pressing テスト開始 shows: a refusal for review without mistakes or
      for an empty range, the shortfall warning, or nothing. */
  datatype StartNotice = NoWrongAnswers | EmptyRange | Shortfall(available: nat) | Started

  /** Pressing テスト開始 with the pool of the current form. A refused start
      changes nothing; otherwise the round gets min(num, |pool|) questions drawn
      from the pool. */
  function Start(st: State, mode: Mode, pool: seq<Entry>, num: nat, choice: Choices): (State, StartNotice)
  {
    if mode == Review && |st.wrongAnswers| == 0 then (st, NoWrongAnswers)
    else if |pool| == 0 then (st, EmptyRange)
    else if |pool| < num then
      (st.(testStarted := true, questions := Draw(pool, |pool|, choice), current := 0, correct := 0, tempWrongs := []),
       Shortfall(|pool|))
    else
      (st.(testStarted := true, questions := Draw(pool, num, choice), current := 0, correct := 0, tempWrongs := []),
       Started)
  }

  predicate Refused(notice: StartNotice)
  {
    notice == NoWrongAnswers || notice == EmptyRange
  }

  /** Refusal happens exactly for review without mistakes and for an empty pool,
      and leaves every session value as it was. */
  lemma StartRefusal(st: State, mode: Mode, pool: seq<Entry>, num: nat, choice: Choices)
    ensures var (next, notice) := Start(st, mode, pool, num, choice);
      (notice == NoWrongAnswers <==> mode == Review && |st.wrongAnswers| == 0)
      && (notice == EmptyRange <==> !(mode == Review && |st.wrongAnswers| == 0) && |pool| == 0)
      && (Refused(notice) ==> next == st)
  {
  }

  /** A start that is not refused: min(num, |pool|) questions, distinct
      positions of the pool (a sub-multiset of it), a new count, the answer
      lists unchanged, and the shortfall warning exactly when the pool is
      smaller than num. */
  lemma StartRound(st: State, mode: Mode, pool: seq<Entry>, num: nat, choice: Choices)
    requires !(mode == Review && |st.wrongAnswers| == 0) && |pool| > 0
    ensures var (next, notice) := Start(st, mode, pool, num, choice);
      next.testStarted && next.current == 0 && next.correct == 0 && next.tempWrongs == []
      && |next.questions| == Min(num, |pool|)
      && multiset(next.questions) <= multiset(pool)
      && next.wrongAnswers == st.wrongAnswers && next.correctAnswers == st.correctAnswers
      && notice == (if |pool| < num then Shortfall(|pool|) else Started)
  {
    if |pool| < num {
      DrawSubMultiset(pool, |pool|, choice);
    } else {
      DrawSubMultiset(pool, num, choice);
    }
  }

  /** Every question list the start may draw can come out: any arrangement of
      min(num, |pool|) entries of the pool. */
  lemma StartCanDrawAny(st: State, mode: Mode, pool: seq<Entry>, num: nat, questions: seq<Entry>)
    requires !(mode == Review && |st.wrongAnswers| == 0) && |pool| > 0
    requires |questions| == Min(num, |pool|) && multiset(questions) <= multiset(pool)
    ensures exists choice :: Start(st, mode, pool, num, choice).0.questions == questions
  {
    if |pool| < num {
      DrawCanYield(pool, |pool|, questions);
      var choice :| Draw(pool, |pool|, choice) == questions;
      assert Start(st, mode, pool, num, choice).0.questions == questions;
    } else {
      DrawCanYield(pool, num, questions);
      var choice :| Draw(pool, num, choice) == questions;
      assert Start(st, mode, pool, num, choice).0.questions == questions;
    }
  }

  /** Every start keeps the session invariant. */
  lemma StartValid(st: State, mode: Mode, pool: seq<Entry>, num: nat, choice: Choices)
    requires Valid(st)
    ensures Valid(Start(st, mode, pool, num, choice).0)
  {
    if !(mode == Review && |st.wrongAnswers| == 0) && |pool| > 0 {
      StartRound(st, mode, pool, num, choice);
    }
  }

  // ---- Answering ----

  /** The wrong-answer list without the entries numbered `no`. */
  function RemoveNo(ws: seq<Entry>, no: int): seq<Entry>
  {
    if |ws| == 0 then []
    else (if ws[0].no != no then [ws[0]] else []) + RemoveNo(ws[1..], no)
  }

  /** Removal keeps exactly the entries with another number, each at most as
      often as before. */
  lemma {:induction false} RemoveNoFacts(ws: seq<Entry>, no: int)
    ensures forall e :: e in RemoveNo(ws, no) <==> e in ws && e.no != no
    ensures multiset(RemoveNo(ws, no)) <= multiset(ws)
  {
    if |ws| > 0 {
      assert ws == [ws[0]] + ws[1..];
      RemoveNoFacts(ws[1..], no);
    }
  }

  /** Removal keeps the order of the other entries: it works part by part. */
  lemma {:induction false} RemoveNoAppend(a: seq<Entry>, b: seq<Entry>, no: int)
    ensures RemoveNo(a + b, no) == RemoveNo(a, no) + RemoveNo(b, no)
  {
    if |a| == 0 {
      assert a + b == b;
    } else {
      var ab := a + b;
      assert ab[0] == a[0] && ab[1..] == a[1..] + b;
      RemoveNoAppend(a[1..], b, no);
    }
  }

  /** Removal leaves a list without that number as it is. */
  lemma {:induction false} RemoveNoAbsent(ws: seq<Entry>, no: int)
    requires forall e :: e in ws ==> e.no != no
    ensures RemoveNo(ws, no) == ws
  {
    if |ws| > 0 {
      assert ws[0] in ws;
      assert forall e :: e in ws[1..] ==> e in ws;
      RemoveNoAbsent(ws[1..], no);
    }
  }

  /** `answer_question`: the option chosen for the current question. Once all
      questions are answered it does nothing. */
  function Answer(st: State, mode: Mode, opt: string): State
  {
    if st.current >= |st.questions| then st
    else
      var q := st.questions[st.current];
      if opt == CorrectAnswer(mode, q) then
        st.(correct := st.correct + 1,
            correctAnswers := st.correctAnswers + [q],
            wrongAnswers := if mode == Review then RemoveNo(st.wrongAnswers, q.no) else st.wrongAnswers,
            current := st.current + 1)
      else
        st.(tempWrongs := st.tempWrongs + [q], current := st.current + 1)
  }

  /** Past the last question nothing changes. */
  lemma AnswerAfterEnd(st: State, mode: Mode, opt: string)
    requires st.current >= |st.questions|
    ensures Answer(st, mode, opt) == st
  {
  }

  /** Before the end an answer moves to the next question and does exactly one
      of two things: scores a point and records the question as answered
      correctly, or adds the question to the round's mistakes. In review a
      correct answer drops every entry with the question's number from the
      wrong-answer list; otherwise that list is untouched. */
  lemma AnswerStep(st: State, mode: Mode, opt: string)
    requires st.current < |st.questions|
    ensures var next := Answer(st, mode, opt);
      var q := st.questions[st.current];
      var right := opt == CorrectAnswer(mode, q);
      next.current == st.current + 1 && next.questions == st.questions && next.testStarted == st.testStarted
      && (right <==> next.correct == st.correct + 1)
      && (!right <==> next.tempWrongs == st.tempWrongs + [q])
      && (right ==> next.tempWrongs == st.tempWrongs && next.correctAnswers == st.correctAnswers + [q])
      && (!right ==> next.correct == st.correct && next.correctAnswers == st.correctAnswers)
      && (right && mode == Review ==> next.wrongAnswers == RemoveNo(st.wrongAnswers, q.no))
      && (!(right && mode == Review) ==> next.wrongAnswers == st.wrongAnswers)
  {
    var q := st.questions[st.current];
    assert |st.tempWrongs + [q]| != |st.tempWrongs|;
  }

  /** Choosing わからない is a mistake, unless the answer itself is that text. */
  lemma SentinelIsAMistake(st: State, mode: Mode)
    requires st.current < |st.questions|
    requires CorrectAnswer(mode, st.questions[st.current]) != Sentinel
    ensures Answer(st, mode, Sentinel).tempWrongs == st.tempWrongs + [st.questions[st.current]]
  {
  }

  /** Answering keeps the session invariant. */
  lemma AnswerValid(st: State, mode: Mode, opt: string)
    requires Valid(st)
    ensures Valid(Answer(st, mode, opt))
  {
    AnswerTally(st, mode, opt);
    AnswerNoDup(st, mode, opt);
  }

  lemma AnswerTally(st: State, mode: Mode, opt: string)
    requires Tally(st)
    ensures Tally(Answer(st, mode, opt))
  {
    if st.current < |st.questions| {
      var q := st.questions[st.current];
      var next := Answer(st, mode, opt);
      assert st.questions[..st.current + 1] == st.questions[..st.current] + [q];
      if opt == CorrectAnswer(mode, q) {
        assert next.tempWrongs == st.tempWrongs && next.correct == st.correct + 1;
      } else {
        assert next.tempWrongs == st.tempWrongs + [q] && next.correct == st.correct;
        assert multiset(next.tempWrongs) == multiset(st.tempWrongs) + multiset{q};
      }
    }
  }

  lemma AnswerNoDup(st: State, mode: Mode, opt: string)
    requires NoDup(st.wrongAnswers)
    ensures NoDup(Answer(st, mode, opt).wrongAnswers)
  {
    if st.current < |st.questions| && mode == Review {
      var q := st.questions[st.current];
      RemoveNoFacts(st.wrongAnswers, q.no);
      SubMultisetNoDup(RemoveNo(st.wrongAnswers, q.no), st.wrongAnswers);
    }
  }

  /** The answers given to a round in order, with the same form throughout. */
  function AnswerAll(st: State, mode: Mode, opts: seq<string>): State
    decreases |opts|
  {
    if |opts| == 0 then st else AnswerAll(Answer(st, mode, opts[0]), mode, opts[1..])
  }

  /** A round answered option by option keeps the invariant, and after as many
      answers as questions it is over: every question scored once. */
  lemma {:induction false} AnswerAllCompletes(st: State, mode: Mode, opts: seq<string>)
    requires Valid(st)
    ensures var last := AnswerAll(st, mode, opts);
      Valid(last) && last.questions == st.questions
      && last.current == Min(st.current + |opts|, |st.questions|)
      && (st.current + |opts| >= |st.questions| ==> last.correct + |last.tempWrongs| == |st.questions|)
    decreases |opts|
  {
    if |opts| > 0 {
      AnswerValid(st, mode, opts[0]);
      if st.current < |st.questions| {
        AnswerStep(st, mode, opts[0]);
      }
      AnswerAllCompletes(Answer(st, mode, opts[0]), mode, opts[1..]);
    }
  }

  // ---- The results screen ----

  /** What the script shows: a question, the results of a finished round, or
      nothing of a round. */
  datatype Phase = Asking | Results | Idle

  function PhaseOf(st: State): Phase
  {
    if st.testStarted && st.current < |st.questions| then Asking
    else if st.testStarted then Results
    else Idle
  }

  /** Appends to `ws` each tuple of `ts`, in order, unless an equal tuple is
      already there. */
  function Merge(ws: seq<Entry>, ts: seq<Entry>): seq<Entry>
    decreases |ts|
  {
    if |ts| == 0 then ws
    else
      var m := Merge(ws, ts[..|ts| - 1]);
      var t := ts[|ts| - 1];
      if t in m then m else m + [t]
  }

  /** The merge is the old list followed by the round's new tuples: the first
      occurrence of each tuple of ts that ws does not hold, in round order. */
  lemma {:induction false} MergeAppendsNew(ws: seq<Entry>, ts: seq<Entry>)
    ensures Merge(ws, ts) == ws + Distinct(Without(ts, ws))
    decreases |ts|
  {
    if |ts| == 0 {
      assert Without(ts, ws) == [];
      assert ws + [] == ws;
    } else {
      var init, t := ts[..|ts| - 1], ts[|ts| - 1];
      assert ts == init + [t];
      MergeAppendsNew(ws, init);
      WithoutSnoc(init, t, ws);
      var w := Without(init, ws);
      var m := Merge(ws, init);
      assert m == ws + Distinct(w);
      assert Merge(ws, ts) == if t in m then m else m + [t];
      DistinctSnoc(w, t);
      if t in ws {
        assert Without(ts, ws) == w;
        assert t in m;
      } else {
        assert Without(ts, ws) == w + [t];
        assert t in m <==> t in Distinct(w);
        assert (ws + Distinct(w)) + [t] == ws + (Distinct(w) + [t]);
      }
    }
  }

  /** After the merge the old entries come first in their old order, every
      tuple of the round is present, nothing else was added, and a list without
      repeated tuples still has none. */
  lemma MergeFacts(ws: seq<Entry>, ts: seq<Entry>)
    ensures var m := Merge(ws, ts);
      |m| >= |ws| && m[..|ws|] == ws
      && (forall t :: t in ts ==> t in m)
      && (forall x :: x in m ==> x in ws || x in ts)
      && (NoDup(ws) ==> NoDup(m))
  {
    var added := Distinct(Without(ts, ws));
    MergeAppendsNew(ws, ts);
    NewValues(ts, ws);
    var m := ws + added;
    assert m[..|ws|] == ws;
    assert forall x :: x in m ==> x in ws || x in added;
    forall t | t in ts ensures t in m {
      assert t in ws || t in added;
    }
    if NoDup(ws) {
      AppendNoDup(ws, added);
    }
  }

  /** Merging the same mistakes twice adds nothing the second time. */
  lemma MergeIdempotent(ws: seq<Entry>, ts: seq<Entry>)
    ensures Merge(Merge(ws, ts), ts) == Merge(ws, ts)
  {
    var m := Merge(ws, ts);
    MergeFacts(ws, ts);
    MergeAppendsNew(m, ts);
    WithoutHas(ts, m);
    NoMemberEmpty(Without(ts, m));
    assert m + [] == m;
  }

  /** Duplicates are judged by the whole tuple: an entry whose number is
      already in the list, with other text, is still appended. */
  lemma MergeKeepsSameNumber(e: Entry, f: Entry)
    requires e.no == f.no && e != f
    ensures Merge([e], [f]) == [e, f]
  {
    assert [f][..0] == [];
  }

  /** What the results screen shows: the score, the number of questions and
      the table of the round's mistakes. */
  datatype Summary = Summary(correct: nat, total: nat, missed: seq<Entry>)

  /** The results screen: merges the round's mistakes into the wrong-answer
      list and ends the round. */
  function Finish(st: State): (State, Summary)
  {
    (st.(wrongAnswers := Merge(st.wrongAnswers, st.tempWrongs), testStarted := false),
     Summary(st.correct, |st.questions|, st.tempWrongs))
  }

  /** The results screen keeps the invariant, leaves the round values in place
      and shows the congratulation (no mistakes) exactly for a full score. */
  lemma FinishValid(st: State)
    requires Valid(st) && PhaseOf(st) == Results
    ensures var (next, summary) := Finish(st);
      Valid(next) && PhaseOf(next) == Idle
      && next.questions == st.questions && next.current == st.current && next.correct == st.correct
      && (|summary.missed| == 0 <==> summary.correct == summary.total)
  {
    MergeFacts(st.wrongAnswers, st.tempWrongs);
  }
}
