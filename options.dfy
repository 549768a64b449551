/** The answer buttons of a question: up to four distinct distractors from the
    pool, the correct answer, top-ups while there are fewer than four options,
    then "わからない", all shuffled. Options are texts of the answer column. */
module Options {
  import opened Seqs
  import opened Vocabulary

  /** The distinct pool texts other than the correct answer, in pool order. */
  function Distractors(pool: seq<string>, correct: string): seq<string>
  {
    Distinct(Without(pool, [correct]))
  }

  /** The options drawn first: min(4, |d|) distractors, then the correct answer
      unless it is already among them. */
  function FirstChoices(correct: string, pool: seq<string>, c1: Choices): seq<string>
  {
    var d := Distractors(pool, correct);
    var first := Draw(d, Min(4, |d|), c1);
    if correct in first then first else first + [correct]
  }

  /** One top-up: as many of the distinct `source` texts not offered yet as are
      missing to four, or all of them if there are fewer. */
  function TopUp(choices: seq<string>, source: seq<string>, c: Choices): seq<string>
    requires |choices| < 4
  {
    var rest := Distinct(Without(source, choices));
    if |rest| > 0 then choices + Draw(rest, Min(4 - |choices|, |rest|), c) else choices
  }

  /** The options before "わからない" is added: the first choices, topped up from
      the pool and then from the answers of earlier correct questions while
      there are fewer than four. */
  function Candidates(correct: string, pool: seq<string>, correctPool: seq<string>,
                      c1: Choices, c2: Choices, c3: Choices): seq<string>
  {
    var first := FirstChoices(correct, pool, c1);
    if |first| < 4 then
      var fromPool := TopUp(first, pool, c2);
      if |fromPool| < 4 && |correctPool| > 0 then TopUp(fromPool, correctPool, c3) else fromPool
    else first
  }

  /** The first choices hold the correct answer once beside min(4, |d|) distinct
      distractors; when fewer than four, they already hold every pool text. */
  lemma FirstChoicesFacts(correct: string, pool: seq<string>, c1: Choices)
    ensures var ch := FirstChoices(correct, pool, c1);
      var d := Distractors(pool, correct);
      NoDup(ch) && correct in ch && |ch| == Min(4, |d|) + 1
      && ch == Draw(d, Min(4, |d|), c1) + [correct]
      && (forall x :: x in ch ==> x == correct || x in d)
      && (|ch| < 4 ==> forall x :: x in pool ==> x in ch)
  {
    var d := Distractors(pool, correct);
    NewValues(pool, [correct]);
    var first := Draw(d, Min(4, |d|), c1);
    DrawSubMultiset(d, Min(4, |d|), c1);
    SubMultisetNoDup(first, d);
    forall x | x in first ensures x in d {
      assert x in multiset(first);
    }
    assert correct !in first;
    AppendNoDup(first, [correct]);
    var ch := first + [correct];
    if |ch| < 4 {
      DrawAll(d, Min(4, |d|), c1);
      forall x | x in pool ensures x in ch {
        if x != correct {
          assert x in multiset(d);
          assert x in multiset(first);
        }
      }
    }
  }

  /** A top-up keeps what was there, adds only source texts not offered yet,
      keeps the options distinct and stops at four; if it ends below four, no
      source text is left out. */
  lemma TopUpFacts(choices: seq<string>, source: seq<string>, c: Choices)
    requires |choices| < 4
    ensures var r := TopUp(choices, source, c);
      |choices| <= |r| <= 4 && r[..|choices|] == choices
      && (forall x :: x in r ==> x in choices || (x in source && x !in choices))
      && (NoDup(choices) ==> NoDup(r))
      && (|r| < 4 ==> forall x :: x in source ==> x in r)
  {
    var rest := Distinct(Without(source, choices));
    NewValues(source, choices);
    var added := Draw(rest, Min(4 - |choices|, |rest|), c);
    var r := TopUp(choices, source, c);
    DrawSubMultiset(rest, Min(4 - |choices|, |rest|), c);
    forall x | x in added ensures x in rest {
      assert x in multiset(added);
    }
    if |rest| > 0 {
      assert r == choices + added;
      assert r[..|choices|] == choices;
      if NoDup(choices) {
        SubMultisetNoDup(added, rest);
        AppendNoDup(choices, added);
      }
      if |r| < 4 {
        DrawAll(rest, Min(4 - |choices|, |rest|), c);
        forall x | x in source ensures x in r {
          if x !in choices {
            assert x in multiset(rest);
            assert x in multiset(added);
          }
        }
      }
    } else {
      forall x | x in source ensures x in choices {
        assert x in choices || x in rest;
      }
    }
  }

  /** The top-up from the pool never adds anything: options below four already
      hold every pool text. */
  lemma PoolTopUpAddsNothing(correct: string, pool: seq<string>, c1: Choices, c2: Choices)
    requires |FirstChoices(correct, pool, c1)| < 4
    ensures TopUp(FirstChoices(correct, pool, c1), pool, c2) == FirstChoices(correct, pool, c1)
  {
    var first := FirstChoices(correct, pool, c1);
    FirstChoicesFacts(correct, pool, c1);
    var rest := Distinct(Without(pool, first));
    NewValues(pool, first);
    NoMemberEmpty(rest);
  }

  /** Before "わからない": the correct answer exactly once, no text twice, at most
      four distractors, and every option the correct answer, a pool text or the
      answer of an earlier correct question. */
  lemma CandidatesWellFormed(correct: string, pool: seq<string>, correctPool: seq<string>,
                             c1: Choices, c2: Choices, c3: Choices)
    ensures var cs := Candidates(correct, pool, correctPool, c1, c2, c3);
      NoDup(cs) && multiset(cs)[correct] == 1 && 1 <= |cs| <= 5
      && forall x :: x in cs ==> x == correct || x in pool || x in correctPool
  {
    var first := FirstChoices(correct, pool, c1);
    var cs := Candidates(correct, pool, correctPool, c1, c2, c3);
    FirstChoicesFacts(correct, pool, c1);
    NewValues(pool, [correct]);
    if |first| < 4 {
      var fromPool := TopUp(first, pool, c2);
      TopUpFacts(first, pool, c2);
      if |fromPool| < 4 && |correctPool| > 0 {
        TopUpFacts(fromPool, correctPool, c3);
        assert correct in fromPool;
      }
    }
    assert correct in cs;
    assert multiset(cs)[correct] >= 1;
  }

  /** The one fact of CandidatesWellFormed that GenerateOptions needs, stated
      on its own so that the method's proof does not carry the others. */
  lemma CorrectIsCandidate(correct: string, pool: seq<string>, correctPool: seq<string>,
                           c1: Choices, c2: Choices, c3: Choices)
    ensures correct in Candidates(correct, pool, correctPool, c1, c2, c3)
  {
    CandidatesWellFormed(correct, pool, correctPool, c1, c2, c3);
  }

  /** Top-ups happen only while there are fewer than four options: with three
      or more distinct distractors the options are the drawn distractors and the
      correct answer, min(4, |d|) + 1 of them. */
  lemma NoTopUpWhenEnough(correct: string, pool: seq<string>, correctPool: seq<string>,
                          c1: Choices, c2: Choices, c3: Choices)
    requires |Distractors(pool, correct)| >= 3
    ensures var d := Distractors(pool, correct);
      Candidates(correct, pool, correctPool, c1, c2, c3) == Draw(d, Min(4, |d|), c1) + [correct]
      && |Candidates(correct, pool, correctPool, c1, c2, c3)| == Min(4, |d|) + 1
  {
    FirstChoicesFacts(correct, pool, c1);
  }

  /** Fewer than four options (the shortage warning) only when nothing is left
      to offer: every pool text and every earlier correct answer is an option. */
  lemma ShortOnlyWhenExhausted(correct: string, pool: seq<string>, correctPool: seq<string>,
                               c1: Choices, c2: Choices, c3: Choices)
    requires |Candidates(correct, pool, correctPool, c1, c2, c3)| < 4
    ensures var cs := Candidates(correct, pool, correctPool, c1, c2, c3);
      forall x :: x in pool || x in correctPool ==> x in cs
  {
    var first := FirstChoices(correct, pool, c1);
    var cs := Candidates(correct, pool, correctPool, c1, c2, c3);
    FirstChoicesFacts(correct, pool, c1);
    PoolTopUpAddsNothing(correct, pool, c1, c2);
    if |correctPool| > 0 {
      TopUpFacts(first, correctPool, c3);
      forall x | x in pool ensures x in cs {
        assert x in first;
        assert cs[..|first|] == first;
        assert x in cs[..|first|];
      }
    } else {
      assert cs == first;
    }
  }

  /** The last step of GenerateOptions: adding "わからない" to the candidates and
      shuffling keeps every candidate and adds "わからない" once. */
  lemma WithSentinel(candidates: seq<string>, correct: string, options: seq<string>)
    requires correct in candidates
    requires multiset(options) == multiset(candidates + [Sentinel])
    ensures multiset(options) == multiset(candidates) + multiset{Sentinel}
    ensures Sentinel in options && correct in options
  {
    assert Sentinel in multiset(options) && correct in multiset(options);
  }

  /** The buttons of a question have distinct labels exactly when no candidate
      is the text わからない itself. */
  lemma ButtonsDistinct(correct: string, pool: seq<string>, correctPool: seq<string>,
                        c1: Choices, c2: Choices, c3: Choices, options: seq<string>)
    requires multiset(options) == multiset(Candidates(correct, pool, correctPool, c1, c2, c3)) + multiset{Sentinel}
    ensures NoDup(options) <==> Sentinel !in Candidates(correct, pool, correctPool, c1, c2, c3)
  {
    var cs := Candidates(correct, pool, correctPool, c1, c2, c3);
    CandidatesWellFormed(correct, pool, correctPool, c1, c2, c3);
    if Sentinel in cs {
      assert multiset(options)[Sentinel] == multiset(cs)[Sentinel] + 1;
    } else {
      forall x ensures multiset(options)[x] <= 1 {
        assert multiset(options)[x] == multiset(cs)[x] + multiset{Sentinel}[x];
      }
    }
  }

  /** Builds the options of a question as the quiz does: appends and extends a
      list, adds "わからない" and shuffles the list. `short` is the shortage
      warning. The result is a permutation of the candidates and "わからない". */
  method GenerateOptions(correct: string, pool: seq<string>, correctPool: seq<string>,
                         c1: Choices, c2: Choices, c3: Choices, shuffle: Choices)
    returns (options: seq<string>, short: bool)
    ensures multiset(options) == multiset(Candidates(correct, pool, correctPool, c1, c2, c3)) + multiset{Sentinel}
    ensures short <==> |Candidates(correct, pool, correctPool, c1, c2, c3)| < 4
    ensures Sentinel in options && correct in options
  {
    var d := Distractors(pool, correct);
    var choices := Draw(d, Min(4, |d|), c1);
    if correct !in choices {
      choices := choices + [correct];
    }
    assert choices == FirstChoices(correct, pool, c1);
    short := false;
    if |choices| < 4 {
      choices := TopUp(choices, pool, c2);
      if |choices| < 4 && |correctPool| > 0 {
        choices := TopUp(choices, correctPool, c3);
      }
      short := |choices| < 4;
    }
    ghost var candidates := choices;
    assert candidates == Candidates(correct, pool, correctPool, c1, c2, c3);
    CorrectIsCandidate(correct, pool, correctPool, c1, c2, c3);
    choices := choices + [Sentinel];
    options := Shuffle(choices, shuffle);
    WithSentinel(candidates, correct, options);
  }
}
