/** The rows of the vocabulary sheet and the three test forms of the quiz. */
module Vocabulary {

  /** A row of the sheet: its number (No.), the English word (単語) and its
      Japanese meaning (語の意味). The quiz keeps answered questions as the same
      triple in its answer lists. */
  datatype Entry = Entry(no: int, term: string, meaning: string)

  /** The test forms of the sidebar: 英語→日本語 shows the word and asks for the
      meaning, 日本語→英語 shows the meaning and asks for the word, and 間違えた問題
      reviews earlier mistakes, asked like 英語→日本語. */
  datatype Mode = EnglishToJapanese | JapaneseToEnglish | Review

  /** The extra option "わからない" ("I don't know") offered with every question. */
  const Sentinel: string := "わからない"

  /** The forms in which the meaning is the answer. */
  predicate AsksMeaning(mode: Mode)
  {
    mode == EnglishToJapanese || mode == Review
  }

  /** The text shown as the question. */
  function QuestionText(mode: Mode, e: Entry): string
  {
    if AsksMeaning(mode) then e.term else e.meaning
  }

  /** The field an option must equal to be counted correct. */
  function CorrectAnswer(mode: Mode, e: Entry): string
  {
    if AsksMeaning(mode) then e.meaning else e.term
  }

  /** Review asks exactly like 英語→日本語, and 日本語→英語 is its mirror image:
      what one shows the other asks for. */
  lemma ModesAsk(e: Entry)
    ensures QuestionText(EnglishToJapanese, e) == e.term && CorrectAnswer(EnglishToJapanese, e) == e.meaning
    ensures QuestionText(Review, e) == QuestionText(EnglishToJapanese, e)
    ensures CorrectAnswer(Review, e) == CorrectAnswer(EnglishToJapanese, e)
    ensures QuestionText(JapaneseToEnglish, e) == CorrectAnswer(EnglishToJapanese, e)
    ensures CorrectAnswer(JapaneseToEnglish, e) == QuestionText(EnglishToJapanese, e)
  {
  }

  /** The question and its answer are always the two text fields of the entry. */
  lemma QuestionAndAnswerAreTheFields(mode: Mode, e: Entry)
    ensures multiset{QuestionText(mode, e), CorrectAnswer(mode, e)} == multiset{e.term, e.meaning}
  {
  }

  /** The answer column of a table of entries: the meanings or the words,
      according to the form, row by row. */
  function AnswerColumn(es: seq<Entry>, mode: Mode): (c: seq<string>)
    ensures |c| == |es|
    ensures forall k :: 0 <= k < |es| ==> c[k] == CorrectAnswer(mode, es[k])
  {
    if |es| == 0 then [] else [CorrectAnswer(mode, es[0])] + AnswerColumn(es[1..], mode)
  }

  /** A text is in the column exactly when some entry has it as its answer. */
  lemma AnswerColumnHas(es: seq<Entry>, mode: Mode, x: string)
    ensures x in AnswerColumn(es, mode) <==> exists e :: e in es && CorrectAnswer(mode, e) == x
  {
    var c := AnswerColumn(es, mode);
    if x in c {
      var k :| 0 <= k < |c| && c[k] == x;
      assert es[k] in es;
    }
    if exists e :: e in es && CorrectAnswer(mode, e) == x {
      var e :| e in es && CorrectAnswer(mode, e) == x;
      var k :| 0 <= k < |es| && es[k] == e;
      assert c[k] == x;
    }
  }
}
