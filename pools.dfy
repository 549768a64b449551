/** The question pool of a round: the wrong-answer list in review, otherwise the
    rows of the chosen window. */
module Pools {
  import opened Vocabulary
  import opened Ranges

  /** The rows of `words` whose number lies in the window, in sheet order. */
  function InWindow(words: seq<Entry>, w: Window): (r: seq<Entry>)
    ensures forall e :: e in r <==> e in words && Contains(w, e.no)
    ensures forall e :: multiset(r)[e] == if Contains(w, e.no) then multiset(words)[e] else 0
  {
    if |words| == 0 then []
    else
      assert words == [words[0]] + words[1..];
      (if Contains(w, words[0].no) then [words[0]] else []) + InWindow(words[1..], w)
  }

  /** Filtering keeps the sheet order: the rows of a concatenation are the rows
      of each part, one part after the other. */
  lemma {:induction false} InWindowAppend(a: seq<Entry>, b: seq<Entry>, w: Window)
    ensures InWindow(a + b, w) == InWindow(a, w) + InWindow(b, w)
  {
    if |a| == 0 {
      assert a + b == b;
    } else {
      var ab := a + b;
      assert ab[0] == a[0] && ab[1..] == a[1..] + b;
      InWindowAppend(a[1..], b, w);
    }
  }

  /** Whether the round draws from the wrong-answer list. */
  predicate Reviewing(mode: Mode, wrongs: seq<Entry>)
  {
    mode == Review && |wrongs| > 0
  }

  /** The pool of the current form: the wrong-answer list when reviewing with a
      non-empty list, otherwise the rows of the window (also in review mode once
      the list is empty). */
  function SelectPool(mode: Mode, wrongs: seq<Entry>, words: seq<Entry>, w: Window): (pool: seq<Entry>)
    ensures Reviewing(mode, wrongs) ==> pool == wrongs && |pool| > 0
    ensures !Reviewing(mode, wrongs) ==> forall e :: e in pool <==> e in words && Contains(w, e.no)
  {
    if Reviewing(mode, wrongs) then wrongs else InWindow(words, w)
  }
}
