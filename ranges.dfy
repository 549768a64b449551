/** The question ranges of the sidebar: windows No.1〜No.100, No.101〜No.200, …
    of one hundred numbers each, the last one cut off at the largest number
    of the sheet. */
module Ranges {
  import opened Seqs
  import opened Vocabulary

  /** An inclusive range of entry numbers. */
  datatype Window = Window(first: int, last: int)

  predicate Contains(w: Window, no: int)
  {
    w.first <= no <= w.last
  }

  /** The largest entry number of a non-empty sheet. */
  function MaxNo(words: seq<Entry>): (m: int)
    requires |words| > 0
    ensures exists e :: e in words && e.no == m
    ensures forall e :: e in words ==> e.no <= m
  {
    if |words| == 1 then words[0].no
    else
      var m := MaxNo(words[1..]);
      assert forall e :: e in words ==> e == words[0] || e in words[1..];
      if words[0].no >= m then words[0].no else m
  }

  /** The windows starting at `start`, `start + 100`, … up to maxNo. */
  function WindowsFrom(start: int, maxNo: int): seq<Window>
    decreases maxNo + 1 - start
  {
    if start > maxNo then []
    else [Window(start, Min(start + 99, maxNo))] + WindowsFrom(start + 100, maxNo)
  }

  /** All windows of a sheet whose largest number is maxNo. */
  function Windows(maxNo: int): seq<Window>
  {
    WindowsFrom(1, maxNo)
  }

  lemma {:induction false} WindowsFromAt(start: int, maxNo: int, k: nat)
    ensures k < |WindowsFrom(start, maxNo)| <==> start + 100 * k <= maxNo
    ensures k < |WindowsFrom(start, maxNo)| ==>
      WindowsFrom(start, maxNo)[k] == Window(start + 100 * k, Min(start + 100 * k + 99, maxNo))
    decreases maxNo + 1 - start
  {
    if start <= maxNo && k > 0 {
      WindowsFromAt(start + 100, maxNo, k - 1);
    }
  }

  /** Window k runs from 100k + 1 to 100k + 100, or to maxNo if that comes first. */
  lemma WindowAt(maxNo: int, k: nat)
    ensures k < |Windows(maxNo)| <==> 100 * k + 1 <= maxNo
    ensures k < |Windows(maxNo)| ==> Windows(maxNo)[k] == Window(100 * k + 1, Min(100 * k + 100, maxNo))
  {
    WindowsFromAt(1, maxNo, k);
  }

  /** There are ⌈maxNo / 100⌉ windows, and none when maxNo < 1. */
  lemma WindowCount(maxNo: int)
    ensures |Windows(maxNo)| == if maxNo < 1 then 0 else (maxNo + 99) / 100
  {
    if maxNo < 1 {
      WindowAt(maxNo, 0);
    } else {
      var c := (maxNo + 99) / 100;
      WindowAt(maxNo, c - 1);
      WindowAt(maxNo, c);
    }
  }

  /** Every window holds between one and a hundred numbers; the first starts at 1,
      each one starts right after the previous one ends, and the last ends at maxNo. */
  lemma WindowsTile(maxNo: int)
    ensures var ws := Windows(maxNo);
      (|ws| > 0 <==> maxNo >= 1)
      && (forall k :: 0 <= k < |ws| ==> ws[k].first <= ws[k].last <= ws[k].first + 99)
      && (|ws| > 0 ==> ws[0].first == 1 && ws[|ws| - 1].last == maxNo)
      && (forall k :: 0 < k < |ws| ==> ws[k].first == ws[k - 1].last + 1)
  {
    var ws := Windows(maxNo);
    WindowAt(maxNo, 0);
    forall k | 0 <= k < |ws|
      ensures ws[k].first <= ws[k].last <= ws[k].first + 99
    {
      WindowAt(maxNo, k);
    }
    if |ws| > 0 {
      WindowAt(maxNo, |ws| - 1);
      WindowAt(maxNo, |ws|);
    }
    forall k | 0 < k < |ws|
      ensures ws[k].first == ws[k - 1].last + 1
    {
      WindowAt(maxNo, k);
      WindowAt(maxNo, k - 1);
    }
  }

  /** The windows partition 1..maxNo: a number lies in window k exactly when it
      is in 1..maxNo and k is (no - 1) / 100. */
  lemma WindowsPartition(maxNo: int, no: int, k: nat)
    requires k < |Windows(maxNo)|
    ensures Contains(Windows(maxNo)[k], no) <==> 1 <= no <= maxNo && k == (no - 1) / 100
  {
    WindowAt(maxNo, k);
  }

  /** Every number of 1..maxNo has a window. */
  lemma WindowFor(maxNo: int, no: int) returns (k: nat)
    requires 1 <= no <= maxNo
    ensures k < |Windows(maxNo)| && Contains(Windows(maxNo)[k], no)
  {
    k := (no - 1) / 100;
    WindowAt(maxNo, k);
  }

  /** Every row of the sheet numbered from 1 up falls in exactly one window of
      the sheet's ranges. */
  lemma EveryRowHasOneWindow(words: seq<Entry>, e: Entry) returns (k: nat)
    requires e in words && e.no >= 1
    ensures k < |Windows(MaxNo(words))| && Contains(Windows(MaxNo(words))[k], e.no)
    ensures forall j :: 0 <= j < |Windows(MaxNo(words))| && Contains(Windows(MaxNo(words))[j], e.no) ==> j == k
  {
    var maxNo := MaxNo(words);
    k := WindowFor(maxNo, e.no);
    forall j | 0 <= j < |Windows(maxNo)| && Contains(Windows(maxNo)[j], e.no)
      ensures j == k
    {
      WindowsPartition(maxNo, e.no, j);
      WindowsPartition(maxNo, e.no, k);
    }
  }
}
