/** Sequence operations that stand for the pandas and NumPy calls of the quiz:
    `drop_duplicates` (Distinct), filtering by `~isin` (Without), `sample` and
    `np.random.shuffle` (Draw). Randomness is never modelled as a distribution:
    the caller passes the values the random generator hands out (Choices). */
module Seqs {

  function Min(a: int, b: int): int
  {
    if a <= b then a else b
  }

  /** No value occurs twice. */
  ghost predicate NoDup<T(!new)>(s: seq<T>)
  {
    forall x :: multiset(s)[x] <= 1
  }

  lemma SubMultisetNoDup<T(!new)>(a: seq<T>, b: seq<T>)
    requires multiset(a) <= multiset(b) && NoDup(b)
    ensures NoDup(a)
  {
    forall x ensures multiset(a)[x] <= 1 {
      assert multiset(a)[x] <= multiset(b)[x];
    }
  }

  /** Two duplicate-free sequences with no common value concatenate to a duplicate-free one. */
  lemma AppendNoDup<T(!new)>(a: seq<T>, b: seq<T>)
    requires NoDup(a) && NoDup(b)
    requires forall x :: x in b ==> x !in a
    ensures NoDup(a + b)
  {
    forall x ensures multiset(a + b)[x] <= 1 {
      assert multiset(a + b)[x] == multiset(a)[x] + multiset(b)[x];
      if x in b {
        assert x !in multiset(a);
      }
    }
  }

  /** `s[~s.isin(excl)]`: the elements of s that are not in excl, in order. */
  function Without<T(==)>(s: seq<T>, excl: seq<T>): seq<T>
  {
    if |s| == 0 then []
    else (if s[0] in excl then [] else [s[0]]) + Without(s[1..], excl)
  }

  lemma {:induction false} WithoutHas<T>(s: seq<T>, excl: seq<T>)
    ensures forall x :: x in Without(s, excl) <==> x in s && x !in excl
  {
    if |s| > 0 {
      assert s == [s[0]] + s[1..];
      WithoutHas(s[1..], excl);
    }
  }

  /** `drop_duplicates()`: the first occurrence of every value, in order. */
  function Distinct<T(==)>(s: seq<T>): seq<T>
  {
    if |s| == 0 then []
    else
      var d := Distinct(s[..|s| - 1]);
      if s[|s| - 1] in d then d else d + [s[|s| - 1]]
  }

  lemma {:induction false} DistinctFacts<T(!new)>(s: seq<T>)
    ensures NoDup(Distinct(s))
    ensures forall x :: x in Distinct(s) <==> x in s
    ensures |Distinct(s)| <= |s|
  {
    if |s| > 0 {
      var init, last := s[..|s| - 1], s[|s| - 1];
      assert s == init + [last];
      DistinctFacts(init);
      var d := Distinct(init);
      if last !in d {
        assert forall x :: x in [last] ==> x !in d;
        AppendNoDup(d, [last]);
      }
    }
  }

  /** The values of s outside excl, once each: what `s[~s.isin(excl)].drop_duplicates()` holds. */
  lemma NewValues<T(!new)>(s: seq<T>, excl: seq<T>)
    ensures NoDup(Distinct(Without(s, excl)))
    ensures forall x :: x in Distinct(Without(s, excl)) <==> x in s && x !in excl
  {
    WithoutHas(s, excl);
    DistinctFacts(Without(s, excl));
  }

  /** Filtering a sequence extended by one element filters the element on its own. */
  lemma {:induction false} WithoutSnoc<T(!new)>(s: seq<T>, x: T, excl: seq<T>)
    ensures Without(s + [x], excl) == Without(s, excl) + (if x in excl then [] else [x])
  {
    if |s| == 0 {
      assert s + [x] == [x];
      assert Without([x], excl) == (if x in excl then [] else [x]) + Without([], excl);
    } else {
      assert (s + [x])[0] == s[0] && (s + [x])[1..] == s[1..] + [x];
      WithoutSnoc(s[1..], x, excl);
    }
  }

  /** The distinct values of a sequence extended by one element. */
  lemma DistinctSnoc<T(!new)>(s: seq<T>, x: T)
    ensures Distinct(s + [x]) == if x in Distinct(s) then Distinct(s) else Distinct(s) + [x]
  {
    assert (s + [x])[..|s|] == s;
  }

  /** A sequence without members is empty. */
  lemma NoMemberEmpty<T>(s: seq<T>)
    requires forall x :: x !in s
    ensures s == []
  {
    forall x ensures multiset(s)[x] == 0 {
      assert x !in s;
    }
    assert multiset(s) == multiset{};
    assert |s| == |multiset(s)|;
  }

  /** s without its element at position i. */
  function RemoveAt<T>(s: seq<T>, i: nat): (r: seq<T>)
    requires i < |s|
    ensures |r| == |s| - 1
  {
    seq(|s| - 1, k requires 0 <= k < |s| - 1 => if k < i then s[k] else s[k + 1])
  }

  /** Removing position i takes away one occurrence of s[i] and nothing else. */
  lemma RemoveAtMultiset<T>(s: seq<T>, i: nat)
    requires i < |s|
    ensures multiset(RemoveAt(s, i)) + multiset{s[i]} == multiset(s)
  {
    assert RemoveAt(s, i) == s[..i] + s[i + 1..];
    assert s == s[..i] + [s[i]] + s[i + 1..];
  }

  /** The values a random generator hands out, one per draw. */
  datatype Choices = Done | Then(pick: int, more: Choices)

  /** The position the next value of the oracle picks among `size` candidates;
      a missing or out-of-range value picks the first. */
  function Pick(choice: Choices, size: nat): (i: nat)
    requires size > 0
    ensures i < size
  {
    if choice.Then? && 0 <= choice.pick < size then choice.pick else 0
  }

  function Rest(choice: Choices): Choices
  {
    if choice.Then? then choice.more else Done
  }

  /** `sample(n)` on s: min(n, |s|) positions of s drawn without replacement, in
      the order drawn. Each draw takes the position that the next oracle value
      picks among those not drawn yet. With n >= |s| this is a shuffle. */
  function Draw<T>(s: seq<T>, n: nat, choice: Choices): (r: seq<T>)
    ensures |r| == Min(n, |s|)
    decreases n
  {
    if n == 0 || |s| == 0 then []
    else
      var i := Pick(choice, |s|);
      [s[i]] + Draw(RemoveAt(s, i), n - 1, Rest(choice))
  }

  /** One step of Draw: the picked element, then a draw from the others. */
  lemma DrawUnfold<T>(s: seq<T>, n: nat, choice: Choices)
    requires n > 0 && |s| > 0
    ensures Draw(s, n, choice)
         == [s[Pick(choice, |s|)]] + Draw(RemoveAt(s, Pick(choice, |s|)), n - 1, Rest(choice))
  {
  }

  lemma MultisetCons<T>(x: T, t: seq<T>)
    ensures multiset([x] + t) == multiset(t) + multiset{x}
  {
  }

  lemma CancelOne<T>(x: T, a: multiset<T>, b: multiset<T>)
    requires a + multiset{x} <= b + multiset{x}
    ensures a <= b
  {
    forall y ensures a[y] <= b[y] {
      assert (a + multiset{x})[y] <= (b + multiset{x})[y];
    }
  }

  /** What a draw leaves behind: the elements of s that were not drawn. */
  ghost function Undrawn<T>(s: seq<T>, n: nat, choice: Choices): seq<T>
    decreases n
  {
    if n == 0 || |s| == 0 then s
    else Undrawn(RemoveAt(s, Pick(choice, |s|)), n - 1, Rest(choice))
  }

  /** The drawn elements and the leftovers make up s exactly. */
  ghost predicate Splits<T>(s: seq<T>, n: nat, choice: Choices)
  {
    multiset(Draw(s, n, choice)) + multiset(Undrawn(s, n, choice)) == multiset(s)
  }

  lemma {:induction false} DrawSplits<T>(s: seq<T>, n: nat, choice: Choices)
    ensures Splits(s, n, choice)
    decreases n
  {
    if n > 0 && |s| > 0 {
      DrawSplits(RemoveAt(s, Pick(choice, |s|)), n - 1, Rest(choice));
    }
    DrawSplitsStep(s, n, choice);
  }

  lemma DrawSplitsStep<T>(s: seq<T>, n: nat, choice: Choices)
    requires n > 0 && |s| > 0 ==> Splits(RemoveAt(s, Pick(choice, |s|)), n - 1, Rest(choice))
    ensures Splits(s, n, choice)
  {
    if n > 0 && |s| > 0 {
      var i := Pick(choice, |s|);
      var tail := Draw(RemoveAt(s, i), n - 1, Rest(choice));
      DrawUnfold(s, n, choice);
      MultisetCons(s[i], tail);
      RemoveAtMultiset(s, i);
    }
  }

  /** A draw takes every element at most as often as s holds it. */
  lemma DrawSubMultiset<T>(s: seq<T>, n: nat, choice: Choices)
    ensures multiset(Draw(s, n, choice)) <= multiset(s)
  {
    DrawSplits(s, n, choice);
  }

  /** Drawing at least as many as there are elements yields a permutation. */
  lemma DrawAll<T>(s: seq<T>, n: nat, choice: Choices)
    requires n >= |s|
    ensures multiset(Draw(s, n, choice)) == multiset(s)
  {
    DrawSplits(s, n, choice);
    var drawn, left := multiset(Draw(s, n, choice)), multiset(Undrawn(s, n, choice));
    assert |drawn| == |s|;
    assert |drawn + left| == |drawn| + |left|;
    assert left == multiset{};
  }

  /** `np.random.shuffle`: s rearranged in the order the oracle draws it. */
  function Shuffle<T>(s: seq<T>, choice: Choices): (r: seq<T>)
    ensures multiset(r) == multiset(s)
  {
    DrawAll(s, |s|, choice);
    Draw(s, |s|, choice)
  }

  /** Every arrangement of s can come out of the shuffle. */
  lemma ShuffleCanYield<T>(s: seq<T>, r: seq<T>)
    requires multiset(r) == multiset(s)
    ensures exists choice :: Shuffle(s, choice) == r
  {
    assert |r| == |multiset(r)| == |s|;
    DrawCanYield(s, |s|, r);
    var choice :| Draw(s, |s|, choice) == r;
    assert Shuffle(s, choice) == r;
  }

  /** The first position of x in s. */
  ghost function IndexOf<T>(s: seq<T>, x: T): (i: nat)
    requires x in s
    ensures i < |s| && s[i] == x
  {
    if s[0] == x then 0 else 1 + IndexOf(s[1..], x)
  }

  /** Taking the first element of r out of s keeps the rest of r a sub-multiset. */
  lemma TakeFirst<T>(s: seq<T>, r: seq<T>)
    requires r != [] && multiset(r) <= multiset(s)
    ensures r[0] in s
    ensures multiset(r[1..]) <= multiset(RemoveAt(s, IndexOf(s, r[0])))
  {
    assert r == [r[0]] + r[1..];
    MultisetCons(r[0], r[1..]);
    assert r[0] in multiset(s);
    var i := IndexOf(s, r[0]);
    RemoveAtMultiset(s, i);
    CancelOne(r[0], multiset(r[1..]), multiset(RemoveAt(s, i)));
  }

  /** r can be taken element by element out of s: its first element occurs in s
      and the rest can be taken out of what remains. */
  ghost predicate Extractable<T>(r: seq<T>, s: seq<T>)
    decreases |r|
  {
    r == [] || (r[0] in s && Extractable(r[1..], RemoveAt(s, IndexOf(s, r[0]))))
  }

  lemma {:induction false} SubMultisetExtractable<T>(r: seq<T>, s: seq<T>)
    requires multiset(r) <= multiset(s)
    ensures Extractable(r, s)
    decreases |r|
  {
    if r != [] {
      TakeFirst(s, r);
      SubMultisetExtractable(r[1..], RemoveAt(s, IndexOf(s, r[0])));
    }
  }

  /** Prefixing a position to an oracle for the rest draws that element first. */
  lemma DrawCons<T>(s: seq<T>, n: nat, i: nat, c: Choices, r: seq<T>)
    requires 0 < n && i < |s| && r != [] && s[i] == r[0]
    requires Draw(RemoveAt(s, i), n - 1, c) == r[1..]
    ensures Draw(s, n, Then(i, c)) == r
  {
    var choice := Then(i, c);
    assert Pick(choice, |s|) == i && Rest(choice) == c;
    DrawUnfold(s, n, choice);
    assert r == [r[0]] + r[1..];
  }

  lemma ExtractStep<T>(s: seq<T>, n: nat, r: seq<T>) returns (i: nat, s': seq<T>, r': seq<T>)
    requires n > 0 && |s| > 0
    requires |r| == Min(n, |s|) && Extractable(r, s)
    ensures i < |s| && r != [] && s[i] == r[0]
    ensures s' == RemoveAt(s, i) && r' == r[1..]
    ensures |r'| == Min(n - 1, |s'|) && Extractable(r', s')
  {
    i := IndexOf(s, r[0]);
    s', r' := RemoveAt(s, i), r[1..];
  }

  /** An oracle under which Draw yields r: each value is the position of the
      next element of r among the elements not drawn yet. */
  lemma {:induction false} OracleFor<T>(s: seq<T>, n: nat, r: seq<T>) returns (choice: Choices)
    requires |r| == Min(n, |s|)
    requires Extractable(r, s)
    ensures Draw(s, n, choice) == r
    decreases n
  {
    if n == 0 || |s| == 0 {
      choice := Done;
      assert r == [];
    } else {
      var i, s', r' := ExtractStep(s, n, r);
      var c := OracleFor(s', n - 1, r');
      DrawCons(s, n, i, c, r);
      choice := Then(i, c);
    }
  }

  /** The oracle can produce every draw: any arrangement of a sub-multiset of s
      of the right size comes out of Draw for some choice sequence. */
  lemma DrawCanYield<T>(s: seq<T>, n: nat, r: seq<T>)
    requires |r| == Min(n, |s|)
    requires multiset(r) <= multiset(s)
    ensures exists choice :: Draw(s, n, choice) == r
  {
    SubMultisetExtractable(r, s);
    var choice := OracleFor(s, n, r);
  }
}
