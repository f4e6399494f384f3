/** Ranking of (score, individual) records, as done by `list.sort(key=itemgetter(0))`:
    a stable sort, ascending by score. The sort is given as a functional insertion
    sort; its meaning is stated by sortedness, permutation and stability. */
module Ranking {

  /** Scores are in ascending order. */
  ghost predicate SortedByScore<T>(s: seq<(real, T)>)
  {
    forall i, j :: 0 <= i < j < |s| ==> s[i].0 <= s[j].0
  }

  /** The records of `s` whose score is `k`, in their order in `s`. */
  function WithScore<T>(s: seq<(real, T)>, k: real): (r: seq<(real, T)>)
    ensures |r| <= |s|
    ensures forall i :: 0 <= i < |r| ==> r[i].0 == k
  {
    if s == [] then []
    else (if s[0].0 == k then [s[0]] else []) + WithScore(s[1..], k)
  }

  lemma {:induction false} WithScoreAppend<T>(a: seq<(real, T)>, b: seq<(real, T)>, k: real)
    ensures WithScore(a + b, k) == WithScore(a, k) + WithScore(b, k)
  {
    if a == [] {
      assert a + b == b;
    } else {
      assert (a + b)[1..] == a[1..] + b;
      WithScoreAppend(a[1..], b, k);
    }
  }

  lemma {:induction false} WithScoreNone<T>(s: seq<(real, T)>, k: real)
    requires forall i :: 0 <= i < |s| ==> s[i].0 != k
    ensures WithScore(s, k) == []
  {
    if s != [] {
      WithScoreNone(s[1..], k);
    }
  }

  /** Puts `x` into the sorted `s` after every record scoring at most `x.0`. */
  function Insert<T>(s: seq<(real, T)>, x: (real, T)): (r: seq<(real, T)>)
    ensures |r| == |s| + 1
    ensures multiset(r) == multiset(s) + multiset{x}
  {
    if s == [] then [x]
    else if x.0 < s[0].0 then [x] + s
    else
      assert s == [s[0]] + s[1..];
      [s[0]] + Insert(s[1..], x)
  }

  lemma {:induction false} InsertKeepsSorted<T>(s: seq<(real, T)>, x: (real, T))
    requires SortedByScore(s)
    ensures SortedByScore(Insert(s, x))
  {
    if s != [] && x.0 >= s[0].0 {
      var rest := Insert(s[1..], x);
      InsertKeepsSorted(s[1..], x);
      forall i | 0 <= i < |rest|
        ensures s[0].0 <= rest[i].0
      {
        assert rest[i] in multiset(rest);
        if rest[i] != x {
          assert rest[i] in multiset(s[1..]);
          assert rest[i] in s[1..];
        }
      }
    }
  }

  lemma WithScoreCons<T>(y: (real, T), s: seq<(real, T)>, k: real)
    ensures WithScore([y] + s, k) == (if y.0 == k then [y] else []) + WithScore(s, k)
  {
    assert ([y] + s)[1..] == s;
  }

  lemma SortedTail<T>(s: seq<(real, T)>)
    requires SortedByScore(s) && s != []
    ensures SortedByScore(s[1..])
    ensures forall i :: 0 <= i < |s| ==> s[0].0 <= s[i].0
  {
  }

  lemma InsertInFrontIsStable<T>(s: seq<(real, T)>, x: (real, T), k: real)
    requires SortedByScore(s) && s != [] && x.0 < s[0].0
    ensures WithScore(Insert(s, x), k) == WithScore(s, k) + (if x.0 == k then [x] else [])
  {
    WithScoreCons(x, s, k);
    if x.0 == k {
      SortedTail(s);
      WithScoreNone(s, k);
    }
  }

  lemma InsertBehind<T>(s: seq<(real, T)>, x: (real, T))
    requires s != [] && x.0 >= s[0].0
    ensures Insert(s, x) == [s[0]] + Insert(s[1..], x)
  {
  }

  lemma {:induction false} InsertIsStable<T>(s: seq<(real, T)>, x: (real, T), k: real)
    requires SortedByScore(s)
    ensures WithScore(Insert(s, x), k) == WithScore(s, k) + (if x.0 == k then [x] else [])
  {
    if s == [] {
      WithScoreCons(x, [], k);
      assert [x] + [] == [x];
    } else if x.0 < s[0].0 {
      InsertInFrontIsStable(s, x, k);
    } else {
      SortedTail(s);
      InsertIsStable(s[1..], x, k);
      InsertBehind(s, x);
      ConsIsStable(s[0], Insert(s[1..], x), s[1..], k, if x.0 == k then [x] else []);
      assert [s[0]] + s[1..] == s;
    }
  }

  /** Putting the same record in front of two sequences keeps their records of score
      `k` related. */
  lemma ConsIsStable<T>(y: (real, T), s: seq<(real, T)>, u: seq<(real, T)>, k: real, tail: seq<(real, T)>)
    requires WithScore(s, k) == WithScore(u, k) + tail
    ensures WithScore([y] + s, k) == WithScore([y] + u, k) + tail
  {
    var head := if y.0 == k then [y] else [];
    calc {
      WithScore([y] + s, k);
      { WithScoreCons(y, s, k); }
      head + WithScore(s, k);
      head + (WithScore(u, k) + tail);
      (head + WithScore(u, k)) + tail;
      { WithScoreCons(y, u, k); }
      WithScore([y] + u, k) + tail;
    }
  }

  /** `list.sort(key=itemgetter(0))`: stable, ascending by score. */
  function RankByScore<T>(s: seq<(real, T)>): (r: seq<(real, T)>)
    ensures |r| == |s|
    ensures multiset(r) == multiset(s)
    ensures SortedByScore(r)
  {
    if s == [] then []
    else
      assert s == s[..|s| - 1] + [s[|s| - 1]];
      InsertKeepsSorted(RankByScore(s[..|s| - 1]), s[|s| - 1]);
      Insert(RankByScore(s[..|s| - 1]), s[|s| - 1])
  }

  /** Stability: records with equal scores keep their original relative order. */
  lemma {:induction false} RankIsStable<T>(s: seq<(real, T)>, k: real)
    ensures WithScore(RankByScore(s), k) == WithScore(s, k)
  {
    if s != [] {
      var init, last := s[..|s| - 1], s[|s| - 1];
      assert s == init + [last];
      assert RankByScore(s) == Insert(RankByScore(init), last);
      RankIsStable(init, k);
      InsertIsStable(RankByScore(init), last, k);
      WithScoreAppend(init, [last], k);
      WithScoreCons(last, [], k);
      assert [last] + [] == [last];
    }
  }

  lemma SortedHead<T>(r: seq<(real, T)>, x: (real, T))
    requires SortedByScore(r) && |r| >= 2 && x in r
    ensures r[0].0 <= x.0
    ensures x.0 < r[1].0 ==> x == r[0]
  {
    var j :| 0 <= j < |r| && r[j] == x;
    assert j >= 1 ==> r[1].0 <= r[j].0;
  }

  /** The first two records of the ranking are two distinct records of the input. */
  lemma RankHeadPair<T>(s: seq<(real, T)>)
    requires |s| >= 2
    ensures multiset{RankByScore(s)[0], RankByScore(s)[1]} <= multiset(s)
  {
    FirstTwo(RankByScore(s));
  }

  lemma FirstTwo<T>(r: seq<T>)
    requires |r| >= 2
    ensures multiset{r[0], r[1]} <= multiset(r)
  {
    assert r == [r[0], r[1]] + r[2..];
  }

  /** The first record of the ranking scores no more than any record of the input,
      and only it may score below the second record; once the first two records are
      taken out of the input, every record left scores at least as much as the
      second. */
  lemma RankHead<T>(s: seq<(real, T)>)
    requires |s| >= 2
    ensures var r := RankByScore(s);
      && r[0].0 <= r[1].0
      && (forall i :: 0 <= i < |s| ==> r[0].0 <= s[i].0)
      && (forall i :: 0 <= i < |s| && s[i].0 < r[1].0 ==> s[i] == r[0])
      && (forall x :: x in multiset(s) - multiset{r[0], r[1]} ==> r[1].0 <= x.0)
  {
    var r := RankByScore(s);
    forall i | 0 <= i < |s|
      ensures r[0].0 <= s[i].0
      ensures s[i].0 < r[1].0 ==> s[i] == r[0]
    {
      assert s[i] in multiset(r);
      SortedHead(r, s[i]);
    }
    RankTail(s);
  }

  lemma RankTail<T>(s: seq<(real, T)>)
    requires |s| >= 2
    ensures var r := RankByScore(s);
      forall x :: x in multiset(s) - multiset{r[0], r[1]} ==> r[1].0 <= x.0
  {
    SortedRest(RankByScore(s));
  }

  lemma SortedRest<T>(r: seq<(real, T)>)
    requires SortedByScore(r) && |r| >= 2
    ensures forall x :: x in multiset(r) - multiset{r[0], r[1]} ==> r[1].0 <= x.0
  {
    var tail := r[2..];
    assert r == [r[0], r[1]] + tail;
    assert multiset(r) - multiset{r[0], r[1]} == multiset(tail);
    forall x: (real, T) | x in multiset(tail)
      ensures r[1].0 <= x.0
    {
      var k :| 0 <= k < |tail| && tail[k] == x;
      assert r[2 + k] == x;
    }
  }

  /** The record at position `k` is still there once the records at two other
      positions `i` and `j` are taken out. */
  lemma OutsidePair<T>(s: seq<T>, i: int, j: int, k: int)
    requires 0 <= i < |s| && 0 <= j < |s| && 0 <= k < |s|
    requires i != j && i != k && j != k
    ensures s[k] in multiset(s) - multiset{s[i], s[j]}
  {
    var rest := RemoveAt(s, i);
    var j', k' := Skip(i, j), Skip(i, k);
    var rest2 := RemoveAt(rest, j');
    assert rest2[Skip(j', k')] == s[k];
    MinusTwo(multiset(s), s[i], s[j]);
  }

  /** The position that index `k` moves to once index `i` is taken out. */
  function Skip(i: int, k: int): int
  {
    if k < i then k else k - 1
  }

  /** `s` without its record at position `i`. */
  function RemoveAt<T>(s: seq<T>, i: int): (rest: seq<T>)
    requires 0 <= i < |s|
    ensures |rest| == |s| - 1
    ensures multiset(rest) == multiset(s) - multiset{s[i]}
    ensures forall k :: 0 <= k < |s| && k != i ==> rest[Skip(i, k)] == s[k]
  {
    assert s == s[..i] + [s[i]] + s[i + 1..];
    assert multiset(s) == multiset(s[..i]) + multiset{s[i]} + multiset(s[i + 1..]);
    s[..i] + s[i + 1..]
  }

  lemma MinusTwo<T>(m: multiset<T>, a: T, b: T)
    requires a in m && b in m - multiset{a}
    ensures m - multiset{a, b} == m - multiset{a} - multiset{b}
  {
  }

  /** Among tied records the ranking's first is the earliest one of the input. */
  lemma {:induction false} FirstWithScoreIsEarliest<T>(s: seq<(real, T)>, k: real)
    requires WithScore(s, k) != []
    ensures exists i :: 0 <= i < |s| && s[i] == WithScore(s, k)[0] &&
                        forall j :: 0 <= j < i ==> s[j].0 != k
  {
    if s[0].0 != k {
      FirstWithScoreIsEarliest(s[1..], k);
      var i :| 0 <= i < |s[1..]| && s[1..][i] == WithScore(s[1..], k)[0] &&
               forall j :: 0 <= j < i ==> s[1..][j].0 != k;
      assert s[i + 1] == WithScore(s, k)[0];
      assert forall j :: 1 <= j < i + 1 ==> s[j] == s[1..][j - 1];
    } else {
      assert s[0] == WithScore(s, k)[0];
    }
  }

  lemma {:induction false} WithScoreHead<T>(s: seq<(real, T)>)
    requires s != []
    ensures WithScore(s, s[0].0) != [] && WithScore(s, s[0].0)[0] == s[0]
  {
  }

  /** The first record of the ranking scores no more than any record of the input. */
  lemma RankHeadIsLowest<T>(s: seq<(real, T)>)
    requires s != []
    ensures forall i :: 0 <= i < |s| ==> RankByScore(s)[0].0 <= s[i].0
  {
    var r := RankByScore(s);
    SortedTail(r);
    forall i | 0 <= i < |s|
      ensures r[0].0 <= s[i].0
    {
      assert s[i] in multiset(r);
    }
  }

  /** Ties go to the earliest: the ranking's first record is, among the records with
      the lowest score, the one that comes first in the input; every record before it
      scores strictly more. */
  lemma RankHeadIsEarliestBest<T>(s: seq<(real, T)>)
    requires s != []
    ensures exists i :: 0 <= i < |s| && s[i] == RankByScore(s)[0] &&
                        forall j :: 0 <= j < i ==> RankByScore(s)[0].0 < s[j].0
  {
    var r := RankByScore(s);
    var k := r[0].0;
    RankIsStable(s, k);
    WithScoreHead(r);
    FirstWithScoreIsEarliest(s, k);
    RankHeadIsLowest(s);
  }
}
