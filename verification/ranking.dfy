/**
 * Ranking of scored entries: Python's `list.sort(key=score, reverse=True)` followed by `[:top_n]`.
 * Python's sort is stable even when reversed, so entries with equal scores keep their input order.
 */
module Ranking {
  import opened Seqs

  /** One entry of a ranking: the item, its percentage and the normalised score used as sort key. */
  datatype Scored<T> = Scored(item: T, percentage: real, score: real)

  /** Scores never increase from left to right. */
  ghost predicate SortedDesc<T>(s: seq<Scored<T>>) {
    forall i, j :: 0 <= i < j < |s| ==> s[i].score >= s[j].score
  }

  /** The entries of `s` whose score is exactly `k`, in their order in `s`. */
  function WithScore<T>(k: real, s: seq<Scored<T>>): seq<Scored<T>> {
    if |s| == 0 then []
    else (if s[0].score == k then [s[0]] else []) + WithScore(k, s[1..])
  }

  /** Places `x` after every entry whose score is at least its own. */
  function Insert<T>(x: Scored<T>, s: seq<Scored<T>>): (r: seq<Scored<T>>)
    ensures |r| == |s| + 1
  {
    if |s| == 0 then [x]
    else if s[0].score >= x.score then [s[0]] + Insert(x, s[1..])
    else [x] + s
  }

  /** Insertion adds exactly `x`. */
  lemma {:induction false} InsertPermutes<T>(x: Scored<T>, s: seq<Scored<T>>)
    ensures multiset(Insert(x, s)) == multiset(s) + multiset{x}
  {
    if |s| > 0 && s[0].score >= x.score {
      InsertPermutes(x, s[1..]);
      assert s == [s[0]] + s[1..];
    }
  }

  /** Every entry of the result is `x` or an entry of `s`. */
  lemma {:induction false} InsertMembers<T>(x: Scored<T>, s: seq<Scored<T>>)
    ensures forall i :: 0 <= i < |Insert(x, s)| ==> Insert(x, s)[i] == x || Insert(x, s)[i] in s
  {
    if |s| > 0 && s[0].score >= x.score {
      InsertMembers(x, s[1..]);
      var rest := Insert(x, s[1..]);
      assert forall i :: 1 <= i < |Insert(x, s)| ==> Insert(x, s)[i] == rest[i - 1];
      assert forall e :: e in s[1..] ==> e in s;
    }
  }

  /** Inserting into a sorted list keeps it sorted. */
  lemma {:induction false} InsertSorted<T>(x: Scored<T>, s: seq<Scored<T>>)
    requires SortedDesc(s)
    ensures SortedDesc(Insert(x, s))
  {
    if |s| > 0 && s[0].score >= x.score {
      var rest := Insert(x, s[1..]);
      InsertSorted(x, s[1..]);
      InsertMembers(x, s[1..]);
      forall j | 0 <= j < |rest|
        ensures rest[j].score <= s[0].score
      {
        if rest[j] != x {
          var m :| 0 <= m < |s[1..]| && s[1..][m] == rest[j];
          assert s[m + 1] == rest[j];
        }
      }
      var r := [s[0]] + rest;
      assert Insert(x, s) == r;
      assert forall i :: 1 <= i < |r| ==> r[i] == rest[i - 1];
    }
  }

  /** Stable descending sort: each entry, taken in input order, is inserted after its equals. */
  function SortDesc<T>(s: seq<Scored<T>>): (r: seq<Scored<T>>)
    ensures |r| == |s|
    ensures SortedDesc(r)
  {
    if |s| == 0 then []
    else
      var init := s[..|s| - 1];
      InsertSorted(s[|s| - 1], SortDesc(init));
      Insert(s[|s| - 1], SortDesc(init))
  }

  /** The sort is a permutation. */
  lemma {:induction false} SortDescPermutes<T>(s: seq<Scored<T>>)
    ensures multiset(SortDesc(s)) == multiset(s)
  {
    if |s| > 0 {
      var init := s[..|s| - 1];
      var last := s[|s| - 1];
      SortDescPermutes(init);
      InsertPermutes(last, SortDesc(init));
      assert SortDesc(s) == Insert(last, SortDesc(init));
      assert s == init + [last];
      assert multiset(s) == multiset(init) + multiset{last};
    }
  }

  lemma WithScoreCons<T>(k: real, e: Scored<T>, t: seq<Scored<T>>)
    ensures WithScore(k, [e] + t) == (if e.score == k then [e] else []) + WithScore(k, t)
  {
    assert ([e] + t)[1..] == t;
  }

  lemma {:induction false} WithScoreAppend<T>(k: real, a: seq<Scored<T>>, b: seq<Scored<T>>)
    ensures WithScore(k, a + b) == WithScore(k, a) + WithScore(k, b)
  {
    if |a| > 0 {
      assert (a + b)[1..] == a[1..] + b;
      WithScoreAppend(k, a[1..], b);
    } else {
      assert a + b == b;
    }
  }

  lemma {:induction false} WithScoreNone<T>(k: real, s: seq<Scored<T>>)
    requires forall i :: 0 <= i < |s| ==> s[i].score != k
    ensures WithScore(k, s) == []
  {
    if |s| > 0 {
      WithScoreNone(k, s[1..]);
    }
  }

  /** Inserting into a sorted list appends `x` to the entries sharing its score. */
  lemma {:induction false} InsertKeepsTies<T>(k: real, x: Scored<T>, s: seq<Scored<T>>)
    requires SortedDesc(s)
    ensures WithScore(k, Insert(x, s)) == WithScore(k, s) + (if x.score == k then [x] else [])
  {
    if |s| == 0 {
    } else if s[0].score >= x.score {
      InsertKeepsTies(k, x, s[1..]);
      InsertBehindHead(k, x, s);
    } else {
      InsertInFront(k, x, s);
    }
  }

  lemma InsertBehindHead<T>(k: real, x: Scored<T>, s: seq<Scored<T>>)
    requires |s| > 0 && s[0].score >= x.score
    requires WithScore(k, Insert(x, s[1..])) == WithScore(k, s[1..]) + (if x.score == k then [x] else [])
    ensures WithScore(k, Insert(x, s)) == WithScore(k, s) + (if x.score == k then [x] else [])
  {
    var tail := if x.score == k then [x] else [];
    var head := if s[0].score == k then [s[0]] else [];
    var rest := Insert(x, s[1..]);
    var w := WithScore(k, s[1..]);
    assert Insert(x, s) == [s[0]] + rest;
    WithScoreCons(k, s[0], rest);
    WithScoreCons(k, s[0], s[1..]);
    assert s == [s[0]] + s[1..];
    assert head + (w + tail) == (head + w) + tail;
  }

  lemma InsertInFront<T>(k: real, x: Scored<T>, s: seq<Scored<T>>)
    requires SortedDesc(s)
    requires |s| > 0 && s[0].score < x.score
    ensures WithScore(k, Insert(x, s)) == WithScore(k, s) + (if x.score == k then [x] else [])
  {
    var tail := if x.score == k then [x] else [];
    assert Insert(x, s) == [x] + s;
    assert ([x] + s)[1..] == s;
    assert WithScore(k, Insert(x, s)) == tail + WithScore(k, s);
    if x.score == k {
      forall i | 0 <= i < |s|
        ensures s[i].score != k
      {
        assert s[0].score >= s[i].score;
      }
      WithScoreNone(k, s);
      assert tail + [] == [] + tail;
    } else {
      assert [] + WithScore(k, s) == WithScore(k, s) + [];
    }
  }

  /** The sort is stable: for every score, the entries having it appear in their input order. */
  lemma {:induction false} SortDescStable<T>(k: real, s: seq<Scored<T>>)
    ensures WithScore(k, SortDesc(s)) == WithScore(k, s)
  {
    if |s| > 0 {
      var init := s[..|s| - 1];
      var last := s[|s| - 1];
      SortDescStable(k, init);
      InsertKeepsTies(k, last, SortDesc(init));
      assert s == init + [last];
      assert SortDesc(s) == Insert(last, SortDesc(init));
      WithScoreAppend(k, init, [last]);
      assert [last][1..] == [];
      assert WithScore(k, [last]) == (if last.score == k then [last] else []) + [];
    }
  }

  /** In a sorted list, every entry before position `m` scores at least as much as any entry from `m` on. */
  lemma DroppedScoreLess<T>(sorted: seq<Scored<T>>, m: nat)
    requires SortedDesc(sorted)
    requires m <= |sorted|
    ensures forall i, e :: 0 <= i < m && e in multiset(sorted[m..]) ==> sorted[i].score >= e.score
  {
    forall i, e: Scored<T> | 0 <= i < m && e in multiset(sorted[m..])
      ensures sorted[i].score >= e.score
    {
      var j :| 0 <= j < |sorted[m..]| && sorted[m..][j] == e;
      assert sorted[m + j] == e;
    }
  }

  /**
   * A prefix `r` of a sorted permutation of `s` is sorted, is drawn from `s`, and each of its entries
   * scores at least as much as any entry of `s` left out.
   */
  lemma PrefixDominates<T>(s: seq<Scored<T>>, sorted: seq<Scored<T>>, r: seq<Scored<T>>)
    requires SortedDesc(sorted)
    requires multiset(sorted) == multiset(s)
    requires r <= sorted
    ensures SortedDesc(r)
    ensures multiset(r) <= multiset(s)
    ensures forall i, e :: 0 <= i < |r| && e in multiset(s) - multiset(r) ==> r[i].score >= e.score
  {
    var dropped := sorted[|r|..];
    PrefixSplits(sorted, r);
    DroppedScoreLess(sorted, |r|);
    PrefixSorted(sorted, r);
    assert multiset(s) - multiset(r) == multiset(dropped);
  }

  lemma PrefixSplits<T>(sorted: seq<Scored<T>>, r: seq<Scored<T>>)
    requires r <= sorted
    ensures multiset(sorted) == multiset(r) + multiset(sorted[|r|..])
    ensures forall i :: 0 <= i < |r| ==> sorted[i] == r[i]
  {
    assert sorted == r + sorted[|r|..];
  }

  lemma PrefixSorted<T>(sorted: seq<Scored<T>>, r: seq<Scored<T>>)
    requires SortedDesc(sorted)
    requires r <= sorted
    ensures SortedDesc(r)
  {
    assert forall i :: 0 <= i < |r| ==> sorted[i] == r[i];
  }

  /** `sorted(s, key=score, reverse=True)[:n]`. */
  function TopN<T>(s: seq<Scored<T>>, n: int): (r: seq<Scored<T>>)
    ensures |r| == SliceLength(|s|, n)
    ensures SortedDesc(r)
    ensures multiset(r) <= multiset(s)
    ensures forall i, e :: 0 <= i < |r| && e in multiset(s) - multiset(r) ==> r[i].score >= e.score
  {
    var sorted := SortDesc(s);
    var r := sorted[..SliceLength(|s|, n)];
    SortDescPermutes(s);
    PrefixDominates(s, sorted, r);
    r
  }

  /** Ties in the result keep their input order: the result is a prefix of the stable sort. */
  lemma TopNIsStablePrefix<T>(s: seq<Scored<T>>, n: int, k: real)
    ensures TopN(s, n) <= SortDesc(s)
    ensures WithScore(k, SortDesc(s)) == WithScore(k, s)
  {
    SortDescStable(k, s);
  }
}
