/** Ranking the entries of a score map: the first `cap` entries by descending score.

    Ties may be broken in any way; every statement here holds for every such ranking. */
module Ranking {
  import opened Lists

  type Scores = map<int, nat>

  function ByScore(): ((int, nat)) -> int {
    (e: (int, nat)) => e.1
  }

  /** items lists the entries of the map, each key once. */
  ghost predicate ListsEntries(items: seq<(int, nat)>, scores: Scores) {
    && Distinct(items)
    && forall e: (int, nat) {:trigger e in items} :: e in items <==> e.0 in scores && scores[e.0] == e.1
  }

  ghost predicate Shown(ranked: seq<(int, nat)>, k: int) {
    exists i :: 0 <= i < |ranked| && ranked[i].0 == k
  }

  /** ranked is a top-`cap` list of scores: distinct keys with their scores, best first, as
      many as fit, and nothing left out beats anything shown. */
  ghost predicate IsRanking(scores: Scores, ranked: seq<(int, nat)>, cap: nat) {
    && (forall i, j :: 0 <= i < j < |ranked| ==> ranked[i].0 != ranked[j].0 && ranked[i].1 >= ranked[j].1)
    && (forall i :: 0 <= i < |ranked| ==> ranked[i].0 in scores && scores[ranked[i].0] == ranked[i].1)
    && |ranked| == Min(cap, |scores|)
    && (forall k, i :: k in scores && !Shown(ranked, k) && 0 <= i < |ranked| ==> scores[k] <= ranked[i].1)
  }

  // ----- sorting and cutting gives a ranking -----

  lemma {:induction false} DistinctCounts<T>(s: seq<T>)
    ensures Distinct(s) <==> forall x :: x in s ==> multiset(s)[x] == 1
  {
    if s != [] {
      var n := |s| - 1;
      DistinctCounts(s[..n]);
      assert s == s[..n] + [s[n]];
      assert multiset(s) == multiset(s[..n]) + multiset{s[n]};
      if Distinct(s) {
        forall x | x in s ensures multiset(s)[x] == 1 {
          assert x in s[..n] || x == s[n];
          assert s[n] !in s[..n];
          assert x == s[n] ==> multiset(s[..n])[x] == 0;
        }
      } else if Distinct(s[..n]) {
        var i :| 0 <= i < n && s[i] == s[n];
        assert s[n] in s[..n];
        assert multiset(s)[s[n]] == 2;
      } else {
        var x :| x in s[..n] && multiset(s[..n])[x] != 1;
        assert x in multiset(s[..n]);
        assert x in s && multiset(s)[x] > 1;
      }
    }
  }

  lemma SameMultisetDistinct<T>(s: seq<T>, t: seq<T>)
    requires multiset(s) == multiset(t) && Distinct(s)
    ensures Distinct(t)
  {
    DistinctCounts(s);
    DistinctCounts(t);
    SameElements(s, t);
  }

  lemma {:induction false} EntriesSize(items: seq<(int, nat)>, scores: Scores)
    requires ListsEntries(items, scores)
    ensures |items| == |scores|
  {
    DistinctSize(items);
    var elements := Elements(items);
    assert elements == scores.Items by {
      forall x ensures x in elements <==> x in scores.Items {
        assert x in elements <==> x in items;
        assert x in scores.Items <==> x.0 in scores && scores[x.0] == x.1;
      }
    }
    assert |scores.Items| == |scores|;
  }

  /** Sorting any listing of the map by score and keeping the first `cap` yields a ranking. */
  lemma RankItems(scores: Scores, items: seq<(int, nat)>, cap: nat)
    requires ListsEntries(items, scores)
    ensures IsRanking(scores, Take(SortDescending(items, ByScore()), cap), cap)
  {
    var all := SortDescending(items, ByScore());
    SortDescendingSorts(items, ByScore());
    SameElements(items, all);
    SameMultisetDistinct(items, all);
    EntriesSize(items, scores);
    RankSorted(scores, all, cap);
  }

  lemma RankSorted(scores: Scores, all: seq<(int, nat)>, cap: nat)
    requires ListsEntries(all, scores) && Descending(all, ByScore()) && |all| == |scores|
    ensures IsRanking(scores, Take(all, cap), cap)
  {
    var ranked := Take(all, cap);
    forall i | 0 <= i < |all| ensures all[i].0 in scores && scores[all[i].0] == all[i].1 {
      assert all[i] in all;
    }
    forall i, j | 0 <= i < j < |all| ensures all[i].0 != all[j].0 && all[i].1 >= all[j].1 {
      assert ByScore()(all[i]) >= ByScore()(all[j]);
      assert all[i] != all[j];
    }
    forall k, i | k in scores && !Shown(ranked, k) && 0 <= i < |ranked| ensures scores[k] <= ranked[i].1 {
      assert (k, scores[k]) in all;
      var j :| 0 <= j < |all| && all[j] == (k, scores[k]);
      assert forall r :: 0 <= r < |ranked| ==> ranked[r].0 != k;
    }
  }

  // ----- reading a ranking by thresholds -----

  function AtLeast(scores: Scores, v: int): set<int> {
    set k | k in scores && scores[k] >= v
  }

  ghost function KeysUpTo(ranked: seq<(int, nat)>, n: nat): set<int>
    requires n <= |ranked|
  {
    set i | 0 <= i < n :: ranked[i].0
  }

  lemma {:induction false} KeysUpToSize(ranked: seq<(int, nat)>, n: nat)
    requires n <= |ranked|
    requires forall i, j :: 0 <= i < j < |ranked| ==> ranked[i].0 != ranked[j].0
    ensures |KeysUpTo(ranked, n)| == n
  {
    if n > 0 {
      KeysUpToSize(ranked, n - 1);
      assert KeysUpTo(ranked, n) == KeysUpTo(ranked, n - 1) + {ranked[n - 1].0};
      assert ranked[n - 1].0 !in KeysUpTo(ranked, n - 1);
    } else {
      assert KeysUpTo(ranked, 0) == {};
    }
  }

  /** Position i exists and holds at least v exactly when more than i entries reach v. */
  lemma RankAt(scores: Scores, ranked: seq<(int, nat)>, cap: nat, i: nat, v: int)
    requires IsRanking(scores, ranked, cap) && i < cap
    ensures i < |ranked| && ranked[i].1 >= v <==> |AtLeast(scores, v)| > i
  {
    if i < |ranked| && ranked[i].1 >= v {
      KeysUpToSize(ranked, i + 1);
      SubsetSize(KeysUpTo(ranked, i + 1), AtLeast(scores, v));
    }
    if |AtLeast(scores, v)| > i {
      SubsetSize(AtLeast(scores, v), scores.Keys);
      if ranked[i].1 < v {
        KeysUpToSize(ranked, i);
        forall k | k in AtLeast(scores, v) ensures k in KeysUpTo(ranked, i) {
          assert Shown(ranked, k);
        }
        SubsetSize(AtLeast(scores, v), KeysUpTo(ranked, i));
        assert false;
      }
    }
  }
}
