/** The bound 51 - s is exact, and the objects it speaks of exist for every log.

    The worst case is a star: one game that everybody played, together with each other seed
    twice and with each of 50 further games once. */
module TruncationBound {
  import opened Lists
  import opened Wrappers
  import opened Ranking
  import opened Rounding
  import opened InteractionLog
  import opened Similarity
  import opened SimilarityTable

  // ----- every log has tables and candidates -----

  lemma {:induction false} HasListing(scores: Scores)
    ensures exists items :: ListsEntries(items, scores)
    decreases |scores|
  {
    if scores == map[] {
      assert ListsEntries([], scores);
    } else {
      assert scores.Keys != {};
      var k := Element(scores.Keys);
      var rest := scores - {k};
      assert rest.Keys == scores.Keys - {k};
      HasListing(rest);
      var items :| ListsEntries(items, rest);
      ListsOneMore(items, rest, k, scores[k]);
      assert rest[k := scores[k]] == scores;
    }
  }

  lemma HasRanking(scores: Scores, cap: nat)
    ensures exists ranked :: IsRanking(scores, ranked, cap)
  {
    HasListing(scores);
    var items :| ListsEntries(items, scores);
    RankItems(scores, items, cap);
  }

  ghost function Top(scores: Scores, cap: nat): (ranked: seq<(int, nat)>)
    ensures IsRanking(scores, ranked, cap)
  {
    HasRanking(scores, cap);
    var ranked :| IsRanking(scores, ranked, cap);
    ranked
  }

  lemma HasTopTable(pairs: Pairs, cap: nat)
    ensures exists kept :: IsTopTable(pairs, kept, cap)
  {
    var kept := TopRows(pairs, cap);
    forall g ensures KeepsTop(Row(pairs, g), Row(kept, g), cap) {
      RankingKeepsTop(Row(pairs, g), Top(Row(pairs, g), cap), cap);
      TopRow(pairs, cap, g);
    }
    assert IsTopTable(pairs, kept, cap);
  }

  ghost function TopRows(pairs: Pairs, cap: nat): Pairs {
    map p | p in pairs && p.1 in ScoresOf(Top(Row(pairs, p.0), cap)) :: pairs[p]
  }

  lemma TopRow(pairs: Pairs, cap: nat, g: int)
    ensures Row(TopRows(pairs, cap), g) == ScoresOf(Top(Row(pairs, g), cap))
  {
    RankingKeepsTop(Row(pairs, g), Top(Row(pairs, g), cap), cap);
    CutRow(pairs, TopRows(pairs, cap), g, ScoresOf(Top(Row(pairs, g), cap)));
  }

  lemma CutRow(pairs: Pairs, kept: Pairs, g: int, top: Scores)
    requires forall c :: c in top ==> c in Row(pairs, g) && top[c] == Row(pairs, g)[c]
    requires forall c :: (g, c) in kept <==> (g, c) in pairs && c in top
    requires forall p :: p in kept ==> p in pairs && kept[p] == pairs[p]
    ensures Row(kept, g) == top
  {
    forall c ensures c in Row(kept, g) <==> c in top {
      assert c in top ==> (g, c) in pairs;
    }
    forall c | c in top ensures Row(kept, g)[c] == top[c] {
      assert (g, c) in kept && c in Row(pairs, g);
    }
  }

  lemma {:induction false} HasBest(pairs: Pairs, seeds: set<int>)
    ensures exists best :: IsBest(pairs, seeds, best)
    decreases |pairs|
  {
    if pairs == map[] {
      assert IsBest(pairs, seeds, map[]);
    } else {
      assert pairs.Keys != {};
      var p := Element(pairs.Keys);
      var rest, v := pairs - {p}, pairs[p];
      assert rest.Keys == pairs.Keys - {p};
      HasBest(rest, seeds);
      var best :| IsBest(rest, seeds, best);
      var best' := if p.0 in seeds && p.1 !in seeds && (p.1 in best ==> best[p.1] < v) then best[p.1 := v] else best;
      BestNext(rest, seeds, best, p, v, best');
      assert rest[p := v] == pairs;
    }
  }

  lemma HasCandidates(pairs: Pairs, seeds: set<int>)
    ensures exists candidates :: AreCandidates(pairs, seeds, candidates)
  {
    HasBest(pairs, seeds);
    var best :| IsBest(pairs, seeds, best);
    HasRanking(best, MAX_RECOMMENDATIONS);
    var ranked :| IsRanking(best, ranked, MAX_RECOMMENDATIONS);
    assert AreCandidates(pairs, seeds, ranked);
  }

  /** Every log and every set of seeds has a rebuilt table and both candidate lists. */
  lemma RebuildExists(log: seq<LogRow>, seeds: set<int>)
    returns (rows: Pairs, full: seq<(int, nat)>, stored: seq<(int, nat)>)
    ensures AfterRebuild(log, rows, seeds, full, stored)
  {
    var pairs := PairScores(Played(log));
    HasTopTable(pairs, MAX_SIMILAR_PER_GAME);
    rows :| IsTopTable(pairs, rows, MAX_SIMILAR_PER_GAME);
    HasCandidates(pairs, seeds);
    full :| AreCandidates(pairs, seeds, full);
    HasCandidates(rows, seeds);
    stored :| AreCandidates(rows, seeds, stored);
  }

  // ----- the star -----

  function Interval(lo: int, hi: int): (s: set<int>)
    requires lo <= hi
    ensures |s| == hi - lo && forall x :: x in s <==> lo <= x < hi
    decreases hi - lo
  {
    if lo == hi then {} else Interval(lo, hi - 1) + {hi - 1}
  }

  /** The other game of user u: the users 1 .. s + 49 have one each of the games 2 .. s + 50, and
      the rest have one each of the further seeds 2 .. s again. */
  function OtherGame(s: nat, u: int): int {
    if u <= s + 49 then u + 1 else u - s - 48
  }

  /** Two users per further seed 2 .. s, and one per game s + 1 .. s + 50. */
  function StarUsers(s: nat): set<int>
    requires s >= 1
  {
    Interval(1, 2 * s + 49)
  }

  /** Every user played game 1 and one other game. */
  function Star(s: nat): set<(int, int)>
    requires s >= 1
  {
    (set u | u in StarUsers(s) :: (u, 1)) + (set u | u in StarUsers(s) :: (u, OtherGame(s, u)))
  }

  /** The number of `StarUsers`. */
  function StarUserCount(s: nat): nat { 2 * s + 48 }

  lemma InStar(s: nat, u: int, g: int)
    requires s >= 1
    ensures (u, g) in Star(s) <==> u in StarUsers(s) && (g == 1 || g == OtherGame(s, u))
  {}

  lemma StarPlayer(s: nat, u: int, g: int)
    requires s >= 1
    ensures u in UsersOf(Star(s), g) <==> u in StarUsers(s) && (g == 1 || g == OtherGame(s, u))
  {
    InStar(s, u, g);
    assert u in UsersOf(Star(s), g) <==> (u, g) in Star(s);
  }

  /** The users of a game other than the centre. */
  function Spoke(s: nat, g: int): set<int> {
    if 2 <= g <= s then {g - 1, g + s + 48} else if s < g <= s + 50 then {g - 1} else {}
  }

  lemma StarPlayers(s: nat, g: int)
    requires s >= 1
    ensures UsersOf(Star(s), g) == if g == 1 then StarUsers(s) else Spoke(s, g)
  {
    forall u ensures u in UsersOf(Star(s), g) <==> u in (if g == 1 then StarUsers(s) else Spoke(s, g)) {
      StarPlayer(s, u, g);
    }
  }

  lemma SpokeSize(s: nat, g: int)
    requires s >= 1 && g != 1
    ensures Spoke(s, g) <= StarUsers(s)
    ensures |Spoke(s, g)| == if 2 <= g <= s then 2 else if s < g <= s + 50 then 1 else 0
  {}

  /** A game played only by two users of the centre beats one played by a single such user. */
  lemma TwoBeatOne(n: nat, lo: nat, hi: nat)
    requires 52 <= n <= 150
    requires IsRootQuotient(SCORE_UNIT, n, lo) && IsRootQuotient(2 * SCORE_UNIT, 2 * n, hi)
    ensures hi > lo > 0
  {
    var x := Sq(SCORE_UNIT);
    assert Sq(2 * SCORE_UNIT) == 4 * x;
    NotTiny(n, lo);
    assert 8 * x <= Sq(2 * hi + 1) * n by { MulAssoc(Sq(2 * hi + 1), 2, n); MulAssoc(2, Sq(2 * hi + 1), n); }
    if hi <= lo {
      SqLe(2 * hi + 1, 2 * lo + 1);
      MulLe(Sq(2 * hi + 1), Sq(2 * lo + 1), n);
      SquaresApart(lo);
      MulLt(Sq(2 * lo + 1), 2 * Sq(2 * lo - 1), n);
      MulAssoc(2, Sq(2 * lo - 1), n);
      assert false;
    }
  }

  lemma NotTiny(n: nat, lo: nat)
    requires n <= 150 && IsRootQuotient(SCORE_UNIT, n, lo)
    ensures lo >= 3
  {
    if lo < 3 {
      SqLe(2 * lo + 1, 5);
      MulLe(Sq(2 * lo + 1), Sq(5), n);
      assert false;
    }
  }

  lemma CosineIsNearest(o: nat, ca: nat, cb: nat)
    requires ca * cb > 0
    ensures IsRootQuotient(SCORE_UNIT * o, ca * cb, Cosine(o, ca, cb))
  {
    RootQuotientIsNearest(SCORE_UNIT * o, ca * cb);
  }

  lemma SquaresApart(lo: nat)
    requires lo >= 3
    ensures Sq(2 * lo + 1) < 2 * Sq(2 * lo - 1)
  {
    var d := lo - 3;
    assert Sq(2 * lo + 1) == 4 * (d * d) + 28 * d + 49;
    assert Sq(2 * lo - 1) == 4 * (d * d) + 20 * d + 25;
  }

  /** The full matrix of a star: game 1 is paired with the further seeds at hi and with the 50
      other games at lo, and nothing else is paired. */
  ghost predicate IsStar(pairs: Pairs, s: nat, hi: nat, lo: nat) {
    && (forall a, b :: (a, b) in pairs <==> (a == 1 && 2 <= b <= s + 50) || (b == 1 && 2 <= a <= s + 50))
    && (forall g :: 2 <= g <= s + 50 ==> (1, g) in pairs && pairs[(1, g)] == if g <= s then hi else lo)
  }

  lemma StarScore(s: nat, g: int)
    requires s >= 1 && g != 1
    ensures Score(Star(s), 1, g) == Cosine(|Spoke(s, g)|, StarUserCount(s), |Spoke(s, g)|)
  {
    StarPlayers(s, 1);
    StarPlayers(s, g);
    SpokeSize(s, g);
    assert StarUsers(s) * Spoke(s, g) == Spoke(s, g);
  }

  lemma OffCentre(s: nat, a: int, b: int)
    requires s >= 1 && a != 1 && b != 1
    ensures Score(Star(s), a, b) == 0
  {
    if a != b {
      StarPlayers(s, a);
      StarPlayers(s, b);
      assert Spoke(s, a) * Spoke(s, b) == {};
      NoOverlapNoScore(Star(s), a, b);
    }
  }

  /** The score of game 1 with another game. */
  lemma CentreScore(s: nat, hi: nat, lo: nat, g: int)
    requires s >= 1 && g != 1
    requires hi == Cosine(2, StarUserCount(s), 2) && lo == Cosine(1, StarUserCount(s), 1)
    ensures Score(Star(s), 1, g) == if 2 <= g <= s then hi else if s < g <= s + 50 then lo else 0
  {
    StarScore(s, g);
    SpokeSize(s, g);
    CosineZero(StarUserCount(s), 0);
  }

  lemma StarIsStar(s: nat) returns (hi: nat, lo: nat)
    requires 2 <= s <= 51
    ensures hi > lo && IsStar(PairScores(Star(s)), s, hi, lo)
  {
    hi, lo := Cosine(2, StarUserCount(s), 2), Cosine(1, StarUserCount(s), 1);
    CosineIsNearest(2, StarUserCount(s), 2);
    CosineIsNearest(1, StarUserCount(s), 1);
    TwoBeatOne(StarUserCount(s), lo, hi);
    var pairs := PairScores(Star(s));
    forall a, b ensures (a, b) in pairs <==> (a == 1 && 2 <= b <= s + 50) || (b == 1 && 2 <= a <= s + 50) {
      StoredWhenPositive(Star(s), a, b);
      ScoreSymmetric(Star(s), a, b);
      if a == 1 && b != 1 { CentreScore(s, hi, lo, b); }
      if b == 1 && a != 1 { CentreScore(s, hi, lo, a); }
      if a != 1 && b != 1 { OffCentre(s, a, b); }
    }
    forall g | 2 <= g <= s + 50 ensures (1, g) in pairs && pairs[(1, g)] == if g <= s then hi else lo {
      StoredWhenPositive(Star(s), 1, g);
      CentreScore(s, hi, lo, g);
    }
  }

  // ----- what is left of the star -----

  ghost predicate IsPart(part: Pairs, pairs: Pairs) {
    forall a, b :: (a, b) in part ==> (a, b) in pairs
  }

  /** In any part of a star the candidates of the seeds 1 .. s come from the row of game 1. */
  lemma StarBest(pairs: Pairs, part: Pairs, s: nat, hi: nat, lo: nat, best: Scores)
    requires s >= 1 && IsStar(pairs, s, hi, lo) && IsBest(part, Interval(1, s + 1), best)
    requires IsPart(part, pairs)
    ensures best.Keys == Row(part, 1).Keys - Interval(1, s + 1)
  {
    forall c ensures c in best <==> c in Row(part, 1).Keys - Interval(1, s + 1) {
      if c in best {
        assert AttainedBy(part, Interval(1, s + 1), c, best[c]);
        var g :| g in Interval(1, s + 1) && (g, c) in part && part[(g, c)] == best[c];
      }
      if c in Row(part, 1) && c !in Interval(1, s + 1) { assert (1, c) in part; }
    }
  }

  lemma StarRow(pairs: Pairs, s: nat, hi: nat, lo: nat)
    requires s >= 1 && IsStar(pairs, s, hi, lo)
    ensures Row(pairs, 1).Keys == Interval(2, s + 51)
    ensures forall g :: 2 <= g <= s + 50 ==> Row(pairs, 1)[g] == if g <= s then hi else lo
  {
    forall g ensures g in Row(pairs, 1) <==> g in Interval(2, s + 51) {
      assert g in Row(pairs, 1) <==> (1, g) in pairs;
    }
  }

  lemma SeedStays(others: set<int>, kept: Scores, hi: nat, j: int)
    requires j in others && |others| <= |kept| && AllReach(kept, hi)
    requires forall g :: g in kept && g !in others ==> kept[g] < hi
    ensures j in kept
  {
    assert |kept| == |kept.Keys|;
    if j !in kept {
      forall g | g in kept.Keys ensures g in others - {j} { assert kept[g] >= hi; }
      SubsetSize(kept.Keys, others - {j});
    }
  }

  lemma FullWhenCut(row: Scores, kept: Scores)
    requires |row.Keys| > MAX_SIMILAR_PER_GAME && KeepsTop(row, kept, MAX_SIMILAR_PER_GAME)
    ensures |kept.Keys| == |kept| == MAX_SIMILAR_PER_GAME
  {
    assert |kept.Keys| == |kept|;
    if row.Keys <= kept.Keys {
      SubsetSize(row.Keys, kept.Keys);
    } else {
      var dropped := Missing(row.Keys, kept.Keys);
    }
  }

  /** The cut row of game 1 keeps every further seed and so only 51 - s candidates. */
  lemma CutStarRow(row: Scores, kept: Scores, s: nat, hi: nat, lo: nat)
    requires 2 <= s <= 51 && hi > lo
    requires row.Keys == Interval(2, s + 51) && forall g :: 2 <= g <= s + 50 ==> row[g] == if g <= s then hi else lo
    requires KeepsTop(row, kept, MAX_SIMILAR_PER_GAME)
    ensures |kept.Keys - Interval(1, s + 1)| == 51 - s
  {
    assert |row.Keys| == s + 49;
    FullWhenCut(row, kept);
    var others := Interval(2, s + 1);
    forall j | j in others ensures j in kept {
      if j !in kept { SeedStays(others, kept, hi, j); }
    }
    WithoutSeeds(kept.Keys, others);
    assert kept.Keys - Interval(1, s + 1) == kept.Keys - others;
  }

  lemma WithoutSeeds(kept: set<int>, others: set<int>)
    requires others <= kept
    ensures |kept - others| == |kept| - |others|
  {
    assert kept == (kept - others) + others;
  }

  lemma StarFull(pairs: Pairs, s: nat, hi: nat, lo: nat, full: seq<(int, nat)>)
    requires s >= 1 && IsStar(pairs, s, hi, lo) && AreCandidates(pairs, Interval(1, s + 1), full)
    ensures |full| == 50
  {
    var best :| IsBest(pairs, Interval(1, s + 1), best) && IsRanking(best, full, MAX_RECOMMENDATIONS);
    StarRow(pairs, s, hi, lo);
    StarBest(pairs, pairs, s, hi, lo, best);
    OutsideSeeds(s, Row(pairs, 1).Keys);
    RankingSize(best, full, Interval(s + 1, s + 51));
  }

  lemma OutsideSeeds(s: nat, keys: set<int>)
    requires s >= 1 && keys == Interval(2, s + 51)
    ensures keys - Interval(1, s + 1) == Interval(s + 1, s + 51)
  {}

  lemma RankingSize(best: Scores, ranked: seq<(int, nat)>, keys: set<int>)
    requires IsRanking(best, ranked, MAX_RECOMMENDATIONS) && best.Keys == keys
    ensures |ranked| == Min(50, |keys|)
  {
    assert |best| == |best.Keys|;
  }

  lemma StarPart(pairs: Pairs, rows: Pairs)
    requires IsTopTable(pairs, rows, MAX_SIMILAR_PER_GAME)
    ensures IsPart(rows, pairs)
  {
    forall a, b | (a, b) in rows ensures (a, b) in pairs { KeptIsPair(pairs, rows, MAX_SIMILAR_PER_GAME, a, b); }
  }

  lemma StarCut(pairs: Pairs, rows: Pairs, s: nat, hi: nat, lo: nat, stored: seq<(int, nat)>)
    requires 2 <= s <= 51 && hi > lo && IsStar(pairs, s, hi, lo)
    requires IsTopTable(pairs, rows, MAX_SIMILAR_PER_GAME) && AreCandidates(rows, Interval(1, s + 1), stored)
    ensures |stored| == 51 - s
  {
    var tab :| IsBest(rows, Interval(1, s + 1), tab) && IsRanking(tab, stored, MAX_RECOMMENDATIONS);
    StarPart(pairs, rows);
    StarBest(pairs, rows, s, hi, lo, tab);
    StarRow(pairs, s, hi, lo);
    assert KeepsTop(Row(pairs, 1), Row(rows, 1), MAX_SIMILAR_PER_GAME);
    CutStarRow(Row(pairs, 1), Row(rows, 1), s, hi, lo);
    RankingSize(tab, stored, Row(rows, 1).Keys - Interval(1, s + 1));
  }

  /** For every s from 2 to 51 a log with s seeds for which the full matrix has 50 candidates
      and the stored table, however ties were broken, only 51 - s. */
  lemma TruncationBoundIsSharp(
      s: nat, log: seq<LogRow>, rows: Pairs, full: seq<(int, nat)>, stored: seq<(int, nat)>)
    requires 2 <= s <= 51 && Played(log) == Star(s)
    requires AfterRebuild(log, rows, Interval(1, s + 1), full, stored)
    ensures |full| == 50 && |stored| == 51 - s
  {
    var hi, lo := StarIsStar(s);
    StarFull(PairScores(Played(log)), s, hi, lo, full);
    StarCut(PairScores(Played(log)), rows, s, hi, lo, stored);
  }

  lemma {:induction false} HasLog(played: set<(int, int)>)
    ensures exists log :: Played(log) == played
    decreases |played|
  {
    if played == {} {
      assert Played([]) == played;
    } else {
      var p := Element(played);
      HasLog(played - {p});
      var log :| Played(log) == played - {p};
      var row := LogRow(p.0, Some(p.1), View, "detail_page", None, None, None, 0);
      AppendedRow(log, row);
      assert Played(log + [row]) == played;
    }
  }

  /** A log that shows it, with a rebuilt table and both candidate lists. */
  lemma StarInstance(s: nat)
    returns (log: seq<LogRow>, rows: Pairs, full: seq<(int, nat)>, stored: seq<(int, nat)>)
    requires 2 <= s <= 51
    ensures AfterRebuild(log, rows, Interval(1, s + 1), full, stored)
    ensures |full| == 50 && |stored| == 51 - s && (1, 2) in PairScores(Played(log))
  {
    HasLog(Star(s));
    log :| Played(log) == Star(s);
    rows, full, stored := RebuildExists(log, Interval(1, s + 1));
    TruncationBoundIsSharp(s, log, rows, full, stored);
    var hi, lo := StarIsStar(s);
  }

  /** Position i of the candidates of s seeds is safe in every rebuilt table. */
  ghost predicate AlwaysAgrees(s: nat, i: nat) {
    forall log, rows, seeds: set<int>, full: seq<(int, nat)>, stored: seq<(int, nat)> ::
      AfterRebuild(log, rows, seeds, full, stored) && |seeds| == s && i < |full|
      ==> i < |stored| && stored[i].1 == full[i].1
  }

  /** The exact reach of the stored table: the i-th best candidate score of s seeds is that of
      the full matrix, for every log and every breaking of ties, if and only if i < 51 - s. */
  lemma AgreesIff(s: nat, i: nat)
    requires 1 <= s <= 51 && i < 50
    ensures AlwaysAgrees(s, i) <==> i < 51 - s
  {
    if i < 51 - s {
      forall log, rows, seeds: set<int>, full: seq<(int, nat)>, stored: seq<(int, nat)>
        | AfterRebuild(log, rows, seeds, full, stored) && |seeds| == s && i < |full|
        ensures i < |stored| && stored[i].1 == full[i].1
      {
        RebuiltTableSuffices(log, rows, seeds, full, stored, i);
      }
    } else {
      var log, rows, full, stored := StarInstance(s);
      assert AfterRebuild(log, rows, Interval(1, s + 1), full, stored) && |Interval(1, s + 1)| == s;
    }
  }
}
