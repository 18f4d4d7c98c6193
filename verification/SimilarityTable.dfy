/** The stored similarity table: the top 50 partners of every game, and the candidates a set
    of seed games finds in it.

    The table is a lossy stand-in for the full score matrix. The main result says how little
    is lost: with s seeds, the first 51 - s candidate scores are those of the full matrix. */
module SimilarityTable {
  import opened Lists
  import opened Ranking
  import opened InteractionLog
  import opened Similarity
  import opened SimilarityTasks

  const MAX_SIMILAR_PER_GAME := 50
  const MAX_RECOMMENDATIONS := 50

  /** (game, similar game) -> score; the unique constraint of the table makes it a map. */
  type Pairs = map<(int, int), nat>

  /** The partners of one game. */
  function Row(pairs: Pairs, game: int): (row: Scores)
    ensures forall s :: s in row <==> (game, s) in pairs
    ensures forall s :: s in row ==> row[s] == pairs[(game, s)]
  {
    map s | s in (set p | p in pairs && p.0 == game :: p.1) :: pairs[(game, s)]
  }

  ghost predicate NoSelfPair(pairs: Pairs) {
    forall p :: p in pairs ==> p.0 != p.1
  }

  /** What a game keeps of its row: at most cap entries; if anything was dropped then cap
      entries were kept and none of them is beaten by it. Ties are free. */
  ghost predicate KeepsTop(row: Scores, kept: Scores, cap: nat) {
    && |kept| <= cap
    && (forall s :: s in kept ==> s in row && kept[s] == row[s])
    && (forall z :: z in row && z !in kept ==> |kept| == cap && AllReach(kept, row[z]))
  }

  ghost predicate AllReach(scores: Scores, v: nat) {
    forall s :: s in scores ==> v <= scores[s]
  }

  ghost predicate IsTopTable(pairs: Pairs, kept: Pairs, cap: nat) {
    forall g :: KeepsTop(Row(pairs, g), Row(kept, g), cap)
  }

  /** best holds, for every game that is no seed and is paired with one, its highest score. */
  ghost predicate IsBest(pairs: Pairs, seeds: set<int>, best: Scores) {
    && (forall g, c :: g in seeds && c !in seeds && (g, c) in pairs ==> c in best && pairs[(g, c)] <= best[c])
    && (forall c :: c in best ==> c !in seeds && AttainedBy(pairs, seeds, c, best[c]))
  }

  ghost predicate AttainedBy(pairs: Pairs, seeds: set<int>, c: int, score: nat) {
    exists g :: g in seeds && (g, c) in pairs && pairs[(g, c)] == score
  }

  /** The candidates of the seeds: their best non-seed partners, best first, at most 50. */
  ghost predicate AreCandidates(pairs: Pairs, seeds: set<int>, candidates: seq<(int, nat)>) {
    exists best :: IsBest(pairs, seeds, best) && IsRanking(best, candidates, MAX_RECOMMENDATIONS)
  }

  // ----- truncation loses nothing near the top -----

  lemma AtLeastMonotone(tab: Scores, full: Scores, v: int)
    requires forall c :: c in tab ==> c in full && tab[c] <= full[c]
    ensures |AtLeast(tab, v)| <= |AtLeast(full, v)|
  {
    forall c | c in AtLeast(tab, v) ensures c in AtLeast(full, v) {
      assert c in tab;
    }
    SubsetSize(AtLeast(tab, v), AtLeast(full, v));
  }

  lemma KeptIsPair(pairs: Pairs, kept: Pairs, cap: nat, g: int, c: int)
    requires IsTopTable(pairs, kept, cap) && (g, c) in kept
    ensures (g, c) in pairs && kept[(g, c)] == pairs[(g, c)]
  {
    assert KeepsTop(Row(pairs, g), Row(kept, g), cap);
    assert c in Row(kept, g);
  }

  lemma TableBelowFull(pairs: Pairs, kept: Pairs, seeds: set<int>, full: Scores, tab: Scores, cap: nat)
    requires IsTopTable(pairs, kept, cap) && IsBest(pairs, seeds, full) && IsBest(kept, seeds, tab)
    ensures forall c :: c in tab ==> c in full && tab[c] <= full[c]
  {
    forall c | c in tab ensures c in full && tab[c] <= full[c] {
      var g :| g in seeds && (g, c) in kept && kept[(g, c)] == tab[c];
      KeptIsPair(pairs, kept, cap, g, c);
    }
  }

  /** A seed that dropped a row scoring v still offers cap - (|seeds| - 1) candidates reaching v. */
  lemma FullRowOffers(pairs: Pairs, kept: Pairs, seeds: set<int>, tab: Scores, cap: nat, g: int, c: int)
    requires IsTopTable(pairs, kept, cap) && NoSelfPair(pairs) && IsBest(kept, seeds, tab)
    requires g in seeds && (g, c) in pairs && (g, c) !in kept
    ensures |AtLeast(tab, pairs[(g, c)])| + |seeds| > cap
  {
    var v, row := pairs[(g, c)], Row(kept, g);
    assert KeepsTop(Row(pairs, g), row, cap);
    forall s | s in row.Keys - seeds ensures s in AtLeast(tab, v) {
      assert (g, s) in kept && row[s] >= v;
    }
    SubsetSize(row.Keys - seeds, AtLeast(tab, v));
    assert g !in row by {
      if g in row { KeptIsPair(pairs, kept, cap, g, g); }
    }
    FewSeedsInRow(row.Keys, seeds, g);
  }

  lemma FewSeedsInRow(row: set<int>, seeds: set<int>, g: int)
    requires g in seeds && g !in row
    ensures |row - seeds| + |seeds| > |row|
  {
    SubsetSize(row * seeds, seeds - {g});
    assert row == (row - seeds) + row * seeds;
  }

  lemma EnoughReachThreshold(pairs: Pairs, kept: Pairs, seeds: set<int>, full: Scores, tab: Scores, cap: nat, v: int)
    requires IsTopTable(pairs, kept, cap) && NoSelfPair(pairs)
    requires IsBest(pairs, seeds, full) && IsBest(kept, seeds, tab)
    ensures |AtLeast(tab, v)| >= |AtLeast(full, v)| || |AtLeast(tab, v)| + |seeds| > cap
  {
    if AtLeast(full, v) <= AtLeast(tab, v) {
      SubsetSize(AtLeast(full, v), AtLeast(tab, v));
    } else {
      var c := Missing(AtLeast(full, v), AtLeast(tab, v));
      var g :| g in seeds && (g, c) in pairs && pairs[(g, c)] == full[c];
      if (g, c) in kept { KeptIsPair(pairs, kept, cap, g, c); }
      FullRowOffers(pairs, kept, seeds, tab, cap, g, c);
      SubsetSize(AtLeast(tab, full[c]), AtLeast(tab, v));
    }
  }

  /** The first cap + 1 - |seeds| candidate scores computed from the truncated table are those
      of the full matrix, as far as the full list goes, however ties were broken. */
  lemma TruncationLosesNothing(
      pairs: Pairs, kept: Pairs, seeds: set<int>, full: Scores, tab: Scores,
      fullRanked: seq<(int, nat)>, ranked: seq<(int, nat)>, cap: nat, i: nat)
    requires IsTopTable(pairs, kept, cap) && NoSelfPair(pairs)
    requires IsBest(pairs, seeds, full) && IsRanking(full, fullRanked, cap)
    requires IsBest(kept, seeds, tab) && IsRanking(tab, ranked, cap)
    requires i + |seeds| <= cap && i < |fullRanked|
    ensures i < |ranked| && ranked[i].1 == fullRanked[i].1
  {
    var v := fullRanked[i].1;
    assert i < cap;
    RankAt(full, fullRanked, cap, i, v);
    EnoughReachThreshold(pairs, kept, seeds, full, tab, cap, v);
    RankAt(tab, ranked, cap, i, v);
    TableBelowFull(pairs, kept, seeds, full, tab, cap);
    AtLeastMonotone(tab, full, ranked[i].1);
    RankAt(tab, ranked, cap, i, ranked[i].1);
    RankAt(full, fullRanked, cap, i, ranked[i].1);
  }

  // ----- building the table -----

  function ItemsOf(top: map<int, seq<(int, nat)>>, game: int): seq<(int, nat)> {
    if game in top then top[game] else []
  }

  ghost predicate ListsRow(part: Pairs, top: map<int, seq<(int, nat)>>, g: int) {
    ListsEntries(ItemsOf(top, g), Row(part, g))
  }

  /** The lists hold the rows of the processed part of the matrix. */
  ghost predicate Grouped(part: Pairs, top: map<int, seq<(int, nat)>>) {
    forall g :: ListsRow(part, top, g)
  }

  lemma ListsOneMore(items: seq<(int, nat)>, scores: Scores, k: int, v: nat)
    requires ListsEntries(items, scores) && k !in scores
    ensures ListsEntries(items + [(k, v)], scores[k := v])
  {
    assert (k, v) !in items;
    assert forall e :: e in items + [(k, v)] <==> e in items || e == (k, v);
  }

  lemma RowNext(part: Pairs, p: (int, int), v: nat, g: int)
    ensures Row(part[p := v], g) == if g == p.0 then Row(part, g)[p.1 := v] else Row(part, g)
  {}

  lemma GroupedNext(part: Pairs, top: map<int, seq<(int, nat)>>, p: (int, int), v: nat)
    requires Grouped(part, top) && p !in part
    ensures Grouped(part[p := v], top[p.0 := ItemsOf(top, p.0) + [(p.1, v)]])
  {
    var part', top' := part[p := v], top[p.0 := ItemsOf(top, p.0) + [(p.1, v)]];
    forall g ensures ListsRow(part', top', g) {
      assert ListsRow(part, top, g);
      RowNext(part, p, v, g);
      GameNext(ItemsOf(top, g), Row(part, g), ItemsOf(top', g), Row(part', g), g == p.0, p.1, v);
    }
  }

  /** The list side of one step, for one game: its list and row both gain the entry, or neither. */
  lemma GameNext(
      items: seq<(int, nat)>, row: Scores, items': seq<(int, nat)>, row': Scores, gains: bool, k: int, v: nat)
    requires ListsEntries(items, row) && (gains ==> k !in row)
    requires items' == (if gains then items + [(k, v)] else items) && row' == (if gains then row[k := v] else row)
    ensures ListsEntries(items', row')
  {
    if gains { ListsOneMore(items, row, k, v); }
  }

  lemma UnlistedRow(pairs: Pairs, top: map<int, seq<(int, nat)>>, g: int)
    requires Grouped(pairs, top) && g !in top
    ensures Row(pairs, g) == map[]
  {
    assert ListsRow(pairs, top, g);
    EntriesSize([], Row(pairs, g));
  }

  method GroupByGame(pairs: Pairs) returns (top: map<int, seq<(int, nat)>>)
    ensures Grouped(pairs, top)
  {
    top := map[];
    var rest := pairs.Keys;
    assert pairs - rest == map[];
    while rest != {}
      invariant rest <= pairs.Keys && Grouped(pairs - rest, top)
      decreases rest
    {
      ghost var next := Element(rest);
      var p :| p in rest;
      GroupedNext(pairs - rest, top, p, pairs[p]);
      assert (pairs - rest)[p := pairs[p]] == pairs - (rest - {p});
      rest := rest - {p};
      top := top[p.0 := ItemsOf(top, p.0) + [(p.1, pairs[p])]];
    }
    assert pairs - rest == pairs;
  }

  /** The records after appending the ranked partners of one game. */
  ghost function WithRecords(kept: Pairs, game: int, ranked: seq<(int, nat)>): Pairs {
    if ranked == [] then kept
    else
      var n := |ranked| - 1;
      WithRecords(kept, game, ranked[..n])[(game, ranked[n].0) := ranked[n].1]
  }

  /** The ranked entries as a map. */
  function ScoresOf(ranked: seq<(int, nat)>): Scores {
    if ranked == [] then map[]
    else
      var n := |ranked| - 1;
      ScoresOf(ranked[..n])[ranked[n].0 := ranked[n].1]
  }

  lemma {:induction false} RowWithRecords(kept: Pairs, game: int, ranked: seq<(int, nat)>, g: int)
    requires Row(kept, game) == map[]
    ensures Row(WithRecords(kept, game, ranked), g) == if g == game then ScoresOf(ranked) else Row(kept, g)
  {
    if ranked != [] {
      var n := |ranked| - 1;
      RowWithRecords(kept, game, ranked[..n], g);
      RowNext(WithRecords(kept, game, ranked[..n]), (game, ranked[n].0), ranked[n].1, g);
    }
  }

  lemma {:induction false} ScoresOfHolds(ranked: seq<(int, nat)>)
    requires forall i, j :: 0 <= i < j < |ranked| ==> ranked[i].0 != ranked[j].0
    ensures |ScoresOf(ranked)| == |ranked|
    ensures forall k :: k in ScoresOf(ranked) <==> Shown(ranked, k)
    ensures forall i :: 0 <= i < |ranked| ==>
              ranked[i].0 in ScoresOf(ranked) && ScoresOf(ranked)[ranked[i].0] == ranked[i].1
  {
    if ranked != [] {
      var n := |ranked| - 1;
      ScoresOfHolds(ranked[..n]);
      forall k ensures Shown(ranked, k) <==> Shown(ranked[..n], k) || k == ranked[n].0 { ShownSnoc(ranked, k); }
      assert ranked[n].0 !in ScoresOf(ranked[..n]);
      forall i | 0 <= i < n ensures ranked[i].0 in ScoresOf(ranked) && ScoresOf(ranked)[ranked[i].0] == ranked[i].1 {
        assert ranked[..n][i] == ranked[i];
      }
    }
  }

  lemma ShownSnoc(ranked: seq<(int, nat)>, k: int)
    requires ranked != []
    ensures Shown(ranked, k) <==> Shown(ranked[..|ranked| - 1], k) || k == ranked[|ranked| - 1].0
  {
    var n := |ranked| - 1;
    if Shown(ranked, k) && k != ranked[n].0 {
      var i :| 0 <= i < |ranked| && ranked[i].0 == k;
      assert ranked[..n][i].0 == k;
    }
    if Shown(ranked[..n], k) {
      var i :| 0 <= i < n && ranked[..n][i].0 == k;
      assert ranked[i].0 == k;
    }
  }

  /** A ranking of a row, stored, keeps the top of the row. */
  lemma RankingKeepsTop(row: Scores, ranked: seq<(int, nat)>, cap: nat)
    requires IsRanking(row, ranked, cap)
    ensures KeepsTop(row, ScoresOf(ranked), cap)
  {
    var kept := ScoresOf(ranked);
    ScoresOfHolds(ranked);
    forall s | s in kept ensures s in row && kept[s] == row[s] {
      var i :| 0 <= i < |ranked| && ranked[i].0 == s;
    }
    forall z | z in row && z !in kept ensures |kept| == cap && AllReach(kept, row[z]) {
      assert !Shown(ranked, z);
      SubsetSize(kept.Keys, row.Keys - {z});
      forall s | s in kept ensures row[z] <= kept[s] {
        var i :| 0 <= i < |ranked| && ranked[i].0 == s;
      }
    }
  }

  /** The records of the games done so far, and no others. */
  ghost predicate TableOf(pairs: Pairs, kept: Pairs, games: set<int>, cap: nat) {
    forall g :: RowDone(pairs, kept, games, cap, g)
  }

  ghost predicate RowDone(pairs: Pairs, kept: Pairs, games: set<int>, cap: nat, g: int) {
    if g in games then KeepsTop(Row(pairs, g), Row(kept, g), cap) else Row(kept, g) == map[]
  }

  lemma TableNext(pairs: Pairs, kept: Pairs, games: set<int>, game: int, ranked: seq<(int, nat)>, cap: nat)
    requires TableOf(pairs, kept, games, cap) && game !in games
    requires IsRanking(Row(pairs, game), ranked, cap)
    ensures TableOf(pairs, WithRecords(kept, game, ranked), games + {game}, cap)
  {
    RankingKeepsTop(Row(pairs, game), ranked, cap);
    assert RowDone(pairs, kept, games, cap, game);
    var kept' := WithRecords(kept, game, ranked);
    forall g ensures RowDone(pairs, kept', games + {game}, cap, g) {
      assert RowDone(pairs, kept, games, cap, g);
      RowWithRecords(kept, game, ranked, g);
      RowDoneNext(pairs, kept, kept', games, game, ScoresOf(ranked), cap, g);
    }
  }

  lemma RowDoneNext(pairs: Pairs, kept: Pairs, kept': Pairs, games: set<int>, game: int, top: Scores, cap: nat, g: int)
    requires RowDone(pairs, kept, games, cap, g) && game !in games && KeepsTop(Row(pairs, game), top, cap)
    requires Row(kept', g) == if g == game then top else Row(kept, g)
    ensures RowDone(pairs, kept', games + {game}, cap, g)
  {}

  lemma TableOfAll(pairs: Pairs, kept: Pairs, games: set<int>, cap: nat)
    requires TableOf(pairs, kept, games, cap)
    requires forall g :: g !in games ==> Row(pairs, g) == map[]
    ensures IsTopTable(pairs, kept, cap)
  {
    forall g ensures KeepsTop(Row(pairs, g), Row(kept, g), cap) {
      assert RowDone(pairs, kept, games, cap, g);
    }
  }

  /** The entries of a score map in some order, as a query returns its groups. */
  method Entries(scores: Scores) returns (items: seq<(int, nat)>)
    ensures ListsEntries(items, scores)
  {
    items := [];
    var rest := scores.Keys;
    while rest != {}
      invariant rest <= scores.Keys && Distinct(items)
      invariant forall e: (int, nat) :: e in items <==> e.0 in scores && e.0 !in rest && scores[e.0] == e.1
      decreases rest
    {
      ghost var next := Element(rest);
      var k :| k in rest;
      assert (k, scores[k]) !in items;
      assert forall e :: e in items + [(k, scores[k])] <==> e in items || e == (k, scores[k]);
      items := items + [(k, scores[k])];
      rest := rest - {k};
    }
  }

  /** One game of the outer loop: its partners sorted by score and cut to the cap. */
  method AppendTop(records: Pairs, ghost row: Scores, game: int, similars: seq<(int, nat)>)
    returns (records': Pairs, ghost ranked: seq<(int, nat)>)
    requires ListsEntries(similars, row)
    ensures IsRanking(row, ranked, MAX_SIMILAR_PER_GAME) && records' == WithRecords(records, game, ranked)
  {
    RankItems(row, similars, MAX_SIMILAR_PER_GAME);
    var top := Take(SortDescending(similars, ByScore()), MAX_SIMILAR_PER_GAME);
    records' := records;
    for i := 0 to |top|
      invariant records' == WithRecords(records, game, top[..i])
    {
      assert top[..i + 1][..i] == top[..i];
      records' := records'[(game, top[i].0) := top[i].1];
    }
    assert top[..|top|] == top;
    ranked := top;
  }

  method AppendGame(
      ghost pairs: Pairs, top: map<int, seq<(int, nat)>>, ghost games: set<int>, game: int, records: Pairs)
    returns (records': Pairs)
    requires Grouped(pairs, top) && TableOf(pairs, records, games, MAX_SIMILAR_PER_GAME) && game !in games
    ensures TableOf(pairs, records', games + {game}, MAX_SIMILAR_PER_GAME)
  {
    assert ListsRow(pairs, top, game);
    ghost var ranked;
    records', ranked := AppendTop(records, Row(pairs, game), game, ItemsOf(top, game));
    TableNext(pairs, records, games, game, ranked, MAX_SIMILAR_PER_GAME);
  }

  method BuildRecords(ghost pairs: Pairs, top: map<int, seq<(int, nat)>>) returns (records: Pairs)
    requires Grouped(pairs, top)
    ensures IsTopTable(pairs, records, MAX_SIMILAR_PER_GAME)
  {
    records := map[];
    var rest := top.Keys;
    ghost var games: set<int> := {};
    while rest != {}
      invariant games !! rest && games + rest == top.Keys
      invariant TableOf(pairs, records, games, MAX_SIMILAR_PER_GAME)
      decreases rest
    {
      ghost var next := Element(rest);
      var game :| game in rest;
      records := AppendGame(pairs, top, games, game, records);
      rest, games := rest - {game}, games + {game};
    }
    forall g | g !in games ensures Row(pairs, g) == map[] { UnlistedRow(pairs, top, g); }
    TableOfAll(pairs, records, games, MAX_SIMILAR_PER_GAME);
  }

  /** The table `game_similarities`. */
  class SimilarityStore {
    var rows: Pairs

    constructor ()
      ensures rows == map[]
    {
      rows := map[];
    }

    /** Replaces the whole table, in one transaction, by the top rows of every game. */
    method ReplaceGameSimilarities(pairs: Pairs) returns (count: nat)
      modifies this
      ensures IsTopTable(pairs, rows, MAX_SIMILAR_PER_GAME)
      ensures count == |rows|
    {
      var top := GroupByGame(pairs);
      var records := BuildRecords(pairs, top);
      rows := records;
      count := |records|;
    }

    /** The body of a rebuild job: count the log, then replace the table. */
    method Rebuild(log: seq<LogRow>) returns (count: nat)
      modifies this
      ensures IsTopTable(PairScores(Played(log)), rows, MAX_SIMILAR_PER_GAME)
      ensures count == |rows|
    {
      var pairs := BuildSimilarityPairs(log);
      count := ReplaceGameSimilarities(pairs);
    }

    /** The best 50 non-seed partners of the seeds: filter, exclude, group by, max, order, limit. */
    method BuildSimilarityCandidates(seeds: seq<int>) returns (candidates: seq<(int, nat)>)
      ensures AreCandidates(rows, Elements(seeds), candidates)
    {
      if |seeds| == 0 {
        assert IsBest(rows, Elements(seeds), map[]) && IsRanking(map[], [], MAX_RECOMMENDATIONS);
        return [];
      }
      var found: Scores := map[];
      var rest := rows.Keys;
      ghost var seen: Pairs := map[];
      while rest != {}
        invariant rest <= rows.Keys && seen.Keys == rows.Keys - rest
        invariant forall p :: p in seen ==> seen[p] == rows[p]
        invariant IsBest(seen, Elements(seeds), found)
        decreases rest
      {
        ghost var next := Element(rest);
        var p :| p in rest;
        rest := rest - {p};
        ghost var before := found;
        if p.0 in seeds && p.1 !in seeds && (p.1 in found ==> found[p.1] < rows[p]) {
          found := found[p.1 := rows[p]];
        }
        BestNext(seen, Elements(seeds), before, p, rows[p], found);
        seen := seen[p := rows[p]];
      }
      assert seen == rows;
      var items := Entries(found);
      RankItems(found, items, MAX_RECOMMENDATIONS);
      candidates := Take(SortDescending(items, ByScore()), MAX_RECOMMENDATIONS);
    }
  }

  lemma BestNext(seen: Pairs, seeds: set<int>, best: Scores, p: (int, int), v: nat, best': Scores)
    requires IsBest(seen, seeds, best) && p !in seen
    requires best' == if p.0 in seeds && p.1 !in seeds && (p.1 in best ==> best[p.1] < v) then best[p.1 := v] else best
    ensures IsBest(seen[p := v], seeds, best')
  {
    var seen' := seen[p := v];
    forall c | c in best' ensures c !in seeds && AttainedBy(seen', seeds, c, best'[c]) {
      if c in best && best'[c] == best[c] {
        var g :| g in seeds && (g, c) in seen && seen[(g, c)] == best[c];
        assert (g, c) in seen' && seen'[(g, c)] == best[c];
        assert AttainedBy(seen', seeds, c, best'[c]);
      } else {
        var g := p.0;
        assert p == (g, c);
        assert g in seeds && (g, c) in seen' && seen'[(g, c)] == v;
        assert AttainedBy(seen', seeds, c, best'[c]);
      }
    }
    forall g, c | g in seeds && c !in seeds && (g, c) in seen' ensures c in best' && seen'[(g, c)] <= best'[c] {
      if (g, c) != p { assert (g, c) in seen; }
    }
  }

  // ----- the result for the whole pipeline -----

  /** A table rebuilt from a log, and the candidates of some seeds in the full matrix of that
      log and in the table. */
  ghost predicate AfterRebuild(
      log: seq<LogRow>, rows: Pairs, seeds: set<int>, full: seq<(int, nat)>, stored: seq<(int, nat)>)
  {
    && IsTopTable(PairScores(Played(log)), rows, MAX_SIMILAR_PER_GAME)
    && AreCandidates(PairScores(Played(log)), seeds, full)
    && AreCandidates(rows, seeds, stored)
  }

  /** After a rebuild from any log: the first 51 - s candidate scores read from the stored
      table are the first 51 - s scores of the full matrix of that log. */
  lemma RebuiltTableSuffices(
      log: seq<LogRow>, rows: Pairs, seeds: set<int>, full: seq<(int, nat)>, stored: seq<(int, nat)>, i: nat)
    requires AfterRebuild(log, rows, seeds, full, stored)
    requires i < 51 - |seeds| && i < |full|
    ensures i < |stored| && stored[i].1 == full[i].1
  {
    var pairs := PairScores(Played(log));
    NoSelfPairStored(Played(log));
    var best :| IsBest(pairs, seeds, best) && IsRanking(best, full, MAX_RECOMMENDATIONS);
    var tab :| IsBest(rows, seeds, tab) && IsRanking(tab, stored, MAX_RECOMMENDATIONS);
    TruncationLosesNothing(pairs, rows, seeds, best, tab, full, stored, MAX_SIMILAR_PER_GAME, i);
  }

  lemma NoSelfPairStored(played: set<(int, int)>)
    ensures NoSelfPair(PairScores(played))
  {
    forall p | p in PairScores(played) ensures p.0 != p.1 {
      assert p == (p.0, p.1);
      StoredScores(played, p.0, p.1);
    }
  }
}
