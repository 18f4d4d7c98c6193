/** Autocomplete: collect matches from the scans, sort by priority, drop repeats, cut to ten.

    Redis SCAN is a sequence of batches, the last of which brings the cursor back to zero.
    Lower-casing is done before: lower-cased English names and the lower-cased query are inputs. */
module Autocomplete {
  import opened Wrappers
  import opened Lists
  import opened Chosung

  const MAX_RESULTS := 10
  const MAX_SCAN_ITERATIONS := 50

  /** One `games:name_ko:*` entry; `english` is the cached English name of the same id, if any. */
  datatype NameEntry = NameEntry(id: int, fetched: bool, nameKo: string, chosung: string, english: Option<string>)

  /** One `igdb:game:*` entry. */
  datatype CachedGame = CachedGame(id: int, name: string, nameLower: string, nameKo: string, thumbnail: string)

  datatype Item = Item(id: int, name: string, nameKo: string, thumbnail: string)

  datatype Match = Match(priority: int, item: Item)

  /** 3 for a Korean name prefix, 2 for a prefix of its initials, 1 for an English name prefix, 0 for none. */
  function Priority(e: NameEntry, query: string, chosungQuery: string, queryLower: string): int {
    var korean := if e.nameKo != "" && query <= e.nameKo then 3
                  else if chosungQuery != "" && chosungQuery <= e.chosung then 2 else 0;
    if korean == 0 && e.english.Some? && queryLower <= e.english.value then 1 else korean
  }

  /** Which prefix earns which priority: the Korean name first, then its initials, then the English
      name, and otherwise none. */
  lemma PriorityOfPrefix(e: NameEntry, query: string, chosungQuery: string, queryLower: string)
    ensures var p := Priority(e, query, chosungQuery, queryLower);
            var byName := e.nameKo != "" && query <= e.nameKo;
            var byInitials := chosungQuery != "" && chosungQuery <= e.chosung;
            var byEnglish := e.english.Some? && queryLower <= e.english.value;
            && (p == 3 <==> byName) && (p == 2 <==> !byName && byInitials)
            && (p == 1 <==> !byName && !byInitials && byEnglish)
            && (p == 0 <==> !byName && !byInitials && !byEnglish)
  {}

  /** An entry written by the name fetcher carries the normalised initials of its Korean name. */
  predicate Indexed(e: NameEntry) {
    e.chosung == if e.nameKo != "" then Normalized(e.nameKo) else ""
  }

  /** A name-prefix match is always an initials match as well, so asking for the name first
      only ever raises the priority of a match. */
  lemma NameMatchIsChosungMatch(e: NameEntry, query: string)
    requires Indexed(e) && e.nameKo != "" && query <= e.nameKo
    ensures Normalized(query) <= e.chosung
  {
    PrefixNormalizes(query, e.nameKo);
  }

  function MatchOf(e: NameEntry, query: string, chosungQuery: string, queryLower: string): Option<Match> {
    var p := Priority(e, query, chosungQuery, queryLower);
    if !e.fetched || p == 0 then None else Some(Match(p, Item(e.id, "", e.nameKo, "")))
  }

  /** The matches of a batch, in scan order. */
  function MatchesIn(batch: seq<NameEntry>, query: string, queryLower: string): seq<Match> {
    if batch == [] then []
    else
      var m := MatchOf(batch[|batch| - 1], query, Normalized(query), queryLower);
      MatchesIn(batch[..|batch| - 1], query, queryLower) + if m.Some? then [m.value] else []
  }

  function MatchesInAll(batches: seq<seq<NameEntry>>, query: string, queryLower: string): seq<Match> {
    if batches == [] then []
    else
      MatchesInAll(batches[..|batches| - 1], query, queryLower)
      + MatchesIn(batches[|batches| - 1], query, queryLower)
  }

  /** The match of an entry that was fetched and earns a priority. */
  ghost predicate IsMatchOf(e: NameEntry, query: string, queryLower: string, m: Match) {
    && e.fetched && m.priority == Priority(e, query, Normalized(query), queryLower) && m.priority > 0
    && m.item.id == e.id && m.item.nameKo == e.nameKo && m.item.name == "" && m.item.thumbnail == ""
  }

  ghost predicate IsEarnedIn(batch: seq<NameEntry>, query: string, queryLower: string, m: Match) {
    exists e :: e in batch && IsMatchOf(e, query, queryLower, m)
  }

  lemma {:induction false} MatchesInBatch(batch: seq<NameEntry>, query: string, queryLower: string, m: Match)
    ensures m in MatchesIn(batch, query, queryLower) <==> IsEarnedIn(batch, query, queryLower, m)
  {
    if batch != [] {
      var n := |batch| - 1;
      MatchesInBatch(batch[..n], query, queryLower, m);
      assert batch == batch[..n] + [batch[n]];
      assert IsMatchOf(batch[n], query, queryLower, m) <==>
             MatchOf(batch[n], query, Normalized(query), queryLower) == Some(m);
    }
  }

  /** A match is collected exactly if some scanned entry earns it. */
  lemma {:induction false} MatchesAreEarned(batches: seq<seq<NameEntry>>, query: string, queryLower: string, m: Match)
    ensures m in MatchesInAll(batches, query, queryLower) <==>
            exists i :: 0 <= i < |batches| && IsEarnedIn(batches[i], query, queryLower, m)
  {
    if batches != [] {
      var n := |batches| - 1;
      MatchesAreEarned(batches[..n], query, queryLower, m);
      MatchesInBatch(batches[n], query, queryLower, m);
      EarnedInOneMore(batches, query, queryLower, m);
    }
  }

  lemma EarnedInOneMore(batches: seq<seq<NameEntry>>, query: string, queryLower: string, m: Match)
    requires batches != []
    ensures var n := |batches| - 1;
            (exists i :: 0 <= i < |batches| && IsEarnedIn(batches[i], query, queryLower, m)) <==>
            (exists i :: 0 <= i < n && IsEarnedIn(batches[..n][i], query, queryLower, m))
            || IsEarnedIn(batches[n], query, queryLower, m)
  {
    var n := |batches| - 1;
    if i :| 0 <= i < n && IsEarnedIn(batches[i], query, queryLower, m) {
      assert IsEarnedIn(batches[..n][i], query, queryLower, m);
    }
  }

  // ----- collecting -----

  method CollectBatch(batch: seq<NameEntry>, query: string, chosungQuery: string, queryLower: string)
    returns (matches: seq<Match>)
    requires chosungQuery == Normalized(query)
    ensures matches == MatchesIn(batch, query, queryLower)
  {
    matches := [];
    for i := 0 to |batch|
      invariant matches == MatchesIn(batch[..i], query, queryLower)
    {
      var e := batch[i];
      assert batch[..i + 1][..i] == batch[..i];
      if !e.fetched { continue; }
      var priority := 0;
      if e.nameKo != "" && query <= e.nameKo {
        priority := 3;
      } else if chosungQuery != "" && chosungQuery <= e.chosung {
        priority := 2;
      }
      if priority == 0 || e.nameKo == "" {
        if e.english.Some? && queryLower <= e.english.value && priority == 0 { priority := 1; }
      }
      if priority == 0 { continue; }
      matches := matches + [Match(priority, Item(e.id, "", e.nameKo, ""))];
    }
    assert batch[..|batch|] == batch;
  }

  /** The scan stops after 50 rounds, at the end of the cursor, or with 50 matches in hand, and
      not before. */
  ghost predicate IsScan(
      batches: seq<seq<NameEntry>>, query: string, queryLower: string, matches: seq<Match>, rounds: nat)
  {
    && rounds <= 50 && rounds <= |batches|
    && matches == MatchesInAll(batches[..rounds], query, queryLower)
    && (rounds < |batches| && rounds < 50 ==> |matches| >= 50)
    && (rounds > 0 ==> |MatchesInAll(batches[..rounds - 1], query, queryLower)| < 50)
  }

  method ScanNames(batches: seq<seq<NameEntry>>, query: string, queryLower: string) returns (matches: seq<Match>)
    ensures exists rounds: nat :: IsScan(batches, query, queryLower, matches, rounds)
  {
    var chosungQuery := GetChosungNormalized(query);
    matches := [];
    var iterations: nat := 0;
    while iterations < MAX_SCAN_ITERATIONS && iterations < |batches|
      invariant iterations <= MAX_SCAN_ITERATIONS && iterations <= |batches|
      invariant matches == MatchesInAll(batches[..iterations], query, queryLower) && |matches| < MAX_RESULTS * 5
      invariant iterations > 0 ==> |MatchesInAll(batches[..iterations - 1], query, queryLower)| < MAX_RESULTS * 5
      decreases |batches| - iterations
    {
      var found := CollectBatch(batches[iterations], query, chosungQuery, queryLower);
      assert batches[..iterations + 1][..iterations] == batches[..iterations];
      matches := matches + found;
      iterations := iterations + 1;
      if |matches| >= MAX_RESULTS * 5 { break; }
    }
    assert IsScan(batches, query, queryLower, matches, iterations);
  }

  function Ids(matches: seq<Match>): set<int> {
    set m | m in matches :: m.item.id
  }

  function MatchOfGame(g: CachedGame): Match {
    Match(1, Item(g.id, g.name, g.nameKo, g.thumbnail))
  }

  /** The first cached game of every id not yet taken whose English name starts with the query. */
  function ExtraIn(games: seq<CachedGame>, queryLower: string, taken: set<int>): seq<Match> {
    if games == [] then []
    else
      var g, before := games[|games| - 1], ExtraIn(games[..|games| - 1], queryLower, taken);
      if g.id in taken || g.id in Ids(before) || !(queryLower <= g.nameLower) then before else before + [MatchOfGame(g)]
  }

  /** Every id is added once, none that was taken, and none whose name matches is left out. */
  lemma {:induction false} ExtraAddsEachOnce(games: seq<CachedGame>, queryLower: string, taken: set<int>)
    ensures IsExtra(games, queryLower, taken, ExtraIn(games, queryLower, taken))
  {
    if games != [] {
      var n := |games| - 1;
      ExtraAddsEachOnce(games[..n], queryLower, taken);
      assert games == games[..n] + [games[n]];
      ExtraNext(games[..n], games[n], queryLower, taken, ExtraIn(games[..n], queryLower, taken));
    }
  }

  ghost predicate IsExtra(games: seq<CachedGame>, queryLower: string, taken: set<int>, extra: seq<Match>) {
    && (forall m :: m in extra ==> ComesFrom(games, queryLower, m) && m.item.id !in taken)
    && (forall i, j :: 0 <= i < j < |extra| ==> extra[i].item.id != extra[j].item.id)
    && (forall g :: g in games && queryLower <= g.nameLower ==> g.id in taken || g.id in Ids(extra))
  }

  ghost predicate ComesFrom(games: seq<CachedGame>, queryLower: string, m: Match) {
    m.priority == 1
    && exists g :: g in games && queryLower <= g.nameLower && m.item.id == g.id && m.item.name == g.name
                   && m.item.nameKo == g.nameKo && m.item.thumbnail == g.thumbnail
  }

  lemma ExtraNext(games: seq<CachedGame>, g: CachedGame, queryLower: string, taken: set<int>, before: seq<Match>)
    requires IsExtra(games, queryLower, taken, before)
    ensures g.id in taken || g.id in Ids(before) || !(queryLower <= g.nameLower)
            ==> IsExtra(games + [g], queryLower, taken, before)
    ensures g.id !in taken && g.id !in Ids(before) && queryLower <= g.nameLower
            ==> IsExtra(games + [g], queryLower, taken, before + [MatchOfGame(g)])
  {
    forall m | ComesFrom(games, queryLower, m) ensures ComesFrom(games + [g], queryLower, m) {
      var h :| h in games && queryLower <= h.nameLower && m.item.id == h.id && m.item.name == h.name
               && m.item.nameKo == h.nameKo && m.item.thumbnail == h.thumbnail;
      assert h in games + [g];
    }
    if g.id !in taken && g.id !in Ids(before) && queryLower <= g.nameLower {
      ExtraAdded(games, g, queryLower, taken, before);
    }
  }

  lemma ExtraAdded(games: seq<CachedGame>, g: CachedGame, queryLower: string, taken: set<int>, before: seq<Match>)
    requires IsExtra(games, queryLower, taken, before)
    requires g.id !in taken && g.id !in Ids(before) && queryLower <= g.nameLower
    requires forall m :: ComesFrom(games, queryLower, m) ==> ComesFrom(games + [g], queryLower, m)
    ensures IsExtra(games + [g], queryLower, taken, before + [MatchOfGame(g)])
  {
    assert g in games + [g] && ComesFrom(games + [g], queryLower, MatchOfGame(g));
    IdsSnoc(before, MatchOfGame(g));
    forall i | 0 <= i < |before| ensures before[i].item.id != g.id { assert before[i] in before; }
  }

  function Joined(batches: seq<seq<CachedGame>>): seq<CachedGame> {
    if batches == [] then [] else Joined(batches[..|batches| - 1]) + batches[|batches| - 1]
  }

  /** Stops after 50 rounds, at the end of the cursor, or once a round has brought the tenth. */
  ghost predicate IsEnrichment(
      batches: seq<seq<CachedGame>>, queryLower: string, taken: set<int>, extra: seq<Match>, rounds: nat)
  {
    && rounds <= 50 && rounds <= |batches|
    && extra == ExtraIn(Joined(batches[..rounds]), queryLower, taken)
    && (rounds < |batches| && rounds < 50 ==> |extra| >= 10)
    && (rounds > 0 ==> |ExtraIn(Joined(batches[..rounds - 1]), queryLower, taken)| < 10)
  }

  /** Adds cached games whose English name matches, each id once and never one already matched. */
  method EnrichWithIgdbCache(batches: seq<seq<CachedGame>>, queryLower: string, matches: seq<Match>)
    returns (extra: seq<Match>)
    ensures exists rounds: nat :: IsEnrichment(batches, queryLower, Ids(matches), extra, rounds)
  {
    extra := [];
    var existing := Ids(matches);
    var iterations, added: nat := 0, 0;
    while iterations < MAX_SCAN_ITERATIONS && added < MAX_RESULTS && iterations < |batches|
      invariant iterations <= MAX_SCAN_ITERATIONS && iterations <= |batches| && added == |extra|
      invariant existing == Ids(matches) + Ids(extra)
      invariant extra == ExtraIn(Joined(batches[..iterations]), queryLower, Ids(matches))
      invariant iterations > 0 ==> |ExtraIn(Joined(batches[..iterations - 1]), queryLower, Ids(matches))| < MAX_RESULTS
      decreases |batches| - iterations
    {
      extra, existing := EnrichFromBatch(batches[iterations], Joined(batches[..iterations]), queryLower,
          Ids(matches), extra, existing);
      assert batches[..iterations + 1][..iterations] == batches[..iterations];
      added := |extra|;
      iterations := iterations + 1;
    }
    assert IsEnrichment(batches, queryLower, Ids(matches), extra, iterations);
  }

  method EnrichFromBatch(
      batch: seq<CachedGame>, ghost earlier: seq<CachedGame>, queryLower: string, ghost taken: set<int>,
      extra: seq<Match>, existing: set<int>)
    returns (extra': seq<Match>, existing': set<int>)
    requires existing == taken + Ids(extra) && extra == ExtraIn(earlier, queryLower, taken)
    ensures existing' == taken + Ids(extra') && extra' == ExtraIn(earlier + batch, queryLower, taken)
  {
    extra', existing' := extra, existing;
    assert earlier + batch[..0] == earlier;
    for k := 0 to |batch|
      invariant existing' == taken + Ids(extra') && extra' == ExtraIn(earlier + batch[..k], queryLower, taken)
    {
      var game := batch[k];
      assert (earlier + batch[..k + 1])[..|earlier| + k] == earlier + batch[..k];
      if game.id in existing' || !(queryLower <= game.nameLower) { continue; }
      IdsSnoc(extra', MatchOfGame(game));
      extra' := extra' + [MatchOfGame(game)];
      existing' := existing' + {game.id};
    }
    assert batch[..|batch|] == batch;
  }

  // ----- ranking -----

  function ByPriority(): Match -> int {
    (m: Match) => m.priority
  }

  /** shown answers the matches: distinct ids, best first, and nothing left out beats anything shown. */
  ghost predicate IsTopShown(matches: seq<Match>, shown: seq<Match>) {
    && (forall i, j :: 0 <= i < j < |shown| ==>
          shown[i].item.id != shown[j].item.id && shown[i].priority >= shown[j].priority)
    && (forall i :: 0 <= i < |shown| ==> shown[i] in matches)
    && |shown| == Min(10, |Ids(matches)|)
    && (forall m, i :: m in matches && 0 <= i < |shown| && (m.item.id !in Ids(shown) || m.item.id == shown[i].item.id)
         ==> m.priority <= shown[i].priority)
  }

  /** Sort, drop later matches of an id already shown, stop at ten. */
  method RankMatches(matches: seq<Match>) returns (shown: seq<Match>)
    ensures IsTopShown(matches, shown)
  {
    var sorted := SortDescending(matches, ByPriority());
    SortDescendingSorts(matches, ByPriority());
    SameElements(matches, sorted);
    ghost var k;
    shown, k := FirstOfEach(sorted);
    CollectedIsTop(matches, sorted, k, shown);
  }

  /** The loop over the sorted matches; k is how many it has looked at. */
  method FirstOfEach(sorted: seq<Match>) returns (shown: seq<Match>, ghost k: nat)
    requires Descending(sorted, ByPriority())
    ensures k <= |sorted| && |shown| <= MAX_RESULTS && (k == |sorted| || |shown| == MAX_RESULTS)
    ensures Collected(sorted[..k], shown)
  {
    var seen: set<int> := {};
    shown, k := [], 0;
    for i := 0 to |sorted|
      invariant k == i && |shown| < MAX_RESULTS && seen == Ids(shown)
      invariant Collected(sorted[..i], shown)
    {
      var m := sorted[i];
      k := i + 1;
      PrefixNotLower(sorted, i);
      CollectedNext(sorted[..i], m, sorted[..i + 1], shown);
      if m.item.id in seen { continue; }
      IdsSnoc(shown, m);
      seen := seen + {m.item.id};
      shown := shown + [m];
      if |shown| >= MAX_RESULTS { break; }
    }
  }

  /** shown holds the first match of every id among the sorted matches seen so far. */
  ghost predicate Collected(done: seq<Match>, shown: seq<Match>) {
    && Ids(shown) == Ids(done)
    && (forall i, j :: 0 <= i < j < |shown| ==>
          shown[i].item.id != shown[j].item.id && shown[i].priority >= shown[j].priority)
    && (forall i :: 0 <= i < |shown| ==> shown[i] in done)
    && (forall m, i :: m in done && 0 <= i < |shown| && m.item.id == shown[i].item.id ==>
          m.priority <= shown[i].priority)
  }

  lemma IdsSnoc(matches: seq<Match>, m: Match)
    ensures Ids(matches + [m]) == Ids(matches) + {m.item.id}
  {
    assert forall x :: x in matches + [m] <==> x in matches || x == m;
  }

  lemma PrefixNotLower(sorted: seq<Match>, k: int)
    requires 0 <= k < |sorted| && Descending(sorted, ByPriority())
    ensures forall m :: m in sorted[..k] ==> m.priority >= sorted[k].priority
  {
    forall m | m in sorted[..k] ensures m.priority >= sorted[k].priority {
      var l :| 0 <= l < k && sorted[..k][l] == m;
      assert ByPriority()(sorted[l]) >= ByPriority()(sorted[k]);
    }
  }

  lemma CollectedRepeat(done: seq<Match>, m: Match, shown: seq<Match>)
    requires Collected(done, shown) && (forall x :: x in done ==> x.priority >= m.priority) && m.item.id in Ids(shown)
    ensures Collected(done + [m], shown)
  {
    IdsSnoc(done, m);
    forall i | 0 <= i < |shown| ensures shown[i] in done + [m] && m.priority <= shown[i].priority {
      assert shown[i] in done;
    }
  }

  lemma CollectedFirst(done: seq<Match>, m: Match, shown: seq<Match>)
    requires Collected(done, shown) && (forall x :: x in done ==> x.priority >= m.priority) && m.item.id !in Ids(shown)
    ensures Collected(done + [m], shown + [m])
  {
    IdsSnoc(done, m);
    IdsSnoc(shown, m);
    FreshId(shown, m.item.id);
    forall x | x in done ensures x.item.id != m.item.id { assert x.item.id in Ids(done); }
    forall i | 0 <= i < |shown| ensures shown[i] in done + [m] && m.priority <= shown[i].priority {
      assert shown[i] in done;
    }
  }

  lemma CollectedNext(done: seq<Match>, m: Match, done': seq<Match>, shown: seq<Match>)
    requires Collected(done, shown) && (forall x :: x in done ==> x.priority >= m.priority) && done' == done + [m]
    ensures Collected(done', if m.item.id in Ids(shown) then shown else shown + [m])
  {
    if m.item.id in Ids(shown) {
      CollectedRepeat(done, m, shown);
    } else {
      CollectedFirst(done, m, shown);
    }
  }

  lemma FreshId(matches: seq<Match>, id: int)
    requires id !in Ids(matches)
    ensures forall i :: 0 <= i < |matches| ==> matches[i].item.id != id
  {
    forall i | 0 <= i < |matches| ensures matches[i].item.id != id {
      assert matches[i] in matches;
    }
  }

  /** A match the loop never reached, or whose id is shown, does not beat a shown one. */
  lemma ShownIsNotBeaten(sorted: seq<Match>, k: int, shown: seq<Match>, m: Match, i: int)
    requires 0 <= k <= |sorted| && Collected(sorted[..k], shown) && Descending(sorted, ByPriority())
    requires m in sorted && 0 <= i < |shown| && (m.item.id !in Ids(shown) || m.item.id == shown[i].item.id)
    ensures m.priority <= shown[i].priority
  {
    var l :| 0 <= l < |sorted| && sorted[l] == m;
    if l < k {
      assert m in sorted[..k];
    } else {
      PrefixNotLower(sorted, l);
      assert sorted[..l][..k] == sorted[..k];
    }
  }

  lemma ShownCount(sorted: seq<Match>, k: int, shown: seq<Match>)
    requires 0 <= k <= |sorted| && Collected(sorted[..k], shown) && |shown| <= MAX_RESULTS
    requires k == |sorted| || |shown| == MAX_RESULTS
    ensures |shown| == Min(MAX_RESULTS, |Ids(sorted)|)
  {
    ShownSize(shown);
    assert forall m :: m in sorted[..k] ==> m in sorted;
    if k == |sorted| { assert sorted[..k] == sorted; }
    SubsetSize(Ids(shown), Ids(sorted));
  }

  lemma CollectedIsTop(matches: seq<Match>, sorted: seq<Match>, k: int, shown: seq<Match>)
    requires 0 <= k <= |sorted| && Collected(sorted[..k], shown) && Descending(sorted, ByPriority())
    requires (forall m :: m in matches <==> m in sorted) && |shown| <= MAX_RESULTS
    requires k == |sorted| || |shown| == MAX_RESULTS
    ensures IsTopShown(matches, shown)
  {
    ShownCount(sorted, k, shown);
    assert Ids(matches) == Ids(sorted);
    forall i | 0 <= i < |shown| ensures shown[i] in matches { assert shown[i] in sorted[..k]; }
    forall m, i | m in matches && 0 <= i < |shown| && (m.item.id !in Ids(shown) || m.item.id == shown[i].item.id)
      ensures m.priority <= shown[i].priority
    {
      ShownIsNotBeaten(sorted, k, shown, m, i);
    }
  }

  lemma {:induction false} ShownSize(shown: seq<Match>)
    requires forall i, j :: 0 <= i < j < |shown| ==> shown[i].item.id != shown[j].item.id
    ensures |Ids(shown)| == |shown|
  {
    var ids := seq(|shown|, i requires 0 <= i < |shown| => shown[i].item.id);
    DistinctSize(ids);
    forall x ensures x in Ids(shown) <==> x in Elements(ids) {
      if x in Ids(shown) {
        var m :| m in shown && m.item.id == x;
        var i :| 0 <= i < |shown| && shown[i] == m;
        assert ids[i] == x;
      }
    }
    assert Ids(shown) == Elements(ids);
  }

  ghost predicate ShowsItems(shown: seq<Match>, results: seq<Item>) {
    |results| == |shown| && forall i :: 0 <= i < |results| ==> results[i] == shown[i].item
  }

  /** The items of the best of everything that the scanned rounds of both caches match. */
  ghost predicate IsAnswer(
      nameBatches: seq<seq<NameEntry>>, gameBatches: seq<seq<CachedGame>>, query: string, queryLower: string,
      named: seq<Match>, extra: seq<Match>, shown: seq<Match>, results: seq<Item>)
  {
    && (exists rounds: nat :: IsScan(nameBatches, query, queryLower, named, rounds))
    && (exists rounds: nat :: IsEnrichment(gameBatches, queryLower, Ids(named), extra, rounds))
    && IsTopShown(named + extra, shown) && ShowsItems(shown, results)
  }

  /** The whole search, from the scans to the shown items. */
  method Search(nameBatches: seq<seq<NameEntry>>, gameBatches: seq<seq<CachedGame>>, query: string, queryLower: string)
    returns (results: seq<Item>)
    ensures exists named, extra, shown :: IsAnswer(nameBatches, gameBatches, query, queryLower, named, extra,
        shown, results)
  {
    var named := ScanNames(nameBatches, query, queryLower);
    var extra := EnrichWithIgdbCache(gameBatches, queryLower, named);
    var shown := RankMatches(named + extra);
    results := ItemsOf(shown);
    assert IsAnswer(nameBatches, gameBatches, query, queryLower, named, extra, shown, results);
  }

  method ItemsOf(shown: seq<Match>) returns (results: seq<Item>)
    ensures ShowsItems(shown, results)
  {
    results := [];
    for i := 0 to |shown|
      invariant |results| == i && forall k :: 0 <= k < i ==> results[k] == shown[k].item
    {
      results := results + [shown[i].item];
    }
  }

  /** Among equal priorities the order of collection survives the sort. */
  lemma EqualPrioritiesKeepOrder(matches: seq<Match>, p: int)
    ensures WithKey(SortDescending(matches, ByPriority()), ByPriority(), p) == WithKey(matches, ByPriority(), p)
  {
    SortDescendingStable(matches, ByPriority(), p);
  }
}
