/** The body of a user refresh job: collect seeds, find candidates, and replace the user's
    recommendations generation by generation.

    The writes run in no enclosing transaction, so a crash can leave any prefix of them. */
module UserRefresh {
  import opened Wrappers
  import opened Lists
  import opened Rounding
  import opened InteractionLog
  import Sim = Similarity
  import opened SimilarityTable

  const MAX_SEED_GAMES := 20
  const MAX_RECENT_LOG_SCAN := 200
  const EXPIRE_SECONDS := 7 * 24 * 3600

  // ----- seeds -----

  /** The games a user touched, most recent first; the log is kept in creation order. */
  function RecentGames(log: seq<LogRow>, user: int): seq<int> {
    if log == [] then []
    else
      var row := log[|log| - 1];
      var rest := RecentGames(log[..|log| - 1], user);
      if row.user == user && row.game.Some? then [row.game.value] + rest else rest
  }

  function CollectSeedGameIds(log: seq<LogRow>, user: int, preferenceSeeds: seq<int>): seq<int> {
    var seeds := Take(Dedup(Take(RecentGames(log, user), MAX_RECENT_LOG_SCAN)), MAX_SEED_GAMES);
    if seeds == [] then preferenceSeeds else seeds
  }

  lemma {:induction false} DedupEmpty<T>(s: seq<T>)
    ensures Dedup(s) == [] <==> s == []
  {}

  /** The seeds are the user's most recently touched distinct games: a duplicate-free prefix of
      the deduplicated history, 20 long as soon as the scanned window holds 20 games. */
  lemma SeedsAreMostRecent(log: seq<LogRow>, user: int, preferenceSeeds: seq<int>)
    requires RecentGames(log, user) != []
    ensures var seeds, history := CollectSeedGameIds(log, user, preferenceSeeds), Dedup(RecentGames(log, user));
            && seeds != [] && seeds <= history && Distinct(seeds) && |Elements(seeds)| <= MAX_SEED_GAMES
            && (|seeds| < MAX_SEED_GAMES ==> seeds == Dedup(Take(RecentGames(log, user), MAX_RECENT_LOG_SCAN)))
  {
    var recent := RecentGames(log, user);
    var window := Take(recent, MAX_RECENT_LOG_SCAN);
    DedupEmpty(window);
    var n := |window|;
    assert window == recent[..n];
    DedupPrefix(recent, n);
    DedupDistinct(window);
    ElementsSize(CollectSeedGameIds(log, user, preferenceSeeds));
  }

  /** Exactly the first 20 different games of the 200 latest rows. */
  lemma SeedsAreTwentyOfTwoHundred(log: seq<LogRow>, user: int, preferenceSeeds: seq<int>)
    requires RecentGames(log, user) != []
    ensures var seeds, recent := CollectSeedGameIds(log, user, preferenceSeeds), RecentGames(log, user);
            var window := if |recent| <= 200 then recent else recent[..200];
            && seeds <= Dedup(window) && |seeds| == Min(20, |Dedup(window)|)
  {
    DedupEmpty(Take(RecentGames(log, user), MAX_RECENT_LOG_SCAN));
  }

  /** at lists the positions of all rows of the user with a game, last first, and recent their games. */
  ghost predicate ListsRows(log: seq<LogRow>, user: int, recent: seq<int>, at: seq<nat>) {
    && |at| == |recent| && (forall i, j :: 0 <= i < j < |at| ==> at[i] > at[j])
    && (forall k :: 0 <= k < |at| ==> at[k] < |log| && log[at[k]].user == user && log[at[k]].game == Some(recent[k]))
    && (forall i :: 0 <= i < |log| && log[i].user == user && log[i].game.Some? ==> i in at)
  }

  lemma ListsNext(log: seq<LogRow>, row: LogRow, user: int, recent: seq<int>, at: seq<nat>)
    requires ListsRows(log, user, recent, at)
    ensures row.user == user && row.game.Some?
            ==> ListsRows(log + [row], user, [row.game.value] + recent, [|log|] + at)
    ensures !(row.user == user && row.game.Some?) ==> ListsRows(log + [row], user, recent, at)
  {
    if row.user == user && row.game.Some? { ListsOneMore(log, row, user, recent, at); }
  }

  lemma ListsOneMore(log: seq<LogRow>, row: LogRow, user: int, recent: seq<int>, at: seq<nat>)
    requires ListsRows(log, user, recent, at) && row.user == user && row.game.Some?
    ensures ListsRows(log + [row], user, [row.game.value] + recent, [|log|] + at)
  {
    var at', recent' := [|log|] + at, [row.game.value] + recent;
    forall k | 0 <= k < |at'| ensures at'[k] < |log| + 1 && (log + [row])[at'[k]].game == Some(recent'[k]) {
      if k > 0 { assert at'[k] == at[k - 1] && recent'[k] == recent[k - 1]; }
    }
    forall i | 0 <= i < |log| && log[i].user == user && log[i].game.Some? ensures i in at' {}
  }

  /** The recent games are those of the user's rows with a game, from the last row to the first. */
  lemma {:induction false} RecentGamesAreOfRows(log: seq<LogRow>, user: int) returns (at: seq<nat>)
    ensures ListsRows(log, user, RecentGames(log, user), at)
  {
    if log == [] {
      at := [];
    } else {
      var n := |log| - 1;
      var rest := RecentGamesAreOfRows(log[..n], user);
      assert log == log[..n] + [log[n]];
      ListsNext(log[..n], log[n], user, RecentGames(log[..n], user), rest);
      at := if log[n].user == user && log[n].game.Some? then [n] + rest else rest;
    }
  }

  /** Without a single played game the seeds come from the preferences. */
  lemma SeedsFallBack(log: seq<LogRow>, user: int, preferenceSeeds: seq<int>)
    requires forall r :: r in log && r.user == user ==> r.game.None?
    ensures CollectSeedGameIds(log, user, preferenceSeeds) == preferenceSeeds
  {
    NoRecentGames(log, user);
  }

  lemma {:induction false} NoRecentGames(log: seq<LogRow>, user: int)
    requires forall r :: r in log && r.user == user ==> r.game.None?
    ensures RecentGames(log, user) == []
  {
    if log != [] {
      assert log[|log| - 1] in log;
      forall r | r in log[..|log| - 1] ensures r in log {}
      NoRecentGames(log[..|log| - 1], user);
    }
  }

  // ----- preference candidates -----

  /** The i-th of n popular games scores 1 - i/n, rounded half to even. */
  function PreferenceCandidates(games: seq<int>): seq<(int, nat)> {
    seq(|games|, i requires 0 <= i < |games| => (games[i], HalfEven(Sim.SCORE_UNIT * (|games| - i), |games|)))
  }

  ghost predicate NonIncreasing(candidates: seq<(int, nat)>) {
    forall i, j :: 0 <= i < j < |candidates| ==> candidates[i].1 >= candidates[j].1
  }

  lemma PreferenceScoresFall(games: seq<int>)
    ensures NonIncreasing(PreferenceCandidates(games))
    ensures games != [] ==> PreferenceCandidates(games)[0].1 == Sim.SCORE_UNIT
  {
    var n, c := |games|, PreferenceCandidates(games);
    forall i, j | 0 <= i < j < n ensures c[i].1 >= c[j].1 {
      HalfEvenIsNearest(Sim.SCORE_UNIT * (n - i), n);
      HalfEvenIsNearest(Sim.SCORE_UNIT * (n - j), n);
      MulLe(Sim.SCORE_UNIT * (n - j), Sim.SCORE_UNIT * (n - i), n);
      HalfEvenMonotone(Sim.SCORE_UNIT * (n - j), n, c[j].1, Sim.SCORE_UNIT * (n - i), n, c[i].1);
    }
    if games != [] {
      assert IsHalfEven(Sim.SCORE_UNIT * n, n, Sim.SCORE_UNIT);
      HalfEvenUnique(Sim.SCORE_UNIT * n, n, Sim.SCORE_UNIT);
    }
  }

  /** Game i of n keeps its place and scores 1 - i/n, rounded half to even to 0.0001. */
  lemma PreferenceScoreOf(games: seq<int>)
    ensures var c := PreferenceCandidates(games);
            && |c| == |games|
            && forall i :: 0 <= i < |games| ==> c[i].0 == games[i] && IsHalfEven(10000 * (|games| - i), |games|, c[i].1)
  {
    forall i | 0 <= i < |games| ensures IsHalfEven(10000 * (|games| - i), |games|, PreferenceCandidates(games)[i].1) {
      HalfEvenIsNearest(10000 * (|games| - i), |games|);
    }
  }

  // ----- the table user_recommendations -----

  datatype Reason = Similarity | Preference | Hybrid

  datatype Key = Key(user: int, game: int, reason: Option<Reason>)

  datatype Recommendation = Recommendation(generation: int, score: int, rank: nat, generatedAt: int, expiresAt: int)

  /** The unique constraint (user, game, reason) makes the table a map. */
  type Table = map<Key, Recommendation>

  function RowAt(generation: int, candidates: seq<(int, nat)>, i: nat, now: int): Recommendation
    requires i < |candidates|
  {
    Recommendation(generation, candidates[i].1, i + 1, now, now + EXPIRE_SECONDS)
  }

  /** The table after the first n writes of an upsert. */
  function Written(
      t: Table, user: int, generation: int, candidates: seq<(int, nat)>, reason: Reason, now: int, n: nat): Table
    requires n <= |candidates|
  {
    if n == 0 then t
    else Written(t, user, generation, candidates, reason, now, n - 1)
           [Key(user, candidates[n - 1].0, Some(reason)) := RowAt(generation, candidates, n - 1, now)]
  }

  function DeleteStale(t: Table, user: int, generation: int, reason: Reason): Table {
    map k | k in t && !(k.user == user && k.reason == Some(reason) && t[k].generation != generation) :: t[k]
  }

  function Upserted(
      t: Table, user: int, generation: int, candidates: seq<(int, nat)>, reason: Reason, now: int): Table
  {
    DeleteStale(Written(t, user, generation, candidates, reason, now, |candidates|), user, generation, reason)
  }

  /** The last position of the game among the first n candidates, or -1. */
  function LastIndex(candidates: seq<(int, nat)>, game: int, n: nat): (i: int)
    requires n <= |candidates|
    ensures -1 <= i < n
    ensures i >= 0 ==> candidates[i].0 == game
    ensures forall j :: i < j < n ==> candidates[j].0 != game
  {
    if n == 0 then -1
    else if candidates[n - 1].0 == game then n - 1
    else LastIndex(candidates, game, n - 1)
  }

  ghost predicate Owned(key: Key, user: int, reason: Reason) {
    key.user == user && key.reason == Some(reason)
  }

  /** Every written row is that of the last occurrence of its game; nothing else changes. */
  lemma {:induction false} WrittenRows(
      t: Table, user: int, generation: int, candidates: seq<(int, nat)>, reason: Reason, now: int, n: nat,
      key: Key)
    requires n <= |candidates|
    ensures var w, i := Written(t, user, generation, candidates, reason, now, n), LastIndex(candidates, key.game, n);
            if Owned(key, user, reason) && i >= 0 then key in w && w[key] == RowAt(generation, candidates, i, now)
            else (key in w <==> key in t) && (key in t ==> w[key] == t[key])
  {
    if n > 0 {
      WrittenRows(t, user, generation, candidates, reason, now, n - 1, key);
      assert key == Key(key.user, key.game, key.reason);
    }
  }

  /** No row of the user carries this generation or a later one: the generation is new. */
  ghost predicate IsNewGeneration(t: Table, user: int, generation: int) {
    forall k :: k in t && k.user == user ==> t[k].generation < generation
  }

  ghost predicate NewForReason(t: Table, user: int, generation: int, reason: Reason) {
    forall k :: k in t && Owned(k, user, reason) ==> t[k].generation < generation
  }

  /** A finished upsert leaves exactly the candidates for its user and reason, each with the
      rank and score of its last occurrence, and touches nobody else. */
  lemma UpsertOutcome(
      t: Table, user: int, generation: int, candidates: seq<(int, nat)>, reason: Reason, now: int, key: Key)
    requires NewForReason(t, user, generation, reason)
    ensures var r := Upserted(t, user, generation, candidates, reason, now);
            var i := LastIndex(candidates, key.game, |candidates|);
            if Owned(key, user, reason)
            then (key in r <==> i >= 0) && (key in r ==> r[key] == RowAt(generation, candidates, i, now))
            else (key in r <==> key in t) && (key in t ==> r[key] == t[key])
  {
    WrittenRows(t, user, generation, candidates, reason, now, |candidates|, key);
  }

  ghost predicate DistinctGames(candidates: seq<(int, nat)>) {
    forall i, j :: 0 <= i < j < |candidates| ==> candidates[i].0 != candidates[j].0
  }

  /** Some row of the user and reason holds rank i + 1. */
  ghost predicate RankTaken(t: Table, user: int, reason: Reason, rank: nat) {
    exists g :: Key(user, g, Some(reason)) in t && t[Key(user, g, Some(reason))].rank == rank
  }

  /** The ranks are exactly 1..n if and only if no candidate game is repeated. */
  lemma RanksCompleteIffDistinct(
      t: Table, user: int, generation: int, candidates: seq<(int, nat)>, reason: Reason, now: int)
    requires NewForReason(t, user, generation, reason)
    ensures var r := Upserted(t, user, generation, candidates, reason, now);
            (forall rank :: 1 <= rank <= |candidates| ==> RankTaken(r, user, reason, rank))
            <==> DistinctGames(candidates)
  {
    var r := Upserted(t, user, generation, candidates, reason, now);
    var n := |candidates|;
    if DistinctGames(candidates) {
      forall rank | 1 <= rank <= n ensures RankTaken(r, user, reason, rank) {
        var key := Key(user, candidates[rank - 1].0, Some(reason));
        UpsertOutcome(t, user, generation, candidates, reason, now, key);
        assert LastIndex(candidates, key.game, n) == rank - 1;
      }
    } else {
      var i, j :| 0 <= i < j < n && candidates[i].0 == candidates[j].0;
      if RankTaken(r, user, reason, i + 1) {
        var g :| Key(user, g, Some(reason)) in r && r[Key(user, g, Some(reason))].rank == i + 1;
        UpsertOutcome(t, user, generation, candidates, reason, now, Key(user, g, Some(reason)));
        assert false;
      }
    }
  }

  // ----- a whole refresh -----

  /** What one run is going to write, and the two clock readings it writes with. */
  datatype Plan = Plan(similar: seq<(int, nat)>, preferred: seq<(int, nat)>, similarAt: int, preferredAt: int) {
    function CandidatesFor(reason: Reason): seq<(int, nat)>
      requires reason != Hybrid
    {
      if reason == Similarity then similar else preferred
    }

    function TimeFor(reason: Reason): int {
      if reason == Similarity then similarAt else preferredAt
    }
  }

  function AfterSimilarity(t: Table, user: int, generation: int, plan: Plan): Table {
    Upserted(t, user, generation, plan.similar, Similarity, plan.similarAt)
  }

  /** The two upserts of one run, under one generation. */
  function Refreshed(t: Table, user: int, generation: int, plan: Plan): Table {
    Upserted(AfterSimilarity(t, user, generation, plan), user, generation, plan.preferred, Preference, plan.preferredAt)
  }

  /** The rows a run writes: this user's, under one of the two reasons. */
  ghost predicate WrittenByRun(key: Key, user: int) {
    key.user == user && key.reason.Some? && key.reason.value != Hybrid
  }

  /** After a run from any table: per reason exactly the candidates, with the new generation. */
  lemma RefreshOutcome(t: Table, user: int, generation: int, plan: Plan, key: Key)
    requires IsNewGeneration(t, user, generation)
    ensures var r := Refreshed(t, user, generation, plan);
            if WrittenByRun(key, user)
            then var c := plan.CandidatesFor(key.reason.value);
                 var i := LastIndex(c, key.game, |c|);
                 && (key in r <==> i >= 0)
                 && (key in r ==> r[key] == RowAt(generation, c, i, plan.TimeFor(key.reason.value)))
            else (key in r <==> key in t) && (key in t ==> r[key] == t[key])
  {
    var mid := AfterSimilarity(t, user, generation, plan);
    UpsertOutcome(t, user, generation, plan.similar, Similarity, plan.similarAt, key);
    forall k | k in mid && Owned(k, user, Preference) ensures mid[k].generation < generation {
      UpsertOutcome(t, user, generation, plan.similar, Similarity, plan.similarAt, k);
    }
    UpsertOutcome(mid, user, generation, plan.preferred, Preference, plan.preferredAt, key);
  }

  /** With falling candidate scores, a better rank never shows a lower score. */
  lemma ScoresFallWithRank(t: Table, user: int, generation: int, plan: Plan, a: Key, b: Key)
    requires IsNewGeneration(t, user, generation)
    requires WrittenByRun(a, user) && WrittenByRun(b, user) && a.reason == b.reason
    requires NonIncreasing(plan.CandidatesFor(a.reason.value))
    requires var r := Refreshed(t, user, generation, plan); a in r && b in r && r[a].rank < r[b].rank
    ensures var r := Refreshed(t, user, generation, plan);
            r[a].score >= r[b].score && r[a].generation == r[b].generation == generation
  {
    RefreshOutcome(t, user, generation, plan, a);
    RefreshOutcome(t, user, generation, plan, b);
  }

  /** After a run the i-th preferred game of a list without repeats stands at rank i + 1 with its
      score, for seven days, and no other game is listed under that reason. */
  lemma PreferenceRowsShown(t: Table, user: int, generation: int, plan: Plan, games: seq<int>, i: nat)
    requires IsNewGeneration(t, user, generation) && plan.preferred == PreferenceCandidates(games)
    requires Distinct(games) && i < |games|
    ensures var r, key := Refreshed(t, user, generation, plan), Key(user, games[i], Some(Preference));
            && key in r && r[key].rank == i + 1 && r[key].generation == generation
            && IsHalfEven(10000 * (|games| - i), |games|, r[key].score)
            && r[key].generatedAt == plan.preferredAt && r[key].expiresAt == plan.preferredAt + 604800
            && forall g :: Key(user, g, Some(Preference)) in r ==> g in games
  {
    PreferenceScoreOf(games);
    var key := Key(user, games[i], Some(Preference));
    RefreshOutcome(t, user, generation, plan, key);
    assert LastIndex(plan.preferred, games[i], |games|) == i;
    forall g | Key(user, g, Some(Preference)) in Refreshed(t, user, generation, plan) ensures g in games {
      RefreshOutcome(t, user, generation, plan, Key(user, g, Some(Preference)));
    }
  }

  /** A similarity row carries its candidate's rank and score, for seven days. */
  lemma SimilarityRowsShown(t: Table, user: int, generation: int, plan: Plan, i: nat)
    requires IsNewGeneration(t, user, generation) && DistinctGames(plan.similar) && i < |plan.similar|
    ensures var r, key := Refreshed(t, user, generation, plan), Key(user, plan.similar[i].0, Some(Similarity));
            && key in r && r[key].rank == i + 1 && r[key].generation == generation
            && r[key].score == plan.similar[i].1
            && r[key].generatedAt == plan.similarAt && r[key].expiresAt == plan.similarAt + 604800
  {
    RefreshOutcome(t, user, generation, plan, Key(user, plan.similar[i].0, Some(Similarity)));
    assert LastIndex(plan.similar, plan.similar[i].0, |plan.similar|) == i;
  }

  /** Where a run can die: some prefix of its writes was made. */
  datatype CrashPoint =
    | WhileWriting(reason: Reason, written: nat)
    | BetweenReasons

  predicate ValidCrash(p: CrashPoint, plan: Plan) {
    p.WhileWriting? ==> p.reason != Hybrid && p.written <= |plan.CandidatesFor(p.reason)|
  }

  /** Every table a run can leave behind when it dies. */
  function Crashed(t: Table, user: int, generation: int, plan: Plan, p: CrashPoint): Table
    requires ValidCrash(p, plan)
  {
    match p
    case BetweenReasons => AfterSimilarity(t, user, generation, plan)
    case WhileWriting(reason, n) =>
      var before := if reason == Similarity then t else AfterSimilarity(t, user, generation, plan);
      Written(before, user, generation, plan.CandidatesFor(reason), reason, plan.TimeFor(reason), n)
  }

  /** A crashed run disturbs no other user and no hybrid row. */
  lemma CrashStaysWithinUser(t: Table, user: int, generation: int, plan: Plan, p: CrashPoint, key: Key)
    requires ValidCrash(p, plan) && !WrittenByRun(key, user)
    ensures var c := Crashed(t, user, generation, plan, p);
            (key in c <==> key in t) && (key in t ==> c[key] == t[key])
  {
    WrittenRows(t, user, generation, plan.similar, Similarity, plan.similarAt, |plan.similar|, key);
    if p.WhileWriting? {
      var before := if p.reason == Similarity then t else AfterSimilarity(t, user, generation, plan);
      WrittenRows(before, user, generation, plan.CandidatesFor(p.reason), p.reason, plan.TimeFor(p.reason),
          p.written, key);
    }
  }

  /** Self-healing: a successful run after a crashed one shows the same games, ranks and scores
      as if the crash had never happened; only the generation number may differ. */
  lemma CrashLeavesNoTrace(
      t: Table, user: int, crashGeneration: int, crashPlan: Plan, p: CrashPoint,
      plan: Plan, direct: int, healed: int, key: Key)
    requires ValidCrash(p, crashPlan)
    requires IsNewGeneration(t, user, direct)
    requires IsNewGeneration(Crashed(t, user, crashGeneration, crashPlan, p), user, healed)
    ensures var uncrashed := Refreshed(t, user, direct, plan);
            var after := Refreshed(Crashed(t, user, crashGeneration, crashPlan, p), user, healed, plan);
            (key in after <==> key in uncrashed)
            && (key in after ==> after[key].(generation := 0) == uncrashed[key].(generation := 0))
  {
    var crashed := Crashed(t, user, crashGeneration, crashPlan, p);
    RefreshOutcome(t, user, direct, plan, key);
    RefreshOutcome(crashed, user, healed, plan, key);
    if !WrittenByRun(key, user) { CrashStaysWithinUser(t, user, crashGeneration, crashPlan, p, key); }
  }

  /** Similarity candidates are distinct and their scores fall. */
  lemma CandidatesAreDistinct(pairs: Pairs, seeds: set<int>, candidates: seq<(int, nat)>)
    requires AreCandidates(pairs, seeds, candidates)
    ensures DistinctGames(candidates) && NonIncreasing(candidates)
  {}

  // ----- from the log to the shown ranks -----

  /** End to end: the row a user sees at rank i + 1 under the similarity reason has the score that
      the full matrix of the log gives to its i-th best candidate, for every i < 51 - s. */
  lemma ShownScoresAreFullScores(
      log: seq<LogRow>, stored: Pairs, seeds: seq<int>, fullRanked: seq<(int, nat)>,
      t: Table, user: int, generation: int, plan: Plan, i: nat)
    requires AfterRebuild(log, stored, Elements(seeds), fullRanked, plan.similar)
    requires IsNewGeneration(t, user, generation)
    requires i < 51 - |Elements(seeds)| && i < |fullRanked|
    ensures i < |plan.similar|
    ensures var r, key := Refreshed(t, user, generation, plan), Key(user, plan.similar[i].0, Some(Similarity));
            key in r && r[key].rank == i + 1 && r[key].score == fullRanked[i].1
  {
    RebuiltTableSuffices(log, stored, Elements(seeds), fullRanked, plan.similar, i);
    CandidatesAreDistinct(stored, Elements(seeds), plan.similar);
    var key := Key(user, plan.similar[i].0, Some(Similarity));
    RefreshOutcome(t, user, generation, plan, key);
    assert LastIndex(plan.similar, key.game, |plan.similar|) == i;
  }

  /** With seeds taken from a user's history, the first 31 ranks always show scores of the full
      matrix at the last rebuild, whatever was logged since. */
  lemma FirstThirtyOneRanksAreExact(
      rebuilt: seq<LogRow>, stored: Pairs, log: seq<LogRow>, preferenceSeeds: seq<int>, fullRanked: seq<(int, nat)>,
      t: Table, user: int, generation: int, plan: Plan, i: nat)
    requires RecentGames(log, user) != [] && i < 31 && i < |fullRanked|
    requires var seeds := Elements(CollectSeedGameIds(log, user, preferenceSeeds));
             AfterRebuild(rebuilt, stored, seeds, fullRanked, plan.similar)
    requires IsNewGeneration(t, user, generation)
    ensures i < |plan.similar|
    ensures var r, key := Refreshed(t, user, generation, plan), Key(user, plan.similar[i].0, Some(Similarity));
            key in r && r[key].rank == i + 1 && r[key].score == fullRanked[i].1
  {
    SeedsAreMostRecent(log, user, preferenceSeeds);
    ShownScoresAreFullScores(rebuilt, stored, CollectSeedGameIds(log, user, preferenceSeeds), fullRanked,
                             t, user, generation, plan, i);
  }

  // ----- the imperative form -----

  class RecommendationTable {
    var rows: Table

    constructor ()
      ensures rows == map[]
    {
      rows := map[];
    }

    /** One more than the largest generation of the user, 1 when the user has no row. */
    method NextGeneration(user: int) returns (generation: int)
      ensures IsNewGeneration(rows, user, generation)
      ensures (forall k :: k in rows ==> k.user != user) ==> generation == 1
      ensures (exists k :: k in rows && k.user == user)
        ==> exists k :: k in rows && k.user == user && rows[k].generation == generation - 1
    {
      var latest: Option<int> := None;
      var rest := rows.Keys;
      while rest != {}
        invariant rest <= rows.Keys
        invariant latest.None? ==> forall k :: k in rows && k !in rest ==> k.user != user
        invariant latest.Some? ==> exists k :: k in rows && k.user == user && rows[k].generation == latest.value
        invariant latest.Some? ==>
                    forall k :: k in rows && k !in rest && k.user == user ==> rows[k].generation <= latest.value
        decreases rest
      {
        ghost var next := Element(rest);
        var k :| k in rest;
        rest := rest - {k};
        if k.user == user && (latest.None? || latest.value < rows[k].generation) {
          latest := Some(rows[k].generation);
        }
      }
      generation := (if latest.None? then 0 else latest.value) + 1;
    }

    method UpsertRecommendations(user: int, generation: int, candidates: seq<(int, nat)>, reason: Reason, now: int)
      modifies this
      ensures rows == Upserted(old(rows), user, generation, candidates, reason, now)
    {
      for i := 0 to |candidates|
        invariant rows == Written(old(rows), user, generation, candidates, reason, now, i)
      {
        var (game, score) := candidates[i];
        var row := Recommendation(generation, score, i + 1, now, now + EXPIRE_SECONDS);
        rows := rows[Key(user, game, Some(reason)) := row];
      }
      rows := DeleteStale(rows, user, generation, reason);
    }

    /** The body of a user refresh job: from the log and the similarity table to the user's rows. */
    method RefreshUser(
        user: int, log: seq<LogRow>, store: SimilarityStore, preferenceSeeds: seq<int>,
        preferenceGames: seq<int>, similarAt: int, preferredAt: int)
      returns (generation: int, ghost plan: Plan)
      modifies this
      ensures IsNewGeneration(old(rows), user, generation)
      ensures AreCandidates(store.rows, Elements(CollectSeedGameIds(log, user, preferenceSeeds)), plan.similar)
      ensures plan.preferred == PreferenceCandidates(preferenceGames) && |plan.preferred| == |preferenceGames|
      ensures forall i :: 0 <= i < |preferenceGames| ==>
                && plan.preferred[i].0 == preferenceGames[i]
                && IsHalfEven(10000 * (|preferenceGames| - i), |preferenceGames|, plan.preferred[i].1)
      ensures rows == Refreshed(old(rows), user, generation, plan)
    {
      generation := NextGeneration(user);
      var seeds := CollectSeedGameIds(log, user, preferenceSeeds);
      var similar := store.BuildSimilarityCandidates(seeds);
      UpsertRecommendations(user, generation, similar, Similarity, similarAt);
      var preferred := PreferenceCandidates(preferenceGames);
      PreferenceScoreOf(preferenceGames);
      UpsertRecommendations(user, generation, preferred, Preference, preferredAt);
      plan := Plan(similar, preferred, similarAt, preferredAt);
    }
  }
}
