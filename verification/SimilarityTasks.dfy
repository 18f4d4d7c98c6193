/** The loops of the similarity rebuild task, proved against `Similarity`. */
module SimilarityTasks {
  import opened InteractionLog
  import opened Lists
  import opened Similarity

  /** Reading a `defaultdict(int)`. */
  function Count<K(==)>(m: map<K, nat>, k: K): nat {
    if k in m then m[k] else 0
  }

  ghost predicate Ascending(s: seq<int>) {
    forall i, j :: 0 <= i < j < |s| ==> s[i] < s[j]
  }

  /** `sorted(games)` */
  method Sorted(games: set<int>) returns (ids: seq<int>)
    ensures Ascending(ids)
    ensures forall g :: g in ids <==> g in games
  {
    ids := [];
    var rest := games;
    while rest != {}
      invariant Ascending(ids)
      invariant forall g :: g in ids || g in rest <==> g in games
      invariant forall g, h :: g in ids && h in rest ==> g < h
      decreases rest
    {
      var m := Smallest(rest);
      rest := rest - {m};
      assert forall g :: g in ids + [m] <==> g in ids || g == m;
      assert forall i :: 0 <= i < |ids| ==> ids[i] in ids;
      ids := ids + [m];
    }
  }

  method Smallest(s: set<int>) returns (m: int)
    requires s != {}
    ensures m in s && forall x :: x in s ==> m <= x
  {
    ghost var first := Element(s);
    m :| m in s;
    var rest := s - {m};
    while rest != {}
      invariant rest <= s && m in s
      invariant forall x :: x in s ==> x in rest || m <= x
      decreases rest
    {
      ghost var next := Element(rest);
      var x :| x in rest;
      rest := rest - {x};
      if x < m { m := x; }
    }
  }

  /** The pairs (a, b) of ids with a < b. */
  function OrderedPairs(games: set<int>): set<(int, int)> {
    set a, b | a in games && b in games && a < b :: (a, b)
  }

  /** The dictionary after one increment of every key in done. */
  ghost predicate Counted<K(!new)>(before: map<K, nat>, after: map<K, nat>, done: set<K>) {
    && after.Keys == before.Keys + done
    && forall k :: Count(after, k) == Count(before, k) + (if k in done then 1 else 0)
  }

  lemma CountOne<K(!new)>(before: map<K, nat>, after: map<K, nat>, done: set<K>, k: K)
    requires Counted(before, after, done) && k !in done
    ensures Counted(before, after[k := Count(after, k) + 1], done + {k})
  {}

  method CountGames(ids: seq<int>, userCount: map<int, nat>) returns (userCount': map<int, nat>)
    requires Ascending(ids)
    ensures Counted(userCount, userCount', set g | g in ids)
  {
    userCount' := userCount;
    ghost var done: set<int> := {};
    for i := 0 to |ids|
      invariant done == set g | g in ids[..i]
      invariant Counted(userCount, userCount', done)
    {
      assert ids[i] !in ids[..i] && ids[..i + 1] == ids[..i] + [ids[i]];
      CountOne(userCount, userCount', done, ids[i]);
      userCount' := userCount'[ids[i] := Count(userCount', ids[i]) + 1];
      done := done + {ids[i]};
    }
    assert ids[..|ids|] == ids;
  }

  function PairsWith(a: int, bs: seq<int>): set<(int, int)> {
    set b | b in bs :: (a, b)
  }

  lemma PairsWithSnoc(a: int, bs: seq<int>, b: int)
    ensures PairsWith(a, bs + [b]) == PairsWith(a, bs) + {(a, b)}
    ensures b !in bs ==> (a, b) !in PairsWith(a, bs)
  {
    assert forall x :: x in bs + [b] <==> x in bs || x == b;
    assert b in bs + [b];
  }

  /** The inner loop: game a together with every later game of the same user. */
  method CountPairsWith(a: int, bs: seq<int>, cooc: map<(int, int), nat>) returns (cooc': map<(int, int), nat>)
    requires Ascending(bs)
    ensures Counted(cooc, cooc', PairsWith(a, bs))
  {
    cooc' := cooc;
    ghost var done: set<(int, int)> := {};
    for k := 0 to |bs|
      invariant done == PairsWith(a, bs[..k])
      invariant Counted(cooc, cooc', done)
    {
      var p := (a, bs[k]);
      assert bs[k] !in bs[..k] && bs[..k + 1] == bs[..k] + [bs[k]];
      PairsWithSnoc(a, bs[..k], bs[k]);
      CountOne(cooc, cooc', done, p);
      cooc' := cooc'[p := Count(cooc', p) + 1];
      done := done + {p};
    }
    assert bs[..|bs|] == bs;
  }

  /** The pairs of games with their first game in the list. */
  function PairsFrom(games: set<int>, firsts: seq<int>): set<(int, int)> {
    set p | p in OrderedPairs(games) && p.0 in firsts
  }

  method CountPairs(ids: seq<int>, ghost games: set<int>, cooc: map<(int, int), nat>)
    returns (cooc': map<(int, int), nat>)
    requires Ascending(ids) && forall g :: g in ids <==> g in games
    ensures Counted(cooc, cooc', OrderedPairs(games))
  {
    cooc' := cooc;
    for i := 0 to |ids|
      invariant Counted(cooc, cooc', PairsFrom(games, ids[..i]))
    {
      ghost var mid, done := cooc', PairsFrom(games, ids[..i]);
      cooc' := CountPairsWith(ids[i], ids[i + 1..], cooc');
      NextFirst(ids, games, i);
      CountedTwice(cooc, mid, cooc', done, PairsWith(ids[i], ids[i + 1..]));
    }
    assert ids[..|ids|] == ids;
    assert PairsFrom(games, ids) == OrderedPairs(games);
  }

  lemma CountedTwice<K(!new)>(a: map<K, nat>, b: map<K, nat>, c: map<K, nat>, s: set<K>, t: set<K>)
    requires Counted(a, b, s) && Counted(b, c, t) && s !! t
    ensures Counted(a, c, s + t)
  {}

  lemma NextFirst(ids: seq<int>, games: set<int>, i: nat)
    requires Ascending(ids) && (forall g :: g in ids <==> g in games) && i < |ids|
    ensures PairsFrom(games, ids[..i + 1]) == PairsFrom(games, ids[..i]) + PairsWith(ids[i], ids[i + 1..])
    ensures PairsFrom(games, ids[..i]) !! PairsWith(ids[i], ids[i + 1..])
  {
    var a := ids[i];
    assert ids[..i + 1] == ids[..i] + [a] && a !in ids[..i];
    forall b ensures b in ids[i + 1..] <==> b in games && a < b {
      if b in games && a < b {
        var k :| 0 <= k < |ids| && ids[k] == b;
        assert k > i;
        assert ids[i + 1..][k - i - 1] == b;
      }
    }
  }

  // ----- the three phases of a rebuild -----

  /** The users among `done` who have the game. */
  ghost function Having(userGames: map<int, set<int>>, done: set<int>, game: int): set<int> {
    set u | u in done && u in userGames && game in userGames[u]
  }

  ghost function HavingBoth(userGames: map<int, set<int>>, done: set<int>, a: int, b: int): set<int> {
    Having(userGames, done, a) * Having(userGames, done, b)
  }

  /** Both dictionaries hold exactly the counts of the users processed so far. */
  ghost predicate CountsOf(
      userGames: map<int, set<int>>, done: set<int>, userCount: map<int, nat>, cooc: map<(int, int), nat>)
  {
    && (forall g :: Count(userCount, g) == |Having(userGames, done, g)|)
    && (forall a, b :: a < b ==> Count(cooc, (a, b)) == |HavingBoth(userGames, done, a, b)|)
    && (forall p :: p in cooc ==> p.0 < p.1)
  }

  ghost function GameMap(played: set<(int, int)>): map<int, set<int>> {
    map u | u in Players(played) :: GamesOf(played, u)
  }

  lemma GameMapAdd(played: set<(int, int)>, user: int, game: int)
    ensures GameMap(played + {(user, game)}) == GameMap(played)[user := GamesOf(played, user) + {game}]
    ensures user !in Players(played) ==> GamesOf(played, user) == {}
  {
    var played' := played + {(user, game)};
    assert Players(played') == Players(played) + {user};
    forall u | u in Players(played')
      ensures GamesOf(played', u) == if u == user then GamesOf(played, user) + {game} else GamesOf(played, u)
    {}
    assert GameMap(played').Keys == GameMap(played).Keys + {user};
  }

  /** The distinct games of every user; rows without a game are skipped. */
  method CollectUserGames(log: seq<LogRow>) returns (userGames: map<int, set<int>>)
    ensures userGames == GameMap(Played(log))
  {
    userGames := map[];
    for i := 0 to |log|
      invariant userGames == GameMap(Played(log[..i]))
    {
      var row := log[i];
      assert log[..i + 1] == log[..i] + [row];
      AppendedRow(log[..i], row);
      if row.game.Some? {
        GameMapAdd(Played(log[..i]), row.user, row.game.value);
        var games := if row.user in userGames then userGames[row.user] else {};
        userGames := userGames[row.user := games + {row.game.value}];
      }
    }
    assert log[..|log|] == log;
  }

  lemma HavingNext(userGames: map<int, set<int>>, done: set<int>, u: int, g: int)
    requires u in userGames && u !in done
    ensures Having(userGames, done + {u}, g) == Having(userGames, done, g) + (if g in userGames[u] then {u} else {})
    ensures u !in Having(userGames, done, g)
  {}

  lemma HavingBothNext(userGames: map<int, set<int>>, done: set<int>, u: int, a: int, b: int)
    requires u in userGames && u !in done && a < b
    ensures |HavingBoth(userGames, done + {u}, a, b)| ==
            |HavingBoth(userGames, done, a, b)| + (if (a, b) in OrderedPairs(userGames[u]) then 1 else 0)
  {
    HavingNext(userGames, done, u, a);
    HavingNext(userGames, done, u, b);
    CommonNext(Having(userGames, done, a), Having(userGames, done, b), u, a in userGames[u], b in userGames[u]);
    assert (a, b) in OrderedPairs(userGames[u]) <==> a in userGames[u] && b in userGames[u];
  }

  lemma CommonNext(s: set<int>, t: set<int>, u: int, inS: bool, inT: bool)
    requires u !in s && u !in t
    ensures |(s + (if inS then {u} else {})) * (t + (if inT then {u} else {}))| ==
            |s * t| + (if inS && inT then 1 else 0)
  {
    assert (s + (if inS then {u} else {})) * (t + (if inT then {u} else {})) ==
           s * t + (if inS && inT then {u} else {});
  }

  lemma CountedUser(
      userGames: map<int, set<int>>, done: set<int>, u: int,
      userCount: map<int, nat>, cooc: map<(int, int), nat>, userCount': map<int, nat>, cooc': map<(int, int), nat>)
    requires CountsOf(userGames, done, userCount, cooc) && u in userGames && u !in done
    requires Counted(userCount, userCount', userGames[u]) && Counted(cooc, cooc', OrderedPairs(userGames[u]))
    ensures CountsOf(userGames, done + {u}, userCount', cooc')
  {
    forall g ensures Count(userCount', g) == |Having(userGames, done + {u}, g)| {
      HavingNext(userGames, done, u, g);
    }
    forall a, b | a < b ensures Count(cooc', (a, b)) == |HavingBoth(userGames, done + {u}, a, b)| {
      HavingBothNext(userGames, done, u, a, b);
    }
    forall p | p in cooc' ensures p.0 < p.1 {
      assert p in cooc || p in OrderedPairs(userGames[u]);
    }
  }

  lemma CountsOfNone(userGames: map<int, set<int>>)
    ensures CountsOf(userGames, {}, map[], map[])
  {
    forall g ensures Having(userGames, {}, g) == {} {}
  }

  /** Users in any order, as a dictionary's values come. */
  method CountAll(userGames: map<int, set<int>>) returns (userCount: map<int, nat>, cooc: map<(int, int), nat>)
    ensures CountsOf(userGames, userGames.Keys, userCount, cooc)
  {
    userCount, cooc := map[], map[];
    var rest := userGames.Keys;
    ghost var done: set<int> := {};
    CountsOfNone(userGames);
    while rest != {}
      invariant done !! rest && done + rest == userGames.Keys
      invariant CountsOf(userGames, done, userCount, cooc)
      decreases rest
    {
      ghost var next := Element(rest);
      var u :| u in rest;
      rest := rest - {u};
      var ids := Sorted(userGames[u]);
      assert (set g | g in ids) == userGames[u];
      ghost var c, p := userCount, cooc;
      userCount := CountGames(ids, userCount);
      cooc := CountPairs(ids, userGames[u], cooc);
      CountedUser(userGames, done, u, c, p, userCount, cooc);
      done := done + {u};
    }
  }

  type Scoring = ((int, int)) -> nat

  ghost predicate Symmetric(scoreOf: Scoring) {
    forall p: (int, int) :: scoreOf((p.1, p.0)) == scoreOf(p)
  }

  /** The positive scores that come from the keys in `keys`, in both directions. */
  ghost predicate ScoredBoth(scoreOf: Scoring, keys: set<(int, int)>, scores: map<(int, int), nat>) {
    forall p: (int, int) :: (p in scores <==> scoreOf(p) > 0 && (p in keys || (p.1, p.0) in keys))
             && (p in scores ==> scores[p] == scoreOf(p))
  }

  lemma ScoredNext(scoreOf: Scoring, keys: set<(int, int)>, scores: map<(int, int), nat>, k: (int, int))
    requires ScoredBoth(scoreOf, keys, scores) && Symmetric(scoreOf)
    ensures var s := scoreOf(k);
            ScoredBoth(scoreOf, keys + {k}, if s == 0 then scores else scores[k := s][(k.1, k.0) := s])
  {
    var s := scoreOf(k);
    var scores' := if s == 0 then scores else scores[k := s][(k.1, k.0) := s];
    forall p: (int, int) ensures (p in scores' <==> scoreOf(p) > 0 && (p in keys + {k} || (p.1, p.0) in keys + {k}))
                  && (p in scores' ==> scores'[p] == scoreOf(p)) {
      assert p == (p.0, p.1);
      assert scoreOf((p.1, p.0)) == scoreOf(p);
    }
  }

  /** Both dictionaries hold the set counts. */
  ghost predicate CountsPlayed(played: set<(int, int)>, userCount: map<int, nat>, cooc: map<(int, int), nat>) {
    && (forall g :: Count(userCount, g) == |UsersOf(played, g)|)
    && (forall a, b :: a < b ==> Count(cooc, (a, b)) == Overlap(played, a, b))
    && (forall p :: p in cooc ==> p.0 < p.1)
  }

  method ScorePairs(userCount: map<int, nat>, cooc: map<(int, int), nat>, ghost scoreOf: Scoring)
    returns (scores: map<(int, int), nat>)
    requires Symmetric(scoreOf)
    requires forall p :: p in cooc ==> Cosine(cooc[p], Count(userCount, p.0), Count(userCount, p.1)) == scoreOf(p)
    ensures ScoredBoth(scoreOf, cooc.Keys, scores)
  {
    scores := map[];
    var rest := cooc.Keys;
    ghost var done: set<(int, int)> := {};
    while rest != {}
      invariant rest <= cooc.Keys && done + rest == cooc.Keys
      invariant ScoredBoth(scoreOf, done, scores)
      decreases rest
    {
      ghost var next := Element(rest);
      var p :| p in rest;
      var score := Cosine(cooc[p], Count(userCount, p.0), Count(userCount, p.1));
      ScoredNext(scoreOf, done, scores, p);
      rest, done := rest - {p}, done + {p};
      if score > 0 {
        scores := scores[p := score][(p.1, p.0) := score];
      }
    }
  }

  ghost function ScoreOf(played: set<(int, int)>): Scoring {
    (p: (int, int)) => Score(played, p.0, p.1)
  }

  lemma CountedScores(played: set<(int, int)>, userCount: map<int, nat>, cooc: map<(int, int), nat>)
    requires CountsPlayed(played, userCount, cooc)
    ensures Symmetric(ScoreOf(played))
    ensures forall p :: p in cooc ==>
      Cosine(cooc[p], Count(userCount, p.0), Count(userCount, p.1)) == ScoreOf(played)(p)
  {
    forall p: (int, int) ensures ScoreOf(played)((p.1, p.0)) == ScoreOf(played)(p) {
      ScoreSymmetric(played, p.0, p.1);
    }
    forall p | p in cooc
      ensures Cosine(cooc[p], Count(userCount, p.0), Count(userCount, p.1)) == ScoreOf(played)(p)
    {
      assert p == (p.0, p.1) && cooc[p] == Count(cooc, (p.0, p.1));
    }
  }

  /** The counting loops compute the set definition, whatever the order of the log's rows and users. */
  method BuildSimilarityPairs(log: seq<LogRow>) returns (scores: map<(int, int), nat>)
    ensures scores == PairScores(Played(log))
  {
    var userGames := CollectUserGames(log);
    var userCount, cooc := CountAll(userGames);
    CountsArePlayed(Played(log), userCount, cooc);
    CountedScores(Played(log), userCount, cooc);
    scores := ScorePairs(userCount, cooc, ScoreOf(Played(log)));
    AllPairsScored(Played(log), userCount, cooc, scores);
  }

  lemma CountsArePlayed(played: set<(int, int)>, userCount: map<int, nat>, cooc: map<(int, int), nat>)
    requires CountsOf(GameMap(played), GameMap(played).Keys, userCount, cooc)
    ensures CountsPlayed(played, userCount, cooc)
  {
    var users := GameMap(played).Keys;
    forall g ensures Having(GameMap(played), users, g) == UsersOf(played, g) {
      forall u ensures u in Having(GameMap(played), users, g) <==> u in UsersOf(played, g) {
        assert (u, g) in played <==> u in Players(played) && g in GamesOf(played, u);
      }
    }
    forall a, b | a < b ensures Count(cooc, (a, b)) == Overlap(played, a, b) {
      assert HavingBoth(GameMap(played), users, a, b) == UsersOf(played, a) * UsersOf(played, b);
    }
  }

  lemma PositivePairCounted(
      played: set<(int, int)>, cooc: map<(int, int), nat>, userCount: map<int, nat>, a: int, b: int)
    requires CountsPlayed(played, userCount, cooc) && Score(played, a, b) > 0
    ensures (a, b) in cooc || (b, a) in cooc
  {
    ScoreNeedsOverlap(played, a, b);
    ScoreSymmetric(played, a, b);
    ScoreNeedsOverlap(played, b, a);
    if a < b {
      assert Count(cooc, (a, b)) > 0;
    } else if b < a {
      assert Count(cooc, (b, a)) > 0;
    }
  }

  lemma AllPairsScored(
      played: set<(int, int)>, userCount: map<int, nat>, cooc: map<(int, int), nat>,
      scores: map<(int, int), nat>)
    requires CountsPlayed(played, userCount, cooc) && ScoredBoth(ScoreOf(played), cooc.Keys, scores)
    ensures scores == PairScores(played)
  {
    forall p ensures p in scores <==> p in PairScores(played)
             ensures p in scores ==> scores[p] == PairScores(played)[p] {
      StoredWhenPositive(played, p.0, p.1);
      if Score(played, p.0, p.1) > 0 { PositivePairCounted(played, cooc, userCount, p.0, p.1); }
    }
  }
}
