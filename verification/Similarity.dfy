/** Collaborative filtering: from the interaction log to quantised cosine scores.

    The nested counting loops of the rebuild task are proved against set definitions, so the
    scores depend only on which user touched which game. Scores are integers in units of
    1/10000; exact arithmetic replaces the floating-point square root. */
module Similarity {
  import opened InteractionLog
  import opened Rounding
  import opened Lists

  const SCORE_UNIT := 10000

  // ----- the specification: sets of users -----

  /** The (user, game) pairs of the log; rows without a game are skipped. */
  function Played(log: seq<LogRow>): set<(int, int)> {
    set r | r in log && r.game.Some? :: (r.user, r.game.value)
  }

  function UsersOf(played: set<(int, int)>, game: int): set<int> {
    set p | p in played && p.1 == game :: p.0
  }

  function GamesOf(played: set<(int, int)>, user: int): set<int> {
    set p | p in played && p.0 == user :: p.1
  }

  function Players(played: set<(int, int)>): set<int> {
    set p | p in played :: p.0
  }

  function Games(played: set<(int, int)>): set<int> {
    set p | p in played :: p.1
  }

  function Overlap(played: set<(int, int)>, a: int, b: int): nat {
    |UsersOf(played, a) * UsersOf(played, b)|
  }

  /** 10000 * overlap / sqrt(countA * countB), rounded half to even. */
  function Cosine(overlap: nat, countA: nat, countB: nat): nat {
    if countA * countB == 0 then 0 else RootQuotient(SCORE_UNIT * overlap, countA * countB)
  }

  /** The similarity of two games; 0 stands for "no pair stored". */
  function Score(played: set<(int, int)>, a: int, b: int): nat {
    if a == b then 0
    else Cosine(Overlap(played, a, b), |UsersOf(played, a)|, |UsersOf(played, b)|)
  }

  /** What the rebuild computes: every positive score, in both directions. */
  function PairScores(played: set<(int, int)>): map<(int, int), nat> {
    map a, b | a in Games(played) && b in Games(played) && Score(played, a, b) > 0
      :: (a, b) := Score(played, a, b)
  }

  // ----- score arithmetic -----

  lemma OverlapBounds(played: set<(int, int)>, a: int, b: int)
    ensures Overlap(played, a, b) <= |UsersOf(played, a)|
    ensures Overlap(played, a, b) <= |UsersOf(played, b)|
  {
    SubsetSize(UsersOf(played, a) * UsersOf(played, b), UsersOf(played, a));
    SubsetSize(UsersOf(played, a) * UsersOf(played, b), UsersOf(played, b));
  }

  /** No overlap gives no score. */
  lemma CosineZero(countA: nat, countB: nat)
    ensures Cosine(0, countA, countB) == 0
  {
    if countA * countB > 0 {
      assert IsRootQuotient(0, countA * countB, 0);
      RootQuotientUnique(0, countA * countB, 0);
    }
  }

  lemma CosineAtMostOne(overlap: nat, countA: nat, countB: nat)
    requires overlap <= countA && overlap <= countB
    ensures Cosine(overlap, countA, countB) <= SCORE_UNIT
  {
    if countA * countB > 0 {
      CosineFull(countA);
      CosineMonotone(overlap, countA, countB, countA, countA, countA) by {
        assert overlap * overlap <= countA * countB by {
          MulLe(overlap, countA, overlap);
          MulLe(overlap, countB, countA);
        }
        MulLe(overlap * overlap, countA * countB, countA * countA);
      }
    }
  }

  /** Two games with the same n > 0 users score exactly 1.0000. */
  lemma CosineFull(n: nat)
    requires n > 0
    ensures Cosine(n, n, n) == SCORE_UNIT
  {
    var x := SCORE_UNIT * n;
    MulLt(0, n, n);
    assert Sq(x) == Sq(SCORE_UNIT) * (n * n);
    SqLt(2 * SCORE_UNIT - 1, 2 * SCORE_UNIT);
    SqLt(2 * SCORE_UNIT, 2 * SCORE_UNIT + 1);
    SqDouble(SCORE_UNIT, n * n);
    MulLt(Sq(2 * SCORE_UNIT - 1), Sq(2 * SCORE_UNIT), n * n);
    MulLt(Sq(2 * SCORE_UNIT), Sq(2 * SCORE_UNIT + 1), n * n);
    assert IsRootQuotient(x, n * n, SCORE_UNIT);
    RootQuotientUnique(x, n * n, SCORE_UNIT);
  }

  /** The quantised score respects the order of the exact cosines. */
  lemma CosineMonotone(o: nat, a: nat, b: nat, o': nat, a': nat, b': nat)
    requires a * b > 0 && a' * b' > 0
    requires (o * o) * (a' * b') <= (o' * o') * (a * b)
    ensures Cosine(o, a, b) <= Cosine(o', a', b')
  {
    var x, x', n, n' := SCORE_UNIT * o, SCORE_UNIT * o', a * b, a' * b';
    var u := Sq(SCORE_UNIT);
    assert Sq(x) == u * (o * o) && Sq(x') == u * (o' * o');
    MulAssoc(u, o * o, n');
    MulAssoc(u, o' * o', n);
    RootQuotientIsNearest(x, n);
    RootQuotientIsNearest(x', n');
    RootQuotientMonotone(x, n, RootQuotient(x, n), x', n', RootQuotient(x', n'));
  }

  lemma ScoreSymmetric(played: set<(int, int)>, a: int, b: int)
    ensures Score(played, a, b) == Score(played, b, a)
  {
    assert UsersOf(played, a) * UsersOf(played, b) == UsersOf(played, b) * UsersOf(played, a);
    MulAssoc(1, |UsersOf(played, a)|, |UsersOf(played, b)|);
  }

  lemma NoOverlapNoScore(played: set<(int, int)>, a: int, b: int)
    requires Overlap(played, a, b) == 0
    ensures Score(played, a, b) == 0
  {
    CosineZero(|UsersOf(played, a)|, |UsersOf(played, b)|);
  }

  lemma OverlapInGames(played: set<(int, int)>, a: int, b: int)
    requires Overlap(played, a, b) > 0
    ensures a in Games(played) && b in Games(played)
    ensures UsersOf(played, a) * UsersOf(played, b) != {}
  {
    var common := UsersOf(played, a) * UsersOf(played, b);
    assert common != {};
    var u := Element(common);
    assert (u, a) in played && (u, b) in played;
  }

  /** A positive score needs a common player, so both games are in the log. */
  lemma ScoreNeedsOverlap(played: set<(int, int)>, a: int, b: int)
    requires Score(played, a, b) > 0
    ensures Overlap(played, a, b) > 0 && a in Games(played) && b in Games(played)
  {
    if Overlap(played, a, b) == 0 {
      NoOverlapNoScore(played, a, b);
    } else {
      OverlapInGames(played, a, b);
    }
  }

  /** A pair is stored exactly when its score is positive. */
  lemma StoredWhenPositive(played: set<(int, int)>, a: int, b: int)
    ensures (a, b) in PairScores(played) <==> Score(played, a, b) > 0
    ensures (a, b) in PairScores(played) ==> PairScores(played)[(a, b)] == Score(played, a, b)
  {
    if Score(played, a, b) > 0 { ScoreNeedsOverlap(played, a, b); }
  }

  lemma PositiveCosine(overlap: nat, countA: nat, countB: nat)
    requires overlap <= countA && overlap <= countB && Cosine(overlap, countA, countB) > 0
    ensures countA * countB > 0
    ensures IsRootQuotient(SCORE_UNIT * overlap, countA * countB, Cosine(overlap, countA, countB))
    ensures Cosine(overlap, countA, countB) <= SCORE_UNIT
  {
    CosineAtMostOne(overlap, countA, countB);
    RootQuotientIsNearest(SCORE_UNIT * overlap, countA * countB);
  }

  lemma SamePlayersFullScore(played: set<(int, int)>, a: int, b: int)
    requires Score(played, a, b) > 0 && UsersOf(played, a) == UsersOf(played, b)
    ensures Score(played, a, b) == SCORE_UNIT
  {
    ScoreNeedsOverlap(played, a, b);
    assert UsersOf(played, a) * UsersOf(played, b) == UsersOf(played, a);
    CosineFull(|UsersOf(played, a)|);
  }

  /** The score arithmetic of the stored table, for every log. */
  lemma StoredScores(played: set<(int, int)>, a: int, b: int)
    requires (a, b) in PairScores(played)
    ensures var overlap, n := Overlap(played, a, b), |UsersOf(played, a)| * |UsersOf(played, b)|;
            n > 0 && IsRootQuotient(SCORE_UNIT * overlap, n, PairScores(played)[(a, b)])
    ensures 0 < PairScores(played)[(a, b)] <= SCORE_UNIT
    ensures a != b
    ensures (b, a) in PairScores(played) && PairScores(played)[(b, a)] == PairScores(played)[(a, b)]
    ensures UsersOf(played, a) == UsersOf(played, b) ==> PairScores(played)[(a, b)] == SCORE_UNIT
  {
    StoredWhenPositive(played, a, b);
    StoredWhenPositive(played, b, a);
    ScoreSymmetric(played, a, b);
    OverlapBounds(played, a, b);
    PositiveCosine(Overlap(played, a, b), |UsersOf(played, a)|, |UsersOf(played, b)|);
    if UsersOf(played, a) == UsersOf(played, b) { SamePlayersFullScore(played, a, b); }
  }

  // ----- how similarity evolves -----

  /** One more common user outweighs one more user of b, because the overlap is at most |b|. */
  lemma MoreOverlap(o: nat, ca: nat, cb: nat)
    requires o <= cb && 0 < ca && 0 < cb
    ensures ca * cb > 0 && ca * (cb + 1) > 0
    ensures (o * o) * (ca * (cb + 1)) <= ((o + 1) * (o + 1)) * (ca * cb)
  {
    MulLt(0, ca, cb);
    MulLt(0, ca, cb + 1);
    var l, r := (o * o) * (cb + 1), ((o + 1) * (o + 1)) * cb;
    assert l <= r by {
      assert l == (o * o) * cb + o * o;
      assert r == (o * o) * cb + (2 * o + 1) * cb by {
        assert (o + 1) * (o + 1) == o * o + (2 * o + 1);
      }
      MulLe(o, cb, 2 * o + 1);
      assert o * (2 * o + 1) == 2 * (o * o) + o;
    }
    MulLe(l, r, ca);
    MulAssoc(o * o, ca, cb + 1);
    MulAssoc((o + 1) * (o + 1), ca, cb);
    MulAssoc(o * o, cb + 1, ca);
    MulAssoc((o + 1) * (o + 1), cb, ca);
  }

  /** User u, who also has a, brings b one more user and the pair one more common user. */
  lemma CosineGains(o: nat, ca: nat, cb: nat)
    requires o <= ca && o <= cb
    ensures Cosine(o, ca, cb) <= Cosine(o + 1, ca, cb + 1)
  {
    if ca > 0 && cb > 0 {
      MoreOverlap(o, ca, cb);
      CosineMonotone(o, ca, cb, o + 1, ca, cb + 1);
    }
  }

  /** User u, who does not have a, only widens b. */
  lemma CosineLoses(o: nat, ca: nat, cb: nat)
    requires o <= ca && o <= cb
    ensures Cosine(o, ca, cb + 1) <= Cosine(o, ca, cb)
  {
    if ca > 0 && cb > 0 {
      assert ca * (cb + 1) == ca * cb + ca;
      MulLt(0, ca, cb);
      MulAssoc(o, o, ca * cb);
      MulLe(ca * cb, ca * (cb + 1), o * o);
      CosineMonotone(o, ca, cb + 1, o, ca, cb);
    } else {
      assert o == 0;
      CosineZero(ca, cb + 1);
    }
  }

  lemma UsersAfter(played: set<(int, int)>, u: int, b: int, c: int)
    requires (u, b) !in played
    ensures var users' := UsersOf(played + {(u, b)}, c);
            && users' == (if c == b then UsersOf(played, b) + {u} else UsersOf(played, c))
            && u !in UsersOf(played, b)
  {}

  lemma OverlapAfter(played: set<(int, int)>, u: int, b: int, a: int)
    requires (u, b) !in played && a != b
    ensures Overlap(played + {(u, b)}, a, b) == Overlap(played, a, b) + (if (u, a) in played then 1 else 0)
  {
    UsersAfter(played, u, b, a);
    UsersAfter(played, u, b, b);
    var ua, ub := UsersOf(played, a), UsersOf(played, b);
    assert u in ua <==> (u, a) in played;
    assert ua * (ub + {u}) == ua * ub + (if u in ua then {u} else {});
  }

  /** User u touches game b for the first time: the pair (a, b) moves up if u has a and down
      if not, and no pair without b moves. */
  lemma SimilarityEvolves(played: set<(int, int)>, u: int, b: int, a: int)
    requires (u, b) !in played && a != b
    ensures (u, a) in played ==> Score(played, a, b) <= Score(played + {(u, b)}, a, b)
    ensures (u, a) !in played ==> Score(played + {(u, b)}, a, b) <= Score(played, a, b)
    ensures forall c :: c != b ==> Score(played + {(u, b)}, a, c) == Score(played, a, c)
  {
    UsersAfter(played, u, b, a);
    UsersAfter(played, u, b, b);
    OverlapAfter(played, u, b, a);
    OverlapBounds(played, a, b);
    CosineGains(Overlap(played, a, b), |UsersOf(played, a)|, |UsersOf(played, b)|);
    CosineLoses(Overlap(played, a, b), |UsersOf(played, a)|, |UsersOf(played, b)|);
    forall c | c != b ensures Score(played + {(u, b)}, a, c) == Score(played, a, c) {
      UsersAfter(played, u, b, c);
    }
  }

  /** Appending one row to the log: a pair the user already had changes nothing; a new game b of
      user u raises or keeps its score with the games u has, lowers or keeps it with the others,
      and leaves every pair without b alone. */
  lemma AppendedRowMovesScores(log: seq<LogRow>, row: LogRow, a: int)
    requires row.game.Some? && a != row.game.value
    ensures var before, after, u, b := Played(log), Played(log + [row]), row.user, row.game.value;
            && ((u, b) in before ==> after == before)
            && ((u, b) !in before && (u, a) in before ==> Score(before, a, b) <= Score(after, a, b))
            && ((u, b) !in before && (u, a) !in before ==> Score(after, a, b) <= Score(before, a, b))
            && (forall c :: c != b ==> Score(after, a, c) == Score(before, a, c))
  {
    AppendedRow(log, row);
    var before, u, b := Played(log), row.user, row.game.value;
    if (u, b) in before {
      assert before + {(u, b)} == before;
    } else {
      SimilarityEvolves(before, u, b, a);
    }
  }

  /** Log rows act only through the (user, game) pair they add, so order and repeats are lost. */
  lemma AppendedRow(log: seq<LogRow>, row: LogRow)
    ensures Played(log + [row]) ==
            if row.game.Some? then Played(log) + {(row.user, row.game.value)} else Played(log)
  {
    assert forall r :: r in log + [row] <==> r in log || r == row;
  }
}
