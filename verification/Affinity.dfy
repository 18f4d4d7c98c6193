/** Saving and reacting to games: a mutable affinity row that must agree with its log. */
module Affinity {
  import opened Wrappers
  import opened InteractionLog

  datatype GameAffinity = GameAffinity(isSaved: bool, likeState: int, lastInteractedAt: int)

  datatype AffinityError = InvalidReaction

  /** One call: `isSaved` and `reaction` are optional. */
  datatype Call = Call(user: int, game: int, source: string, isSaved: Option<bool>, reaction: Option<string>, now: int)

  type Key = (int, int)

  /** The affinity rows and the shared log. */
  datatype State = State(rows: map<Key, GameAffinity>, log: seq<LogRow>)

  function KeyOf(c: Call): Key {
    (c.user, c.game)
  }

  /** The state a reaction asks for, if it is a known one. */
  function ReactionState(reaction: string): Option<int> {
    if reaction == "like" then Some(1)
    else if reaction == "neutral" then Some(0)
    else if reaction == "dislike" then Some(-1)
    else None
  }

  /** The action logged for a reaction, under the same name. */
  function ReactionAction(state: int): ActionType {
    if state == 1 then Like else if state == 0 then Neutral else Dislike
  }

  /** The state a logged reaction stands for. */
  function ActionState(action: ActionType): Option<int> {
    match action
    case Like => Some(1)
    case Neutral => Some(0)
    case Dislike => Some(-1)
    case _ => None
  }

  function Row(c: Call, action: ActionType): LogRow {
    LogRow(c.user, Some(c.game), action, c.source, None, None, None, c.now)
  }

  // ----- one call -----

  function Ensured(s: State, c: Call): State {
    if KeyOf(c) in s.rows then s else s.(rows := s.rows[KeyOf(c) := GameAffinity(false, 0, c.now)])
  }

  function Reacted(s: State, c: Call): State
    requires KeyOf(c) in s.rows && c.reaction.Some? && ReactionState(c.reaction.value).Some?
  {
    var state, a := ReactionState(c.reaction.value).value, s.rows[KeyOf(c)];
    if a.likeState == state then s
    else State(s.rows[KeyOf(c) := a.(likeState := state, lastInteractedAt := c.now)],
               s.log + [Row(c, ReactionAction(state))])
  }

  function Saved(s: State, c: Call): State
    requires KeyOf(c) in s.rows && c.isSaved.Some?
  {
    var saved, a := c.isSaved.value, s.rows[KeyOf(c)];
    if a.isSaved == saved then s
    else State(s.rows[KeyOf(c) := a.(isSaved := saved, lastInteractedAt := c.now)],
               s.log + [Row(c, if saved then SavedAdd else SavedRemove)])
  }

  predicate Accepted(c: Call) {
    c.reaction.None? || ReactionState(c.reaction.value).Some?
  }

  /** The row is created first, outside the transaction, so a refused reaction leaves it behind. */
  function Apply(s: State, c: Call): State {
    var s1 := Ensured(s, c);
    if !Accepted(c) then s1
    else
      var s2 := if c.reaction.Some? then Reacted(s1, c) else s1;
      if c.isSaved.Some? then Saved(s2, c) else s2
  }

  /** Other services append to the same log; they never write these actions. */
  datatype Event = Update(call: Call) | OtherRow(row: LogRow)

  predicate IsOther(row: LogRow) {
    ActionState(row.action).None? && row.action != SavedAdd && row.action != SavedRemove
  }

  function Run(events: seq<Event>): State {
    if events == [] then State(map[], [])
    else
      var s := Run(events[..|events| - 1]);
      match events[|events| - 1]
      case Update(c) => Apply(s, c)
      case OtherRow(row) => if IsOther(row) then s.(log := s.log + [row]) else s
  }

  // ----- what one call does -----

  /** The three reactions by name, and the log row each one writes. */
  lemma ReactionNames(reaction: string)
    ensures ReactionState("like") == Some(1) && ReactionAction(1) == Like
    ensures ReactionState("neutral") == Some(0) && ReactionAction(0) == Neutral
    ensures ReactionState("dislike") == Some(-1) && ReactionAction(-1) == Dislike
    ensures ReactionState(reaction).Some? <==> reaction == "like" || reaction == "neutral" || reaction == "dislike"
  {}

  /** What the log gains for a reaction. */
  function ReactionRows(c: Call, before: int): seq<LogRow> {
    if c.reaction == Some("like") && before != 1 then [Row(c, Like)]
    else if c.reaction == Some("neutral") && before != 0 then [Row(c, Neutral)]
    else if c.reaction == Some("dislike") && before != -1 then [Row(c, Dislike)]
    else []
  }

  /** What the log gains for saving. */
  function SavedRows(c: Call, before: bool): seq<LogRow> {
    if c.isSaved == Some(true) && !before then [Row(c, SavedAdd)]
    else if c.isSaved == Some(false) && before then [Row(c, SavedRemove)]
    else []
  }

  /** An accepted call sets exactly what it was given, logs exactly what it changed, the reaction
      first, and moves the interaction time exactly then. */
  lemma UpdateCall(s: State, c: Call)
    requires Accepted(c)
    ensures var before := if KeyOf(c) in s.rows then s.rows[KeyOf(c)] else GameAffinity(false, 0, c.now);
            var s', key := Apply(s, c), (c.user, c.game);
            && s'.log == s.log + ReactionRows(c, before.likeState) + SavedRows(c, before.isSaved)
            && key in s'.rows
            && (c.reaction.None? ==> s'.rows[key].likeState == before.likeState)
            && (c.reaction == Some("like") ==> s'.rows[key].likeState == 1)
            && (c.reaction == Some("neutral") ==> s'.rows[key].likeState == 0)
            && (c.reaction == Some("dislike") ==> s'.rows[key].likeState == -1)
            && s'.rows[key].isSaved == (if c.isSaved.Some? then c.isSaved.value else before.isSaved)
            && s'.rows[key].lastInteractedAt == (if s'.log == s.log then before.lastInteractedAt else c.now)
            && forall k :: k != key ==> (k in s'.rows <==> k in s.rows) && (k in s.rows ==> s'.rows[k] == s.rows[k])
  {
    if c.reaction.Some? { ReactionNames(c.reaction.value); }
  }

  lemma RowFields(c: Call, action: ActionType)
    ensures var row := Row(c, action);
            && row.user == c.user && row.game == Some(c.game) && row.action == action && row.source == c.source
            && row.at == c.now && row.weight.None? && row.store.None? && row.query.None?
  {}

  // ----- the log alone determines the row -----

  predicate Concerns(row: LogRow, key: Key) {
    row.user == key.0 && row.game == Some(key.1)
  }

  function SavedStep(action: ActionType): int {
    if action == SavedAdd then 1 else if action == SavedRemove then -1 else 0
  }

  /** Saves minus removals of the key. */
  function SavedBalance(log: seq<LogRow>, key: Key): int {
    if log == [] then 0
    else
      var row := log[|log| - 1];
      SavedBalance(log[..|log| - 1], key)
      + if Concerns(row, key) then SavedStep(row.action) else 0
  }

  /** The value of the last reaction of the key, 0 if there is none. */
  function LastReaction(log: seq<LogRow>, key: Key): int {
    if log == [] then 0
    else
      var row := log[|log| - 1];
      if Concerns(row, key) && ActionState(row.action).Some? then ActionState(row.action).value
      else LastReaction(log[..|log| - 1], key)
  }

  /** Read forwards, a save is only logged when not saved and a removal only when saved, and a
      reaction only when it differs from the one before. */
  ghost predicate Alternates(log: seq<LogRow>, key: Key) {
    forall i :: 0 <= i < |log| ==> AlternatesAt(log, key, i)
  }

  ghost predicate AlternatesAt(log: seq<LogRow>, key: Key, i: int)
    requires 0 <= i < |log|
  {
    Concerns(log[i], key) ==>
      && (log[i].action == SavedAdd ==> SavedBalance(log[..i], key) == 0)
      && (log[i].action == SavedRemove ==> SavedBalance(log[..i], key) == 1)
      && (ActionState(log[i].action).Some? ==> ActionState(log[i].action).value != LastReaction(log[..i], key))
  }

  /** 1 if the row exists and is saved, 0 otherwise. */
  function SavedOf(rows: map<Key, GameAffinity>, key: Key): int {
    if key in rows && rows[key].isSaved then 1 else 0
  }

  /** The reaction the row shows, 0 without a row. */
  function LikeOf(rows: map<Key, GameAffinity>, key: Key): int {
    if key in rows then rows[key].likeState else 0
  }

  ghost predicate Agrees(s: State, key: Key) {
    && Alternates(s.log, key)
    && SavedBalance(s.log, key) == SavedOf(s.rows, key)
    && LastReaction(s.log, key) == LikeOf(s.rows, key)
    && -1 <= LikeOf(s.rows, key) <= 1
  }

  lemma AlternatesSnoc(log: seq<LogRow>, row: LogRow, key: Key)
    requires Alternates(log, key)
    requires Concerns(row, key) ==>
      && (row.action == SavedAdd ==> SavedBalance(log, key) == 0)
      && (row.action == SavedRemove ==> SavedBalance(log, key) == 1)
      && (ActionState(row.action).Some? ==> ActionState(row.action).value != LastReaction(log, key))
    ensures Alternates(log + [row], key)
  {
    var log' := log + [row];
    assert log'[..|log|] == log;
    forall i | 0 <= i < |log'| ensures AlternatesAt(log', key, i) {
      if i < |log| {
        assert AlternatesAt(log, key, i);
        assert log'[..i] == log[..i];
      }
    }
  }

  lemma SnocValues(log: seq<LogRow>, row: LogRow, key: Key)
    ensures SavedBalance(log + [row], key) == SavedBalance(log, key)
      + (if Concerns(row, key) then SavedStep(row.action) else 0)
    ensures LastReaction(log + [row], key) ==
      if Concerns(row, key) && ActionState(row.action).Some? then ActionState(row.action).value
      else LastReaction(log, key)
  {
    assert (log + [row])[..|log|] == log;
  }

  lemma ReactedAgrees(s: State, c: Call, key: Key)
    requires Agrees(s, key) && Agrees(s, KeyOf(c))
    requires KeyOf(c) in s.rows && c.reaction.Some? && ReactionState(c.reaction.value).Some?
    ensures Agrees(Reacted(s, c), key)
  {
    var state := ReactionState(c.reaction.value).value;
    if s.rows[KeyOf(c)].likeState != state {
      var row, rows' := Row(c, ReactionAction(state)), Reacted(s, c).rows;
      assert Concerns(row, key) <==> key == KeyOf(c);
      assert LikeOf(rows', key) == if key == KeyOf(c) then state else LikeOf(s.rows, key);
      LoggedAgrees(s, row, rows', key);
    }
  }

  /** A new log row that the affinity row follows. */
  lemma LoggedAgrees(s: State, row: LogRow, rows': map<Key, GameAffinity>, key: Key)
    requires Agrees(s, key) && -1 <= LikeOf(rows', key) <= 1
    requires SavedOf(rows', key) == SavedOf(s.rows, key) + (if Concerns(row, key) then SavedStep(row.action) else 0)
    requires LikeOf(rows', key) ==
      if Concerns(row, key) && ActionState(row.action).Some? then ActionState(row.action).value else LikeOf(s.rows, key)
    requires Concerns(row, key) && ActionState(row.action).Some? ==> LikeOf(rows', key) != LikeOf(s.rows, key)
    ensures Agrees(State(rows', s.log + [row]), key)
  {
    AlternatesSnoc(s.log, row, key);
    SnocValues(s.log, row, key);
  }

  lemma SavedAgrees(s: State, c: Call, key: Key)
    requires Agrees(s, key) && Agrees(s, KeyOf(c))
    requires KeyOf(c) in s.rows && c.isSaved.Some?
    ensures Agrees(Saved(s, c), key)
  {
    if s.rows[KeyOf(c)].isSaved != c.isSaved.value {
      var row := Row(c, if c.isSaved.value then SavedAdd else SavedRemove);
      assert Concerns(row, key) <==> key == KeyOf(c);
      LoggedAgrees(s, row, Saved(s, c).rows, key);
    }
  }

  lemma ApplyAgrees(s: State, c: Call, key: Key)
    requires Agrees(s, key) && Agrees(s, KeyOf(c))
    ensures Agrees(Apply(s, c), key)
  {
    var s1 := Ensured(s, c);
    if Accepted(c) {
      var s2 := if c.reaction.Some? then Reacted(s1, c) else s1;
      if c.reaction.Some? {
        ReactedAgrees(s1, c, key);
        ReactedAgrees(s1, c, KeyOf(c));
      }
      if c.isSaved.Some? { SavedAgrees(s2, c, key); }
    }
  }

  /** After any run of updates, mixed with rows of other services: the row is saved exactly when
      saves outnumber removals, by one, its reaction is the last one logged, and the key's log
      alternates. */
  lemma {:induction false} AffinityIsFoldOfLog(events: seq<Event>, key: Key)
    ensures Agrees(Run(events), key)
  {
    if events != [] {
      var before := events[..|events| - 1];
      AffinityIsFoldOfLog(before, key);
      match events[|events| - 1]
      case Update(c) =>
        AffinityIsFoldOfLog(before, KeyOf(c));
        ApplyAgrees(Run(before), c, key);
      case OtherRow(row) =>
        if IsOther(row) {
          AlternatesSnoc(Run(before).log, row, key);
          SnocValues(Run(before).log, row, key);
        }
    }
  }

  /** Two reaction rows of a key with no other reaction of the key between them differ, and the
      first reaction of a key is never neutral. */
  lemma ConsecutiveReactionsDiffer(events: seq<Event>, key: Key, i: int, j: int)
    requires var log := Run(events).log;
             && -1 <= i < j < |log| && Concerns(log[j], key) && ActionState(log[j].action).Some?
             && (i >= 0 ==> Concerns(log[i], key) && ActionState(log[i].action).Some?)
             && forall k :: i < k < j ==> !(Concerns(log[k], key) && ActionState(log[k].action).Some?)
    ensures var log := Run(events).log;
            if i >= 0 then log[i].action != log[j].action else log[j].action != Neutral
  {
    var log := Run(events).log;
    AffinityIsFoldOfLog(events, key);
    assert AlternatesAt(log, key, j);
    LastReactionAt(log, key, i, j);
  }

  lemma {:induction false} LastReactionAt(log: seq<LogRow>, key: Key, i: int, j: int)
    requires -1 <= i < j <= |log|
    requires i >= 0 ==> Concerns(log[i], key) && ActionState(log[i].action).Some?
    requires forall k :: i < k < j ==> !(Concerns(log[k], key) && ActionState(log[k].action).Some?)
    ensures LastReaction(log[..j], key) == if i >= 0 then ActionState(log[i].action).value else 0
    decreases j
  {
    if j > 0 {
      assert log[..j][..j - 1] == log[..j - 1] && log[..j][j - 1] == log[j - 1];
      if i < j - 1 { LastReactionAt(log, key, i, j - 1); }
    }
  }

  /** A refused reaction changes nothing if and only if the row was there before: the row is
      created outside the transaction, and stays. */
  lemma RefusalIsIdleIff(s: State, c: Call)
    requires !Accepted(c)
    ensures Apply(s, c) == s <==> KeyOf(c) in s.rows
    ensures Apply(s, c).log == s.log && KeyOf(c) in Apply(s, c).rows
  {
    if KeyOf(c) !in s.rows { assert KeyOf(c) in Apply(s, c).rows; }
  }

  /** A run of one refused call that leaves a row behind, with no log row to account for it. */
  lemma RefusalLeavesRow()
    ensures var c := Call(1, 1, "detail_page", None, Some("love"), 0);
            !Accepted(c) && Run([Update(c)]) == State(map[KeyOf(c) := GameAffinity(false, 0, 0)], [])
  {
    var events := [Update(Call(1, 1, "detail_page", None, Some("love"), 0))];
    assert events[..0] == [];
  }

  /** A call repeated later changes nothing, not even the interaction time. */
  lemma RepeatedCallIsIdle(s: State, c: Call, later: int)
    ensures Apply(Apply(s, c), c.(now := later)) == Apply(s, c)
  {}

  // ----- the imperative form -----

  class AffinityService {
    var rows: map<Key, GameAffinity>
    var log: seq<LogRow>

    ghost function View(): State
      reads this
    {
      State(rows, log)
    }

    constructor ()
      ensures View() == Run([])
    {
      rows, log := map[], [];
    }

    method UpdateGameInteraction(c: Call) returns (r: Result<GameAffinity, AffinityError>)
      modifies this
      ensures View() == Apply(old(View()), c)
      ensures KeyOf(c) in rows
      ensures r == if Accepted(c) then Ok(rows[KeyOf(c)]) else Err(InvalidReaction)
    {
      var key := KeyOf(c);
      if key !in rows { rows := rows[key := GameAffinity(false, 0, c.now)]; }
      var affinity, pending, changed := rows[key], [], false;
      if c.reaction.Some? {
        var newState := ReactionState(c.reaction.value);
        if newState.None? { return Err(InvalidReaction); }
        if affinity.likeState != newState.value {
          affinity := affinity.(likeState := newState.value);
          pending := pending + [Row(c, ReactionAction(newState.value))];
          changed := true;
        }
      }
      if c.isSaved.Some? && affinity.isSaved != c.isSaved.value {
        affinity := affinity.(isSaved := c.isSaved.value);
        pending := pending + [Row(c, if c.isSaved.value then SavedAdd else SavedRemove)];
        changed := true;
      }
      log := log + pending;
      if changed {
        affinity := affinity.(lastInteractedAt := c.now);
        rows := rows[key := affinity];
      }
      r := Ok(affinity);
    }
  }
}
