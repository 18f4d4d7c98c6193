/** Recording views, searches and store clicks with a cooldown and a repeat decay.

    The three source functions differ only in which columns make up the cooldown key and the
    coarser repeat key, so one recorder serves all three actions. Weights are exact integers:
    base and multiplier in hundredths, decay in thousandths, the weight in units of 0.0001.
    Times are integers of one clock tick. */
module InteractionRecorder {
  import opened Wrappers
  import opened Lists
  import opened Rounding
  import opened InteractionLog

  const MAX_EFFECTIVE_REPEAT_COUNT := 10

  datatype WeightRule = WeightRule(base: int, cooldown: int, decay: int, isActive: bool)

  /** Active weight rules by action, multipliers by source, and the known stores. */
  datatype Rules = Rules(weights: map<ActionType, WeightRule>, multipliers: map<string, int>, stores: set<int>)

  datatype RecordError = ValidationError | StoreNotFound | InteractionTypeNotFound | SourceNotFound

  /** The arguments of one call; `checkedAt` and `createdAt` are the two clock readings it makes. */
  datatype Call = Call(user: int, game: int, action: ActionType, source: string, store: Option<int>,
                       query: Option<string>, metadataOk: bool, checkedAt: int, createdAt: int)

  /** The calls the three functions accept, and the order of their clock readings. */
  predicate WellFormed(c: Call) {
    && c.checkedAt <= c.createdAt
    && match c.action
       case View => c.store.None? && c.query.None?
       case Search => c.store.None? && c.query.Some?
       case StoreClick => c.store.Some? && c.query.None?
       case _ => false
  }

  // ----- keys -----

  /** The rows counted for the decay: same user, game and action, and same store for store clicks. */
  predicate SameRepeatKey(row: LogRow, user: int, game: int, action: ActionType, store: Option<int>) {
    row.user == user && row.game == Some(game) && row.action == action && (action == StoreClick ==> row.store == store)
  }

  /** The rows a cooldown looks at: same repeat key, source and query, with a weight. */
  predicate SameCooldownKey(row: LogRow, c: Call) {
    && SameRepeatKey(row, c.user, c.game, c.action, c.store)
    && row.source == c.source && row.weight.Some?
    && (c.action == Search ==> row.query == c.query)
  }

  function RepeatCount(log: seq<LogRow>, user: int, game: int, action: ActionType, store: Option<int>): nat {
    if log == [] then 0
    else
      RepeatCount(log[..|log| - 1], user, game, action, store)
      + if SameRepeatKey(log[|log| - 1], user, game, action, store) then 1 else 0
  }

  /** `order_by("-created_at").first()` among the reusable rows: one with the latest creation time. */
  function LatestReusable(log: seq<LogRow>, c: Call): Option<LogRow> {
    if log == [] then None
    else
      var row, rest := log[|log| - 1], LatestReusable(log[..|log| - 1], c);
      if SameCooldownKey(row, c) && (rest.None? || row.at >= rest.value.at) then Some(row) else rest
  }

  // ----- the weight -----

  function Pow(b: int, e: nat): int {
    if e == 0 then 1 else b * Pow(b, e - 1)
  }

  /** base * multiplier * decay^min(repeat, 10), rounded half to even to 0.0001; `unit` is the
      product of base and multiplier, exact in units of 0.0001. */
  function Weight(unit: int, decay: int, repeat: nat): int {
    var n := Min(repeat, MAX_EFFECTIVE_REPEAT_COUNT);
    PowPositive(1000, n);
    HalfEven(unit * Pow(decay, n), Pow(1000, n))
  }

  lemma {:induction false} PowPositive(b: int, e: nat)
    requires b > 0
    ensures Pow(b, e) > 0
  {
    if e > 0 {
      PowPositive(b, e - 1);
      MulLt(0, b, Pow(b, e - 1));
    }
  }

  // ----- one call -----

  function RuleError(rules: Rules, c: Call): Option<RecordError> {
    if !c.metadataOk then Some(ValidationError)
    else if c.action == StoreClick && (c.store.None? || c.store.value !in rules.stores) then Some(StoreNotFound)
    else if c.action !in rules.weights || !rules.weights[c.action].isActive then Some(InteractionTypeNotFound)
    else if c.source !in rules.multipliers then Some(SourceNotFound)
    else None
  }

  predicate CoolingDown(rules: Rules, log: seq<LogRow>, c: Call)
    requires RuleError(rules, c).None?
  {
    var latest := LatestReusable(log, c);
    var cooldown := rules.weights[c.action].cooldown;
    latest.Some? && cooldown > 0 && latest.value.at >= c.checkedAt - cooldown
  }

  function NewRow(rules: Rules, log: seq<LogRow>, c: Call): LogRow
    requires RuleError(rules, c).None?
  {
    var rule := rules.weights[c.action];
    var weight := Weight(rule.base * rules.multipliers[c.source], rule.decay,
        RepeatCount(log, c.user, c.game, c.action, c.store));
    LogRow(c.user, Some(c.game), c.action, c.source, c.store, c.query, Some(weight), c.createdAt)
  }

  function Recorded(rules: Rules, log: seq<LogRow>, c: Call): seq<LogRow> {
    if RuleError(rules, c).Some? || CoolingDown(rules, log, c) then log else log + [NewRow(rules, log, c)]
  }

  /** What the caller gets: an error, the reusable row while the cooldown lasts, or the new row. */
  function Reply(rules: Rules, log: seq<LogRow>, c: Call): Result<(LogRow, bool), RecordError> {
    if RuleError(rules, c).Some? then Err(RuleError(rules, c).value)
    else if CoolingDown(rules, log, c) then Ok((LatestReusable(log, c).value, false))
    else Ok((NewRow(rules, log, c), true))
  }

  /** Other services append to the same log, never under a recorded action. */
  datatype Event = Recording(call: Call) | OtherRow(row: LogRow)

  predicate IsRecorderAction(action: ActionType) {
    action == View || action == Search || action == StoreClick
  }

  function Next(rules: Rules, log: seq<LogRow>, e: Event): seq<LogRow> {
    match e
    case Recording(c) => Recorded(rules, log, c)
    case OtherRow(row) => if IsRecorderAction(row.action) then log else log + [row]
  }

  /** The log after a run of events, in the order in which their rows were written. */
  function LogAfter(rules: Rules, events: seq<Event>): seq<LogRow> {
    if events == [] then [] else Next(rules, LogAfter(rules, events[..|events| - 1]), events[|events| - 1])
  }

  // ----- what one call does -----

  /** The two keys, spelled out per action. */
  lemma KeysPerAction(row: LogRow, c: Call)
    ensures c.action != StoreClick ==>
              (SameRepeatKey(row, c.user, c.game, c.action, c.store) <==>
                row.user == c.user && row.game == Some(c.game) && row.action == c.action)
    ensures c.action == StoreClick ==>
              (SameRepeatKey(row, c.user, c.game, c.action, c.store) <==>
                row.user == c.user && row.game == Some(c.game) && row.action == StoreClick && row.store == c.store)
    ensures c.action == View ==>
              (SameCooldownKey(row, c) <==>
                row.user == c.user && row.game == Some(c.game) && row.action == View
                && row.source == c.source && row.weight.Some?)
    ensures c.action == Search ==>
              (SameCooldownKey(row, c) <==>
                row.user == c.user && row.game == Some(c.game) && row.action == Search
                && row.source == c.source && row.query == c.query && row.weight.Some?)
    ensures c.action == StoreClick ==>
              (SameCooldownKey(row, c) <==>
                row.user == c.user && row.game == Some(c.game) && row.action == StoreClick && row.store == c.store
                && row.source == c.source && row.weight.Some?)
  {}

  /** The positions of the rows of a repeat key. */
  function RowsOf(log: seq<LogRow>, user: int, game: int, action: ActionType, store: Option<int>): set<nat> {
    set i: nat | i < |log| && SameRepeatKey(log[i], user, game, action, store)
  }

  lemma RowsSnoc(log: seq<LogRow>, row: LogRow, user: int, game: int, action: ActionType, store: Option<int>)
    ensures var rows, before := RowsOf(log + [row], user, game, action, store), RowsOf(log, user, game, action, store);
            && |log| !in before
            && rows == if SameRepeatKey(row, user, game, action, store) then before + {|log|} else before
  {}

  lemma {:induction false} RepeatCountCounts(
      log: seq<LogRow>, user: int, game: int, action: ActionType, store: Option<int>)
    ensures RepeatCount(log, user, game, action, store) == |RowsOf(log, user, game, action, store)|
  {
    if log == [] {
      assert RowsOf(log, user, game, action, store) == {};
    } else {
      var n := |log| - 1;
      RepeatCountCounts(log[..n], user, game, action, store);
      assert log == log[..n] + [log[n]];
      RowsSnoc(log[..n], log[n], user, game, action, store);
    }
  }

  /** Which error a call meets, if any: they are checked in this order. */
  lemma ErrorsInOrder(rules: Rules, c: Call)
    ensures var e := RuleError(rules, c);
            var storeOk := c.action == StoreClick ==> c.store.Some? && c.store.value in rules.stores;
            var ruleOk := c.action in rules.weights && rules.weights[c.action].isActive;
            && (e == Some(ValidationError) <==> !c.metadataOk)
            && (e == Some(StoreNotFound) <==> c.metadataOk && !storeOk)
            && (e == Some(InteractionTypeNotFound) <==> c.metadataOk && storeOk && !ruleOk)
            && (e == Some(SourceNotFound) <==> c.metadataOk && storeOk && ruleOk && c.source !in rules.multipliers)
            && (e.None? <==> c.metadataOk && storeOk && ruleOk && c.source in rules.multipliers)
  {}

  /** The call is not held back: no cooldown, or every weighted row of its key is older than it. */
  ghost predicate MayRecord(log: seq<LogRow>, c: Call, cooldown: int) {
    cooldown <= 0 || forall i :: 0 <= i < |log| && SameCooldownKey(log[i], c) ==> log[i].at < c.checkedAt - cooldown
  }

  /** An accepted call appends a row exactly if it is not held back, and otherwise returns the
      latest row of its key; the new row has the weight of its repeat. */
  lemma RecordCall(rules: Rules, log: seq<LogRow>, c: Call)
    requires RuleError(rules, c).None?
    ensures Reply(rules, log, c).Ok?
    ensures var (row, added) := Reply(rules, log, c).value;
            var rule := rules.weights[c.action];
            && (added <==> MayRecord(log, c, rule.cooldown))
            && Recorded(rules, log, c) == (if added then log + [row] else log)
            && (!added ==>
                 && row in log && SameCooldownKey(row, c)
                 && forall i :: 0 <= i < |log| && SameCooldownKey(log[i], c) ==> log[i].at <= row.at)
            && (added ==>
                 && row.user == c.user && row.game == Some(c.game) && row.action == c.action && row.source == c.source
                 && row.store == c.store && row.query == c.query && row.at == c.createdAt)
  {
    LatestReusableIsLatest(log, c);
  }

  lemma NewRowWeight(rules: Rules, log: seq<LogRow>, c: Call)
    requires RuleError(rules, c).None? && MayRecord(log, c, rules.weights[c.action].cooldown)
    ensures Reply(rules, log, c).Ok?
    ensures var row := Reply(rules, log, c).value.0;
            var repeats := |RowsOf(log, c.user, c.game, c.action, c.store)|;
            && row.weight.Some?
            && IsRounded(rules.weights[c.action].base * rules.multipliers[c.source], rules.weights[c.action].decay,
                         if repeats <= 10 then repeats else 10, row.weight.value)
  {
    RecordCall(rules, log, c);
    var repeats := RepeatCount(log, c.user, c.game, c.action, c.store);
    RepeatCountCounts(log, c.user, c.game, c.action, c.store);
    WeightIsRounded(rules.weights[c.action].base * rules.multipliers[c.source], rules.weights[c.action].decay,
                    Min(repeats, 10));
  }

  // ----- the law of the log -----

  /** Row i weighs what its position among the rows of its repeat key says. */
  ghost predicate WeighsByPosition(rules: Rules, log: seq<LogRow>, i: int)
    requires 0 <= i < |log|
  {
    var row := log[i];
    IsRecorderAction(row.action) ==>
      && row.game.Some? && row.action in rules.weights && row.source in rules.multipliers
      && row.weight == Some(Weight(rules.weights[row.action].base * rules.multipliers[row.source],
          rules.weights[row.action].decay,
                                   RepeatCount(log[..i], row.user, row.game.value, row.action, row.store)))
  }

  ghost predicate WeightLaw(rules: Rules, log: seq<LogRow>) {
    forall i :: 0 <= i < |log| ==> WeighsByPosition(rules, log, i)
  }

  /** Two weighted rows with the same cooldown key. */
  ghost predicate SameCooldown(a: LogRow, b: LogRow) {
    && IsRecorderAction(a.action) && a.action == b.action && a.user == b.user && a.game == b.game
    && a.source == b.source
    && (a.action == StoreClick ==> a.store == b.store) && (a.action == Search ==> a.query == b.query)
    && a.weight.Some? && b.weight.Some?
  }

  /** Weighted rows with one cooldown key are more than the cooldown apart. */
  ghost predicate Spaced(rules: Rules, log: seq<LogRow>) {
    forall i, j :: 0 <= i < j < |log| && SameCooldown(log[i], log[j]) && log[i].action in rules.weights
      ==> rules.weights[log[i].action].cooldown > 0 ==> log[j].at - log[i].at > rules.weights[log[i].action].cooldown
  }

  ghost predicate Law(rules: Rules, log: seq<LogRow>) {
    WeightLaw(rules, log) && Spaced(rules, log)
  }

  lemma {:induction false} LatestReusableIsLatest(log: seq<LogRow>, c: Call)
    ensures match LatestReusable(log, c)
            case None => forall i :: 0 <= i < |log| ==> !SameCooldownKey(log[i], c)
            case Some(row) => row in log && SameCooldownKey(row, c)
                              && forall i :: 0 <= i < |log| && SameCooldownKey(log[i], c) ==> log[i].at <= row.at
  {
    if log != [] {
      LatestReusableIsLatest(log[..|log| - 1], c);
      assert log[|log| - 1] in log;
    }
  }

  lemma NextKeepsWeights(rules: Rules, log: seq<LogRow>, e: Event)
    requires WeightLaw(rules, log)
    ensures WeightLaw(rules, Next(rules, log, e))
  {
    var log' := Next(rules, log, e);
    forall i | 0 <= i < |log'| ensures WeighsByPosition(rules, log', i) {
      if i < |log| {
        assert WeighsByPosition(rules, log, i);
        assert log'[..i] == log[..i];
      } else {
        assert log'[..i] == log;
      }
    }
  }

  /** The check against the latest row of the key separates the new row from all of them. */
  lemma RecordedKeepsSpacing(rules: Rules, log: seq<LogRow>, c: Call)
    requires Spaced(rules, log) && WellFormed(c)
    ensures Spaced(rules, Recorded(rules, log, c))
  {
    var log' := Recorded(rules, log, c);
    if log' != log {
      LatestReusableIsLatest(log, c);
      var row := NewRow(rules, log, c);
      forall i | 0 <= i < |log| && SameCooldown(log[i], row) && rules.weights[c.action].cooldown > 0
        ensures row.at - log[i].at > rules.weights[c.action].cooldown
      {
        assert SameCooldownKey(log[i], c);
      }
    }
  }

  /** Every event keeps the law, whatever the clock readings of other calls. */
  lemma NextKeepsLaw(rules: Rules, log: seq<LogRow>, e: Event)
    requires Law(rules, log) && (e.Recording? ==> WellFormed(e.call))
    ensures Law(rules, Next(rules, log, e))
  {
    NextKeepsWeights(rules, log, e);
    if e.Recording? { RecordedKeepsSpacing(rules, log, e.call); }
  }

  /** Every call of the run is one of the three, and does not create before it checks. */
  ghost predicate IsRun(events: seq<Event>) {
    forall i :: 0 <= i < |events| && events[i].Recording? ==> WellFormed(events[i].call)
  }

  /** From an empty log, any run of calls of any users under fixed rules obeys the law: the i-th
      row of a repeat key weighs Weight(.., i), and rows of a cooldown key are more than c apart. */
  lemma {:induction false} RunObeysLaw(rules: Rules, events: seq<Event>)
    requires IsRun(events)
    ensures Law(rules, LogAfter(rules, events))
  {
    if events != [] {
      var n := |events| - 1;
      RunObeysLaw(rules, events[..n]);
      NextKeepsLaw(rules, LogAfter(rules, events[..n]), events[n]);
    }
  }

  // ----- weights over the repeats of one key -----

  lemma WeightStep(unit: int, decay: int, n: nat)
    requires unit >= 0 && decay >= 0
    ensures decay <= 1000 ==> Weight(unit, decay, n + 1) <= Weight(unit, decay, n)
    ensures decay >= 1000 ==> Weight(unit, decay, n) <= Weight(unit, decay, n + 1)
  {
    if n < MAX_EFFECTIVE_REPEAT_COUNT {
      var bm, d, p := unit, Pow(decay, n), Pow(1000, n);
      PowPositive(1000, n);
      PowNonNegative(decay, n);
      MulLe(0, bm, d);
      RoundedStep(bm * d, p, decay);
      assert bm * Pow(decay, n + 1) == (bm * d) * decay by { MulAssoc(bm, decay, d); MulAssoc(bm, d, decay); }
    }
  }

  /** Multiplying a quotient by decay/1000 moves its rounding the way decay compares to 1000. */
  lemma RoundedStep(num: int, den: int, decay: int)
    requires num >= 0 && den > 0 && decay >= 0
    ensures 1000 * den > 0
    ensures decay <= 1000 ==> HalfEven(num * decay, 1000 * den) <= HalfEven(num, den)
    ensures decay >= 1000 ==> HalfEven(num, den) <= HalfEven(num * decay, 1000 * den)
  {
    HalfEvenIsNearest(num, den);
    HalfEvenIsNearest(num * decay, 1000 * den);
    MulLe(0, num, den);
    assert num * decay * den == (num * den) * decay by { MulAssoc(num, decay, den); MulAssoc(num, den, decay); }
    assert num * (1000 * den) == (num * den) * 1000 by { MulAssoc(num, 1000, den); MulAssoc(num, den, 1000); }
    if decay <= 1000 {
      MulLe(decay, 1000, num * den);
      HalfEvenMonotone(num * decay, 1000 * den, HalfEven(num * decay, 1000 * den), num, den, HalfEven(num, den));
    }
    if decay >= 1000 {
      MulLe(1000, decay, num * den);
      HalfEvenMonotone(num, den, HalfEven(num, den), num * decay, 1000 * den, HalfEven(num * decay, 1000 * den));
    }
  }

  lemma {:induction false} PowNonNegative(b: int, e: nat)
    requires b >= 0
    ensures Pow(b, e) >= 0
  {
    if e > 0 {
      PowNonNegative(b, e - 1);
      MulLe(0, b, Pow(b, e - 1));
    }
  }

  /** Weights move one way from repeat i to repeat j, and stand still from the tenth repeat on. */
  lemma {:induction false} WeightsMonotone(unit: int, decay: int, i: nat, j: nat)
    requires unit >= 0 && decay >= 0 && i <= j
    ensures decay <= 1000 ==> Weight(unit, decay, j) <= Weight(unit, decay, i)
    ensures decay >= 1000 ==> Weight(unit, decay, i) <= Weight(unit, decay, j)
    ensures i >= MAX_EFFECTIVE_REPEAT_COUNT ==> Weight(unit, decay, j) == Weight(unit, decay, i)
    decreases j
  {
    if i < j {
      WeightsMonotone(unit, decay, i, j - 1);
      WeightStep(unit, decay, j - 1);
    }
  }

  ghost predicate NeverRises(unit: int, decay: int) {
    forall i: nat, j: nat :: i <= j ==> Weight(unit, decay, j) <= Weight(unit, decay, i)
  }

  /** Ten repeats of growth are hidden by the rounding to `unit`: unit * (decay/1000)^10 is no
      more than half a unit above it, and meets the half only next to an even unit. */
  predicate GrowthIsRoundedAway(unit: int, decay: int) {
    var grown, limit := 2 * unit * Pow(decay, 10), (2 * unit + 1) * Pow(1000, 10);
    grown < limit || (grown == limit && unit % 2 == 0)
  }

  /** The rules allow a decay above 1; repeats then never gain weight only if rounding hides
      the whole growth of ten repeats. */
  lemma NeverRisesIff(unit: int, decay: int)
    requires unit >= 0 && decay >= 0
    ensures NeverRises(unit, decay) <==> (decay <= 1000 || GrowthIsRoundedAway(unit, decay))
  {
    if decay > 1000 { TenthEqualsFirstIff(unit, decay); }
    WeightsMonotone(unit, decay, 0, 10);
    if decay <= 1000 || Weight(unit, decay, 10) == Weight(unit, decay, 0) {
      forall i: nat, j: nat | i <= j ensures Weight(unit, decay, j) <= Weight(unit, decay, i) {
        WeightsMonotone(unit, decay, i, j);
        if decay > 1000 { BetweenFirstAndTenth(unit, decay, i, j); }
      }
    }
  }

  lemma TenthEqualsFirstIff(unit: int, decay: int)
    requires unit >= 0 && decay > 1000
    ensures Weight(unit, decay, 10) == Weight(unit, decay, 0) <==> GrowthIsRoundedAway(unit, decay)
  {
    var num, den := unit * Pow(decay, 10), Pow(1000, 10);
    PowPositive(1000, 10);
    PowMonotone(1000, decay, 10);
    assert Weight(unit, decay, 10) == HalfEven(num, den);
    FirstWeight(unit, decay);
    assert unit * den <= num by { MulLe(den, Pow(decay, 10), unit); }
    RoundsBackIff(num, den, unit);
    MulAssoc(2, unit, Pow(decay, 10));
  }

  lemma FirstWeight(unit: int, decay: int)
    ensures Weight(unit, decay, 0) == unit
  {
    assert Pow(decay, 0) == 1 && Pow(1000, 0) == 1;
  }

  /** A quotient of at least q rounds to q exactly when it is nearer to q than to q + 1. */
  lemma RoundsBackIff(num: int, den: int, q: int)
    requires den > 0 && q * den <= num
    ensures HalfEven(num, den) == q <==> 2 * num < (2 * q + 1) * den || (2 * num == (2 * q + 1) * den && q % 2 == 0)
  {
    BelowIsFar(num, den, q);
    if HalfEven(num, den) == q { HalfEvenIsNearest(num, den); }
    if IsHalfEven(num, den, q) { HalfEvenUnique(num, den, q); }
  }

  lemma BelowIsFar(num: int, den: int, q: int)
    requires den > 0 && q * den <= num
    ensures (2 * q - 1) * den < 2 * num
  {
    assert (2 * q - 1) * den == 2 * (q * den) - den;
  }

  lemma {:induction false} PowMonotone(a: int, b: int, e: nat)
    requires 0 <= a <= b
    ensures Pow(a, e) <= Pow(b, e)
  {
    if e > 0 {
      PowMonotone(a, b, e - 1);
      PowNonNegative(a, e - 1);
      MulLe(Pow(a, e - 1), Pow(b, e - 1), a);
      MulLe(a, b, Pow(b, e - 1));
    }
  }

  // ----- a run whose weights grow -----

  /** Base and multiplier 1.00, no cooldown and a decay of 1.001, which the rules accept. */
  const GROWING := Rules(map[View := WeightRule(100, 0, 1001, true)], map["detail_page" := 100], {})

  function FirstView(): Call {
    Call(1, 1, View, "detail_page", None, None, true, 0, 0)
  }

  function ViewRow(weight: int): LogRow {
    LogRow(1, Some(1), View, "detail_page", None, None, Some(weight), 0)
  }

  lemma FirstViewRow()
    ensures Recorded(GROWING, [], FirstView()) == [ViewRow(10000)]
  {
    FirstWeight(10000, 1001);
  }

  lemma SecondViewRow()
    ensures Recorded(GROWING, [ViewRow(10000)], FirstView()) == [ViewRow(10000), ViewRow(10010)]
  {
    var log := [ViewRow(10000)];
    assert log[..0] == [];
    assert RepeatCount(log, 1, 1, View, None) == 1;
    SecondWeight();
  }

  /** A second view of the same game weighs 1.0010 after a first of 1.0000. */
  lemma RepeatsCanGain()
    ensures var events := [Recording(FirstView()), Recording(FirstView())];
            IsRun(events) && LogAfter(GROWING, events) == [ViewRow(10000), ViewRow(10010)]
  {
    FirstViewRow();
    SecondViewRow();
    var events := [Recording(FirstView()), Recording(FirstView())];
    assert events[..1] == [Recording(FirstView())] && events[..1][..0] == [];
  }

  lemma SecondWeight()
    ensures Weight(10000, 1001, 1) == 10010
  {
    assert Pow(1001, 1) == 1001 * Pow(1001, 0) && Pow(1000, 1) == 1000 * Pow(1000, 0);
  }

  lemma BetweenFirstAndTenth(unit: int, decay: int, i: nat, j: nat)
    requires unit >= 0 && decay >= 1000
    ensures Weight(unit, decay, 0) <= Weight(unit, decay, i)
    ensures Weight(unit, decay, j) <= Weight(unit, decay, 10)
  {
    WeightsMonotone(unit, decay, 0, i);
    if j <= 10 {
      WeightsMonotone(unit, decay, j, 10);
    } else {
      WeightsMonotone(unit, decay, 10, j);
    }
  }

  function Sum(weights: seq<int>): int {
    if weights == [] then 0 else Sum(weights[..|weights| - 1]) + weights[|weights| - 1]
  }

  /** w is unit * (decay/1000)^n rounded half to even. */
  ghost predicate IsRounded(unit: int, decay: int, n: nat, w: int) {
    Pow(1000, n) > 0 && IsHalfEven(unit * Pow(decay, n), Pow(1000, n), w)
  }

  /** decay^e / 1000^e */
  function Ratio(decay: int, e: nat): real {
    if e == 0 then 1.0 else (decay as real / 1000.0) * Ratio(decay, e - 1)
  }

  lemma {:induction false} RatioIsQuotient(decay: int, e: nat)
    ensures Pow(decay, e) as real == Ratio(decay, e) * (Pow(1000, e) as real)
  {
    if e > 0 {
      RatioIsQuotient(decay, e - 1);
      var d, p, q, r := decay as real, Pow(1000, e - 1) as real, Pow(decay, e - 1) as real, Ratio(decay, e - 1);
      assert Pow(decay, e) as real == d * q;
      assert Pow(1000, e) as real == 1000.0 * p;
      assert d * (r * p) == ((d / 1000.0) * r) * (1000.0 * p);
    }
  }

  lemma WeightIsRounded(unit: int, decay: int, n: nat)
    requires n <= MAX_EFFECTIVE_REPEAT_COUNT
    ensures IsRounded(unit, decay, n, Weight(unit, decay, n))
  {
    PowPositive(1000, n);
    HalfEvenIsNearest(unit * Pow(decay, n), Pow(1000, n));
  }

  lemma NearExact(w: int, num: int, den: int, unit: int, ratio: real)
    requires den > 0 && IsHalfEven(unit * num, den, w) && num as real == ratio * (den as real)
    ensures w as real <= unit as real * ratio + 0.5
  {
    ScaledQuotient(unit, num, ratio, den);
    HalfAbove(w, den, unit * num, (unit as real) * ratio);
  }

  /** A weight is at most half a unit above its exact value, and exact at the first occurrence. */
  lemma RoundedNearExact(unit: int, decay: int, n: nat, w: int)
    requires IsRounded(unit, decay, n, w)
    ensures w as real <= unit as real * Ratio(decay, n) + 0.5
    ensures n == 0 ==> w == unit
  {
    RatioIsQuotient(decay, n);
    NearExact(w, Pow(decay, n), Pow(1000, n), unit, Ratio(decay, n));
  }

  lemma ScaledQuotient(a: int, num: int, ratio: real, den: int)
    requires num as real == ratio * (den as real)
    ensures (a * num) as real == ((a as real) * ratio) * (den as real)
  {
    assert (a * num) as real == (a as real) * (num as real);
    RealAssoc(a as real, ratio, den as real);
  }

  lemma RealAssoc(a: real, b: real, c: real)
    ensures a * (b * c) == a * b * c
  {}

  lemma RealLe(a: real, b: real, c: real)
    requires a <= b && c >= 0.0
    ensures a * c <= b * c
  {}

  lemma RealLt(a: real, b: real, c: real)
    requires a < b && c > 0.0
    ensures a * c < b * c
  {}

  lemma HalfAbove(q: int, den: int, num: int, exact: real)
    requires den > 0 && (2 * q - 1) * den <= 2 * num && num as real == exact * (den as real)
    ensures q as real <= exact + 0.5
  {
    var d, l := den as real, (2 * q - 1) as real;
    assert l * d <= 2.0 * (num as real) by { assert ((2 * q - 1) * den) as real == l * d; }
    assert 2.0 * exact * d == 2.0 * (exact * d) by { RealAssoc(2.0, exact, d); }
    if 2.0 * exact < l { RealLt(2.0 * exact, l, d); }
  }

  /** (1 - r) times a total of n weights stays below the geometric sum plus n - 1 roundings. */
  ghost predicate BelowGeometric(total: int, unit: int, r: real, rn: real, n: nat) {
    total as real * (1.0 - r) <= unit as real * (1.0 - rn) + (n - 1) as real * 0.5 * (1.0 - r)
  }

  lemma {:induction false} SumBelowGeometric(weights: seq<int>, unit: int, decay: int)
    requires 0 <= decay < 1000 && weights != []
    requires forall i :: 0 <= i < |weights| ==> IsRounded(unit, decay, i, weights[i])
    ensures BelowGeometric(Sum(weights), unit, decay as real / 1000.0, Ratio(decay, |weights|), |weights|)
  {
    var n, w := |weights|, weights[|weights| - 1];
    assert IsRounded(unit, decay, n - 1, w);
    RoundedNearExact(unit, decay, n - 1, w);
    if n == 1 {
      assert Sum(weights) == unit;
      OneBelowGeometric(unit, decay);
    } else {
      SumBelowGeometric(weights[..n - 1], unit, decay);
      OneMoreBelowGeometric(Sum(weights[..n - 1]), w, unit, decay, n);
    }
  }

  lemma OneBelowGeometric(unit: int, decay: int)
    ensures BelowGeometric(unit, unit, decay as real / 1000.0, Ratio(decay, 1), 1)
  {
    FirstTotal(unit, decay as real / 1000.0);
    RatioOne(decay);
  }

  lemma OneMoreBelowGeometric(total: int, w: int, unit: int, decay: int, n: nat)
    requires 0 <= decay < 1000 && n >= 2 && w as real <= unit as real * Ratio(decay, n - 1) + 0.5
    requires BelowGeometric(total, unit, decay as real / 1000.0, Ratio(decay, n - 1), n - 1)
    ensures BelowGeometric(total + w, unit, decay as real / 1000.0, Ratio(decay, n), n)
  {
    TotalStep(total, w, unit, decay as real / 1000.0, Ratio(decay, n - 1), n);
  }

  lemma RatioOne(decay: int)
    ensures Ratio(decay, 1) == decay as real / 1000.0
  {
    assert Ratio(decay, 0) == 1.0;
  }

  lemma FirstTotal(unit: int, r: real)
    ensures BelowGeometric(unit, unit, r, r, 1)
  {}

  lemma TotalStep(before: int, w: int, unit: int, r: real, rn: real, n: nat)
    requires 0.0 <= r < 1.0 && n >= 2
    requires BelowGeometric(before, unit, r, rn, n - 1) && w as real <= unit as real * rn + 0.5
    ensures BelowGeometric(before + w, unit, r, r * rn, n)
  {
    GeometricStep(before as real, w as real, unit as real, r, rn, (n - 2) as real * 0.5);
    assert (n - 2) as real * 0.5 + 0.5 == (n - 1) as real * 0.5;
    assert (before + w) as real == before as real + w as real;
  }

  lemma GeometricStep(t: real, w: real, bm: real, r: real, rn: real, h: real)
    requires 0.0 <= r < 1.0
    requires t * (1.0 - r) <= bm * (1.0 - rn) + h * (1.0 - r) && w <= bm * rn + 0.5
    ensures (t + w) * (1.0 - r) <= bm * (1.0 - r * rn) + (h + 0.5) * (1.0 - r)
  {
    var x, q := bm * rn, 1.0 - r;
    RealLe(w, x + 0.5, q);
    RealDistributes(t, w, q);
    RealDistributes(x, 0.5, q);
    RealDistributes(h, 0.5, q);
    RealComplement(x, r);
    RealComplement(bm, rn);
    RealComplement(bm, r * rn);
    RealAssoc(bm, rn, r);
  }

  lemma RealDistributes(a: real, b: real, c: real)
    ensures (a + b) * c == a * c + b * c
  {}

  lemma RealComplement(a: real, b: real)
    ensures a * (1.0 - b) == a - a * b
  {}

  /** With decay below 1 the first eleven weights of a key sum to at most
      base * multiplier / (1 - decay), plus five units of rounding. */
  lemma FirstElevenBounded(unit: int, decay: int, weights: seq<int>)
    requires unit >= 0 && 0 <= decay < 1000
    requires |weights| == 11 && forall i :: 0 <= i < 11 ==> weights[i] == Weight(unit, decay, i)
    ensures Sum(weights) * (1000 - decay) <= unit * 1000 + 5 * (1000 - decay)
  {
    forall i | 0 <= i < 11 ensures IsRounded(unit, decay, i, weights[i]) {
      WeightIsRounded(unit, decay, i);
    }
    GeometricBound(unit, decay, weights);
  }

  lemma GeometricBound(unit: int, decay: int, weights: seq<int>)
    requires unit >= 0 && 0 <= decay < 1000
    requires |weights| == 11 && forall i :: 0 <= i < 11 ==> IsRounded(unit, decay, i, weights[i])
    ensures Sum(weights) * (1000 - decay) <= unit * 1000 + 5 * (1000 - decay)
  {
    SumBelowGeometric(weights, unit, decay);
    RatioNonNegative(decay, 11);
    ScaleBack(Sum(weights), unit, decay, Ratio(decay, 11));
  }

  lemma ScaleBack(t: int, unit: int, decay: int, rn: real)
    requires unit >= 0 && 0 <= decay < 1000 && rn >= 0.0
    requires BelowGeometric(t, unit, decay as real / 1000.0, rn, 11)
    ensures t * (1000 - decay) <= unit * 1000 + 5 * (1000 - decay)
  {
    var r := decay as real / 1000.0;
    RealLe(0.0, unit as real, rn);
    assert (unit as real) * (1.0 - rn) == unit as real - unit as real * rn;
    assert t as real * (1.0 - r) <= unit as real + 5.0 * (1.0 - r);
    assert 1000.0 * (1.0 - r) == (1000 - decay) as real;
    assert (t as real * (1.0 - r)) * 1000.0 == t as real * (1000 - decay) as real by {
      RealAssoc(t as real, 1.0 - r, 1000.0);
    }
    assert (t * (1000 - decay)) as real == t as real * (1000 - decay) as real;
  }

  lemma {:induction false} RatioNonNegative(decay: int, e: nat)
    requires decay >= 0
    ensures Ratio(decay, e) >= 0.0
  {
    if e > 0 { RatioNonNegative(decay, e - 1); }
  }

  // ----- what the law means for the rows of a log -----

  lemma {:induction false} RepeatCountGrows(
      log: seq<LogRow>, i: nat, j: nat, user: int, game: int, action: ActionType, store: Option<int>)
    requires i <= j <= |log|
    ensures RepeatCount(log[..i], user, game, action, store) <= RepeatCount(log[..j], user, game, action, store)
    decreases j
  {
    if i < j {
      RepeatCountGrows(log, i, j - 1, user, game, action, store);
      assert log[..j][..j - 1] == log[..j - 1];
    }
  }

  lemma {:induction false} RepeatCountStore(
      log: seq<LogRow>, user: int, game: int, action: ActionType, store: Option<int>, store': Option<int>)
    requires action == StoreClick ==> store == store'
    ensures RepeatCount(log, user, game, action, store) == RepeatCount(log, user, game, action, store')
  {
    if log != [] { RepeatCountStore(log[..|log| - 1], user, game, action, store, store'); }
  }

  /** The rules under which repeats never gain weight, by `NeverRisesIff`. */
  predicate KeepsFalling(unit: int, decay: int) {
    unit >= 0 && decay >= 0 && (decay <= 1000 || GrowthIsRoundedAway(unit, decay))
  }

  /** Later rows of the same repeat key from the same source never weigh more. */
  lemma LaterRowsWeighNoMore(rules: Rules, events: seq<Event>, i: nat, j: nat)
    requires IsRun(events)
    requires var log := LogAfter(rules, events);
             && i < j < |log| && IsRecorderAction(log[i].action) && log[j].source == log[i].source && log[i].game.Some?
             && SameRepeatKey(log[j], log[i].user, log[i].game.value, log[i].action, log[i].store)
             && log[i].action in rules.weights && log[i].source in rules.multipliers
             && KeepsFalling(rules.weights[log[i].action].base * rules.multipliers[log[i].source],
                             rules.weights[log[i].action].decay)
    ensures var log := LogAfter(rules, events);
            log[i].weight.Some? && log[j].weight.Some? && log[j].weight.value <= log[i].weight.value
  {
    var log := LogAfter(rules, events);
    RunObeysLaw(rules, events);
    assert WeighsByPosition(rules, log, i) && WeighsByPosition(rules, log, j);
    var row, rule := log[i], rules.weights[log[i].action];
    RepeatCountGrows(log, i, j, row.user, row.game.value, row.action, row.store);
    RepeatCountStore(log[..j], row.user, row.game.value, row.action, row.store, log[j].store);
    NeverRisesIff(rule.base * rules.multipliers[row.source], rule.decay);
  }

  /** Positions of rows that share one cooldown key, in log order. */
  ghost predicate SameKeyRows(log: seq<LogRow>, picked: seq<nat>) {
    && (forall k :: 0 <= k < |picked| ==> picked[k] < |log|)
    && (forall k, l :: 0 <= k < l < |picked| ==> picked[k] < picked[l] && SameCooldown(log[picked[k]], log[picked[l]]))
  }

  lemma {:induction false} SpacedSpan(
      rules: Rules, log: seq<LogRow>, picked: seq<nat>, action: ActionType, cooldown: nat)
    requires Spaced(rules, log) && SameKeyRows(log, picked) && picked != []
    requires log[picked[0]].action == action && action in rules.weights
        && rules.weights[action].cooldown == cooldown > 0
    ensures log[picked[|picked| - 1]].at - log[picked[0]].at >= (|picked| - 1) * (cooldown + 1)
  {
    var n := |picked|;
    if n > 1 {
      SpacedSpan(rules, log, picked[..n - 1], action, cooldown);
      assert SameCooldown(log[picked[n - 2]], log[picked[n - 1]]);
      assert n > 2 ==> SameCooldown(log[picked[0]], log[picked[n - 2]]);
    }
  }

  /** A window of length span holds at most span / cooldown + 1 weighted rows of one key. */
  lemma WindowHoldsFew(
      rules: Rules, events: seq<Event>, picked: seq<nat>, action: ActionType, cooldown: nat, from: int,
      span: nat)
    requires IsRun(events)
    requires var log := LogAfter(rules, events);
             && SameKeyRows(log, picked) && picked != []
             && log[picked[0]].action == action && action in rules.weights
                 && rules.weights[action].cooldown == cooldown > 0
             && from <= log[picked[0]].at && log[picked[|picked| - 1]].at <= from + span
    ensures |picked| <= span / cooldown + 1
  {
    RunObeysLaw(rules, events);
    SpacedSpan(rules, LogAfter(rules, events), picked, action, cooldown);
    SpanHoldsFew(|picked| - 1, cooldown, span);
  }

  lemma SpanHoldsFew(m: nat, c: nat, span: nat)
    requires c > 0 && m * (c + 1) <= span
    ensures m <= span / c
  {
    assert m * (c + 1) == m * c + m;
    QuotientAtLeast(m, c, span);
  }

  lemma QuotientAtLeast(m: nat, c: nat, span: nat)
    requires c > 0 && m * c <= span
    ensures m <= span / c
  {
    var q := span / c;
    assert (q + 1) * c == q * c + c;
    if m > q { MulLe(q + 1, m, c); }
  }

  // ----- the imperative form -----

  class Recorder {
    var rules: Rules
    var log: seq<LogRow>

    constructor (rules: Rules)
      ensures this.rules == rules && log == []
    {
      this.rules, log := rules, [];
    }

    /** The shared body: returns the new row, or the reusable one while the cooldown lasts. */
    method Record(c: Call) returns (r: Result<(LogRow, bool), RecordError>)
      modifies this
      ensures rules == old(rules) && log == Recorded(old(rules), old(log), c)
      ensures r == Reply(old(rules), old(log), c)
      ensures r.Err? ==> log == old(log)
      ensures r.Ok? ==> (r.value.1 <==> MayRecord(old(log), c, rules.weights[c.action].cooldown))
      ensures r.Ok? && !r.value.1 ==> log == old(log) && r.value.0 in log && SameCooldownKey(r.value.0, c)
      ensures r.Ok? && r.value.1 ==> log == old(log) + [r.value.0] && SameCooldownKey(r.value.0, c)
    {
      if RuleError(rules, c).None? { RecordCall(rules, log, c); }
      if !c.metadataOk { return Err(ValidationError); }
      if c.action == StoreClick && (c.store.None? || c.store.value !in rules.stores) { return Err(StoreNotFound); }
      if c.action !in rules.weights || !rules.weights[c.action].isActive { return Err(InteractionTypeNotFound); }
      if c.source !in rules.multipliers { return Err(SourceNotFound); }
      var rule, multiplier := rules.weights[c.action], rules.multipliers[c.source];
      var latest := LatestReusable(log, c);
      LatestReusableIsLatest(log, c);
      if latest.Some? && rule.cooldown > 0 && latest.value.at >= c.checkedAt - rule.cooldown {
        return Ok((latest.value, false));
      }
      var repeat := RepeatCount(log, c.user, c.game, c.action, c.store);
      var weight := Weight(rule.base * multiplier, rule.decay, repeat);
      var row := LogRow(c.user, Some(c.game), c.action, c.source, c.store, c.query, Some(weight), c.createdAt);
      log := log + [row];
      r := Ok((row, true));
    }

    method RecordViewInteraction(user: int, game: int, source: string, metadataOk: bool, checkedAt: int, createdAt: int)
      returns (r: Result<(LogRow, bool), RecordError>)
      modifies this
      ensures rules == old(rules)
      ensures var c := Call(user, game, View, source, None, None, metadataOk, checkedAt, createdAt);
              log == Recorded(rules, old(log), c) && r == Reply(rules, old(log), c)
    {
      r := Record(Call(user, game, View, source, None, None, metadataOk, checkedAt, createdAt));
    }

    method RecordSearchInteraction(
        user: int, game: int, source: string, query: string, metadataOk: bool, checkedAt: int, createdAt: int)
      returns (r: Result<(LogRow, bool), RecordError>)
      modifies this
      ensures rules == old(rules)
      ensures var c := Call(user, game, Search, source, None, Some(query), metadataOk, checkedAt, createdAt);
              log == Recorded(rules, old(log), c) && r == Reply(rules, old(log), c)
    {
      r := Record(Call(user, game, Search, source, None, Some(query), metadataOk, checkedAt, createdAt));
    }

    method RecordStoreClickInteraction(
        user: int, game: int, store: int, source: string, metadataOk: bool, checkedAt: int, createdAt: int)
      returns (r: Result<(LogRow, bool), RecordError>)
      modifies this
      ensures rules == old(rules)
      ensures var c := Call(user, game, StoreClick, source, Some(store), None, metadataOk, checkedAt, createdAt);
              log == Recorded(rules, old(log), c) && r == Reply(rules, old(log), c)
    {
      r := Record(Call(user, game, StoreClick, source, Some(store), None, metadataOk, checkedAt, createdAt));
    }
  }
}
