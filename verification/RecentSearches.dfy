/** A user's recent searches: a bounded move-to-front list in Redis.

    The bounded list is compared with the unbounded move-to-front list of the same calls. The
    three commands of a save are one atomic pipeline. */
module RecentSearches {
  import opened Wrappers
  import opened Lists

  datatype SearchError = AccountDeactivated | SearchKeywordNotFound

  datatype Op = Save(keyword: string) | Delete(keyword: string) | Clear

  // ----- Redis list commands -----

  /** LTRIM: keeps the elements from start to stop inclusive; a negative stop counts from the end. */
  function Ltrim(s: seq<string>, stop: int): seq<string> {
    var last := if stop < 0 then |s| + stop else stop;
    if last < 0 then [] else Take(s, last + 1)
  }

  /** LRANGE from the front takes the same range. */
  function Lrange(s: seq<string>, stop: int): seq<string> {
    Ltrim(s, stop)
  }

  // ----- the bounded and the unbounded list -----

  function Stored(s: seq<string>, op: Op, cap: int): seq<string> {
    match op
    case Save(k) => Ltrim([k] + Remove(k, s), cap - 1)
    case Delete(k) => Remove(k, s)
    case Clear => []
  }

  function Unbounded(s: seq<string>, op: Op): seq<string> {
    match op
    case Save(k) => [k] + Remove(k, s)
    case Delete(k) => Remove(k, s)
    case Clear => []
  }

  function RunStored(ops: seq<Op>, cap: int): seq<string> {
    if ops == [] then [] else Stored(RunStored(ops[..|ops| - 1], cap), ops[|ops| - 1], cap)
  }

  function RunUnbounded(ops: seq<Op>): seq<string> {
    if ops == [] then [] else Unbounded(RunUnbounded(ops[..|ops| - 1]), ops[|ops| - 1])
  }

  lemma RemoveKeepsRest(k: string, s: seq<string>)
    requires Distinct(s)
    ensures Distinct([k] + Remove(k, s))
  {
    RemoveDistinct(k, s);
    RemoveMembers(k, s, k);
  }

  lemma StoredStep(s: seq<string>, u: seq<string>, op: Op, cap: int)
    requires cap >= 1 && Distinct(s) && |s| <= cap && s <= u
    ensures var s' := Stored(s, op, cap); Distinct(s') && |s'| <= cap && s' <= Unbounded(u, op)
  {
    match op
    case Save(k) =>
      RemoveKeepsRest(k, s);
      RemovePrefix(k, s, u);
      TakePrefix([k] + Remove(k, s), [k] + Remove(k, u), cap);
    case Delete(k) =>
      RemoveDistinct(k, s);
      RemovePrefix(k, s, u);
      RemoveShrinks(k, s);
    case Clear =>
  }

  lemma {:induction false} RemoveShrinks(k: string, s: seq<string>)
    ensures |Remove(k, s)| <= |s|
  {
    if s != [] { RemoveShrinks(k, s[1..]); }
  }

  /** For every run of saves, deletes and clears the stored list has no duplicates, fits the cap
      and is a prefix of the unbounded list; a read returns all of it. */
  lemma {:induction false} StoredIsPrefix(ops: seq<Op>, cap: int)
    requires cap >= 1
    ensures Distinct(RunStored(ops, cap)) && |RunStored(ops, cap)| <= cap && RunStored(ops, cap) <= RunUnbounded(ops)
    ensures Lrange(RunStored(ops, cap), cap - 1) == RunStored(ops, cap)
  {
    if ops != [] {
      StoredIsPrefix(ops[..|ops| - 1], cap);
      StoredStep(RunStored(ops[..|ops| - 1], cap), RunUnbounded(ops[..|ops| - 1]), ops[|ops| - 1], cap);
    }
  }

  /** With a cap of 0 the trim keeps the whole list: the stored list is the unbounded one. */
  lemma {:induction false} ZeroCapKeepsAll(ops: seq<Op>)
    ensures RunStored(ops, 0) == RunUnbounded(ops)
  {
    if ops != [] { ZeroCapKeepsAll(ops[..|ops| - 1]); }
  }

  /** The cap is respected by every run if and only if it is at least 1. */
  lemma CapHoldsIff(cap: int)
    ensures (forall ops :: |RunStored(ops, cap)| <= cap) <==> cap >= 1
  {
    if cap >= 1 {
      forall ops ensures |RunStored(ops, cap)| <= cap { StoredIsPrefix(ops, cap); }
    } else {
      var ops := [Save("a")];
      assert ops[..0] == [];
      assert RunStored(ops, cap) == Stored([], Save("a"), cap);
      assert |RunStored(ops, cap)| > cap;
    }
  }

  // ----- what one call does to a list -----

  /** Deleting takes out the one entry of the keyword and keeps the order of the rest; a list
      without the keyword stays as it is. */
  lemma DeleteTakesOne(s: seq<string>, k: string, cap: int)
    requires Distinct(s)
    ensures k !in s ==> Stored(s, Delete(k), cap) == s && Unbounded(s, Delete(k)) == s
    ensures forall i :: 0 <= i < |s| && s[i] == k ==>
              Stored(s, Delete(k), cap) == s[..i] + s[i + 1..] == Unbounded(s, Delete(k))
  {
    if k !in s { RemoveAbsent(k, s); }
    forall i | 0 <= i < |s| && s[i] == k ensures Remove(k, s) == s[..i] + s[i + 1..] { RemoveAt(k, s, i); }
  }

  lemma RemoveAt(k: string, s: seq<string>, i: int)
    requires Distinct(s) && 0 <= i < |s| && s[i] == k
    ensures Remove(k, s) == s[..i] + s[i + 1..]
  {
    assert s == s[..i] + ([k] + s[i + 1..]);
    RemoveAppend(k, s[..i], [k] + s[i + 1..]);
    RemoveAbsent(k, s[..i]);
    RemoveAbsent(k, s[i + 1..]);
    assert ([k] + s[i + 1..])[1..] == s[i + 1..];
  }

  /** Saving puts the keyword first, then the other entries in their order, as many as fit. */
  lemma SavePutsFirst(s: seq<string>, k: string, cap: int)
    requires Distinct(s) && cap >= 1
    ensures var saved := Stored(s, Save(k), cap);
            && |saved| == Min(cap, if k in s then |s| else |s| + 1) && saved[0] == k
            && (k !in s ==> saved[1..] <= s)
            && forall i :: 0 <= i < |s| && s[i] == k ==> saved[1..] <= s[..i] + s[i + 1..]
  {
    FrontOf(k, Remove(k, s), cap);
    if k !in s { RemoveAbsent(k, s); }
    forall i | 0 <= i < |s| && s[i] == k ensures Remove(k, s) == s[..i] + s[i + 1..] { RemoveAt(k, s, i); }
  }

  lemma FrontOf(k: string, rest: seq<string>, cap: int)
    requires cap >= 1
    ensures var saved := Ltrim([k] + rest, cap - 1);
            |saved| == Min(cap, |rest| + 1) && saved[0] == k && saved[1..] <= rest
  {
    var saved := Ltrim([k] + rest, cap - 1);
    assert forall i :: 0 < i < |saved| ==> saved[i] == rest[i - 1];
  }

  // ----- saves only -----

  function Saves(keywords: seq<string>): seq<Op> {
    seq(|keywords|, i requires 0 <= i < |keywords| => Save(keywords[i]))
  }

  lemma SavesSnoc(keywords: seq<string>)
    requires keywords != []
    ensures Saves(keywords)[..|keywords| - 1] == Saves(keywords[..|keywords| - 1])
    ensures Saves(keywords)[|keywords| - 1] == Save(keywords[|keywords| - 1])
  {}

  /** Moving to the front is deduplicating the reversed history. */
  lemma {:induction false} UnboundedIsDedup(keywords: seq<string>)
    ensures RunUnbounded(Saves(keywords)) == Dedup(Reverse(keywords))
  {
    if keywords != [] {
      var n := |keywords| - 1;
      UnboundedIsDedup(keywords[..n]);
      SavesSnoc(keywords);
      ReverseSnoc(keywords[..n], keywords[n]);
      assert keywords == keywords[..n] + [keywords[n]];
      assert ([keywords[n]] + Reverse(keywords[..n]))[1..] == Reverse(keywords[..n]);
    }
  }

  lemma TakeOfSave(k: string, u: seq<string>, cap: nat)
    requires cap >= 1 && Distinct(u)
    ensures Take([k] + Remove(k, Take(u, cap)), cap) == Take([k] + Remove(k, u), cap)
  {
    if |u| > cap {
      var t, rest := u[..cap], u[cap..];
      assert u == t + rest;
      RemoveAppend(k, t, rest);
      if k in t {
        assert forall i :: 0 <= i < |t| ==> t[i] == u[i];
        RemoveOne(k, t);
      } else {
        RemoveAbsent(k, t);
      }
    }
  }

  /** After saves alone the stored list is the first `cap` of the deduplicated reversed history. */
  lemma {:induction false} SavedKeywordsAreMostRecent(keywords: seq<string>, cap: nat)
    requires cap >= 1
    ensures RunStored(Saves(keywords), cap) == Take(Dedup(Reverse(keywords)), cap)
  {
    if keywords != [] {
      var n := |keywords| - 1;
      var u := RunUnbounded(Saves(keywords[..n]));
      SavedKeywordsAreMostRecent(keywords[..n], cap);
      UnboundedIsDedup(keywords);
      UnboundedIsDedup(keywords[..n]);
      SavesSnoc(keywords);
      DedupDistinct(Reverse(keywords[..n]));
      TakeOfSave(keywords[n], u, cap);
    }
  }

  // ----- the imperative form -----

  class SearchHistory {
    const cap: int
    var lists: map<int, seq<string>>

    constructor (cap: int)
      ensures this.cap == cap && lists == map[]
    {
      this.cap, lists := cap, map[];
    }

    /** A missing key is an empty list. */
    function Recent(user: int): seq<string>
      reads this
    {
      if user in lists then lists[user] else []
    }

    method SaveRecentSearchKeyword(user: int, active: bool, keyword: string) returns (r: Result<(), SearchError>)
      modifies this
      ensures Recent(user) == if active then Stored(old(Recent(user)), Save(keyword), cap) else old(Recent(user))
      ensures forall u :: u != user ==> Recent(u) == old(Recent(u))
      ensures r == if active then Ok(()) else Err(AccountDeactivated)
    {
      if !active { return Err(AccountDeactivated); }
      var list := Remove(keyword, Recent(user));
      list := [keyword] + list;
      lists := lists[user := Ltrim(list, cap - 1)];
      r := Ok(());
    }

    /** The first cap entries, and so the whole list when it fits; a cap below 1 counts from the end. */
    method GetRecentSearches(user: int, active: bool) returns (r: Result<seq<string>, SearchError>)
      ensures r.Err? <==> !active
      ensures r.Err? ==> r.error == AccountDeactivated
      ensures r.Ok? ==> r.value <= Recent(user)
      ensures r.Ok? && cap >= 1 ==> |r.value| == Min(cap, |Recent(user)|)
      ensures r.Ok? && cap <= 0 ==> |r.value| == if |Recent(user)| + cap < 0 then 0 else |Recent(user)| + cap
    {
      if !active { return Err(AccountDeactivated); }
      r := Ok(Lrange(Recent(user), cap - 1));
    }

    method ClearRecentSearches(user: int, active: bool) returns (r: Result<(), SearchError>)
      modifies this
      ensures Recent(user) == if active then [] else old(Recent(user))
      ensures forall u :: u != user ==> Recent(u) == old(Recent(u))
      ensures r == if active then Ok(()) else Err(AccountDeactivated)
    {
      if !active { return Err(AccountDeactivated); }
      lists := lists - {user};
      r := Ok(());
    }

    /** Fails, changing nothing, when the keyword is not stored. */
    method DeleteRecentSearchKeyword(user: int, active: bool, keyword: string) returns (r: Result<(), SearchError>)
      modifies this
      ensures Recent(user) == if active then Stored(old(Recent(user)), Delete(keyword), cap) else old(Recent(user))
      ensures forall u :: u != user ==> Recent(u) == old(Recent(u))
      ensures r == if !active then Err(AccountDeactivated)
                   else if keyword in old(Recent(user)) then Ok(()) else Err(SearchKeywordNotFound)
    {
      if !active { return Err(AccountDeactivated); }
      var before := Recent(user);
      var after := Remove(keyword, before);
      lists := lists[user := after];
      if keyword !in before { RemoveAbsent(keyword, before); }
      if |before| - |after| == 0 {
        assert keyword !in before by { KeptLengthKeepsAll(keyword, before); }
        return Err(SearchKeywordNotFound);
      }
      r := Ok(());
    }
  }

  lemma {:induction false} KeptLengthKeepsAll(k: string, s: seq<string>)
    requires |Remove(k, s)| == |s|
    ensures k !in s
  {
    if s != [] {
      RemoveShrinks(k, s[1..]);
      KeptLengthKeepsAll(k, s[1..]);
    }
  }
}
