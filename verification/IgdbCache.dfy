/** The cached bulk fetch: read what is cached, fetch the rest, answer in request order. */
module IgdbCache {
  import opened Wrappers
  import opened IgdbClient

  function Find(remote: seq<Game>, id: int): Option<Game> {
    if remote == [] then None else if remote[0].id == id then Some(remote[0]) else Find(remote[1..], id)
  }

  lemma {:induction false} FindIs(remote: seq<Game>, id: int)
    requires UniqueIds(remote)
    ensures match Find(remote, id)
            case None => forall g :: g in remote ==> g.id != id
            case Some(f) => f in remote && f.id == id && forall g :: g in remote && g.id == id ==> g == f
  {
    if remote != [] {
      FindIs(remote[1..], id);
      forall g | g in remote && g.id == id && remote[0].id == id ensures g == remote[0] {
        var i :| 0 <= i < |remote| && remote[i] == g;
      }
    }
  }

  /** The uncached answer: the details of the existing requested games, in request order, with
      repeats. */
  function Existing(remote: seq<Game>, build: Game -> string, ids: seq<int>): seq<string> {
    if ids == [] then []
    else
      var rest, found := Existing(remote, build, ids[..|ids| - 1]), Find(remote, ids[|ids| - 1]);
      if found.Some? then rest + [build(found.value)] else rest
  }

  /** Every entry is what a fresh fetch of its id would give. */
  ghost predicate Coherent(entries: map<int, string>, remote: seq<Game>, build: Game -> string) {
    forall id :: id in entries ==> Find(remote, id).Some? && entries[id] == build(Find(remote, id).value)
  }

  class GameCache {
    const client: Client
    const build: Game -> string
    var entries: map<int, string>

    constructor (client: Client, build: Game -> string)
      ensures this.client == client && this.build == build && entries == map[]
    {
      this.client, this.build, entries := client, build, map[];
    }

    ghost predicate Valid()
      reads this
    {
      UniqueIds(client.remote) && Coherent(entries, client.remote, build)
    }

    /** Any set of entries may expire at any moment. */
    method Expire()
      modifies this
      ensures forall id :: id in entries ==> id in old(entries) && entries[id] == old(entries)[id]
    {
      var gone: set<int> := *;
      entries := entries - gone;
    }

    /** Whatever is cached and however it expires, the answer is the uncached one, and the cache
        stays coherent and then holds every requested game it lacked. A failed fetch leaves it
        coherent too, and isolated expired tokens that can be renewed never fail one. */
    method GetGamesByIds(ids: seq<int>) returns (r: Result<seq<string>, IgdbError>)
      requires Valid()
      modifies this, client
      ensures Valid()
      ensures r.Ok? ==> r.value == Existing(client.remote, build, ids)
      ensures r.Ok? ==> forall id :: id in ids && Find(client.remote, id).Some? && id !in old(entries) ==> id in entries
      ensures client.ExpiredTokensOnly(old(client.posts)) ==> r.Ok?
    {
      if |ids| == 0 { return Ok([]); }
      var results: map<int, string> := map[];
      var missing: seq<int> := [];
      for i := 0 to |ids|
        invariant Valid() && Coherent(results, client.remote, build)
        invariant forall id :: id in missing ==> id in ids
        invariant forall k :: 0 <= k < i ==> ids[k] in results || ids[k] in missing
        invariant forall id :: id in entries || id in results ==> id in old(entries)
        invariant client.posts == old(client.posts)
      {
        Expire();
        if ids[i] in entries {
          results := results[ids[i] := entries[ids[i]]];
        } else {
          missing := missing + [ids[i]];
        }
      }
      if |missing| > 0 {
        var fetched := client.GetGamesByIds(missing);
        if fetched.Err? { return Err(fetched.error); }
        var before := results;
        for i := 0 to |fetched.value|
          invariant Valid() && Coherent(results, client.remote, build)
          invariant forall id :: id in before ==> id in results
          invariant forall k :: 0 <= k < i ==> fetched.value[k].id in results && fetched.value[k].id in entries
        {
          var raw := fetched.value[i];
          assert raw in fetched.value;
          FindIs(client.remote, raw.id);
          results := results[raw.id := build(raw)];
          entries := entries[raw.id := build(raw)];
        }
        forall id | id in ids && Find(client.remote, id).Some?
          ensures id in results && (id in before || id in entries)
        {
          FindIs(client.remote, id);
          if id !in before {
            var g := Find(client.remote, id).value;
            assert g in fetched.value;
          }
        }
      }
      var answer := [];
      for i := 0 to |ids|
        invariant answer == Existing(client.remote, build, ids[..i])
      {
        assert ids[..i + 1][..i] == ids[..i];
        assert ids[i] in ids;
        if ids[i] in results { answer := answer + [results[ids[i]]]; }
      }
      assert ids[..|ids|] == ids;
      r := Ok(answer);
    }
  }

  /** The answer has one entry per existing requested id, in request order. */
  lemma {:induction false} ExistingLength(remote: seq<Game>, build: Game -> string, ids: seq<int>)
    requires forall i :: 0 <= i < |ids| ==> Find(remote, ids[i]).Some?
    ensures |Existing(remote, build, ids)| == |ids|
    ensures forall i :: 0 <= i < |ids| ==> Existing(remote, build, ids)[i] == build(Find(remote, ids[i]).value)
  {
    if ids != [] { ExistingLength(remote, build, ids[..|ids| - 1]); }
  }

  /** One id: the detail of the game with it, or nothing. */
  lemma ExistingOne(remote: seq<Game>, build: Game -> string, id: int)
    requires UniqueIds(remote)
    ensures (forall g :: g in remote ==> g.id != id) ==> Existing(remote, build, [id]) == []
    ensures forall g :: g in remote && g.id == id ==> Existing(remote, build, [id]) == [build(g)]
  {
    FindIs(remote, id);
    assert [id][..0] == [];
  }

  /** Unknown ids leave no trace: splitting a request splits the answer. */
  lemma {:induction false} ExistingAppend(remote: seq<Game>, build: Game -> string, a: seq<int>, b: seq<int>)
    ensures Existing(remote, build, a + b) == Existing(remote, build, a) + Existing(remote, build, b)
  {
    if b == [] {
      assert a + b == a;
    } else {
      ExistingAppend(remote, build, a, b[..|b| - 1]);
      assert (a + b)[..|a + b| - 1] == a + b[..|b| - 1];
    }
  }
}
