/** The IGDB client: pagination, one retry after an expired token or a rate limit, and bulk
    lookup in chunks.

    The service is a stable remote list. Which of its requests fail, how, and whether a token can
    be renewed is an arbitrary oracle indexed by the number of requests made so far. */
module IgdbClient {
  import opened Wrappers
  import opened Lists

  const PAGE_SIZE := 500
  const MAX_PAGES := 500

  datatype Game = Game(id: int, payload: string)

  datatype IgdbError = AuthError | RateLimitError | NotFoundError | ServerError

  type Reply = Result<seq<Game>, IgdbError>

  // ----- what the service answers -----

  datatype Query = PageAt(offset: nat) | ById(ids: seq<int>, limit: nat)

  function WithIds(remote: seq<Game>, ids: seq<int>): seq<Game> {
    if remote == [] then []
    else if remote[0].id in ids then [remote[0]] + WithIds(remote[1..], ids)
    else WithIds(remote[1..], ids)
  }

  /** The page of up to 500 games at an offset, or the games with given ids up to a limit. */
  function Answer(remote: seq<Game>, q: Query): seq<Game> {
    match q
    case PageAt(offset) => if offset >= |remote| then [] else Take(remote[offset..], PAGE_SIZE)
    case ById(ids, limit) => Take(WithIds(remote, ids), limit)
  }

  function Flatten(pages: seq<seq<Game>>): seq<Game> {
    if pages == [] then [] else Flatten(pages[..|pages| - 1]) + pages[|pages| - 1]
  }

  lemma FlattenSnoc(pages: seq<seq<Game>>, page: seq<Game>)
    ensures Flatten(pages + [page]) == Flatten(pages) + page
  {
    assert (pages + [page])[..|pages|] == pages;
  }

  /** All pages but the last are full. */
  ghost predicate FullPages(pages: seq<seq<Game>>) {
    && (forall i :: 0 <= i < |pages| ==> 0 < |pages[i]| <= 500)
    && (forall i :: 0 <= i < |pages| - 1 ==> |pages[i]| == 500)
  }

  /** The pages read so far: full ones, and nothing but the first `offset` games. */
  ghost predicate ReadUpTo(remote: seq<Game>, pages: seq<seq<Game>>, offset: nat) {
    && offset == PAGE_SIZE * |pages| && |pages| <= MAX_PAGES && offset <= |remote|
    && (forall i :: 0 <= i < |pages| ==> |pages[i]| == PAGE_SIZE)
    && Flatten(pages) == remote[..offset]
  }

  /** Pages that are an initial part of the list. */
  ghost predicate ArePages(remote: seq<Game>, pages: seq<seq<Game>>) {
    FullPages(pages) && |pages| <= 500 && Flatten(pages) <= remote
  }

  /** Pages that are all that may be read of the list. */
  ghost predicate AreAllPages(remote: seq<Game>, pages: seq<seq<Game>>) {
    ArePages(remote, pages) && Flatten(pages) == Take(remote, 250000)
  }

  lemma ReadIsPages(remote: seq<Game>, pages: seq<seq<Game>>, offset: nat)
    requires ReadUpTo(remote, pages, offset)
    ensures ArePages(remote, pages)
    ensures offset / PAGE_SIZE >= MAX_PAGES || offset == |remote| ==> AreAllPages(remote, pages)
  {}

  /** One more page: an empty or a short one ends the list, a full one goes on. */
  lemma NextPage(remote: seq<Game>, pages: seq<seq<Game>>, offset: nat)
    requires ReadUpTo(remote, pages, offset) && offset / PAGE_SIZE < MAX_PAGES
    ensures var page := Answer(remote, PageAt(offset));
            if page == [] then AreAllPages(remote, pages)
            else if |page| < PAGE_SIZE then AreAllPages(remote, pages + [page])
            else ReadUpTo(remote, pages + [page], offset + PAGE_SIZE)
  {
    var page := Answer(remote, PageAt(offset));
    assert |page| == Min(PAGE_SIZE, |remote| - offset);
    FlattenSnoc(pages, page);
    assert remote[..offset] + page == remote[..offset + |page|];
    if page == [] { ReadIsPages(remote, pages, offset); }
    if 0 < |page| < PAGE_SIZE { assert Flatten(pages + [page]) == remote; }
  }

  ghost predicate UniqueIds(remote: seq<Game>) {
    forall i, j :: 0 <= i < j < |remote| ==> remote[i].id != remote[j].id
  }

  lemma {:induction false} WithIdsMembers(remote: seq<Game>, ids: seq<int>, g: Game)
    ensures g in WithIds(remote, ids) <==> g in remote && g.id in ids
  {
    if remote != [] {
      WithIdsMembers(remote[1..], ids, g);
      assert g in remote <==> g == remote[0] || g in remote[1..];
    }
  }

  lemma {:induction false} WithIdsUnique(remote: seq<Game>, ids: seq<int>)
    requires UniqueIds(remote)
    ensures UniqueIds(WithIds(remote, ids))
  {
    if remote != [] {
      WithIdsUnique(remote[1..], ids);
      var rest := WithIds(remote[1..], ids);
      forall i | 0 <= i < |rest| ensures rest[i].id != remote[0].id {
        WithIdsMembers(remote[1..], ids, rest[i]);
        assert rest[i] in remote[1..];
      }
    }
  }

  /** A limit of one row per requested id never cuts an answer short. */
  lemma LimitNeverCuts(remote: seq<Game>, ids: seq<int>)
    requires UniqueIds(remote)
    ensures Answer(remote, ById(ids, |ids|)) == WithIds(remote, ids)
  {
    var found := WithIds(remote, ids);
    WithIdsUnique(remote, ids);
    var foundIds := seq(|found|, i requires 0 <= i < |found| => found[i].id);
    DistinctSize(foundIds);
    forall x | x in Elements(foundIds) ensures x in Elements(ids) {
      var i :| 0 <= i < |foundIds| && foundIds[i] == x;
      WithIdsMembers(remote, ids, found[i]);
      assert found[i] in found;
    }
    SubsetSize(Elements(foundIds), Elements(ids));
    ElementsSize(ids);
  }

  class Client {
    const remote: seq<Game>
    const faults: nat -> Option<IgdbError>
    const renewable: nat -> bool
    var accessToken: int
    var posts: nat

    constructor (remote: seq<Game>, faults: nat -> Option<IgdbError>, renewable: nat -> bool)
      ensures this.remote == remote && this.faults == faults && this.renewable == renewable && posts == 0
    {
      this.remote, this.faults, this.renewable := remote, faults, renewable;
      accessToken, posts := 0, 0;
    }

    /** What request number n brings. */
    function Replied(n: nat, q: Query): Reply {
      match faults(n)
      case Some(error) => Err(error)
      case None => Ok(Answer(remote, q))
    }

    /** From request n on only tokens expire, never twice in a row, and a new one can be had. */
    ghost predicate ExpiredTokensOnly(n: nat) {
      forall k: nat :: n <= k && faults(k).Some?
        ==> faults(k).value == AuthError && faults(k + 1).None? && renewable(k + 1)
    }

    /** The same with isolated rate limits as well. */
    ghost predicate TransientFaultsOnly(n: nat) {
      forall k: nat :: n <= k && faults(k).Some?
        ==> (faults(k).value == AuthError || faults(k).value == RateLimitError)
            && faults(k + 1).None? && renewable(k + 1)
    }

    method Post(q: Query) returns (r: Reply)
      modifies this
      ensures posts == old(posts) + 1 && r == Replied(old(posts), q)
    {
      r := Replied(posts, q);
      posts := posts + 1;
    }

    /** Asks for a new token, which may fail. */
    method FetchToken() returns (ok: bool)
      modifies this`accessToken
      ensures ok == renewable(posts)
    {
      ok := renewable(posts);
      if ok { accessToken := *; }
    }

    /** After a 401 the token is renewed and the request repeated, once; nothing else is retried. */
    method PostWithAuthRetry(q: Query) returns (r: Reply)
      modifies this
      ensures posts == old(posts) + if faults(old(posts)) == Some(AuthError) && renewable(old(posts) + 1) then 2 else 1
      ensures r.Ok? ==> r.value == Answer(remote, q)
      ensures r.Ok? <==> faults(old(posts)).None?
                         || (faults(old(posts)) == Some(AuthError) && renewable(old(posts) + 1)
                             && faults(old(posts) + 1).None?)
      ensures faults(old(posts)).Some? && faults(old(posts)) != Some(AuthError) ==> r == Err(faults(old(posts)).value)
    {
      r := Post(q);
      if r.Err? && r.error == AuthError {
        var renewed := FetchToken();
        if !renewed { return Err(ServerError); }
        r := Post(q);
      }
    }

    /** One page request, repeated once after a rate limit. */
    method FetchPage(offset: nat) returns (r: Reply)
      modifies this
      ensures old(posts) <= posts <= old(posts) + 4
      ensures r.Ok? ==> r.value == Answer(remote, PageAt(offset))
      ensures TransientFaultsOnly(old(posts)) ==> r.Ok?
    {
      r := PostWithAuthRetry(PageAt(offset));
      if r.Err? && r.error == RateLimitError { r := PostWithAuthRetry(PageAt(offset)); }
    }

    /** Pages in offset order. Without an error they are exactly the first 250000 games of the
        remote list, no gap and no repeat; after an error they are a prefix of it. Isolated
        expired tokens and rate limits are absorbed. */
    method Paginate() returns (pages: seq<seq<Game>>, error: Option<IgdbError>)
      modifies this
      ensures ArePages(remote, pages)
      ensures error.None? ==> AreAllPages(remote, pages)
      ensures posts <= old(posts) + 2000
      ensures TransientFaultsOnly(old(posts)) ==> error.None?
    {
      pages, error := [], None;
      var offset: nat := 0;
      while true
        invariant ReadUpTo(remote, pages, offset)
        invariant old(posts) <= posts <= old(posts) + 4 * |pages|
        decreases MAX_PAGES - |pages|
      {
        ReadIsPages(remote, pages, offset);
        if offset / PAGE_SIZE >= MAX_PAGES { break; }
        var r := FetchPage(offset);
        if r.Err? { return pages, Some(r.error); }
        NextPage(remote, pages, offset);
        if r.value == [] { break; }
        pages := pages + [r.value];
        if |r.value| < PAGE_SIZE { break; }
        offset := offset + PAGE_SIZE;
      }
    }

    /** Bulk lookup in chunks of 500 ids, each within two requests: exactly the existing games among the ids. */
    method GetGamesByIds(ids: seq<int>) returns (r: Reply)
      requires UniqueIds(remote)
      modifies this
      ensures r.Ok? ==> forall g :: g in r.value <==> g in remote && g.id in ids
      ensures ExpiredTokensOnly(old(posts)) ==> r.Ok?
      ensures posts <= old(posts) + 2 * ((|ids| + 499) / 500)
    {
      if |ids| == 0 { return Ok([]); }
      var all := [];
      var i: nat := 0;
      while i < |ids|
        invariant forall g :: g in all <==> g in remote && g.id in Take(ids, i)
        invariant i % PAGE_SIZE == 0 && i < |ids| + PAGE_SIZE
        invariant old(posts) <= posts <= old(posts) + 2 * (i / PAGE_SIZE)
      {
        var chunk := Take(ids[i..], PAGE_SIZE);
        var reply := PostWithAuthRetry(ById(chunk, |chunk|));
        if reply.Err? { return reply; }
        LimitNeverCuts(remote, chunk);
        forall g ensures g in reply.value <==> g in remote && g.id in chunk { WithIdsMembers(remote, chunk, g); }
        ChunkNext(ids, i);
        all := all + reply.value;
        i := i + PAGE_SIZE;
      }
      r := Ok(all);
    }
  }

  lemma ChunkNext(ids: seq<int>, i: nat)
    requires i < |ids|
    ensures Take(ids, i + PAGE_SIZE) == Take(ids, i) + Take(ids[i..], PAGE_SIZE)
  {}
}
