/**
 * The Chamber of Deputies open-data API as the extractors see it: JSON
 * records, pages carrying `dados` and `links`, HTTP responses, and the
 * "follow the next link" chain that every pagination loop of the
 * extractors walks.
 *
 * The HTTP transport and JSON decoding are abstracted into a `Server`: a
 * deterministic function from a request (URL plus optional query
 * parameters) to a response.
 */
module Pagination {

  datatype Option<T> = None | Some(value: T)

  /** A JSON value inside a record. Floats, lists and objects are never read
      by the extractors; they travel as `Other`, with their Python `str()` form. */
  datatype Json =
    | Null
    | Bool(b: bool)
    | Int(i: int)
    | Str(s: string)
    | Other(repr: string)

  /** A JSON object: one roster entry or one expense entry. */
  type Record = map<string, Json>

  /** Python's `d.get(key)`: the value, or None when the key is absent. */
  function Get(r: Record, key: string): Json
  {
    if key in r then r[key] else Null
  }

  /** One entry of a page's `links`; `rel` and `href` are read with `.get`, so either may be absent. */
  datatype Link = Link(rel: Option<string>, href: Option<string>)

  /** A decoded response body; `None` marks a key the object does not have. */
  datatype Payload = Payload(dados: Option<seq<Record>>, links: Option<seq<Link>>)

  /** The query parameters of a first request: `itens` and, for expenses, `ano`. */
  datatype Params = Params(itens: int, ano: Option<int>)

  datatype Request = Request(url: string, params: Option<Params>)

  /** What `requests.get` produces: either it raises (timeout, connection
      failure, ...), or there is a status code and a body, which is `None`
      when `resp.json()` cannot decode it. */
  datatype Response =
    | ConnectionError
    | Reply(status: int, body: Option<Payload>)

  type Server = Request -> Response

  /** The exceptions that escape a roster traversal, with the request that caused them. */
  datatype Failure =
    | ConnectionFailed(req: Request)    // requests.RequestException from requests.get
    | HttpError(status: int, req: Request)  // requests.HTTPError from raise_for_status
    | NotJson(req: Request)             // decoding error from resp.json()
    | MissingDados(req: Request)        // KeyError from payload["dados"]

  datatype Result<T> = Ok(value: T) | Err(error: Failure)

  /** The page size every first request asks for (the API's maximum). */
  const ItensPorPagina := 100

  /** `payload.get(key, [])` */
  function OrEmpty<T>(o: Option<seq<T>>): seq<T>
  {
    match o
    case None => []
    case Some(s) => s
  }

  /** Python truthiness of the loop variable `url`: neither None nor "". */
  predicate Truthy(url: Option<string>)
  {
    url.Some? && url.value != ""
  }

  /** The statuses for which `raise_for_status()` raises. */
  predicate IsHttpError(status: int)
  {
    400 <= status < 600
  }

  /** The response got past `raise_for_status()` and `resp.json()`. */
  predicate Served(resp: Response)
  {
    resp.Reply? && !IsHttpError(resp.status) && resp.body.Some?
  }

  /** The records a page contributes: `payload.get("dados", [])`. */
  function PageRows(resp: Response): seq<Record>
  {
    if resp.Reply? && resp.body.Some? then OrEmpty(resp.body.value.dados) else []
  }

  /** The links a page offers: `payload.get("links", [])`. */
  function PageLinks(resp: Response): seq<Link>
  {
    if resp.Reply? && resp.body.Some? then OrEmpty(resp.body.value.links) else []
  }

  /** The exception a roster traversal raises at a response it does not accept. */
  function FailureOf(req: Request, resp: Response): Failure
  {
    if resp.ConnectionError? then ConnectionFailed(req)
    else if IsHttpError(resp.status) then HttpError(resp.status, req)
    else if resp.body.None? then NotJson(req)
    else MissingDados(req)
  }

  predicate IsNext(link: Link)
  {
    link.rel == Some("next")
  }

  /** The value `next_url` holds after the link scan. */
  function NextHref(links: seq<Link>): Option<string>
  {
    if links == [] then None
    else if IsNext(links[|links| - 1]) then links[|links| - 1].href
    else NextHref(links[..|links| - 1])
  }

  /** The scan never breaks, so it is the LAST link with `rel == "next"`
      that decides the next URL (and a missing `href` on it gives None even
      when an earlier "next" link had one); with no such link there is none. */
  lemma {:induction false} NextHrefIsLastNext(links: seq<Link>, j: int)
    ensures (forall i :: 0 <= i < |links| ==> !IsNext(links[i])) ==> NextHref(links) == None
    ensures 0 <= j < |links| && IsNext(links[j]) && (forall i :: j < i < |links| ==> !IsNext(links[i]))
            ==> NextHref(links) == links[j].href
    decreases |links|
  {
    if links != [] {
      var n := |links| - 1;
      var front := links[..n];
      if !IsNext(links[n]) {
        NextHrefIsLastNext(front, j);
        if (forall i :: 0 <= i < |links| ==> !IsNext(links[i])) {
          assert forall i :: 0 <= i < |front| ==> !IsNext(front[i]);
        }
        if 0 <= j < |links| && IsNext(links[j]) && (forall i :: j < i < |links| ==> !IsNext(links[i])) {
          assert j < n;
          assert forall i :: j < i < |front| ==> !IsNext(front[i]);
        }
      }
    }
  }

  /** The `for link in payload.get("links", [])` loop that sets `next_url`. */
  method ScanNextLink(links: seq<Link>) returns (nextUrl: Option<string>)
    ensures nextUrl == NextHref(links)
  {
    nextUrl := None;
    for i := 0 to |links|
      invariant nextUrl == NextHref(links[..i])
    {
      assert links[..i + 1][..i] == links[..i];
      if IsNext(links[i]) {
        nextUrl := links[i].href;
      }
    }
    assert links[..|links|] == links;
  }

  /** The URL a loop moves on to after a response, if it moves on at all:
      only a served page whose next link is truthy continues the walk. */
  function Continuation(resp: Response): Option<string>
  {
    if Served(resp) && Truthy(NextHref(PageLinks(resp))) then NextHref(PageLinks(resp)) else None
  }

  /** Every request after the first is the bare next href, without parameters. */
  function Follow(href: string): Request
  {
    Request(href, None)
  }

  /** The next-link chain from `req` reaches a page with no way on within
      `fuel` requests. Whether the real server's chains are finite cannot be
      known from the extractors, so callers assume it through this predicate. */
  ghost predicate EndsWithin(server: Server, req: Request, fuel: nat)
    decreases fuel
  {
    fuel > 0 &&
    match Continuation(server(req))
    case None => true
    case Some(u) => EndsWithin(server, Follow(u), fuel - 1)
  }

  /** The requests met by following next links from `req`, cut at `fuel`. */
  ghost function Chain(server: Server, req: Request, fuel: nat): (c: seq<Request>)
    ensures |c| <= fuel
    ensures fuel > 0 ==> |c| >= 1 && c[0] == req
    decreases fuel
  {
    if fuel == 0 then []
    else
      match Continuation(server(req))
      case None => [req]
      case Some(u) => [req] + Chain(server, Follow(u), fuel - 1)
  }

  /** The bound only has to be large enough: once the whole chain ends
      within it, any larger one gives the same chain. `WalkFuelDoesNotMatter`
      states the same of a loop's own walk. */
  lemma {:induction false} FuelDoesNotMatter(server: Server, req: Request, fuel: nat, more: nat)
    requires EndsWithin(server, req, fuel) && fuel <= more
    ensures EndsWithin(server, req, more)
    ensures Chain(server, req, more) == Chain(server, req, fuel)
    decreases fuel
  {
    match Continuation(server(req))
    case None =>
    case Some(u) =>
      FuelDoesNotMatter(server, Follow(u), fuel - 1, more - 1);
  }

  /** Shape of a finite chain: it starts at the first request; each later
      request is the bare, non-empty href of the last "next" link of the
      page before, which was served; it ends at the first page that was not served or had
      no truthy next link, whether or not that page had records. */
  lemma {:induction false} ChainFollowsNextLinks(server: Server, req: Request, fuel: nat)
    requires EndsWithin(server, req, fuel)
    ensures var c := Chain(server, req, fuel);
      && |c| >= 1 && c[0] == req
      && (forall i :: 0 < i < |c| ==> c[i].params == None && c[i].url != "")
      && (forall i :: 0 <= i < |c| - 1 ==>
            Served(server(c[i])) && Some(c[i + 1].url) == NextHref(PageLinks(server(c[i]))))
      && (!Served(server(c[|c| - 1])) || !Truthy(NextHref(PageLinks(server(c[|c| - 1])))))
    decreases fuel
  {
    var c := Chain(server, req, fuel);
    match Continuation(server(req))
    case None =>
      assert c == [req];
    case Some(u) =>
      assert Served(server(req)) && Some(u) == NextHref(PageLinks(server(req))) && u != "";
      var rest := Chain(server, Follow(u), fuel - 1);
      ChainFollowsNextLinks(server, Follow(u), fuel - 1);
      assert c == [req] + rest && rest[0] == Follow(u);
      forall i | 0 < i < |c|
        ensures c[i].params == None && c[i].url != ""
      {
        assert c[i] == rest[i - 1];
      }
      forall i | 0 <= i < |c| - 1
        ensures Served(server(c[i])) && Some(c[i + 1].url) == NextHref(PageLinks(server(c[i])))
      {
        assert c[i + 1] == rest[i];
        if i > 0 {
          assert c[i] == rest[i - 1];
        }
      }
      assert c[|c| - 1] == rest[|rest| - 1];
  }

  /** Unfolding one step of the chain: what the loops use to move on. */
  lemma ChainStep(server: Server, req: Request, fuel: nat)
    requires fuel > 0
    ensures Continuation(server(req)).None? ==> Chain(server, req, fuel) == [req]
    ensures Continuation(server(req)).Some? ==>
      Chain(server, req, fuel) == [req] + Chain(server, Follow(Continuation(server(req)).value), fuel - 1)
  {
  }

  /** A served page whose body has no `links` key reads as having no links,
      so the walk ends there, whatever records the page carried. */
  lemma MissingLinksEndsWalk(server: Server, req: Request, fuel: nat)
    requires fuel > 0 && Served(server(req)) && server(req).body.value.links.None?
    ensures EndsWithin(server, req, fuel) && Chain(server, req, fuel) == [req]
  {
    assert PageLinks(server(req)) == [];
  }

  /** All records of the pages of `c`, in page order. */
  ghost function Rows(server: Server, c: seq<Request>): seq<Record>
  {
    if c == [] then [] else Rows(server, c[..|c| - 1]) + PageRows(server(c[|c| - 1]))
  }

  lemma {:induction false} RowsAppend(server: Server, a: seq<Request>, b: seq<Request>)
    ensures Rows(server, a + b) == Rows(server, a) + Rows(server, b)
    decreases |b|
  {
    if b == [] {
      assert a + b == a;
    } else {
      var n := |b| - 1;
      assert (a + b)[..|a + b| - 1] == a + b[..n];
      RowsAppend(server, a, b[..n]);
    }
  }

  /** A page without a `dados` key contributes nothing to the concatenation. */
  lemma PageWithoutDadosAddsNothing(server: Server, c: seq<Request>, i: int)
    requires 0 <= i < |c|
    requires server(c[i]).Reply? && server(c[i]).body.Some? && server(c[i]).body.value.dados.None?
    ensures Rows(server, c) == Rows(server, c[..i]) + Rows(server, c[i + 1..])
  {
    var before, page, after := c[..i], [c[i]], c[i + 1..];
    assert c == (before + page) + after;
    calc {
      Rows(server, c);
      Rows(server, (before + page) + after);
      { RowsAppend(server, before + page, after); }
      Rows(server, before + page) + Rows(server, after);
      { RowsAppend(server, before, page); }
      (Rows(server, before) + Rows(server, page)) + Rows(server, after);
      { SinglePageRows(server, c[i]); assert PageRows(server(c[i])) == []; }
      (Rows(server, before) + []) + Rows(server, after);
      { assert Rows(server, before) + [] == Rows(server, before); }
      Rows(server, before) + Rows(server, after);
    }
  }

  lemma SinglePageRows(server: Server, req: Request)
    ensures Rows(server, [req]) == PageRows(server(req))
  {
    assert [req][..0] == [];
  }

  /** Which pages a loop accepts before it stops. */
  datatype Acceptance =
    | AnyServedPage       // get_all_deputados: `payload.get("dados", [])`
    | PageWithDados       // extract_all_deputados: `payload["dados"]`
    | NonEmptyPage        // get_despesas_deputado_por_ano: `if not dados: break`

  predicate Accepts(policy: Acceptance, resp: Response)
  {
    Served(resp) &&
    match policy
    case AnyServedPage => true
    case PageWithDados => resp.body.value.dados.Some?
    case NonEmptyPage => OrEmpty(resp.body.value.dados) != []
  }

  /** The number of leading pages of `c` that `policy` accepts. */
  ghost function Leading(server: Server, c: seq<Request>, policy: Acceptance): (k: nat)
    ensures k <= |c|
    ensures forall i :: 0 <= i < k ==> Accepts(policy, server(c[i]))
    ensures k < |c| ==> !Accepts(policy, server(c[k]))
  {
    if c == [] || !Accepts(policy, server(c[0])) then 0
    else 1 + Leading(server, c[1..], policy)
  }

  lemma LeadingIs(server: Server, c: seq<Request>, policy: Acceptance, k: nat)
    requires k <= |c|
    requires forall i :: 0 <= i < k ==> Accepts(policy, server(c[i]))
    requires k < |c| ==> !Accepts(policy, server(c[k]))
    ensures Leading(server, c, policy) == k
  {
  }

  /** A traversal that raises at the first page its policy rejects: it
      yields every page's records in page order, or an exception and no
      records at all. */
  ghost function Traverse(server: Server, req: Request, fuel: nat, policy: Acceptance): Result<seq<Record>>
  {
    var c := Chain(server, req, fuel);
    var k := Leading(server, c, policy);
    if k == |c| then Ok(Rows(server, c)) else Err(FailureOf(c[k], server(c[k])))
  }

  /** Only the last request of a chain can be one that was not served: every
      earlier page had to be served to offer a next link. */
  lemma OnlyLastPageCanFail(server: Server, req: Request, fuel: nat)
    requires EndsWithin(server, req, fuel)
    ensures var c := Chain(server, req, fuel);
      |c| - 1 <= Leading(server, c, AnyServedPage) <= |c|
  {
    ChainFollowsNextLinks(server, req, fuel);
  }

  /** The walk of a `while url:` loop under `policy` stops within `fuel`
      requests: it reaches a page the policy rejects, where the loop leaves
      whatever links that page offers, or a page with no way on. Unlike
      `EndsWithin`, nothing is asked of the links past a rejected page. */
  ghost predicate WalkEndsWithin(server: Server, req: Request, fuel: nat, policy: Acceptance)
    decreases fuel
  {
    fuel > 0 &&
    (Accepts(policy, server(req)) ==>
      match Continuation(server(req))
      case None => true
      case Some(u) => WalkEndsWithin(server, Follow(u), fuel - 1, policy))
  }

  /** A chain that ends bounds every loop's walk along it. */
  lemma {:induction false} EndsWithinWalks(server: Server, req: Request, fuel: nat, policy: Acceptance)
    requires EndsWithin(server, req, fuel)
    ensures WalkEndsWithin(server, req, fuel, policy)
    decreases fuel
  {
    match Continuation(server(req))
    case None =>
    case Some(u) =>
      EndsWithinWalks(server, Follow(u), fuel - 1, policy);
  }

  /** A loop that accepts every served page walks the whole chain: for it the
      two bounds are the same. */
  lemma {:induction false} ServedWalkIsWholeChain(server: Server, req: Request, fuel: nat)
    ensures WalkEndsWithin(server, req, fuel, AnyServedPage) <==> EndsWithin(server, req, fuel)
    decreases fuel
  {
    if fuel > 0 {
      match Continuation(server(req))
      case None =>
      case Some(u) =>
        assert Accepts(AnyServedPage, server(req));
        ServedWalkIsWholeChain(server, Follow(u), fuel - 1);
    }
  }

  /** A chain holds the point where a loop under `policy` stops: a page
      the policy rejects, or a last page with no way on. */
  ghost predicate ReachesStop(server: Server, c: seq<Request>, policy: Acceptance)
  {
    |c| >= 1 && (Leading(server, c, policy) < |c| || Continuation(server(c[|c| - 1])).None?)
  }

  /** Within its bound, a walk's chain reaches the point where the loop
      stops. So a chain cut at `fuel` is never cut while the loop would
      still go on. */
  lemma {:induction false} WalkReachesItsEnd(server: Server, req: Request, fuel: nat, policy: Acceptance)
    requires WalkEndsWithin(server, req, fuel, policy)
    ensures ReachesStop(server, Chain(server, req, fuel), policy)
    decreases fuel
  {
    var c := Chain(server, req, fuel);
    ChainStep(server, req, fuel);
    if !Accepts(policy, server(req)) {
      assert c[0] == req && Leading(server, c, policy) == 0;
    } else {
      match Continuation(server(req))
      case None =>
        assert c == [req] && c[|c| - 1] == req;
      case Some(u) =>
        var rest := Chain(server, Follow(u), fuel - 1);
        WalkReachesItsEnd(server, Follow(u), fuel - 1, policy);
        StopSurvivesCons(server, req, rest, policy);
    }
  }

  lemma StopSurvivesCons(server: Server, req: Request, rest: seq<Request>, policy: Acceptance)
    requires Accepts(policy, server(req)) && ReachesStop(server, rest, policy)
    ensures ReachesStop(server, [req] + rest, policy)
  {
    var c := [req] + rest;
    LeadingCons(server, req, rest, policy);
    assert c[|c| - 1] == rest[|rest| - 1];
  }

  /** A walk that stops within a bound stops within any larger one. */
  lemma {:induction false} WalkMonotone(server: Server, req: Request, fuel: nat, more: nat, policy: Acceptance)
    requires WalkEndsWithin(server, req, fuel, policy) && fuel <= more
    ensures WalkEndsWithin(server, req, more, policy)
    decreases fuel
  {
    if Accepts(policy, server(req)) {
      match Continuation(server(req))
      case None =>
      case Some(u) =>
        WalkMonotone(server, Follow(u), fuel - 1, more - 1, policy);
    }
  }

  /** Two cuts of a chain agree on everything a loop under `policy` sees:
      the same number of accepted leading pages, the same page where the
      loop stops, and, when no page is rejected, the very same requests. */
  ghost predicate SameWalk(server: Server, c: seq<Request>, d: seq<Request>, policy: Acceptance)
  {
    var k := Leading(server, c, policy);
    && Leading(server, d, policy) == k
    && (k < |c| ==> k + 1 <= |d| && d[..k + 1] == c[..k + 1])
    && (k == |c| ==> d == c)
  }

  /** Cutting the chain at a larger bound does not change the walk. */
  lemma {:induction false} WalkPrefixSame(server: Server, req: Request, fuel: nat, more: nat, policy: Acceptance)
    requires WalkEndsWithin(server, req, fuel, policy) && fuel <= more
    ensures SameWalk(server, Chain(server, req, fuel), Chain(server, req, more), policy)
    decreases fuel
  {
    if !Accepts(policy, server(req)) {
      SameWalkRejectedStart(server, req, fuel, more, policy);
    } else {
      match Continuation(server(req))
      case None =>
        SameWalkLastPage(server, req, fuel, more, policy);
      case Some(u) =>
        WalkPrefixSame(server, Follow(u), fuel - 1, more - 1, policy);
        SameWalkNextPage(server, req, fuel, more, policy, u);
    }
  }

  lemma SameWalkRejectedStart(server: Server, req: Request, fuel: nat, more: nat, policy: Acceptance)
    requires 0 < fuel <= more && !Accepts(policy, server(req))
    ensures SameWalk(server, Chain(server, req, fuel), Chain(server, req, more), policy)
  {
    SameWalkRejectFirst(server, Chain(server, req, fuel), Chain(server, req, more), policy);
  }

  lemma SameWalkLastPage(server: Server, req: Request, fuel: nat, more: nat, policy: Acceptance)
    requires 0 < fuel <= more && Continuation(server(req)).None?
    ensures SameWalk(server, Chain(server, req, fuel), Chain(server, req, more), policy)
  {
    ChainStep(server, req, fuel);
    ChainStep(server, req, more);
    SameWalkRefl(server, [req], policy);
  }

  lemma SameWalkNextPage(server: Server, req: Request, fuel: nat, more: nat, policy: Acceptance, u: string)
    requires 0 < fuel <= more && Accepts(policy, server(req)) && Continuation(server(req)) == Some(u)
    requires SameWalk(server, Chain(server, Follow(u), fuel - 1), Chain(server, Follow(u), more - 1), policy)
    ensures SameWalk(server, Chain(server, req, fuel), Chain(server, req, more), policy)
  {
    ChainStep(server, req, fuel);
    ChainStep(server, req, more);
    SameWalkCons(server, req, Chain(server, Follow(u), fuel - 1), Chain(server, Follow(u), more - 1), policy);
  }

  lemma SameWalkRefl(server: Server, c: seq<Request>, policy: Acceptance)
    ensures SameWalk(server, c, c, policy)
  {
    var k := Leading(server, c, policy);
    if k < |c| {
      assert c[..k + 1] == c[..k + 1];
    }
  }

  lemma SameWalkRejectFirst(server: Server, c: seq<Request>, d: seq<Request>, policy: Acceptance)
    requires |c| >= 1 && |d| >= 1 && c[0] == d[0] && !Accepts(policy, server(c[0]))
    ensures SameWalk(server, c, d, policy)
  {
    assert Leading(server, c, policy) == 0 && Leading(server, d, policy) == 0;
    assert d[..1] == [d[0]] == [c[0]] == c[..1];
  }

  lemma LeadingCons(server: Server, req: Request, rest: seq<Request>, policy: Acceptance)
    requires Accepts(policy, server(req))
    ensures Leading(server, [req] + rest, policy) == 1 + Leading(server, rest, policy)
  {
    assert ([req] + rest)[1..] == rest;
  }

  lemma SameWalkCons(server: Server, req: Request, c: seq<Request>, d: seq<Request>, policy: Acceptance)
    requires Accepts(policy, server(req)) && SameWalk(server, c, d, policy)
    ensures SameWalk(server, [req] + c, [req] + d, policy)
  {
    var k := Leading(server, c, policy);
    LeadingCons(server, req, c, policy);
    LeadingCons(server, req, d, policy);
    if k < |c| {
      assert ([req] + d)[..k + 2] == [req] + d[..k + 1] == [req] + c[..k + 1] == ([req] + c)[..k + 2];
    } else {
      assert d == c;
    }
  }

  /** A loop's walk gives the same result under any bound large enough for
      it to stop: the bound is only a termination measure. */
  lemma WalkFuelDoesNotMatter(server: Server, req: Request, fuel: nat, more: nat, policy: Acceptance)
    requires WalkEndsWithin(server, req, fuel, policy) && fuel <= more
    ensures WalkEndsWithin(server, req, more, policy)
    ensures Traverse(server, req, more, policy) == Traverse(server, req, fuel, policy)
  {
    WalkMonotone(server, req, fuel, more, policy);
    WalkPrefixSame(server, req, fuel, more, policy);
    var c, d := Chain(server, req, fuel), Chain(server, req, more);
    var k := Leading(server, c, policy);
    if k < |c| {
      assert d[k] == d[..k + 1][k] == c[..k + 1][k] == c[k];
    }
  }

  /** A served page whose last "next" link points back at itself never
      lets the chain end, whatever the bound. */
  lemma {:induction false} SelfLinkNeverEnds(server: Server, req: Request, fuel: nat)
    requires req.params == None && req.url != ""
    requires Served(server(req)) && NextHref(PageLinks(server(req))) == Some(req.url)
    ensures !EndsWithin(server, req, fuel)
    decreases fuel
  {
    if fuel > 0 {
      assert Follow(req.url) == req;
      SelfLinkNeverEnds(server, req, fuel - 1);
    }
  }

  /** The state of a `while url:` loop part way along `chain`: the pages
      visited so far are a prefix of the chain, all accepted, and the loop
      variables `url` and `params` name the rest of the chain, or nothing
      when the chain is done. */
  ghost predicate Walking(server: Server, chain: seq<Request>, visited: seq<Request>,
                          url: Option<string>, params: Option<Params>, left: nat, policy: Acceptance)
  {
    && (Truthy(url) ==> WalkEndsWithin(server, Request(url.value, params), left, policy)
                        && visited + Chain(server, Request(url.value, params), left) == chain)
    && (!Truthy(url) ==> visited == chain)
    && (forall i :: 0 <= i < |visited| ==> Accepts(policy, server(visited[i])))
  }

  lemma WalkStart(server: Server, req: Request, fuel: nat, policy: Acceptance)
    requires WalkEndsWithin(server, req, fuel, policy) && req.url != ""
    ensures Walking(server, Chain(server, req, fuel), [], Some(req.url), req.params, fuel, policy)
  {
  }

  /** An accepted page moves the walk on to its next link, without parameters. */
  lemma WalkStep(server: Server, chain: seq<Request>, visited: seq<Request>,
                 url: Option<string>, params: Option<Params>, left: nat, policy: Acceptance,
                 nextUrl: Option<string>)
    requires Walking(server, chain, visited, url, params, left, policy) && Truthy(url)
    requires Accepts(policy, server(Request(url.value, params)))
    requires nextUrl == NextHref(PageLinks(server(Request(url.value, params))))
    ensures left >= 1
    ensures Walking(server, chain, visited + [Request(url.value, params)], nextUrl, None, left - 1, policy)
    ensures Rows(server, visited + [Request(url.value, params)])
            == Rows(server, visited) + PageRows(server(Request(url.value, params)))
  {
    var req := Request(url.value, params);
    ChainStep(server, req, left);
    assert (visited + [req])[..|visited|] == visited;
  }

  /** A page the policy rejects ends the walk at the pages visited so far. */
  lemma WalkStop(server: Server, chain: seq<Request>, visited: seq<Request>,
                 url: Option<string>, params: Option<Params>, left: nat, policy: Acceptance)
    requires Walking(server, chain, visited, url, params, left, policy) && Truthy(url)
    requires !Accepts(policy, server(Request(url.value, params)))
    ensures Leading(server, chain, policy) == |visited| < |chain|
    ensures chain[|visited|] == Request(url.value, params) && chain[..|visited|] == visited
  {
    var req := Request(url.value, params);
    assert chain[|visited|] == req;
    assert forall i :: 0 <= i < |visited| ==> chain[i] == visited[i];
    LeadingIs(server, chain, policy, |visited|);
  }

  /** A walk that ran out of next links visited the whole chain. */
  lemma WalkDone(server: Server, chain: seq<Request>, visited: seq<Request>,
                 url: Option<string>, params: Option<Params>, left: nat, policy: Acceptance)
    requires Walking(server, chain, visited, url, params, left, policy) && !Truthy(url)
    ensures Leading(server, chain, policy) == |visited| == |chain|
    ensures chain[..|visited|] == visited
  {
    LeadingIs(server, chain, policy, |visited|);
  }
}
