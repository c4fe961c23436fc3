/**
 * The roster extractor (src/extract/deputados.py): `extract_all_deputados`,
 * the same "follow the next link" walk as the expense extractor's roster
 * fetch, except that it reads `payload["dados"]` strictly, so a page
 * without that key raises instead of contributing nothing.
 */
module Deputados {
  import opened Pagination
  import Despesas

  const ApiUrl := "https://dadosabertos.camara.leg.br/api/v2/deputados"

  /** The first request: `{"itens": 100}`, the API's maximum page size. */
  function FirstRequest(): Request
  {
    Request(ApiUrl, Some(Params(100, None)))
  }

  /** extract_all_deputados: the concatenation of every page's `dados` in
      page order, or the first exception (connection failure, error status,
      undecodable body, missing `dados`) and no rows at all. */
  method ExtractAllDeputados(server: Server, ghost fuel: nat) returns (r: Result<seq<Record>>)
    requires WalkEndsWithin(server, FirstRequest(), fuel, PageWithDados)
    ensures r == Traverse(server, FirstRequest(), fuel, PageWithDados)
  {
    ghost var chain := Chain(server, FirstRequest(), fuel);
    var allData: seq<Record> := [];
    var url: Option<string> := Some(ApiUrl);
    var params: Option<Params> := Some(Params(100, None));
    ghost var visited: seq<Request> := [];
    ghost var left: nat := fuel;
    WalkStart(server, FirstRequest(), fuel, PageWithDados);

    while Truthy(url)
      invariant Walking(server, chain, visited, url, params, left, PageWithDados)
      invariant allData == Rows(server, visited)
      decreases left
    {
      var req := Request(url.value, params);
      var response := server(req);
      if response.ConnectionError? {
        WalkStop(server, chain, visited, url, params, left, PageWithDados);
        return Err(ConnectionFailed(req));
      }
      if IsHttpError(response.status) {
        // response.raise_for_status()
        WalkStop(server, chain, visited, url, params, left, PageWithDados);
        return Err(HttpError(response.status, req));
      }
      if response.body.None? {
        // response.json()
        WalkStop(server, chain, visited, url, params, left, PageWithDados);
        return Err(NotJson(req));
      }
      var payload := response.body.value;
      if payload.dados.None? {
        // payload["dados"]
        WalkStop(server, chain, visited, url, params, left, PageWithDados);
        return Err(MissingDados(req));
      }
      allData := allData + payload.dados.value;
      var nextUrl := ScanNextLink(OrEmpty(payload.links));
      WalkStep(server, chain, visited, url, params, left, PageWithDados, nextUrl);
      visited := visited + [req];
      url := nextUrl;
      params := None;
      left := left - 1;
    }
    WalkDone(server, chain, visited, url, params, left, PageWithDados);
    r := Ok(allData);
  }

  /** A served page without a `dados` key, reached after pages that all had
      one, aborts the extraction with a KeyError for that page. */
  lemma MissingDadosRaises(server: Server, req: Request, fuel: nat, i: int)
    requires WalkEndsWithin(server, req, fuel, PageWithDados)
    requires 0 <= i < |Chain(server, req, fuel)|
    requires forall k :: 0 <= k < i ==> Accepts(PageWithDados, server(Chain(server, req, fuel)[k]))
    requires Served(server(Chain(server, req, fuel)[i])) && server(Chain(server, req, fuel)[i]).body.value.dados.None?
    ensures Traverse(server, req, fuel, PageWithDados) == Err(MissingDados(Chain(server, req, fuel)[i]))
  {
    LeadingIs(server, Chain(server, req, fuel), PageWithDados, i);
  }

  /** Every decoded body of the chain has a `dados` key. */
  ghost predicate DadosEverywhere(server: Server, c: seq<Request>)
  {
    forall k :: 0 <= k < |c| && server(c[k]).Reply? && server(c[k]).body.Some? ==> server(c[k]).body.value.dados.Some?
  }

  /** The strict and the lenient roster walks agree whenever every page
      carries `dados`; and whenever the strict one succeeds, the lenient
      one returns the very same rows. */
  lemma StrictAgreesWithLenient(server: Server, req: Request, fuel: nat)
    requires EndsWithin(server, req, fuel)
    ensures DadosEverywhere(server, Chain(server, req, fuel)) ==>
      Traverse(server, req, fuel, PageWithDados) == Traverse(server, req, fuel, AnyServedPage)
    ensures Traverse(server, req, fuel, PageWithDados).Ok? ==>
      Traverse(server, req, fuel, AnyServedPage) == Traverse(server, req, fuel, PageWithDados)
  {
    var c := Chain(server, req, fuel);
    var lenient := Leading(server, c, AnyServedPage);
    if DadosEverywhere(server, c) {
      LeadingIs(server, c, PageWithDados, lenient);
    }
    if Leading(server, c, PageWithDados) == |c| {
      LeadingIs(server, c, AnyServedPage, |c|);
    }
  }

  /** Both extractors start from the same request: the roster URL with
      `itens` = 100 (`ITENS_POR_PAGINA` in the expense extractor), so they
      walk the same chain, and whenever the strict extraction succeeds the
      expense extractor's roster fetch returns the very same deputies. */
  lemma BothExtractorsSameRoster(server: Server, fuel: nat)
    requires EndsWithin(server, FirstRequest(), fuel)
    ensures FirstRequest() == Despesas.RosterRequest()
    ensures Traverse(server, FirstRequest(), fuel, PageWithDados).Ok? ==>
      Traverse(server, Despesas.RosterRequest(), fuel, AnyServedPage) == Traverse(server, FirstRequest(), fuel, PageWithDados)
  {
    StrictAgreesWithLenient(server, FirstRequest(), fuel);
  }
}
