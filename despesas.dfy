/**
 * The expense extractor (src/extract/despesas.py): the roster traversal
 * `get_all_deputados`, the per-(deputy, year) expense traversal
 * `get_despesas_deputado_por_ano` with its quiet stopping rules, and the
 * main block's fan-out that stamps every expense with the deputy and the
 * reference year that produced it.
 */
module Despesas {
  import opened Pagination

  const ApiBaseUrl := "https://dadosabertos.camara.leg.br/api/v2"

  /** Keys the fan-out writes into every expense record. */
  const DeputadoIdKey := "deputado_id"
  const DeputadoNomeKey := "deputado_nome"
  const AnoRefKey := "ano_ref"

  /** Decimal digits of `n`, as Python's `str` prints them. */
  function DecimalDigits(n: nat): (s: string)
    ensures |s| >= 1
    ensures forall k :: 0 <= k < |s| ==> '0' <= s[k] <= '9'
    decreases n
  {
    (if n < 10 then "" else DecimalDigits(n / 10)) + [(('0' as int) + n % 10) as char]
  }

  /** The number a string of decimal digits spells. */
  function DecimalValue(s: string): nat
  {
    if s == [] then 0
    else
      var c := s[|s| - 1];
      10 * DecimalValue(s[..|s| - 1]) + (if '0' <= c <= '9' then c as int - '0' as int else 0)
  }

  /** Reading back the digits of `n` gives `n`. */
  lemma {:induction false} DecimalDigitsRoundTrip(n: nat)
    ensures DecimalValue(DecimalDigits(n)) == n
    decreases n
  {
    var d := (('0' as int) + n % 10) as char;
    var front := if n < 10 then "" else DecimalDigits(n / 10);
    var s := front + [d];
    assert DecimalDigits(n) == s;
    assert s[..|s| - 1] == front && s[|s| - 1] == d;
    assert d as int - '0' as int == n % 10;
    assert DecimalValue(s) == 10 * DecimalValue(front) + n % 10;
    if n >= 10 {
      DecimalDigitsRoundTrip(n / 10);
    }
  }

  /** Python's `str(v)`, which an f-string applies to an interpolated value. */
  function PyStr(v: Json): string
  {
    match v
    case Null => "None"
    case Bool(b) => if b then "True" else "False"
    case Int(i) => if i < 0 then "-" + DecimalDigits(-i) else DecimalDigits(i)
    case Str(s) => s
    case Other(repr) => repr
  }

  function RosterUrl(): string
  {
    ApiBaseUrl + "/deputados"
  }

  /** The first roster request: `{"itens": ITENS_POR_PAGINA}`. */
  function RosterRequest(): Request
  {
    Request(RosterUrl(), Some(Params(ItensPorPagina, None)))
  }

  function ExpenseUrl(deputadoId: Json): string
  {
    ApiBaseUrl + "/deputados/" + PyStr(deputadoId) + "/despesas"
  }

  /** The first expense request of a pair: `{"itens": ITENS_POR_PAGINA, "ano": ano}`. */
  function ExpenseRequest(deputadoId: Json, ano: int): Request
  {
    Request(ExpenseUrl(deputadoId), Some(Params(ItensPorPagina, Some(ano))))
  }

  /** `str()` of an integer id is one-to-one. */
  lemma PyStrIntInjective(a: int, b: int)
    requires PyStr(Int(a)) == PyStr(Int(b))
    ensures a == b
  {
    if a < 0 && b < 0 {
      SignedDigits(a);
      SignedDigits(b);
      DigitsInjective(-a, -b);
    } else if a >= 0 && b >= 0 {
      assert PyStr(Int(a)) == DecimalDigits(a) && PyStr(Int(b)) == DecimalDigits(b);
      DigitsInjective(a, b);
    } else if a < 0 {
      SignOrDigit(a, b);
    } else {
      SignOrDigit(b, a);
    }
  }

  lemma SignedDigits(i: int)
    requires i < 0
    ensures |PyStr(Int(i))| >= 1 && PyStr(Int(i))[1..] == DecimalDigits(-i)
  {
    var d := DecimalDigits(-i);
    assert PyStr(Int(i)) == "-" + d;
    assert ("-" + d)[1..] == d;
  }

  lemma DigitsInjective(x: nat, y: nat)
    requires DecimalDigits(x) == DecimalDigits(y)
    ensures x == y
  {
    DecimalDigitsRoundTrip(x);
    DecimalDigitsRoundTrip(y);
  }

  /** `str()` of a negative integer starts with a minus sign, that of any
      other integer with a digit. */
  lemma SignOrDigit(neg: int, pos: int)
    requires neg < 0 <= pos
    ensures PyStr(Int(neg)) != PyStr(Int(pos))
  {
    var dn, dp := DecimalDigits(-neg), DecimalDigits(pos);
    assert PyStr(Int(neg)) == "-" + dn && PyStr(Int(pos)) == dp;
    assert ("-" + dn)[0] == '-';
    assert '0' <= dp[0] <= '9';
  }

  /** Two (deputy, year) pairs with integer ids share a first expense
      request only when they are the same pair: the id is interpolated into
      the URL path and the year travels as the `ano` parameter. */
  lemma DistinctPairsDistinctRequests(a: int, anoA: int, b: int, anoB: int)
    requires ExpenseRequest(Int(a), anoA) == ExpenseRequest(Int(b), anoB)
    ensures a == b && anoA == anoB
  {
    var prefix := ApiBaseUrl + "/deputados/";
    var ua, ub := ExpenseUrl(Int(a)), ExpenseUrl(Int(b));
    assert ua == ub;
    var sa, sb := PyStr(Int(a)), PyStr(Int(b));
    assert ua == prefix + sa + "/despesas";
    assert ub == prefix + sb + "/despesas";
    assert |sa| == |sb|;
    assert sa == ua[|prefix|..|prefix| + |sa|];
    assert sb == ub[|prefix|..|prefix| + |sb|];
    PyStrIntInjective(a, b);
  }

  /** get_all_deputados: the roster traversal. Query parameters only on the
      first request; any exception escapes and no partial roster is kept. */
  method GetAllDeputados(server: Server, ghost fuel: nat) returns (r: Result<seq<Record>>)
    requires EndsWithin(server, RosterRequest(), fuel)
    ensures r == Traverse(server, RosterRequest(), fuel, AnyServedPage)
  {
    ghost var chain := Chain(server, RosterRequest(), fuel);
    var url: Option<string> := Some(RosterUrl());
    var params: Option<Params> := Some(Params(ItensPorPagina, None));
    var deputados: seq<Record> := [];
    ghost var visited: seq<Request> := [];
    ghost var left: nat := fuel;
    ServedWalkIsWholeChain(server, RosterRequest(), fuel);
    WalkStart(server, RosterRequest(), fuel, AnyServedPage);

    while Truthy(url)
      invariant Walking(server, chain, visited, url, params, left, AnyServedPage)
      invariant deputados == Rows(server, visited)
      decreases left
    {
      var req := Request(url.value, params);
      var resp := server(req);
      if resp.ConnectionError? {
        WalkStop(server, chain, visited, url, params, left, AnyServedPage);
        return Err(ConnectionFailed(req));
      }
      if IsHttpError(resp.status) {
        // resp.raise_for_status()
        WalkStop(server, chain, visited, url, params, left, AnyServedPage);
        return Err(HttpError(resp.status, req));
      }
      if resp.body.None? {
        // resp.json()
        WalkStop(server, chain, visited, url, params, left, AnyServedPage);
        return Err(NotJson(req));
      }
      var payload := resp.body.value;
      deputados := deputados + OrEmpty(payload.dados);
      var nextUrl := ScanNextLink(OrEmpty(payload.links));
      WalkStep(server, chain, visited, url, params, left, AnyServedPage, nextUrl);
      visited := visited + [req];
      url := nextUrl;
      params := None;
      left := left - 1;
    }
    WalkDone(server, chain, visited, url, params, left, AnyServedPage);
    r := Ok(deputados);
  }

  /** The roster is all or nothing: the concatenation of every page's
      records when the last request was served, otherwise the exception of
      that request (the only one that can fail) and no records. */
  lemma RosterIsAllOrNothing(server: Server, req: Request, fuel: nat)
    requires EndsWithin(server, req, fuel)
    ensures var c := Chain(server, req, fuel);
      var last := c[|c| - 1];
      Traverse(server, req, fuel, AnyServedPage) ==
        if Served(server(last)) then Ok(Rows(server, c)) else Err(FailureOf(last, server(last)))
  {
    var c := Chain(server, req, fuel);
    var k := Leading(server, c, AnyServedPage);
    OnlyLastPageCanFail(server, req, fuel);
    assert |c| >= 1;
    var last := c[|c| - 1];
    assert Traverse(server, req, fuel, AnyServedPage) ==
      if k == |c| then Ok(Rows(server, c)) else Err(FailureOf(c[k], server(c[k])));
    if Served(server(last)) {
      assert Accepts(AnyServedPage, server(last));
      assert k == |c|;
    } else {
      assert !Accepts(AnyServedPage, server(last));
      assert k == |c| - 1 && c[k] == last;
    }
  }

  /** Which exception the roster fetch raises is decided by the last request
      of the chain, in the order the loop tests it: a `requests` exception,
      then `raise_for_status()` (statuses 400 to 599 and no others, so a
      redirect with a decodable body is a page), then `resp.json()`. An
      error status is reported as such even when its body would not decode. */
  lemma RosterFailureIsLastResponse(server: Server, fuel: nat)
    requires EndsWithin(server, RosterRequest(), fuel)
    ensures var c := Chain(server, RosterRequest(), fuel);
      var last, t := c[|c| - 1], Traverse(server, RosterRequest(), fuel, AnyServedPage);
      && (t.Ok? <==> server(last).Reply? && (server(last).status < 400 || 600 <= server(last).status) && server(last).body.Some?)
      && (t == Err(ConnectionFailed(last)) <==> server(last).ConnectionError?)
      && (t.Err? && t.error.HttpError? <==> server(last).Reply? && 400 <= server(last).status < 600)
      && (t.Err? && t.error.HttpError? ==> t.error == HttpError(server(last).status, last))
      && (t == Err(NotJson(last)) <==>
            server(last).Reply? && (server(last).status < 400 || 600 <= server(last).status) && server(last).body.None?)
  {
    RosterIsAllOrNothing(server, RosterRequest(), fuel);
  }

  /** The records one (deputy, year) pair yields: those of the leading run of
      pages that were served and non-empty. */
  ghost function ExpenseRows(server: Server, req: Request, fuel: nat): seq<Record>
  {
    var c := Chain(server, req, fuel);
    Rows(server, c[..Leading(server, c, NonEmptyPage)])
  }

  /** A pair's records do not depend on the bound, once the pair's walk
      stops within it. */
  lemma ExpenseRowsFuelDoesNotMatter(server: Server, req: Request, fuel: nat, more: nat)
    requires WalkEndsWithin(server, req, fuel, NonEmptyPage) && fuel <= more
    ensures WalkEndsWithin(server, req, more, NonEmptyPage)
    ensures ExpenseRows(server, req, more) == ExpenseRows(server, req, fuel)
  {
    WalkMonotone(server, req, fuel, more, NonEmptyPage);
    WalkPrefixSame(server, req, fuel, more, NonEmptyPage);
    var c, d := Chain(server, req, fuel), Chain(server, req, more);
    var k := Leading(server, c, NonEmptyPage);
    if k < |c| {
      assert d[..k] == d[..k + 1][..k] == c[..k + 1][..k] == c[..k];
    }
  }

  /** get_despesas_deputado_por_ano: never raises; stops quietly on status
      400, on any request exception (including the HTTPError of
      raise_for_status and a body that does not decode), on an empty page,
      or when there is no next link, and keeps what it had gathered. */
  method GetDespesasDeputadoPorAno(server: Server, deputadoId: Json, ano: int, ghost fuel: nat)
    returns (despesas: seq<Record>)
    requires WalkEndsWithin(server, ExpenseRequest(deputadoId, ano), fuel, NonEmptyPage)
    ensures despesas == ExpenseRows(server, ExpenseRequest(deputadoId, ano), fuel)
  {
    ghost var chain := Chain(server, ExpenseRequest(deputadoId, ano), fuel);
    despesas := [];
    var url: Option<string> := Some(ExpenseUrl(deputadoId));
    var params: Option<Params> := Some(Params(ItensPorPagina, Some(ano)));
    ghost var visited: seq<Request> := [];
    ghost var left: nat := fuel;
    WalkStart(server, ExpenseRequest(deputadoId, ano), fuel, NonEmptyPage);

    while Truthy(url)
      invariant Walking(server, chain, visited, url, params, left, NonEmptyPage)
      invariant despesas == Rows(server, visited)
      decreases left
    {
      var req := Request(url.value, params);
      var resp := server(req);
      if resp.ConnectionError? {
        WalkStop(server, chain, visited, url, params, left, NonEmptyPage);
        break;
      }
      if resp.status == 400 {
        // the API's known defect: an invalid page
        WalkStop(server, chain, visited, url, params, left, NonEmptyPage);
        break;
      }
      if IsHttpError(resp.status) || resp.body.None? {
        // raise_for_status() or resp.json() raised a RequestException
        WalkStop(server, chain, visited, url, params, left, NonEmptyPage);
        break;
      }
      var payload := resp.body.value;
      var dados := OrEmpty(payload.dados);
      if dados == [] {
        WalkStop(server, chain, visited, url, params, left, NonEmptyPage);
        break;
      }
      despesas := despesas + dados;
      var nextUrl := ScanNextLink(OrEmpty(payload.links));
      WalkStep(server, chain, visited, url, params, left, NonEmptyPage, nextUrl);
      visited := visited + [req];
      url := nextUrl;
      params := None;
      left := left - 1;
    }
    if !Truthy(url) {
      WalkDone(server, chain, visited, url, params, left, NonEmptyPage);
    }
    assert chain[..Leading(server, chain, NonEmptyPage)] == visited;
  }

  /** Per-pair stopping: the first page that is not served or has no
      records ends the pair, and exactly the records of the pages before it
      are kept. */
  lemma ExpensesStopAtFirstRejectedPage(server: Server, req: Request, fuel: nat, i: int)
    requires WalkEndsWithin(server, req, fuel, NonEmptyPage)
    requires 0 <= i < |Chain(server, req, fuel)|
    requires forall k :: 0 <= k < i ==> Accepts(NonEmptyPage, server(Chain(server, req, fuel)[k]))
    requires !Accepts(NonEmptyPage, server(Chain(server, req, fuel)[i]))
    ensures ExpenseRows(server, req, fuel) == Rows(server, Chain(server, req, fuel)[..i])
  {
    LeadingIs(server, Chain(server, req, fuel), NonEmptyPage, i);
  }

  /** Status 400 on any page ends the pair without an error and keeps the
      records of the earlier pages. */
  lemma KnownDefectKeepsEarlierPages(server: Server, req: Request, fuel: nat, i: int)
    requires WalkEndsWithin(server, req, fuel, NonEmptyPage)
    requires 0 <= i < |Chain(server, req, fuel)|
    requires forall k :: 0 <= k < i ==> Accepts(NonEmptyPage, server(Chain(server, req, fuel)[k]))
    requires server(Chain(server, req, fuel)[i]).Reply? && server(Chain(server, req, fuel)[i]).status == 400
    ensures ExpenseRows(server, req, fuel) == Rows(server, Chain(server, req, fuel)[..i])
  {
    ExpensesStopAtFirstRejectedPage(server, req, fuel, i);
  }

  /** A pair whose first request fails (exception, any error status,
      undecodable body) or whose first page is empty yields no records. */
  lemma FirstFailureYieldsNothing(server: Server, req: Request, fuel: nat)
    requires WalkEndsWithin(server, req, fuel, NonEmptyPage)
    requires !Accepts(NonEmptyPage, server(req))
    ensures ExpenseRows(server, req, fuel) == []
  {
    ExpensesStopAtFirstRejectedPage(server, req, fuel, 0);
  }

  /** A pair whose first page is served but empty costs one request and
      yields nothing, whatever that page links to, even a chain that never
      ends. */
  lemma EmptyFirstPageNeedsOneRequest(server: Server, req: Request)
    requires Served(server(req)) && PageRows(server(req)) == []
    ensures WalkEndsWithin(server, req, 1, NonEmptyPage)
    ensures ExpenseRows(server, req, 1) == []
  {
    FirstFailureYieldsNothing(server, req, 1);
  }

  /** An empty page ends the pair even when it offers a next link: the
      chain goes on, the fetch does not. */
  lemma EmptyPageEndsPair(server: Server, req: Request, fuel: nat, i: int)
    requires EndsWithin(server, req, fuel)
    requires 0 <= i < |Chain(server, req, fuel)|
    requires forall k :: 0 <= k < i ==> Accepts(NonEmptyPage, server(Chain(server, req, fuel)[k]))
    requires Served(server(Chain(server, req, fuel)[i])) && PageRows(server(Chain(server, req, fuel)[i])) == []
    ensures ExpenseRows(server, req, fuel) == Rows(server, Chain(server, req, fuel)[..i])
    ensures Truthy(NextHref(PageLinks(server(Chain(server, req, fuel)[i])))) ==> i + 1 < |Chain(server, req, fuel)|
  {
    ChainFollowsNextLinks(server, req, fuel);
    EndsWithinWalks(server, req, fuel, NonEmptyPage);
    ExpensesStopAtFirstRejectedPage(server, req, fuel, i);
  }

  /** What a pair yields is always a prefix of the chain's concatenated
      records; when every page of the chain is served and non-empty it is
      all of them, the very records the roster-style traversal returns. */
  lemma ExpensesArePrefixOfChainRows(server: Server, req: Request, fuel: nat)
    requires WalkEndsWithin(server, req, fuel, NonEmptyPage)
    ensures var all := Rows(server, Chain(server, req, fuel));
      |ExpenseRows(server, req, fuel)| <= |all| && ExpenseRows(server, req, fuel) == all[..|ExpenseRows(server, req, fuel)|]
    ensures (forall k :: 0 <= k < |Chain(server, req, fuel)| ==> Accepts(NonEmptyPage, server(Chain(server, req, fuel)[k])))
      ==> ExpenseRows(server, req, fuel) == Rows(server, Chain(server, req, fuel))
          && Traverse(server, req, fuel, AnyServedPage) == Ok(ExpenseRows(server, req, fuel))
  {
    ExpensesPrefix(server, Chain(server, req, fuel));
    if forall k :: 0 <= k < |Chain(server, req, fuel)| ==> Accepts(NonEmptyPage, server(Chain(server, req, fuel)[k])) {
      AllNonEmptyIsWholeChain(server, Chain(server, req, fuel));
    }
  }

  lemma ExpensesPrefix(server: Server, c: seq<Request>)
    ensures var mine := Rows(server, c[..Leading(server, c, NonEmptyPage)]);
      |mine| <= |Rows(server, c)| && mine == Rows(server, c)[..|mine|]
  {
    var k := Leading(server, c, NonEmptyPage);
    assert c == c[..k] + c[k..];
    RowsAppend(server, c[..k], c[k..]);
  }

  lemma AllNonEmptyIsWholeChain(server: Server, c: seq<Request>)
    requires forall i :: 0 <= i < |c| ==> Accepts(NonEmptyPage, server(c[i]))
    ensures Leading(server, c, NonEmptyPage) == |c| && c[..Leading(server, c, NonEmptyPage)] == c
    ensures Leading(server, c, AnyServedPage) == |c|
  {
    LeadingIs(server, c, NonEmptyPage, |c|);
    LeadingIs(server, c, AnyServedPage, |c|);
    assert c[..|c|] == c;
  }

  /** `d` after the three stamping assignments of the fan-out. */
  function Enrich(d: Record, depId: Json, depNome: Json, ano: int): (r: Record)
    ensures r.Keys == d.Keys + {DeputadoIdKey, DeputadoNomeKey, AnoRefKey}
    ensures r[DeputadoIdKey] == depId && r[DeputadoNomeKey] == depNome && r[AnoRefKey] == Int(ano)
    ensures forall k :: k in d && k != DeputadoIdKey && k != DeputadoNomeKey && k != AnoRefKey ==> r[k] == d[k]
  {
    d[DeputadoIdKey := depId][DeputadoNomeKey := depNome][AnoRefKey := Int(ano)]
  }

  /** Python's `list(range(lo, hi))`. */
  function Range(lo: int, hi: int): (r: seq<int>)
    ensures |r| == if lo < hi then hi - lo else 0
    ensures forall i :: 0 <= i < |r| ==> r[i] == lo + i
    decreases hi - lo
  {
    if lo >= hi then [] else [lo] + Range(lo + 1, hi)
  }

  /** `anos = list(range(ANO_MINIMO, ANO_ATUAL + 1))` with `ANO_MINIMO = ANO_ATUAL - 1`. */
  function Anos(anoAtual: int): seq<int>
  {
    Range(anoAtual - 1, anoAtual + 1)
  }

  /** The year window is exactly the previous and the current year, ascending. */
  lemma AnosIsTwoYearWindow(anoAtual: int)
    ensures Anos(anoAtual) == [anoAtual - 1, anoAtual]
  {
  }

  /** The records of one pair, each stamped, in the same order. */
  function EnrichAll(raw: seq<Record>, depId: Json, depNome: Json, ano: int): seq<Record>
  {
    seq(|raw|, k requires 0 <= k < |raw| => Enrich(raw[k], depId, depNome, ano))
  }

  /** The `for d in despesas:` loop that stamps each record of a pair in place. */
  method StampDespesas(despesas: seq<Record>, depId: Json, depNome: Json, ano: int) returns (stamped: seq<Record>)
    ensures |stamped| == |despesas|
    ensures forall m :: 0 <= m < |despesas| ==> stamped[m] == Enrich(despesas[m], depId, depNome, ano)
  {
    stamped := despesas;
    for k := 0 to |stamped|
      invariant |stamped| == |despesas|
      invariant forall m :: 0 <= m < k ==> stamped[m] == Enrich(despesas[m], depId, depNome, ano)
      invariant forall m :: k <= m < |despesas| ==> stamped[m] == despesas[m]
    {
      stamped := stamped[k := Enrich(stamped[k], depId, depNome, ano)];
    }
  }

  /** What one (deputy, year) pair adds to the output: its records, stamped. */
  ghost function PairRecords(server: Server, deputado: Record, ano: int, fuel: nat): seq<Record>
  {
    EnrichAll(ExpenseRows(server, ExpenseRequest(Get(deputado, "id"), ano), fuel), Get(deputado, "id"), Get(deputado, "nome"), ano)
  }

  /** The inner loop over the years for one deputy. */
  ghost function DeputyRecords(server: Server, deputado: Record, anos: seq<int>, fuel: nat): seq<Record>
  {
    if anos == [] then []
    else DeputyRecords(server, deputado, anos[..|anos| - 1], fuel) + PairRecords(server, deputado, anos[|anos| - 1], fuel)
  }

  /** The outer loop over the roster. */
  ghost function AllRecords(server: Server, deputados: seq<Record>, anos: seq<int>, fuel: nat): seq<Record>
  {
    if deputados == [] then []
    else AllRecords(server, deputados[..|deputados| - 1], anos, fuel) + DeputyRecords(server, deputados[|deputados| - 1], anos, fuel)
  }

  /** Every (deputy, year) pair's expense walk stops within `fuel` pages. */
  ghost predicate PairsEndWithin(server: Server, deputados: seq<Record>, anos: seq<int>, fuel: nat)
  {
    forall i, j :: 0 <= i < |deputados| && 0 <= j < |anos| ==>
      WalkEndsWithin(server, ExpenseRequest(Get(deputados[i], "id"), anos[j]), fuel, NonEmptyPage)
  }

  /** The main block's nested loops: for every deputy in roster order and
      every year of the window, fetch the pair's expenses, stamp each one
      with the deputy's id and name and the year, and append them. */
  method CollectDespesas(server: Server, deputados: seq<Record>, anoAtual: int, ghost fuel: nat)
    returns (allDespesas: seq<Record>, ghost fetched: seq<(Record, int)>)
    requires PairsEndWithin(server, deputados, Anos(anoAtual), fuel)
    ensures allDespesas == AllRecords(server, deputados, Anos(anoAtual), fuel)
    ensures fetched == Pairs(deputados, Anos(anoAtual))
  {
    var anos := Anos(anoAtual);
    allDespesas, fetched := [], [];
    for i := 0 to |deputados|
      invariant allDespesas == AllRecords(server, deputados[..i], anos, fuel)
      invariant fetched == Pairs(deputados[..i], anos)
    {
      DeputyEndsWithin(server, deputados, anos, fuel, i);
      var despesas, pairs := CollectDeputado(server, deputados[i], anos, fuel);
      allDespesas, fetched := allDespesas + despesas, fetched + pairs;
      AllRecordsStep(server, deputados, anos, fuel, i);
      PairsStep(deputados, anos, i);
    }
    assert deputados[..|deputados|] == deputados;
  }

  /** One deputy's turn of the nested loops: the inner `for ano in anos:`
      loop, which fetches and stamps each year's expenses in year order. */
  method CollectDeputado(server: Server, dep: Record, anos: seq<int>, ghost fuel: nat)
    returns (despesas: seq<Record>, ghost fetched: seq<(Record, int)>)
    requires forall j :: 0 <= j < |anos| ==> WalkEndsWithin(server, ExpenseRequest(Get(dep, "id"), anos[j]), fuel, NonEmptyPage)
    ensures despesas == DeputyRecords(server, dep, anos, fuel)
    ensures fetched == YearPairs(dep, anos)
  {
    var depId := Get(dep, "id");
    var depNome := Get(dep, "nome");
    despesas, fetched := [], [];
    for j := 0 to |anos|
      invariant despesas == DeputyRecords(server, dep, anos[..j], fuel)
      invariant fetched == YearPairs(dep, anos[..j])
    {
      var ano := anos[j];
      YearPairsStep(dep, anos, j);
      fetched := fetched + [(dep, ano)];
      var page := GetDespesasDeputadoPorAno(server, depId, ano, fuel);
      var stamped := StampDespesas(page, depId, depNome, ano);
      DeputyRecordsStep(server, dep, anos, fuel, j, page, stamped);
      despesas := despesas + stamped;
    }
    assert anos[..|anos|] == anos;
  }

  lemma DeputyEndsWithin(server: Server, deputados: seq<Record>, anos: seq<int>, fuel: nat, i: int)
    requires PairsEndWithin(server, deputados, anos, fuel)
    requires 0 <= i < |deputados|
    ensures forall j :: 0 <= j < |anos| ==> WalkEndsWithin(server, ExpenseRequest(Get(deputados[i], "id"), anos[j]), fuel, NonEmptyPage)
  {
  }

  /** The fan-out's records do not depend on the bound, once every pair's
      walk stops within it; so one bound can serve the roster and all the
      pairs together. */
  lemma {:induction false} FanOutFuelDoesNotMatter(server: Server, deputados: seq<Record>, anos: seq<int>, fuel: nat, more: nat)
    requires PairsEndWithin(server, deputados, anos, fuel) && fuel <= more
    ensures PairsEndWithin(server, deputados, anos, more)
    ensures AllRecords(server, deputados, anos, more) == AllRecords(server, deputados, anos, fuel)
    decreases |deputados|
  {
    forall i, j | 0 <= i < |deputados| && 0 <= j < |anos|
      ensures WalkEndsWithin(server, ExpenseRequest(Get(deputados[i], "id"), anos[j]), more, NonEmptyPage)
    {
      WalkMonotone(server, ExpenseRequest(Get(deputados[i], "id"), anos[j]), fuel, more, NonEmptyPage);
    }
    if deputados != [] {
      var init, dep := deputados[..|deputados| - 1], deputados[|deputados| - 1];
      assert PairsEndWithin(server, init, anos, fuel) by {
        forall i, j | 0 <= i < |init| && 0 <= j < |anos|
          ensures WalkEndsWithin(server, ExpenseRequest(Get(init[i], "id"), anos[j]), fuel, NonEmptyPage)
        {
          assert init[i] == deputados[i];
        }
      }
      FanOutFuelDoesNotMatter(server, init, anos, fuel, more);
      DeputyEndsWithin(server, deputados, anos, fuel, |deputados| - 1);
      DeputyFuelDoesNotMatter(server, dep, anos, fuel, more);
    }
  }

  lemma {:induction false} DeputyFuelDoesNotMatter(server: Server, dep: Record, anos: seq<int>, fuel: nat, more: nat)
    requires forall j :: 0 <= j < |anos| ==> WalkEndsWithin(server, ExpenseRequest(Get(dep, "id"), anos[j]), fuel, NonEmptyPage)
    requires fuel <= more
    ensures DeputyRecords(server, dep, anos, more) == DeputyRecords(server, dep, anos, fuel)
    decreases |anos|
  {
    if anos != [] {
      var init, ano := anos[..|anos| - 1], anos[|anos| - 1];
      assert forall j :: 0 <= j < |init| ==> init[j] == anos[j];
      DeputyFuelDoesNotMatter(server, dep, init, fuel, more);
      ExpenseRowsFuelDoesNotMatter(server, ExpenseRequest(Get(dep, "id"), ano), fuel, more);
    }
  }

  lemma YearPairsStep(dep: Record, anos: seq<int>, j: int)
    requires 0 <= j < |anos|
    ensures YearPairs(dep, anos[..j + 1]) == YearPairs(dep, anos[..j]) + [(dep, anos[j])]
  {
  }

  lemma PairsStep(deputados: seq<Record>, anos: seq<int>, i: int)
    requires 0 <= i < |deputados|
    ensures Pairs(deputados[..i + 1], anos) == Pairs(deputados[..i], anos) + YearPairs(deputados[i], anos)
  {
    assert anos[..|anos|] == anos;
    assert deputados[..i + 1][..i] == deputados[..i];
  }

  lemma DeputyRecordsStep(server: Server, dep: Record, anos: seq<int>, fuel: nat, j: int,
                          raw: seq<Record>, stamped: seq<Record>)
    requires 0 <= j < |anos|
    requires raw == ExpenseRows(server, ExpenseRequest(Get(dep, "id"), anos[j]), fuel)
    requires |stamped| == |raw|
    requires forall m :: 0 <= m < |raw| ==> stamped[m] == Enrich(raw[m], Get(dep, "id"), Get(dep, "nome"), anos[j])
    ensures DeputyRecords(server, dep, anos[..j + 1], fuel) == DeputyRecords(server, dep, anos[..j], fuel) + stamped
  {
    StampedIsEnrichAll(raw, stamped, Get(dep, "id"), Get(dep, "nome"), anos[j]);
    DeputyRecordsUnfold(server, dep, anos, fuel, j);
  }

  lemma StampedIsEnrichAll(raw: seq<Record>, stamped: seq<Record>, depId: Json, depNome: Json, ano: int)
    requires |stamped| == |raw|
    requires forall m :: 0 <= m < |raw| ==> stamped[m] == Enrich(raw[m], depId, depNome, ano)
    ensures stamped == EnrichAll(raw, depId, depNome, ano)
  {
    var e := EnrichAll(raw, depId, depNome, ano);
    assert |e| == |raw|;
    assert forall m :: 0 <= m < |raw| ==> e[m] == stamped[m];
  }

  lemma DeputyRecordsUnfold(server: Server, dep: Record, anos: seq<int>, fuel: nat, j: int)
    requires 0 <= j < |anos|
    ensures DeputyRecords(server, dep, anos[..j + 1], fuel)
            == DeputyRecords(server, dep, anos[..j], fuel) + PairRecords(server, dep, anos[j], fuel)
  {
    var upTo := anos[..j + 1];
    assert upTo[..j] == anos[..j] && upTo[j] == anos[j] && |upTo| == j + 1;
  }

  lemma AllRecordsStep(server: Server, deputados: seq<Record>, anos: seq<int>, fuel: nat, i: int)
    requires 0 <= i < |deputados|
    ensures AllRecords(server, deputados[..i + 1], anos, fuel)
            == AllRecords(server, deputados[..i], anos, fuel) + DeputyRecords(server, deputados[i], anos[..|anos|], fuel)
  {
    assert anos[..|anos|] == anos;
    assert deputados[..i + 1][..i] == deputados[..i];
  }

  /** The three stamped fields of a record. */
  ghost predicate Stamped(r: Record, deputado: Record, ano: int)
  {
    && DeputadoIdKey in r && r[DeputadoIdKey] == Get(deputado, "id")
    && DeputadoNomeKey in r && r[DeputadoNomeKey] == Get(deputado, "nome")
    && AnoRefKey in r && r[AnoRefKey] == Int(ano)
  }

  lemma {:induction false} DeputyRecordsStamped(server: Server, deputado: Record, anos: seq<int>, fuel: nat)
    ensures forall r :: r in DeputyRecords(server, deputado, anos, fuel) ==>
      exists j :: 0 <= j < |anos| && Stamped(r, deputado, anos[j])
    decreases |anos|
  {
    if anos != [] {
      var n := |anos| - 1;
      DeputyRecordsStamped(server, deputado, anos[..n], fuel);
      forall r | r in DeputyRecords(server, deputado, anos, fuel)
        ensures exists j :: 0 <= j < |anos| && Stamped(r, deputado, anos[j])
      {
        if r in DeputyRecords(server, deputado, anos[..n], fuel) {
          var j :| 0 <= j < n && Stamped(r, deputado, anos[..n][j]);
          assert Stamped(r, deputado, anos[j]);
        } else {
          assert r in PairRecords(server, deputado, anos[n], fuel);
          assert Stamped(r, deputado, anos[n]);
        }
      }
    }
  }

  /** Pair `p` of the fan-out contributes only records stamped with that
      pair's own deputy and year; with `FanOutFollowsPairs` this says which
      pair produced each output record. */
  lemma PairStampsItsOwn(server: Server, deputados: seq<Record>, anos: seq<int>, fuel: nat, p: int)
    requires 0 <= p < |Pairs(deputados, anos)|
    ensures var pair := Pairs(deputados, anos)[p];
      forall r :: r in PairFetch(server, fuel)(pair) ==> Stamped(r, pair.0, pair.1)
  {
    var pair := Pairs(deputados, anos)[p];
    var raw := ExpenseRows(server, ExpenseRequest(Get(pair.0, "id"), pair.1), fuel);
    assert PairFetch(server, fuel)(pair) == EnrichAll(raw, Get(pair.0, "id"), Get(pair.0, "nome"), pair.1);
  }

  /** Enrichment: every output record carries `deputado_id`,
      `deputado_nome` and `ano_ref` equal to a roster deputy and a window
      year. */
  lemma {:induction false} EveryRecordEnriched(server: Server, deputados: seq<Record>, anos: seq<int>, fuel: nat)
    ensures forall r :: r in AllRecords(server, deputados, anos, fuel) ==>
      exists i, j :: 0 <= i < |deputados| && 0 <= j < |anos| && Stamped(r, deputados[i], anos[j])
    decreases |deputados|
  {
    if deputados != [] {
      var n := |deputados| - 1;
      EveryRecordEnriched(server, deputados[..n], anos, fuel);
      DeputyRecordsStamped(server, deputados[n], anos, fuel);
      forall r | r in AllRecords(server, deputados, anos, fuel)
        ensures exists i, j :: 0 <= i < |deputados| && 0 <= j < |anos| && Stamped(r, deputados[i], anos[j])
      {
        if r in AllRecords(server, deputados[..n], anos, fuel) {
          var i, j :| 0 <= i < n && 0 <= j < |anos| && Stamped(r, deputados[..n][i], anos[j]);
          assert Stamped(r, deputados[i], anos[j]);
        } else {
          var j :| 0 <= j < |anos| && Stamped(r, deputados[n], anos[j]);
        }
      }
    }
  }

  /** The (deputy, year) pairs the nested loops visit, in visiting order. */
  function YearPairs(deputado: Record, anos: seq<int>): seq<(Record, int)>
  {
    seq(|anos|, j requires 0 <= j < |anos| => (deputado, anos[j]))
  }

  function Pairs(deputados: seq<Record>, anos: seq<int>): seq<(Record, int)>
  {
    if deputados == [] then []
    else Pairs(deputados[..|deputados| - 1], anos) + YearPairs(deputados[|deputados| - 1], anos)
  }

  /** One more block of `m` items after `n` blocks. */
  lemma NextBlock(n: int, m: int)
    ensures (n + 1) * m == n * m + m
  {
  }

  /** Where deputy `i`'s block of years starts among the pairs: after `i`
      blocks of `m` years each. */
  ghost function Offset(i: nat, m: nat): nat
  {
    if i == 0 then 0 else Offset(i - 1, m) + m
  }

  lemma {:induction false} OffsetIsProduct(i: nat, m: nat)
    ensures Offset(i, m) == i * m
    decreases i
  {
    if i > 0 {
      OffsetIsProduct(i - 1, m);
      NextBlock(i - 1, m);
    }
  }

  lemma {:induction false} OffsetGrows(i: nat, n: nat, m: nat)
    requires i < n
    ensures Offset(i, m) + m <= Offset(n, m)
    decreases n
  {
    if i < n - 1 {
      OffsetGrows(i, n - 1, m);
    }
  }

  lemma {:induction false} PairsLength(deputados: seq<Record>, anos: seq<int>)
    ensures |Pairs(deputados, anos)| == Offset(|deputados|, |anos|)
    decreases |deputados|
  {
    if deputados != [] {
      PairsLength(deputados[..|deputados| - 1], anos);
    }
  }

  lemma {:induction false} PairAt(deputados: seq<Record>, anos: seq<int>, i: nat, j: nat)
    requires i < |deputados| && j < |anos|
    ensures Offset(i, |anos|) + j < |Pairs(deputados, anos)|
    ensures Pairs(deputados, anos)[Offset(i, |anos|) + j] == (deputados[i], anos[j])
    decreases |deputados|
  {
    var n := |deputados| - 1;
    var front := deputados[..n];
    var pf, blk := Pairs(front, anos), YearPairs(deputados[n], anos);
    assert Pairs(deputados, anos) == pf + blk;
    PairsLength(front, anos);
    if i < n {
      PairAt(front, anos, i, j);
      OffsetGrows(i, n, |anos|);
      assert front[i] == deputados[i];
    }
  }

  lemma PairsInLoopOrder(deputados: seq<Record>, anos: seq<int>)
    ensures |Pairs(deputados, anos)| == |deputados| * |anos|
    ensures forall i, j :: 0 <= i < |deputados| && 0 <= j < |anos| ==>
      Pairs(deputados, anos)[i * |anos| + j] == (deputados[i], anos[j])
  {
    PairsLength(deputados, anos);
    OffsetIsProduct(|deputados|, |anos|);
    forall i, j | 0 <= i < |deputados| && 0 <= j < |anos|
      ensures 0 <= i * |anos| + j < |Pairs(deputados, anos)| && Pairs(deputados, anos)[i * |anos| + j] == (deputados[i], anos[j])
    {
      PairAtProduct(deputados, anos, i, j);
    }
  }

  lemma PairAtProduct(deputados: seq<Record>, anos: seq<int>, i: nat, j: nat)
    requires i < |deputados| && j < |anos|
    ensures 0 <= i * |anos| + j < |Pairs(deputados, anos)|
    ensures Pairs(deputados, anos)[i * |anos| + j] == (deputados[i], anos[j])
  {
    PairAt(deputados, anos, i, j);
    OffsetIsProduct(i, |anos|);
  }



  /** Records concatenated item by item, in item order. */
  ghost function ConcatMap<T>(f: T -> seq<Record>, xs: seq<T>): seq<Record>
  {
    if xs == [] then [] else ConcatMap(f, xs[..|xs| - 1]) + f(xs[|xs| - 1])
  }

  lemma {:induction false} ConcatMapAppend<T>(f: T -> seq<Record>, a: seq<T>, b: seq<T>)
    ensures ConcatMap(f, a + b) == ConcatMap(f, a) + ConcatMap(f, b)
    decreases |b|
  {
    if b == [] {
      assert a + b == a;
    } else {
      var n := |b| - 1;
      assert (a + b)[..|a + b| - 1] == a + b[..n];
      ConcatMapAppend(f, a, b[..n]);
    }
  }

  /** The stamped records of one (deputy, year) pair. */
  ghost function PairFetch(server: Server, fuel: nat): ((Record, int)) -> seq<Record>
  {
    (p: (Record, int)) => PairRecords(server, p.0, p.1, fuel)
  }

  /** The output, pair by pair. */
  ghost function ConcatPairs(server: Server, pairs: seq<(Record, int)>, fuel: nat): seq<Record>
  {
    ConcatMap(PairFetch(server, fuel), pairs)
  }

  lemma {:induction false} DeputyRecordsArePairs(server: Server, deputado: Record, anos: seq<int>, fuel: nat)
    ensures DeputyRecords(server, deputado, anos, fuel) == ConcatPairs(server, YearPairs(deputado, anos), fuel)
    decreases |anos|
  {
    if anos != [] {
      var n := |anos| - 1;
      DeputyRecordsArePairs(server, deputado, anos[..n], fuel);
      assert YearPairs(deputado, anos)[..n] == YearPairs(deputado, anos[..n]);
    }
  }

  /** Output order is deputy order, then year order, then page order: the
      output is the concatenation of the pairs' stamped records, taken in
      the order of `Pairs`. */
  lemma {:induction false} FanOutFollowsPairs(server: Server, deputados: seq<Record>, anos: seq<int>, fuel: nat)
    ensures AllRecords(server, deputados, anos, fuel) == ConcatPairs(server, Pairs(deputados, anos), fuel)
    decreases |deputados|
  {
    if deputados != [] {
      var n := |deputados| - 1;
      FanOutFollowsPairs(server, deputados[..n], anos, fuel);
      DeputyRecordsArePairs(server, deputados[n], anos, fuel);
      ConcatMapAppend(PairFetch(server, fuel), Pairs(deputados[..n], anos), YearPairs(deputados[n], anos));
    }
  }

  /** The main block up to the load: fetch the roster (an exception there
      aborts the run), then fan out over it with the year window. Only the
      walks the run makes need to stop: the roster's and, when the roster
      arrives, each (deputy, year) pair's. `fetched` lists
      the pairs whose expenses were requested, in request order. */
  method IngestDespesas(server: Server, anoAtual: int, ghost fuel: nat)
    returns (r: Result<seq<Record>>, ghost fetched: seq<(Record, int)>)
    requires EndsWithin(server, RosterRequest(), fuel)
    requires Traverse(server, RosterRequest(), fuel, AnyServedPage).Ok? ==>
      PairsEndWithin(server, Traverse(server, RosterRequest(), fuel, AnyServedPage).value, Anos(anoAtual), fuel)
    ensures Traverse(server, RosterRequest(), fuel, AnyServedPage).Err? ==> r == Traverse(server, RosterRequest(), fuel, AnyServedPage)
    ensures Traverse(server, RosterRequest(), fuel, AnyServedPage).Ok? ==>
      r == Ok(AllRecords(server, Traverse(server, RosterRequest(), fuel, AnyServedPage).value, Anos(anoAtual), fuel))
    ensures Traverse(server, RosterRequest(), fuel, AnyServedPage).Err? ==> fetched == []
    ensures Traverse(server, RosterRequest(), fuel, AnyServedPage).Ok? ==>
      fetched == Pairs(Traverse(server, RosterRequest(), fuel, AnyServedPage).value, Anos(anoAtual))
  {
    fetched := [];
    var deputados := GetAllDeputados(server, fuel);
    if deputados.Err? {
      return deputados, fetched;
    }
    var all;
    all, fetched := CollectDespesas(server, deputados.value, anoAtual, fuel);
    r := Ok(all);
  }

  /** A run fetches two (deputy, year) pairs per roster deputy: one per
      year of the window. */
  lemma TwoFetchesPerDeputy(deputados: seq<Record>, anoAtual: int)
    ensures |Pairs(deputados, Anos(anoAtual))| == 2 * |deputados|
  {
    AnosIsTwoYearWindow(anoAtual);
    PairsInLoopOrder(deputados, Anos(anoAtual));
  }
}
