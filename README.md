# Cursor pagination and expense fan-out of the bronze ingestion

This project models the extraction half of the bronze ingestion for the
Chamber of Deputies open-data API (`https://dadosabertos.camara.leg.br/api/v2`):

- `get_all_deputados` (the expense extractor's roster fetch) and
  `extract_all_deputados` (the roster extractor): `while url:` loops that
  request a page, append its `dados`, take the next URL from the page's
  `links` and drop the query parameters after the first request;
- `get_despesas_deputado_por_ano`: the same walk for one (deputy, year)
  pair, which never raises but stops quietly on status 400, on any request
  exception, on an empty page or when no next link is left;
- the main block's fan-out: for every roster deputy and every year of the
  window `[ANO_ATUAL - 1, ANO_ATUAL]`, fetch the pair's expenses, stamp
  each with `deputado_id`, `deputado_nome` and `ano_ref`, and append them.

The HTTP server is a parameter, `Server = Request -> Response`: a request
is a URL plus optional query parameters, and a response is either a raised
`requests` exception or a status code with a body that may fail to decode.
The current year is a parameter too.

Each loop is an imperative method with loop invariants, proved against a
reference definition. `Chain` is the sequence of requests met by following
"next" links from the first request. `Rows` concatenates the records of a
sequence of pages. `Leading` counts the pages a loop accepts before it
stops. A roster walk that stops early raises, so it returns every row of
the chain or an exception and no rows (`Traverse`). An expense walk that
stops early keeps the rows of the leading accepted pages (`ExpenseRows`).
Lemmas then state what these definitions mean: which link wins, where the
parameters go, what a failure keeps and how the fan-out orders and stamps
its output.

A walk need not end: a next link may point back to an earlier page. Every
loop method therefore takes a ghost `fuel` and requires that the walk *it*
makes stops within `fuel` requests. That is `WalkEndsWithin(server,
first, fuel, policy)`: following next links from the first request, the
loop reaches a page its policy rejects, or a page with no way on. Nothing
is asked of the links on the page where the loop stops, or past it.
- `GetAllDeputados` accepts every served page. For it this is the same as
  `EndsWithin(server, first, fuel)`, meaning the whole next-link chain ends
  (`ServedWalkIsWholeChain`).
- `GetDespesasDeputadoPorAno` and `CollectDeputado` require it, with the
  non-empty-page policy, of each pair they fetch. `CollectDespesas` requires
  it of every pair of the roster it is given.
- `IngestDespesas` requires it of the roster walk, and of the pairs of the
  roster when that walk succeeds.
- `ExtractAllDeputados` requires it with the policy that a page has `dados`.

A walk that stops at an empty page therefore needs no bound on what that
page links to (`EmptyFirstPageNeedsOneRequest`, `SelfLinkNeverEnds`).
Lemmas that compare a walk with the whole chain (`EmptyPageEndsPair`,
`StrictAgreesWithLenient`, `BothExtractorsSameRoster`, and the `Pagination`
lemmas about `Chain`) assume the chain itself ends. `fuel` is only a
termination measure. Once a loop's walk stops within a bound, it stops
within any larger one and gives the same result (`WalkFuelDoesNotMatter`,
`ExpenseRowsFuelDoesNotMatter`). The same holds for the whole fan-out
(`FanOutFuelDoesNotMatter`), so one bound can serve the roster and every
pair. For the whole chain, a larger bound gives the same requests
(`FuelDoesNotMatter`).

Modules: `Pagination` (pagination.dfy) holds the API model, the link scan
and the chain shared by all three loops. `Despesas` (despesas.dfy) covers
src/extract/despesas.py. `Deputados` (deputados.dfy) covers
src/extract/deputados.py.

Behaviour of the code worth knowing, all of it modelled:
- The link scan never breaks, so the last `rel == "next"` link wins. A
  missing `href` on that last link ends the walk even when an earlier
  "next" link had an `href`.
- `raise_for_status()` raises only for statuses 400 to 599. Any other
  status whose body decodes (a redirect, say) is treated as a page.
- `get_all_deputados` defaults a missing `dados` to `[]`, so such a page
  adds nothing. `extract_all_deputados` reads `payload["dados"]` and raises
  KeyError.
- `get_despesas_deputado_por_ano` never raises: status 400, any
  `requests` exception and an empty page all end the pair quietly.

## Model

| member | source | states |
|---|---|---|
| `Pagination.ScanNextLink` | src/extract/deputados.py:22-26 | the link scan leaves `next_url` equal to `NextHref(links)`, the value `NextHrefIsLastNext` characterises |
| `Pagination.NextHrefIsLastNext` | src/extract/despesas.py:87-90 | with no `rel == "next"` link the next URL is None; otherwise it is the `href` of the last such link, even when that `href` is absent and an earlier one had it |
| `Pagination.Chain` | src/extract/despesas.py:40-53 | the next-link chain from the first request, one request per page: the first request comes first, and there are never more than the fuel bound. The roster walk issues all of it; the expense and strict walks issue only a prefix, up to and including their first rejected page |
| `Pagination.FuelDoesNotMatter` | src/extract/despesas.py:40 | once the whole next-link chain ends within a bound, any larger bound ends it too and gives the same requests |
| `Pagination.WalkMonotone` | src/extract/despesas.py:66 | once a loop's walk stops within a bound, it stops within any larger bound |
| `Pagination.WalkPrefixSame` | src/extract/despesas.py:66-92 | cutting the chain at a larger bound leaves what the loop sees unchanged: the same accepted pages, the same stopping page and, when none is rejected, the same requests |
| `Pagination.WalkFuelDoesNotMatter` | src/extract/despesas.py:40-53 | a loop's result is the same under every bound within which its walk stops |
| `Pagination.ChainFollowsNextLinks` | src/extract/despesas.py:40-53 | a finite walk starts at the first request (the only one with query parameters); each later request is the bare, non-empty `href` of the last "next" link of the previous page, which was served; the walk ends at the first page that was not served or had no truthy next link, even if that page had records |
| `Pagination.MissingLinksEndsWalk` | src/extract/deputados.py:24 | a served page without a `links` key ends the walk; it reads as an empty list of links |
| `Pagination.PageWithoutDadosAddsNothing` | src/extract/despesas.py:45 | a page without a `dados` key contributes no records to the concatenation |
| `Pagination.Leading` | src/extract/despesas.py:66-85 | the number of leading pages a loop accepts: all pages before it are accepted, and the page right after is not |
| `Pagination.OnlyLastPageCanFail` | src/extract/despesas.py:40-52 | in a finite chain, only the last request can be one that raised, got an error status or failed to decode |
| `Pagination.EndsWithinWalks` | src/extract/despesas.py:40 | when the whole next-link chain ends within a bound, every loop's walk along it stops within that bound too |
| `Pagination.ServedWalkIsWholeChain` | src/extract/despesas.py:40-52 | for a loop that accepts every served page, its walk stops within a bound exactly when the whole chain ends within it |
| `Pagination.WalkReachesItsEnd` | src/extract/despesas.py:66-92 | when a loop's walk stops within the bound, the chain cut at that bound is never cut while the loop would still go on: it holds a page the loop rejects, or it ends at a page with no way on |
| `Pagination.SelfLinkNeverEnds` | src/extract/despesas.py:87-92 | a served page whose last "next" link is its own URL keeps the chain going for ever: no bound ends it |
| `Despesas.GetAllDeputados` | src/extract/despesas.py:35-55 | the roster fetch returns the records of every page of the chain in visit order, or the first exception (connection failure, status 400-599, undecodable body) with no partial roster |
| `Despesas.RosterIsAllOrNothing` | src/extract/despesas.py:40-55 | the roster is `Ok` of the concatenation of all pages' `dados` when the last request was served; otherwise it is the exception of that last request |
| `Despesas.RosterFailureIsLastResponse` | src/extract/despesas.py:41-44 | the roster fetch succeeds exactly when the chain's last response was not an exception, had a status outside 400-599 and a decodable body; otherwise it raises, in this order of precedence, that request's `requests` exception, its HTTPError with the status (even when the body would not decode either) or its decoding error |
| `Despesas.DecimalDigitsRoundTrip` | src/extract/despesas.py:60 | the digits the f-string writes for a non-negative id read back as that id |
| `Despesas.PyStrIntInjective` | src/extract/despesas.py:60 | `str()` of integer ids is one-to-one: a minus sign never collides with a digit, and digit strings read back to their values |
| `Despesas.DistinctPairsDistinctRequests` | src/extract/despesas.py:60-64 | the first expense request of a pair carries the id in the URL path and the year as `ano`, so two pairs with integer ids share a first request only when they are the same pair |
| `Despesas.GetDespesasDeputadoPorAno` | src/extract/despesas.py:58-95 | one pair's fetch never raises; it returns the records of the leading run of served, non-empty pages of the pair's chain |
| `Despesas.ExpensesStopAtFirstRejectedPage` | src/extract/despesas.py:66-85 | the first page that raised, got an error status, failed to decode or was empty ends the pair; exactly the records of the earlier pages are kept |
| `Despesas.KnownDefectKeepsEarlierPages` | src/extract/despesas.py:70-72 | status 400 on any page ends the pair with no error and keeps the records gathered from the pages before it |
| `Despesas.FirstFailureYieldsNothing` | src/extract/despesas.py:67-79 | a pair whose first request fails (exception, error status, undecodable body) or whose first page is empty yields no records |
| `Despesas.EmptyFirstPageNeedsOneRequest` | src/extract/despesas.py:81-83 | a pair whose first page is served but empty stops after that one request and yields nothing, whatever the page links to |
| `Despesas.EmptyPageEndsPair` | src/extract/despesas.py:81-83 | an empty or missing `dados` ends the pair, keeping only earlier pages, even when the page offers a next link and the chain goes on |
| `Despesas.ExpensesArePrefixOfChainRows` | src/extract/despesas.py:58-95 | a pair's records are always a prefix of the concatenated records of its chain; when every page is served and non-empty they are all of them, the same rows the roster-style walk returns |
| `Despesas.ExpenseRowsFuelDoesNotMatter` | src/extract/despesas.py:58-95 | a pair's expense records are the same under every bound within which its walk stops |
| `Despesas.Enrich` | src/extract/despesas.py:124-126 | a stamped record has the original keys plus `deputado_id`, `deputado_nome` and `ano_ref`; those three hold the deputy's id, the deputy's name and the year; every other key keeps its value |
| `Despesas.StampDespesas` | src/extract/despesas.py:123-126 | the stamping loop keeps the pair's records in order and stamps each of them |
| `Despesas.Range` | src/extract/despesas.py:107 | Python's `range(lo, hi)`: `max(0, hi - lo)` consecutive integers from `lo` upward |
| `Despesas.AnosIsTwoYearWindow` | src/extract/despesas.py:28-29 | the year window is exactly `[ANO_ATUAL - 1, ANO_ATUAL]`, ascending |
| `Despesas.CollectDespesas` | src/extract/despesas.py:110-128 | the nested loops return the stamped records of every (deputy, year) pair, deputy by deputy in roster order and year by year; the pairs they fetch, in fetch order, are exactly `Pairs(roster, window)` |
| `Despesas.FanOutFuelDoesNotMatter` | src/extract/despesas.py:112-128 | the fan-out's records are the same under every bound within which every pair's walk stops, and a larger bound keeps every pair's walk stopping |
| `Despesas.DeputyFuelDoesNotMatter` | src/extract/despesas.py:118-128 | one deputy's records over the year window are the same under every bound within which each of their pairs' walks stops |
| `Despesas.CollectDeputado` | src/extract/despesas.py:113-128 | one deputy's `for ano in anos:` turn returns that deputy's stamped records year by year and fetches exactly the pairs of that deputy with each year, in year order |
| `Despesas.EveryRecordEnriched` | src/extract/despesas.py:112-128 | every output record carries `deputado_id`, `deputado_nome` and `ano_ref` equal to a roster deputy's `id` and `nome` and a window year |
| `Despesas.PairStampsItsOwn` | src/extract/despesas.py:119-126 | every record the fan-out takes from pair number `p` carries that pair's deputy id, deputy name and year |
| `Despesas.PairsInLoopOrder` | src/extract/despesas.py:112-121 | the pairs the fan-out fetches number (number of deputies) × (number of years); with m years, fetch number `i * m + j` is deputy `i` with year `j`, so each pair is fetched once |
| `Despesas.TwoFetchesPerDeputy` | src/extract/despesas.py:107-121 | with the two-year window a run fetches exactly two pairs per roster deputy |
| `Despesas.FanOutFollowsPairs` | src/extract/despesas.py:112-128 | the output is the concatenation of the pairs' stamped records in pair order: deputy order, then year, then page order |
| `Despesas.IngestDespesas` | src/extract/despesas.py:104-128 | an exception in the roster fetch aborts the run before any pair is fetched; otherwise the result is the fan-out over the fetched roster with the two-year window, and the pairs fetched are exactly that roster's pairs; it requires only that the roster walk stops and, when it succeeds, that each pair's expense walk stops |
| `Deputados.ExtractAllDeputados` | src/extract/deputados.py:10-32 | the extraction returns the records of every page of the chain in page order, or the first exception (connection failure, status 400-599, undecodable body, missing `dados`) with no partial result |
| `Deputados.MissingDadosRaises` | src/extract/deputados.py:19-20 | a served page without a `dados` key, after pages that all had one, aborts the extraction with a KeyError for that page |
| `Deputados.StrictAgreesWithLenient` | src/extract/deputados.py:15-31 | the two roster walks return the same result when every page has `dados`; whenever the strict one succeeds, the lenient one returns the same rows |
| `Deputados.BothExtractorsSameRoster` | src/extract/deputados.py:10-13 | the roster extractor's first request (`{"itens": 100}`) is the expense extractor's (`ITENS_POR_PAGINA` items, src/extract/despesas.py lines 36-37), and whenever the strict extraction succeeds the expense extractor's roster fetch returns the same deputies |

## Left out

- The HTTP transport (`requests.get`, the 30-second timeout of the expense extractor, no timeout in the roster extractor) and JSON decoding are the `Server` parameter. A `requests` exception is one `ConnectionError` response; a body that does not decode is a `Reply` without a body.
- Decoding errors count as `requests.RequestException` here, as they are in requests 2.27 and later. The expense fetch therefore catches them.
- Whether the loops' walks stop cannot be known from the code. Each loop method assumes it, through `WalkEndsWithin` and a ghost `fuel` bound, for the walk it makes up to the page where it stops.
- CollectDeputado: the inner year loop gathers one deputy's stamped records, and the outer loop appends them to `all_despesas`. The source extends `all_despesas` inside the inner loop. The final list and its order are the same.
- A body that is valid JSON but not an object, `dados` or `links` that are not lists (including JSON `null`), link entries that are not objects, `rel` or `href` values that are not strings (a number, `false`, a list; the loop ends on the falsy ones and hands the others to `requests.get`), and entries of `dados` that are not objects are not modelled. A record is always a JSON object. In the source, a roster entry that is not a dict makes `dep.get("id")` raise AttributeError (src/extract/despesas.py:113). An expense entry that is not a dict makes `d["deputado_id"] = ...` raise TypeError (src/extract/despesas.py:124). Either one aborts the run after the roster fetch.
- Exceptions other than `requests.RequestException` raised inside the expense fetch are not modelled.
- Floats, lists and nested objects inside records are opaque values (`Json.Other`). They are carried with their Python `str()` form and never read.
- The PostgreSQL load (src/extract/despesas.py:130-155: `create_engine`, `CREATE SCHEMA`, `to_sql` with `if_exists="replace"`, `CREATE INDEX`) is database I/O through SQLAlchemy and pandas. Its atomicity comes from `engine.begin()`, which is not visible here.
- The pandas `DataFrame` built from the records is not modelled (src/extract/despesas.py:130, src/extract/deputados.py:31). The result is the plain list of records.
- `save_parquet` and the roster extractor's main block are not modelled: file I/O, and a file name taken from `datetime.now()`.
- Environment and dotenv loading and `datetime.now()` are left out. The current year is a parameter.
- All `print` output is left out. That includes the warning the expense fetch prints before it gives up on a pair.
