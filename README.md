# ListenBrainz statistics: BigQuery query wrapper

A Dafny model of the query wrapper in `listenbrainz/stats/__init__.py`, the
module through which ListenBrainz's statistics code runs SQL on Google
BigQuery. The model covers the part of `run_query` that shapes data:

- **Parameter translation** (`get_parameters_dict`). Each `{name, type, value}`
  parameter becomes a `{name, parameterType: {type}, parameterValue: {value}}`
  descriptor. An absent or empty list becomes `None`.
- **The request body** sent to `jobs.query`. It uses standard SQL
  (`useLegacySql` false) and `NAMED` parameter mode. It points at the
  configured project and dataset and carries the translated parameters.
- **Pagination.** The rows of the first page are extended with the rows of
  each later `getQueryResults` page. Each fetch uses the last `pageToken` seen.
  The loop ends at the first page that has no `pageToken`. The code means to
  log a failed fetch and retry it with the same token. As written, though,
  the first failed fetch raises NameError (see Findings). `RunQuery` and
  `Follow` model the intended, retrying loop. `FollowAsWritten` models the
  loop as written.
- **Result reshaping** (`format_results`). Each row's cells are zipped with
  the schema's field names, giving one name → value record per row.

`wrappers.dfy` holds `Option` and `Result`. `stats.dfy` holds module `Stats`,
which models the source file. The source's loops are methods with loop
invariants: `GetParametersDict`, `FormatResults` and `RunQuery`. Each is proved
equal to a specification function: `ParametersDict`, `FormatRows`, and
`QueryResults` with `Follow`. The lemmas state what those functions guarantee.

BigQuery is never called. `RunQuery` takes the reply to the submitted query
(`response`, the first page) and a sequence of `FetchOutcome`s. Each outcome
is either `HttpError` or `Fetched(page)`, the result of one later
`getQueryResults` call. It returns the body it would submit, the result, and
`requests`, the token each fetch used. If the outcomes run out before a page
without a token arrives, the result is `StillPaging`; the source would keep
fetching. Cell values have an arbitrary type `V`. The project and dataset IDs
from the configuration are a `Config` parameter.

## Model

| member | source | states |
|---|---|---|
| `Stats.Descriptor` | listenbrainz/stats/__init__.py:47-54 | name, type and value read back unchanged from the descriptor: they are copied verbatim, with no validation |
| `Stats.Descriptors` | listenbrainz/stats/__init__.py:44-59 | one descriptor per parameter: the output is as long as the input |
| `Stats.DescriptorsAt` | listenbrainz/stats/__init__.py:45-57 | the i-th descriptor is built from the i-th parameter (order is kept) |
| `Stats.ParametersDict` | listenbrainz/stats/__init__.py:41-59 | `None` exactly for an absent or empty list, otherwise one entry per parameter; `ParametersDictShape` gives the entries' contents |
| `Stats.ParametersDictShape` | listenbrainz/stats/__init__.py:41-59 | `None` exactly when the list is absent or empty, never an empty list; otherwise the same number of entries, entry i from parameter i, and the parameters read back from the entries |
| `Stats.GetParametersDict` | listenbrainz/stats/__init__.py:26-59 | the append loop returns exactly the specified translation |
| `Stats.QueryBody` | listenbrainz/stats/__init__.py:101-111 | kind `bigquery#queryRequest`, `parameterMode` `NAMED`, `useLegacySql` false, the configured project and dataset, `queryParameters` equal to the translation of the parameters, and the query text |
| `Stats.QueryBodyCarriesParameters` | listenbrainz/stats/__init__.py:109 | the body carries no parameter list iff none was given; otherwise it carries every given parameter, in order and unchanged |
| `Stats.RowRecord` | listenbrainz/stats/__init__.py:87-89 | a row's record has as keys exactly the names of the first `len(cells)` schema fields |
| `Stats.RowRecordLastWins` | listenbrainz/stats/__init__.py:88-89 | the name of field j maps to the `v` of cell j unless a later cell has a field of the same name |
| `Stats.RowRecordFromLastOccurrence` | listenbrainz/stats/__init__.py:88-89 | every key holds the cell at the last position whose field has that name: for repeated names the later cell overwrites the earlier |
| `Stats.RowRecordPositional` | listenbrainz/stats/__init__.py:88-89 | with distinct field names, field j's name maps to cell j's value for every j |
| `Stats.FormatRows` | listenbrainz/stats/__init__.py:79-91 | succeeds iff no row has more cells than the schema has fields (otherwise IndexError); on success exactly one record per row, record k built from row k |
| `Stats.FormatResults` | listenbrainz/stats/__init__.py:85-91 | the nested loops return exactly `FormatRows` of the schema's fields and the rows, including the IndexError |
| `Stats.RunQuery` | listenbrainz/stats/__init__.py:94-163 | submits `QueryBody`; if the first page has no `pageToken`, no fetch is made and the result is the first page's rows reshaped; otherwise the result and the tokens fetched with are those of the intended, retrying page-following loop `Follow` (as written, a failed fetch raises NameError instead: `FollowAsWritten`) |
| `Stats.QueryResults` | listenbrainz/stats/__init__.py:141-163 | with no `pageToken` on the first page, the first page's rows reshaped; while still paging, the rows extend the first page's; `QueryResultsCompleteIff` says when the query completes and `QueryResultsAfterPaging` what it completes with after paging |
| `Stats.QueryResultsAfterPaging` | listenbrainz/stats/__init__.py:141-163 | when the first page has a token and outcome k is the first page without one, the query completes with the first page's schema applied to the first page's rows followed by the rows of every page fetched up to and including outcome k |
| `Stats.QueryResultsCompleteIff` | listenbrainz/stats/__init__.py:141-163 | the query completes iff the first page has no token or some fetched page has none; while still paging, the rows are the first page's followed by every fetched page's |
| `Stats.Start` | listenbrainz/stats/__init__.py:141-144 | the loop starts from the first page's rows and token, with no fetch made |
| `Stats.Step` | listenbrainz/stats/__init__.py:153-161 | one fetch with the current token: a failed fetch keeps rows and token (retrying loop); a page appends its rows and takes over its token (absent if it has none); rows only grow |
| `Stats.Follow` | listenbrainz/stats/__init__.py:152-163 | the retrying loop: once no token is held nothing changes; the earlier rows stay a prefix; at most one request per outcome; lemmas `FollowAccumulates`, `FollowStopsAtFirstLastPage`, `FollowRequestTokens`, `FailedFetchChangesNothing`, `FollowChunks` |
| `Stats.FollowChunks` | listenbrainz/stats/__init__.py:152-163 | following the outcomes in two runs gives the same state as following them in one: the result does not depend on chunking |
| `Stats.FollowAccumulates` | listenbrainz/stats/__init__.py:159 | rows only accumulate: the result is the first rows followed by each fetched page's rows in fetch order; one request per outcome consumed |
| `Stats.FollowStopsAtFirstLastPage` | listenbrainz/stats/__init__.py:160-163 | the loop stops iff some fetched page has no token, and then at the first such page; a failed fetch or a page with a present token, even the empty string, never stops it |
| `Stats.FollowRequestTokens` | listenbrainz/stats/__init__.py:152-161 | each fetch uses the token of the most recent page that carried one (the first page's token at first), so a failed fetch is retried with the same token |
| `Stats.FailedFetchChangesNothing` | listenbrainz/stats/__init__.py:153-157 | inserting a failed fetch anywhere changes neither the gathered rows nor the token the loop holds |
| `Stats.FollowAsWritten` | listenbrainz/stats/__init__.py:152-163 | the loop as written: it fails only with NameError, and only when some fetch failed; when it succeeds it agrees with `Follow`; `HttpErrorBeforeLastPageFails` gives the converse |
| `Stats.HttpErrorBeforeLastPageFails` | listenbrainz/stats/__init__.py:152-163 | as written, a failed fetch anywhere before the first page without a token ends the loop in NameError for `googleapiclient` |
| `Stats.FollowAsWrittenWithoutErrors` | listenbrainz/stats/__init__.py:152-163 | when no fetch fails, the loop as written and the retrying loop give the same result |
| `Stats.HttpErrorAbortsAsWritten` | listenbrainz/stats/__init__.py:155 | as written, one failed fetch ends the query in NameError, while the retrying loop goes on to the last page |
| `Stats.FormatTwoRowsExample` | listenbrainz/stats/__init__.py:85-91 | schema `[artist, count]` with rows `[A, 1]`, `[B, 2]` gives `[{artist: A, count: 1}, {artist: B, count: 2}]` |
| `Stats.EmptyTokenIsPresentExample` | listenbrainz/stats/__init__.py:160-163 | a page whose token is the empty string does not end the loop: the next fetch is made with `""` |

## Findings

| source | as written | input that shows it | evidently intended | confidence | as-written member | corrected member |
|---|---|---|---|---|---|---|
| listenbrainz/stats/__init__.py:155 | the `except` clause names `googleapiclient.errors.HttpError`, but the module never imports `googleapiclient`, so when a page fetch raises HttpError, evaluating the clause raises NameError and `run_query` fails | a first page with a token, then one fetch that fails with HttpError, then a last page | log the error and retry the fetch with the same token, keeping the rows gathered so far | high; not executed | `Stats.HttpErrorBeforeLastPageFails` (on `Stats.FollowAsWritten`) | `Stats.FailedFetchChangesNothing` (on `Stats.Follow`, which `Stats.RunQuery` uses) |

## Left out

- `init_bigquery_connection` and the module-level `bigquery` client (lines 16-23): connection setup. `create_bigquery_object` is not part of this model.
- Configuration import and logger setup (lines 1-14): the configured project and dataset IDs are the `Config` parameter. Log messages are not modelled.
- `wait_for_completion` (lines 62-77): it polls job status with `time.sleep` and has no bound. It returns only when the service reports `DONE`, so it has no result to model.
- The `jobs().query` and `getQueryResults` calls and their `num_retries` (lines 113-115, 134, 154): foreign API calls. The reply to the query is the `response` input and each later fetch is a `FetchOutcome` input. Whether a page's rows depend on the token sent is not modelled.
- The branch for a query not complete at once (lines 122-123, 129-138): as written it reads `have_results`, which is assigned only when the job is complete, so it raises UnboundLocalError. The model starts from a completed first page.
- The same missing `googleapiclient` import affects the `except` clauses at lines 69 and 136. Those lie in the polling and first-page code left out above.
- Responses are assumed well formed: the `schema`, `fields`, `rows`, `f`, `v` and `name` keys are present. A missing key would raise KeyError and is not modelled. The exception is `pageToken`, whose absence is the documented end of the results.
- `RunQuery`: as written, the first failed fetch raises NameError (see Findings), so the source loops on only while pages keep carrying tokens. The intended retrying loop would also loop on while fetches keep failing. The model stops when the given outcomes run out and reports `StillPaging`.
- Records are Dafny maps, so the insertion order of keys in a Python dict is not modelled. Schema field attributes other than `name` are ignored, as in the source.
- `data['rows']` aliases the first page's row list and is extended in place. The model keeps the rows as a value, so this aliasing is not modelled; it is not observable outside `run_query`.
