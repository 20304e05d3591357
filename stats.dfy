/**
 * The BigQuery query wrapper of ListenBrainz's statistics package
 * (listenbrainz/stats/__init__.py): translating named query parameters,
 * building the `jobs.query` request body, following `pageToken` cursors
 * across result pages, and reshaping the column-oriented result into one
 * name -> value record per row.
 *
 * The BigQuery service is not called: the response to the submitted query
 * and the outcomes of the later `getQueryResults` calls are inputs.
 * Cell values are of an arbitrary type `V`.
 */
module Stats {
  import opened Wrappers

  // ---------------------------------------------------------------------
  // Query parameters (get_parameters_dict)
  // ---------------------------------------------------------------------

  /** One entry of the caller's parameter list: `{name, type, value}`. */
  datatype Parameter = Parameter(name: string, typeName: string, value: string)

  /** The `parameterType` object of a BigQuery query parameter. */
  datatype ParameterType = ParameterType(typeName: string)

  /** The `parameterValue` object of a BigQuery query parameter. */
  datatype ParameterValue = ParameterValue(value: string)

  /** `{name, parameterType: {type}, parameterValue: {value}}`, as `jobs.query` expects it. */
  datatype QueryParameter = QueryParameter(name: string, parameterType: ParameterType, parameterValue: ParameterValue)

  /** Reads back the name, type and value a descriptor carries. */
  function ParameterOf(q: QueryParameter): Parameter
  {
    Parameter(q.name, q.parameterType.typeName, q.parameterValue.value)
  }

  /** The descriptor for one parameter: name, type and value copied verbatim. */
  function Descriptor(p: Parameter): (q: QueryParameter)
    ensures ParameterOf(q) == p
  {
    QueryParameter(p.name, ParameterType(p.typeName), ParameterValue(p.value))
  }

  /** The descriptors of a parameter list, one per parameter, in order. */
  function Descriptors(ps: seq<Parameter>): (qs: seq<QueryParameter>)
    ensures |qs| == |ps|
  {
    if ps == [] then [] else [Descriptor(ps[0])] + Descriptors(ps[1..])
  }

  lemma {:induction false} DescriptorsAt(ps: seq<Parameter>, i: nat)
    requires i < |ps|
    ensures Descriptors(ps)[i] == Descriptor(ps[i])
  {
    if i > 0 {
      DescriptorsAt(ps[1..], i - 1);
    }
  }

  /**
   * What `get_parameters_dict` returns: nothing for an absent or empty
   * parameter list, otherwise the list of descriptors.
   */
  function ParametersDict(parameters: Option<seq<Parameter>>): (r: Option<seq<QueryParameter>>)
    ensures r.None? <==> parameters.None? || parameters.value == []
    ensures r.Some? ==> |r.value| == |parameters.value|
  {
    match parameters
    case None => None
    case Some(ps) => if ps == [] then None else Some(Descriptors(ps))
  }

  /**
   * An absent or empty parameter list gives `None` (never an empty list);
   * otherwise every parameter gives exactly one descriptor, at its own
   * position, from which its name, type and value read back unchanged.
   */
  lemma {:induction false} ParametersDictShape(parameters: Option<seq<Parameter>>)
    ensures ParametersDict(parameters).None? <==> parameters.None? || parameters.value == []
    ensures ParametersDict(parameters).Some? ==>
      var ps, qs := parameters.value, ParametersDict(parameters).value;
      |qs| == |ps| &&
      forall i :: 0 <= i < |ps| ==> qs[i] == Descriptor(ps[i]) && ParameterOf(qs[i]) == ps[i]
  {
    if parameters.Some? && parameters.value != [] {
      var ps := parameters.value;
      forall i | 0 <= i < |ps|
        ensures Descriptors(ps)[i] == Descriptor(ps[i])
      {
        DescriptorsAt(ps, i);
      }
    }
  }

  /** `get_parameters_dict`: builds the descriptor list by appending one entry per parameter. */
  method GetParametersDict(parameters: Option<seq<Parameter>>) returns (r: Option<seq<QueryParameter>>)
    ensures r == ParametersDict(parameters)
  {
    if parameters.None? || parameters.value == [] {
      return None;
    }
    var ps := parameters.value;
    var bqParams: seq<QueryParameter> := [];
    for i := 0 to |ps|
      invariant |bqParams| == i
      invariant forall k :: 0 <= k < i ==> bqParams[k] == Descriptor(ps[k])
    {
      var param := ps[i];
      var temp := QueryParameter(param.name, ParameterType(param.typeName), ParameterValue(param.value));
      bqParams := bqParams + [temp];
    }
    forall k | 0 <= k < |ps|
      ensures bqParams[k] == Descriptors(ps)[k]
    {
      DescriptorsAt(ps, k);
    }
    assert bqParams == Descriptors(ps);
    return Some(bqParams);
  }

  // ---------------------------------------------------------------------
  // The query request body (run_query)
  // ---------------------------------------------------------------------

  /** BIGQUERY_PROJECT_ID and BIGQUERY_DATASET_ID of the configuration. */
  datatype Config = Config(projectId: string, datasetId: string)

  /** The `default_dataset` object of the request. */
  datatype DatasetReference = DatasetReference(projectId: string, datasetId: string)

  /** The body sent to `jobs.query`. */
  datatype QueryRequest = QueryRequest(
    kind: string,
    parameterMode: string,
    default_dataset: DatasetReference,
    useLegacySql: bool,
    queryParameters: Option<seq<QueryParameter>>,
    query: string)

  /**
   * The request body: standard SQL in named-parameter mode against the
   * configured dataset, carrying the translated parameters and the query.
   */
  function QueryBody(query: string, parameters: Option<seq<Parameter>>, config: Config): (body: QueryRequest)
    ensures body.kind == "bigquery#queryRequest"
    ensures body.parameterMode == "NAMED" && !body.useLegacySql
    ensures body.default_dataset == DatasetReference(config.projectId, config.datasetId)
    ensures body.queryParameters == ParametersDict(parameters)
    ensures body.query == query
  {
    QueryRequest("bigquery#queryRequest", "NAMED",
      DatasetReference(config.projectId, config.datasetId),
      false, ParametersDict(parameters), query)
  }

  /**
   * The body carries every parameter the caller gave, in order and
   * unchanged, and carries no parameter list at all when none was given.
   */
  lemma {:induction false} QueryBodyCarriesParameters(query: string, parameters: Option<seq<Parameter>>, config: Config)
    ensures QueryBody(query, parameters, config).queryParameters.None? <==>
      parameters.None? || parameters.value == []
    ensures QueryBody(query, parameters, config).queryParameters.Some? ==>
      var qs := QueryBody(query, parameters, config).queryParameters.value;
      |qs| == |parameters.value| &&
      forall i :: 0 <= i < |qs| ==> ParameterOf(qs[i]) == parameters.value[i]
  {
    ParametersDictShape(parameters);
  }

  // ---------------------------------------------------------------------
  // Result reshaping (format_results)
  // ---------------------------------------------------------------------

  /** A schema field; only its `name` is used. */
  datatype Field = Field(name: string)

  /** `schema`: the ordered field list. */
  datatype Schema = Schema(fields: seq<Field>)

  /** One cell `{v: value}` of a row. */
  datatype Cell<V> = Cell(v: V)

  /** One row `{f: [cells]}`, cells in schema order. */
  datatype Row<V> = Row(f: seq<Cell<V>>)

  /** The `data` dictionary `format_results` reads: a schema and its rows. */
  datatype QueryData<V> = QueryData(schema: Schema, rows: seq<Row<V>>)

  /** One reshaped row: field name -> cell value. */
  type Record<V> = map<string, V>

  /** Exceptions that end `run_query`. */
  datatype QueryError =
    | IndexOutOfRange        // a row has more cells than the schema has fields
    | NameError(name: string) // a name that is not bound where it is evaluated

  /**
   * The record built from the first `|cells|` fields and the cells, writing
   * the cells one after another, so that of two cells under the same field
   * name the later one is kept. Its keys are exactly the names of those fields.
   */
  function RowRecord<V>(fields: seq<Field>, cells: seq<Cell<V>>): (r: Record<V>)
    requires |cells| <= |fields|
    ensures r.Keys == set j | 0 <= j < |cells| :: fields[j].name
  {
    if cells == [] then map[]
    else
      var n := |cells| - 1;
      var prev := RowRecord(fields, cells[..n]);
      assert (set j | 0 <= j < |cells| :: fields[j].name)
          == (set j | 0 <= j < n :: fields[j].name) + {fields[n].name};
      prev[fields[n].name := cells[n].v]
  }

  /** The cell at position `j` is the value of field `j`'s name unless a later cell has the same name. */
  lemma {:induction false} RowRecordLastWins<V>(fields: seq<Field>, cells: seq<Cell<V>>, j: nat)
    requires j < |cells| <= |fields|
    requires IsLastOccurrence(fields, |cells|, j, fields[j].name)
    ensures fields[j].name in RowRecord(fields, cells)
    ensures RowRecord(fields, cells)[fields[j].name] == cells[j].v
  {
    var n := |cells| - 1;
    if j < n {
      RowRecordLastWins(fields, cells[..n], j);
    }
  }

  /** Position `j` is the last of the first `n` fields named `key`. */
  predicate IsLastOccurrence(fields: seq<Field>, n: nat, j: nat, key: string)
  {
    j < n <= |fields| && fields[j].name == key && forall k :: j < k < n ==> fields[k].name != key
  }

  /** Every key of the record holds the cell of the last position whose field has that name. */
  lemma {:induction false} RowRecordFromLastOccurrence<V>(fields: seq<Field>, cells: seq<Cell<V>>, key: string)
    requires |cells| <= |fields|
    requires key in RowRecord(fields, cells)
    ensures exists j: nat :: IsLastOccurrence(fields, |cells|, j, key) && RowRecord(fields, cells)[key] == cells[j].v
  {
    var n := |cells| - 1;
    if fields[n].name == key {
      assert IsLastOccurrence(fields, |cells|, n, key);
    } else {
      RowRecordFromLastOccurrence(fields, cells[..n], key);
      var j: nat :| IsLastOccurrence(fields, n, j, key) && RowRecord(fields, cells[..n])[key] == cells[..n][j].v;
      assert IsLastOccurrence(fields, |cells|, j, key);
    }
  }

  /** With distinct field names, field `j`'s name maps to cell `j`, for every position. */
  lemma {:induction false} RowRecordPositional<V>(fields: seq<Field>, cells: seq<Cell<V>>)
    requires |cells| <= |fields|
    requires forall a, b :: 0 <= a < b < |cells| ==> fields[a].name != fields[b].name
    ensures forall j :: 0 <= j < |cells| ==>
      fields[j].name in RowRecord(fields, cells) && RowRecord(fields, cells)[fields[j].name] == cells[j].v
  {
    forall j | 0 <= j < |cells|
      ensures fields[j].name in RowRecord(fields, cells) && RowRecord(fields, cells)[fields[j].name] == cells[j].v
    {
      RowRecordLastWins(fields, cells, j);
    }
  }

  /**
   * What `format_results` returns: one record per row, in row order; it
   * raises IndexError if some row has more cells than the schema has fields.
   */
  function FormatRows<V>(fields: seq<Field>, rows: seq<Row<V>>): (r: Result<seq<Record<V>>, QueryError>)
    ensures r.Success? <==> forall k :: 0 <= k < |rows| ==> |rows[k].f| <= |fields|
    ensures r.Failure? ==> r.error == IndexOutOfRange
    ensures r.Success? ==>
      |r.value| == |rows| &&
      forall k :: 0 <= k < |rows| ==> r.value[k] == RowRecord(fields, rows[k].f)
  {
    if rows == [] then Success([])
    else if |rows[0].f| > |fields| then Failure(IndexOutOfRange)
    else
      match FormatRows(fields, rows[1..])
      case Failure(e) => Failure(e)
      case Success(rest) => Success([RowRecord(fields, rows[0].f)] + rest)
  }

  /** `format_results`: nested loops filling one record per row and appending it. */
  method FormatResults<V>(data: QueryData<V>) returns (r: Result<seq<Record<V>>, QueryError>)
    ensures r == FormatRows(data.schema.fields, data.rows)
  {
    var fields := data.schema.fields;
    var formattedData: seq<Record<V>> := [];
    var i := 0;
    while i < |data.rows|
      invariant 0 <= i <= |data.rows|
      invariant forall k :: 0 <= k < i ==> |data.rows[k].f| <= |fields|
      invariant |formattedData| == i
      invariant forall k :: 0 <= k < i ==> formattedData[k] == RowRecord(fields, data.rows[k].f)
    {
      var cells := data.rows[i].f;
      var formattedRow: Record<V> := map[];
      var j := 0;
      while j < |cells|
        invariant 0 <= j <= |cells| && j <= |fields|
        invariant formattedRow == RowRecord(fields, cells[..j])
      {
        if j >= |fields| {
          return Failure(IndexOutOfRange);
        }
        assert cells[..j + 1][..j] == cells[..j];
        formattedRow := formattedRow[fields[j].name := cells[j].v];
        j := j + 1;
      }
      assert cells[..j] == cells;
      formattedData := formattedData + [formattedRow];
      i := i + 1;
    }
    assert formattedData == FormatRows(fields, data.rows).value;
    return Success(formattedData);
  }

  // ---------------------------------------------------------------------
  // Pagination (run_query)
  // ---------------------------------------------------------------------

  /** A page of results: schema, rows and, unless it is the last page, a `pageToken`. */
  datatype ResultPage<V> = ResultPage(schema: Schema, rows: seq<Row<V>>, pageToken: Option<string>)

  /** What one `getQueryResults` call gives: an HttpError or a page. */
  datatype FetchOutcome<V> = HttpError | Fetched(page: ResultPage<V>)

  /**
   * The state of the page-following loop: the rows gathered so far, the
   * token to fetch with next (`None` once a page without a token has
   * arrived) and the tokens of the fetches issued so far.
   */
  datatype Paging<V> = Paging(rows: seq<Row<V>>, token: Option<string>, requests: seq<string>)

  /** The state before the loop: the first page's rows and token, nothing fetched. */
  function Start<V>(response: ResultPage<V>): (s: Paging<V>)
    ensures s.rows == response.rows && s.token == response.pageToken && s.requests == []
  {
    Paging(response.rows, response.pageToken, [])
  }

  /** One fetch with the current token: a failure changes nothing but the trace; a page appends its rows. */
  function Step<V>(s: Paging<V>, o: FetchOutcome<V>): (r: Paging<V>)
    requires s.token.Some?
    ensures r.requests == s.requests + [s.token.value]
    ensures |s.rows| <= |r.rows| && r.rows[..|s.rows|] == s.rows
    ensures o.HttpError? ==> r.rows == s.rows && r.token == s.token
    ensures o.Fetched? ==> r.rows == s.rows + o.page.rows && r.token == o.page.pageToken
  {
    match o
    case HttpError => s.(requests := s.requests + [s.token.value])
    case Fetched(page) => Paging(s.rows + page.rows, page.pageToken, s.requests + [s.token.value])
  }

  /** Runs the loop over the given fetch outcomes until a page has no token or the outcomes run out. */
  function Follow<V>(s: Paging<V>, outcomes: seq<FetchOutcome<V>>): (r: Paging<V>)
    ensures s.token.None? ==> r == s
    ensures |s.rows| <= |r.rows| && r.rows[..|s.rows|] == s.rows
    ensures |s.requests| <= |r.requests| <= |s.requests| + |outcomes|
    decreases |outcomes|
  {
    if s.token.None? || outcomes == [] then s
    else Follow(Step(s, outcomes[0]), outcomes[1..])
  }

  /** A page without a `pageToken` key: the last page. */
  predicate IsLastPage<V>(o: FetchOutcome<V>)
  {
    o.Fetched? && o.page.pageToken.None?
  }

  /** The rows of the pages among the outcomes, in fetch order. */
  function FetchedRows<V>(outcomes: seq<FetchOutcome<V>>): seq<Row<V>>
  {
    if outcomes == [] then []
    else
      (match outcomes[0] case HttpError => [] case Fetched(page) => page.rows) + FetchedRows(outcomes[1..])
  }

  /** The token held after one outcome: a page with a token replaces it, anything else keeps it. */
  function NextToken<V>(token: string, o: FetchOutcome<V>): string
  {
    match o
    case Fetched(ResultPage(_, _, Some(t))) => t
    case _ => token
  }

  /** The token of the most recent page among the outcomes that carried one, else `token`. */
  function LatestToken<V>(token: string, outcomes: seq<FetchOutcome<V>>): string
  {
    if outcomes == [] then token
    else NextToken(LatestToken(token, outcomes[..|outcomes| - 1]), outcomes[|outcomes| - 1])
  }

  /** Splitting the outcomes into two runs gives the same result as one run: order does not depend on chunking. */
  lemma {:induction false} FollowChunks<V>(s: Paging<V>, a: seq<FetchOutcome<V>>, b: seq<FetchOutcome<V>>)
    ensures Follow(s, a + b) == Follow(Follow(s, a), b)
    decreases |a|
  {
    if a == [] {
      assert a + b == b;
    } else if s.token.Some? {
      assert (a + b)[0] == a[0] && (a + b)[1..] == a[1..] + b;
      FollowChunks(Step(s, a[0]), a[1..], b);
    }
  }

  /** The gathered rows and the final token do not depend on the requests already traced. */
  lemma {:induction false} FollowIgnoresTrace<V>(s: Paging<V>, t: Paging<V>, outcomes: seq<FetchOutcome<V>>)
    requires s.rows == t.rows && s.token == t.token
    ensures Follow(s, outcomes).rows == Follow(t, outcomes).rows
    ensures Follow(s, outcomes).token == Follow(t, outcomes).token
    decreases |outcomes|
  {
    if s.token.Some? && outcomes != [] {
      FollowIgnoresTrace(Step(s, outcomes[0]), Step(t, outcomes[0]), outcomes[1..]);
    }
  }

  /**
   * Rows only accumulate: the result is the rows held at the start followed
   * by the rows of each page fetched, in fetch order; one request is issued
   * per outcome consumed, appended to the trace.
   */
  lemma {:induction false} FollowAccumulates<V>(s: Paging<V>, outcomes: seq<FetchOutcome<V>>)
    ensures |s.requests| <= |Follow(s, outcomes).requests| <= |s.requests| + |outcomes|
    ensures Follow(s, outcomes).requests[..|s.requests|] == s.requests
    ensures Follow(s, outcomes).rows ==
      s.rows + FetchedRows(outcomes[..|Follow(s, outcomes).requests| - |s.requests|])
    decreases |outcomes|
  {
    if s.token.None? || outcomes == [] {
      assert outcomes[..0] == [];
    } else {
      var s' := Step(s, outcomes[0]);
      var f := Follow(s', outcomes[1..]);
      FollowAccumulates(s', outcomes[1..]);
      var n := |f.requests| - |s.requests|;
      assert f.requests[..|s.requests|] == f.requests[..|s'.requests|][..|s.requests|];
      assert outcomes[..n][0] == outcomes[0] && outcomes[..n][1..] == outcomes[1..][..n - 1];
    }
  }

  /** The request trace only grows, by at most one token per outcome. */
  lemma {:induction false} FollowExtendsRequests<V>(s: Paging<V>, outcomes: seq<FetchOutcome<V>>)
    ensures |s.requests| <= |Follow(s, outcomes).requests| <= |s.requests| + |outcomes|
    ensures Follow(s, outcomes).requests[..|s.requests|] == s.requests
    decreases |outcomes|
  {
    if s.token.Some? && outcomes != [] {
      var s' := Step(s, outcomes[0]);
      var f := Follow(s', outcomes[1..]);
      assert Follow(s, outcomes) == f;
      FollowExtendsRequests(s', outcomes[1..]);
      assert f.requests[..|s.requests|] == f.requests[..|s'.requests|][..|s.requests|];
    }
  }

  /**
   * The loop stops exactly at the first page without a token: it has
   * stopped iff some outcome is such a page, and then the last outcome it
   * consumed is the first such page; otherwise it consumed every outcome.
   * A failed fetch or a page whose token is present (even empty) never stops it.
   */
  lemma {:induction false} FollowStopsAtFirstLastPage<V>(s: Paging<V>, outcomes: seq<FetchOutcome<V>>)
    requires s.token.Some?
    ensures var f := Follow(s, outcomes);
      var n := |f.requests| - |s.requests|;
      && (f.token.None? <==> exists k :: 0 <= k < |outcomes| && IsLastPage(outcomes[k]))
      && (f.token.None? ==> 1 <= n <= |outcomes| && IsLastPage(outcomes[n - 1]))
      && (f.token.Some? ==> n == |outcomes|)
      && forall k :: 0 <= k < n - 1 ==> !IsLastPage(outcomes[k])
    decreases |outcomes|
  {
    var f := Follow(s, outcomes);
    if outcomes == [] {
      assert f == s;
    } else {
      var s' := Step(s, outcomes[0]);
      assert |s'.requests| == |s.requests| + 1;
      assert f == Follow(s', outcomes[1..]);
      if s'.token.None? {
        assert f == s' && IsLastPage(outcomes[0]);
      } else {
        var rest := outcomes[1..];
        assert f == Follow(s', rest) && !IsLastPage(outcomes[0]);
        FollowStopsAtFirstLastPage(s', rest);
        FollowAccumulates(s', rest);
        forall k | 1 <= k < |outcomes|
          ensures outcomes[k] == rest[k - 1]
        {
        }
        if f.token.None? {
          var k :| 0 <= k < |rest| && IsLastPage(rest[k]);
          assert IsLastPage(outcomes[k + 1]);
        }
      }
    }
  }

  /** Prepending one outcome to a run is the same as starting from the token it leaves behind. */
  lemma {:induction false} LatestTokenCons<V>(token: string, o: FetchOutcome<V>, outcomes: seq<FetchOutcome<V>>)
    ensures LatestToken(token, [o] + outcomes) == LatestToken(NextToken(token, o), outcomes)
    decreases |outcomes|
  {
    if outcomes == [] {
      assert ([o] + outcomes)[..0] == [];
    } else {
      var n := |outcomes| - 1;
      assert ([o] + outcomes)[..n + 1] == [o] + outcomes[..n];
      LatestTokenCons(token, o, outcomes[..n]);
    }
  }

  /** The token of the k-th fetch, seen from the second outcome on. */
  lemma LatestTokenPrefix<V>(token: string, outcomes: seq<FetchOutcome<V>>, k: nat)
    requires 1 <= k <= |outcomes|
    ensures LatestToken(token, outcomes[..k]) == LatestToken(NextToken(token, outcomes[0]), outcomes[1..][..k - 1])
  {
    assert outcomes[..k] == [outcomes[0]] + outcomes[1..][..k - 1];
    LatestTokenCons(token, outcomes[0], outcomes[1..][..k - 1]);
  }

  /**
   * Each fetch uses the token of the most recent page that carried one, or
   * the starting token if there was none yet: a failed fetch is retried
   * with the same token.
   */
  lemma {:induction false} FollowRequestTokens<V>(s: Paging<V>, outcomes: seq<FetchOutcome<V>>)
    requires s.token.Some?
    ensures var f := Follow(s, outcomes);
      |s.requests| <= |f.requests| <= |s.requests| + |outcomes| &&
      forall k :: 0 <= k < |f.requests| - |s.requests| ==>
        f.requests[|s.requests| + k] == LatestToken(s.token.value, outcomes[..k])
    decreases |outcomes|
  {
    FollowExtendsRequests(s, outcomes);
    var f := Follow(s, outcomes);
    var t := s.token.value;
    if outcomes != [] {
      var s' := Step(s, outcomes[0]);
      var rest := outcomes[1..];
      assert f == Follow(s', rest);
      assert s'.requests == s.requests + [t];
      FollowExtendsRequests(s', rest);
      assert f.requests[..|s'.requests|] == s'.requests;
      assert f.requests[|s.requests|] == t == LatestToken(t, outcomes[..0]);
      if s'.token.Some? {
        assert s'.token.value == NextToken(t, outcomes[0]);
        FollowRequestTokens(s', rest);
        forall k | 1 <= k < |f.requests| - |s.requests|
          ensures f.requests[|s.requests| + k] == LatestToken(t, outcomes[..k])
        {
          assert f.requests[|s'.requests| + (k - 1)] == LatestToken(s'.token.value, rest[..k - 1]);
          LatestTokenPrefix(t, outcomes, k);
        }
      } else {
        assert f == s';
      }
    }
  }

  /**
   * A failed fetch anywhere in the run changes neither the gathered rows
   * nor where the loop stands: only the request is repeated.
   */
  lemma {:induction false} FailedFetchChangesNothing<V>(s: Paging<V>, a: seq<FetchOutcome<V>>, b: seq<FetchOutcome<V>>)
    ensures Follow(s, a + [HttpError] + b).rows == Follow(s, a + b).rows
    ensures Follow(s, a + [HttpError] + b).token == Follow(s, a + b).token
  {
    FollowChunks(s, a, [HttpError] + b);
    FollowChunks(s, a, b);
    assert a + [HttpError] + b == a + ([HttpError] + b);
    var m := Follow(s, a);
    if m.token.Some? {
      assert ([HttpError] + b)[0] == HttpError && ([HttpError] + b)[1..] == b;
      FollowIgnoresTrace(Step(m, HttpError), m, b);
    }
  }

  /** What `run_query` returns, or where its loop stands once the given outcomes are used up. */
  datatype QueryOutcome<V> =
    | Completed(records: Result<seq<Record<V>>, QueryError>)
    | StillPaging(rows: seq<Row<V>>, pageToken: string)

  /** The result of `run_query` for a first page and the outcomes of the later fetches. */
  function QueryResults<V>(response: ResultPage<V>, outcomes: seq<FetchOutcome<V>>): (r: QueryOutcome<V>)
    ensures response.pageToken.None? ==> r == Completed(FormatRows(response.schema.fields, response.rows))
    ensures r.StillPaging? ==> |response.rows| <= |r.rows| && r.rows[..|response.rows|] == response.rows
  {
    var f := Follow(Start(response), outcomes);
    match f.token
    case None => Completed(FormatRows(response.schema.fields, f.rows))
    case Some(t) => StillPaging(f.rows, t)
  }

  /**
   * The query completes iff the first page has no token or some fetched
   * page has none; while it is still paging, its rows are the first page's
   * followed by those of every page fetched.
   */
  lemma {:induction false} QueryResultsCompleteIff<V>(response: ResultPage<V>, outcomes: seq<FetchOutcome<V>>)
    ensures QueryResults(response, outcomes).Completed? <==>
      response.pageToken.None? || exists k :: 0 <= k < |outcomes| && IsLastPage(outcomes[k])
    ensures QueryResults(response, outcomes).StillPaging? ==>
      QueryResults(response, outcomes).rows == response.rows + FetchedRows(outcomes)
  {
    var s := Start(response);
    if s.token.Some? {
      FollowStopsAtFirstLastPage(s, outcomes);
      FollowAccumulates(s, outcomes);
      assert outcomes[..|outcomes|] == outcomes;
    }
  }

  /**
   * When outcome `k` is the first page without a token, the query completes
   * with the first page's schema applied to the first page's rows followed
   * by the rows of every page fetched up to and including page `k`.
   */
  lemma {:induction false} QueryResultsAfterPaging<V>(response: ResultPage<V>, outcomes: seq<FetchOutcome<V>>, k: nat)
    requires response.pageToken.Some?
    requires k < |outcomes| && IsLastPage(outcomes[k])
    requires forall j :: 0 <= j < k ==> !IsLastPage(outcomes[j])
    ensures QueryResults(response, outcomes)
         == Completed(FormatRows(response.schema.fields, response.rows + FetchedRows(outcomes[..k + 1])))
  {
    var s := Start(response);
    FollowStopsAtFirstLastPage(s, outcomes);
    FollowAccumulates(s, outcomes);
    var f := Follow(s, outcomes);
    assert f.token.None?;
    assert |f.requests| - 1 == k;
  }

  /**
   * `run_query` from the submitted body on, for a query the service
   * completed at once (`response` is its reply): it follows `pageToken`
   * cursors through `outcomes`, extending the rows page by page, and
   * reshapes them with the first page's schema. `requests` lists the token
   * each `getQueryResults` call used.
   */
  method RunQuery<V>(query: string, parameters: Option<seq<Parameter>>, config: Config,
                     response: ResultPage<V>, outcomes: seq<FetchOutcome<V>>)
    returns (body: QueryRequest, result: QueryOutcome<V>, requests: seq<string>)
    ensures body == QueryBody(query, parameters, config)
    ensures result == QueryResults(response, outcomes)
    ensures requests == Follow(Start(response), outcomes).requests
    ensures response.pageToken.None? ==>
      requests == [] && result == Completed(FormatRows(response.schema.fields, response.rows))
  {
    var queryParameters := GetParametersDict(parameters);
    body := QueryRequest("bigquery#queryRequest", "NAMED",
      DatasetReference(config.projectId, config.datasetId),
      false, queryParameters, query);

    var schema := response.schema;
    var rows := response.rows;
    requests := [];
    if response.pageToken.None? {
      var records := FormatResults(QueryData(schema, rows));
      return body, Completed(records), requests;
    }
    var prevToken := response.pageToken.value;

    var i := 0;
    while i < |outcomes|
      invariant 0 <= i <= |outcomes|
      invariant Follow(Paging(rows, Some(prevToken), requests), outcomes[i..]) == Follow(Start(response), outcomes)
    {
      assert outcomes[i..][0] == outcomes[i] && outcomes[i..][1..] == outcomes[i + 1..];
      requests := requests + [prevToken];
      match outcomes[i] {
        case HttpError =>
        case Fetched(queryResult) =>
          rows := rows + queryResult.rows;
          if queryResult.pageToken.None? {
            var records := FormatResults(QueryData(schema, rows));
            return body, Completed(records), requests;
          }
          prevToken := queryResult.pageToken.value;
      }
      i := i + 1;
    }
    result := StillPaging(rows, prevToken);
  }

  // ---------------------------------------------------------------------
  // The retry branch as written
  // ---------------------------------------------------------------------

  /**
   * The page-following loop as the module is written: its `except` clause
   * names `googleapiclient`, which the module never imports, so a failed
   * fetch raises NameError instead of being retried.
   */
  function FollowAsWritten<V>(s: Paging<V>, outcomes: seq<FetchOutcome<V>>): (r: Result<Paging<V>, QueryError>)
    ensures r.Failure? ==>
      r.error == NameError("googleapiclient") && exists k :: 0 <= k < |outcomes| && outcomes[k].HttpError?
    ensures r.Success? ==> r.value == Follow(s, outcomes)
    decreases |outcomes|
  {
    if s.token.None? || outcomes == [] then Success(s)
    else
      match outcomes[0]
      case HttpError => Failure(NameError("googleapiclient"))
      case Fetched(_) =>
        var r := FollowAsWritten(Step(s, outcomes[0]), outcomes[1..]);
        assert forall j :: 0 <= j < |outcomes| - 1 ==> outcomes[1..][j] == outcomes[j + 1];
        r
  }

  /**
   * As written, any failed fetch before the first page without a token ends
   * the query in NameError, whatever comes after it.
   */
  lemma {:induction false} HttpErrorBeforeLastPageFails<V>(s: Paging<V>, outcomes: seq<FetchOutcome<V>>, k: nat)
    requires s.token.Some?
    requires k < |outcomes| && outcomes[k].HttpError?
    requires forall j :: 0 <= j < k ==> !IsLastPage(outcomes[j])
    ensures FollowAsWritten(s, outcomes) == Failure(NameError("googleapiclient"))
    decreases k
  {
    if k > 0 && outcomes[0].Fetched? {
      assert !IsLastPage(outcomes[0]);
      var rest := outcomes[1..];
      assert forall j :: 0 <= j < k - 1 ==> rest[j] == outcomes[j + 1];
      HttpErrorBeforeLastPageFails(Step(s, outcomes[0]), rest, k - 1);
    }
  }

  /** Without failed fetches the loop as written and the retrying loop agree. */
  lemma {:induction false} FollowAsWrittenWithoutErrors<V>(s: Paging<V>, outcomes: seq<FetchOutcome<V>>)
    requires forall k :: 0 <= k < |outcomes| ==> outcomes[k].Fetched?
    ensures FollowAsWritten(s, outcomes) == Success(Follow(s, outcomes))
    decreases |outcomes|
  {
    if s.token.Some? && outcomes != [] {
      FollowAsWrittenWithoutErrors(Step(s, outcomes[0]), outcomes[1..]);
    }
  }

  /**
   * One failed fetch before the last page: as written, the query ends in
   * NameError; the retrying loop gathers the last page's rows and stops.
   */
  lemma HttpErrorAbortsAsWritten<V>(rows: seq<Row<V>>, token: string, last: ResultPage<V>)
    requires last.pageToken.None?
    ensures FollowAsWritten(Paging(rows, Some(token), []), [HttpError, Fetched(last)])
         == Failure(NameError("googleapiclient"))
    ensures Follow(Paging(rows, Some(token), []), [HttpError, Fetched(last)])
         == Paging(rows + last.rows, None, [token, token])
  {
    var os: seq<FetchOutcome<V>> := [HttpError, Fetched(last)];
    var s0 := Paging(rows, Some(token), []);
    var s1 := Step(s0, HttpError);
    var s2 := Step(s1, Fetched(last));
    assert os[1..] == [Fetched(last)] && os[1..][1..] == [];
    assert s1 == Paging(rows, Some(token), [token]);
    assert s2 == Paging(rows + last.rows, None, [token, token]);
    assert Follow(s1, os[1..]) == Follow(s2, []);
  }

  // ---------------------------------------------------------------------
  // Worked examples
  // ---------------------------------------------------------------------

  /** Two rows under the schema `[artist, count]` become two records, in order. */
  lemma FormatTwoRowsExample()
    ensures FormatRows([Field("artist"), Field("count")],
                       [Row([Cell("A"), Cell("1")]), Row([Cell("B"), Cell("2")])])
         == Success([map["artist" := "A", "count" := "1"], map["artist" := "B", "count" := "2"]])
  {
    var fields := [Field("artist"), Field("count")];
    var cellsA := [Cell("A"), Cell("1")];
    var cellsB := [Cell("B"), Cell("2")];
    assert cellsA[..1][..0] == [] && cellsA[..1] == [Cell("A")];
    assert cellsB[..1][..0] == [] && cellsB[..1] == [Cell("B")];
    assert RowRecord(fields, cellsA[..1]) == map["artist" := "A"];
    assert RowRecord(fields, cellsA) == map["artist" := "A", "count" := "1"];
    assert RowRecord(fields, cellsB[..1]) == map["artist" := "B"];
    assert RowRecord(fields, cellsB) == map["artist" := "B", "count" := "2"];
    var recA, recB := RowRecord(fields, cellsA), RowRecord(fields, cellsB);
    var rows := [Row(cellsA), Row(cellsB)];
    var tail := [Row(cellsB)];
    assert rows[1..] == tail && tail[1..] == [];
    assert FormatRows(fields, tail[1..]) == Success([]);
    assert [recB] + [] == [recB];
    assert FormatRows(fields, tail) == Success([recB]);
    assert [recA] + [recB] == [recA, recB];
    assert FormatRows(fields, rows) == Success([recA, recB]);
  }

  /**
   * A first page with token "T1", then a page whose token is the empty
   * string, then a page without a token: the empty token counts as present,
   * so two fetches are made, with "T1" and then "".
   */
  lemma EmptyTokenIsPresentExample<V>(r1: seq<Row<V>>, r2: seq<Row<V>>, r3: seq<Row<V>>, schema: Schema)
    ensures Follow(Start(ResultPage(schema, r1, Some("T1"))),
                   [Fetched(ResultPage(schema, r2, Some(""))), Fetched(ResultPage(schema, r3, None))])
         == Paging(r1 + r2 + r3, None, ["T1", ""])
  {
    var os: seq<FetchOutcome<V>> := [Fetched(ResultPage(schema, r2, Some(""))), Fetched(ResultPage(schema, r3, None))];
    var s0 := Start(ResultPage(schema, r1, Some("T1")));
    var s1 := Step(s0, os[0]);
    var s2 := Step(s1, os[1]);
    assert os[1..] == [os[1]] && os[1..][1..] == [];
    assert s1 == Paging(r1 + r2, Some(""), ["T1"]);
    assert s2 == Paging(r1 + r2 + r3, None, ["T1", ""]);
    assert Follow(s1, os[1..]) == Follow(s2, []);
  }
}
