/** The query parameter source of the search benchmark workload (workload.py):
    typed parameter validation, the per-client split of the query file, the
    wrap-around cursor each client reads it with, and the 1-based line read.
    The query file's contents are given as text; `json.loads` is an abstract
    `parse` function. */
module Workload {
  import opened Wrappers
  import opened Exceptions
  import opened PyInt
  import opened JsonValue
  import opened TextLines

  /** The operation's parameters as the benchmark hands them over. */
  type ParamMap = map<string, Json>

  function NoneMessage(key: string): string {
    "Value cannot be None for param " + key
  }

  function TypeMessage(kind: string, key: string): string {
    "Value must be a " + kind + " for param " + key
  }

  // ------------------------------------------------------ parameter validators

  /** `parse_string_parameter`: a missing key falls back to any default that
      is not `None` (the empty string included); a present value must be a
      `str`. `JNull` stands for `None`. */
  function ParseStringParameter(key: string, params: ParamMap, default: Json): (r: Result<Json, Exception>)
    ensures r.Success? <==> if key in params then params[key].JStr? else default != JNull
    ensures r.Success? ==> r.value == if key in params then params[key] else default
    ensures key !in params && default == JNull ==> r == Failure(ConfigurationError(NoneMessage(key)))
    ensures key in params && !params[key].JStr? ==> r == Failure(ConfigurationError(TypeMessage("string", key)))
  {
    if key !in params then
      if default != JNull then Success(default)
      else Failure(ConfigurationError(NoneMessage(key)))
    else if params[key].JStr? then Success(params[key])
    else Failure(ConfigurationError(TypeMessage("string", key)))
  }

  /** `parse_int_parameter`: a missing key falls back to the default only when
      it is truthy, so `0` raises like `None`; a present value must have type
      exactly `int`, so `True` and `False` are refused. */
  function ParseIntParameter(key: string, params: ParamMap, default: Json): (r: Result<Json, Exception>)
    ensures r.Success? <==> if key in params then params[key].JInt? else Truthy(default)
    ensures r.Success? ==> r.value == if key in params then params[key] else default
    ensures key !in params && !Truthy(default) ==> r == Failure(ConfigurationError(NoneMessage(key)))
    ensures key in params && !params[key].JInt? ==> r == Failure(ConfigurationError(TypeMessage("int", key)))
  {
    if key !in params then
      if Truthy(default) then Success(default)
      else Failure(ConfigurationError(NoneMessage(key)))
    else if params[key].JInt? then Success(params[key])
    else Failure(ConfigurationError(TypeMessage("int", key)))
  }

  /** `parse_list_parameter`: a `None` default is first replaced by `[]`, and a
      missing key falls back to the default only when it is truthy, so a
      missing key with no default, or an empty one, raises; a present value
      must be a `list`. */
  function ParseListParameter(key: string, params: ParamMap, default: Json): (r: Result<Json, Exception>)
    ensures r.Success? <==> if key in params then params[key].JArr? else Truthy(default)
    ensures r.Success? ==> r.value == if key in params then params[key] else default
    ensures key !in params && !Truthy(default) ==> r == Failure(ConfigurationError(NoneMessage(key)))
    ensures key in params && !params[key].JArr? ==> r == Failure(ConfigurationError(TypeMessage("list", key)))
  {
    var default := if default == JNull then JArr([]) else default;
    if key !in params then
      if Truthy(default) then Success(default)
      else Failure(ConfigurationError(NoneMessage(key)))
    else if params[key].JArr? then Success(params[key])
    else Failure(ConfigurationError(TypeMessage("list", key)))
  }

  /** The three validators differ on falsy defaults: an empty-string default
      is returned, while a zero or empty-list default raises; and `True` is
      not an `int`. */
  lemma ValidatorDefaultQuirks(key: string)
    ensures ParseStringParameter(key, map[], JStr("")) == Success(JStr(""))
    ensures ParseIntParameter(key, map[], JInt(0)) == Failure(ConfigurationError(NoneMessage(key)))
    ensures ParseListParameter(key, map[], JArr([])) == Failure(ConfigurationError(NoneMessage(key)))
    ensures ParseListParameter(key, map[], JNull) == Failure(ConfigurationError(NoneMessage(key)))
    ensures ParseIntParameter(key, map[key := JBool(true)], JInt(5)) ==
            Failure(ConfigurationError(TypeMessage("int", key)))
  {
  }

  /** For a key that is present the default plays no part. */
  lemma PresentKeyIgnoresDefault(key: string, params: ParamMap, d1: Json, d2: Json)
    requires key in params
    ensures ParseStringParameter(key, params, d1) == ParseStringParameter(key, params, d2)
    ensures ParseIntParameter(key, params, d1) == ParseIntParameter(key, params, d2)
    ensures ParseListParameter(key, params, d1) == ParseListParameter(key, params, d2)
  {
  }

  // ------------------------------------------------------ query file

  /** The query file, read line by line into memory. */
  datatype QueryDataSet = QueryDataSet(lines: seq<string>)

  function LoadQueryDataSet(text: string): QueryDataSet {
    QueryDataSet(Lines(text, '\n'))
  }

  /** Python `s[i]` on a list: negative indices count from the end. */
  function PyIndex<T>(s: seq<T>, i: int): (r: Result<T, Exception>)
    ensures r.Success? <==> -|s| <= i < |s|
    ensures 0 <= i < |s| ==> r == Success(s[i])
    ensures -|s| <= i < 0 ==> r == Success(s[|s| + i])
    ensures r.Failure? ==> r.error == IndexError
  {
    if 0 <= i < |s| then Success(s[i])
    else if -|s| <= i < 0 then Success(s[|s| + i])
    else Failure(IndexError)
  }

  /** `QueryDataSet.read_line`: a 1-based read. The guard admits `0` and the
      line count itself, so `0` reads `lines[-1]`, the last line, and raises
      IndexError only on an empty file. */
  function ReadLine(ds: QueryDataSet, lineNumber: int): (r: Result<string, Exception>)
    ensures lineNumber > |ds.lines| || lineNumber < 0 ==> r == Failure(InvalidLineNumber(lineNumber))
    ensures 1 <= lineNumber <= |ds.lines| ==> r == Success(ds.lines[lineNumber - 1])
    ensures lineNumber == 0 && |ds.lines| > 0 ==> r == Success(ds.lines[|ds.lines| - 1])
    ensures lineNumber == 0 && |ds.lines| == 0 ==> r == Failure(IndexError)
  {
    if lineNumber > |ds.lines| || lineNumber < 0 then Failure(InvalidLineNumber(lineNumber))
    else PyIndex(ds.lines, lineNumber - 1)
  }

  /** Reading line `n` of a loaded file gives its `n`-th line: one line of
      the text, with at most its own terminator. */
  lemma ReadLoadedLine(text: string, n: int)
    requires 1 <= n <= |Lines(text, '\n')|
    ensures ReadLine(LoadQueryDataSet(text), n).Success?
    ensures var l := ReadLine(LoadQueryDataSet(text), n).value;
            IsLine(l, '\n') && l == Lines(text, '\n')[n - 1]
  {
    LinesPartition(text, '\n');
  }

  // ------------------------------------------------------ the parameter source

  /** The state of one `QueryNeuralSearchParamsSource` instance. The float
      `percent_completed` and the unused `infinite` flag are not kept. */
  datatype Source = Source(
    indexName: string,
    fieldsExcluded: seq<Json>,
    dataSetPath: string,
    modelId: string,
    searchMethod: string,
    dataSet: QueryDataSet,
    totalQueries: int,
    offset: int,
    current: int,
    queriesPerClient: int,
    queryCount: int)

  /** The parameters the constructor insists on, each of its type. */
  predicate ValidConfig(params: ParamMap) {
    && "index" in params && params["index"].JStr?
    && "fields_to_excluded" in params && params["fields_to_excluded"].JArr?
    && "data_set_path" in params && params["data_set_path"].JStr?
    && "model_id" in params && params["model_id"].JStr?
    && "method" in params && params["method"].JStr?
  }

  /** The constructor: validate the five parameters in order (none has a
      default, so all five are required, the list one too), then load the
      query file, which `files` maps from its path. */
  function NewSource(params: ParamMap, files: map<string, string>): (r: Result<Source, Exception>)
    ensures r.Success? <==> ValidConfig(params) && params["data_set_path"].s in files
    ensures "index" !in params ==> r == Failure(ConfigurationError(NoneMessage("index")))
    ensures ValidConfig(params) && params["data_set_path"].s !in files ==> r == Failure(OSError)
    ensures r.Success? ==>
              && r.value.indexName == params["index"].s
              && r.value.dataSet == LoadQueryDataSet(files[params["data_set_path"].s])
              && r.value.totalQueries == |r.value.dataSet.lines|
              && r.value.offset == r.value.current == r.value.queriesPerClient == r.value.queryCount == 0
  {
    var index :- ParseStringParameter("index", params, JNull);
    var fields :- ParseListParameter("fields_to_excluded", params, JNull);
    var path :- ParseStringParameter("data_set_path", params, JNull);
    var modelId :- ParseStringParameter("model_id", params, JNull);
    var searchMethod :- ParseStringParameter("method", params, JNull);
    if path.s !in files then Failure(OSError)
    else
      var ds := LoadQueryDataSet(files[path.s]);
      Success(Source(index.s, fields.a, path.s, modelId.s, searchMethod.s, ds, |ds.lines|, 0, 0, 0, 0))
  }

  /** `partition`: a copy for client `partitionIndex` of `totalPartitions`,
      owning `total // P` queries that start at the 1-based line
      `partitionIndex * q + 1`. Nothing else in the copy differs. */
  function Partition(src: Source, partitionIndex: int, totalPartitions: int): (r: Result<Source, Exception>)
    ensures r.Failure? <==> totalPartitions == 0
    ensures r.Failure? ==> r.error == ZeroDivisionError
    ensures r.Success? ==>
              var q := r.value.queriesPerClient;
              && r.value == src.(queriesPerClient := q, offset := partitionIndex * q + 1, current := partitionIndex)
              && (totalPartitions > 0 ==> totalPartitions * q <= src.totalQueries < totalPartitions * q + totalPartitions)
              && (totalPartitions < 0 ==> totalPartitions * q + totalPartitions < src.totalQueries <= totalPartitions * q)
  {
    if totalPartitions == 0 then Failure(ZeroDivisionError)
    else
      var q := FloorDiv(src.totalQueries, totalPartitions);
      Success(src.(queriesPerClient := q, offset := partitionIndex * q + 1, current := partitionIndex))
  }

  /** The counter `params` reads with: reset to 0 once it reaches the quota. */
  function Cursor(count: int, quota: int): int {
    if count >= quota then 0 else count
  }

  /** The 1-based line number the next `params` call reads. */
  function LineRead(src: Source): int {
    src.offset + Cursor(src.queryCount, src.queriesPerClient)
  }

  /** The request `params` returns for a query's sparse embedding. */
  function Request(indexName: string, tokens: Json): Json {
    JObj(map[
      "index" := JStr(indexName),
      "request-params" := Entry("_source", JBool(false)),
      "body" := Entry("query", Entry("neural_sparse", Entry("text_sparse", Entry("query_tokens", tokens))))])
  }

  const QueryTokensPath: seq<string> := ["body", "query", "neural_sparse", "text_sparse", "query_tokens"]

  /** The request names the index, turns `_source` off and carries the tokens. */
  lemma RequestShape(indexName: string, tokens: Json)
    ensures Path(Request(indexName, tokens), ["index"]) == Success(JStr(indexName))
    ensures Path(Request(indexName, tokens), ["request-params", "_source"]) == Success(JBool(false))
    ensures Path(Request(indexName, tokens), QueryTokensPath) == Success(tokens)
  {
    var r := Request(indexName, tokens);
    var b := Entry("query", Entry("neural_sparse", Entry("text_sparse", Entry("query_tokens", tokens))));
    assert Subscript(r, "body") == Success(b);
    assert QueryTokensPath[1..] == ["query", "neural_sparse", "text_sparse", "query_tokens"];
    assert Path(Entry("query_tokens", tokens), ["query_tokens"]) == Success(tokens);
    assert Path(Entry("text_sparse", Entry("query_tokens", tokens)), ["text_sparse", "query_tokens"]) == Success(tokens);
    assert Subscript(r, "request-params") == Success(Entry("_source", JBool(false)));
  }

  /** The outcome of one `params` call: the object's state afterwards (which
      changes even when the call raises) and the request or the exception. */
  datatype Step = Step(next: Source, request: Result<Json, Exception>)

  /** Line `n` of the client's data set can be served: it reads, decodes,
      and carries a `sparse_embedding`. */
  ghost predicate LineServes(src: Source, n: int, parse: string -> Option<Json>) {
    && ReadLine(src.dataSet, n).Success?
    && parse(Strip(ReadLine(src.dataSet, n).value)).Some?
    && Subscript(parse(Strip(ReadLine(src.dataSet, n).value)).value, "sparse_embedding").Success?
  }

  /** One `params` call: reset the counter at the quota, read line
      `offset + counter`, parse it, take its `sparse_embedding`, advance the
      counter and compute the completion ratio (which divides by the quota). */
  function Params(src: Source, parse: string -> Option<Json>): (s: Step)
    ensures s.next == src.(queryCount := s.next.queryCount)
    ensures s.next.queryCount == Cursor(src.queryCount, src.queriesPerClient) ||
            s.next.queryCount == Cursor(src.queryCount, src.queriesPerClient) + 1
    ensures ReadLine(src.dataSet, LineRead(src)).Failure? ==>
              s == Step(src.(queryCount := Cursor(src.queryCount, src.queriesPerClient)),
                        Failure(ReadLine(src.dataSet, LineRead(src)).error))
    ensures src.queriesPerClient == 0 ==> s.request.Failure?
    ensures s.request.Success? <==> src.queriesPerClient != 0 && LineServes(src, LineRead(src), parse)
    ensures s.request.Success? ==>
              && s.next.queryCount == Cursor(src.queryCount, src.queriesPerClient) + 1
              && ReadLine(src.dataSet, LineRead(src)).Success?
              && parse(Strip(ReadLine(src.dataSet, LineRead(src)).value)).Some?
              && var raw := parse(Strip(ReadLine(src.dataSet, LineRead(src)).value)).value;
              && Subscript(raw, "sparse_embedding").Success?
              && Path(s.request.value, QueryTokensPath) == Subscript(raw, "sparse_embedding")
              && Path(s.request.value, ["index"]) == Success(JStr(src.indexName))
              && Path(s.request.value, ["request-params", "_source"]) == Success(JBool(false))
  {
    var count := Cursor(src.queryCount, src.queriesPerClient);
    var reset := src.(queryCount := count);
    match ReadLine(src.dataSet, src.offset + count)
    case Failure(e) => Step(reset, Failure(e))
    case Success(line) =>
      match parse(Strip(line))
      case None => Step(reset, Failure(DecodeError))
      case Some(raw) =>
        match Subscript(raw, "sparse_embedding")
        case Failure(e) => Step(reset, Failure(e))
        case Success(tokens) =>
          var advanced := src.(queryCount := count + 1);
          if src.queriesPerClient == 0 then Step(advanced, Failure(ZeroDivisionError))
          else
            RequestShape(src.indexName, tokens);
            Step(advanced, Success(Request(src.indexName, tokens)))
  }

  /** `k` consecutive `params` calls on one client, stopping at the first that
      raises: the requests returned, the line numbers read, the final state. */
  datatype Served = Served(requests: seq<Json>, lineNumbers: seq<int>, final: Source, error: Option<Exception>)

  function Serve(src: Source, k: nat, parse: string -> Option<Json>): Served {
    ServeWith(ParamsWith(parse), src, k)
  }

  /** `params` with the parse function fixed, as a step function. */
  function ParamsWith(parse: string -> Option<Json>): Source -> Step {
    st => Params(st, parse)
  }

  /** The call loop for any per-call step function. */
  function ServeWith(step: Source -> Step, src: Source, k: nat): Served
    decreases k
  {
    if k == 0 then Served([], [], src, None)
    else
      var prev := ServeWith(step, src, k - 1);
      if prev.error.Some? then prev
      else
        var s := step(prev.final);
        var read := prev.lineNumbers + [LineRead(prev.final)];
        match s.request
        case Success(req) => Served(prev.requests + [req], read, s.next, None)
        case Failure(e) => Served(prev.requests, read, s.next, Some(e))
  }

  /** What the loop needs of a step: only the counter changes, and a served
      request leaves it one past the reset value. */
  predicate Advances(step: Source -> Step, st: Source) {
    && step(st).next == st.(queryCount := step(st).next.queryCount)
    && (step(st).request.Success? ==> step(st).next.queryCount == Cursor(st.queryCount, st.queriesPerClient) + 1)
  }

  /** A request a step serves carries the tokens of the line it read. */
  predicate Carries(step: Source -> Step, st: Source, parse: string -> Option<Json>) {
    step(st).request.Success? ==>
      && ReadLine(st.dataSet, LineRead(st)).Success?
      && parse(Strip(ReadLine(st.dataSet, LineRead(st)).value)).Some?
      && Path(step(st).request.value, QueryTokensPath) ==
           Subscript(parse(Strip(ReadLine(st.dataSet, LineRead(st)).value)).value, "sparse_embedding")
  }

  ghost predicate AlwaysAdvances(step: Source -> Step) {
    forall st :: Advances(step, st)
  }

  ghost predicate AlwaysCarries(step: Source -> Step, parse: string -> Option<Json>) {
    forall st :: Carries(step, st, parse)
  }

  lemma ParamsStep(parse: string -> Option<Json>, st: Source)
    ensures Advances(ParamsWith(parse), st)
    ensures Carries(ParamsWith(parse), st, parse)
  {
    assert ParamsWith(parse)(st) == Params(st, parse);
  }

  /** A fresh client with a positive quota `q` reads the lines
      `offset, offset + 1, ..., offset + q - 1` over and over: call `j` reads
      line `offset + j % q`. Calls stop only at the first that raises. */
  lemma ServeReadsCyclically(src: Source, k: nat, parse: string -> Option<Json>)
    requires src.queryCount == 0 && src.queriesPerClient > 0
    ensures var o := Serve(src, k, parse);
            && |o.lineNumbers| <= k
            && (o.error.None? ==> |o.lineNumbers| == k)
            && (forall j :: 0 <= j < |o.lineNumbers| ==> o.lineNumbers[j] == src.offset + j % src.queriesPerClient)
  {
    var q := src.queriesPerClient;
    forall st: Source
      ensures Advances(ParamsWith(parse), st)
    {
      ParamsStep(parse, st);
    }
    ServeWithFinal(ParamsWith(parse), src, k);
    ServeWithCyclic(ParamsWith(parse), src, k);
    var o := Serve(src, k, parse);
    CyclicLinesAt(src.offset, q, |o.lineNumbers|);
  }

  /** A fresh client whose `q` lines can all be served answers every call:
      `k` calls give `k` requests and no error. */
  lemma ServeAnswersEveryCall(src: Source, k: nat, parse: string -> Option<Json>)
    requires src.queryCount == 0 && src.queriesPerClient > 0
    requires forall n :: src.offset <= n < src.offset + src.queriesPerClient ==> LineServes(src, n, parse)
    ensures Serve(src, k, parse).error.None? && |Serve(src, k, parse).requests| == k
  {
    ServeNeverRaises(src, k, parse);
    forall st: Source
      ensures Advances(ParamsWith(parse), st)
    {
      ParamsStep(parse, st);
    }
    ServeRequestsCarryTokens(src, k, parse);
    ServeWithFinal(ParamsWith(parse), src, k);
  }

  lemma ServeNeverRaises(src: Source, k: nat, parse: string -> Option<Json>)
    requires src.queryCount == 0 && src.queriesPerClient > 0
    requires forall n :: src.offset <= n < src.offset + src.queriesPerClient ==> LineServes(src, n, parse)
    ensures Serve(src, k, parse).error.None?
  {
    ParamsAlwaysAdvances(parse);
    forall st: Source | st == src.(queryCount := st.queryCount) && InCycle(src, LineRead(st))
      ensures ParamsWith(parse)(st).request.Success?
    {
      ParamsServes(src, st, parse);
    }
    ServeWithNeverRaises(ParamsWith(parse), src, k);
  }

  /** Line `n` is one of the client's `q` lines. */
  predicate InCycle(src: Source, n: int) {
    src.offset <= n < src.offset + src.queriesPerClient
  }

  /** A step that serves every state of the client reading one of its lines
      never raises, however many calls are made. */
  lemma {:induction false} ServeWithNeverRaises(step: Source -> Step, src: Source, k: nat)
    requires AlwaysAdvances(step)
    requires src.queryCount == 0 && src.queriesPerClient > 0
    requires forall st: Source :: st == src.(queryCount := st.queryCount) && InCycle(src, LineRead(st)) ==>
               step(st).request.Success?
    ensures ServeWith(step, src, k).error.None?
    decreases k
  {
    if k > 0 {
      ServeWithNeverRaises(step, src, k - 1);
      ServeWithFinal(step, src, k - 1);
      WrapIsMod(k - 1, src.queriesPerClient);
      var prev := ServeWith(step, src, k - 1);
      assert InCycle(src, LineRead(prev.final));
      ServeWithUnfold(step, src, k);
    }
  }

  lemma ParamsAlwaysAdvances(parse: string -> Option<Json>)
    ensures AlwaysAdvances(ParamsWith(parse))
  {
    forall st: Source
      ensures Advances(ParamsWith(parse), st)
    {
      ParamsStep(parse, st);
    }
  }

  /** A state that differs from `src` only in its counter, and whose next
      line can be served, is served. */
  lemma ParamsServes(src: Source, st: Source, parse: string -> Option<Json>)
    requires st.dataSet == src.dataSet && st.queriesPerClient != 0
    requires LineServes(src, LineRead(st), parse)
    ensures ParamsWith(parse)(st).request.Success?
  {
    assert LineServes(st, LineRead(st), parse);
  }

  /** `j % q` for `j >= 0`, by repeated subtraction. */
  function Wrap(j: nat, q: nat): nat
    requires q > 0
  {
    if j < q then j else Wrap(j - q, q)
  }

  lemma {:induction false} WrapIsMod(j: nat, q: nat)
    requires q > 0
    ensures Wrap(j, q) == j % q
  {
    if j >= q {
      WrapIsMod(j - q, q);
      var b := (j - q) / q;
      assert j - q == b * q + (j - q) % q;
      DivModUnique(j, q, b + 1, (j - q) % q);
    }
  }

  /** One more call of the loop: after an error nothing changes; otherwise
      the line read is appended and the step's state is taken over. */
  lemma ServeWithUnfold(step: Source -> Step, src: Source, k: nat)
    requires k > 0
    ensures var prev := ServeWith(step, src, k - 1);
            var o := ServeWith(step, src, k);
            && (prev.error.Some? ==> o == prev)
            && (prev.error.None? ==>
                  && o.lineNumbers == prev.lineNumbers + [LineRead(prev.final)]
                  && o.final == step(prev.final).next
                  && (o.error.None? <==> step(prev.final).request.Success?))
  {
  }

  /** Without an error, `k` calls read `k` lines and leave the counter at
      `(k - 1) % q + 1`, the rest of the state untouched. */
  lemma {:induction false} ServeWithFinal(step: Source -> Step, src: Source, k: nat)
    requires AlwaysAdvances(step)
    requires src.queryCount == 0 && src.queriesPerClient > 0
    ensures var o := ServeWith(step, src, k);
            && |o.lineNumbers| <= k
            && (o.error.None? ==> |o.lineNumbers| == k)
            && (o.error.None? ==> o.final == src.(queryCount := if k == 0 then 0 else Wrap(k - 1, src.queriesPerClient) + 1))
            && (o.error.None? ==> LineRead(o.final) == src.offset + Wrap(k, src.queriesPerClient))
    decreases k
  {
    var q := src.queriesPerClient;
    if k > 0 {
      ServeWithFinal(step, src, k - 1);
      ServeWithUnfold(step, src, k);
      var prev := ServeWith(step, src, k - 1);
      if prev.error.None? {
        assert Advances(step, prev.final);
        var o := ServeWith(step, src, k);
        if o.error.None? {
          CounterWraps(k, q);
        }
      }
    }
  }

  /** The first `k` line numbers of the cycle `offset, ..., offset + q - 1`. */
  function CyclicLines(offset: int, q: nat, k: nat): (ls: seq<int>)
    requires q > 0
    ensures |ls| == k
  {
    if k == 0 then [] else CyclicLines(offset, q, k - 1) + [offset + Wrap(k - 1, q)]
  }

  lemma {:induction false} CyclicLinesAt(offset: int, q: nat, k: nat)
    requires q > 0
    ensures forall j :: 0 <= j < k ==> CyclicLines(offset, q, k)[j] == offset + j % q
  {
    if k > 0 {
      CyclicLinesAt(offset, q, k - 1);
      WrapIsMod(k - 1, q);
      var ls := CyclicLines(offset, q, k);
      forall j | 0 <= j < k - 1
        ensures ls[j] == offset + j % q
      {
        assert ls[j] == CyclicLines(offset, q, k - 1)[j];
      }
    }
  }

  lemma {:induction false} ServeWithCyclic(step: Source -> Step, src: Source, k: nat)
    requires AlwaysAdvances(step)
    requires src.queryCount == 0 && src.queriesPerClient > 0
    ensures var o := ServeWith(step, src, k);
            o.lineNumbers == CyclicLines(src.offset, src.queriesPerClient, |o.lineNumbers|)
    decreases k
  {
    if k > 0 {
      var q := src.queriesPerClient;
      ServeWithCyclic(step, src, k - 1);
      ServeWithFinal(step, src, k - 1);
      ServeWithUnfold(step, src, k);
      var prev := ServeWith(step, src, k - 1);
      var o := ServeWith(step, src, k);
      if prev.error.None? {
        var line := src.offset + Wrap(k - 1, q);
        var before := CyclicLines(src.offset, q, k - 1);
        assert prev.lineNumbers == before;
        assert o.lineNumbers == before + [line];
        assert |o.lineNumbers| == k;
      } else {
        assert o.lineNumbers == prev.lineNumbers;
      }
    }
  }

  /** Whatever the state, every request served carries the
      `sparse_embedding` of the line read for it; a run that stops early has
      read one line more than it served requests. */
  lemma ServeRequestsCarryTokens(src: Source, k: nat, parse: string -> Option<Json>)
    ensures var o := Serve(src, k, parse);
            && o.final == src.(queryCount := o.final.queryCount)
            && (o.error.None? ==> |o.requests| == |o.lineNumbers|)
            && (o.error.Some? ==> |o.requests| + 1 == |o.lineNumbers|)
            && (forall j :: 0 <= j < |o.requests| ==>
                  ReadLine(src.dataSet, o.lineNumbers[j]).Success? &&
                  parse(Strip(ReadLine(src.dataSet, o.lineNumbers[j]).value)).Some? &&
                  Path(o.requests[j], QueryTokensPath) ==
                    Subscript(parse(Strip(ReadLine(src.dataSet, o.lineNumbers[j]).value)).value, "sparse_embedding"))
  {
    forall st: Source
      ensures Advances(ParamsWith(parse), st) && Carries(ParamsWith(parse), st, parse)
    {
      ParamsStep(parse, st);
    }
    ServeWithCarries(ParamsWith(parse), src, k, parse);
  }

  lemma {:induction false} ServeWithCarries(step: Source -> Step, src: Source, k: nat, parse: string -> Option<Json>)
    requires AlwaysAdvances(step) && AlwaysCarries(step, parse)
    ensures var o := ServeWith(step, src, k);
            && o.final == src.(queryCount := o.final.queryCount)
            && (o.error.None? ==> |o.requests| == |o.lineNumbers|)
            && (o.error.Some? ==> |o.requests| + 1 == |o.lineNumbers|)
            && (forall j :: 0 <= j < |o.requests| ==>
                  ReadLine(src.dataSet, o.lineNumbers[j]).Success? &&
                  parse(Strip(ReadLine(src.dataSet, o.lineNumbers[j]).value)).Some? &&
                  Path(o.requests[j], QueryTokensPath) ==
                    Subscript(parse(Strip(ReadLine(src.dataSet, o.lineNumbers[j]).value)).value, "sparse_embedding"))
    decreases k
  {
    if k > 0 {
      ServeWithCarries(step, src, k - 1, parse);
      var prev := ServeWith(step, src, k - 1);
      if prev.error.None? {
        assert Advances(step, prev.final) && Carries(step, prev.final, parse);
        assert prev.final.dataSet == src.dataSet;
      }
    }
  }

  /** After `m > 0` calls the counter holds `(m - 1) % q + 1`; the reset turns
      that into `m % q`. */
  lemma {:induction false} CounterWraps(m: nat, q: nat)
    requires m > 0 && q > 0
    ensures Cursor(Wrap(m - 1, q) + 1, q) == Wrap(m, q)
    decreases m
  {
    if m > q {
      CounterWraps(m - q, q);
      assert Wrap(m - 1, q) == Wrap(m - 1 - q, q);
    }
  }

  /** Quotient and remainder are determined by `m == b * q + r, 0 <= r < q`. */
  lemma DivModUnique(m: int, q: int, b: int, r: int)
    requires q > 0 && 0 <= r < q && m == b * q + r
    ensures m / q == b && m % q == r
  {
    var b2 := m / q;
    var r2 := m % q;
    assert m == b2 * q + r2;
    assert (b - b2) * q == r2 - r;
    SmallMultiple(b - b2, q);
  }

  lemma SmallMultiple(k: int, q: int)
    requires q > 0 && -q < k * q < q
    ensures k == 0
  {
    if k >= 1 {
      MulLeq(1, k, q);
    } else if k <= -1 {
      MulLeq(k, -1, q);
    }
  }

  // ------------------------------------------------------ the client split

  /** For `P >= 1` clients, client `p`'s lines `offset .. offset + q - 1` lie
      inside the query file, and the `total % P` lines past `P * q` are read
      by no client. */
  lemma ClientRangeInFile(src: Source, totalPartitions: int, p: int)
    requires totalPartitions >= 1 && 0 <= p < totalPartitions && src.totalQueries >= 0
    ensures Partition(src, p, totalPartitions).Success?
    ensures var c := Partition(src, p, totalPartitions).value;
            && 0 <= c.queriesPerClient
            && 1 <= c.offset
            && c.offset + c.queriesPerClient - 1 <= totalPartitions * c.queriesPerClient <= src.totalQueries
            && src.totalQueries - totalPartitions * c.queriesPerClient == Mod(src.totalQueries, totalPartitions)
  {
    var c := Partition(src, p, totalPartitions).value;
    var q := c.queriesPerClient;
    MulLeq(p + 1, totalPartitions, q);
  }

  /** Different clients' line ranges do not overlap: every line number read
      by client `p1` differs from every one read by client `p2`. */
  lemma ClientRangesDisjoint(src: Source, totalPartitions: int, p1: int, p2: int, j1: int, j2: int)
    requires totalPartitions >= 1 && 0 <= p1 < totalPartitions && 0 <= p2 < totalPartitions
    requires p1 != p2
    ensures Partition(src, p1, totalPartitions).Success? && Partition(src, p2, totalPartitions).Success?
    ensures var c1 := Partition(src, p1, totalPartitions).value;
            var c2 := Partition(src, p2, totalPartitions).value;
            0 <= j1 < c1.queriesPerClient && 0 <= j2 < c2.queriesPerClient ==>
              c1.offset + j1 != c2.offset + j2
  {
    var c1 := Partition(src, p1, totalPartitions).value;
    var c2 := Partition(src, p2, totalPartitions).value;
    var q := c1.queriesPerClient;
    assert c2.queriesPerClient == q;
    if 0 <= j1 < q && 0 <= j2 < q && c1.offset + j1 == c2.offset + j2 {
      assert p1 * q + j1 == p2 * q + j2;
      if p1 < p2 {
        MulLeq(p1 + 1, p2, q);
      } else {
        MulLeq(p2 + 1, p1, q);
      }
    }
  }

  /** Every line `1 .. P * q` is read by a client: line `n` is the
      `(n - 1) % q`-th of client `(n - 1) / q`. */
  lemma EveryCoveredLineHasAReader(src: Source, totalPartitions: int, n: int)
    requires totalPartitions >= 1 && src.totalQueries >= 0
    requires FloorDiv(src.totalQueries, totalPartitions) > 0
    requires 1 <= n <= totalPartitions * FloorDiv(src.totalQueries, totalPartitions)
    ensures var q := FloorDiv(src.totalQueries, totalPartitions);
            var p := (n - 1) / q;
            && 0 <= p < totalPartitions
            && Partition(src, p, totalPartitions).Success?
            && Partition(src, p, totalPartitions).value.offset + (n - 1) % q == n
  {
    var q := FloorDiv(src.totalQueries, totalPartitions);
    var p := (n - 1) / q;
    assert n - 1 == p * q + (n - 1) % q;
    if p >= totalPartitions {
      MulLeq(totalPartitions, p, q);
    }
  }

  /** Every line a partitioned client reads exists in the file. */
  lemma ClientReadsValidLines(src: Source, totalPartitions: int, p: int, j: int)
    requires totalPartitions >= 1 && 0 <= p < totalPartitions
    requires src.totalQueries == |src.dataSet.lines|
    requires Partition(src, p, totalPartitions).Success?
    requires 0 <= j < Partition(src, p, totalPartitions).value.queriesPerClient
    ensures var c := Partition(src, p, totalPartitions).value;
            1 <= c.offset + j <= |src.dataSet.lines| &&
            ReadLine(c.dataSet, c.offset + j) == Success(src.dataSet.lines[c.offset + j - 1])
  {
    ClientRangeInFile(src, totalPartitions, p);
    var c := Partition(src, p, totalPartitions).value;
    assert c.dataSet == src.dataSet;
    assert 1 <= c.offset + j <= src.totalQueries;
  }
}
