/** `ServiceGenerator`: one service class file — the types of every endpoint, an `HttpClient`
    field and one method per endpoint — plus the older hook files it builds itself. Types are
    computed once per endpoint name and kept in `typeCache`; the methods and the hook files read
    them from there. */
module Services {
  import opened Wrappers
  import opened Text
  import opened Utils
  import opened Config
  import opened TypeInference
  import opened Requests
  import TanstackQuery
  import ClientGenerator

  // =======================================================================================
  // The service method (`#generateRequest`)
  // =======================================================================================

  /** The arguments the service method forwards: the body (or `null`) for a verb that takes
      one, then `params` when they exist. */
  function ServiceArgs(paramExist: bool, bodyExist: bool, hasBodyVerb: bool): seq<HttpArg> {
    (if hasBodyVerb then [if bodyExist then BodyArg else NullArg] else []) + (if paramExist then [ParamsArg] else [])
  }

  /** `httpArgsString` as the source builds it. */
  function ServiceArgsString(paramExist: bool, bodyExist: bool, hasBodyVerb: bool): string {
    var httpBodyString := if hasBodyVerb then (if bodyExist then "body" else "null") else "";
    var httpParamString := if paramExist then "params" else "";
    JoinValid([httpBodyString, httpParamString])
  }

  /** The string the source builds is the text of the forwarded arguments. */
  lemma ServiceArgsText(paramExist: bool, bodyExist: bool, hasBodyVerb: bool)
    ensures ServiceArgsString(paramExist, bodyExist, hasBodyVerb) == ArgsText(ServiceArgs(paramExist, bodyExist, hasBodyVerb))
  {
    var httpBodyString := if hasBodyVerb then (if bodyExist then "body" else "null") else "";
    var httpParamString := if paramExist then "params" else "";
    JoinValidPair(httpBodyString, httpParamString);
    var args := ServiceArgs(paramExist, bodyExist, hasBodyVerb);
    if hasBodyVerb && paramExist {
      assert args[1..] == [ParamsArg];
    }
  }

  /** The service class and the standalone request generator disagree on argument order: with
      params and a verb that takes a body, the service passes the body first; without params
      but with a body, the service omits the `undefined` placeholder the request generator
      passes for the params (and passes no body at all for `get` and `delete`). */
  lemma ArgumentOrder(paramExist: bool, bodyExist: bool, hasBodyVerb: bool)
    ensures paramExist && hasBodyVerb ==>
              var forwarded := ForwardedArgs(paramExist, bodyExist, hasBodyVerb);
              |forwarded| == 2 && ServiceArgs(paramExist, bodyExist, hasBodyVerb) == [forwarded[1], forwarded[0]]
    ensures !paramExist && bodyExist ==>
              ForwardedArgs(paramExist, bodyExist, hasBodyVerb) == [UndefinedArg, BodyArg]
              && ServiceArgs(paramExist, bodyExist, hasBodyVerb) == (if hasBodyVerb then [BodyArg] else [])
    ensures !(paramExist && hasBodyVerb) && !(!paramExist && bodyExist) ==>
              ServiceArgs(paramExist, bodyExist, hasBodyVerb) == ForwardedArgs(paramExist, bodyExist, hasBodyVerb)
  {
  }

  /** The generated method of the service class. */
  datatype ServiceMethod = ServiceMethod(name: string, parameters: seq<Parameter>, verb: string,
                                         responseType: string, path: string, args: seq<HttpArg>)

  /** The method for an endpoint with the given types: the path is quoted as written, with no
      placeholder interpolation, and the only type argument is the response type, `any` when
      there is none. */
  function ServiceMethodOf(api: ApiSpec, t: ApiType): ServiceMethod {
    var verb := ToLowerCase(api.httpMethod);
    ServiceMethod(api.name, Signature(t), verb, if t.responseTypeName != "" then t.responseTypeName else "any",
                  api.path, ServiceArgs(t.paramExist, t.bodyExist, HasBodyVerb(verb)))
  }

  function ServiceMethodText(m: ServiceMethod): string {
    "async " + m.name + "(" + SignatureText(m.parameters) + ") { return this.httpClient." + m.verb + "<"
    + m.responseType + ">('" + m.path + "'" + TailText(m.args) + "); }"
  }

  /** `#generateRequest`'s string, as the source builds it. */
  function GenerateRequestString(api: ApiSpec, t: ApiType): string {
    var verb := ToLowerCase(api.httpMethod);
    var hasBodyMethod := verb != "get" && verb != "delete";
    var argsString := ArgsString(t);
    var httpArgsString := ServiceArgsString(t.paramExist, t.bodyExist, hasBodyMethod);
    "async " + api.name + "(" + argsString + ") { return this.httpClient." + verb + "<"
    + (if t.responseTypeName != "" then t.responseTypeName else "any") + ">('" + api.path + "'"
    + (if |httpArgsString| > 0 then "," + httpArgsString else "") + "); }"
  }

  /** The source's string is the text of the structured method. */
  lemma GenerateRequestText(api: ApiSpec, t: ApiType)
    ensures GenerateRequestString(api, t) == ServiceMethodText(ServiceMethodOf(api, t))
  {
    var verb := ToLowerCase(api.httpMethod);
    SignatureAgree(t);
    ServiceArgsText(t.paramExist, t.bodyExist, HasBodyVerb(verb));
  }

  // =======================================================================================
  // The type cache
  // =======================================================================================

  /** `#generateApiType`'s computation for an endpoint that is not cached yet. */
  function TypesOf(jsonToTs: JsonToTs, suffix: nat -> string): ApiSpec -> Result<ApiType> {
    api => ApiTypes(api, jsonToTs, suffix)
  }

  /** `#generateApiType`'s lookup: a cached record is returned as it is, otherwise the types
      are computed. Every cached record is an object, hence truthy. */
  function CachedApiType(cache: map<string, ApiType>, api: ApiSpec, compute: ApiSpec -> Result<ApiType>): Result<ApiType> {
    if api.name in cache then Success(cache[api.name]) else compute(api)
  }

  function CacheAfter(cache: map<string, ApiType>, api: ApiSpec, t: ApiType): map<string, ApiType> {
    if api.name in cache then cache else cache[api.name := t]
  }

  /** The records of `apis`, in order, looked up in and added to `cache`: `Failure` at the
      first endpoint whose computation throws. */
  function CacheRun(cache: map<string, ApiType>, apis: seq<ApiSpec>, compute: ApiSpec -> Result<ApiType>)
    : Result<(seq<ApiType>, map<string, ApiType>)>
    decreases |apis|
  {
    if |apis| == 0 then Success(([], cache))
    else
      var run :- CacheRun(cache, apis[..|apis| - 1], compute);
      var api := apis[|apis| - 1];
      var t :- CachedApiType(run.1, api, compute);
      Success((run.0 + [t], CacheAfter(run.1, api, t)))
  }

  /** No earlier endpoint has the name of endpoint `i`. */
  predicate FirstOfName(apis: seq<ApiSpec>, i: nat)
    requires i < |apis|
  {
    forall k :: 0 <= k < i ==> apis[k].name != apis[i].name
  }

  /** The cache holds exactly the endpoint names. */
  ghost predicate CachedNames(apis: seq<ApiSpec>, c: map<string, ApiType>) {
    forall name :: name in c <==> exists i :: 0 <= i < |apis| && apis[i].name == name
  }

  /** Every endpoint gets the record cached under its name. */
  predicate CachedRecords(apis: seq<ApiSpec>, ts: seq<ApiType>, c: map<string, ApiType>) {
    |ts| == |apis| && forall i :: 0 <= i < |apis| ==> apis[i].name in c && ts[i] == c[apis[i].name]
  }

  /** The record cached under a name is the one computed for the first endpoint with it. */
  predicate ComputedByFirst(apis: seq<ApiSpec>, compute: ApiSpec -> Result<ApiType>, c: map<string, ApiType>) {
    forall i :: 0 <= i < |apis| && FirstOfName(apis, i) && apis[i].name in c ==> compute(apis[i]) == Success(c[apis[i].name])
  }

  /** What a run from an empty cache leaves. */
  ghost predicate RunFacts(apis: seq<ApiSpec>, compute: ApiSpec -> Result<ApiType>, ts: seq<ApiType>, c: map<string, ApiType>) {
    CachedNames(apis, c) && CachedRecords(apis, ts, c) && ComputedByFirst(apis, compute, c)
  }

  /** Starting from an empty cache, every endpoint gets the record computed for the first
      endpoint with its name, so a later endpoint with the same name silently reuses it. */
  lemma {:induction false} CacheRunTypes(apis: seq<ApiSpec>, compute: ApiSpec -> Result<ApiType>)
    requires CacheRun(map[], apis, compute).Success?
    ensures RunFacts(apis, compute, CacheRun(map[], apis, compute).value.0, CacheRun(map[], apis, compute).value.1)
  {
    if |apis| > 0 {
      var n := |apis| - 1;
      var init := apis[..n];
      CacheRunTypes(init, compute);
      var run := CacheRun(map[], init, compute).value;
      var t := CachedApiType(run.1, apis[n], compute).value;
      assert CacheRun(map[], apis, compute).value == (run.0 + [t], CacheAfter(run.1, apis[n], t));
      StepNames(apis, init, run.1, t);
      StepRecords(apis, init, run.0, run.1, t, compute);
      StepFirst(apis, init, compute, run.1, t);
    }
  }

  lemma StepNames(apis: seq<ApiSpec>, init: seq<ApiSpec>, c0: map<string, ApiType>, t: ApiType)
    requires |apis| >= 1 && init == apis[..|apis| - 1]
    requires CachedNames(init, c0)
    ensures CachedNames(apis, CacheAfter(c0, apis[|apis| - 1], t))
  {
    var n := |apis| - 1;
    var c := CacheAfter(c0, apis[n], t);
    forall name
      ensures name in c <==> exists i :: 0 <= i < |apis| && apis[i].name == name
    {
      if name in c0 {
        var i :| 0 <= i < n && init[i].name == name;
        assert apis[i] == init[i];
      }
      if exists i :: 0 <= i < |apis| && apis[i].name == name {
        var i :| 0 <= i < |apis| && apis[i].name == name;
        if i < n {
          assert init[i] == apis[i];
        }
      }
    }
  }

  lemma StepRecords(apis: seq<ApiSpec>, init: seq<ApiSpec>, ts0: seq<ApiType>, c0: map<string, ApiType>, t: ApiType,
                    compute: ApiSpec -> Result<ApiType>)
    requires |apis| >= 1 && init == apis[..|apis| - 1]
    requires CachedRecords(init, ts0, c0)
    requires CachedApiType(c0, apis[|apis| - 1], compute) == Success(t)
    ensures CachedRecords(apis, ts0 + [t], CacheAfter(c0, apis[|apis| - 1], t))
  {
    var n := |apis| - 1;
    assert forall i :: 0 <= i < n ==> apis[i] == init[i];
  }

  lemma StepFirst(apis: seq<ApiSpec>, init: seq<ApiSpec>, compute: ApiSpec -> Result<ApiType>, c0: map<string, ApiType>, t: ApiType)
    requires |apis| >= 1 && init == apis[..|apis| - 1]
    requires CachedNames(init, c0) && ComputedByFirst(init, compute, c0)
    requires CachedApiType(c0, apis[|apis| - 1], compute) == Success(t)
    ensures ComputedByFirst(apis, compute, CacheAfter(c0, apis[|apis| - 1], t))
  {
    var n := |apis| - 1;
    var api := apis[n];
    var c := CacheAfter(c0, api, t);
    forall i | 0 <= i < |apis| && FirstOfName(apis, i) && apis[i].name in c
      ensures compute(apis[i]) == Success(c[apis[i].name])
    {
      if i < n {
        assert apis[i] == init[i];
        assert FirstOfName(init, i);
        assert apis[i].name in c0;
      } else {
        forall k | 0 <= k < n
          ensures init[k].name != api.name
        {
          assert init[k] == apis[k];
        }
        assert api.name !in c0;
      }
    }
  }

  /** Starting from an empty cache, the run succeeds exactly when the computation succeeds on
      the first endpoint of each name; when every failure of the computation carries the same
      error, so does the run's. */
  lemma {:induction false} CacheRunOutcome(apis: seq<ApiSpec>, compute: ApiSpec -> Result<ApiType>, error: string)
    requires forall api :: compute(api).Failure? ==> compute(api).error == error
    ensures CacheRun(map[], apis, compute).Success?
            <==> forall i :: 0 <= i < |apis| && FirstOfName(apis, i) ==> compute(apis[i]).Success?
    ensures CacheRun(map[], apis, compute).Failure? ==> CacheRun(map[], apis, compute).error == error
  {
    if |apis| > 0 {
      var n := |apis| - 1;
      var init := apis[..n];
      CacheRunOutcome(init, compute, error);
      FirstOfNamePrefix(apis);
      CacheRunLast(apis, compute);
      if CacheRun(map[], init, compute).Success? {
        CachedIffNotFirst(apis, compute);
      }
      hide CacheRun, CachedApiType, FirstOfName;
    }
  }

  /** Being first of its name is the same in a prefix as in the whole sequence. */
  lemma FirstOfNamePrefix(apis: seq<ApiSpec>)
    requires |apis| > 0
    ensures forall i :: 0 <= i < |apis| - 1 ==> (FirstOfName(apis[..|apis| - 1], i) <==> FirstOfName(apis, i))
  {
    var init := apis[..|apis| - 1];
    assert forall i :: 0 <= i < |init| ==> init[i] == apis[i];
  }

  /** The run over a non-empty sequence, in terms of the run over all but its last endpoint. */
  lemma CacheRunLast(apis: seq<ApiSpec>, compute: ApiSpec -> Result<ApiType>)
    requires |apis| > 0
    ensures var run := CacheRun(map[], apis[..|apis| - 1], compute);
            CacheRun(map[], apis, compute)
            == if run.Failure? then Failure(run.error)
               else
                 var t := CachedApiType(run.value.1, apis[|apis| - 1], compute);
                 if t.Failure? then Failure(t.error)
                 else Success((run.value.0 + [t.value], CacheAfter(run.value.1, apis[|apis| - 1], t.value)))
  {
  }

  /** The last endpoint's name is already cached exactly when an earlier endpoint has it. */
  lemma CachedIffNotFirst(apis: seq<ApiSpec>, compute: ApiSpec -> Result<ApiType>)
    requires |apis| > 0 && CacheRun(map[], apis[..|apis| - 1], compute).Success?
    ensures apis[|apis| - 1].name in CacheRun(map[], apis[..|apis| - 1], compute).value.1
            <==> !FirstOfName(apis, |apis| - 1)
  {
    var n := |apis| - 1;
    var init := apis[..n];
    CacheRunTypes(init, compute);
    var c := CacheRun(map[], init, compute).value.1;
    if apis[n].name in c {
      var k :| 0 <= k < n && init[k].name == apis[n].name;
      assert apis[k] == init[k];
    } else {
      forall k | 0 <= k < n
        ensures apis[k].name != apis[n].name
      {
        assert apis[k] == init[k];
      }
    }
  }

  /** `ApiTypes` fails only with the error `Object.keys` throws on `null`. */
  lemma TypesOfError(jsonToTs: JsonToTs, suffix: nat -> string)
    ensures forall api :: TypesOf(jsonToTs, suffix)(api).Failure? ==> TypesOf(jsonToTs, suffix)(api).error == NotAnObject
  {
    forall api | TypesOf(jsonToTs, suffix)(api).Failure?
      ensures TypesOf(jsonToTs, suffix)(api).error == NotAnObject
    {
      ApiTypesOutcome(api, jsonToTs, suffix);
    }
  }

  /** Once a prefix of the endpoints fails, the whole run fails with the same error. */
  lemma {:induction false} CacheRunPrefixFails(cache: map<string, ApiType>, apis: seq<ApiSpec>, n: nat,
                                               compute: ApiSpec -> Result<ApiType>)
    requires n <= |apis|
    requires CacheRun(cache, apis[..n], compute).Failure?
    ensures CacheRun(cache, apis, compute) == Failure(CacheRun(cache, apis[..n], compute).error)
    decreases |apis|
  {
    if n < |apis| {
      var init := apis[..|apis| - 1];
      assert init[..n] == apis[..n];
      CacheRunPrefixFails(cache, init, n, compute);
    } else {
      assert apis[..n] == apis;
    }
  }

  /** One more endpoint: a run over a prefix that succeeds extends by that endpoint's record. */
  lemma CacheRunExtend(cache0: map<string, ApiType>, apis: seq<ApiSpec>, i: nat, compute: ApiSpec -> Result<ApiType>,
                       ts: seq<ApiType>, cache: map<string, ApiType>, t: ApiType)
    requires i < |apis|
    requires CacheRun(cache0, apis[..i], compute) == Success((ts, cache))
    requires CachedApiType(cache, apis[i], compute) == Success(t)
    ensures CacheRun(cache0, apis[..i + 1], compute) == Success((ts + [t], CacheAfter(cache, apis[i], t)))
  {
    assert apis[..i + 1][..i] == apis[..i];
  }

  /** One more endpoint whose record fails: the whole run fails with its error. */
  lemma CacheRunStops(cache0: map<string, ApiType>, apis: seq<ApiSpec>, i: nat, compute: ApiSpec -> Result<ApiType>,
                      ts: seq<ApiType>, cache: map<string, ApiType>)
    requires i < |apis|
    requires CacheRun(cache0, apis[..i], compute) == Success((ts, cache))
    requires CachedApiType(cache, apis[i], compute).Failure?
    ensures CacheRun(cache0, apis, compute) == Failure(CachedApiType(cache, apis[i], compute).error)
  {
    assert apis[..i + 1][..i] == apis[..i];
    CacheRunPrefixFails(cache0, apis, i + 1, compute);
  }

  /** Over a cache that already holds every endpoint's record, the run computes nothing and
      returns the cached records. */
  lemma {:induction false} CacheRunCached(cache: map<string, ApiType>, apis: seq<ApiSpec>, ts: seq<ApiType>,
                                          compute: ApiSpec -> Result<ApiType>)
    requires |ts| == |apis|
    requires forall i :: 0 <= i < |apis| ==> apis[i].name in cache && ts[i] == cache[apis[i].name]
    ensures CacheRun(cache, apis, compute) == Success((ts, cache))
  {
    if |apis| > 0 {
      var n := |apis| - 1;
      assert forall i :: 0 <= i < n ==> apis[..n][i] == apis[i] && ts[..n][i] == ts[i];
      CacheRunCached(cache, apis[..n], ts[..n], compute);
      assert ts == ts[..n] + [ts[n]];
    }
  }

  /** The method texts of the endpoints with their records. */
  function RequestStrings(apis: seq<ApiSpec>, ts: seq<ApiType>): seq<string>
    requires |apis| == |ts|
  {
    seq(|apis|, i requires 0 <= i < |apis| => GenerateRequestString(apis[i], ts[i]))
  }

  /** A run over no endpoint yet keeps the cache and has no records and no request texts. */
  lemma NothingRun(cache: map<string, ApiType>, apis: seq<ApiSpec>, compute: ApiSpec -> Result<ApiType>)
    ensures CacheRun(cache, apis[..0], compute) == Success(([], cache))
    ensures RequestStrings(apis[..0], []) == []
  {
  }

  lemma RequestStringsAppend(apis: seq<ApiSpec>, i: nat, ts: seq<ApiType>, t: ApiType)
    requires |ts| == i < |apis|
    ensures RequestStrings(apis[..i + 1], ts + [t]) == RequestStrings(apis[..i], ts) + [GenerateRequestString(apis[i], t)]
  {
  }

  function FullStrs(ts: seq<ApiType>): seq<string> {
    seq(|ts|, i requires 0 <= i < |ts| => ts[i].fullStr)
  }

  function ClassName(name: string): string {
    name + "Service"
  }

  // =======================================================================================
  // The hook files (`generateQueryFiles`)
  // =======================================================================================

  /** What a hook file interpolates besides its names: a query hook imports the non-empty
      names among the parameter type and the instance; an infinite query carries its options;
      a mutation carries the key it invalidates, if any. */
  datatype HookContent =
    | QueryContent(importNames: seq<string>, hasParam: bool, queryParamType: string)
    | InfiniteContent(topScript: string, initialPageParam: string, queryParamType: string, pageKey: string,
                      queryKey: string, hasParam: bool, nextPageParam: string, previousPageParam: string)
    | MutationContent(invalidateKey: Option<string>)

  /** One hook file: its name (without `.ts`), the endpoint it calls, the service instance and
      class it imports, the endpoint's parameter type name, and the hook. */
  datatype HookFile = HookFile(name: string, apiName: string, instanceName: string, className: string,
                               paramTypeName: string, content: HookContent)

  /** The file name: a mutation first, then a query, then an infinite query. */
  function HookFileName(api: ApiSpec): string {
    var baseName := ToPascalCase(api.name);
    if api.useMutation.IsSet() then "useMutate" + baseName
    else if api.useQuery.IsSet() then "use" + baseName
    else "useInfinite" + baseName
  }

  function QueryParamType(api: ApiSpec, t: ApiType): string {
    if api.useQueryStrictParams then t.paramTypeName else "Partial<" + t.paramTypeName + ">"
  }

  /** The query key a mutation invalidates: the endpoint named by `invalidateApiName`, else
      the literal `invalidateKey`, else none. */
  function InvalidationKey(m: MutationOption): Option<string> {
    match m
    case MutationWith(o) =>
      if o.invalidateApiName != "" then Some("['" + o.invalidateApiName + "']")
      else if o.invalidateKey != "" then Some(o.invalidateKey)
      else None
    case _ => None
  }

  /** The hook file of an endpoint that asks for a hook: the content is chosen query first,
      then infinite query, then mutation. */
  function QueryFileOf(api: ApiSpec, t: ApiType, className: string): HookFile
    requires api.HasHook()
  {
    var instanceName := ToCamelCase(className);
    var queryParamType := QueryParamType(api, t);
    var hasParam := t.paramTypeName != "";
    var content :=
      if api.useQuery.IsSet() then
        QueryContent(NonEmpty([t.paramTypeName, instanceName]), hasParam, queryParamType)
      else if api.useInfiniteQuery.Some? then
        var o := api.useInfiniteQuery.value;
        InfiniteContent(o.defaultTopScript, o.initialPageParam, queryParamType, o.pageKey,
                        if o.common.queryKey != "" then o.common.queryKey else "['" + api.name + "']",
                        hasParam, o.getNextPageParam, o.getPreviousPageParam)
      else MutationContent(InvalidationKey(api.useMutation));
    HookFile(HookFileName(api), api.name, instanceName, className, t.paramTypeName, content)
  }

  /** What reading `paramTypeName` of a missing cache entry throws. */
  const MissingTypes := "Cannot read properties of undefined (reading 'paramTypeName')"

  /** The hook files of the endpoints that ask for a hook, in order, built from the cached
      records; an endpoint whose name is not cached throws. */
  function QueryFiles(apis: seq<ApiSpec>, cache: map<string, ApiType>, className: string): Result<seq<HookFile>>
    decreases |apis|
  {
    if |apis| == 0 then Success([])
    else
      var files :- QueryFiles(apis[..|apis| - 1], cache, className);
      var api := apis[|apis| - 1];
      if !api.HasHook() then Success(files)
      else if api.name !in cache then Failure(MissingTypes)
      else Success(files + [QueryFileOf(api, cache[api.name], className)])
  }

  /** The endpoints that ask for a hook, in order. */
  function Hooked(apis: seq<ApiSpec>): (r: seq<ApiSpec>)
    ensures forall a :: a in r <==> a in apis && a.HasHook()
    decreases |apis|
  {
    if |apis| == 0 then []
    else
      var init := Hooked(apis[..|apis| - 1]);
      assert apis == apis[..|apis| - 1] + [apis[|apis| - 1]];
      if apis[|apis| - 1].HasHook() then init + [apis[|apis| - 1]] else init
  }

  /** The names a hook file imports from the service file: the query hook filters out an
      empty parameter type name, the other two hooks do not. */
  function ImportList(f: HookFile): string {
    if f.content.QueryContent? then Join(f.content.importNames, ",")
    else f.paramTypeName + ", " + f.instanceName
  }

  function ImportLines(f: HookFile, hooks: string): string {
    "import { " + hooks + " } from '@tanstack/react-query';\nimport { " + ImportList(f)
    + " } from '../../" + f.className + "';\n"
  }

  function ExportDefault(f: HookFile): string {
    "\n});\n};\nexport default " + f.name + ";\n"
  }

  /** The text of a hook file (whitespace simplified). */
  function HookText(f: HookFile): string {
    var p := f.paramTypeName;
    var call := f.instanceName + "." + f.apiName;
    match f.content
    case QueryContent(_, hasParam, qpt) =>
      ImportLines(f, "useQuery")
      + "const " + f.name + " = (" + (if hasParam then "params: " + qpt else "") + ") => {\nreturn useQuery({\n"
      + "queryKey: ['" + f.apiName + "'" + (if hasParam then ",JSON.stringify(params)" else "") + "],\n"
      + "queryFn: () => " + call + "(" + (if hasParam then "params as NonNullable<" + p + ">" else "") + "),\n"
      + (if hasParam then "enabled: Object.keys(params).every((key) => params[key as keyof " + p + "] != null )" else "")
      + ExportDefault(f)
    case InfiniteContent(topScript, initialPageParam, qpt, pageKey, queryKey, hasParam, next, previous) =>
      var omitted := "Omit<" + qpt + ", '" + pageKey + "'>";
      ImportLines(f, "useInfiniteQuery") + topScript + "\n"
      + "const " + f.name + " = (initialPageParam = " + initialPageParam + ", params: " + omitted + ") => {\n"
      + "return useInfiniteQuery({\nqueryKey: " + queryKey + ",\n"
      + "queryFn: ({pageParam}) => " + call + "({...(params as NonNullable<" + p + ">)," + pageKey + ":pageParam}),\n"
      + "initialPageParam: initialPageParam,\n"
      + (if hasParam then "enabled: Object.keys(params).every((key) => params[key as keyof " + omitted + "] != null )," else "")
      + "\n" + (if next != "" then "getNextPageParam:" + next else "") + ",\n"
      + (if previous != "" then "getPreviousPageParam:" + previous else "")
      + ExportDefault(f)
    case MutationContent(key) =>
      ImportLines(f, "useMutation, " + (if key.Some? then "useQueryClient" else ""))
      + "const " + f.name + " = () => {\n" + (if key.Some? then "const queryClient = useQueryClient()" else "")
      + "\nreturn useMutation({\nmutationFn: (params: " + p + ") => " + call + "(params),\n"
      + (if key.Some? then "onSettled: () => {\nqueryClient.invalidateQueries({ queryKey: " + key.value + " })\n}" else "")
      + ExportDefault(f)
  }

  // =======================================================================================
  // Writing the files (`buildService`, `buildQueryHooks`)
  // =======================================================================================

  /** `ignorePaths.some((p) => path.includes(p))`. */
  predicate Ignored(path: string, ignorePaths: seq<string>)
    decreases |ignorePaths|
  {
    |ignorePaths| > 0 && (Contains(path, ignorePaths[0]) || Ignored(path, ignorePaths[1..]))
  }

  /** The (path, text) pairs written for the hook files, in order: a file whose path contains
      an ignored pattern is skipped. `pathOf` stands for `resolve(queryRootPath, ·)`. */
  function HooksToWrite(files: seq<HookFile>, pathOf: string -> string, ignorePaths: seq<string>): seq<(string, string)>
    decreases |files|
  {
    if |files| == 0 then []
    else
      var init := HooksToWrite(files[..|files| - 1], pathOf, ignorePaths);
      var f := files[|files| - 1];
      var path := pathOf(f.name + ".ts");
      if Ignored(path, ignorePaths) then init else init + [(path, HookText(f))]
  }

  /** The header line of the service generator's own (unused) `generateHeader`: it behaves as
      the client generator's, but throws its message in Korean. */
  function GenerateHeader(key: string, value: string): Result<string> {
    var parseValue := ParseBracket(value);
    if !parseValue.Bracket? then Success(ClientGenerator.HeaderTarget(key) + "\"" + value + "\"")
    else if parseValue.key == "cookie" then
      Success(ClientGenerator.HeaderTarget(key) + "`"
              + ReplaceFirst(value, parseValue.matchStr, ClientGenerator.CookieLookup(parseValue.value)) + "`")
    else Failure("지원하지 않는 태그 입니다 " + parseValue.key)
  }

  // =======================================================================================
  // The generator
  // =======================================================================================

  class ServiceGenerator {
    const name: string
    const options: ServiceOption
    const className: string
    const filename: string
    /** The type converter and the random-suffix source the type conversion uses. */
    const jsonToTs: JsonToTs
    const suffix: nat -> string
    var httpClient: string
    var requests: string
    var types: string
    var typeCache: map<string, ApiType>

    /** The field assignments of the constructor; `Create` runs the rest. */
    constructor (name: string, options: ServiceOption, jsonToTs: JsonToTs, suffix: nat -> string)
      ensures this.name == name && this.options == options
      ensures this.jsonToTs == jsonToTs && this.suffix == suffix
      ensures className == ClassName(name) && filename == ClassName(name) + ".ts"
      ensures httpClient == "" && requests == "" && types == "" && typeCache == map[]
    {
      this.name := name;
      this.options := options;
      this.className := name + "Service";
      this.filename := name + "Service" + ".ts";
      this.jsonToTs := jsonToTs;
      this.suffix := suffix;
      httpClient := "";
      requests := "";
      types := "";
      typeCache := map[];
    }

    /** `#generateApiType`: the cached record when there is one; otherwise the types of params,
        response and body in that order, cached under the endpoint's name. */
    method GenerateApiType(api: ApiSpec) returns (r: Result<ApiType>)
      modifies this
      ensures r == CachedApiType(old(typeCache), api, TypesOf(jsonToTs, suffix))
      ensures typeCache == if r.Success? then CacheAfter(old(typeCache), api, r.value) else old(typeCache)
      ensures httpClient == old(httpClient) && requests == old(requests) && types == old(types)
    {
      if api.name in typeCache {
        return Success(typeCache[api.name]);
      }

      var paramExist := Exists(api.params);
      var paramTypeName := "";
      var paramType := "";
      if paramExist {
        paramTypeName := TypeName(api.name, "Params");
        paramType :- ToType(api.params.value, paramTypeName, jsonToTs, suffix);
      }

      var responseExist := Exists(api.response);
      var responseTypeName := "";
      var responseType := "";
      if responseExist {
        responseTypeName := TypeName(api.name, "Response");
        responseType :- ToType(api.response.value, responseTypeName, jsonToTs, suffix);
      }

      var bodyExist := Exists(api.body);
      var bodyType := "";
      var bodyTypeName := "";
      if bodyExist {
        bodyTypeName := TypeName(api.name, "Body");
        bodyType :- ToType(api.body.value, bodyTypeName, jsonToTs, suffix);
      }

      var result := ApiType(paramTypeName, paramType, responseTypeName, responseType, bodyTypeName, bodyType,
                            bodyExist, paramExist, responseExist,
                            FullStrBreak + paramType + ";" + FullStrBreak + responseType + ";" + FullStrBreak + bodyType + ";");
      typeCache := typeCache[api.name := result];
      r := Success(result);
    }

    /** `#generateRequest`: the method text for the endpoint's (cached) record. */
    method GenerateRequest(api: ApiSpec) returns (r: Result<string>)
      modifies this
      ensures var t := CachedApiType(old(typeCache), api, TypesOf(jsonToTs, suffix));
              r == if t.Success? then Success(GenerateRequestString(api, t.value)) else Failure(t.error)
      ensures typeCache == (var t := CachedApiType(old(typeCache), api, TypesOf(jsonToTs, suffix));
                            if t.Success? then CacheAfter(old(typeCache), api, t.value) else old(typeCache))
      ensures httpClient == old(httpClient) && requests == old(requests) && types == old(types)
    {
      var t :- GenerateApiType(api);
      r := Success(GenerateRequestString(api, t));
    }

    /** `this.options.apis.map((api) => this.#generateApiType(api).fullStr).join("\n")`. */
    method BuildTypes() returns (r: Result<()>)
      modifies this
      ensures var run := CacheRun(old(typeCache), options.apis, TypesOf(jsonToTs, suffix));
              && (r.Success? <==> run.Success?)
              && (r.Failure? ==> r.error == run.error && types == old(types))
              && (r.Success? ==> types == Join(FullStrs(run.value.0), "\n") && typeCache == run.value.1)
      ensures httpClient == old(httpClient) && requests == old(requests)
    {
      var apis := options.apis;
      var typeTexts: seq<string> := [];
      ghost var ts: seq<ApiType> := [];
      for i := 0 to |apis|
        invariant CacheRun(old(typeCache), apis[..i], TypesOf(jsonToTs, suffix)) == Success((ts, typeCache))
        invariant typeTexts == FullStrs(ts)
        invariant httpClient == old(httpClient) && requests == old(requests) && types == old(types)
      {
        ghost var cache := typeCache;
        var t := GenerateApiType(apis[i]);
        if t.Failure? {
          CacheRunStops(old(typeCache), apis, i, TypesOf(jsonToTs, suffix), ts, cache);
          return Failure(t.error);
        }
        CacheRunExtend(old(typeCache), apis, i, TypesOf(jsonToTs, suffix), ts, cache, t.value);
        ts := ts + [t.value];
        typeTexts := typeTexts + [t.value.fullStr];
      }
      assert apis[..|apis|] == apis;
      types := Join(typeTexts, "\n");
      r := Success(());
    }

    /** `this.options.apis.map((api) => this.#generateRequest(api)).join("\n")`. */
    method BuildRequests() returns (r: Result<()>)
      modifies this
      ensures var run := CacheRun(old(typeCache), options.apis, TypesOf(jsonToTs, suffix));
              && (r.Success? <==> run.Success?)
              && (r.Failure? ==> r.error == run.error && requests == old(requests))
              && (r.Success? ==> |run.value.0| == |options.apis|
                                 && requests == Join(RequestStrings(options.apis, run.value.0), "\n")
                                 && typeCache == run.value.1)
      ensures httpClient == old(httpClient) && types == old(types)
    {
      hide CachedApiType, GenerateRequestString, CacheRun, RequestStrings;
      var apis := options.apis;
      var requestTexts: seq<string> := [];
      ghost var ts: seq<ApiType> := [];
      NothingRun(typeCache, apis, TypesOf(jsonToTs, suffix));
      for i := 0 to |apis|
        invariant CacheRun(old(typeCache), apis[..i], TypesOf(jsonToTs, suffix)) == Success((ts, typeCache))
        invariant |ts| == i && requestTexts == RequestStrings(apis[..i], ts)
        invariant httpClient == old(httpClient) && requests == old(requests) && types == old(types)
      {
        ghost var cache := typeCache;
        var req := GenerateRequest(apis[i]);
        if req.Failure? {
          CacheRunStops(old(typeCache), apis, i, TypesOf(jsonToTs, suffix), ts, cache);
          return Failure(req.error);
        }
        ghost var t := CachedApiType(cache, apis[i], TypesOf(jsonToTs, suffix)).value;
        CacheRunExtend(old(typeCache), apis, i, TypesOf(jsonToTs, suffix), ts, cache, t);
        RequestStringsAppend(apis, i, ts, t);
        ts := ts + [t];
        requestTexts := requestTexts + [req.value];
      }
      assert apis[..|apis|] == apis;
      requests := Join(requestTexts, "\n");
      r := Success(());
    }

    /** `generateQueryFiles`: one file per endpoint that asks for a hook, built from the cached
        records. */
    method GenerateQueryFiles() returns (r: Result<seq<HookFile>>)
      ensures r == QueryFiles(options.apis, typeCache, className)
    {
      var apis := options.apis;
      var queries: seq<HookFile> := [];
      for i := 0 to |apis|
        invariant QueryFiles(apis[..i], typeCache, className) == Success(queries)
      {
        var api := apis[i];
        assert apis[..i + 1][..i] == apis[..i];
        if !api.HasHook() {
          continue;
        }
        if api.name !in typeCache {
          QueryFilesPrefixFails(apis, i + 1, typeCache, className);
          return Failure(MissingTypes);
        }
        queries := queries + [QueryFileOf(api, typeCache[api.name], className)];
      }
      assert apis[..|apis|] == apis;
      r := Success(queries);
    }

    /** `buildService`: the service file is written at `path` unless the path contains an
        ignored pattern (formatting and the write itself are left out). */
    function ServiceFile(path: string, ignorePaths: seq<string>): Option<(string, string)>
      reads this
    {
      if Ignored(path, ignorePaths) then None else Some((path, GetCode()))
    }

    /** `buildQueryHooks`: the hook files, each written at its resolved path unless that path
        contains an ignored pattern; returns the (path, text) pairs written, in order. */
    method BuildQueryHooks(pathOf: string -> string, ignorePaths: seq<string>) returns (r: Result<seq<(string, string)>>)
      ensures var files := QueryFiles(options.apis, typeCache, className);
              r == if files.Success? then Success(HooksToWrite(files.value, pathOf, ignorePaths)) else Failure(files.error)
    {
      var queryFiles :- GenerateQueryFiles();
      var written: seq<(string, string)> := [];
      for i := 0 to |queryFiles|
        invariant written == HooksToWrite(queryFiles[..i], pathOf, ignorePaths)
      {
        var f := queryFiles[i];
        var filePath := pathOf(f.name + ".ts");
        assert queryFiles[..i + 1][..i] == queryFiles[..i];
        if Ignored(filePath, ignorePaths) {
          continue;
        }
        written := written + [(filePath, HookText(f))];
      }
      assert queryFiles[..|queryFiles|] == queryFiles;
      r := Success(written);
    }

    /** `getCode`: the service file. */
    function GetCode(): string
      reads this
    {
      "import HttpClient from './HttpClient';\n" + options.defaultTopScript + "\n" + types + "\nclass " + className
      + " {\n" + httpClient + "\n" + requests + "\n}\n" + ExportLine(className)
    }
  }

  /** The last line of the service file: the instance the hook files import. */
  function ExportLine(className: string): string {
    "export const " + ToCamelCase(className) + " = new " + className + "();"
  }

  /** `new ServiceGenerator(name, options)`: the client field first, then the types of every
      endpoint, then its method; the first error thrown ends construction. */
  method Create(name: string, options: ServiceOption, jsonToTs: JsonToTs, suffix: nat -> string)
    returns (r: Result<ServiceGenerator>)
    ensures r.Success? <==> ClientGenerator.GetCode(options).Success? && CacheRun(map[], options.apis, TypesOf(jsonToTs, suffix)).Success?
    ensures r.Failure? ==>
              r.error == if ClientGenerator.GetCode(options).Failure? then ClientGenerator.GetCode(options).error
                         else CacheRun(map[], options.apis, TypesOf(jsonToTs, suffix)).error
    ensures r.Success? ==>
              var g := r.value;
              var run := CacheRun(map[], options.apis, TypesOf(jsonToTs, suffix)).value;
              && fresh(g) && g.name == name && g.options == options && g.className == ClassName(name)
              && g.jsonToTs == jsonToTs && g.suffix == suffix
              && g.httpClient == ClientGenerator.GetCode(options).value
              && |run.0| == |options.apis|
              && g.types == Join(FullStrs(run.0), "\n")
              && g.typeCache == run.1
              && g.requests == Join(RequestStrings(options.apis, run.0), "\n")
  {
    var g := new ServiceGenerator(name, options, jsonToTs, suffix);
    var client := ClientGenerator.GetCode(options);
    if client.Failure? {
      return Failure(client.error);
    }
    g.httpClient := client.value;
    var typesDone := g.BuildTypes();
    if typesDone.Failure? {
      return Failure(typesDone.error);
    }
    ghost var run := CacheRun(map[], options.apis, TypesOf(jsonToTs, suffix)).value;
    CacheRunTypes(options.apis, TypesOf(jsonToTs, suffix));
    CacheRunCached(run.1, options.apis, run.0, TypesOf(jsonToTs, suffix));
    var requestsDone := g.BuildRequests();
    assert requestsDone.Success?;
    return Success(g);
  }

  // =======================================================================================
  // Properties of the hook files and of writing them
  // =======================================================================================

  /** Once a prefix of the endpoints fails, so do all of them. */
  lemma {:induction false} QueryFilesPrefixFails(apis: seq<ApiSpec>, n: nat, cache: map<string, ApiType>, className: string)
    requires n <= |apis|
    requires QueryFiles(apis[..n], cache, className).Failure?
    ensures QueryFiles(apis, cache, className) == Failure(QueryFiles(apis[..n], cache, className).error)
    decreases |apis|
  {
    if n < |apis| {
      var init := apis[..|apis| - 1];
      assert init[..n] == apis[..n];
      QueryFilesPrefixFails(init, n, cache, className);
    } else {
      assert apis[..n] == apis;
    }
  }

  /** The hook files are built exactly when every endpoint that asks for a hook has a cached
      record; otherwise reading the missing record throws. */
  lemma {:induction false} QueryFilesOutcome(apis: seq<ApiSpec>, cache: map<string, ApiType>, className: string)
    ensures QueryFiles(apis, cache, className).Success?
            <==> forall i :: 0 <= i < |apis| && apis[i].HasHook() ==> apis[i].name in cache
    ensures QueryFiles(apis, cache, className).Failure? ==> QueryFiles(apis, cache, className).error == MissingTypes
    decreases |apis|
  {
    if |apis| > 0 {
      var init := apis[..|apis| - 1];
      QueryFilesOutcome(init, cache, className);
      assert forall i :: 0 <= i < |init| ==> init[i] == apis[i];
    }
  }

  /** On success there is one file per endpoint that asks for a hook, in endpoint order, each
      built from the record cached under its endpoint's name. */
  lemma {:induction false} QueryFilesInOrder(apis: seq<ApiSpec>, cache: map<string, ApiType>, className: string)
    requires QueryFiles(apis, cache, className).Success?
    ensures var files := QueryFiles(apis, cache, className).value;
            var hooked := Hooked(apis);
            && |files| == |hooked|
            && forall j :: 0 <= j < |files| ==>
                 hooked[j].HasHook() && hooked[j].name in cache
                 && files[j] == QueryFileOf(hooked[j], cache[hooked[j].name], className)
    decreases |apis|
  {
    hide QueryFileOf;
    if |apis| > 0 {
      var init := apis[..|apis| - 1];
      QueryFilesInOrder(init, cache, className);
      assert apis == init + [apis[|apis| - 1]];
    }
  }

  /** After a successful run of the type cache from empty — which is what construction leaves
      in `typeCache` — the hook files can always be built. */
  lemma QueryFilesAfterRun(apis: seq<ApiSpec>, compute: ApiSpec -> Result<ApiType>, className: string)
    requires CacheRun(map[], apis, compute).Success?
    ensures QueryFiles(apis, CacheRun(map[], apis, compute).value.1, className).Success?
  {
    CacheRunTypes(apis, compute);
    QueryFilesOutcome(apis, CacheRun(map[], apis, compute).value.1, className);
  }

  /** The content follows `useQuery` first while the file name follows `useMutation` first: an
      endpoint asking for both gets a file named as a mutation that holds a query hook. */
  lemma HookFileKinds(api: ApiSpec, t: ApiType, className: string)
    requires api.HasHook()
    ensures QueryFileOf(api, t, className).content.QueryContent? <==> api.useQuery.IsSet()
    ensures QueryFileOf(api, t, className).content.InfiniteContent?
            <==> !api.useQuery.IsSet() && api.useInfiniteQuery.Some?
    ensures QueryFileOf(api, t, className).content.MutationContent?
            <==> !api.useQuery.IsSet() && api.useInfiniteQuery.None? && api.useMutation.IsSet()
    ensures api.useMutation.IsSet() ==> QueryFileOf(api, t, className).name == "useMutate" + ToPascalCase(api.name)
  {
  }

  /** A mutation hook invalidates a key exactly when its options name one: `invalidateApiName`
      wins and invalidates `['<name>']`, else `invalidateKey` is used as written. */
  lemma MutationInvalidation(api: ApiSpec, t: ApiType, className: string)
    requires api.HasHook() && !api.useQuery.IsSet() && api.useInfiniteQuery.None?
    ensures var c := QueryFileOf(api, t, className).content;
            && c.MutationContent?
            && (c.invalidateKey.Some? <==>
                  (api.useMutation.MutationWith?
                   && (api.useMutation.options.invalidateApiName != "" || api.useMutation.options.invalidateKey != "")))
            && (api.useMutation.MutationWith? && api.useMutation.options.invalidateApiName != "" ==>
                  c.invalidateKey == Some("['" + api.useMutation.options.invalidateApiName + "']"))
            && (api.useMutation.MutationWith? && api.useMutation.options.invalidateApiName == ""
                && api.useMutation.options.invalidateKey != "" ==>
                  c.invalidateKey == Some(api.useMutation.options.invalidateKey))
  {
  }

  /** The service generator and the hook generator name an endpoint's hook file alike, except
      for an endpoint asking for a query and an infinite query but no mutation: `use…` here,
      `useInfinite…` there. Only endpoints that ask for a hook get a file. */
  lemma FileNamesAgree(g: TanstackQuery.QueryGenerator)
    requires g.api.HasHook()
    ensures HookFileName(g.api) == g.FileName()
            <==> !(!g.api.useMutation.IsSet() && g.api.useQuery.IsSet() && g.api.useInfiniteQuery.Some?)
  {
    if !g.api.useMutation.IsSet() && g.api.useQuery.IsSet() && g.api.useInfiniteQuery.Some? {
      assert |HookFileName(g.api)| < |g.FileName()|;
    }
  }

  /** Without a parameter type the query hook imports only the instance, while the infinite
      and mutation hooks import an empty name first (`{ , instance }`). */
  lemma EmptyImportSpecifier(api: ApiSpec, t: ApiType, className: string)
    requires api.HasHook() && t.paramTypeName == ""
    ensures var f := QueryFileOf(api, t, className);
            f.content.QueryContent? ==> forall k :: 0 <= k < |f.content.importNames| ==> f.content.importNames[k] != ""
    ensures var f := QueryFileOf(api, t, className);
            !f.content.QueryContent? ==> ImportList(f)[..2] == ", "
  {
    var f := QueryFileOf(api, t, className);
    if !f.content.QueryContent? {
      assert ImportList(f) == ", " + f.instanceName;
    }
  }

  /** Every hook file imports from the service class it was generated with, under the instance
      name the service file exports. */
  lemma ImportsMatchExport(apis: seq<ApiSpec>, cache: map<string, ApiType>, className: string)
    requires QueryFiles(apis, cache, className).Success?
    ensures var files := QueryFiles(apis, cache, className).value;
            forall j :: 0 <= j < |files| ==>
              files[j].className == className
              && ExportLine(className) == "export const " + files[j].instanceName + " = new " + className + "();"
  {
    QueryFilesInOrder(apis, cache, className);
  }

  /** The service file ends with the line exporting its instance. */
  lemma GetCodeExportsInstance(g: ServiceGenerator)
    ensures |ExportLine(g.className)| <= |g.GetCode()|
    ensures g.GetCode()[|g.GetCode()| - |ExportLine(g.className)|..] == ExportLine(g.className)
  {
    var head := "import HttpClient from './HttpClient';\n" + g.options.defaultTopScript + "\n" + g.types + "\nclass "
                + g.className + " {\n" + g.httpClient + "\n" + g.requests + "\n}\n";
    assert g.GetCode() == head + ExportLine(g.className);
  }

  /** A path is ignored exactly when it contains one of the patterns. */
  lemma {:induction false} IgnoredIff(path: string, ignorePaths: seq<string>)
    ensures Ignored(path, ignorePaths) <==> exists i :: 0 <= i < |ignorePaths| && Contains(path, ignorePaths[i])
    decreases |ignorePaths|
  {
    if |ignorePaths| > 0 {
      IgnoredIff(path, ignorePaths[1..]);
      assert forall i :: 1 <= i < |ignorePaths| ==> ignorePaths[i] == ignorePaths[1..][i - 1];
    }
  }

  /** An empty pattern ignores every path. */
  lemma EmptyPatternIgnoresAll(path: string, ignorePaths: seq<string>)
    requires "" in ignorePaths
    ensures Ignored(path, ignorePaths)
  {
    IgnoredIff(path, ignorePaths);
    assert OccursAt(path, "", 0);
  }

  /** The service file is written exactly when its path contains no ignored pattern. */
  lemma ServiceFileWritten(g: ServiceGenerator, path: string, ignorePaths: seq<string>)
    ensures g.ServiceFile(path, ignorePaths).None?
            <==> exists i :: 0 <= i < |ignorePaths| && Contains(path, ignorePaths[i])
    ensures g.ServiceFile(path, ignorePaths).Some? ==> g.ServiceFile(path, ignorePaths).value == (path, g.GetCode())
  {
    IgnoredIff(path, ignorePaths);
  }

  /** The pairs written are exactly those of the files whose paths are not ignored. */
  lemma {:induction false} HooksToWriteMembers(files: seq<HookFile>, pathOf: string -> string, ignorePaths: seq<string>)
    ensures |HooksToWrite(files, pathOf, ignorePaths)| <= |files|
    ensures forall x :: x in HooksToWrite(files, pathOf, ignorePaths)
              <==> exists f :: f in files && !Ignored(pathOf(f.name + ".ts"), ignorePaths)
                               && x == (pathOf(f.name + ".ts"), HookText(f))
    decreases |files|
  {
    hide HookText, Ignored;
    if |files| > 0 {
      var init := files[..|files| - 1];
      HooksToWriteMembers(init, pathOf, ignorePaths);
      assert files == init + [files[|files| - 1]];
    }
  }

  /** The service generator's `generateHeader` agrees with the client generator's except for
      the text of the error it throws. */
  lemma HeaderAgreement(key: string, value: string)
    ensures GenerateHeader(key, value).Success? <==> ClientGenerator.GenerateHeader(key, value).Success?
    ensures GenerateHeader(key, value).Success? ==> GenerateHeader(key, value) == ClientGenerator.GenerateHeader(key, value)
    ensures GenerateHeader(key, value).Failure? ==>
              GenerateHeader(key, value).error == "지원하지 않는 태그 입니다 " + ParseBracket(value).key
              && ClientGenerator.GenerateHeader(key, value).error == ClientGenerator.UnsupportedTag(ParseBracket(value).key)
  {
  }
}
