/** `TanstackQueryGenerator`: the hook file of one endpoint — a `useQuery`, `useInfiniteQuery`
    or `useMutation` wrapper around the service method — built from the endpoint's options and
    the type record of its `RequestGenerator`. Each getter of the source is a function returning
    a small structured value; the `...Text` functions render them with simplified whitespace. */
module TanstackQuery {
  import opened Wrappers
  import opened Text
  import opened Utils
  import opened Config
  import opened Requests

  /** The three kinds of hook. */
  datatype Variant = Query | InfiniteQuery | Mutation

  /** A parameter type: the bare type name, or `Partial<...>` of it. */
  datatype TypeRef = Exact(name: string) | PartialOf(name: string)

  /** The two import lines: hooks from `@tanstack/react-query`, then names from the service
      file; `NoImports` where `getImportStr` returns `undefined`. `hooks` holds the slots of
      the first line's template, joined by `, `: a mutation has two, and the second is empty
      when there is no key to invalidate. */
  datatype Imports = NoImports | Imports(hooks: seq<string>, names: seq<string>, from: string)

  /** `queryKey`: an explicit key; the endpoint name followed by the serialised objects; the
      endpoint name followed by the params without the page key; or none. */
  datatype QueryKey =
    | CustomKey(text: string)
    | NamedKey(name: string, serialised: seq<string>)
    | PagedKey(name: string, paramTypeName: string, pageKey: string, hasParams: bool)
    | NoKey

  /** `name as NonNullable<typeName>`. */
  datatype CastArg = CastArg(name: string, typeName: string)

  /** `queryFn` / `mutationFn`. */
  datatype Fetcher =
    | CustomFn(text: string)
    | CallFn(instance: string, apiName: string, args: seq<CastArg>)
    | PagedFn(instance: string, apiName: string, paramTypeName: string, pageKey: string)
    | MutationFn(instance: string, apiName: string, parameters: seq<Parameter>)
    | NoFn

  /** `enabled`: an explicit expression, nothing, "every key of each object is non-null", or the
      same for the params without the page key. */
  datatype Enabled =
    | CustomEnabled(text: string)
    | NoEnabled
    | EveryKeySet(objects: seq<Parameter>)
    | PagedEnabled(paramTypeName: string, pageKey: string)

  /** A parameter of the generated hook. */
  datatype HookParam = HookParam(name: string, typeRef: TypeRef)

  /** The generated hook file. */
  datatype HookCode =
    | QueryHook(imports: Imports, defaultScript: string, hookName: string, parameters: seq<HookParam>,
                queryKey: QueryKey, queryFn: Fetcher, enabled: Enabled)
    | InfiniteHook(imports: Imports, defaultScript: string, hookName: string, initialPageParam: string,
                   pagedParams: Option<TypeRef>, pageKey: string, queryKey: QueryKey, queryFn: Fetcher,
                   enabled: Enabled, nextPageParam: string, previousPageParam: string)
    | MutationHook(imports: Imports, defaultScript: string, hookName: string, invalidateQueryKey: string,
                   mutationFn: Fetcher)

  /** The state `TanstackQueryGenerator` copies from its `RequestGenerator`; every field is set
      once. */
  datatype QueryGenerator = QueryGenerator(api: ApiSpec, types: ApiType, serviceInstanceName: string,
                                           serviceClassName: string)
  {
    /** `getCode`'s dispatch: infinite query, then mutation, then plain query. */
    function CodeVariant(): Variant {
      if api.useInfiniteQuery.Some? then InfiniteQuery
      else if api.useMutation.IsSet() then Mutation
      else Query
    }

    /** `generateFileName`: mutation, then infinite query, then plain query. */
    function FileName(): string {
      var baseName := ToPascalCase(api.name);
      if api.useMutation.IsSet() then "useMutate" + baseName
      else if api.useInfiniteQuery.Some? then "useInfinite" + baseName
      else "use" + baseName
    }

    /** `getCommonOptions`: the query options object, else the infinite options, else the
        script and `enabled` of a mutation options object. */
    function CommonOptionsOf(): Option<CommonOptions> {
      if api.useQuery.QueryWith? then Some(api.useQuery.options)
      else if api.useInfiniteQuery.Some? then Some(api.useInfiniteQuery.value.common)
      else if api.useMutation.MutationWith? then
        Some(CommonOptions(api.useMutation.options.defaultScript, api.useMutation.options.enabled, false, "", ""))
      else None
    }

    /** `getMutationOptions`. */
    function MutationOptionsOf(): Option<MutationOptions> {
      if api.useMutation.MutationWith? then Some(api.useMutation.options) else None
    }

    /** `getDefaultScriptStr`. */
    function DefaultScript(): string {
      if CommonOptionsOf().Some? then CommonOptionsOf().value.defaultScript else ""
    }

    predicate StrictParams() {
      CommonOptionsOf().Some? && CommonOptionsOf().value.strictParams
    }

    /** `getParamTypeStr`. */
    function ParamType(): TypeRef {
      if StrictParams() then Exact(types.paramTypeName) else PartialOf(types.paramTypeName)
    }

    /** `getParamFromBodyTypeStr`. */
    function ParamFromBodyType(): TypeRef {
      if StrictParams() then Exact(types.bodyTypeName) else PartialOf(types.bodyTypeName)
    }

    /** `invalidateQueryKey` of a mutation options object, "" when there is none. */
    function InvalidateQueryKey(): string {
      if MutationOptionsOf().Some? then MutationOptionsOf().value.invalidateQueryKey else ""
    }

    /** `getImportStr`: tested in the order plain query, infinite query, mutation. */
    function ImportsOf(): Imports {
      var from := "../../" + serviceClassName;
      if api.useQuery.IsSet() then
        Imports(["useQuery"], NonEmpty([types.paramTypeName, types.bodyTypeName, serviceInstanceName]), from)
      else if api.useInfiniteQuery.Some? then
        Imports(["useInfiniteQuery"], NonEmpty([types.paramTypeName, serviceInstanceName]), from)
      else if api.useMutation.IsSet() then
        Imports(["useMutation", if InvalidateQueryKey() != "" then "useQueryClient" else ""],
                NonEmpty([types.paramTypeName, types.bodyTypeName, serviceInstanceName]), from)
      else NoImports
    }

    /** `getQueryKeyStr`. */
    function QueryKeyOf(): QueryKey {
      var commonOption := CommonOptionsOf();
      if commonOption.Some? && commonOption.value.queryKey != "" then CustomKey(commonOption.value.queryKey)
      else if api.useQuery.IsSet() then
        NamedKey(api.name, (if types.paramExist then ["params"] else []) + (if types.bodyExist then ["body"] else []))
      else if api.useInfiniteQuery.Some? then
        PagedKey(api.name, types.paramTypeName, api.useInfiniteQuery.value.pageKey, types.paramExist)
      else NoKey
    }

    /** `getQueryFnStr`. */
    function QueryFn(): Fetcher {
      var commonOption := CommonOptionsOf();
      if commonOption.Some? && commonOption.value.queryFn != "" then CustomFn(commonOption.value.queryFn)
      else if api.useQuery.IsSet() then
        CallFn(serviceInstanceName, api.name,
               (if types.paramExist then [CastArg("params", types.paramTypeName)] else [])
               + (if types.bodyExist then [CastArg("body", types.bodyTypeName)] else []))
      else if api.useInfiniteQuery.Some? then
        PagedFn(serviceInstanceName, api.name, types.paramTypeName, api.useInfiniteQuery.value.pageKey)
      else if api.useMutation.IsSet() then MutationFn(serviceInstanceName, api.name, Signature(types))
      else NoFn
    }

    /** `getEnableStr`. */
    function EnabledOf(): Enabled {
      var commonOption := CommonOptionsOf();
      if commonOption.Some? && commonOption.value.enabled != "" then CustomEnabled(commonOption.value.enabled)
      else if !types.paramExist && !types.bodyExist then NoEnabled
      else if api.useQuery.IsSet() then
        if types.paramExist && !types.bodyExist then EveryKeySet([Parameter("params", types.paramTypeName)])
        else if !types.paramExist && types.bodyExist then EveryKeySet([Parameter("body", types.bodyTypeName)])
        else EveryKeySet([Parameter("params", types.paramTypeName), Parameter("body", types.bodyTypeName)])
      else if api.useInfiniteQuery.Some? then PagedEnabled(types.paramTypeName, api.useInfiniteQuery.value.pageKey)
      else NoEnabled
    }

    /** `getUseQueryCode`. */
    function UseQueryCode(): HookCode {
      QueryHook(ImportsOf(), DefaultScript(), FileName(),
                (if types.paramExist then [HookParam("params", ParamType())] else [])
                + (if types.bodyExist then [HookParam("body", ParamFromBodyType())] else []),
                QueryKeyOf(), QueryFn(), EnabledOf())
    }

    /** `getUseMutateCode`. */
    function UseMutateCode(): HookCode {
      MutationHook(ImportsOf(), DefaultScript(), FileName(), InvalidateQueryKey(), QueryFn())
    }

    /** `getUseInfiniteQueryCode`. */
    function UseInfiniteQueryCode(): HookCode
      requires api.useInfiniteQuery.Some?
    {
      var options := api.useInfiniteQuery.value;
      InfiniteHook(ImportsOf(), DefaultScript(), FileName(), options.initialPageParam,
                   if types.paramExist then Some(ParamType()) else None, options.pageKey,
                   QueryKeyOf(), QueryFn(), EnabledOf(), options.getNextPageParam, options.getPreviousPageParam)
    }

    /** `getCode`. */
    function GetCode(): HookCode {
      if api.useInfiniteQuery.Some? then UseInfiniteQueryCode()
      else if api.useMutation.IsSet() then UseMutateCode()
      else UseQueryCode()
    }
  }

  /** `new TanstackQueryGenerator(rg)`: the fields are copied from the request generator. */
  function Of(rg: RequestGenerator): (g: QueryGenerator)
    reads rg
    ensures g.api == rg.api && g.types == rg.types
    ensures g.serviceInstanceName == rg.serviceInstanceName && g.serviceClassName == rg.serviceClassName
  {
    QueryGenerator(rg.api, rg.types, rg.serviceInstanceName, rg.serviceClassName)
  }

  // =======================================================================================
  // Rendering
  // =======================================================================================

  function TypeRefText(r: TypeRef): string {
    match r
    case Exact(n) => n
    case PartialOf(n) => "Partial<" + n + ">"
  }

  function Names(ps: seq<Parameter>): seq<string> {
    if |ps| == 0 then [] else [ps[0].name] + Names(ps[1..])
  }

  function Casts(ps: seq<Parameter>): seq<CastArg> {
    if |ps| == 0 then [] else [CastArg(ps[0].name, ps[0].typeName)] + Casts(ps[1..])
  }

  function HookParams(ps: seq<HookParam>): seq<string> {
    if |ps| == 0 then [] else [ps[0].name] + HookParams(ps[1..])
  }

  function ImportsText(i: Imports): string {
    match i
    case NoImports => "undefined"
    case Imports(hooks, names, from) =>
      "import { " + Join(hooks, ", ") + " } from '@tanstack/react-query';\n"
      + "import { " + Join(names, ",") + " } from '" + from + "';"
  }

  function Serialised(objects: seq<string>): string {
    if |objects| == 0 then "" else ",JSON.stringify(" + objects[0] + ")" + Serialised(objects[1..])
  }

  /** The params object without its page key, as the infinite hook serialises and checks it. */
  function WithoutPageKey(paramTypeName: string, pageKey: string): string {
    "Object.keys(params).reduce((acc, key) => key !== '" + pageKey + "' ? {...acc, [key]: params[key as keyof Omit<"
    + paramTypeName + ", \"" + pageKey + "\">]} : acc, {})"
  }

  function QueryKeyText(k: QueryKey): string {
    match k
    case CustomKey(text) => text
    case NamedKey(name, objects) => "['" + name + "'" + Serialised(objects) + "]"
    case PagedKey(name, paramTypeName, pageKey, hasParams) =>
      "['" + name + "'," + (if hasParams then "JSON.stringify(" + WithoutPageKey(paramTypeName, pageKey) + ")" else "") + "]"
    case NoKey => "undefined"
  }

  function CastText(args: seq<CastArg>): string {
    if |args| == 0 then ""
    else if |args| == 1 then args[0].name + " as NonNullable<" + args[0].typeName + ">"
    else args[0].name + " as NonNullable<" + args[0].typeName + ">," + CastText(args[1..])
  }

  function FetcherText(f: Fetcher): string {
    match f
    case CustomFn(text) => text
    case CallFn(instance, apiName, args) => "() => " + instance + "." + apiName + "(" + CastText(args) + ")"
    case PagedFn(instance, apiName, paramTypeName, pageKey) =>
      "({pageParam}) => " + instance + "." + apiName + "({...(params as NonNullable<" + paramTypeName + ">),"
      + pageKey + ":pageParam})"
    case MutationFn(instance, apiName, ps) =>
      var names := Join(Names(ps), ",");
      "(" + (if names != "" then "{" + names + "} : {" + SignatureText(ps) + "}" else "") + ") => "
      + instance + "." + apiName + "(" + names + ")"
    case NoFn => "undefined"
  }

  function EveryKeyText(objects: seq<Parameter>): string {
    if |objects| == 0 then ""
    else
      var o := objects[0];
      var check := "Object.keys(" + o.name + ").every((key) => " + o.name + "[key as keyof " + o.typeName + "] != null )";
      if |objects| == 1 then check else check + " && " + EveryKeyText(objects[1..])
  }

  function EnabledText(e: Enabled): string {
    match e
    case CustomEnabled(text) => "enabled: " + text
    case NoEnabled => ""
    case EveryKeySet(objects) => "enabled: " + EveryKeyText(objects)
    case PagedEnabled(paramTypeName, pageKey) =>
      "enabled: Object.keys(params).every((key) => params[key as keyof Omit<" + paramTypeName + ", '" + pageKey
      + "'>] != null ),"
  }

  function HookParamsText(ps: seq<HookParam>): string {
    if |ps| == 0 then ""
    else if |ps| == 1 then ps[0].name + ": " + TypeRefText(ps[0].typeRef)
    else ps[0].name + ": " + TypeRefText(ps[0].typeRef) + "," + HookParamsText(ps[1..])
  }

  /** The hook file, with simplified whitespace. */
  function HookText(h: HookCode): string {
    var header := ImportsText(h.imports) + "\n" + h.defaultScript + "\n";
    var body :=
      match h
      case QueryHook(_, _, hookName, parameters, queryKey, queryFn, enabled) =>
        "const " + hookName + " = (" + HookParamsText(parameters) + ") => {\nreturn useQuery({\n"
        + "queryKey: " + QueryKeyText(queryKey) + ",\nqueryFn: " + FetcherText(queryFn) + ",\n"
        + EnabledText(enabled) + "\n});\n};\n"
      case InfiniteHook(_, _, hookName, initialPageParam, pagedParams, pageKey, queryKey, queryFn, enabled, next, previous) =>
        "const " + hookName + " = (initialPageParam = " + initialPageParam
        + (if pagedParams.Some? then ", params: Omit<" + TypeRefText(pagedParams.value) + ", '" + pageKey + "'>" else "")
        + ") => {\nreturn useInfiniteQuery({\n"
        + "queryKey: " + QueryKeyText(queryKey) + ",\nqueryFn: " + FetcherText(queryFn) + ",\n"
        + "initialPageParam: initialPageParam,\n" + EnabledText(enabled) + "\n"
        + (if next != "" then "getNextPageParam:" + next else "") + ",\n"
        + (if previous != "" then "getPreviousPageParam:" + previous else "") + "\n});\n};\n"
      case MutationHook(_, _, hookName, invalidateQueryKey, mutationFn) =>
        "const " + hookName + " = () => {\n"
        + (if invalidateQueryKey != "" then "const queryClient = useQueryClient()" else "") + "\n"
        + "return useMutation({\nmutationFn: " + FetcherText(mutationFn) + "\n"
        + (if invalidateQueryKey != "" then
             ",onSettled: () => { queryClient.invalidateQueries({ queryKey: " + invalidateQueryKey + " }) }"
           else "")
        + "\n});\n};\n";
    header + body + "export default " + h.hookName + ";"
  }

  // =======================================================================================
  // Properties
  // =======================================================================================

  /** The file-name prefix of each kind of hook. */
  function HookPrefix(v: Variant): string {
    match v
    case Query => "use"
    case InfiniteQuery => "useInfinite"
    case Mutation => "useMutate"
  }

  /** The file name announces the hook the file holds, except when an endpoint asks for both a
      mutation and an infinite query: the file is then named as a mutation but holds the
      infinite-query hook, because the two getters test the options in opposite orders. */
  lemma {:induction false} FileNameFollowsVariant(g: QueryGenerator)
    ensures g.FileName() == HookPrefix(g.CodeVariant()) + ToPascalCase(g.api.name)
            <==> !(g.api.useMutation.IsSet() && g.api.useInfiniteQuery.Some?)
  {
    if g.api.useMutation.IsSet() && g.api.useInfiniteQuery.Some? {
      var baseName := ToPascalCase(g.api.name);
      assert ("useMutate" + baseName)[3] == 'M';
      assert ("useInfinite" + baseName)[3] == 'I';
    }
  }

  /** Options that leave the key, the fetcher and `enabled` to the generator. */
  predicate NoOverrides(c: Option<CommonOptions>) {
    c.None? || (c.value.queryKey == "" && c.value.queryFn == "" && c.value.enabled == "")
  }

  /** A mutation's options never make the parameters strict and never replace the key or the
      fetcher: only a query or an infinite-query options object can. */
  lemma MutationOptionsCommon(g: QueryGenerator)
    requires !g.api.useQuery.QueryWith? && g.api.useInfiniteQuery.None?
    ensures !g.StrictParams()
    ensures g.ParamType() == PartialOf(g.types.paramTypeName)
    ensures g.ParamFromBodyType() == PartialOf(g.types.bodyTypeName)
    ensures !g.QueryKeyOf().CustomKey? && !g.QueryFn().CustomFn?
  {
  }

  /** The hook `getCode` emits is of the kind `CodeVariant` selects: an infinite query wins over
      a mutation, which wins over a plain query. */
  lemma GetCodeVariant(g: QueryGenerator)
    ensures g.GetCode().InfiniteHook? <==> g.CodeVariant() == InfiniteQuery
    ensures g.GetCode().MutationHook? <==> g.CodeVariant() == Mutation
    ensures g.GetCode().QueryHook? <==> g.CodeVariant() == Query
    ensures g.CodeVariant() == InfiniteQuery <==> g.api.useInfiniteQuery.Some?
    ensures g.CodeVariant() == Mutation <==> g.api.useInfiniteQuery.None? && g.api.useMutation.IsSet()
  {
  }

  /** An explicit `queryKey`, `queryFn` or `enabled` in the options replaces the generated one
      entirely and is emitted as written. */
  lemma OverridesVerbatim(g: QueryGenerator)
    requires g.CommonOptionsOf().Some?
    ensures g.CommonOptionsOf().value.queryKey != "" ==> g.QueryKeyOf() == CustomKey(g.CommonOptionsOf().value.queryKey)
    ensures g.CommonOptionsOf().value.queryFn != "" ==> g.QueryFn() == CustomFn(g.CommonOptionsOf().value.queryFn)
    ensures g.CommonOptionsOf().value.enabled != "" ==> g.EnabledOf() == CustomEnabled(g.CommonOptionsOf().value.enabled)
    ensures QueryKeyText(CustomKey(g.CommonOptionsOf().value.queryKey)) == g.CommonOptionsOf().value.queryKey
  {
  }

  /** Without an `enabled` override and with neither params nor body, no `enabled` is emitted;
      a plain query with params or a body checks every key of exactly the objects it has. */
  lemma EnabledCases(g: QueryGenerator)
    requires NoOverrides(g.CommonOptionsOf())
    ensures !g.types.paramExist && !g.types.bodyExist ==> g.EnabledOf() == NoEnabled
    ensures g.api.useQuery.IsSet() ==>
              g.EnabledOf() == if Signature(g.types) == [] then NoEnabled else EveryKeySet(Signature(g.types))
  {
  }

  /** A plain query hook without overrides is consistent with the service method it calls: its
      parameters, the objects serialised into its key, the arguments of its fetcher and the
      objects its `enabled` checks are all the service method's signature, in the same order;
      a parameter's type is the signature's type, wrapped in `Partial` unless strict. */
  lemma QueryHookCoherent(g: QueryGenerator)
    requires g.api.useInfiniteQuery.None? && !g.api.useMutation.IsSet() && g.api.useQuery.IsSet()
    requires NoOverrides(g.CommonOptionsOf())
    ensures g.GetCode().QueryHook?
    ensures HookParams(g.GetCode().parameters) == Names(Signature(g.types))
    ensures |g.GetCode().parameters| == |Signature(g.types)|
    ensures forall i :: 0 <= i < |g.GetCode().parameters| ==>
              g.GetCode().parameters[i].typeRef
              == (if g.StrictParams() then Exact(Signature(g.types)[i].typeName) else PartialOf(Signature(g.types)[i].typeName))
    ensures g.GetCode().queryKey == NamedKey(g.api.name, Names(Signature(g.types)))
    ensures g.GetCode().queryFn == CallFn(g.serviceInstanceName, g.api.name, Casts(Signature(g.types)))
    ensures g.GetCode().enabled == if Signature(g.types) == [] then NoEnabled else EveryKeySet(Signature(g.types))
  {
    var t := g.types;
    SignatureNames(t);
    SignatureCasts(t);
    QueryHookParams(g);
  }

  /** The names of the service method's parameters. */
  lemma SignatureNames(t: ApiType)
    ensures Names(Signature(t)) == (if t.paramExist then ["params"] else []) + (if t.bodyExist then ["body"] else [])
  {
    var s := Signature(t);
    if t.paramExist && t.bodyExist {
      assert s[1..] == [Parameter("body", t.bodyTypeName)];
      assert Names(s[1..]) == ["body"] by {
        assert s[1..][1..] == [];
      }
    } else if t.paramExist || t.bodyExist {
      assert s[1..] == [];
    }
  }

  lemma SignatureCasts(t: ApiType)
    ensures Casts(Signature(t)) == (if t.paramExist then [CastArg("params", t.paramTypeName)] else [])
                                   + (if t.bodyExist then [CastArg("body", t.bodyTypeName)] else [])
  {
    var s := Signature(t);
    if t.paramExist && t.bodyExist {
      assert s[1..] == [Parameter("body", t.bodyTypeName)];
      assert Casts(s[1..]) == [CastArg("body", t.bodyTypeName)] by {
        assert s[1..][1..] == [];
      }
    } else if t.paramExist || t.bodyExist {
      assert s[1..] == [];
    }
  }

  lemma QueryHookParams(g: QueryGenerator)
    requires g.api.useInfiniteQuery.None? && !g.api.useMutation.IsSet()
    ensures HookParams(g.GetCode().parameters)
            == (if g.types.paramExist then ["params"] else []) + (if g.types.bodyExist then ["body"] else [])
  {
    var ps := g.GetCode().parameters;
    if g.types.paramExist && g.types.bodyExist {
      assert ps[1..] == [HookParam("body", g.ParamFromBodyType())];
      assert HookParams(ps[1..]) == ["body"] by {
        assert ps[1..][1..] == [];
      }
    } else if g.types.paramExist || g.types.bodyExist {
      assert ps[1..] == [];
    }
  }

  /** An infinite-query hook without overrides uses one page key throughout: in its parameter
      type, its key, its fetcher and its `enabled`. */
  lemma InfiniteHookCoherent(g: QueryGenerator)
    requires g.api.useInfiniteQuery.Some? && !g.api.useQuery.IsSet()
    requires NoOverrides(g.CommonOptionsOf())
    ensures g.GetCode().InfiniteHook?
    ensures g.GetCode().pageKey == g.api.useInfiniteQuery.value.pageKey
    ensures g.GetCode().queryKey
            == PagedKey(g.api.name, g.types.paramTypeName, g.api.useInfiniteQuery.value.pageKey, g.types.paramExist)
    ensures g.GetCode().queryFn
            == PagedFn(g.serviceInstanceName, g.api.name, g.types.paramTypeName, g.api.useInfiniteQuery.value.pageKey)
    ensures g.types.paramExist ==>
              g.GetCode().enabled == PagedEnabled(g.types.paramTypeName, g.api.useInfiniteQuery.value.pageKey)
    ensures g.GetCode().pagedParams.Some? <==> g.types.paramExist
    ensures g.GetCode().imports.hooks == ["useInfiniteQuery"]
  {
  }

  /** A mutation hook imports `useQueryClient` exactly when it invalidates a key, and its
      fetcher takes and forwards the service method's signature. Without a key the import
      line keeps the template's separator: `import { useMutation,  } from …`. */
  lemma MutationHookCoherent(g: QueryGenerator)
    requires g.api.useInfiniteQuery.None? && g.api.useMutation.IsSet() && !g.api.useQuery.IsSet()
    ensures g.GetCode().MutationHook?
    ensures "useQueryClient" in g.GetCode().imports.hooks <==> g.GetCode().invalidateQueryKey != ""
    ensures "import { useMutation, " + (if g.GetCode().invalidateQueryKey != "" then "useQueryClient" else "")
            + " } from '@tanstack/react-query';\n" <= ImportsText(g.GetCode().imports)
    ensures g.GetCode().mutationFn == MutationFn(g.serviceInstanceName, g.api.name, Signature(g.types))
  {
    var code := g.GetCode();
    var second := if g.InvalidateQueryKey() != "" then "useQueryClient" else "";
    assert code.imports == Imports(["useMutation", second], code.imports.names, code.imports.from);
    if g.InvalidateQueryKey() == "" {
      assert "useMutation"[3] != "useQueryClient"[3];
    }
    hide *;
    MutationImportLine(second, code.imports.names, code.imports.from);
  }

  lemma MutationImportLine(second: string, names: seq<string>, from: string)
    ensures "import { useMutation, " + second + " } from '@tanstack/react-query';\n"
            <= ImportsText(Imports(["useMutation", second], names, from))
  {
    var hooks := ["useMutation", second];
    assert Join(hooks, ", ") == "useMutation, " + second by {
      assert hooks[1..] == [second];
    }
    hide Join;
    var head := "import { " + Join(hooks, ", ") + " } from '@tanstack/react-query';\n";
    var t := ImportsText(Imports(hooks, names, from));
    assert t[..|head|] == head;
    assert head == "import { useMutation, " + second + " } from '@tanstack/react-query';\n";
  }

  /** The mutation fetcher as the source writes it: the destructured argument names, their
      types, and the call forwarding them. */
  function MutationFnString(instance: string, apiName: string, t: ApiType): string {
    var argsString := ArgsString(t);
    var httpArgsString := JoinValid([if t.paramExist then "params" else "", if t.bodyExist then "body" else ""]);
    "(" + (if httpArgsString != "" then "{" + httpArgsString + "} : {" + argsString + "}" else "") + ") => "
    + instance + "." + apiName + "(" + httpArgsString + ")"
  }

  /** The structured mutation fetcher renders as the source's text. */
  lemma MutationFnText(instance: string, apiName: string, t: ApiType)
    ensures FetcherText(MutationFn(instance, apiName, Signature(t))) == MutationFnString(instance, apiName, t)
  {
    SignatureAgree(t);
    var a := if t.paramExist then "params" else "";
    var b := if t.bodyExist then "body" else "";
    JoinValidPair(a, b);
    SignatureNames(t);
    if t.paramExist && t.bodyExist {
      assert Join(["params", "body"], ",") == "params,body" by {
        assert ["params", "body"][1..] == ["body"];
      }
    }
  }
}
