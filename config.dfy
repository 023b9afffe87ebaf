/** The configuration the generators read: example values (JSON-like trees whose string
    leaves may carry tags), endpoint descriptions with their hook options, service options,
    and the per-endpoint type record the generators derive (`src/type.d.ts`,
    `src/typings/Api-hooks.ts`). */
module Config {
  import opened Wrappers

  // ---------------------------------------------------------------------------------------
  // Example values
  // ---------------------------------------------------------------------------------------

  /** A property key: an array index or a named property. */
  datatype Key = Index(i: nat) | Name(name: string)

  /** One own property of an object or array, in enumeration order. */
  datatype Slot = Slot(key: Key, v: Value)

  /** An example value. Objects and arrays are both `Obj`, a list of own properties: a fresh
      array holds `Index(0)`, `Index(1)`, … in order, and an array that lost an element has a
      hole where its index slot used to be. Numbers are integers. */
  datatype Value =
    | Null
    | Bool(b: bool)
    | Num(n: int)
    | Str(s: string)
    | Obj(isArray: bool, slots: seq<Slot>)

  /** A fresh array of the given items. */
  function Array(items: seq<Value>): (r: Value)
    ensures r.Obj? && r.isArray && |r.slots| == |items|
    ensures forall i :: 0 <= i < |items| ==> r.slots[i] == Slot(Index(i), items[i])
  {
    Obj(true, seq(|items|, i requires 0 <= i < |items| => Slot(Index(i), items[i])))
  }

  function DigitChar(d: nat): char
    requires d < 10
  {
    ['0', '1', '2', '3', '4', '5', '6', '7', '8', '9'][d]
  }

  /** The decimal text of a natural number, as `String(n)` writes it. */
  function NatToString(n: nat): (r: string)
    ensures |r| >= 1
    ensures forall i :: 0 <= i < |r| ==> '0' <= r[i] <= '9'
    ensures n < 10 ==> r == [DigitChar(n)]
  {
    if n < 10 then [DigitChar(n)] else NatToString(n / 10) + [DigitChar(n % 10)]
  }

  /** The property name as a string, as `Object.keys` lists it. */
  function KeyText(k: Key): string {
    match k
    case Index(i) => NatToString(i)
    case Name(n) => n
  }

  /** `typeof v`. */
  function TypeOf(v: Value): (r: string)
    ensures r in {"object", "boolean", "number", "string"}
  {
    match v
    case Null => "object"
    case Bool(_) => "boolean"
    case Num(_) => "number"
    case Str(_) => "string"
    case Obj(_, _) => "object"
  }

  /** `typeof v === "object"`, which holds for `null` too. */
  predicate IsObjectType(v: Value) {
    v.Null? || v.Obj?
  }

  /** JavaScript truthiness. */
  predicate Truthy(v: Value) {
    match v
    case Null => false
    case Bool(b) => b
    case Num(n) => n != 0
    case Str(s) => s != ""
    case Obj(_, _) => true
  }

  /** `example != null`: an absent example and a `null` one both count as missing. */
  predicate Exists(example: Option<Value>) {
    example.Some? && !example.value.Null?
  }

  /** `Object.keys(v)`, which throws on `undefined` and `null`, lists the indices of a string,
      and lists nothing for a number or a boolean. */
  function ObjectKeys(example: Option<Value>): (r: Result<seq<string>>)
    ensures r.Failure? <==> !Exists(example)
    ensures example.Some? && example.value.Obj? ==> r == Success(seq(|example.value.slots|,
              i requires 0 <= i < |example.value.slots| => KeyText(example.value.slots[i].key)))
  {
    match example
    case None => Failure(NotAnObject)
    case Some(v) =>
      match v
      case Null => Failure(NotAnObject)
      case Bool(_) => Success([])
      case Num(_) => Success([])
      case Str(s) => Success(seq(|s|, i requires 0 <= i < |s| => NatToString(i)))
      case Obj(_, slots) => Success(seq(|slots|, i requires 0 <= i < |slots| => KeyText(slots[i].key)))
  }

  // ---------------------------------------------------------------------------------------
  // Hook options. An option string that is absent is written "": every use of these strings
  // tests their truthiness, for which `undefined` and "" behave alike.
  // ---------------------------------------------------------------------------------------

  /** `CommonQueryHookOption`. */
  datatype CommonOptions = CommonOptions(
    defaultScript: string,
    enabled: string,
    strictParams: bool,
    queryKey: string,
    queryFn: string)

  const NoCommonOptions := CommonOptions("", "", false, "", "")

  /** `useQuery`: absent or `false`, `true`, or an options object. */
  datatype QueryOption = NoQuery | QueryDefaults | QueryWith(options: CommonOptions) {
    predicate IsSet() {
      !NoQuery?
    }
  }

  /** The mutation options object, with the fields both generators read:
      `invalidateQueryKey`, `mutationFn`, `defaultScript` and `enabled` for the hook generator,
      `invalidateKey` and `invalidateApiName` for the older service generator. */
  datatype MutationOptions = MutationOptions(
    invalidateQueryKey: string,
    mutationFn: string,
    defaultScript: string,
    enabled: string,
    invalidateKey: string,
    invalidateApiName: string)

  /** `useMutation`: absent or `false`, `true`, or an options object. */
  datatype MutationOption = NoMutation | MutationDefaults | MutationWith(options: MutationOptions) {
    predicate IsSet() {
      !NoMutation?
    }
  }

  /** The infinite-query options object; `initialPageParam` is kept as the text it is
      interpolated as, and `queryKey` is the one in `common`. */
  datatype InfiniteOptions = InfiniteOptions(
    pageKey: string,
    initialPageParam: string,
    getNextPageParam: string,
    getPreviousPageParam: string,
    defaultTopScript: string,
    common: CommonOptions)

  /** `ApiSpec`: one endpoint. */
  datatype ApiSpec = ApiSpec(
    httpMethod: string,
    name: string,
    path: string,
    response: Option<Value>,
    params: Option<Value>,
    body: Option<Value>,
    useQuery: QueryOption,
    useQueryStrictParams: bool,
    useMutation: MutationOption,
    useInfiniteQuery: Option<InfiniteOptions>)
  {
    /** The endpoint asks for at least one hook. */
    predicate HasHook() {
      useQuery.IsSet() || useInfiniteQuery.Some? || useMutation.IsSet()
    }
  }

  /** `ServiceOption`; `headers` is `None` when the configuration leaves it out. */
  datatype ServiceOption = ServiceOption(
    baseURL: string,
    headers: Option<seq<(string, string)>>,
    apis: seq<ApiSpec>,
    defaultTopScript: string)

  /** `ApiType`: the type names, the type texts and the existence flags of one endpoint. */
  datatype ApiType = ApiType(
    paramTypeName: string,
    paramType: string,
    responseTypeName: string,
    responseType: string,
    bodyTypeName: string,
    bodyType: string,
    bodyExist: bool,
    paramExist: bool,
    responseExist: bool,
    fullStr: string)
}
