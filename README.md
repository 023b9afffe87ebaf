# api-generator core, modelled in Dafny

`api-generator` reads a configuration of services. Each service has a base URL, headers and
a list of endpoints. Every endpoint carries example values for its params, body and response.
In those examples, string leaves may carry tags such as `<cookie>token</cookie>` or
`<raw>string|undefined</raw>`, and paths may carry `{id}` placeholders. From this the
generator emits TypeScript text:

- a service class, with a typed method per endpoint and an `HttpClient` field that sets the
  configured headers;
- a TanStack Query hook file per endpoint that asks for one.

This project models the string- and tree-transforming core of that pipeline. It also proves
what the generated text promises.

| module (file) | models |
|---|---|
| `Wrappers` (wrappers.dfy) | `Option` and `Result`; an exception thrown by the source is a `Failure` |
| `Text` (text.dfy) | string helpers: `indexOf`, the first-occurrence `replace`, `split`, `join`, and the "drop empty strings, comma-join" idiom |
| `Config` (config.dfy) | example values as JSON-like trees, endpoint and service options, the `ApiType` record, `typeof`, truthiness and `Object.keys` |
| `Utils` (utils.dfy) | `parseBracket` (the tag grammar `<(.+)>(.+)</\1>` with `exec`'s first-match rule), `toPascalCase`, `toCamelCase`, `removeApostrophe`, and the placeholder scanner `parseBlocks` |
| `TypeInference` (type_inference.dfy) | `toType`: the scalar and primitive-array branches, the tag-marking pass `markingBracket` and the optional-field pass `resolveMarking` around the foreign converter |
| `Requests` (request_generator.dfy) | `RequestGenerator`: type names and existence flags, the method signature, the forwarded arguments, path interpolation and the params/placeholder partition |
| `TanstackQuery` (tanstack_query.dfy) | `TanstackQueryGenerator`: variant selection, file name, options, imports, query key, fetcher, `enabled` and the three hook shapes |
| `ClientGenerator` (http_client_generator.dfy) | `HttpClientGenerator`: the header lines, with `cookie` tags turned into run-time lookups, and the client field |
| `Cookies` (http_client.dfy) | `HttpClient.parseCookie` and the lookup in `getFromCookie` |
| `Services` (service_generator.dfy) | `ServiceGenerator`: the memoising `typeCache`, the service methods (body before params, path not interpolated), the older hook files, and the ignore predicate of `buildService`/`buildQueryHooks` |

## How the source's form is kept

- **Classes with state.** `RequestGenerator` and `ServiceGenerator` are Dafny classes with the
  source's fields.
  - Their methods (`GenerateTypes`, `GenerateMethod`, `GenerateApiType`, `BuildTypes`,
    `BuildRequests`, ...) say in `modifies` what they change.
  - Each is proved equal to a specification function: `ApiTypes`, `RequestOf`,
    `CachedApiType` or `CacheRun`.
  - A constructor that can throw becomes a field-assigning constructor plus a `Create` method
    returning `Result`.
- **Loops.** The source's loops are methods with loop invariants:
  - `markingBracket`'s key loop, which deletes and re-appends keys in place
    (`TypeInference.MarkingBracket`);
  - `resolveMarking`'s loop over the markings;
  - the path-interpolation `forEach`;
  - the `apis.map` passes over the type cache;
  - the `generateQueryFiles` loop.
- **Pure getters.** `TanstackQueryGenerator`, `HttpClientGenerator`, `parseCookie` and the
  utilities become functions.
  - Emitted code is described by small datatypes, for example the forwarded arguments as a
    sequence of `Params | RestParams | Undefined | Null | Body`.
  - Lemmas tie the source's string-building form to the rendering of those datatypes.
- **Foreign calls become parameters.**
  - The `json-to-ts` converter is `jsonToTs: (Value, string) -> seq<string>`.
  - The `Math.random()` suffix of `markingBracket` is `suffix: nat -> string`, indexed by the
    number of markings made so far.
  - `JSON.parse(decodeURIComponent(·))` is a `Decoder` returning `None` where it throws.
  - `document.cookie` is a `cookie: string` argument.
  - `resolve(queryRootPath, ·)` is `pathOf`.
- **Behaviour kept as the code has it, even where the repository's own configuration runs
  into it:**
  - **A body without params.** `RequestGenerator` forwards `undefined,body`, keeping the
    params position. The generated golden files do the same.
  - **A service without `headers`.** `Object.entries(undefined)` throws, so construction
    fails (`ClientGenerator.HeaderCode`). The repository's `api.config.ts` declares such a
    service (`serviceB`).
  - **Tags other than `cookie` in headers.** `generateHeader` rejects them with
    `unsupported custom tag <kind>`. The repository's `api.config.ts` uses `localStorage`
    and `sessionStorage` tags (`serviceA`).
- **One place where the model departs from the code.** `resolveMarking`'s handling of an
  `undefined` alternative is modelled by its corrected rule; the code as written is modelled
  beside it and compared in "## Findings", and "## Left out" names the members this affects.
- **Quirks kept as written:**
  - The file name and the content of a hook file follow different precedences, in both hook
    generators.
  - `ServiceGenerator` and `TanstackQueryGenerator` name the same hook differently when an
    endpoint asks for a query and an infinite query.
  - The older hook files import `{ , inst }` when an endpoint has no params type.
  - `ServiceGenerator` forwards the body before the params.

## Model

| member | source | states |
|---|---|---|
| Utils.ParseBracket | src/utils.ts:15-26 | a reported tag has non-empty, single-line key and value, and its matched text is exactly `<key>value</key>` |
| Utils.ParseBracketNone | src/utils.ts:16-25 | `parseBracket` reports no tag exactly when the expression matches at no position; that case is the caught `TypeError` |
| Utils.FindTagIsFirst | src/utils.ts:17-18 | the scanner's match satisfies `exec`'s rule: leftmost start, then longest key, then longest value |
| Utils.FirstTagUnique | src/utils.ts:17-18 | at most one match satisfies that rule, so the rule alone determines the result |
| Utils.FindTagOfFirst | src/utils.ts:17-18 | any match satisfying the rule is the one the scanner returns |
| Utils.ParseBracketGreedyExample | src/utils.ts:17 | in `<raw>a</raw> <raw>b</raw>` the greedy groups take the value `a</raw> <raw>b` |
| Utils.MatchIsFirstOccurrence | src/utils.ts:17-19 | the first occurrence of the matched text is where the match starts, so a later `replace(matchStr, …)` rewrites the match itself |
| Utils.ReplaceMatch | src/utils.ts:17-19 | replacing the matched text swaps it for the replacement and keeps the text around it |
| Utils.TagAtText | src/utils.ts:17 | a match is the text of a tag whose two groups are its key and value, closing key equal to the opening one |
| Utils.TextTagAt | src/utils.ts:17 | conversely, any tag text with non-empty, single-line key and value is a match |
| Utils.StripSpaces | src/utils.ts:33 | `replace(/\s+/g, "")` leaves no white space and never lengthens the text |
| Utils.StripSpacesConcat | src/utils.ts:33 | the removal works character by character: the result for `a + b` is the result for `a` followed by the result for `b`, and one character is kept exactly when it is not white space, so the result is the non-space characters in their order |
| Utils.PascalCaseOnePass | src/utils.ts:36-42 | `toPascalCase`'s two replaces equal one left-to-right scan that upper-cases word starts and drops white space |
| Utils.PascalCaseIdempotent | src/utils.ts:36-42 | applying `toPascalCase` twice gives the same name as once |
| Utils.PascalCaseShape | src/utils.ts:36-42 | the result has no white space, is no longer than the input, and upper-cases a leading word character |
| Utils.CamelVersusPascal | src/utils.ts:28-42 | `toCamelCase` differs from `toPascalCase` only by lower-casing the character at offset 0, when that is a word character |
| Utils.IdentifierCasing | src/utils.ts:28-42 | on an identifier, `toPascalCase` upper-cases the first character, `toCamelCase` lower-cases it, and every other character is kept |
| Utils.CasingExamples | src/utils.ts:28-42 | `CemService` becomes `cemService`; `getTodos` becomes `GetTodos` |
| Utils.LineEnd | src/utils.ts:45 | the next line terminator from a position: `.` cannot cross it |
| Utils.LastIndexIn | src/utils.ts:45 | the last occurrence of the quote within a range, which is where the greedy `(.+)\1` backtracks to |
| Utils.SpanEnd | src/utils.ts:45 | where a quoted span starting at offset 0 ends: the longest span, or none |
| Utils.RemoveApostropheKeepsOthers | src/utils.ts:44-48 | `removeApostrophe` deletes only quote characters; every other character survives, in order |
| Utils.RemoveApostropheUnquotedPrefix | src/utils.ts:44-48 | text before the first quote is left untouched |
| Utils.RemoveApostropheNoQuotes | src/utils.ts:44-48 | a string without quotes is returned unchanged |
| Utils.RemoveApostropheSpan | src/utils.ts:44-48 | a single-line quoted span loses every copy of its quote, the delimiters included |
| Utils.RemoveApostropheAround | src/utils.ts:44-48 | around a match: a quote-free prefix is kept, the single-line quoted text loses its quote and every copy of it, and the scan resumes right after the closing quote |
| Utils.RemoveApostropheLoneQuote | src/utils.ts:44-48 | a quote with no partner later on its line is kept, and the scan goes on after it |
| Utils.SpanEndsAtClose | src/utils.ts:45 | the greedy `(.+)` ends at the last copy of the quote on the line, so the match closes at a quote followed by a quote-free rest of line |
| Utils.WordRun | src/generators/RequestGenerator.ts:58 | the run of `\w` characters a placeholder key consists of |
| Utils.ParseBlocks | src/generators/RequestGenerator.ts:58 | each block found is a `{key}` token of word characters that occurs in the path |
| TypeInference.OnlyStringsAreTags | src/generators/RequestGenerator.ts:162-164 | numbers and booleans never parse as tags |
| TypeInference.MarkingBracket | src/generators/RequestGenerator.ts:153-178 | the in-place key loop computes `MarkValue`, the recursive specification of marking |
| TypeInference.MarkingOutcome | src/generators/RequestGenerator.ts:153-178 | marking throws exactly when the example holds a nested `null` (from `Object.keys(null)`), and otherwise adds one marking per tagged leaf |
| TypeInference.MarkUntagged | src/generators/RequestGenerator.ts:153-178 | an example without tags and without `null` is passed on unchanged, with no markings |
| TypeInference.MarkingLayout | src/generators/RequestGenerator.ts:153-178 | marking an object keeps its untagged leaves and its nested objects in their places, each nested object replaced by its own marked value; each tagged leaf leaves its place and its placeholder `key_<suffix>: "string"` is appended, in visiting order; the markings, nested ones included, come in the order the walk makes them; the first failure inside a nested object is the result |
| TypeInference.UndefinedMakesOptional | src/generators/RequestGenerator.ts:194-201 | a key becomes optional exactly when its tag text contains `undefined` |
| TypeInference.UndefinedBetween | src/generators/RequestGenerator.ts:194-202 | in `A \| undefined \| B` the single match is `\| undefined \|` |
| TypeInference.UndefinedBetweenBars | src/generators/RequestGenerator.ts:194-202 | in `A\|undefined\|B` the single match is `\|undefined\|` |
| TypeInference.UndefinedAfterBar | src/generators/RequestGenerator.ts:194-202 | in `A\|undefined` the single match is `\|undefined` |
| TypeInference.AsWrittenSpacedLosesBar | src/generators/RequestGenerator.ts:194-202 | as written, `A \| undefined \| B` becomes `A  B`: the separator is lost |
| TypeInference.AsWrittenSpacedExample | src/generators/RequestGenerator.ts:194-202 | `string \| undefined \| number` becomes `string  number` as written, and `string \| number` as intended |
| TypeInference.StripUndefinedSpaced | src/generators/RequestGenerator.ts:188-202 | the corrected rule turns `A \| undefined \| B` into `A \| B`, keeping one bar |
| TypeInference.StripUndefinedBetweenBars | src/generators/RequestGenerator.ts:194-202 | `A\|undefined\|B` becomes `A\|B`, both as written and corrected |
| TypeInference.StripUndefinedTrailing | src/generators/RequestGenerator.ts:194-202 | `A\|undefined` becomes `A`, both as written and corrected |
| TypeInference.PlaceholderRewritten | src/generators/RequestGenerator.ts:204-205 | the global `new RegExp(tk + ":\\s?string")` replace rewrites the placeholder `tk: string` and nothing else |
| TypeInference.ResolveMarking | src/generators/RequestGenerator.ts:179-208 | the loop over the markings computes `Resolve`, which applies them in order (with the corrected `undefined` rule, see "## Left out") |
| TypeInference.ResolvePlaceholder | src/generators/RequestGenerator.ts:186-206 | a single placeholder line is replaced by the marking's declaration, with the surrounding text kept (the declaration uses the corrected `undefined` rule) |
| TypeInference.DeclarationRequired | src/generators/RequestGenerator.ts:204-205 | a tag text without `undefined` gives `key:text` |
| TypeInference.DeclarationOptional | src/generators/RequestGenerator.ts:194-205 | `T\|undefined` gives `key?:T` |
| TypeInference.FirstIndex | src/generators/RequestGenerator.ts:221 | `indexOf`: the first position holding the item |
| TypeInference.Dedup | src/generators/RequestGenerator.ts:219-222 | the `indexOf` filter keeps each item exactly once, in the order of first occurrence |
| TypeInference.ToType | src/generators/RequestGenerator.ts:138-247 | the method computes `TypeText`, the specification of `toType` (markings resolved with the corrected `undefined` rule) |
| TypeInference.ScalarAlias | src/generators/RequestGenerator.ts:143-146 | a truthy scalar becomes `export type N = <tag text or typeof>;` |
| TypeInference.TypeFailsOnNull | src/generators/RequestGenerator.ts:138-247 | `toType` throws exactly when the example holds a nested `null` |
| TypeInference.UntaggedObject | src/generators/RequestGenerator.ts:241-246 | an untagged object gives the converter's lines, each prefixed with `export`, unchanged |
| TypeInference.ObjectType | src/generators/RequestGenerator.ts:209-246 | an object is marked, converted, exported and then resolved with its markings (by the corrected `undefined` rule) |
| TypeInference.ScalarArray | src/generators/RequestGenerator.ts:214-225 | an array of untagged scalars gives `(t1\|…\|tn)[]` over their distinct `typeof`s, in first-appearance order |
| TypeInference.PrimitiveArrayType | src/generators/RequestGenerator.ts:214-225 | the primitive-array branch, for any array whose items are all scalars and unmarked |
| TypeInference.TaggedField | src/generators/RequestGenerator.ts:153-206 | a tagged field ends up declared by its tag text: `key_<suffix>: string` is rewritten to `key:T` or `key?:T` (`T` by the corrected `undefined` rule) |
| Requests.InterpolatePath | src/generators/RequestGenerator.ts:67-70 | the `forEach` loop computes `ReplaceBlocks`: each block in turn replaces the first occurrence of its token |
| Requests.InterpolationByTokens | src/generators/RequestGenerator.ts:58-70 | replacing each extracted block once, left to right, rewrites every `{key}` to `${params.key}` where it stands |
| Requests.NoPlaceholderUnchanged | src/generators/RequestGenerator.ts:87-91 | a path without placeholders is kept as written |
| Requests.ApiTypesOutcome | src/generators/RequestGenerator.ts:94-136 | type generation throws exactly when an example that exists holds a nested `null` |
| Requests.ApiTypesRecord | src/generators/RequestGenerator.ts:94-136 | each flag is `example != null`; a name is `T<Pascal><Params/Response/Body>` exactly when its example exists, and its text is that example's type |
| Requests.ForwardedText | src/generators/RequestGenerator.ts:46-56 | the `httpArgsString` built by the source is the text of the structured argument list |
| Requests.ForwardedPositions | src/generators/RequestGenerator.ts:37-56 | `params` comes first when present; `body` comes when it exists and the verb takes one, or when there are no params (giving `undefined,body`); `null` fills a missing body for a verb that takes one |
| Requests.PathArgsShape | src/generators/RequestGenerator.ts:72-86 | with placeholders, `params` becomes `_params` if other keys remain and `undefined` otherwise; a lone `undefined` is dropped and the other arguments are kept |
| Requests.PathTailText | src/generators/RequestGenerator.ts:72-86 | the source's string replacements produce the text of those path arguments |
| Requests.SignatureAgree | src/generators/RequestGenerator.ts:40-44 | the signature is `params:P` then `body:B`, each only if present and whatever the verb |
| Requests.BlockKeys | src/generators/RequestGenerator.ts:61 | the placeholder keys, in path order |
| Requests.RestKeys | src/generators/RequestGenerator.ts:61-65 | `filteredParamKeys` holds exactly the params keys that name no placeholder |
| Requests.RestKeysConcat | src/generators/RequestGenerator.ts:61-65 | the filter works key by key: the rest keys of `a + b` are those of `a` followed by those of `b`, and one key is kept exactly when no placeholder names it, so `filteredParamKeys` keeps the params' key order |
| Requests.RequestFailure | src/generators/RequestGenerator.ts:58-62 | generating the method throws exactly when the path has placeholders and no params exist |
| Requests.RequestPath | src/generators/RequestGenerator.ts:58-91 | the generated call uses the interpolated path, which is the path itself when it has no placeholders |
| Requests.RequestArgs | src/generators/RequestGenerator.ts:37-91 | `params` is forwarded only without placeholders; the rest object is forwarded exactly when rest keys exist, and then first; the rest keys are params keys that no placeholder uses |
| Requests.RenderedWithBlocks | src/generators/RequestGenerator.ts:58-86 | the text the source assembles with placeholders renders the method `RequestOf` describes |
| Requests.RenderedWithoutBlocks | src/generators/RequestGenerator.ts:87-91 | the same without placeholders |
| Requests.RequestGenerator.constructor | src/generators/RequestGenerator.ts:12-22 | the fields are assigned; `types` and `code` start empty |
| Requests.RequestGenerator.GenerateTypes | src/generators/RequestGenerator.ts:94-136 | returns `ApiTypes` and stores it in `types` on success; nothing else changes |
| Requests.RequestGenerator.GenerateMethod | src/generators/RequestGenerator.ts:28-92 | succeeds exactly when `RequestOf` does; `code` becomes its rendering, and a failure leaves `code` as it was |
| Requests.Create | src/generators/RequestGenerator.ts:12-22 | construction succeeds exactly when the types and the method can be generated, with the fields set to their results |
| TanstackQuery.Of | src/generators/TanstackQueryGenerator.ts:16-24 | the generator copies the request generator's endpoint, types and names |
| TanstackQuery.GetCodeVariant | src/generators/TanstackQueryGenerator.ts:26-30 | the emitted hook follows infinite query > mutation > plain query |
| TanstackQuery.FileNameFollowsVariant | src/generators/TanstackQueryGenerator.ts:26-37 | the file name announces the hook it holds, except when both a mutation and an infinite query are asked for |
| TanstackQuery.OverridesVerbatim | src/generators/TanstackQueryGenerator.ts:118-190 | an explicit `queryKey`, `queryFn` or `enabled` replaces the generated one and is emitted as written |
| TanstackQuery.EnabledCases | src/generators/TanstackQueryGenerator.ts:164-190 | with no params and no body there is no `enabled`; a plain query checks every key of exactly the objects it has |
| TanstackQuery.MutationOptionsCommon | src/generators/TanstackQueryGenerator.ts:39-87 | mutation options never make the parameters strict and never replace the key or the fetcher; types stay `Partial<…>` |
| TanstackQuery.QueryHookCoherent | src/generators/TanstackQueryGenerator.ts:118-207 | without overrides, a query hook's parameters, key, fetcher arguments and `enabled` objects are all the service signature, in order, with `Partial` unless strict |
| TanstackQuery.SignatureNames | src/generators/TanstackQueryGenerator.ts:118-126 | the default key serialises `params` then `body`, each only if it exists |
| TanstackQuery.SignatureCasts | src/generators/TanstackQueryGenerator.ts:135-146 | the default fetcher forwards `params` then `body`, each cast to its type |
| TanstackQuery.QueryHookParams | src/generators/TanstackQueryGenerator.ts:192-207 | a query hook takes `params` then `body`, each only if it exists |
| TanstackQuery.InfiniteHookCoherent | src/generators/TanstackQueryGenerator.ts:228-254 | an infinite hook uses one page key throughout: the key strips it, the fetcher sets it from `pageParam`, and `enabled` omits it |
| TanstackQuery.MutationHookCoherent | src/generators/TanstackQueryGenerator.ts:209-226 | a mutation hook imports `useQueryClient` exactly when it invalidates a key, and without one the import line keeps the template's `useMutation, ` with nothing after it; its fetcher takes and forwards the signature |
| TanstackQuery.MutationFnText | src/generators/TanstackQueryGenerator.ts:152-161 | the mutation fetcher destructures the existing `{params, body}` and forwards them in that order, and is `() => inst.name()` with neither |
| ClientGenerator.GenerateHeaderOutcome | src/generators/HttpClientGenerator.ts:30-42 | a header fails exactly when its value carries a tag other than `cookie`, naming the tag; an untagged value is quoted verbatim |
| ClientGenerator.CookieHeader | src/generators/HttpClientGenerator.ts:36-38 | a `cookie` tag is replaced by `${HttpClient.getFromCookie("name")}`, with the surrounding text kept |
| ClientGenerator.HeaderLinesSucceed | src/generators/HttpClientGenerator.ts:24-25 | the header lines exist exactly when every header succeeds |
| ClientGenerator.HeaderLinesInOrder | src/generators/HttpClientGenerator.ts:24-25 | the lines are the headers' lines in entry order |
| ClientGenerator.HeaderLinesFirstError | src/generators/HttpClientGenerator.ts:24-25 | a failure carries the error of the first failing header |
| ClientGenerator.HeaderCodeSplits | src/generators/HttpClientGenerator.ts:22-28 | the code splits at `;` back into the lines followed by the empty trailing piece |
| ClientGenerator.NoHeaders | src/generators/HttpClientGenerator.ts:22-28 | an empty header map gives a lone `;` |
| ClientGenerator.GetCodeOutcome | src/generators/HttpClientGenerator.ts:10-28 | the client code exists exactly when the service lists headers and every one is supported |
| ClientGenerator.GetCodeBaseURL | src/generators/HttpClientGenerator.ts:13 | the base URL appears verbatim in double quotes, without tag processing |
| Cookies.EntryKey | src/HttpClient.ts:32 | a key never contains `=` |
| Cookies.EntryWithoutValue | src/HttpClient.ts:32-38 | an entry without `=` has an undefined value |
| Cookies.EntryKeyValue | src/HttpClient.ts:32-38 | `key=value` gives the key and the value, decoded when decoding succeeds and raw otherwise |
| Cookies.EntryDropsAfterSecondEquals | src/HttpClient.ts:32 | text after a second `=` is discarded |
| Cookies.FromEntriesKeys | src/HttpClient.ts:29 | a key is in the map exactly when some entry has it |
| Cookies.LaterEntryWins | src/HttpClient.ts:29 | for duplicate keys, the last entry's value wins |
| Cookies.EntriesRoundTrip | src/HttpClient.ts:28-41 | parsing a cookie string built from plain pairs joined by `; ` returns the pairs in order, with their values decoded |
| Cookies.GetFromCookieRoundTrip | src/HttpClient.ts:43-47 | a lookup gives the decoded value of the key's last pair, or undefined when no pair has the key |
| Services.ServiceArgsText | src/generators/ServiceGenerator.ts:389-395 | the service's `httpArgsString` is the text of its argument list: the body (or `null`) for a verb that takes one, then `params` |
| Services.ArgumentOrder | src/generators/ServiceGenerator.ts:389-395 | against `RequestGenerator`: with params and a body verb the order is reversed; with a body but no params, the `undefined` slot is omitted; otherwise the lists agree |
| Services.GenerateRequestText | src/generators/ServiceGenerator.ts:371-398 | the method text calls the client with the quoted, uninterpolated path and `responseTypeName \|\| "any"` |
| Services.CacheRunTypes | src/generators/ServiceGenerator.ts:213-261 | from an empty cache, every endpoint gets the record computed for the first endpoint with its name; later namesakes silently reuse it |
| Services.CacheRunOutcome | src/generators/ServiceGenerator.ts:213-261 | the run succeeds exactly when the computation succeeds for the first endpoint of each name |
| Services.TypesOfError | src/generators/ServiceGenerator.ts:213-261 | type computation fails only with the `Object.keys(null)` error |
| Services.CacheRunPrefixFails | src/generators/ServiceGenerator.ts:25-32 | once a prefix fails, the whole `map` pass fails with that error |
| Services.CacheRunCached | src/generators/ServiceGenerator.ts:214-216 | over a cache that already holds every name, nothing is computed and the cached records are returned |
| Services.CacheRunExtend | src/generators/ServiceGenerator.ts:25-32 | a successful prefix run extends by the next endpoint's record |
| Services.CacheRunStops | src/generators/ServiceGenerator.ts:25-32 | the first failing endpoint ends the run with its error |
| Services.Hooked | src/generators/ServiceGenerator.ts:51 | the hooked endpoints are exactly those asking for a hook, in order |
| Services.ServiceGenerator.constructor | src/generators/ServiceGenerator.ts:18-22 | the class name is `name+"Service"`, the file name is that plus `.ts`, and the cache starts empty |
| Services.ServiceGenerator.GenerateApiType | src/generators/ServiceGenerator.ts:213-261 | returns the cached record when there is one; otherwise it computes the record and caches it under the endpoint's name |
| Services.ServiceGenerator.GenerateRequest | src/generators/ServiceGenerator.ts:371-398 | the method text for the endpoint's record, which is cached as a side effect |
| Services.ServiceGenerator.BuildTypes | src/generators/ServiceGenerator.ts:25-28 | the types are the records' `fullStr`s, in config order, joined by newlines; the cache is the run's |
| Services.ServiceGenerator.BuildRequests | src/generators/ServiceGenerator.ts:29-31 | the requests are the method texts, in config order, joined by newlines |
| Services.ServiceGenerator.GenerateQueryFiles | src/generators/ServiceGenerator.ts:48-159 | the loop computes `QueryFiles` |
| Services.ServiceGenerator.BuildQueryHooks | src/generators/ServiceGenerator.ts:177-196 | the (path, text) pairs written are those of the hook files whose paths are not ignored |
| Services.Create | src/generators/ServiceGenerator.ts:18-33 | construction succeeds exactly when the client code and the type run succeed; the fields hold their results, in config order |
| Services.QueryFilesOutcome | src/generators/ServiceGenerator.ts:48-52 | the hook files exist exactly when every hooked endpoint's name is cached |
| Services.QueryFilesInOrder | src/generators/ServiceGenerator.ts:48-159 | there is one file per hooked endpoint, in order, built from the record cached under its name |
| Services.QueryFilesAfterRun | src/generators/ServiceGenerator.ts:48-52 | after construction's type run, the hook files can always be built |
| Services.HookFileKinds | src/generators/ServiceGenerator.ts:53-155 | the content follows query > infinite > mutation; the name follows mutation first |
| Services.MutationInvalidation | src/generators/ServiceGenerator.ts:123-149 | a mutation invalidates a key exactly when its options name one; `invalidateApiName` wins and gives `['name']` |
| Services.FileNamesAgree | src/generators/ServiceGenerator.ts:53-57 | the two generators name a hook file alike, except for a query plus an infinite query without a mutation |
| Services.EmptyImportSpecifier | src/generators/ServiceGenerator.ts:64-67 | a query hook filters out an empty params type name, but the other two keep it, leaving `, inst` |
| Services.ImportsMatchExport | src/generators/ServiceGenerator.ts:35-46 | every hook file imports the instance name that the service file exports |
| Services.GetCodeExportsInstance | src/generators/ServiceGenerator.ts:35-46 | the service file ends with `export const <camel class> = new <class>();` |
| Services.IgnoredIff | src/generators/ServiceGenerator.ts:168-170 | a path is ignored exactly when it contains one of the patterns |
| Services.EmptyPatternIgnoresAll | src/generators/ServiceGenerator.ts:168-170 | an empty pattern ignores every path |
| Services.ServiceFileWritten | src/generators/ServiceGenerator.ts:162-175 | the service file is written, with its code, exactly when its path contains no pattern |
| Services.HooksToWriteMembers | src/generators/ServiceGenerator.ts:177-196 | the pairs written are exactly the non-ignored files, paired with their texts |
| Services.HeaderAgreement | src/generators/ServiceGenerator.ts:198-211 | the service's own `generateHeader` matches the client generator's except for the text of its error |
| Text.JoinSplit | src/HttpClient.ts:30 | joining the pieces of a split by the separator gives the input back |
| Text.SplitJoin | src/HttpClient.ts:30 | splitting the join of pieces gives the pieces back, when no piece (with the separator's first characters appended, so the separator cannot straddle a boundary) contains the separator |
| Text.JoinValidPair | src/generators/RequestGenerator.ts:42-44 | filtering out empty strings and comma-joining two strings gives the expected text for each combination |
| Text.ReplaceFirstAt | src/generators/RequestGenerator.ts:69 | `replace` with a string pattern rewrites only the first occurrence |

## Left out

- Regular expressions in general. Each pattern the core uses has its own scanner:
  - the tag expression;
  - the word-start expression of the casing helpers;
  - the quote-span expression;
  - the `undefined` expression;
  - the placeholder-key expression.
- `parseBlocks` is not part of this model. It is assumed to return `{key, matchStr}` for each
  `/\{(\w+)\}/` token, left to right (`Utils.ParseBlocks`).
- `joinValidString` is not part of this model. It is assumed to drop empty strings and
  comma-join (`Text.JoinValid`), like the inline filter at RequestGenerator.ts:42-44.
- The `json-to-ts` converter is a parameter. Its output is taken as given, and lemmas that
  need placeholder lines state them as preconditions.
- Nondeterminism and I/O become parameters:
  - the `Math.random()` suffix;
  - `decodeURIComponent`/`JSON.parse`;
  - `document.cookie`;
  - `resolve`.
- Not modelled at all:
  - prettier formatting;
  - the file-system writes of `buildService`/`buildQueryHooks` (only which files would be
    written, and with what, is modelled);
  - the axios-based `HttpClient` methods;
  - `createDir`/`writeFile`;
  - `src/build.ts`.
- Exact whitespace and line layout of the emitted templates. The rendering functions use
  simplified whitespace, since prettier reformats the output.
- Numbers are integers. Floating-point examples and `String(x)` of non-integers are not
  modelled.
- Keys are enumerated in the order they are stored. JavaScript's rule that integer-like keys
  come first is not modelled; an array's keys are its indices in order.
- Inherited prototype keys are not modelled. A name such as `constructor` used as a
  `typeCache` key or a cookie key behaves as an ordinary key here.
- `JSON.parse(JSON.stringify(obj))` is taken as the identity on example trees. `toType` is
  only called on examples that exist.
- TypeInference.PlaceholderRewritten: the key is matched as plain text, so a `targetKey` with
  regular-expression metacharacters is not modelled. A `targetKey` is the example's property
  name, `_` and a random base-36 suffix (possibly empty); property names such as
  `content-type`, `a.b` or `$ref` contain metacharacters. Such keys are rare in examples, and
  the converter quotes a key that is not an identifier.
- TypeInference.ResolveMarking: the `undefined` alternative is removed by the corrected rule
  (`StripUndefined`: a match enclosed in bars leaves one bar, any other match leaves
  nothing), not by the code's rule at src/generators/RequestGenerator.ts:197-200 (every match
  becomes `|` when the first match is exactly `|undefined|`, and nothing otherwise). The two
  agree on `T|undefined`, `undefined|T`, `A|undefined|B` and a lone `undefined`; they differ
  on spaced or repeated alternatives such as `A | undefined | B` (the code gives `A  B`),
  `A|undefined|B|undefined` (the code gives `A|B|`) and `undefined|A|undefined|B` (the code
  gives `AB`). The code's rule is `StripUndefinedAsWritten`; see "## Findings".
- TypeInference.ResolvePlaceholder: the declaration it writes is `Declaration`, which uses the
  corrected `undefined` rule, so it differs from the code on the inputs listed under
  `TypeInference.ResolveMarking`.
- TypeInference.ToType: the type texts it computes resolve tagged fields with the corrected
  `undefined` rule, and so do `Requests.ApiTypes`, `GenerateTypes`, `GenerateApiType`,
  `BuildTypes` and both `Create` methods that use them.
- TypeInference.ObjectType: ends in `Resolve`, which uses the corrected `undefined` rule.
- TypeInference.TaggedField: the field's declaration uses the corrected `undefined` rule.
- ClientGenerator.CookieHeader: the replacement text is inserted literally. JavaScript's
  `String.prototype.replace` expands `$$`, `$&`, `` $` `` and `$'` in it, so a cookie name
  containing `$` (for example `a$$b`, which the code turns into `getFromCookie("a$b")`) is
  not modelled.
- TypeInference.Resolve: the replacement `${originKey}:${value}` is inserted literally; a tag
  text containing `$$`, `$&`, `` $` `` or `$'` is expanded by JavaScript and not by the model.
  Path interpolation is not affected: its replacement `${params.k}` holds no such pattern.
- Services: `#toType` duplicates `RequestGenerator.toType` verbatim, so both use
  `TypeInference.TypeText`.
- The `generateQueryFiles` output of a hooked endpoint whose cached record lacks a field is
  only modelled as the `TypeError` of a missing record.
- `removeApostrophe` is modelled, but no generator calls it.
- Text.ToLowerCase: only ASCII letters are lowered. `toLowerCase` on `httpMethod` also maps
  other Unicode upper-case letters, including ones whose lower case has a different length;
  HTTP verbs are ASCII, so this is not modelled.

## Findings

| source | as written | input that shows it | evidently intended | confidence | as-written member | corrected member |
|---|---|---|---|---|---|---|
| src/generators/RequestGenerator.ts:194-202 (same code at src/generators/ServiceGenerator.ts:316-324) | every match of `/\|?\s?undefined\s?\|?/g` is replaced by `\|` only when the FIRST match is the literal `\|undefined\|`, otherwise by the empty string | a tag `<raw>string \| undefined \| number</raw>`, the "A \| undefined \| B" case listed in the code's own comment | `string \| number` (one bar kept between the remaining alternatives); the code yields `string  number`, which is not a type | not executed | TypeInference.AsWrittenSpacedLosesBar | TypeInference.StripUndefinedSpaced |
