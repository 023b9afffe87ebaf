/** `RequestGenerator`: the types and the client method of one endpoint — type names and
    existence flags, the method signature, the arguments forwarded to the HTTP client, and the
    path with its `{key}` placeholders interpolated from `params`. */
module Requests {
  import opened Wrappers
  import opened Text
  import opened Utils
  import opened Config
  import opened TypeInference

  // =======================================================================================
  // Path interpolation
  // =======================================================================================

  /** The text a placeholder `{key}` becomes: `${params.key}`. */
  function ParamRef(key: string): string {
    "${params." + key + "}"
  }

  /** A non-empty run of word characters, the key of a placeholder. */
  predicate IsKey(k: string) {
    |k| >= 1 && forall i :: 0 <= i < |k| ==> IsWordChar(k[i])
  }

  /** A placeholder `{k}` starts at `i` in `t`. */
  predicate KeyTokenAt(t: string, i: nat, k: string) {
    IsKey(k) && OccursAt(t, "{" + k + "}", i)
  }

  /** `s` starts with a placeholder, as `parseBlocks` recognises one. */
  predicate TokenAtStart(s: string) {
    |s| > 0 && s[0] == '{' && WordRun(s, 1) >= 1 && 1 + WordRun(s, 1) < |s| && s[1 + WordRun(s, 1)] == '}'
  }

  /** The path with each placeholder, left to right, replaced by its `${params.key}`. */
  function Interpolated(s: string): string
    decreases |s|
  {
    if |s| == 0 then ""
    else if TokenAtStart(s) then
      var n := WordRun(s, 1);
      ParamRef(s[1..1 + n]) + Interpolated(s[n + 2..])
    else [s[0]] + Interpolated(s[1..])
  }

  /** `pathParams.forEach(... parsedPath = parsedPath.replace(matchStr, ...))`: each block in
      turn replaces the first occurrence of its token. */
  function ReplaceBlocks(t: string, blocks: seq<Block>): string
    decreases |blocks|
  {
    if |blocks| == 0 then t
    else ReplaceBlocks(ReplaceFirst(t, blocks[0].matchStr, ParamRef(blocks[0].key)), blocks[1..])
  }

  /** The interpolation loop of `generateMethod`. */
  method InterpolatePath(path: string, pathParams: seq<Block>) returns (parsedPath: string)
    ensures parsedPath == ReplaceBlocks(path, pathParams)
  {
    parsedPath := path;
    var i := 0;
    while i < |pathParams|
      invariant 0 <= i <= |pathParams|
      invariant ReplaceBlocks(parsedPath, pathParams[i..]) == ReplaceBlocks(path, pathParams)
    {
      var param := pathParams[i];
      assert pathParams[i..][1..] == pathParams[i + 1..];
      parsedPath := ReplaceFirst(parsedPath, param.matchStr, ParamRef(param.key));
      i := i + 1;
    }
  }

  /** Replacing the extracted tokens one by one, each at its first occurrence, rewrites exactly
      the placeholders `parseBlocks` found: no token can start inside the part already
      rewritten. */
  lemma InterpolationByTokens(path: string)
    ensures ReplaceBlocks(path, ParseBlocks(path)) == Interpolated(path)
  {
    var done: string := [];
    hide *;
    ReplaceTokens(done, path);
    assert done + path == path && done + Interpolated(path) == Interpolated(path);
  }

  lemma {:induction false} ReplaceTokens(done: string, s: string)
    requires forall i: nat, k: string :: i < |done| ==> !KeyTokenAt(done + s, i, k)
    ensures ReplaceBlocks(done + s, ParseBlocks(s)) == done + Interpolated(s)
    decreases |s|
  {
    if |s| == 0 {
      assert done + s == done + Interpolated(s);
    } else if TokenAtStart(s) {
      var key := s[1..1 + WordRun(s, 1)];
      var rest := s[|key| + 2..];
      TokenStep(done, s, key, rest);
      NoTokenInsideRef(done, s, key, rest);
      ReplaceTokens(done + ParamRef(key), rest);
      Associative(done, ParamRef(key), Interpolated(rest));
    } else {
      SkipStep(done, s);
      NoTokenAtNonToken(done, s);
      ReplaceTokens(done + [s[0]], s[1..]);
      Associative(done, [s[0]], Interpolated(s[1..]));
    }
  }

  lemma Associative(a: string, b: string, c: string)
    ensures a + b + c == a + (b + c)
  {
  }

  /** A character that starts no token is kept, and the tokens are those of the rest. */
  lemma SkipStep(done: string, s: string)
    requires |s| > 0 && !TokenAtStart(s)
    ensures done + s == (done + [s[0]]) + s[1..]
    ensures ParseBlocks(s) == ParseBlocks(s[1..])
    ensures Interpolated(s) == [s[0]] + Interpolated(s[1..])
  {
    assert done + s == (done + [s[0]]) + s[1..] by {
      assert s == [s[0]] + s[1..];
    }
    SkipBlocks(s);
    SkipInterpolated(s);
  }

  lemma SkipBlocks(s: string)
    requires |s| > 0 && !TokenAtStart(s)
    ensures ParseBlocks(s) == ParseBlocks(s[1..])
  {
    assert ParseBlocks(s) == ParseBlocksRest(s, 1);
  }

  lemma SkipInterpolated(s: string)
    requires |s| > 0 && !TokenAtStart(s)
    ensures Interpolated(s) == [s[0]] + Interpolated(s[1..])
  {
  }

  /** The token at the start of `s` is the first block, and it is rewritten where it stands. */
  lemma TokenStep(done: string, s: string, key: string, rest: string)
    requires TokenAtStart(s) && key == s[1..1 + WordRun(s, 1)] && rest == s[|key| + 2..]
    requires forall i: nat, k: string :: i < |done| ==> !KeyTokenAt(done + s, i, k)
    ensures s == "{" + key + "}" + rest && IsKey(key)
    ensures ReplaceBlocks(done + s, ParseBlocks(s)) == ReplaceBlocks(done + ParamRef(key) + rest, ParseBlocks(rest))
    ensures Interpolated(s) == ParamRef(key) + Interpolated(rest)
  {
    var pat := "{" + key + "}";
    TokenShape(s, key, rest);
    ParseBlocksToken(s, key, rest);
    FirstTokenReplaced(done, s, key, rest);
    ReplaceBlocksFirst(done + s, Block(key, pat), ParseBlocks(rest));
  }

  /** No placeholder starts before `s`, so `replace` finds the token at the start of `s`. */
  lemma FirstTokenReplaced(done: string, s: string, key: string, rest: string)
    requires IsKey(key) && s == "{" + key + "}" + rest
    requires forall i: nat, k: string :: i < |done| ==> !KeyTokenAt(done + s, i, k)
    ensures ReplaceFirst(done + s, "{" + key + "}", ParamRef(key)) == done + ParamRef(key) + rest
  {
    var pat := "{" + key + "}";
    assert done + s == done + pat + rest;
    forall i: nat | i < |done|
      ensures !OccursAt(done + s, pat, i)
    {
      assert !KeyTokenAt(done + s, i, key);
    }
    ReplaceFirstAt(done + s, pat, ParamRef(key), done, rest);
  }

  lemma TokenShape(s: string, key: string, rest: string)
    requires TokenAtStart(s) && key == s[1..1 + WordRun(s, 1)] && rest == s[|key| + 2..]
    ensures s == "{" + key + "}" + rest && IsKey(key)
  {
    assert s[0..|key| + 2] == "{" + key + "}";
    assert s == s[0..|key| + 2] + rest;
  }

  lemma ParseBlocksToken(s: string, key: string, rest: string)
    requires TokenAtStart(s) && key == s[1..1 + WordRun(s, 1)] && rest == s[|key| + 2..]
    ensures ParseBlocks(s) == [Block(key, "{" + key + "}")] + ParseBlocks(rest)
  {
    assert ParseBlocksRest(s, |key| + 2) == ParseBlocks(rest);
  }

  lemma ReplaceBlocksFirst(t: string, b: Block, bs: seq<Block>)
    ensures ReplaceBlocks(t, [b] + bs) == ReplaceBlocks(ReplaceFirst(t, b.matchStr, ParamRef(b.key)), bs)
  {
    assert ([b] + bs)[1..] == bs;
  }

  /** Where `parseBlocks` sees no token, no placeholder starts. */
  lemma NoTokenAtNonToken(done: string, s: string)
    requires |s| > 0 && !TokenAtStart(s)
    requires forall i: nat, k: string :: i < |done| ==> !KeyTokenAt(done + s, i, k)
    ensures forall i: nat, k: string :: i < |done + [s[0]]| ==> !KeyTokenAt(done + [s[0]] + s[1..], i, k)
  {
    assert done + [s[0]] + s[1..] == done + s;
    forall k: string | KeyTokenAt(done + s, |done|, k)
      ensures false
    {
      var p := "{" + k + "}";
      assert (done + s)[|done|..|done| + |p|] == s[..|p|];
      assert s[..|p|] == p;
      assert s[0] == '{';
      forall d | 1 <= d <= |k|
        ensures IsWordChar(s[d])
      {
        assert s[d] == p[d];
      }
      assert s[|k| + 1] == p[|k| + 1] == '}';
      WordRunExact(s, 1, |k|);
    }
  }

  /** A run of word characters that ends before a non-word character is the whole run. */
  lemma WordRunExact(s: string, from: nat, n: nat)
    requires from + n < |s| && !IsWordChar(s[from + n])
    requires forall d :: from <= d < from + n ==> IsWordChar(s[d])
    ensures WordRun(s, from) == n
    decreases n
  {
    if n > 0 {
      WordRunExact(s, from + 1, n - 1);
    }
  }

  /** No placeholder starts inside the rewritten text, or before it in a way reaching into it. */
  lemma NoTokenInsideRef(done: string, s: string, key: string, rest: string)
    requires IsKey(key) && s == "{" + key + "}" + rest
    requires forall i: nat, k: string :: i < |done| ==> !KeyTokenAt(done + s, i, k)
    ensures forall i: nat, k: string :: i < |done + ParamRef(key)| ==> !KeyTokenAt(done + ParamRef(key) + rest, i, k)
  {
    assert done + s == done + ("{" + key + "}") + rest;
    var ref := ParamRef(key);
    var t := done + ref + rest;
    forall i: nat, k: string | i < |done + ref|
      ensures !KeyTokenAt(t, i, k)
    {
      if i < |done| {
        NoTokenBeforeRef(done, key, rest, i, k);
      } else if i == |done| + 1 {
        RefNotToken(key, k, t, i, done, rest);
      } else {
        NotBraceInRef(done, key, rest, i);
      }
    }
  }

  /** A placeholder starting before the rewritten text would either lie wholly before it, where
      none starts, or run into its leading `$`. */
  lemma NoTokenBeforeRef(done: string, key: string, rest: string, i: nat, k: string)
    requires forall i: nat, k: string :: i < |done| ==> !KeyTokenAt(done + ("{" + key + "}") + rest, i, k)
    requires i < |done|
    ensures !KeyTokenAt(done + ParamRef(key) + rest, i, k)
  {
    var t := done + ParamRef(key) + rest;
    var p := "{" + k + "}";
    if i + |p| <= |done| {
      var before := done + ("{" + key + "}") + rest;
      assert !KeyTokenAt(before, i, k);
      assert t[i..i + |p|] == done[i..i + |p|] == before[i..i + |p|];
    } else if IsKey(k) && i + |p| <= |t| {
      var d := |done| - i;
      assert t[i + d] == '$';
      assert t[i..i + |p|][d] == t[i + d];
      if d <= |k| {
        assert p[d] == k[d - 1];
      } else {
        assert p[d] == '}';
      }
    }
  }

  /** Apart from its second character, the rewritten text has no `{`. */
  lemma NotBraceInRef(done: string, key: string, rest: string, i: nat)
    requires IsKey(key) && |done| <= i < |done| + |ParamRef(key)| && i != |done| + 1
    ensures forall k: string :: !KeyTokenAt(done + ParamRef(key) + rest, i, k)
  {
    var t := done + ParamRef(key) + rest;
    var e := i - |done|;
    assert t[i] == ParamRef(key)[e];
    assert ParamRef(key)[e] != '{' by {
      if 9 <= e < 9 + |key| {
        assert ParamRef(key)[e] == key[e - 9];
      }
    }
  }

  /** `{params.` is not the start of a placeholder: the `.` ends the run of word characters. */
  lemma RefNotToken(key: string, k: string, t: string, i: nat, done: string, rest: string)
    requires t == done + ParamRef(key) + rest && i == |done| + 1
    ensures !KeyTokenAt(t, i, k)
  {
    var p := "{" + k + "}";
    assert t[i..i + 8] == "{params.";
    if IsKey(k) && i + |p| <= |t| {
      if |k| >= 7 {
        assert t[i..i + |p|][7] == t[i + 7] == '.';
        assert p[7] == k[6];
      } else {
        assert t[i..i + |p|][|k| + 1] == t[i + |k| + 1] == "{params."[|k| + 1];
      }
    }
  }

  /** A path without placeholders is used as it is. */
  lemma {:induction false} NoPlaceholderUnchanged(s: string)
    requires ParseBlocks(s) == []
    ensures Interpolated(s) == s
    decreases |s|
  {
    if |s| > 0 {
      assert !TokenAtStart(s);
      NoPlaceholderUnchanged(s[1..]);
      assert s == [s[0]] + s[1..];
    }
  }

  // =======================================================================================
  // Types of an endpoint
  // =======================================================================================

  /** `T${toPascalCase(name)}Params` and its siblings. */
  function TypeName(apiName: string, part: string): string {
    "T" + ToPascalCase(apiName) + part
  }

  /** The name of a type that exists, "" for an absent or `null` example. */
  function PartName(example: Option<Value>, apiName: string, part: string): string {
    if Exists(example) then TypeName(apiName, part) else ""
  }

  /** The type text of one example: converted when it exists, "" when it is absent or `null`. */
  function ExampleType(example: Option<Value>, name: string, jsonToTs: JsonToTs, suffix: nat -> string): Result<string> {
    if Exists(example) then TypeText(example.value, name, jsonToTs, suffix) else Success("")
  }

  /** The line break and indentation that precede each type in `fullStr`. */
  const FullStrBreak := "\n             "

  /** `generateTypes`: params, response and body, in that order, each named and converted when
      its example exists. */
  function ApiTypes(api: ApiSpec, jsonToTs: JsonToTs, suffix: nat -> string): Result<ApiType> {
    var paramTypeName := PartName(api.params, api.name, "Params");
    var paramType :- ExampleType(api.params, paramTypeName, jsonToTs, suffix);
    var responseTypeName := PartName(api.response, api.name, "Response");
    var responseType :- ExampleType(api.response, responseTypeName, jsonToTs, suffix);
    var bodyTypeName := PartName(api.body, api.name, "Body");
    var bodyType :- ExampleType(api.body, bodyTypeName, jsonToTs, suffix);
    Success(ApiType(paramTypeName, paramType, responseTypeName, responseType, bodyTypeName, bodyType,
                    Exists(api.body), Exists(api.params), Exists(api.response),
                    FullStrBreak + paramType + ";" + FullStrBreak + responseType + ";" + FullStrBreak + bodyType + ";"))
  }

  /** An example that exists and holds a `null` somewhere. */
  predicate NullInside(example: Option<Value>) {
    Exists(example) && HasNull(example.value)
  }

  /** Type generation throws exactly when an example that exists holds a `null`, and then with
      the error `Object.keys` throws. */
  lemma ApiTypesOutcome(api: ApiSpec, jsonToTs: JsonToTs, suffix: nat -> string)
    ensures ApiTypes(api, jsonToTs, suffix).Failure?
            <==> NullInside(api.params) || NullInside(api.response) || NullInside(api.body)
    ensures ApiTypes(api, jsonToTs, suffix).Failure? ==> ApiTypes(api, jsonToTs, suffix).error == NotAnObject
  {
    if Exists(api.params) {
      TypeFailsOnNull(api.params.value, PartName(api.params, api.name, "Params"), jsonToTs, suffix);
    }
    if Exists(api.response) {
      TypeFailsOnNull(api.response.value, PartName(api.response, api.name, "Response"), jsonToTs, suffix);
    }
    if Exists(api.body) {
      TypeFailsOnNull(api.body.value, PartName(api.body, api.name, "Body"), jsonToTs, suffix);
    }
  }

  /** A generated record: a part has a name exactly when its example exists, the name is
      `T<Pascal name><Part>`, and its text is the converted example. */
  lemma ApiTypesRecord(api: ApiSpec, jsonToTs: JsonToTs, suffix: nat -> string)
    requires ApiTypes(api, jsonToTs, suffix).Success?
    ensures var t := ApiTypes(api, jsonToTs, suffix).value;
            && t.paramExist == Exists(api.params) && t.responseExist == Exists(api.response) && t.bodyExist == Exists(api.body)
            && (t.paramTypeName != "" <==> t.paramExist)
            && (t.responseTypeName != "" <==> t.responseExist)
            && (t.bodyTypeName != "" <==> t.bodyExist)
            && (t.paramExist ==>
                  t.paramTypeName == TypeName(api.name, "Params")
                  && Success(t.paramType) == TypeText(api.params.value, t.paramTypeName, jsonToTs, suffix))
            && (t.responseExist ==>
                  t.responseTypeName == TypeName(api.name, "Response")
                  && Success(t.responseType) == TypeText(api.response.value, t.responseTypeName, jsonToTs, suffix))
            && (t.bodyExist ==>
                  t.bodyTypeName == TypeName(api.name, "Body")
                  && Success(t.bodyType) == TypeText(api.body.value, t.bodyTypeName, jsonToTs, suffix))
            && (!t.paramExist ==> t.paramType == "") && (!t.responseExist ==> t.responseType == "")
            && (!t.bodyExist ==> t.bodyType == "")
  {
  }

  // =======================================================================================
  // Arguments passed to the HTTP client
  // =======================================================================================

  /** One argument after the URL in `this.httpClient.<verb>(url, params, data)`. */
  datatype HttpArg = ParamsArg | RestParamsArg | UndefinedArg | NullArg | BodyArg

  function ArgText(a: HttpArg): (r: string)
    ensures |r| > 0
  {
    match a
    case ParamsArg => "params"
    case RestParamsArg => "_params"
    case UndefinedArg => "undefined"
    case NullArg => "null"
    case BodyArg => "body"
  }

  /** The arguments, comma-separated. */
  function ArgsText(args: seq<HttpArg>): (r: string)
    ensures |r| > 0 <==> |args| > 0
  {
    if |args| == 0 then ""
    else if |args| == 1 then ArgText(args[0])
    else ArgText(args[0]) + "," + ArgsText(args[1..])
  }

  /** What follows the URL in the call: nothing, or a comma and the arguments. */
  function TailText(args: seq<HttpArg>): string {
    if |args| == 0 then "" else "," + ArgsText(args)
  }

  /** The verbs whose client method takes a body. */
  predicate HasBodyVerb(verb: string) {
    verb != "get" && verb != "delete"
  }

  /** The arguments forwarded for an endpoint: `params` when they exist, then the body (or
      `null`) for a verb that takes one; without params but with a body, `undefined,body`
      whatever the verb. */
  function ForwardedArgs(paramExist: bool, bodyExist: bool, hasBodyVerb: bool): seq<HttpArg> {
    if !paramExist && bodyExist then [UndefinedArg, BodyArg]
    else (if paramExist then [ParamsArg] else []) + (if hasBodyVerb then [if bodyExist then BodyArg else NullArg] else [])
  }

  /** `httpArgsString` as the source builds it, from the two pieces and the override. */
  function HttpArgsString(paramExist: bool, bodyExist: bool, hasBodyVerb: bool): string {
    var httpBodyString := if hasBodyVerb then (if bodyExist then "body" else "null") else "";
    var httpParamString := if paramExist then "params" else "";
    if !paramExist && bodyExist then "undefined,body" else JoinValid([httpParamString, httpBodyString])
  }

  /** The string the source builds is the text of the forwarded arguments. */
  lemma ForwardedText(paramExist: bool, bodyExist: bool, hasBodyVerb: bool)
    ensures HttpArgsString(paramExist, bodyExist, hasBodyVerb) == ArgsText(ForwardedArgs(paramExist, bodyExist, hasBodyVerb))
  {
    var httpBodyString := if hasBodyVerb then (if bodyExist then "body" else "null") else "";
    var httpParamString := if paramExist then "params" else "";
    JoinValidPair(httpParamString, httpBodyString);
  }

  /** Each argument lands in the position the client expects it: `params` first, the body
      second; the body is forwarded when it exists and the verb takes one or there are no
      params; `null` is forwarded for a verb that takes a body when there is none. */
  lemma ForwardedPositions(paramExist: bool, bodyExist: bool, hasBodyVerb: bool)
    ensures var r := ForwardedArgs(paramExist, bodyExist, hasBodyVerb);
            && |r| <= 2
            && (ParamsArg in r <==> paramExist)
            && (ParamsArg in r ==> r[0] == ParamsArg)
            && (BodyArg in r <==> bodyExist && (hasBodyVerb || !paramExist))
            && (BodyArg in r ==> |r| == 2 && r[1] == BodyArg)
            && (NullArg in r <==> hasBodyVerb && !bodyExist)
            && (NullArg in r ==> r[|r| - 1] == NullArg)
            && RestParamsArg !in r
  {
  }

  /** With placeholders in the path, `params` is forwarded as the rest object when keys remain
      besides the placeholders, as `undefined` otherwise, and a lone `undefined` is dropped. */
  function PathArgs(args: seq<HttpArg>, hasRest: bool): seq<HttpArg> {
    var r := ReplaceParams(args, if hasRest then RestParamsArg else UndefinedArg);
    if r == [UndefinedArg] then [] else r
  }

  function ReplaceParam(a: HttpArg, q: HttpArg): HttpArg {
    if a == ParamsArg then q else a
  }

  /** `args` with `params` replaced by `q`. */
  function ReplaceParams(args: seq<HttpArg>, q: HttpArg): seq<HttpArg> {
    if |args| == 0 then []
    else [ReplaceParam(args[0], q)] + ReplaceParams(args[1..], q)
  }

  lemma ShortArgs(a: HttpArg, b: HttpArg, q: HttpArg)
    ensures ReplaceParams([a], q) == [ReplaceParam(a, q)]
    ensures ReplaceParams([a, b], q) == [ReplaceParam(a, q), ReplaceParam(b, q)]
    ensures ArgsText([a, b]) == ArgText(a) + "," + ArgText(b)
  {
    assert [a][1..] == [] && [b][1..] == [];
    assert [a, b][1..] == [b];
  }

  /** The argument tail as the source builds it with placeholders in the path. */
  function PathTail(httpArgsString: string, hasRest: bool): string {
    var tail := "," + ReplaceFirst(httpArgsString, "params", if hasRest then "_params" else "undefined");
    if |httpArgsString| == 0 then "" else if tail == ",undefined" then "" else tail
  }

  /** With placeholders, no `params` reaches the client; the rest object does exactly when there
      are params with keys besides the placeholders, in the params position; the rest is kept. */
  lemma PathArgsShape(paramExist: bool, bodyExist: bool, hasBodyVerb: bool, hasRest: bool)
    ensures var args := ForwardedArgs(paramExist, bodyExist, hasBodyVerb);
            var r := PathArgs(args, hasRest);
            && ParamsArg !in r
            && (RestParamsArg in r <==> paramExist && hasRest)
            && (RestParamsArg in r ==> r[0] == RestParamsArg)
            && (BodyArg in r <==> BodyArg in args)
            && (NullArg in r <==> NullArg in args)
            && (r == [] <==> args == [] || (args == [ParamsArg] && !hasRest))
  {
    var args := ForwardedArgs(paramExist, bodyExist, hasBodyVerb);
    var r := PathArgs(args, hasRest);
    var q := if hasRest then RestParamsArg else UndefinedArg;
    if !paramExist && bodyExist {
      ShortArgs(UndefinedArg, BodyArg, q);
      assert r == [UndefinedArg, BodyArg];
    } else if !paramExist && hasBodyVerb {
      ShortArgs(NullArg, NullArg, q);
      assert r == [NullArg];
    } else if !paramExist {
      assert args == [] && r == [];
    } else if hasBodyVerb {
      ShortArgs(ParamsArg, if bodyExist then BodyArg else NullArg, q);
    } else {
      ShortArgs(ParamsArg, ParamsArg, q);
    }
  }

  /** The string the source builds with placeholders in the path is the text of the path
      arguments. */
  lemma PathTailText(paramExist: bool, bodyExist: bool, hasBodyVerb: bool, hasRest: bool)
    ensures PathTail(HttpArgsString(paramExist, bodyExist, hasBodyVerb), hasRest)
            == TailText(PathArgs(ForwardedArgs(paramExist, bodyExist, hasBodyVerb), hasRest))
  {
    ForwardedText(paramExist, bodyExist, hasBodyVerb);
    if !paramExist {
      NoParamsTail(bodyExist, hasBodyVerb, hasRest);
    } else if hasBodyVerb {
      TwoArgsTail(if bodyExist then BodyArg else NullArg, hasRest);
    } else {
      OneArgTail(hasRest);
    }
  }

  lemma TwoArgsTail(last: HttpArg, hasRest: bool)
    requires last == BodyArg || last == NullArg
    ensures PathTail(ArgsText([ParamsArg, last]), hasRest) == TailText(PathArgs([ParamsArg, last], hasRest))
  {
    hide ArgsText, ReplaceFirst, ReplaceParams;
    var q := if hasRest then RestParamsArg else UndefinedArg;
    var rep := ArgText(q);
    var post := "," + ArgText(last);
    assert ArgsText([ParamsArg, last]) == "params" + post by {
      ShortArgs(ParamsArg, last, q);
    }
    assert PathArgs([ParamsArg, last], hasRest) == [q, last] by {
      ShortArgs(ParamsArg, last, q);
    }
    assert TailText([q, last]) == "," + (rep + post) by {
      ShortArgs(q, last, q);
    }
    ParamsReplaced(post, rep);
    assert |"," + (rep + post)| > |",undefined"|;
  }

  lemma OneArgTail(hasRest: bool)
    ensures PathTail(ArgsText([ParamsArg]), hasRest) == TailText(PathArgs([ParamsArg], hasRest))
  {
    ShortArgs(ParamsArg, ParamsArg, if hasRest then RestParamsArg else UndefinedArg);
    ParamsReplaced("", if hasRest then "_params" else "undefined");
  }

  lemma NoParamsTail(bodyExist: bool, hasBodyVerb: bool, hasRest: bool)
    ensures PathTail(ArgsText(ForwardedArgs(false, bodyExist, hasBodyVerb)), hasRest)
            == TailText(PathArgs(ForwardedArgs(false, bodyExist, hasBodyVerb), hasRest))
  {
    if bodyExist {
      assert ForwardedArgs(false, bodyExist, hasBodyVerb) == [UndefinedArg, BodyArg];
      UndefinedBodyTail(hasRest);
    } else if hasBodyVerb {
      assert ForwardedArgs(false, bodyExist, hasBodyVerb) == [NullArg];
      NullTail(hasRest);
    }
  }

  lemma UndefinedBodyTail(hasRest: bool)
    ensures PathTail(ArgsText([UndefinedArg, BodyArg]), hasRest) == TailText(PathArgs([UndefinedArg, BodyArg], hasRest))
  {
    ShortArgs(UndefinedArg, BodyArg, if hasRest then RestParamsArg else UndefinedArg);
    NoLetterNoOccurrence(ArgsText([UndefinedArg, BodyArg]), "params", 'p');
  }

  lemma NullTail(hasRest: bool)
    ensures PathTail(ArgsText([NullArg]), hasRest) == TailText(PathArgs([NullArg], hasRest))
  {
    ShortArgs(NullArg, NullArg, if hasRest then RestParamsArg else UndefinedArg);
    NoLetterNoOccurrence(ArgsText([NullArg]), "params", 'p');
  }

  lemma ParamsReplaced(post: string, rep: string)
    requires rep == "_params" || rep == "undefined"
    ensures ReplaceFirst("params" + post, "params", rep) == rep + post
  {
    ReplaceFirstAt("params" + post, "params", rep, "", post);
  }

  /** A string without the first letter of a pattern contains no occurrence of it. */
  lemma NoLetterNoOccurrence(s: string, pat: string, c: char)
    requires |pat| > 0 && pat[0] == c && c !in s
    ensures ReplaceFirst(s, pat, "_params") == s && ReplaceFirst(s, pat, "undefined") == s
  {
    forall i: nat | i + |pat| <= |s|
      ensures !OccursAt(s, pat, i)
    {
      assert s[i..i + |pat|][0] == s[i];
    }
    assert IndexOf(s, pat).None?;
  }

  // =======================================================================================
  // The generated method
  // =======================================================================================

  /** One parameter of the generated method, `name:typeName`. */
  datatype Parameter = Parameter(name: string, typeName: string)

  /** `params` when they exist, then `body` when it exists, with their type names. */
  function Signature(t: ApiType): seq<Parameter> {
    (if t.paramExist then [Parameter("params", t.paramTypeName)] else [])
    + (if t.bodyExist then [Parameter("body", t.bodyTypeName)] else [])
  }

  function SignatureText(ps: seq<Parameter>): string {
    if |ps| == 0 then ""
    else if |ps| == 1 then ps[0].name + ":" + ps[0].typeName
    else ps[0].name + ":" + ps[0].typeName + "," + SignatureText(ps[1..])
  }

  /** `argsString` as the source builds it. */
  function ArgsString(t: ApiType): string {
    JoinValid([if t.paramExist then "params:" + t.paramTypeName else "",
               if t.bodyExist then "body:" + t.bodyTypeName else ""])
  }

  lemma SignatureAgree(t: ApiType)
    ensures ArgsString(t) == SignatureText(Signature(t))
  {
    var a := if t.paramExist then "params:" + t.paramTypeName else "";
    var b := if t.bodyExist then "body:" + t.bodyTypeName else "";
    JoinValidPair(a, b);
    if t.paramExist && t.bodyExist {
      var ps := Signature(t);
      assert ps[1..] == [Parameter("body", t.bodyTypeName)];
    }
  }

  /** The keys of the path's blocks, in order. */
  function BlockKeys(blocks: seq<Block>): (r: seq<string>)
    ensures |r| == |blocks| && forall i :: 0 <= i < |blocks| ==> r[i] == blocks[i].key
  {
    if |blocks| == 0 then [] else [blocks[0].key] + BlockKeys(blocks[1..])
  }

  /** `filteredParamKeys`: the keys of `params` that no placeholder of the path names, in order. */
  function RestKeys(keys: seq<string>, pathKeys: seq<string>): (r: seq<string>)
    ensures forall x :: x in r <==> x in keys && x !in pathKeys
    ensures |r| <= |keys|
  {
    if |keys| == 0 then []
    else (if keys[0] in pathKeys then [] else [keys[0]]) + RestKeys(keys[1..], pathKeys)
  }

  /** The filter works key by key: the rest keys of a concatenation are the concatenation of
      the rest keys, and a single key is kept exactly when no placeholder names it. Together:
      the kept keys of `params`, in their order. */
  lemma {:induction false} RestKeysConcat(a: seq<string>, b: seq<string>, pathKeys: seq<string>)
    ensures RestKeys(a + b, pathKeys) == RestKeys(a, pathKeys) + RestKeys(b, pathKeys)
    ensures |a| == 1 ==> RestKeys(a, pathKeys) == if a[0] in pathKeys then [] else a
  {
    if |a| == 0 {
      assert a + b == b;
    } else {
      var head := if a[0] in pathKeys then [] else [a[0]];
      assert (a + b)[0] == a[0] && (a + b)[1..] == a[1..] + b;
      assert RestKeys(a + b, pathKeys) == head + RestKeys(a[1..] + b, pathKeys);
      assert RestKeys(a, pathKeys) == head + RestKeys(a[1..], pathKeys);
      RestKeysConcat(a[1..], b, pathKeys);
      assert |a| == 1 ==> a[1..] == [];
      ConcatAssoc(head, RestKeys(a[1..], pathKeys), RestKeys(b, pathKeys));
    }
  }

  /** The `_params` object holding the rest keys; nothing when there are none. */
  function RestConst(keys: seq<string>): string {
    if |keys| == 0 then ""
    else "const _params = {\n" + Join(seq(|keys|, i requires 0 <= i < |keys| => keys[i] + ": params." + keys[i]), ",\n") + "\n}\n"
  }

  /** The generated method, in pieces: its name and parameters, the rest keys copied into
      `_params`, the client verb, the response and body type arguments, the path template and
      the arguments after it. */
  datatype RequestMethod = RequestMethod(
    name: string,
    parameters: seq<Parameter>,
    restKeys: seq<string>,
    verb: string,
    responseType: string,
    bodyType: Option<string>,
    path: string,
    args: seq<HttpArg>)

  /** `<Response[,Body]>`: the response type name, or `any` when there is none. */
  function TypeArgsText(responseType: string, bodyType: Option<string>): string {
    responseType + (if bodyType.Some? then "," + bodyType.value else "")
  }

  /** The layout of the generated method; the whitespace of the source's template is not
      reproduced. */
  function MethodText(name: string, signature: string, restConst: string, verb: string, typeArgs: string,
                      path: string, tail: string): string {
    "async " + name + "(" + signature + ") {\n" + restConst
    + "return this.httpClient." + verb + "<" + typeArgs + ">(`" + path + "`" + tail + ");\n}"
  }

  function Render(m: RequestMethod): string {
    MethodText(m.name, SignatureText(m.parameters), RestConst(m.restKeys), m.verb,
               TypeArgsText(m.responseType, m.bodyType), m.path, TailText(m.args))
  }

  /** What `generateMethod` generates for an endpoint and its types. With placeholders in the
      path, `Object.keys(params)` runs and throws when the params are absent or `null`. */
  function RequestOf(api: ApiSpec, t: ApiType): Result<RequestMethod> {
    var verb := ToLowerCase(api.httpMethod);
    var args := ForwardedArgs(t.paramExist, t.bodyExist, HasBodyVerb(verb));
    var responseType := if t.responseTypeName == "" then "any" else t.responseTypeName;
    var bodyType := if t.bodyExist then Some(t.bodyTypeName) else None;
    var blocks := ParseBlocks(api.path);
    if |blocks| == 0 then
      Success(RequestMethod(api.name, Signature(t), [], verb, responseType, bodyType, api.path, args))
    else
      var keys :- ObjectKeys(api.params);
      var restKeys := RestKeys(keys, BlockKeys(blocks));
      Success(RequestMethod(api.name, Signature(t), restKeys, verb, responseType, bodyType,
                            Interpolated(api.path), PathArgs(args, |restKeys| > 0)))
  }

  /** Generating the method throws exactly when the path has placeholders and there are no
      params to fill them from. */
  lemma RequestFailure(api: ApiSpec, t: ApiType)
    ensures RequestOf(api, t).Failure? <==> |ParseBlocks(api.path)| > 0 && !Exists(api.params)
    ensures RequestOf(api, t).Failure? ==> RequestOf(api, t).error == NotAnObject
  {
  }

  /** The path of the generated call is the path with every placeholder interpolated, and the
      path itself when it has none. */
  lemma RequestPath(api: ApiSpec, t: ApiType)
    requires RequestOf(api, t).Success?
    ensures RequestOf(api, t).value.path == Interpolated(api.path)
    ensures ParseBlocks(api.path) == [] ==> RequestOf(api, t).value.path == api.path
  {
    if ParseBlocks(api.path) == [] {
      NoPlaceholderUnchanged(api.path);
    }
  }

  /** With placeholders, `params` itself never reaches the client: the keys besides the
      placeholders do, as `_params`, in the params position, and only when there are some;
      without placeholders `params` is forwarded exactly when it exists. */
  lemma RequestArgs(api: ApiSpec, t: ApiType)
    requires RequestOf(api, t).Success? && t.paramExist == Exists(api.params)
    ensures var m := RequestOf(api, t).value;
            && (ParamsArg in m.args <==> ParseBlocks(api.path) == [] && t.paramExist)
            && (RestParamsArg in m.args <==> |m.restKeys| > 0)
            && (RestParamsArg in m.args ==> m.args[0] == RestParamsArg)
            && (BodyArg in m.args <==> t.bodyExist && (HasBodyVerb(m.verb) || !t.paramExist))
            && (forall k :: k in m.restKeys ==> k !in BlockKeys(ParseBlocks(api.path)))
            && (forall k :: k in m.restKeys ==> api.params.Some? && k in ObjectKeys(api.params).value)
  {
    var verb := ToLowerCase(api.httpMethod);
    var m := RequestOf(api, t).value;
    ForwardedPositions(t.paramExist, t.bodyExist, HasBodyVerb(verb));
    if ParseBlocks(api.path) != [] {
      PathArgsShape(t.paramExist, t.bodyExist, HasBodyVerb(verb), |m.restKeys| > 0);
      if |m.restKeys| > 0 {
        assert api.params.Some? && !api.params.value.Null?;
        assert t.paramExist;
      }
    }
  }

  // =======================================================================================
  // The generator object
  // =======================================================================================

  /** The record `types` holds before `generateTypes` assigns it. */
  const NoTypes := ApiType("", "", "", "", "", "", false, false, false, "")

  /** `RequestGenerator`: built for one endpoint, it derives the endpoint's types and then the
      text of its client method. */
  class RequestGenerator {
    const api: ApiSpec
    const serviceClassName: string
    const serviceInstanceName: string
    var types: ApiType
    /** The generated method text, `this.method` in the source. */
    var code: string

    constructor (api: ApiSpec, serviceClassName: string, serviceInstanceName: string)
      ensures this.api == api && this.serviceClassName == serviceClassName
      ensures this.serviceInstanceName == serviceInstanceName
      ensures types == NoTypes && code == ""
    {
      this.api := api;
      this.serviceClassName := serviceClassName;
      this.serviceInstanceName := serviceInstanceName;
      types := NoTypes;
      code := "";
    }

    /** `getCode`. */
    function GetCode(): string
      reads this
    {
      code
    }

    /** `generateTypes`: converts each example that exists, params first, and records the
        result; a conversion that throws leaves `types` as it was. */
    method GenerateTypes(jsonToTs: JsonToTs, suffix: nat -> string) returns (r: Result<ApiType>)
      modifies this
      ensures r == ApiTypes(api, jsonToTs, suffix)
      ensures types == (if r.Success? then r.value else old(types)) && code == old(code)
    {
      var paramExist := Exists(api.params);
      var paramTypeName := "";
      var paramType := "";
      if paramExist {
        paramTypeName := TypeName(api.name, "Params");
        paramType :- ToType(api.params.value, paramTypeName, jsonToTs, suffix);
      }

      var responseExist := Exists(api.response);
      var responseTypeName := "";
      var responseType := "";
      if responseExist {
        responseTypeName := TypeName(api.name, "Response");
        responseType :- ToType(api.response.value, responseTypeName, jsonToTs, suffix);
      }

      var bodyExist := Exists(api.body);
      var bodyType := "";
      var bodyTypeName := "";
      if bodyExist {
        bodyTypeName := TypeName(api.name, "Body");
        bodyType :- ToType(api.body.value, bodyTypeName, jsonToTs, suffix);
      }

      var result := ApiType(paramTypeName, paramType, responseTypeName, responseType, bodyTypeName, bodyType,
                            bodyExist, paramExist, responseExist,
                            FullStrBreak + paramType + ";" + FullStrBreak + responseType + ";" + FullStrBreak + bodyType + ";");
      types := result;
      r := Success(result);
    }

    /** `generateMethod`: builds the method text from `types`; with placeholders in the path it
        lists the params' keys (throwing when there are no params), interpolates the path and
        rewrites the forwarded arguments. */
    method GenerateMethod() returns (r: Result<()>)
      modifies this
      ensures r.Success? <==> RequestOf(api, old(types)).Success?
      ensures r.Success? ==> code == Render(RequestOf(api, old(types)).value)
      ensures r.Failure? ==> r.error == NotAnObject && code == old(code)
      ensures types == old(types)
    {
      hide ParseBlocks, Interpolated, RestKeys, ToLowerCase, MethodText, Render, ArgsString, HttpArgsString,
           SignatureText, PathTail, TypeArgsString, RestConst, ForwardedArgs, PathArgs, Signature,
           BlockKeys;
      var t := types;
      var verb := ToLowerCase(api.httpMethod);
      var hasBodyMethod := HasBodyVerb(verb);

      var argsString := ArgsString(t);
      var httpArgsString := HttpArgsString(t.paramExist, t.bodyExist, hasBodyMethod);
      var typeArgs := TypeArgsString(t);
      assert argsString == SignatureText(Signature(t)) by {
        SignatureAgree(t);
      }
      assert httpArgsString == ArgsText(ForwardedArgs(t.paramExist, t.bodyExist, hasBodyMethod)) by {
        ForwardedText(t.paramExist, t.bodyExist, hasBodyMethod);
      }

      var pathParams := ParseBlocks(api.path);
      if |pathParams| > 0 {
        var keys :- ObjectKeys(api.params);
        var pathParamKeys := BlockKeys(pathParams);
        var filteredParamKeys := RestKeys(keys, pathParamKeys);
        var hasRestParam := |filteredParamKeys| > 0;

        var parsedPath := InterpolatePath(api.path, pathParams);
        assert parsedPath == Interpolated(api.path) by {
          InterpolationByTokens(api.path);
        }

        var tail := PathTail(httpArgsString, hasRestParam);
        assert tail == TailText(PathArgs(ForwardedArgs(t.paramExist, t.bodyExist, hasBodyMethod), hasRestParam)) by {
          PathTailText(t.paramExist, t.bodyExist, hasBodyMethod, hasRestParam);
        }
        RenderedWithBlocks(api, t, keys, argsString, filteredParamKeys, verb, typeArgs, parsedPath, tail);
        code := MethodText(api.name, argsString, RestConst(filteredParamKeys), verb, typeArgs, parsedPath, tail);
      } else {
        var tail := if |httpArgsString| > 0 then "," + httpArgsString else "";
        RenderedWithoutBlocks(api, t, argsString, verb, typeArgs, tail);
        code := MethodText(api.name, argsString, "", verb, typeArgs, api.path, tail);
      }
      r := Success(());
    }
  }

  /** The type arguments as the source writes them: `responseTypeName || "any"`, then the body
      type name when there is a body. */
  function TypeArgsString(t: ApiType): string {
    (if t.responseTypeName == "" then "any" else t.responseTypeName) + (if t.bodyExist then "," + t.bodyTypeName else "")
  }

  /** The text `generateMethod` assembles with placeholders in the path renders the method
      `RequestOf` describes. */
  lemma RenderedWithBlocks(api: ApiSpec, t: ApiType, keys: seq<string>, signature: string, restKeys: seq<string>,
                           verb: string, typeArgs: string, path: string, tail: string)
    requires |ParseBlocks(api.path)| > 0 && ObjectKeys(api.params) == Success(keys)
    requires signature == SignatureText(Signature(t))
    requires restKeys == RestKeys(keys, BlockKeys(ParseBlocks(api.path)))
    requires verb == ToLowerCase(api.httpMethod)
    requires typeArgs == TypeArgsString(t)
    requires path == Interpolated(api.path)
    requires tail == TailText(PathArgs(ForwardedArgs(t.paramExist, t.bodyExist, HasBodyVerb(verb)), |restKeys| > 0))
    ensures RequestOf(api, t).Success?
    ensures MethodText(api.name, signature, RestConst(restKeys), verb, typeArgs, path, tail) == Render(RequestOf(api, t).value)
  {
  }

  /** The same without placeholders. */
  lemma RenderedWithoutBlocks(api: ApiSpec, t: ApiType, signature: string, verb: string, typeArgs: string, tail: string)
    requires |ParseBlocks(api.path)| == 0
    requires signature == SignatureText(Signature(t))
    requires verb == ToLowerCase(api.httpMethod)
    requires typeArgs == TypeArgsString(t)
    requires tail == TailText(ForwardedArgs(t.paramExist, t.bodyExist, HasBodyVerb(verb)))
    ensures RequestOf(api, t).Success?
    ensures MethodText(api.name, signature, "", verb, typeArgs, api.path, tail) == Render(RequestOf(api, t).value)
  {
  }

  /** `new RequestGenerator(api, ...)`: the constructor generates the types and the method, and
      throws when either does. */
  method Create(api: ApiSpec, serviceClassName: string, serviceInstanceName: string,
                jsonToTs: JsonToTs, suffix: nat -> string) returns (r: Result<RequestGenerator>)
    ensures r.Success? <==> ApiTypes(api, jsonToTs, suffix).Success?
                            && RequestOf(api, ApiTypes(api, jsonToTs, suffix).value).Success?
    ensures r.Success? ==> fresh(r.value) && r.value.api == api
                           && r.value.serviceClassName == serviceClassName
                           && r.value.serviceInstanceName == serviceInstanceName
                           && r.value.types == ApiTypes(api, jsonToTs, suffix).value
                           && r.value.code == Render(RequestOf(api, r.value.types).value)
    ensures r.Failure? ==> r.error == NotAnObject
  {
    ApiTypesOutcome(api, jsonToTs, suffix);
    var g := new RequestGenerator(api, serviceClassName, serviceInstanceName);
    var types :- g.GenerateTypes(jsonToTs, suffix);
    var ok :- g.GenerateMethod();
    r := Success(g);
  }
}
