/** `HttpClientGenerator`: the `httpClient` field of a generated service class — the base URL
    and a request hook that sets one header per configured entry. A header value may carry a
    `<cookie>name</cookie>` tag, which becomes a run-time cookie lookup. */
module ClientGenerator {
  import opened Wrappers
  import opened Text
  import opened Utils
  import opened Config

  /** The message `generateHeader` throws for a tag other than `cookie`. */
  function UnsupportedTag(kind: string): string {
    "unsupported custom tag <" + kind + ">"
  }

  /** The run-time expression reading cookie `name`. */
  function CookieLookup(name: string): string {
    "${HttpClient.getFromCookie(\"" + name + "\")}"
  }

  function HeaderTarget(key: string): string {
    "config.headers['" + key + "'] = "
  }

  /** `generateHeader`: a value without a tag is quoted verbatim; a `cookie` tag is replaced,
      in a template literal, by the cookie lookup; any other tag is an error. */
  function GenerateHeader(key: string, value: string): Result<string> {
    var parseValue := ParseBracket(value);
    if !parseValue.Bracket? then Success(HeaderTarget(key) + "\"" + value + "\"")
    else if parseValue.key == "cookie" then
      Success(HeaderTarget(key) + "`" + ReplaceFirst(value, parseValue.matchStr, CookieLookup(parseValue.value)) + "`")
    else Failure(UnsupportedTag(parseValue.key))
  }

  /** A header fails exactly when its value carries a tag other than `cookie`, and the error
      names that tag. */
  lemma GenerateHeaderOutcome(key: string, value: string)
    ensures GenerateHeader(key, value).Failure?
            <==> ParseBracket(value).Bracket? && ParseBracket(value).key != "cookie"
    ensures GenerateHeader(key, value).Failure? ==>
              GenerateHeader(key, value).error == UnsupportedTag(ParseBracket(value).key)
    ensures ParseBracket(value).NotBracket? ==>
              GenerateHeader(key, value) == Success(HeaderTarget(key) + "\"" + value + "\"")
  {
  }

  /** A `cookie` tag is replaced by the lookup of the cookie it names, and the text around the
      tag is kept. */
  lemma CookieHeader(key: string, value: string)
    requires ParseBracket(value).Bracket? && ParseBracket(value).key == "cookie"
    ensures exists pre, post ::
              value == pre + TagText("cookie", ParseBracket(value).value) + post
              && GenerateHeader(key, value)
                 == Success(HeaderTarget(key) + "`" + (pre + CookieLookup(ParseBracket(value).value) + post) + "`")
  {
    var b := ParseBracket(value);
    var lookup := CookieLookup(b.value);
    ReplaceMatch(value, lookup);
    var pre, post :| value == pre + b.matchStr + post && ReplaceFirst(value, b.matchStr, lookup) == pre + lookup + post;
    assert GenerateHeader(key, value) == Success(HeaderTarget(key) + "`" + (pre + lookup + post) + "`");
  }

  /** `generateHeader` on one entry. */
  function Line(header: (string, string)): Result<string> {
    GenerateHeader(header.0, header.1)
  }

  /** `Object.entries(headers).map(generateHeader)`: the first failing header throws. */
  function HeaderLines(headers: seq<(string, string)>): Result<seq<string>> {
    if |headers| == 0 then Success([])
    else
      var line :- Line(headers[0]);
      var rest :- HeaderLines(headers[1..]);
      Success([line] + rest)
  }

  /** The header lines succeed exactly when every header does. */
  lemma {:induction false} HeaderLinesSucceed(headers: seq<(string, string)>)
    ensures HeaderLines(headers).Success? <==> forall i :: 0 <= i < |headers| ==> Line(headers[i]).Success?
  {
    hide Line;
    if |headers| > 0 {
      HeaderLinesSucceed(headers[1..]);
      assert forall i :: 1 <= i < |headers| ==> headers[i] == headers[1..][i - 1];
    }
  }

  /** On success the lines are the headers' lines, in entry order. */
  lemma {:induction false} HeaderLinesInOrder(headers: seq<(string, string)>)
    requires HeaderLines(headers).Success?
    ensures |HeaderLines(headers).value| == |headers|
    ensures forall i :: 0 <= i < |headers| ==> Line(headers[i]) == Success(HeaderLines(headers).value[i])
  {
    hide Line;
    if |headers| > 0 {
      HeaderLinesInOrder(headers[1..]);
      var r := HeaderLines(headers).value;
      assert r[1..] == HeaderLines(headers[1..]).value;
      assert forall i :: 1 <= i < |headers| ==> headers[i] == headers[1..][i - 1] && r[i] == r[1..][i - 1];
    }
  }

  /** A failure carries the error of the first header that fails. */
  lemma {:induction false} HeaderLinesFirstError(headers: seq<(string, string)>)
    requires HeaderLines(headers).Failure?
    ensures exists i :: 0 <= i < |headers| && Line(headers[i]).Failure?
              && (forall j :: 0 <= j < i ==> Line(headers[j]).Success?)
              && HeaderLines(headers).error == Line(headers[i]).error
  {
    hide Line;
    var first := Line(headers[0]);
    if first.Failure? {
      assert Line(headers[0]).Failure? && HeaderLines(headers).error == Line(headers[0]).error;
    } else {
      var tail := headers[1..];
      HeaderLinesFirstError(tail);
      var i :| 0 <= i < |tail| && Line(tail[i]).Failure?
               && (forall j :: 0 <= j < i ==> Line(tail[j]).Success?)
               && HeaderLines(tail).error == Line(tail[i]).error;
      assert HeaderLines(headers).error == HeaderLines(tail).error;
      assert forall j :: 1 <= j < i + 1 ==> headers[j] == tail[j - 1];
      assert headers[i + 1] == tail[i];
    }
  }

  /** `getHeaderCode`: the lines joined by `;`, with a closing `;`. `Object.entries` throws on
      a service without headers. */
  function HeaderCode(headers: Option<seq<(string, string)>>): Result<string> {
    if headers.None? then Failure(NotAnObject)
    else
      var lines :- HeaderLines(headers.value);
      Success(Join(lines, ";") + ";")
  }

  /** Joining with a trailing empty piece adds one trailing separator. */
  lemma {:induction false} JoinTrailingEmpty(parts: seq<string>, sep: string)
    requires |parts| >= 1
    ensures Join(parts + [""], sep) == Join(parts, sep) + sep
    decreases |parts|
  {
    if |parts| == 1 {
      assert (parts + [""])[1..] == [""];
    } else {
      assert (parts + [""])[1..] == parts[1..] + [""];
      JoinTrailingEmpty(parts[1..], sep);
    }
  }

  /** When no header line contains `;`, the header code splits at `;` back into the lines,
      in order, followed by the empty text after the closing `;`. */
  lemma HeaderCodeSplits(headers: seq<(string, string)>)
    requires HeaderLines(headers).Success?
    requires |headers| >= 1
    requires forall i :: 0 <= i < |HeaderLines(headers).value| ==> !Contains(HeaderLines(headers).value[i], ";")
    ensures Split(HeaderCode(Some(headers)).value, ";") == HeaderLines(headers).value + [""]
  {
    var lines := HeaderLines(headers).value;
    JoinTrailingEmpty(lines, ";");
    var parts := lines + [""];
    forall k | 0 <= k < |parts|
      ensures !Contains(parts[k] + ";"[..0], ";")
    {
      assert parts[k] + ";"[..0] == parts[k];
      if k == |lines| {
        assert !OccursAt(parts[k], ";", 0);
      }
    }
    SplitJoin(parts, ";");
  }

  /** The empty header map gives a lone `;`. */
  lemma NoHeaders()
    ensures HeaderCode(Some([])) == Success(";")
  {
    assert Join([], ";") + ";" == ";";
  }

  /** The `httpClient` field: the base URL, verbatim between double quotes, and the header
      code inside the request hook (whitespace simplified). */
  function ClientText(baseURL: string, headerCode: string): string {
    ClientPrefix + baseURL + "\",\nrequestHook: (config) => {\n" + headerCode + ";\nreturn config;\n},\n});"
  }

  const ClientPrefix := "private httpClient: HttpClient = new HttpClient({\nbaseURL: \""

  /** `getCode`. */
  function GetCode(options: ServiceOption): Result<string> {
    var headerCode :- HeaderCode(options.headers);
    Success(ClientText(options.baseURL, headerCode))
  }

  /** The client code exists exactly when the service lists its headers and each is
      supported. */
  lemma GetCodeOutcome(options: ServiceOption)
    ensures GetCode(options).Success?
            <==> options.headers.Some?
                 && forall i :: 0 <= i < |options.headers.value| ==> Line(options.headers.value[i]).Success?
  {
    if options.headers.Some? {
      HeaderLinesSucceed(options.headers.value);
    }
  }

  /** The client code holds the base URL as given, untouched by tag processing. */
  lemma GetCodeBaseURL(options: ServiceOption)
    requires GetCode(options).Success?
    ensures GetCode(options).value[..|ClientPrefix| + |options.baseURL|] == ClientPrefix + options.baseURL
  {
    ClientTextBaseURL(options.baseURL, HeaderCode(options.headers).value);
  }

  lemma ClientTextBaseURL(baseURL: string, headerCode: string)
    ensures ClientText(baseURL, headerCode)[..|ClientPrefix| + |baseURL|] == ClientPrefix + baseURL
  {
    var rest := "\",\nrequestHook: (config) => {\n" + headerCode + ";\nreturn config;\n},\n});";
    assert ClientText(baseURL, headerCode) == (ClientPrefix + baseURL) + rest;
  }
}
