/** The probe engine: one HTTP(S) request whose response is turned into a
    verdict, "OK" or an error. The network, `JSON.parse` and regular
    expressions are supplied by the caller as a `Foreign` record; everything
    the engine decides itself (merging the options, choosing the transport,
    the fast failure on error statuses, the status, header and body checks)
    is modelled here. */
module Healthcheck {
  import opened Wrappers
  import opened JsValues
  import N = JsNumbers
  import P = PathLookup

  const RESPONSE := "OK"

  const TYPE_STATUS := "status"
  const TYPE_HEADER := "header"
  const TYPE_JSON := "json"

  const DEFAULT_URL := "localhost"
  const DEFAULT_METHOD := "GET"
  const DEFAULT_TIMEOUT := 800
  const DEFAULT_TYPE := TYPE_STATUS

  /** How a probe ends. `Thrown` is the synchronous throw of an invalid URL,
      before any promise exists; `Crash` is an exception raised inside the
      response's 'end' handler, which settles nothing and escapes to the
      process. */
  datatype Outcome =
    | Resolved(value: string)
    | Rejected(error: JsError)
    | Thrown(error: JsError)
    | Crash(error: JsError)

  /** What the URL parser yields that the engine uses. */
  datatype Url = Url(protocol: string, href: string)

  datatype Transport = Http | Https

  /** The request handed to the transport: the parsed URL and the merged
      options without `url`. */
  datatype Request = Request(transport: Transport, url: Url, options: map<string, JsValue>)

  /** A response as the engine sees it: status code, header map (names as
      the transport delivers them) and the body as the chunks that arrive. */
  datatype Response = Response(statusCode: int, headers: map<string, JsValue>, chunks: seq<string>)

  /** What the network does with a request: it answers, or the request emits
      'error'. */
  datatype Exchange = Answered(response: Response) | TransportFailed(error: JsError)

  /** The code the engine calls but does not contain. `parseJson` is
      `JSON.parse` (None: it throws); `regexTest(pattern, text)` is
      `new RegExp(pattern).test(text)` (None: the pattern does not compile);
      `send` is the network. */
  datatype Foreign = Foreign(
    parseJson: string -> Option<JsValue>,
    regexTest: (string, string) -> Option<bool>,
    send: Request -> Exchange)

  // ---------------------------------------------------------------------------
  // Options and URL

  function Defaults(): map<string, JsValue> {
    map["url" := Str(DEFAULT_URL), "method" := Str(DEFAULT_METHOD),
        "timeout" := Int(DEFAULT_TIMEOUT), "type" := Str(DEFAULT_TYPE)]
  }

  /** `options.key`, undefined when absent. */
  function Prop(options: map<string, JsValue>, key: string): JsValue {
    if key in options then options[key] else Undefined
  }

  /** `Object.assign({defaults}, options)`: every key the caller supplies
      wins, whatever its value, undefined included; the defaults fill the
      rest. */
  function Merge(options: map<string, JsValue>): (merged: map<string, JsValue>)
    ensures merged.Keys == Defaults().Keys + options.Keys
    ensures forall k :: k in options ==> merged[k] == options[k]
    ensures forall k :: k in Defaults() && k !in options ==> merged[k] == Defaults()[k]
  {
    Defaults() + options
  }

  predicate IsAsciiAlpha(c: char) {
    'a' <= c <= 'z' || 'A' <= c <= 'Z'
  }

  predicate IsSchemeChar(c: char) {
    IsAsciiAlpha(c) || N.IsDigit(c) || c == '+' || c == '-' || c == '.'
  }

  function ToAsciiLower(s: string): (t: string)
    ensures |t| == |s|
  {
    if s == [] then []
    else
      var c := s[0];
      [if 'A' <= c <= 'Z' then (c as int + 32) as char else c] + ToAsciiLower(s[1..])
  }

  /** A scheme: an ASCII letter, then letters, digits, '+', '-' or '.'. */
  predicate IsSchemeName(s: string) {
    |s| >= 1 && IsAsciiAlpha(s[0]) && forall j :: 1 <= j < |s| ==> IsSchemeChar(s[j])
  }

  /** The scheme of an absolute URL: the text before the first ':', if it is
      a scheme name. */
  function Scheme(input: string): (r: Option<string>)
    ensures r.Some? ==> IsSchemeName(r.value) && |r.value| < |input| && input[|r.value|] == ':'
    ensures r.Some? ==> input[..|r.value|] == r.value
  {
    match N.IndexOfAny(input, {':'})
    case None => None
    case Some(i) => if IsSchemeName(input[..i]) then Some(input[..i]) else None
  }

  /** `new URL(input)` without a base: fails (None) unless the input starts
      with a scheme; the protocol is the scheme in lower case with its ':'. */
  function ParseUrl(input: string): (r: Option<Url>)
    ensures r.Some? <==> Scheme(input).Some?
    ensures r.Some? ==> r.value.protocol == ToAsciiLower(Scheme(input).value) + ":"
  {
    match Scheme(input)
    case None => None
    case Some(scheme) => Some(Url(ToAsciiLower(scheme) + ":", input))
  }

  /** Exactly the protocol "https:" goes through the https module; every
      other protocol through http. */
  function SelectTransport(url: Url): (t: Transport)
    ensures t == Https <==> url.protocol == "https:"
  {
    if url.protocol == "https:" then Https else Http
  }

  /** The request a call makes, if any: None when the URL does not parse,
      which throws before any request exists. The request carries a copy of
      the merged options from which `url` alone was removed. */
  function RequestFor(options: map<string, JsValue>): (r: Option<Request>)
    ensures r.None? <==> ParseUrl(ToString(Prop(Merge(options), "url"))).None?
    ensures r.Some? ==> "url" !in r.value.options
    ensures r.Some? ==> forall k :: k in options && k != "url" ==> k in r.value.options && r.value.options[k] == options[k]
    ensures r.Some? ==> forall k :: k in Defaults() && k !in options && k != "url" ==> k in r.value.options && r.value.options[k] == Defaults()[k]
    ensures r.Some? ==> r.value.options.Keys == (Defaults().Keys + options.Keys) - {"url"}
    ensures r.Some? ==> r.value.url == ParseUrl(ToString(Prop(Merge(options), "url"))).value
    ensures r.Some? ==> r.value.transport == SelectTransport(r.value.url)
  {
    var merged := Merge(options);
    match ParseUrl(ToString(Prop(merged, "url")))
    case None => None
    case Some(url) => Some(Request(SelectTransport(url), url, merged - {"url"}))
  }

  /** The transport's own protocol check, made while the request is built
      inside the promise executor: https takes "https:", http takes "http:",
      and any other protocol throws there, which rejects the promise before
      anything is sent. */
  function TransportRefusal(url: Url): (e: Option<JsError>)
    ensures e.None? <==> url.protocol == "http:" || url.protocol == "https:"
    ensures e.Some? ==> SelectTransport(url) == Http
  {
    if url.protocol == "http:" || url.protocol == "https:" then None
    else Some(TypeError("Protocol \"" + url.protocol + "\" not supported. Expected \"http:\""))
  }

  // ---------------------------------------------------------------------------
  // The verdict

  function StatusMessage(status: int): string {
    "Request restuned a status code of " + ToString(Int(status))
  }

  /** `type === 'status'`: a search that converts to a number must equal the
      status code; a search that does not (absent included) passes. */
  function StatusVerdict(search: JsValue, status: int): (r: Outcome)
    ensures r == Resolved(RESPONSE) || r.Rejected?
    ensures IsNaN(search) ==> r == Resolved(RESPONSE)
  {
    if !IsNaN(search) then
      if N.EqualsInt(ToNumber(search), status) then Resolved(RESPONSE)
      else Rejected(Error("Expected status code " + ToString(search) + ", received " + ToString(Int(status))))
    else Resolved(RESPONSE)
  }

  /** `type === 'header'`: a non-empty array search `[name, value]` needs the
      header `name` to be present and loosely equal to `value`; any other
      search passes. */
  function HeaderVerdict(search: JsValue, headers: map<string, JsValue>): (r: Outcome)
    ensures r == Resolved(RESPONSE) || r.Rejected?
    ensures !(search.Arr? && |search.items| > 0) ==> r == Resolved(RESPONSE)
  {
    if search.Arr? && |search.items| > 0 then
      var name := ToString(At(search, 0));
      if |search.items| > 1 && name in headers && LooseEquals(headers[name], At(search, 1)) then
        Resolved(RESPONSE)
      else
        Rejected(Error("Could not find header property " + ToString(At(search, 0))
          + " with value " + ToString(At(search, 1))))
    else Resolved(RESPONSE)
  }

  /** The body as the 'data' handler builds it: the chunks in arrival order. */
  function Concat(chunks: seq<string>): (body: string)
    ensures forall i :: 0 <= i < |chunks| ==> |chunks[i]| <= |body|
  {
    if chunks == [] then "" else Concat(chunks[..|chunks| - 1]) + chunks[|chunks| - 1]
  }

  function Settle(success: bool): Outcome {
    if success then Resolved(RESPONSE) else Rejected(Error("Search failed."))
  }

  const JSON_ERROR := SyntaxError("Unexpected token in JSON")
  const PATTERN_ERROR := SyntaxError("Invalid regular expression")
  const NULL_READ_ERROR := TypeError("Cannot read properties of null")
  const COERCE_ERROR := TypeError("Cannot convert object to primitive value")

  /** The verdict on `x == y` in the 'end' handler: a comparison that throws
      escapes the handler, any other settles on its result. */
  function SettleEquals(x: JsValue, y: JsValue): (r: Outcome)
    ensures r.Crash? <==> LooseEqualsThrows(x, y)
    ensures r.Resolved? ==> LooseEquals(x, y)
  {
    if LooseEqualsThrows(x, y) then Crash(COERCE_ERROR) else Settle(LooseEquals(x, y))
  }

  /** The search runs only when the search value and its `length` are both
      truthy. */
  predicate Searches(search: JsValue) {
    Truthy(search) && Truthy(Length(search))
  }

  /** The 'end' handler, given the whole body. */
  function OnEnd(options: map<string, JsValue>, body: string, env: Foreign): (r: Outcome)
    ensures body == "" ==> r == Rejected(Error("Body is empty."))
    ensures r.Resolved? ==> r.value == RESPONSE && body != ""
    ensures !r.Thrown?
  {
    var search := Prop(options, "search");
    if body == "" then Rejected(Error("Body is empty."))
    else if !Searches(search) then Resolved(RESPONSE)
    else if Prop(options, "type") == Str(TYPE_JSON) then
      match env.parseJson(body)
      case None => Crash(JSON_ERROR)
      case Some(doc) =>
        if N.GreaterThanInt(ToNumber(Length(search)), 1) then
          SettleEquals(P.LodashGet(doc, At(search, 0)), At(search, 1))
        else (
          match Get(doc, ToString(At(search, 0)))
          case None => Crash(NULL_READ_ERROR)
          case Some(v) => SettleEquals(doc, v))
    else
      match env.regexTest(ToString(search), body)
      case None => Crash(PATTERN_ERROR)
      case Some(found) => Settle(found)
  }

  /** The response callback: fast failure on an error status, then the
      dispatch on `type`; only a 200 has its body read. */
  function OnResponse(options: map<string, JsValue>, res: Response, env: Foreign): (r: Outcome)
    ensures res.statusCode > 399 ==> r.Rejected?
    ensures r.Resolved? ==> r.value == RESPONSE
    ensures !r.Thrown?
    ensures r.Crash? ==> res.statusCode == 200
  {
    var kind := Prop(options, "type");
    if res.statusCode > 399 then Rejected(Error(StatusMessage(res.statusCode)))
    else if kind == Str(TYPE_STATUS) then StatusVerdict(Prop(options, "search"), res.statusCode)
    else if kind == Str(TYPE_HEADER) then HeaderVerdict(Prop(options, "search"), res.headers)
    else if res.statusCode == 200 then OnEnd(options, Concat(res.chunks), env)
    else Resolved(RESPONSE)
  }

  /** `healthcheck(options)`: the outcome of one probe. The protocol check
      and the network both run inside the promise executor, so what they
      raise rejects. */
  function Probe(options: map<string, JsValue>, env: Foreign): (r: Outcome)
    ensures r.Thrown? <==> RequestFor(options).None?
    ensures r.Thrown? ==> r.error == TypeError("Invalid URL")
    ensures r.Resolved? ==> r.value == RESPONSE
    ensures RequestFor(options).Some? && TransportRefusal(RequestFor(options).value.url).Some? ==> r.Rejected?
    ensures (RequestFor(options).Some? && TransportRefusal(RequestFor(options).value.url).None?
             && env.send(RequestFor(options).value).TransportFailed?) ==>
        r == Rejected(env.send(RequestFor(options).value).error)
    ensures (RequestFor(options).Some? && TransportRefusal(RequestFor(options).value.url).None?
             && env.send(RequestFor(options).value).Answered?) ==>
        r == OnResponse(RequestFor(options).value.options, env.send(RequestFor(options).value).response, env)
  {
    match RequestFor(options)
    case None => Thrown(TypeError("Invalid URL"))
    case Some(request) =>
      match TransportRefusal(request.url)
      case Some(e) => Rejected(e)
      case None =>
      match env.send(request)
      case TransportFailed(e) => Rejected(e)
      case Answered(res) => OnResponse(request.options, res, env)
  }

  // ---------------------------------------------------------------------------
  // The engine as it runs

  /** Accumulates the chunks with `body += chunk`. */
  method ReadBody(chunks: seq<string>) returns (body: string)
    ensures body == Concat(chunks)
  {
    body := "";
    var i := 0;
    while i < |chunks|
      invariant 0 <= i <= |chunks|
      invariant body == Concat(chunks[..i])
    {
      assert chunks[..i + 1][..i] == chunks[..i];
      body := body + chunks[i];
      i := i + 1;
    }
    assert chunks[..|chunks|] == chunks;
  }

  /** The response callback with its early returns and `success` flag. */
  method Callback(options: map<string, JsValue>, res: Response, env: Foreign) returns (outcome: Outcome)
    ensures outcome == OnResponse(options, res, env)
  {
    if res.statusCode > 399 {
      return Rejected(Error(StatusMessage(res.statusCode)));
    }
    var kind := Prop(options, "type");
    var search := Prop(options, "search");
    if kind == Str(TYPE_STATUS) {
      return StatusVerdict(search, res.statusCode);
    }
    if kind == Str(TYPE_HEADER) {
      return HeaderVerdict(search, res.headers);
    }
    if res.statusCode != 200 {
      return Resolved(RESPONSE);
    }
    var body := ReadBody(res.chunks);
    if body == "" {
      return Rejected(Error("Body is empty."));
    }
    if !(Truthy(search) && Truthy(Length(search))) {
      return Resolved(RESPONSE);
    }
    var success := false;
    if kind == Str(TYPE_JSON) {
      var parsed := env.parseJson(body);
      if parsed.None? {
        return Crash(JSON_ERROR);
      }
      var doc := parsed.value;
      var left, right;
      if N.GreaterThanInt(ToNumber(Length(search)), 1) {
        left, right := P.LodashGet(doc, At(search, 0)), At(search, 1);
      } else {
        var child := Get(doc, ToString(At(search, 0)));
        if child.None? {
          return Crash(NULL_READ_ERROR);
        }
        left, right := doc, child.value;
      }
      if LooseEqualsThrows(left, right) {
        return Crash(COERCE_ERROR);
      }
      success := LooseEquals(left, right);
    } else {
      var found := env.regexTest(ToString(search), body);
      if found.None? {
        return Crash(PATTERN_ERROR);
      }
      success := found.value;
    }
    if success {
      outcome := Resolved(RESPONSE);
    } else {
      outcome := Rejected(Error("Search failed."));
    }
  }

  /** `healthcheck(options)`: merges into a fresh object (the caller's object
      is not in any modifies clause, so it is left as it was), parses the URL,
      deletes `url` from the copy, and, unless the transport refuses the
      protocol, sends the request and judges the answer. */
  method Run(options: JsObject, env: Foreign) returns (outcome: Outcome, request: Option<Request>)
    ensures outcome == Probe(options.props, env)
    ensures request == RequestFor(options.props)
  {
    var merged := new JsObject(Defaults());
    merged.AssignFrom(options);
    assert merged.props == Merge(options.props);
    var url := ParseUrl(ToString(merged.Read("url")));
    if url.None? {
      return Thrown(TypeError("Invalid URL")), None;
    }
    merged.Delete("url");
    request := Some(Request(SelectTransport(url.value), url.value, merged.props));
    var refusal := TransportRefusal(url.value);
    if refusal.Some? {
      return Rejected(refusal.value), request;
    }
    match env.send(request.value)
    case TransportFailed(e) =>
      outcome := Rejected(e);
    case Answered(res) =>
      outcome := Callback(merged.props, res, env);
  }

  // ---------------------------------------------------------------------------
  // Properties

  /** The body is the in-order concatenation of the chunks: splitting the
      chunk sequence anywhere splits the body there. */
  lemma {:induction false} ConcatAppend(a: seq<string>, b: seq<string>)
    ensures Concat(a + b) == Concat(a) + Concat(b)
    decreases |b|
  {
    if b == [] {
      assert a + b == a;
    } else {
      var last := b[|b| - 1];
      var front := b[..|b| - 1];
      assert (a + b)[..|a + b| - 1] == a + front;
      ConcatAppend(a, front);
    }
  }

  /** The body is empty exactly when every chunk is. */
  lemma {:induction false} ConcatEmpty(chunks: seq<string>)
    ensures Concat(chunks) == "" <==> forall i :: 0 <= i < |chunks| ==> chunks[i] == ""
  {
    if chunks != [] {
      var front := chunks[..|chunks| - 1];
      ConcatEmpty(front);
      assert forall i :: 0 <= i < |front| ==> front[i] == chunks[i];
    }
  }

  /** A status above 399 rejects with the status in the message, whatever
      the options and whatever a search might have found. */
  lemma FastFail(options: map<string, JsValue>, res: Response, env: Foreign)
    requires res.statusCode > 399
    ensures OnResponse(options, res, env) == Rejected(Error("Request restuned a status code of " + N.IntToString(res.statusCode)))
  {
    IntSpelling(res.statusCode);
  }

  /** A status code prints as its plain decimal spelling. */
  lemma IntSpelling(i: int)
    ensures ToString(Int(i)) == N.IntToString(i)
  {
    assert N.Normalize(i, 0) == (i, 0);
  }

  /** The status check: a numeric search decides by equality with the
      status code, with the expected and received codes in the message; a
      search that is not numeric (absent included) passes. */
  lemma StatusCheck(options: map<string, JsValue>, res: Response, env: Foreign)
    requires res.statusCode <= 399 && Prop(options, "type") == Str(TYPE_STATUS)
    ensures var search := Prop(options, "search");
      OnResponse(options, res, env) ==
        if IsNaN(search) || N.EqualsInt(ToNumber(search), res.statusCode) then Resolved(RESPONSE)
        else Rejected(Error("Expected status code " + ToString(search) + ", received " + N.IntToString(res.statusCode)))
  {
    IntSpelling(res.statusCode);
  }

  /** A status search of 200 against a 200 passes (the test suite's
      numeric search). */
  lemma StatusSearchMatches(options: map<string, JsValue>, res: Response, env: Foreign)
    requires Prop(options, "type") == Str(TYPE_STATUS) && Prop(options, "search") == Int(200)
    requires res.statusCode == 200
    ensures OnResponse(options, res, env) == Resolved(RESPONSE)
  {
    StatusCheck(options, res, env);
  }

  /** A numeric status search other than the status code fails, naming
      both codes in decimal: 300 against a 200 gives "Expected status code
      300, received 200". */
  lemma StatusNumberMismatch(options: map<string, JsValue>, res: Response, env: Foreign, code: int)
    requires res.statusCode <= 399 && Prop(options, "type") == Str(TYPE_STATUS)
    requires Prop(options, "search") == Int(code) && code != res.statusCode
    ensures OnResponse(options, res, env)
      == Rejected(Error("Expected status code " + N.IntToString(code) + ", received " + N.IntToString(res.statusCode)))
  {
    StatusCheck(options, res, env);
    IntSpelling(code);
  }

  /** A status search given as the decimal spelling of a code, as the
      command line delivers it, decides exactly as the number would. */
  lemma StatusStringSearch(options: map<string, JsValue>, res: Response, env: Foreign, code: int)
    requires res.statusCode <= 399 && Prop(options, "type") == Str(TYPE_STATUS)
    requires Prop(options, "search") == Str(N.IntToString(code))
    ensures OnResponse(options, res, env) == Resolved(RESPONSE) <==> code == res.statusCode
  {
    N.IntToStringRoundTrip(code);
    StatusCheck(options, res, env);
  }

  /** The header check with a non-empty array search `[name, value]`: it
      passes exactly when there is a second element, the header `name` is
      present and its value is loosely equal to the second element. */
  lemma HeaderCheck(options: map<string, JsValue>, res: Response, env: Foreign, items: seq<JsValue>)
    requires res.statusCode <= 399 && Prop(options, "type") == Str(TYPE_HEADER)
    requires Prop(options, "search") == Arr(items) && |items| > 0
    ensures var name := ToString(items[0]);
      OnResponse(options, res, env) == Resolved(RESPONSE) <==>
        |items| > 1 && name in res.headers && LooseEquals(res.headers[name], items[1])
    ensures OnResponse(options, res, env).Resolved? || OnResponse(options, res, env).Rejected?
  {
    AtSequence(Arr(items), 0);
    AtSequence(Arr(items), 1);
  }

  /** A one-element header search always fails, naming the value as
      "undefined". */
  lemma HeaderOneElementRejects(options: map<string, JsValue>, res: Response, env: Foreign, name: JsValue)
    requires res.statusCode <= 399 && Prop(options, "type") == Str(TYPE_HEADER)
    requires Prop(options, "search") == Arr([name])
    ensures OnResponse(options, res, env) ==
      Rejected(Error("Could not find header property " + ToString(name) + " with value undefined"))
  {
    AtSequence(Arr([name]), 0);
    AtSequence(Arr([name]), 1);
    assert ToString(Undefined) == "undefined";
    var prefix := "Could not find header property " + ToString(name);
    assert prefix + " with value " + "undefined" == prefix + " with value undefined";
  }

  /** A header search that is not an array, or is an empty array, passes
      without looking at the headers. */
  lemma HeaderWithoutArrayPasses(options: map<string, JsValue>, res: Response, env: Foreign)
    requires res.statusCode <= 399 && Prop(options, "type") == Str(TYPE_HEADER)
    requires !Prop(options, "search").Arr? || Prop(options, "search") == Arr([])
    ensures OnResponse(options, res, env) == Resolved(RESPONSE)
  {
  }

  /** The header search of the test suite against a response whose
      content-type is "text/html; charset=UTF-8": that pair passes. */
  lemma HeaderSearchFound(options: map<string, JsValue>, res: Response, env: Foreign)
    requires res.statusCode == 200 && res.headers == map["content-type" := Str("text/html; charset=UTF-8")]
    requires Prop(options, "type") == Str(TYPE_HEADER)
    requires Prop(options, "search") == Arr([Str("content-type"), Str("text/html; charset=UTF-8")])
    ensures OnResponse(options, res, env) == Resolved(RESPONSE)
  {
    HeaderCheck(options, res, env, [Str("content-type"), Str("text/html; charset=UTF-8")]);
  }

  /** Against the same response, `['yep', 'nope']` fails: there is no header
      "yep". */
  lemma HeaderSearchMissing(options: map<string, JsValue>, res: Response, env: Foreign)
    requires res.statusCode == 200 && res.headers == map["content-type" := Str("text/html; charset=UTF-8")]
    requires Prop(options, "type") == Str(TYPE_HEADER) && Prop(options, "search") == Arr([Str("yep"), Str("nope")])
    ensures OnResponse(options, res, env).Rejected?
  {
    HeaderCheck(options, res, env, [Str("yep"), Str("nope")]);
  }

  /** Every type other than "status" and "header" (json, html, an unknown
      string, undefined) takes the body branch, and only a 200 has its body
      read; any other status up to 399 passes unread. */
  lemma BodyBranch(options: map<string, JsValue>, res: Response, env: Foreign)
    requires res.statusCode <= 399
    requires Prop(options, "type") != Str(TYPE_STATUS) && Prop(options, "type") != Str(TYPE_HEADER)
    ensures res.statusCode == 200 ==> OnResponse(options, res, env) == OnEnd(options, Concat(res.chunks), env)
    ensures res.statusCode != 200 ==> OnResponse(options, res, env) == Resolved(RESPONSE)
  {
  }

  /** An empty body fails whatever the search, and nothing is parsed or
      matched. */
  lemma EmptyBodyRejects(options: map<string, JsValue>, res: Response, env: Foreign)
    requires res.statusCode == 200
    requires Prop(options, "type") != Str(TYPE_STATUS) && Prop(options, "type") != Str(TYPE_HEADER)
    requires forall i :: 0 <= i < |res.chunks| ==> res.chunks[i] == ""
    ensures OnResponse(options, res, env) == Rejected(Error("Body is empty."))
  {
    ConcatEmpty(res.chunks);
  }

  /** A search without a truthy `length` (absent, a number, a boolean, a
      regular expression object) is ignored: a non-empty body passes and
      neither the JSON parser nor the pattern matcher is consulted. */
  lemma SearchWithoutLengthIgnored(options: map<string, JsValue>, body: string, env1: Foreign, env2: Foreign)
    requires var search := Prop(options, "search");
      IsNullish(search) || search.Num? || search.Bool? || search.RegExp?
    requires body != ""
    ensures OnEnd(options, body, env1) == OnEnd(options, body, env2) == Resolved(RESPONSE)
  {
    var search := Prop(options, "search");
    if !IsNullish(search) {
      NoLength(search);
    }
  }

  /** The regular expression search of the test suite is never applied. */
  lemma RegExpSearchIgnored(res: Response, env: Foreign)
    requires res.statusCode == 200 && Concat(res.chunks) != ""
    ensures OnResponse(map["type" := Str("html"), "search" := RegExp("^!DOCTYPE\\sHTML", "i")], res, env) == Resolved(RESPONSE)
  {
    SearchWithoutLengthIgnored(map["type" := Str("html"), "search" := RegExp("^!DOCTYPE\\sHTML", "i")], Concat(res.chunks), env, env);
  }

  /** A JSON search with two or more elements passes exactly when the value
      at the path `items[0]` of the parsed body is loosely equal to
      `items[1]`. */
  lemma JsonPairSearch(options: map<string, JsValue>, body: string, env: Foreign, items: seq<JsValue>, doc: JsValue)
    requires Prop(options, "type") == Str(TYPE_JSON) && Prop(options, "search") == Arr(items)
    requires |items| >= 2 && body != "" && env.parseJson(body) == Some(doc)
    ensures OnEnd(options, body, env) == SettleEquals(P.LodashGet(doc, items[0]), items[1])
  {
    AtSequence(Arr(items), 0);
    AtSequence(Arr(items), 1);
  }

  /** A JSON search with one element compares the whole parsed body with its
      own property `items[0]`; reading a property of a null body throws. */
  lemma JsonSingleSearch(options: map<string, JsValue>, body: string, env: Foreign, item: JsValue, doc: JsValue)
    requires Prop(options, "type") == Str(TYPE_JSON) && Prop(options, "search") == Arr([item])
    requires body != "" && env.parseJson(body) == Some(doc)
    ensures IsNullish(doc) ==> OnEnd(options, body, env) == Crash(NULL_READ_ERROR)
    ensures !IsNullish(doc) ==> OnEnd(options, body, env) == SettleEquals(doc, Get(doc, ToString(item)).value)
  {
    AtSequence(Arr([item]), 0);
  }

  /** A plain object is loosely equal to a value only if that value is the
      string "[object Object]"; with an own "toString" key, comparing it with
      a primitive other than undefined and null throws instead. */
  lemma ObjectEquals(fields: map<string, JsValue>, v: JsValue)
    ensures LooseEquals(Obj(fields), v) <==> v == Str("[object Object]")
    ensures LooseEqualsThrows(Obj(fields), v) <==> "toString" in fields && !IsNullish(v) && !IsObject(v)
  {
    match v
    case Num(n) => ObjectNotNumber(fields, v);
    case Bool(b) => ObjectNotNumber(fields, v);
    case _ =>
  }

  /** Compared with a number or a boolean, an object goes through the number
      its string form reads as, NaN, so it is never equal. */
  lemma ObjectNotNumber(fields: map<string, JsValue>, v: JsValue)
    requires v.Num? || v.Bool?
    ensures !LooseEquals(Obj(fields), v)
  {
    var t := ToString(Obj(fields));
    ObjectComparesAsString(Obj(fields), v);
    assert N.StringToNumber(t).NaN? by {
      assert ToNumber(Obj(fields)).NaN?;
    }
    NaNStringEqualsNoNumber(t, v);
  }

  /** So a one-element search on a JSON object passes only when the named
      property holds the string "[object Object]" and the object has no own
      "toString": `['apple']` against `{"apple": "red"}` fails. With an own
      "toString", a named property holding a number, string or boolean makes
      the handler throw. */
  lemma OneElementSearchOnObject(options: map<string, JsValue>, body: string, env: Foreign, item: JsValue, fields: map<string, JsValue>)
    requires Prop(options, "type") == Str(TYPE_JSON) && Prop(options, "search") == Arr([item])
    requires body != "" && env.parseJson(body) == Some(Obj(fields))
    ensures var key := ToString(item);
      OnEnd(options, body, env) == Resolved(RESPONSE) <==>
        key in fields && fields[key] == Str("[object Object]") && "toString" !in fields
    ensures var key := ToString(item);
      OnEnd(options, body, env) == Crash(COERCE_ERROR) <==>
        "toString" in fields && key in fields && !IsNullish(fields[key]) && !IsObject(fields[key])
  {
    JsonSingleSearch(options, body, env, item, Obj(fields));
    var key := ToString(item);
    ObjectEquals(fields, Get(Obj(fields), key).value);
  }

  /** A two-element JSON search whose path is a plain key (no dot) compares
      that top-level property of the parsed object, undefined when absent. */
  lemma JsonKeySearch(options: map<string, JsValue>, body: string, env: Foreign, key: string, expected: JsValue, fields: map<string, JsValue>)
    requires Prop(options, "type") == Str(TYPE_JSON) && Prop(options, "search") == Arr([Str(key), expected])
    requires '.' !in key && body != "" && env.parseJson(body) == Some(Obj(fields))
    ensures OnEnd(options, body, env) == SettleEquals(if key in fields then fields[key] else Undefined, expected)
  {
    JsonPairSearch(options, body, env, [Str(key), expected], Obj(fields));
    P.PlainKeyLookup(fields, key);
  }

  /** The JSON searches of the test suite against `{"apple": "red"}`:
      `['apple', 'red']` passes and `['nope', 0]` fails. */
  lemma JsonSearchExamples(options: map<string, JsValue>, other: map<string, JsValue>, body: string, env: Foreign)
    requires body != "" && env.parseJson(body) == Some(Obj(map["apple" := Str("red")]))
    requires Prop(options, "type") == Str(TYPE_JSON) && Prop(options, "search") == Arr([Str("apple"), Str("red")])
    requires Prop(other, "type") == Str(TYPE_JSON) && Prop(other, "search") == Arr([Str("nope"), Int(0)])
    ensures OnEnd(options, body, env) == Resolved(RESPONSE)
    ensures OnEnd(other, body, env) == Rejected(Error("Search failed."))
  {
    var fields := map["apple" := Str("red")];
    JsonKeySearch(options, body, env, "apple", Str("red"), fields);
    LooseEqualsStrings("red", "red");
    JsonKeySearch(other, body, env, "nope", Int(0), fields);
    LooseEqualsUndefined(Int(0));
  }

  /** The two ways a parsed object with an own "toString" key escapes the
      handler: `['data', 'x']` against `{"data": {"toString": 1}}` compares
      that inner object with a string, and `['toString']` against
      `{"toString": "[object Object]"}` compares the document itself with
      a string. */
  lemma OwnToStringCrashes(options: map<string, JsValue>, other: map<string, JsValue>, env: Foreign,
                           body: string, inner: map<string, JsValue>, body2: string, doc: map<string, JsValue>)
    requires body != "" && env.parseJson(body) == Some(Obj(map["data" := Obj(inner)])) && "toString" in inner
    requires Prop(options, "type") == Str(TYPE_JSON) && Prop(options, "search") == Arr([Str("data"), Str("x")])
    requires body2 != "" && env.parseJson(body2) == Some(Obj(doc))
    requires "toString" in doc && doc["toString"] == Str("[object Object]")
    requires Prop(other, "type") == Str(TYPE_JSON) && Prop(other, "search") == Arr([Str("toString")])
    ensures OnEnd(options, body, env) == Crash(COERCE_ERROR)
    ensures OnEnd(other, body2, env) == Crash(COERCE_ERROR)
  {
    JsonKeySearch(options, body, env, "data", Str("x"), map["data" := Obj(inner)]);
    OwnToStringThrows(inner, Str("x"));
    OneElementSearchOnObject(other, body2, env, Str("toString"), doc);
  }

  /** Outside JSON, a search with a truthy length is compiled as a pattern
      from its string form and tested against the raw body. */
  lemma PatternSearch(options: map<string, JsValue>, body: string, env: Foreign)
    requires Prop(options, "type") != Str(TYPE_JSON) && body != ""
    requires Searches(Prop(options, "search"))
    ensures var test := env.regexTest(ToString(Prop(options, "search")), body);
      OnEnd(options, body, env) == if test.None? then Crash(PATTERN_ERROR) else Settle(test.value)
  {
  }

  /** `p` occurs in `t` starting at `i`. */
  predicate OccursAt(p: string, t: string, i: int) {
    0 <= i && i + |p| <= |t| && t[i..i + |p|] == p
  }

  /** What a pattern without metacharacters matches: its own text,
      case-sensitively. */
  predicate Contains(t: string, p: string) {
    exists i :: 0 <= i <= |t| && OccursAt(p, t, i)
  }

  /** A text lacking some character of the pattern does not contain it. */
  lemma MissingCharacter(t: string, p: string, c: char)
    requires c in p && c !in t
    ensures !Contains(t, p)
  {
    var j :| 0 <= j < |p| && p[j] == c;
    forall i | 0 <= i <= |t| ensures !OccursAt(p, t, i) {
      if i + |p| <= |t| {
        assert t[i..i + |p|][j] == t[i + j];
      }
    }
  }

  /** A non-empty search without metacharacters, matched as its own text:
      the check passes exactly when the body contains it. */
  lemma LiteralPatternSearch(options: map<string, JsValue>, body: string, env: Foreign, p: string)
    requires Prop(options, "type") != Str(TYPE_JSON) && body != ""
    requires Prop(options, "search") == Str(p) && p != ""
    requires env.regexTest(p, body) == Some(Contains(body, p))
    ensures OnEnd(options, body, env) == Settle(Contains(body, p))
  {
    LengthOfSequence(Str(p));
    PatternSearch(options, body, env);
  }

  /** A text search of the test suite, with the pattern matching as a
      pattern without metacharacters does, by substring: 'Example Domain' is
      found in a page that contains it. */
  lemma TextSearchFound(options: map<string, JsValue>, body: string, env: Foreign)
    requires body == "<h1>Example Domain</h1>"
    requires env.regexTest("Example Domain", body) == Some(Contains(body, "Example Domain"))
    requires Prop(options, "type") == Str("html") && Prop(options, "search") == Str("Example Domain")
    ensures OnEnd(options, body, env) == Resolved(RESPONSE)
  {
    assert Contains(body, "Example Domain") by {
      assert OccursAt("Example Domain", body, 4);
    }
    LiteralPatternSearch(options, body, env, "Example Domain");
  }

  /** The failing text search of the test suite: 'eXample doMain' is not
      found in the same page, which has no 'X' in it. */
  lemma TextSearchNotFound(options: map<string, JsValue>, body: string, env: Foreign)
    requires body == "<h1>Example Domain</h1>"
    requires env.regexTest("eXample doMain", body) == Some(Contains(body, "eXample doMain"))
    requires Prop(options, "type") == Str("html") && Prop(options, "search") == Str("eXample doMain")
    ensures OnEnd(options, body, env) == Rejected(Error("Search failed."))
  {
    assert !Contains(body, "eXample doMain") by {
      MissingCharacter(body, "eXample doMain", 'X');
    }
    LiteralPatternSearch(options, body, env, "eXample doMain");
  }

  /** A key supplied as undefined still replaces its default: an undefined
      type is not the default "status", so the body branch decides. */
  lemma UndefinedTypeOverridesDefault(options: map<string, JsValue>)
    requires "type" in options && options["type"] == Undefined
    ensures Prop(Merge(options), "type") == Undefined
    ensures RequestFor(options).Some? ==> Prop(RequestFor(options).value.options, "type") == Undefined
  {
  }

  /** Without a URL the default "localhost" is used, which has no scheme:
      the call throws before any request is made. */
  lemma DefaultUrlThrows(options: map<string, JsValue>, env: Foreign)
    requires "url" !in options
    ensures RequestFor(options) == None
    ensures Probe(options, env) == Thrown(TypeError("Invalid URL"))
  {
    assert Prop(Merge(options), "url") == Str(DEFAULT_URL);
    NoColonNoUrl(DEFAULT_URL);
  }

  /** An undefined URL reads as "undefined", which has no scheme either. */
  lemma UndefinedUrlThrows(options: map<string, JsValue>, env: Foreign)
    requires "url" in options && options["url"] == Undefined
    ensures RequestFor(options) == None
    ensures Probe(options, env) == Thrown(TypeError("Invalid URL"))
  {
    assert Prop(Merge(options), "url") == Undefined;
    NoColonNoUrl("undefined");
  }

  /** Without a ':' there is no scheme, so no URL. */
  lemma NoColonNoUrl(input: string)
    requires forall j :: 0 <= j < |input| ==> input[j] != ':'
    ensures ParseUrl(input) == None
  {
  }

  /** A URL that does not parse throws without consulting the network. */
  lemma InvalidUrlNeverSends(options: map<string, JsValue>, env1: Foreign, env2: Foreign)
    requires RequestFor(options).None?
    ensures Probe(options, env1) == Probe(options, env2) == Thrown(TypeError("Invalid URL"))
  {
  }

  /** A URL that parses but is neither http nor https is refused by the
      transport: the probe rejects, and what the network would do makes no
      difference. */
  lemma UnsupportedProtocolNeverSends(options: map<string, JsValue>, env1: Foreign, env2: Foreign)
    requires RequestFor(options).Some?
    requires RequestFor(options).value.url.protocol != "http:"
    requires RequestFor(options).value.url.protocol != "https:"
    ensures Probe(options, env1) == Probe(options, env2)
    ensures Probe(options, env1).Rejected?
  {
  }

  /** A URL whose scheme is neither http nor https in any case parses,
      and the transport then refuses its protocol. */
  lemma ForeignSchemeIsRefused(options: map<string, JsValue>, env: Foreign, scheme: string, rest: string)
    requires Prop(Merge(options), "url") == Str(scheme + ":" + rest)
    requires IsSchemeName(scheme) && ToAsciiLower(scheme) != "http" && ToAsciiLower(scheme) != "https"
    ensures RequestFor(options).Some? && RequestFor(options).value.url.protocol == ToAsciiLower(scheme) + ":"
    ensures Probe(options, env).Rejected?
  {
    SchemeParses(scheme, rest);
    var lower := ToAsciiLower(scheme);
    var url := Url(lower + ":", scheme + ":" + rest);
    assert ParseUrl(ToString(Prop(Merge(options), "url"))) == Some(url);
    assert RequestFor(options).value.url == url;
    ColonKeepsSchemesApart(lower);
  }

  lemma ColonKeepsSchemesApart(lower: string)
    requires lower != "http" && lower != "https"
    ensures lower + ":" != "http:" && lower + ":" != "https:"
  {
    assert lower == (lower + ":")[..|lower|];
  }

  /** A host and port without a scheme, "localhost:3000", parses with the
      host name as its scheme, and the transport then refuses the protocol
      "localhost:", whatever the network would do. */
  lemma HostPortIsRefused(options: map<string, JsValue>, env: Foreign)
    requires "url" in options && options["url"] == Str("localhost:3000")
    ensures RequestFor(options).Some? && RequestFor(options).value.url.protocol == "localhost:"
    ensures Probe(options, env).Rejected?
  {
    LocalhostSplits();
    LocalhostScheme();
    assert Prop(Merge(options), "url") == Str("localhost" + ":" + "3000");
    ForeignSchemeIsRefused(options, env, "localhost", "3000");
  }

  lemma LocalhostSplits()
    ensures "localhost:3000" == "localhost" + ":" + "3000"
  {
  }

  lemma LocalhostScheme()
    ensures IsSchemeName("localhost") && ToAsciiLower("localhost") == "localhost"
  {
    var host := "localhost";
    assert forall i :: 0 <= i < |host| ==> 'a' <= host[i] <= 'z';
    LowerCaseUnchanged(host);
  }

  /** Lower-casing leaves a string without upper-case ASCII letters as it is. */
  lemma {:induction false} LowerCaseUnchanged(s: string)
    requires forall i :: 0 <= i < |s| ==> !('A' <= s[i] <= 'Z')
    ensures ToAsciiLower(s) == s
  {
    if s != [] {
      LowerCaseUnchanged(s[1..]);
    }
  }

  /** A scheme followed by ':' makes an absolute URL whatever comes after
      it, with the scheme in lower case as its protocol. */
  lemma SchemeParses(scheme: string, rest: string)
    requires IsSchemeName(scheme)
    ensures ParseUrl(scheme + ":" + rest) == Some(Url(ToAsciiLower(scheme) + ":", scheme + ":" + rest))
  {
    var s := scheme + ":" + rest;
    var k := |scheme|;
    assert s[..k] == scheme;
    assert N.IndexOfAny(s, {':'}) == Some(k) by {
      forall j | 0 <= j < k ensures s[j] !in {':'} {
        assert s[j] == scheme[j];
      }
      P.IndexOfAnyFirst(s, {':'}, k);
    }
  }

  /** A URL with a valid scheme parses, and goes through https exactly
      when its scheme, lower-cased, is "https". */
  lemma TransportOfScheme(scheme: string, rest: string)
    requires IsSchemeName(scheme)
    ensures ParseUrl(scheme + ":" + rest).Some?
    ensures SelectTransport(ParseUrl(scheme + ":" + rest).value) == Https <==> ToAsciiLower(scheme) == "https"
  {
    SchemeParses(scheme, rest);
    var lower := ToAsciiLower(scheme);
    if lower + ":" == "https:" {
      assert lower == (lower + ":")[..|lower|];
    }
  }

  /** The transport follows the scheme whatever its case: "HTTPS:..." goes
      through https, "http:..." through http. */
  lemma TransportFollowsScheme(rest: string)
    ensures ParseUrl("HTTPS:" + rest).Some? && SelectTransport(ParseUrl("HTTPS:" + rest).value) == Https
    ensures ParseUrl("http:" + rest).Some? && SelectTransport(ParseUrl("http:" + rest).value) == Http
  {
    assert "HTTPS" + ":" + rest == "HTTPS:" + rest;
    assert ToAsciiLower("HTTPS") == "https";
    TransportOfScheme("HTTPS", rest);
    assert "http" + ":" + rest == "http:" + rest;
    assert ToAsciiLower("http") == "http";
    TransportOfScheme("http", rest);
  }
}
