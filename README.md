# healthcheck, modelled in Dafny

`healthcheck` probes one web resource with a single HTTP(S) request and turns
the answer into a verdict. The verdict is the string "OK" or an error. The
library (`lib/healthcheck.js`) does the following:

- It merges the caller's options over defaults: url `localhost`, method
  `GET`, timeout 800, type `status`.
- It parses the URL, removes `url` from the options and picks the `https`
  or `http` module by protocol.
- It fails fast on any status above 399, then applies one of these checks:
  - the status check (`type: 'status'`);
  - the header check (`type: 'header'`);
  - a body check, only for a status of exactly 200. The body check parses
    JSON and looks up a dot path (`type: 'json'`), or otherwise compiles the
    search as a regular expression and tests it against the raw body.

The command line (`bin/healthcheck.js`) does four things:

- It turns the parsed arguments into a six-key options record.
- It splits a `key=value` search at its first `=`.
- It calls the library.
- It maps the outcome to the exit status.

The project has six modules:

- `Wrappers` (`wrappers.dfy`): the `Option` type.
- `JsNumbers` (`js_numbers.dfy`):
  - JavaScript numbers as exact decimals (NaN, ±Infinity, `m / 10^k`);
  - `String(n)`, `Number(s)` and `===` on them.
- `JsValues` (`js_values.dfy`):
  - the JavaScript values the engine touches, with truthiness, `String(v)`, `Number(v)`, loose `==` and property access `v[key]`;
  - `JsObject`, a class for the objects the code updates in place.
- `PathLookup` (`lodash_get.dfy`): the `get(object, path)` of lodash, with dot paths.
- `Healthcheck` (`healthcheck.dfy`): the library.
  - The verdict logic is written as functions (`OnResponse`, `OnEnd`, `Probe`).
  - The code that runs is written as methods proved equal to those functions:
    - `Run` merges into a fresh `JsObject` and deletes `url` from it.
    - `Callback` is the response handler with its early returns and `success` flag.
    - `ReadBody` is the `body += chunk` loop.
- `Cli` (`cli.dfy`): the command-line script.
  - The `RunCommand` method does what the script does.
  - It is proved equal to the `ExitCode` function.

Code the engine calls but does not contain is passed in as a `Foreign`
record:

- `JSON.parse`, as `parseJson`. `None` means it throws.
- `new RegExp(p).test(t)`, as `regexTest`. `None` means the pattern does not compile.
- The network, as `send`. It either answers with a response or fails with an error.

The outcome of a probe is one of four cases:

- `Resolved("OK")`.
- `Rejected(error)`.
- `Thrown(error)`: the synchronous throw of an invalid URL.
- `Crash(error)`: an exception inside the response's 'end' handler. It settles nothing and escapes to the process.

## Model

| member | source | states |
|---|---|---|
| Healthcheck.Merge | lib/healthcheck.js:37-42 | Every key the caller gives wins, even when its value is undefined. The defaults fill in only the keys the caller leaves out. The result has exactly the union of both key sets. |
| JsValues.JsObject.AssignFrom | lib/healthcheck.js:37-42 | `Object.assign` copies every property of the source over the target, replacing same-named ones. Other target properties stay as they were. |
| JsValues.JsObject.constructor | lib/healthcheck.js:37 | A fresh object holds exactly the given properties. |
| JsValues.JsObject.Read | lib/healthcheck.js:44 | Reading a property gives its value, or undefined when it is absent. |
| JsValues.JsObject.Delete | lib/healthcheck.js:45 | `delete o[key]` removes that key and nothing else. |
| JsValues.JsObject.Set | bin/healthcheck.js:53 | Assigning a property replaces or adds that key and nothing else. |
| Healthcheck.Scheme | lib/healthcheck.js:44 | A scheme found in the input is a valid scheme name (a letter, then letters, digits, `+`, `-`, `.`). It is the text just before the input's first ':'. |
| Healthcheck.ParseUrl | lib/healthcheck.js:44 | `new URL(s)` succeeds exactly when `s` starts with a scheme and ':'. The protocol is that scheme in lower case followed by ':'. |
| Healthcheck.SelectTransport | lib/healthcheck.js:54 | The https module is chosen exactly when the protocol is "https:". |
| Healthcheck.RequestFor | lib/healthcheck.js:37-56 | No request exists exactly when the merged `url` does not parse. A request carries the merged options without `url`: its keys are exactly the defaults' and the caller's keys minus `url`, each caller key with the caller's value and each omitted key with its default. Its URL is the parsed merged `url`, and its transport is the one that URL selects. |
| Healthcheck.TransportRefusal | lib/healthcheck.js:54-56 | The chosen module refuses the URL exactly when its protocol is neither "http:" nor "https:". A refused protocol always went to the http module. |
| Healthcheck.Run | lib/healthcheck.js:35-183 | The method that merges into a new object, parses, deletes `url`, sends and handles the answer. It yields exactly the `Probe` outcome and the `RequestFor` request. The caller's object is not in its frame, so it is left unchanged. |
| Healthcheck.Probe | lib/healthcheck.js:35-183 | A call throws exactly when no request exists, and then with "Invalid URL". It resolves only with "OK". A URL whose protocol the transport refuses rejects. A request that the transport fails rejects with the transport's own error. An answered request gets exactly the `OnResponse` verdict on the sent options and the response. |
| Healthcheck.OnResponse | lib/healthcheck.js:56-175 | The response handler never throws synchronously. A status above 399 always rejects. It resolves only with "OK", and only a 200 can reach a crash in the 'end' handler. |
| Healthcheck.OnEnd | lib/healthcheck.js:121-167 | An empty body always rejects with "Body is empty.". The handler resolves only with "OK" and only for a non-empty body. It never throws synchronously. |
| Healthcheck.StatusVerdict | lib/healthcheck.js:64-84 | The status check resolves with "OK" or rejects, nothing else. A search that converts to NaN always resolves. |
| Healthcheck.HeaderVerdict | lib/healthcheck.js:86-108 | The header check resolves with "OK" or rejects, nothing else. A search that is not a non-empty array always resolves. |
| Healthcheck.Concat | lib/healthcheck.js:114-118 | The body built from the chunks is at least as long as every chunk. |
| Healthcheck.Callback | lib/healthcheck.js:56-175 | The response handler, with its early returns and its `success` flag, always returns the `OnResponse` verdict. |
| Healthcheck.ReadBody | lib/healthcheck.js:114-118 | The `body += chunk` loop yields the in-order concatenation of the chunks. |
| Healthcheck.ConcatAppend | lib/healthcheck.js:116-118 | Splitting the chunk sequence anywhere splits the body at the same place. |
| Healthcheck.ConcatEmpty | lib/healthcheck.js:114-125 | The body is empty exactly when every chunk is empty. |
| Healthcheck.FastFail | lib/healthcheck.js:58-62 | A status above 399 rejects with "Request restuned a status code of N", whatever the type and search. |
| Healthcheck.IntSpelling | lib/healthcheck.js:60 | A status code is printed in its plain decimal spelling. |
| Healthcheck.StatusCheck | lib/healthcheck.js:64-84 | The status check resolves when the search converts to NaN or equals the status code. Otherwise it rejects, naming both codes. |
| Healthcheck.StatusSearchMatches | test/healthcheck.test.js:25-40 | A numeric search of 200 against a 200 resolves. |
| Healthcheck.StatusNumberMismatch | lib/healthcheck.js:70-78 | A numeric search different from the status rejects with "Expected status code S, received R", both in decimal (300 against 200, as in test/healthcheck.test.js:42-58). |
| Healthcheck.StatusStringSearch | lib/healthcheck.js:70-78 | A search given as the decimal string of a code resolves exactly when that code is the status. |
| Healthcheck.HeaderCheck | lib/healthcheck.js:86-108 | A non-empty array search resolves exactly when it has a second element, the header named by the first is present, and its value is loosely equal to the second. Otherwise it rejects. |
| Healthcheck.HeaderOneElementRejects | lib/healthcheck.js:93-104 | A one-element header search always rejects, and its message names the value as "undefined". |
| Healthcheck.HeaderWithoutArrayPasses | lib/healthcheck.js:93-107 | A header search that is not an array, or is an empty array, resolves without looking at the headers. |
| Healthcheck.HeaderSearchFound | test/healthcheck.test.js:77-93 | `['content-type', 'text/html; charset=UTF-8']` against that header resolves. |
| Healthcheck.HeaderSearchMissing | test/healthcheck.test.js:95-113 | `['yep', 'nope']` against the same response rejects. |
| Healthcheck.BodyBranch | lib/healthcheck.js:110-173 | Any type other than "status" and "header" (including undefined) goes to the body. Only a 200 has its body read. Any other status up to 399 resolves unread. |
| Healthcheck.EmptyBodyRejects | lib/healthcheck.js:121-125 | A 200 whose chunks are all empty rejects with "Body is empty.", whatever the search. |
| Healthcheck.SearchWithoutLengthIgnored | lib/healthcheck.js:131-165 | A search with no truthy `length` (absent, a number, a boolean, a RegExp object) resolves for any non-empty body. It gives the same outcome whatever the JSON parser and matcher do. |
| Healthcheck.RegExpSearchIgnored | test/healthcheck.test.js:224-240 | The test suite's RegExp search `/^!DOCTYPE\sHTML/i` is never applied. A 200 with a non-empty body resolves. |
| Healthcheck.JsonPairSearch | lib/healthcheck.js:135-142 | A JSON search of two or more elements gives the `SettleEquals` verdict on `get(doc, items[0])` and `items[1]`: it passes exactly when they are loosely equal, and the comparison's throw escapes the handler. |
| Healthcheck.JsonSingleSearch | lib/healthcheck.js:143-145 | A one-element JSON search gives the `SettleEquals` verdict on the whole document and its own property `items[0]`. A null document makes the handler throw. |
| Healthcheck.SettleEquals | lib/healthcheck.js:142-161 | The handler crashes exactly when `x == y` throws. It resolves only when the two are loosely equal. |
| Healthcheck.ObjectEquals | lib/healthcheck.js:144 | A plain object is loosely equal to a value exactly when that value is the string "[object Object]". Comparing it throws exactly when it has an own "toString" key and the other side is a primitive other than undefined and null. |
| Healthcheck.ObjectNotNumber | lib/healthcheck.js:144 | An object is never loosely equal to a number or a boolean. |
| Healthcheck.OneElementSearchOnObject | lib/healthcheck.js:143-145 | On a JSON object, a one-element search passes exactly when the named property holds the string "[object Object]" and the object has no own "toString" key. With such a key, the handler crashes exactly when the named property holds a primitive other than undefined and null. |
| Healthcheck.OwnToStringCrashes | lib/healthcheck.js:142-145 | `['data', 'x']` against `{"data": {"toString": 1}}`, and `['toString']` against `{"toString": "[object Object]"}`, both make the 'end' handler throw. |
| Healthcheck.JsonKeySearch | lib/healthcheck.js:141-142 | A pair search whose path has no dot gives the `SettleEquals` verdict on that top-level property, or on undefined when it is absent, and the expected value. |
| Healthcheck.JsonSearchExamples | test/healthcheck.test.js:133-186 | Against `{"apple": "red"}`, `['apple', 'red']` resolves and `['nope', 0]` rejects with "Search failed.". |
| Healthcheck.PatternSearch | lib/healthcheck.js:147-155 | Outside JSON, a search with a truthy length is compiled from its string form and tested against the raw body. A pattern that does not compile throws in the handler. |
| Healthcheck.LiteralPatternSearch | lib/healthcheck.js:147-161 | A non-empty pattern that matches its own text resolves exactly when the body contains it. |
| Healthcheck.MissingCharacter | lib/healthcheck.js:154 | A text lacking some character of the pattern does not contain the pattern. |
| Healthcheck.TextSearchFound | test/healthcheck.test.js:206-222 | "Example Domain" is found in a page containing it, so the check resolves. |
| Healthcheck.TextSearchNotFound | test/healthcheck.test.js:242-259 | "eXample doMain" is not found in the same page, so the check rejects. |
| Healthcheck.UndefinedTypeOverridesDefault | lib/healthcheck.js:37-42 | A `type` given as undefined replaces the default "status" in the merged and sent options. |
| Healthcheck.DefaultUrlThrows | lib/healthcheck.js:14-44 | Without a `url` the default "localhost" is used, which has no scheme. The call throws "Invalid URL" and no request exists. |
| Healthcheck.UndefinedUrlThrows | lib/healthcheck.js:44 | An undefined `url` reads as "undefined" and throws the same way. |
| Healthcheck.NoColonNoUrl | lib/healthcheck.js:44 | An input without ':' never parses as a URL. |
| Healthcheck.InvalidUrlNeverSends | lib/healthcheck.js:44-56 | When the URL does not parse, the outcome is the same throw whatever the network would do. |
| Healthcheck.SchemeParses | lib/healthcheck.js:44 | A scheme name followed by ':' parses, whatever comes after, with the lower-cased scheme as protocol. |
| Healthcheck.TransportOfScheme | lib/healthcheck.js:44-54 | Such a URL goes through https exactly when its scheme, lower-cased, is "https". |
| Healthcheck.TransportFollowsScheme | lib/healthcheck.js:54 | "HTTPS:..." goes through https and "http:..." through http. |
| Healthcheck.UnsupportedProtocolNeverSends | lib/healthcheck.js:52-56 | When the URL parses with a protocol other than "http:" and "https:", the call rejects, whatever the network would do. |
| Healthcheck.ForeignSchemeIsRefused | lib/healthcheck.js:44-56 | A URL whose scheme is neither http nor https, in any case, parses with that scheme lower-cased as its protocol, and the call rejects. |
| Healthcheck.HostPortIsRefused | lib/healthcheck.js:44-56 | "localhost:3000", a host and port with no scheme, parses with protocol "localhost:", and the call rejects. |
| Healthcheck.LowerCaseUnchanged | lib/healthcheck.js:44 | Lower-casing leaves a scheme without upper-case letters as it is. |
| PathLookup.SplitDots | lib/healthcheck.js:142 | Splitting a path at its dots gives at least one piece, and no piece contains a dot. |
| PathLookup.JoinSplitDots | lib/healthcheck.js:142 | Joining the pieces of a split with dots gives back the path. |
| PathLookup.SplitJoinDots | lib/healthcheck.js:142 | Splitting dot-joined, dot-free names gives back the names. |
| PathLookup.ToKey | lib/healthcheck.js:142 | A string path element is used as it is. |
| PathLookup.CastPath | lib/healthcheck.js:142 | An array path has one key per element. Any other path has at least one key. |
| PathLookup.Walk | lib/healthcheck.js:142 | Following no keys gives the value itself. Meeting undefined or null before the keys run out gives undefined. |
| PathLookup.WalkNest | lib/healthcheck.js:142 | Following the keys an object was nested along reaches its leaf. |
| PathLookup.DotPathReachesNested | lib/healthcheck.js:142 | A dot path of two or more dot-free names reaches the value nested along those names. |
| PathLookup.PlainKeyLookup | lib/healthcheck.js:142 | A dot-free key reads that property of an object, or undefined when it is absent. |
| PathLookup.LodashGet | lib/healthcheck.js:142 | Any path into undefined or null reads as undefined, and so does an empty array path. |
| PathLookup.DeepSearchExample | test/healthcheck.test.js:151-167 | `data.success` in `{data: {success: true}}` is `true`. |
| JsValues.Get | lib/healthcheck.js:144 | Property access throws exactly on undefined and null. |
| JsValues.Truthy | lib/healthcheck.js:131 | undefined and null are falsy. Every object (array, plain object, RegExp) is truthy. |
| JsValues.ToString | lib/healthcheck.js:60 | Only a string or an array can have an empty string form. |
| JsValues.ToNumber | lib/healthcheck.js:70 | null reads as 0 and a boolean as 1 or 0. undefined and a plain object read as NaN. |
| JsValues.ConvertsToPrimitive | lib/healthcheck.js:142-144 | Every primitive converts. A plain object with an own "toString" key does not. |
| JsValues.LooseEqualsThrows | lib/healthcheck.js:142-144 | `x == y` cannot throw when both sides convert. When it throws, neither side is undefined or null, and exactly one side is an object. |
| JsValues.OwnToStringThrows | lib/healthcheck.js:142-144 | An object with an own "toString" key, or an array holding one, throws when compared with a number, string or boolean, on either side. |
| JsValues.LooseEquals | lib/healthcheck.js:98 | Two objects are never loosely equal. undefined and null equal exactly undefined and null. Every other non-object value, NaN excepted, equals itself. |
| JsValues.ToPrimitive | lib/healthcheck.js:98 | An object compares through a primitive, never through an object. |
| JsValues.AtSequence | lib/healthcheck.js:97-98 | `a[i]` on an array or string is its element or character, and undefined past the end. |
| JsValues.LengthOfSequence | lib/healthcheck.js:93 | The `length` of an array or string is its number of elements. |
| JsValues.NoLength | lib/healthcheck.js:131 | Numbers, booleans and RegExp objects have no `length`: it reads as undefined, which is falsy. |
| JsValues.NumberEqualsItsSpelling | lib/healthcheck.js:142 | A number is loosely equal to the string that spells it. |
| JsValues.LooseEqualsStrings | lib/healthcheck.js:142 | Two strings are loosely equal exactly when they are identical. |
| JsValues.LooseEqualsUndefined | lib/healthcheck.js:142 | undefined is loosely equal exactly to undefined and null. |
| JsValues.NaNStringEqualsNoNumber | lib/healthcheck.js:144 | A string that reads as NaN is loosely equal to no number and no boolean. |
| JsValues.ObjectComparesAsString | lib/healthcheck.js:144 | Against a primitive, an object compares as its string form. |
| JsNumbers.NumberToStringRoundTrip | lib/healthcheck.js:72-76 | Printing a number and reading it back gives the same value (NaN gives NaN). |
| JsNumbers.FiniteRoundTrip | lib/healthcheck.js:72-76 | A finite number's shortest decimal spelling reads back as the same value. |
| JsNumbers.IntToStringRoundTrip | lib/healthcheck.js:72 | The decimal spelling of an integer reads back as that integer. |
| JsNumbers.NormalizeKeepsValue | lib/healthcheck.js:76 | Dropping trailing zero digits keeps the value. |
| JsNumbers.NatToStringValue | lib/healthcheck.js:60 | The digits of a natural number's spelling evaluate back to that number. |
| JsNumbers.CanonicalIndexOfNatToString | lib/healthcheck.js:97 | The spelling of `i` is the canonical index key `i`, so `a[0]` reads element 0. |
| JsNumbers.LeadingNonNumericIsNaN | lib/healthcheck.js:70 | A non-empty string with no white space at either end, starting with anything but a digit, '.', a sign or 'I', reads as NaN. |
| JsNumbers.StringToNumber | lib/healthcheck.js:70 | A string of white space only, the empty string included, reads as 0. |
| JsNumbers.NumberToString | lib/healthcheck.js:60 | Every number has a non-empty spelling. |
| Cli.OptionsRecord | bin/healthcheck.js:33-50 | The record always has the six keys url, method, timeout, type, search and verbose, even when their values are undefined. |
| Cli.UrlPrecedence | bin/healthcheck.js:33 | `--url` wins over `-u`, which wins over the first positional argument. A falsy value gives way to the next. |
| Cli.LongFlagsWin | bin/healthcheck.js:34-38 | Every other option takes its long flag when truthy, and its short flag otherwise. |
| Cli.HelpShortCircuits | bin/healthcheck.js:6-31 | `-h` or `--help` shows the help and exits 0 without a probe. |
| Cli.PlanFor | bin/healthcheck.js:6-56 | Help is shown exactly when `-h` or `--help` is truthy. The run fails before the probe exactly when the search step throws. A call gets the six keys, each but `search` as the record has it. |
| Cli.RunEnd | bin/healthcheck.js:53 | The greedy `.+` stops at the first line terminator or at the end. |
| Cli.MatchAt | bin/healthcheck.js:53 | A match of `/=(.+)/` is an '=' followed by at least one more character. |
| Cli.SplitFrom | bin/healthcheck.js:53 | The split always yields an odd number of pieces: each match adds a piece and its capture. Without an '=' ahead, the rest of the string is the one piece. |
| Cli.SplitOnEq | bin/healthcheck.js:53 | `s.split(/=(.+)/)` yields at least one piece, and an odd number of them. |
| Cli.SplitSearch | bin/healthcheck.js:52-53 | A falsy search is kept. A replaced search was a string containing '=', and becomes an array of odd length. The step throws exactly for a truthy value that is not a string, unless it is an array with no "=" element. |
| Cli.SkipNonMatches | bin/healthcheck.js:53 | The split skips every position where no match starts. |
| Cli.SplitAtFirstEq | bin/healthcheck.js:52-53 | `"a=b"` with no '=' in `a` and no line break in a non-empty `b` splits into `[a, b, ""]`. Later '=' stay in `b`. |
| Cli.NoMatchKeepsWhole | bin/healthcheck.js:53 | Without a match the split is the whole string in a one-element array. |
| Cli.TrailingEq | bin/healthcheck.js:52-53 | A search whose only '=' is its last character splits into `[s]`. |
| Cli.SearchWithoutEqUnchanged | bin/healthcheck.js:52 | A search without '=' reaches the library unchanged. |
| Cli.KeyValueSearch | bin/healthcheck.js:52-56 | `name=value` reaches the library as `[name, value, ""]`. |
| Cli.TrailingEqSearch | bin/healthcheck.js:52-56 | `name=` reaches the library as `["name="]`. As a header check it then always rejects. |
| Cli.NonStringSearchExitsOne | bin/healthcheck.js:52 | A truthy search that is neither a string nor an array has no `includes`. The run exits 1 before any probe. |
| Cli.MissingTypeTakesBodyBranch | bin/healthcheck.js:36-56 | Without `--type` the record carries `type: undefined`, which overrides the default. A response up to 399 is then judged by the body branch. |
| Cli.MissingUrlExitsOne | bin/healthcheck.js:33-66 | Without `--url`, `-u` or a positional argument the URL is undefined, and the run exits 1. |
| Cli.ExitCode | bin/healthcheck.js:59-66 | The exit status is 0 or 1. It is 0 exactly for help or a probe that resolves. |
| Cli.RunCommand | bin/healthcheck.js:6-66 | The script (help, record, in-place split of the search, probe) exits with exactly `ExitCode`. |

## Left out

- Networking, sockets, TLS and the event loop are left out.
  - The `send` field of `Foreign` stands for them: a request either gets a response or fails with an error. The error becomes the rejection.
  - The transport's own protocol check is modelled (`TransportRefusal`). A `protocol` or `agent` key among the caller's options would change that check inside Node; it is not modelled.
  - A request error arriving after the promise has settled changes nothing and is not modelled.
- The `timeout` option is passed to the transport untouched, and timing is not modelled.
  - In Node this option only emits a 'timeout' event. The engine listens for 'error' alone, so a slow server leaves the probe waiting. The model has no outcome for a probe that never settles.
  - From the command line, `timeout` is undefined unless given. As every supplied key does, it replaces the default 800.
- The verbose console output is left out. It never affects the verdict.
- Printing the result or error, and `process.exit`, are left out. Only the exit status is modelled.
- Argument parsing by minimist is left out: the arguments arrive as flags and positional values. A numeric `-s 200` does arrive as a number, and `Cli.NonStringSearchExitsOne` covers it.
- `JSON.parse` and the regular-expression engine are parameters (`parseJson`, `regexTest`).
  - Only their outcome is used: a value, a boolean or a throw.
  - The messages of the errors they throw are placeholders.
- Healthcheck.ParseUrl: `new URL` checks only the scheme: a letter, then letters, digits, `+`, `-` or `.`, then ':'.
  - Host, port and path validation is not modelled. Node throws on "http:" (a special scheme with an empty host); the model parses it.
  - Leading and trailing whitespace stripping is not modelled, and neither is the removal of every ASCII tab and newline inside the input: `"ht\ttp://x"` parses in Node and fails in the model.
- Healthcheck.SchemeParses: states that every scheme followed by ':' parses, which is weaker than Node's parser for the special schemes (http, https and others), where an invalid host throws.
- Strings are sequences of Unicode scalar values, while JavaScript strings are UTF-16. `length` and indexing differ for characters outside the Basic Multilingual Plane: "\u{1F600}".length is 2 in JavaScript and 1 in the model.
- JavaScript numbers are exact decimals.
  - IEEE-754 rounding is not modelled.
  - Exponent notation in `String(n)` is not modelled.
  - `-0` is not modelled.
  - `Number(s)` reads decimal, `0x`/`0o`/`0b` and `Infinity` forms.
- Property access sees own properties only.
  - Inherited properties (array and string methods, `Object.prototype`) are not modelled.
  - Because of this, `'toString' in res.headers` is false in the model.
- JsValues.ToNumber: gives the default conversion of a plain object (NaN, through "[object Object]"), and `JsValues.ToString` gives "[object Object]". In JavaScript an object with an own "toString" key throws instead. The engine's comparisons check this first (`LooseEqualsThrows`), and the 'end' handler then crashes. For the other conversions (the search in messages, patterns and keys), caller-supplied objects are assumed to keep the default methods. Values with functions are not representable.
- Objects compare by identity, and every comparison in the engine involves separately created objects. `LooseEquals` of two objects is therefore always false.
- lodash `get` handles dot paths and array paths. Bracket syntax (`a[0]`, `a["b"]`) is not modelled.
- Header names are matched exactly as the transport delivers them. Node's lower-casing of incoming header names happens inside `send`.
- `res.setEncoding('utf8')` is not modelled: chunks arrive as text.
- Where the documentation and the code disagree, the model follows the code:
  - No `user-agent` header is added to the request.
  - There is no "html" type: every type other than "status", "header" and "json" (including "headers", undefined and "html") uses the pattern branch.
  - Header lookup is exact, not case-insensitive.
  - A JSON parse failure throws inside the 'end' handler (`Crash`) instead of rejecting the call.
  - An unsupported scheme is not rejected by the engine itself.
  - A RegExp search object has no `length` and is never applied.
