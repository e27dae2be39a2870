/** The command-line front end: the parsed arguments become the six-key
    options record, a `key=value` search is split at its first '=', the probe
    runs, and its outcome becomes the exit code. Argument parsing itself
    (minimist) and printing are outside the model: the arguments arrive
    already parsed, as flags and positional values. */
module Cli {
  import opened Wrappers
  import opened JsValues
  import N = JsNumbers
  import H = Healthcheck

  /** The parsed command line: named flags (long and short alike) and the
      positional arguments, `argv._`. */
  datatype Argv = Argv(flags: map<string, JsValue>, positional: seq<JsValue>)

  function Flag(argv: Argv, name: string): JsValue {
    if name in argv.flags then argv.flags[name] else Undefined
  }

  /** `argv._[0]` */
  function FirstPositional(argv: Argv): JsValue {
    if |argv.positional| > 0 then argv.positional[0] else Undefined
  }

  /** `a || b` */
  function Or(a: JsValue, b: JsValue): JsValue {
    if Truthy(a) then a else b
  }

  /** `argv.h || argv.help` */
  predicate WantsHelp(argv: Argv) {
    Truthy(Flag(argv, "h")) || Truthy(Flag(argv, "help"))
  }

  const KEYS: set<string> := {"url", "method", "timeout", "type", "search", "verbose"}

  /** The options record: always the same six keys, each the long flag when
      truthy and the short one otherwise; the URL falls back to the first
      positional argument. */
  function OptionsRecord(argv: Argv): (options: map<string, JsValue>)
    ensures options.Keys == KEYS
  {
    map[
      "url" := Or(Or(Flag(argv, "url"), Flag(argv, "u")), FirstPositional(argv)),
      "method" := Or(Flag(argv, "method"), Flag(argv, "m")),
      "timeout" := Or(Flag(argv, "timeout"), Flag(argv, "t")),
      "type" := Or(Flag(argv, "type"), Flag(argv, "T")),
      "search" := Or(Flag(argv, "search"), Flag(argv, "s")),
      "verbose" := Or(Flag(argv, "verbose"), Flag(argv, "v"))]
  }

  // ---------------------------------------------------------------------------
  // `search.split(/=(.+)/)`

  /** The characters `.` in a regular expression does not match. */
  predicate IsLineTerminator(c: char) {
    c == '\n' || c == '\r' || c == '\U{2028}' || c == '\U{2029}'
  }

  /** Where the greedy `.+` starting at `i` stops: the first line terminator
      at or after `i`, or the end. */
  function RunEnd(s: string, i: nat): (e: nat)
    requires i <= |s|
    ensures i <= e <= |s|
    ensures forall j :: i <= j < e ==> !IsLineTerminator(s[j])
    ensures e < |s| ==> IsLineTerminator(s[e])
    decreases |s| - i
  {
    if i < |s| && !IsLineTerminator(s[i]) then RunEnd(s, i + 1) else i
  }

  /** The end of a match of `/=(.+)/` at position `q`: an '=' followed by at
      least one character that is not a line terminator. */
  function MatchAt(s: string, q: nat): (r: Option<nat>)
    requires q < |s|
    ensures r.Some? ==> s[q] == '=' && q + 2 <= r.value <= |s|
  {
    if s[q] == '=' && q + 1 < |s| && !IsLineTerminator(s[q + 1]) then Some(RunEnd(s, q + 1)) else None
  }

  /** The split loop for a regular expression separator with one capture
      group (`RegExp.prototype[@@split]`, ECMAScript section 22.2.6.14):
      `p` is where the current piece starts and `q` where a match is tried.
      Each match ends a piece and contributes its captured text. */
  function SplitFrom(s: string, p: nat, q: nat): (parts: seq<string>)
    requires p <= q <= |s|
    ensures |parts| % 2 == 1
    ensures (forall j :: q <= j < |s| ==> s[j] != '=') ==> parts == [s[p..]]
    decreases |s| - q
  {
    if q == |s| then [s[p..]]
    else
      match MatchAt(s, q)
      case None => SplitFrom(s, p, q + 1)
      case Some(e) => [s[p..q], s[q + 1..e]] + SplitFrom(s, e, e)
  }

  /** `s.split(/=(.+)/)` */
  function SplitOnEq(s: string): (parts: seq<string>)
    ensures |parts| >= 1 && |parts| % 2 == 1
  {
    SplitFrom(s, 0, 0)
  }

  function Strings(parts: seq<string>): (r: JsValue)
    ensures r.Arr? && |r.items| == |parts|
    ensures forall i :: 0 <= i < |parts| ==> r.items[i] == Str(parts[i])
  {
    Arr(seq(|parts|, i requires 0 <= i < |parts| => Str(parts[i])))
  }

  // ---------------------------------------------------------------------------
  // The run

  /** What `options.search && options.search.includes('=')` and the split do
      to the search: keep it, replace it by the split, or throw. Only strings
      and arrays have `includes`, and only strings have `split`. */
  datatype SearchStep = Keep | Replace(value: JsValue) | Throw(error: JsError)

  function SplitSearch(search: JsValue): (r: SearchStep)
    ensures !Truthy(search) ==> r == Keep
    ensures r.Replace? ==> search.Str? && '=' in search.s && r.value.Arr? && |r.value.items| % 2 == 1
    ensures r.Throw? <==> Truthy(search) && !search.Str? && (search.Arr? ==> Str("=") in search.items)
  {
    if !Truthy(search) then Keep
    else
      match search
      case Str(s) => if '=' in s then Replace(Strings(SplitOnEq(s))) else Keep
      case Arr(items) =>
        if Str("=") in items then Throw(TypeError("options.search.split is not a function")) else Keep
      case _ => Throw(TypeError("options.search.includes is not a function"))
  }

  /** What the command line does before the probe: show help, fail, or call
      the library with these options. */
  datatype Plan = ShowHelp | Fail(error: JsError) | Call(options: map<string, JsValue>)

  function PlanFor(argv: Argv): (r: Plan)
    ensures r.ShowHelp? <==> WantsHelp(argv)
    ensures r.Fail? <==> !WantsHelp(argv) && SplitSearch(OptionsRecord(argv)["search"]).Throw?
    ensures r.Call? ==> r.options.Keys == KEYS
    ensures r.Call? ==> forall k :: k in KEYS && k != "search" ==> r.options[k] == OptionsRecord(argv)[k]
  {
    if WantsHelp(argv) then ShowHelp
    else
      var options := OptionsRecord(argv);
      match SplitSearch(options["search"])
      case Keep => Call(options)
      case Replace(v) => Call(options["search" := v])
      case Throw(e) => Fail(e)
  }

  /** The exit status: 0 for help and for a resolved probe, 1 for anything
      else (a rejection, a throw inside the async block, or an exception
      escaping the response handler, which ends the process with status 1). */
  function ExitCode(argv: Argv, env: H.Foreign): (code: int)
    ensures code == 0 || code == 1
    ensures code == 0 <==> WantsHelp(argv) || (PlanFor(argv).Call? && H.Probe(PlanFor(argv).options, env).Resolved?)
  {
    match PlanFor(argv)
    case ShowHelp => 0
    case Fail(_) => 1
    case Call(options) => if H.Probe(options, env).Resolved? then 0 else 1
  }

  /** The script: help, the options record, the in-place split of the
      search, the probe and the exit status. */
  method RunCommand(argv: Argv, env: H.Foreign) returns (exitCode: int)
    ensures exitCode == ExitCode(argv, env)
  {
    if Truthy(Flag(argv, "h")) || Truthy(Flag(argv, "help")) {
      return 0;
    }
    var options := new JsObject(OptionsRecord(argv));
    var search := options.Read("search");
    if Truthy(search) {
      match search
      case Str(s) =>
        if '=' in s {
          options.Set("search", Strings(SplitOnEq(s)));
        }
      case Arr(items) =>
        if Str("=") in items {
          return 1;
        }
      case _ =>
        return 1;
    }
    var outcome, _ := H.Run(options, env);
    exitCode := if outcome.Resolved? then 0 else 1;
  }

  // ---------------------------------------------------------------------------
  // Properties

  /** Help wins over everything else and exits 0 without a probe. */
  lemma HelpShortCircuits(argv: Argv, env: H.Foreign)
    requires Truthy(Flag(argv, "h")) || Truthy(Flag(argv, "help"))
    ensures PlanFor(argv) == ShowHelp && ExitCode(argv, env) == 0
  {
  }

  /** `--url` wins over `-u`, which wins over the first positional argument;
      a falsy value (an empty string, say) gives way to the next. */
  lemma UrlPrecedence(argv: Argv)
    ensures var url := OptionsRecord(argv)["url"];
      && (Truthy(Flag(argv, "url")) ==> url == Flag(argv, "url"))
      && (!Truthy(Flag(argv, "url")) && Truthy(Flag(argv, "u")) ==> url == Flag(argv, "u"))
      && (!Truthy(Flag(argv, "url")) && !Truthy(Flag(argv, "u")) ==> url == FirstPositional(argv))
  {
  }

  /** Every other option prefers its long flag to its short one. */
  lemma LongFlagsWin(argv: Argv, key: string, short: string)
    requires (key, short) in {("method", "m"), ("timeout", "t"), ("type", "T"), ("search", "s"), ("verbose", "v")}
    ensures OptionsRecord(argv)[key] == if Truthy(Flag(argv, key)) then Flag(argv, key) else Flag(argv, short)
  {
  }

  /** The split loop skips every position where no match starts. */
  lemma {:induction false} SkipNonMatches(s: string, p: nat, q: nat, k: nat)
    requires p <= q <= k <= |s|
    requires forall j :: q <= j < k ==> MatchAt(s, j).None?
    ensures SplitFrom(s, p, q) == SplitFrom(s, p, k)
    decreases k - q
  {
    if q < k {
      SkipNonMatches(s, p, q + 1, k);
    }
  }

  /** A search with at least one character after its first '=' (and no line
      break after it) becomes the text before that '=', everything after
      it, and an empty string; later '=' stay inside the value. */
  lemma SplitAtFirstEq(before: string, after: string)
    requires '=' !in before && |after| >= 1
    requires forall j :: 0 <= j < |after| ==> !IsLineTerminator(after[j])
    ensures SplitOnEq(before + "=" + after) == [before, after, ""]
  {
    var s := before + "=" + after;
    var k := |before|;
    assert forall j :: 0 <= j < k ==> s[j] == before[j];
    assert forall j :: k < j < |s| ==> s[j] == after[j - k - 1];
    forall j | 0 <= j < k ensures MatchAt(s, j).None? {
      assert s[j] == before[j];
    }
    SkipNonMatches(s, 0, 0, k);
    assert RunEnd(s, k + 1) == |s| by {
      assert forall j :: k + 1 <= j < |s| ==> !IsLineTerminator(s[j]);
    }
    assert MatchAt(s, k) == Some(|s|);
    assert s[|s|..] == "";
    assert SplitFrom(s, |s|, |s|) == [""];
    assert SplitFrom(s, 0, k) == [s[0..k], s[k + 1..|s|]] + [""];
    assert s[0..k] == before && s[k + 1..|s|] == after;
  }

  /** When no '=' is followed by a character that is not a line break, the
      split leaves the string whole, in a one-element array. */
  lemma NoMatchKeepsWhole(s: string)
    requires forall j :: 0 <= j < |s| ==> MatchAt(s, j).None?
    ensures SplitOnEq(s) == [s]
  {
    SkipNonMatches(s, 0, 0, |s|);
  }

  /** A search whose only '=' is its last character becomes a one-element
      array holding the whole string. */
  lemma TrailingEq(before: string)
    requires '=' !in before
    ensures SplitOnEq(before + "=") == [before + "="]
  {
    var s := before + "=";
    assert forall j :: 0 <= j < |before| ==> s[j] == before[j];
    NoMatchKeepsWhole(s);
  }

  /** A search without '=' is passed to the library unchanged. */
  lemma SearchWithoutEqUnchanged(argv: Argv, s: string)
    requires !WantsHelp(argv) && OptionsRecord(argv)["search"] == Str(s) && '=' !in s
    ensures PlanFor(argv) == Call(OptionsRecord(argv))
  {
  }

  /** A `name=value` search reaches the library as `[name, value, ""]`. */
  lemma KeyValueSearch(argv: Argv, name: string, value: string)
    requires !WantsHelp(argv) && OptionsRecord(argv)["search"] == Str(name + "=" + value)
    requires '=' !in name && |value| >= 1
    requires forall j :: 0 <= j < |value| ==> !IsLineTerminator(value[j])
    ensures PlanFor(argv) == Call(OptionsRecord(argv)["search" := Arr([Str(name), Str(value), Str("")])])
  {
    SplitAtFirstEq(name, value);
    assert '=' in name + "=" + value by {
      assert (name + "=" + value)[|name|] == '=';
    }
    assert Strings([name, value, ""]).items == [Str(name), Str(value), Str("")];
  }

  /** A `name=` search reaches the library as the one-element array
      `["name="]`: as a header check it then always fails. */
  lemma TrailingEqSearch(argv: Argv, name: string, res: H.Response, env: H.Foreign)
    requires !WantsHelp(argv) && OptionsRecord(argv)["search"] == Str(name + "=") && '=' !in name
    ensures PlanFor(argv) == Call(OptionsRecord(argv)["search" := Arr([Str(name + "=")])])
    ensures var options := OptionsRecord(argv)["search" := Arr([Str(name + "=")])];
      H.Prop(options, "type") == Str(H.TYPE_HEADER) && res.statusCode <= 399 ==>
        H.OnResponse(options, res, env).Rejected?
  {
    TrailingEq(name);
    assert '=' in name + "=" by {
      assert (name + "=")[|name|] == '=';
    }
    assert Strings([name + "="]).items == [Str(name + "=")];
    var options := OptionsRecord(argv)["search" := Arr([Str(name + "=")])];
    if H.Prop(options, "type") == Str(H.TYPE_HEADER) && res.statusCode <= 399 {
      H.HeaderOneElementRejects(options, res, env, Str(name + "="));
    }
  }

  /** A search that is truthy but neither a string nor an array (a number,
      as minimist delivers `-s 200`, or `true` for a bare `-s`) has no
      `includes`: the run fails with status 1 before any probe. */
  lemma NonStringSearchExitsOne(argv: Argv, env: H.Foreign)
    requires !WantsHelp(argv)
    requires var search := OptionsRecord(argv)["search"];
      Truthy(search) && !search.Str? && !search.Arr?
    ensures PlanFor(argv).Fail? && ExitCode(argv, env) == 1
  {
  }

  /** Leaving out `--type` does not select the status check: the record
      carries `type: undefined`, which overrides the default, so a response
      up to 399 is judged by the body branch. */
  lemma MissingTypeTakesBodyBranch(argv: Argv, res: H.Response, env: H.Foreign)
    requires !WantsHelp(argv) && "type" !in argv.flags && "T" !in argv.flags
    requires PlanFor(argv).Call? && H.RequestFor(PlanFor(argv).options).Some?
    requires res.statusCode <= 399
    ensures var options := H.RequestFor(PlanFor(argv).options).value.options;
      && H.Prop(options, "type") == Undefined
      && H.OnResponse(options, res, env) ==
        if res.statusCode == 200 then H.OnEnd(options, H.Concat(res.chunks), env) else H.Resolved(H.RESPONSE)
  {
    var call := PlanFor(argv).options;
    assert "type" in call && call["type"] == Undefined by {
      assert OptionsRecord(argv)["type"] == Undefined;
    }
    var options := H.RequestFor(call).value.options;
    assert H.Prop(options, "type") == Undefined by {
      H.UndefinedTypeOverridesDefault(call);
    }
    H.BodyBranch(options, res, env);
  }

  /** Without `--url`, `-u` or a positional argument the URL is undefined,
      which does not parse: the run exits 1. */
  lemma MissingUrlExitsOne(argv: Argv, env: H.Foreign)
    requires !WantsHelp(argv) && "url" !in argv.flags && "u" !in argv.flags && argv.positional == []
    ensures ExitCode(argv, env) == 1
  {
    if PlanFor(argv).Call? {
      var options := PlanFor(argv).options;
      assert "url" in options && options["url"] == Undefined;
      H.UndefinedUrlThrows(options, env);
    }
  }
}
