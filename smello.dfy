/**
 * `smello.init()`: resolving every setting from an explicit argument, then
 * a `SMELLO_*` environment variable, then a built-in default; building the
 * configuration; always ignoring the Smello server's own host; and
 * registering the exit hook only once. The module's globals `_config` and
 * `_atexit_registered` are the fields of `SmelloModule`.
 */
module Smello {
  import opened Wrappers
  import opened PyStr
  import opened Config
  import opened Env

  /** Where captures are sent when nothing else is configured. */
  const DefaultServerUrl: string := "http://localhost:5110"

  // Names of the settings, read from `SMELLO_<name>`.
  const EnabledName: string := "ENABLED"
  const UrlName: string := "URL"
  const CaptureAllName: string := "CAPTURE_ALL"
  const CaptureHostsName: string := "CAPTURE_HOSTS"
  const IgnoreHostsName: string := "IGNORE_HOSTS"
  const RedactHeadersName: string := "REDACT_HEADERS"

  /** The keyword arguments of `init()`; `None` is an argument not passed. */
  datatype InitArgs = InitArgs(
    serverUrl: Option<string>,
    captureHosts: Option<seq<string>>,
    captureAll: Option<bool>,
    ignoreHosts: Option<seq<string>>,
    redactHeaders: Option<seq<string>>,
    enabled: Option<bool>)

  // ---------------------------------------------------------------------------
  // Resolving each setting
  // ---------------------------------------------------------------------------

  /** Python's `x or default` for an optional string or list: an absent or
      empty value falls back to the default. */
  function OrElse<T>(x: Option<seq<T>>, default: seq<T>): seq<T> {
    if x.Some? && x.value != [] then x.value else default
  }

  /** The explicit argument, else the variable's value, else the default. */
  function Resolve<T>(arg: Option<T>, fromEnv: Option<T>, default: T): T {
    if arg.Some? then arg.value else fromEnv.GetOr(default)
  }

  /** What the `SMELLO_*` variables say about each setting, as read by
      `_env_bool`, `_env_str` and `_env_list`. */
  datatype EnvSettings = EnvSettings(
    enabled: Option<bool>,
    url: Option<string>,
    captureAll: Option<bool>,
    captureHosts: Option<seq<string>>,
    ignoreHosts: Option<seq<string>>,
    redactHeaders: Option<seq<string>>)
  {
    /** No string or list read from the environment is empty. */
    predicate NoEmptyValues() {
      url != Some([]) && captureHosts != Some([]) && ignoreHosts != Some([])
      && redactHeaders != Some([])
    }
  }

  /** Every setting's variable, read. */
  function ReadEnv(env: Environ): (s: EnvSettings)
    ensures s.NoEmptyValues()
  {
    EnvListNone(env, CaptureHostsName);
    EnvListNone(env, IgnoreHostsName);
    EnvListNone(env, RedactHeadersName);
    EnvSettings(
      EnvBool(env, EnabledName),
      EnvStr(env, UrlName),
      EnvBool(env, CaptureAllName),
      EnvList(env, CaptureHostsName),
      EnvList(env, IgnoreHostsName),
      EnvList(env, RedactHeadersName))
  }

  /** Whether `init()` goes ahead. */
  function Enabled(args: InitArgs, s: EnvSettings): bool {
    Resolve(args.enabled, s.enabled, true)
  }

  /** The server URL before trailing slashes are removed. */
  function RawServerUrl(args: InitArgs, s: EnvSettings): string {
    if args.serverUrl.Some? then args.serverUrl.value else OrElse(s.url, DefaultServerUrl)
  }

  function ResolvedCaptureAll(args: InitArgs, s: EnvSettings): bool {
    Resolve(args.captureAll, s.captureAll, true)
  }

  function ResolvedCaptureHosts(args: InitArgs, s: EnvSettings): seq<string> {
    if args.captureHosts.Some? then args.captureHosts.value else OrElse(s.captureHosts, [])
  }

  /** The ignored hosts before the server's own host is added. */
  function ResolvedIgnoreHosts(args: InitArgs, s: EnvSettings): seq<string> {
    if args.ignoreHosts.Some? then args.ignoreHosts.value else OrElse(s.ignoreHosts, [])
  }

  /** The redacted header names before they are lower-cased. */
  function ResolvedRedactHeaders(args: InitArgs, s: EnvSettings): seq<string> {
    Resolve(args.redactHeaders, s.redactHeaders, DefaultRedactHeaders)
  }

  /** `[h.lower() for h in hs]`. */
  function LowerAll(hs: seq<string>): (r: seq<string>)
    ensures |r| == |hs|
    ensures forall i :: 0 <= i < |hs| ==> r[i] == Lower(hs[i])
  {
    seq(|hs|, i requires 0 <= i < |hs| => Lower(hs[i]))
  }

  /** `hosts` with the server's host appended, unless there is no host, it
      is empty, or it is already listed. */
  function AddServerHost(hosts: seq<string>, serverHost: Option<string>): (r: seq<string>)
    ensures serverHost.Some? && serverHost.value != [] ==> serverHost.value in r
    ensures |hosts| <= |r| <= |hosts| + 1 && r[..|hosts|] == hosts
    ensures serverHost.None? || serverHost.value == [] || serverHost.value in hosts ==> r == hosts
  {
    if serverHost.Some? && serverHost.value != [] && serverHost.value !in hosts then
      assert (hosts + [serverHost.value])[|hosts|] == serverHost.value;
      hosts + [serverHost.value]
    else hosts
  }

  /** The configuration an enabled `init()` installs; `hostnameOf` is
      `urlparse(url).hostname`. */
  function Configure(args: InitArgs, s: EnvSettings, hostnameOf: string -> Option<string>): (c: SmelloConfig)
    ensures |ResolvedIgnoreHosts(args, s)| <= |c.ignoreHosts| <= |ResolvedIgnoreHosts(args, s)| + 1
    ensures c.ignoreHosts[..|ResolvedIgnoreHosts(args, s)|] == ResolvedIgnoreHosts(args, s)
    ensures |c.redactHeaders| == |ResolvedRedactHeaders(args, s)|
  {
    var url := RStripChar(RawServerUrl(args, s), '/');
    SmelloConfig(
      url,
      ResolvedCaptureHosts(args, s),
      ResolvedCaptureAll(args, s),
      AddServerHost(ResolvedIgnoreHosts(args, s), hostnameOf(url)),
      LowerAll(ResolvedRedactHeaders(args, s)))
  }

  /** The body of an enabled `init()` up to installing the configuration:
      each setting resolved, the URL and header names normalised, and the
      server's own host added to the ignored hosts. */
  method BuildConfig(args: InitArgs, fromEnv: EnvSettings, hostnameOf: string -> Option<string>)
    returns (cfg: SmelloConfig)
    ensures cfg == Configure(args, fromEnv, hostnameOf)
  {
    // Each setting: the argument if passed, else the variable, else the default.
    var serverUrl := if args.serverUrl.None? then OrElse(fromEnv.url, DefaultServerUrl)
      else args.serverUrl.value;
    assert serverUrl == RawServerUrl(args, fromEnv);
    var captureAll := if args.captureAll.None? then fromEnv.captureAll.GetOr(true)
      else args.captureAll.value;
    assert captureAll == ResolvedCaptureAll(args, fromEnv);
    var captureHosts := if args.captureHosts.None? then OrElse(fromEnv.captureHosts, [])
      else args.captureHosts.value;
    assert captureHosts == ResolvedCaptureHosts(args, fromEnv);
    var ignoreHosts := if args.ignoreHosts.None? then OrElse(fromEnv.ignoreHosts, [])
      else args.ignoreHosts.value;
    assert ignoreHosts == ResolvedIgnoreHosts(args, fromEnv);
    var redactHeaders := if args.redactHeaders.None?
      then fromEnv.redactHeaders.GetOr(DefaultRedactHeaders)
      else args.redactHeaders.value;
    assert redactHeaders == ResolvedRedactHeaders(args, fromEnv);

    cfg := SmelloConfig(RStripChar(serverUrl, '/'), captureHosts, captureAll,
      ignoreHosts, LowerAll(redactHeaders));

    // Always ignore the Smello server itself.
    var serverHost := hostnameOf(cfg.serverUrl);
    if serverHost.Some? && serverHost.value != [] && serverHost.value !in cfg.ignoreHosts {
      cfg := cfg.(ignoreHosts := cfg.ignoreHosts + [serverHost.value]);
    }
  }

  // ---------------------------------------------------------------------------
  // The module's state
  // ---------------------------------------------------------------------------

  /** The globals `_config` and `_atexit_registered`, and the number of
      exit hooks registered so far. */
  class SmelloModule {
    var config: Option<SmelloConfig>
    var atexitRegistered: bool
    ghost var exitHooks: nat

    /** The flag says exactly whether the hook has been registered, and it
        is registered at most once. */
    ghost predicate Valid()
      reads this
    {
      exitHooks == if atexitRegistered then 1 else 0
    }

    /** The state at import time. */
    constructor ()
      ensures config.None? && !atexitRegistered && exitHooks == 0
      ensures Valid()
    {
      config := None;
      atexitRegistered := false;
      exitHooks := 0;
    }

    /** `init()`. `fromEnv` is the environment as `ReadEnv` reads it.
        Starting the transport worker and installing the library patches
        are not part of this model. */
    method Init(args: InitArgs, fromEnv: EnvSettings, hostnameOf: string -> Option<string>)
      requires Valid()
      modifies this
      ensures Valid()
      ensures !Enabled(args, fromEnv) ==> unchanged(this)
      ensures Enabled(args, fromEnv) ==>
        config == Some(Configure(args, fromEnv, hostnameOf)) && atexitRegistered && exitHooks == 1
    {
      // The argument if passed, else the variable, else enabled.
      var enabled := if args.enabled.None? then fromEnv.enabled.GetOr(true) else args.enabled.value;
      assert enabled == Enabled(args, fromEnv);
      if !enabled {
        return;
      }
      var cfg := BuildConfig(args, fromEnv, hostnameOf);
      config := Some(cfg);

      // Register the exit hook once, so pending captures are flushed on exit.
      if !atexitRegistered {
        exitHooks := exitHooks + 1;
        atexitRegistered := true;
      }
    }
  }

  // ---------------------------------------------------------------------------
  // What init() promises
  // ---------------------------------------------------------------------------

  /** Python's `or` on what the environment gives is the same as testing
      for `None`, since no value read is empty. */
  lemma OrElseIsNoneTest<T>(x: Option<seq<T>>, default: seq<T>)
    requires x != Some([])
    ensures OrElse(x, default) == x.GetOr(default)
  {
  }

  /** An explicit argument wins over the variable, and the variable over
      the default, for every setting. */
  lemma ConfigurePrecedence(args: InitArgs, s: EnvSettings, hostnameOf: string -> Option<string>)
    requires s.NoEmptyValues()
    ensures var c := Configure(args, s, hostnameOf);
      && c.serverUrl == RStripChar(
           if args.serverUrl.Some? then args.serverUrl.value else s.url.GetOr(DefaultServerUrl), '/')
      && c.captureAll == (if args.captureAll.Some? then args.captureAll.value else s.captureAll.GetOr(true))
      && c.captureHosts == (
           if args.captureHosts.Some? then args.captureHosts.value else s.captureHosts.GetOr([]))
      && c.ignoreHosts[..|ResolvedIgnoreHosts(args, s)|] == (
           if args.ignoreHosts.Some? then args.ignoreHosts.value else s.ignoreHosts.GetOr([]))
      && c.redactHeaders == LowerAll(
           if args.redactHeaders.Some? then args.redactHeaders.value
           else s.redactHeaders.GetOr(DefaultRedactHeaders))
  {
    OrElseIsNoneTest(s.url, DefaultServerUrl);
    OrElseIsNoneTest(s.captureHosts, []);
    OrElseIsNoneTest(s.ignoreHosts, []);
  }

  /** Calls to the Smello server are never captured. */
  lemma ServerNeverCaptured(args: InitArgs, s: EnvSettings, hostnameOf: string -> Option<string>)
    ensures var c := Configure(args, s, hostnameOf);
      var host := hostnameOf(c.serverUrl);
      host.Some? && host.value != [] ==> !c.ShouldCapture(host.value)
  {
  }

  /** The configured URL never ends in `/`, and only slashes were removed. */
  lemma ServerUrlHasNoTrailingSlash(args: InitArgs, s: EnvSettings, hostnameOf: string -> Option<string>)
    ensures var c := Configure(args, s, hostnameOf);
      var raw := RawServerUrl(args, s);
      && (c.serverUrl == [] || c.serverUrl[|c.serverUrl| - 1] != '/')
      && raw == c.serverUrl + raw[|c.serverUrl|..]
      && forall i :: |c.serverUrl| <= i < |raw| ==> raw[i] == '/'
  {
  }

  /** Lower-casing is idempotent. */
  lemma LowerIdempotent(s: string)
    ensures Lower(Lower(s)) == Lower(s)
  {
  }

  /** Every redacted header name is lower case, one per configured name. */
  lemma RedactHeadersAreLowerCase(args: InitArgs, s: EnvSettings, hostnameOf: string -> Option<string>)
    ensures var c := Configure(args, s, hostnameOf);
      && |c.redactHeaders| == |ResolvedRedactHeaders(args, s)|
      && forall i :: 0 <= i < |c.redactHeaders| ==> Lower(c.redactHeaders[i]) == c.redactHeaders[i]
  {
    var c := Configure(args, s, hostnameOf);
    forall i | 0 <= i < |c.redactHeaders|
      ensures Lower(c.redactHeaders[i]) == c.redactHeaders[i]
    {
      LowerIdempotent(ResolvedRedactHeaders(args, s)[i]);
    }
  }

  /** No element occurs twice. */
  predicate NoDuplicates(s: seq<string>) {
    forall i, j :: 0 <= i < j < |s| ==> s[i] != s[j]
  }

  /** Adding the server's host never creates a duplicate. */
  lemma AddServerHostKeepsNoDuplicates(hosts: seq<string>, serverHost: Option<string>)
    requires NoDuplicates(hosts)
    ensures NoDuplicates(AddServerHost(hosts, serverHost))
  {
    var r := AddServerHost(hosts, serverHost);
    if r != hosts {
      forall i, j | 0 <= i < j < |r|
        ensures r[i] != r[j]
      {
        if j == |hosts| {
          assert r[i] == hosts[i];
        }
      }
    }
  }

  /** An empty environment sets nothing. */
  lemma EmptyEnvironment()
    ensures ReadEnv(map[]) == EnvSettings(None, None, None, None, None, None)
  {
    assert forall name :: EnvStr(map[], name) == None;
  }

  /** The default URL has no trailing `/` to remove. */
  lemma DefaultServerUrlKept()
    ensures RStripChar(DefaultServerUrl, '/') == DefaultServerUrl
  {
    assert DefaultServerUrl[|DefaultServerUrl| - 1] == '0';
  }

  /** With nothing passed and nothing in the environment, `init()` uses the
      defaults. */
  lemma DefaultsWithoutEnvironment(hostnameOf: string -> Option<string>)
    ensures var c := Configure(InitArgs(None, None, None, None, None, None), ReadEnv(map[]), hostnameOf);
      && Enabled(InitArgs(None, None, None, None, None, None), ReadEnv(map[]))
      && c.serverUrl == DefaultServerUrl
      && c.captureAll && c.captureHosts == []
      && c.ignoreHosts == AddServerHost([], hostnameOf(DefaultServerUrl))
      && c.redactHeaders == LowerAll(DefaultRedactHeaders)
  {
    EmptyEnvironment();
    DefaultServerUrlKept();
    var s := ReadEnv(map[]);
    var args := InitArgs(None, None, None, None, None, None);
    assert RawServerUrl(args, s) == DefaultServerUrl;
  }
}
