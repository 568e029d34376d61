# Smello Python client core, modelled in Dafny

Smello is a tool that captures a program's outgoing HTTP and gRPC traffic
and sends each captured request/response pair to a local Smello server,
where it can be inspected. This project models the core of the Python
client:

- `SmelloConfig` and its host policy (`should_capture`): ignored hosts are
  never captured. Otherwise every host is captured when `capture_all` is
  set, and only the listed capture hosts are when it is not.
- The `SMELLO_*` environment readers `_env_str`, `_env_bool` and `_env_list`.
  The process environment is a `map<string, string>`.
- `init()`. Each setting comes from the explicit argument, then the
  environment variable, then the built-in default. The URL loses its
  trailing `/`s. Redacted header names are lower-cased. The server's own
  host is always ignored. The exit hook is registered once. The globals
  `_config` and `_atexit_registered` are the fields of the class
  `Smello.SmelloModule`.
- The gRPC interceptor for unary-unary calls. It covers:
  - the gRPC status to HTTP status table
  - host extraction from a channel target
  - metadata-to-dict conversion
  - `_intercept_unary_unary` itself: the skip path makes no capture; the
    success path and the error path each make exactly one capture attempt.
    A failing capture is swallowed. The call's own reply or exception
    reaches the caller, except in the raising cases listed under
    "Left out".
  - `_send_capture`, modelled as a sink that records every attempt and
    queues the attempts that do not raise.

Python string operations (`strip`, `lower`, `split`, `rsplit(sep, 1)`,
`rstrip`, `startswith`, `str(int)`) are defined in module `PyStr`, with the
lemmas the rest of the model needs.

Source paths below are relative to the repository root.

## Model

| member | source | states |
|---|---|---|
| Config.SmelloConfig.ShouldCapture | clients/python/src/smello/config.py:16-22 | an ignored host is never captured; otherwise with `capture_all` every host is, and without it exactly the listed capture hosts are |
| Config.DefaultConfig | clients/python/src/smello/config.py:6-14 | a config built from a URL alone captures everything, lists no hosts and redacts `authorization` and `x-api-key` |
| Config.ShouldCaptureExactly | clients/python/src/smello/config.py:16-22 | the policy as one formula: captured iff not ignored and (capture all or listed) |
| Config.DefaultCapturesEverything | clients/python/src/smello/config.py:10-11 | with the default fields every host is captured |
| Config.IgnoringMoreCapturesLess | clients/python/src/smello/config.py:18-19 | adding an ignored host stops capturing it and never starts capturing any host |
| Env.EnvStr | clients/python/src/smello/_env.py:11-17 | a value is returned only for a set variable; it is the stripped value, non-empty and without surrounding whitespace |
| Env.EnvStrCases | clients/python/src/smello/_env.py:11-17 | `None` exactly when the variable is unset, empty or all whitespace, otherwise the stripped value |
| Env.EnvBool | clients/python/src/smello/_env.py:20-35 | a value only for a set variable, and it is true exactly when the lower-cased stripped value is a truthy spelling |
| Env.EnvBoolCases | clients/python/src/smello/_env.py:20-35 | true exactly when the lower-cased stripped value is `true`/`1`/`yes`, false exactly when it is `false`/`0`/`no`, `None` when unset |
| Env.TruthyFalsyDisjoint | clients/python/src/smello/_env.py:7-8 | no spelling is both truthy and falsy |
| Env.EnvBoolIgnoresCase | clients/python/src/smello/_env.py:30 | values that lower-case alike read as the same boolean |
| Env.NonEmptyStripped | clients/python/src/smello/_env.py:47 | the kept items are at most as many as the pieces, each non-empty and stripped |
| Env.EnvList | clients/python/src/smello/_env.py:38-48 | a returned list is non-empty and its items are non-empty, stripped and comma-free |
| Env.NonEmptyStrippedNoSep | clients/python/src/smello/_env.py:47 | a separator absent from every piece is absent from every item |
| Env.NonEmptyStrippedAppend | clients/python/src/smello/_env.py:47 | filtering pieces distributes over concatenation |
| Env.SplitAtSeparator | clients/python/src/smello/_env.py:47 | splitting `a,b` gives the pieces of `a` then those of `b` |
| Env.ListItemsOfOnePiece | clients/python/src/smello/_env.py:47-48 | a comma-free value gives its stripped self, or nothing when blank |
| Env.ListItemsOrder | clients/python/src/smello/_env.py:47 | items keep the left-to-right order of the value |
| Env.EnvListNone | clients/python/src/smello/_env.py:44-48 | an unset or blank variable gives `None`, and the empty list is never returned |
| Env.EnvListBound | clients/python/src/smello/_env.py:47 | there are at most one more items than commas in the raw value |
| Env.CountStrip | clients/python/src/smello/_env.py:16 | stripping removes no comma |
| PyStr.Strip | clients/python/src/smello/_env.py:16 | `str.strip()`: no leading or trailing whitespace is left, and the result is empty exactly when the input is all whitespace |
| PyStr.StripLowerCommute | clients/python/src/smello/_env.py:16-30 | stripping and lower-casing commute |
| PyStr.Lower | clients/python/src/smello/_env.py:30 | `str.lower()` keeps the length and maps each character |
| PyStr.Split | clients/python/src/smello/_env.py:47 | `str.split(",")`: one more piece than separators, no piece holds one, and joining the pieces gives back the input |
| PyStr.RSplitOnce | clients/python/src/smello/patches/patch_grpc.py:72-77 | `str.rsplit(sep, 1)`: the text before and after the last separator |
| PyStr.RStripChar | clients/python/src/smello/__init__.py:75 | `str.rstrip("/")`: a prefix of the input not ending in `/`, with only `/` removed |
| PyStr.StartsWith | clients/python/src/smello/patches/patch_grpc.py:67 | `str.startswith(p)`: true exactly when `p` is no longer than the text and agrees with it at every position of `p` |
| PyStr.IntToString | clients/python/src/smello/patches/patch_grpc.py:169 | `str(n)`: never empty, and it starts with `-` exactly when `n` is negative |
| PyStr.IntToStringRoundTrip | clients/python/src/smello/patches/patch_grpc.py:169 | `str(code)` reads back as the same integer |
| GrpcCodes.GrpcStatusToHttp | clients/python/src/smello/patches/patch_grpc.py:59-60 | `_grpc_status_to_http`: every status number, listed or not, maps into 200..599 |
| GrpcCodes.StatusOf | clients/python/src/smello/patches/patch_grpc.py:10-28 | a canonical status exists exactly for the numbers 0 to 16 that the table lists, and carries that number |
| GrpcCodes.StatusTableMatchesCanonicalCodes | clients/python/src/smello/patches/patch_grpc.py:10-28 | `_grpc_status_to_http` gives each canonical status its HTTP equivalent and any other number 500 |
| GrpcCodes.StatusTableSeverity | clients/python/src/smello/patches/patch_grpc.py:59-60 | only status 0 maps to 200; every other code maps into 400..599 |
| GrpcCodes.StatusTableExamples | clients/python/tests/test_patch_grpc.py:404-413 | NOT_FOUND gives 404, UNAUTHENTICATED 401, an unknown code 500 |
| GrpcTarget.ResolverPrefixLength | clients/python/src/smello/patches/patch_grpc.py:66-68 | the length removed is never more than the target's length |
| GrpcTarget.StripResolverPrefix | clients/python/src/smello/patches/patch_grpc.py:66-69 | what remains after the prefix is a suffix of the target |
| GrpcTarget.AfterLastSlash | clients/python/src/smello/patches/patch_grpc.py:72-73 | a suffix holding no `/`, and the whole text when it has none |
| GrpcTarget.DropPort | clients/python/src/smello/patches/patch_grpc.py:76-77 | a prefix, and the whole text when it has no `:` |
| GrpcTarget.StripTargetPrefix | clients/python/src/smello/patches/patch_grpc.py:66-69 | the loop removes the first matching resolver prefix and stops |
| GrpcTarget.ExtractHost | clients/python/src/smello/patches/patch_grpc.py:63-79 | the host is the prefix-stripped target's last `/`-piece without its last `:`-suffix |
| GrpcTarget.HostOf | clients/python/src/smello/patches/patch_grpc.py:63-79 | the host named by a channel target; its properties are the lemmas in the rows that follow |
| GrpcTarget.HostNoLonger | clients/python/src/smello/patches/patch_grpc.py:63-79 | the host is never longer than the target |
| GrpcTarget.HostPosition | clients/python/src/smello/patches/patch_grpc.py:63-79 | the host is one contiguous piece of the target, and the lemma returns where it starts |
| GrpcTarget.TargetPrefixOrder | clients/python/src/smello/patches/patch_grpc.py:66-69 | at most one prefix is removed, and `dns:///` is tried before `dns://` |
| GrpcTarget.HostOfHasNoSlash | clients/python/src/smello/patches/patch_grpc.py:72-77 | the host never contains `/` |
| GrpcTarget.PortlessKeepsAbsent | clients/python/src/smello/patches/patch_grpc.py:76-77 | dropping the port adds no character |
| GrpcTarget.PortDropped | clients/python/src/smello/patches/patch_grpc.py:76-77 | `host:port` gives `host` when the port holds no `:` |
| GrpcTarget.PathDropped | clients/python/src/smello/patches/patch_grpc.py:72-73 | `path/rest` gives `rest` when `rest` holds no `/` |
| GrpcTarget.HostOfHostPort | clients/python/tests/test_patch_grpc.py:421-433 | any `[prefix][authority/]host:port` target names `host` |
| PatchGrpc.PairsToDict | clients/python/src/smello/patches/patch_grpc.py:86 | the dict's keys are the pairs' keys, each mapped to its value at its last occurrence |
| PatchGrpc.MetadataToDict | clients/python/src/smello/patches/patch_grpc.py:82-86 | no metadata gives the empty dict |
| PatchGrpc.MetadataToDictExample | clients/python/tests/test_patch_grpc.py:478-480 | two distinct pairs give the two-entry dict |
| PatchGrpc.CaptureSink.SendCapture | clients/python/src/smello/patches/patch_grpc.py:208-234 | one capture with library `grpc` is attempted; it reaches the queue exactly when it does not raise, and the raise is reported |
| PatchGrpc.InterceptUnaryUnary | clients/python/src/smello/patches/patch_grpc.py:122-205 | an uncaptured host gets the call's outcome and no capture; an undecodable bytes method raises with no capture; otherwise the caller gets the call's own outcome and exactly one capture of the call's URL, headers, bodies and status is attempted, queued only if it does not raise |
| PatchGrpc.CaptureOf | clients/python/src/smello/patches/patch_grpc.py:138-171 | every capture is a `grpc` POST that keeps the call's URL, request headers, request body and duration; a reply gives HTTP 200 |
| PatchGrpc.SuccessCapture | clients/python/src/smello/patches/patch_grpc.py:138-153 | a reply is recorded as a POST with HTTP 200, the reply's JSON, status `0`/`OK` and the trailing metadata overriding those headers |
| PatchGrpc.ErrorCapture | clients/python/src/smello/patches/patch_grpc.py:154-171 | an exception is recorded with the table's HTTP code for its status, the status number as text, its name (or UNKNOWN), and the exception text; no code means UNKNOWN and HTTP 500 |
| Smello.ReadEnv | clients/python/src/smello/__init__.py:50-72 | no string or list read from the environment is empty |
| Smello.LowerAll | clients/python/src/smello/__init__.py:79 | each redacted header name is lower-cased, one per name, in order |
| Smello.AddServerHost | clients/python/src/smello/__init__.py:83-87 | a non-empty server host is then ignored; the old list is kept as a prefix and at most one host is appended; nothing is added when the host is absent, empty or already listed |
| Smello.Configure | clients/python/src/smello/__init__.py:74-87 | the ignored hosts are the resolved ones, kept in order, with at most one host appended; there is one redacted name per resolved name |
| Smello.BuildConfig | clients/python/src/smello/__init__.py:55-87 | the configuration built is the resolved one: each setting resolved, the URL right-stripped of `/`, header names lower-cased, the server host added to the ignored hosts |
| Smello.EmptyEnvironment | clients/python/src/smello/_env.py:11-48 | an empty environment gives no value for any setting |
| Smello.DefaultServerUrlKept | clients/python/src/smello/__init__.py:13 | the default URL has no trailing `/` for `rstrip` to remove |
| Smello.SmelloModule.constructor | clients/python/src/smello/__init__.py:16-17 | no configuration and no exit hook at import time |
| Smello.SmelloModule.Init | clients/python/src/smello/__init__.py:20-102 | disabled: nothing changes; enabled: the configuration is the resolved one and the exit hook is registered exactly once however often `init()` runs |
| Smello.OrElseIsNoneTest | clients/python/src/smello/__init__.py:56-66 | `x or default` on an environment value equals the `is None` test, since no value read is empty |
| Smello.ConfigurePrecedence | clients/python/src/smello/__init__.py:49-80 | each setting is the explicit argument if passed, else the variable if set, else the default |
| Smello.ServerNeverCaptured | clients/python/src/smello/__init__.py:82-87 | calls to the Smello server's own host are never captured |
| Smello.ServerUrlHasNoTrailingSlash | clients/python/src/smello/__init__.py:75 | the stored URL does not end in `/` and only trailing slashes were removed |
| Smello.LowerIdempotent | clients/python/src/smello/__init__.py:79 | lower-casing twice is lower-casing once |
| Smello.RedactHeadersAreLowerCase | clients/python/src/smello/__init__.py:79 | every stored redacted header name is already lower case |
| Smello.AddServerHostKeepsNoDuplicates | clients/python/src/smello/__init__.py:86 | adding the server host never creates a duplicate |
| Smello.DefaultsWithoutEnvironment | clients/python/src/smello/__init__.py:13-14 | with no argument and an empty environment: enabled, default URL, capture all, no capture hosts, only the server host ignored, default redacted headers |

## Left out

- No URL configured: `clients/python/tests/test_env.py:102-117` expects `init()` with no URL anywhere to install no configuration and log a warning. The code falls back to `http://localhost:5110` instead (`__init__.py:55-56`). The model follows the code: see `Smello.DefaultsWithoutEnvironment`.
- Smello.SmelloModule.Init: takes the environment already read (`ReadEnv`) rather than reading variables lazily. Reads have no side effects, so the outcome is the same.
- Smello.SmelloModule.Init: the transport worker (`start_worker`) and the library patches (`apply_all`) are not part of this model.
- Smello.SmelloModule.Init: `urlparse(url).hostname` is the function parameter `hostnameOf`; URL parsing is not modelled.
- Smello.AddServerHost: the source appends to the list the caller passed, so the caller's own `ignore_hosts` list changes too. The model builds a new sequence, so this aliasing is not captured.
- PyStr.Lower: lower-cases ASCII letters only. Python's `str.lower()` also folds non-ASCII letters.
- PatchGrpc.PairsToDict: Python dicts remember insertion order; a Dafny map does not. Metadata values are text; binary metadata values are not modelled.
- PatchGrpc.InterceptUnaryUnary: `_proto_to_json` and UTF-8 decoding are function parameters. The clock reading is the parameter `elapsed`. Whether `_send_capture` raises is the parameter `captureFails`.
- PatchGrpc.InterceptUnaryUnary: on the success path, `trailing_metadata()` (`patch_grpc.py:151`) or `_metadata_to_dict(trailing)` (`patch_grpc.py:153`) may raise. The `except` at `patch_grpc.py:154` then catches that exception, records it as an error capture and raises it in place of the reply. The model takes the trailing metadata as a value and does not capture this case.
- PatchGrpc.InterceptUnaryUnary: on the error path, `str(err)` (`patch_grpc.py:159`), `err.code()` (`patch_grpc.py:162`) or `code_obj.value[0]` (`patch_grpc.py:164`) may raise inside the `except` block. The new exception then replaces the call's own exception and no capture is attempted. The model takes the exception's text and code as values, so it does not promise that the caller always sees the call's own exception.
- PatchGrpc.CaptureSink.SendCapture: serialization (`capture.serialize_request_response`) and the transport queue are not part of this model. The capture record stands for the payload.
- Logging of swallowed capture failures is not modelled.
- Flushing and shutdown (`flush`, `shutdown`), the patch installers (`patch_grpc`, `_make_interceptor_class`, the channel wrappers) and the server are not part of this model.
