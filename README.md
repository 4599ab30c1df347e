# DNS enforcement engine of the Citadel filtering service, in Dafny

This project models the part of the Citadel Windows filter service that keeps
DNS resolution on the policy servers. It also models the guard that decides
whether the login screen may send an authentication request.

The DNS engine (`CitadelService/Util/DnsEnforcement.cs`) is modelled as one
sequential class, `Enforcement.DnsEnforcement`. It has five parts:

- **Search-order merge** (`DnsMerge`). For an adapter that lacks a policy
  server, the merge starts from the `DNSServerSearchOrder` of the WMI
  parameter object, not from the adapter's own DNS addresses. An absent
  primary is inserted at index 0. An absent secondary is
  inserted at index 1, or appended when the list is empty. The adapter is
  rewritten only when the `changed` flag is set.
- **Enforce and revert passes** (`Adapters`, `TryEnforce`, `SetDnsToDhcp`,
  `ConfigLoaded`). Both passes act only on adapters that are up and not
  tunnels. The revert pass runs only when a policy server parses. It writes an
  empty list (DHCP) to every such adapter, which then reports the addresses
  DHCP gives it. A revert requested before the
  configuration has loaded is deferred to a one-shot handler.
- **DNS liveness with a five-minute cache** (`IsDnsUp`, `InvalidateDnsResult`).
  The non-blank servers are looked up primary first, and the lookup stops at
  the first answer.
- **Captive-portal classification** (`CaptivePortal`, `IsCaptivePortalActive`,
  `IsBehindCaptivePortal`). The inputs are the OS flags, a DNS pre-check when
  no internet route exists, and the download of the connectivity-check page.
  The answer is Yes, No or NoResponseReturned; the last one schedules one
  retry 1500 ms later.
- **Trigger cycle** (`Trigger`, `SetupTimers`, `OnNetworkChange`). The timer
  interval is 5000 ms behind a portal and 60000 ms otherwise.

Everything outside the process is a value of type `Env`: the clock (in
milliseconds), address parsing, DNS lookups, the network and portal flags, the
download outcome and the status code of each adapter write. What the engine
does to the outside is recorded in fields: adapter writes, lookups, downloads,
scheduled retries, raised events and list-refresh requests.

The model follows the code as written, including these behaviours, which the
method names and comments do not suggest:

- `Trigger` returns before `SetupTimers` when DNS is down, so the timer is not
  re-armed in that cycle.
- `IsDnsUp` without a configuration stamps the check time but keeps the cached
  result.
- The no-route DNS pre-check runs before the OS captive-portal flags are
  consulted. A failed pre-check therefore answers "not active" even when the OS
  reports a portal.
- Reverting an adapter that is already on DHCP still issues a write.
- An inconclusive download answers `false`, so that cycle enforces unless the
  captive-portal helper already knows the network as captive.
- In `LoginModel.CanAttemptAuthentication`, the scheme guard of both builds
  rejects only schemes that are neither http nor https. Plain http is accepted
  in release builds, although the comment above the guard says https is
  required.

## Model

| member | source | states |
|---|---|---|
| `DnsMerge.MergeContents` | CitadelService/Util/DnsEnforcement.cs:103-135 | after the merge every non-null policy server is in the list, every entry of the starting list is still there, and nothing else was added |
| `DnsMerge.MergeSearchOrder` | CitadelService/Util/DnsEnforcement.cs:103-135 | the in-place Insert/Add edit and its `changed` flag produce exactly the reference merge |
| `DnsMerge.MergePlacement` | CitadelService/Util/DnsEnforcement.cs:112-135 | an absent primary lands at index 0; an absent secondary lands at index 1 of a non-empty list, or alone in an empty one; entries of the starting list keep their relative order |
| `DnsMerge.ChangedIffGrown` | CitadelService/Util/DnsEnforcement.cs:110-137 | `changed` holds iff the list grew, iff it differs from the input; it grows by at most 2 |
| `DnsMerge.ChangedIffNeedsUpdate` | CitadelService/Util/DnsEnforcement.cs:112-135 | the merge reports a change exactly when the starting list lacks a non-null policy server |
| `DnsMerge.InsertPrimaryCount` | CitadelService/Util/DnsEnforcement.cs:112-119 | the Insert(0, …) step adds exactly one occurrence of an absent primary server and leaves every other count alone |
| `DnsMerge.InsertSecondaryCount` | CitadelService/Util/DnsEnforcement.cs:120-134 | the Insert(1, …)/Add step adds exactly one occurrence of an absent secondary server and leaves every other count alone |
| `DnsMerge.MergeNoNewDuplicates` | CitadelService/Util/DnsEnforcement.cs:112-135 | each pre-existing entry occurs as often as before; an entry that was not there occurs at most once |
| `DnsMerge.MergeKeepsDistinct` | CitadelService/Util/DnsEnforcement.cs:112-135 | a list without duplicates stays without duplicates |
| `DnsMerge.MergeSatisfiesPolicy` | CitadelService/Util/DnsEnforcement.cs:112-135 | after a merge no policy server is missing |
| `DnsMerge.MergeIdempotent` | CitadelService/Util/DnsEnforcement.cs:110-141 | merging the result again leaves it unchanged with `changed = false`, so no second write |
| `DnsMerge.MergeExample` | CitadelService/Util/DnsEnforcement.cs:112-135 | [8.8.8.8] with policy 1.1.1.1 / 9.9.9.9 becomes [1.1.1.1, 9.9.9.9, 8.8.8.8] |
| `Adapters.EnforcedSpec` | CitadelService/Util/DnsEnforcement.cs:148-166 | the enforce pass changes an adapter only if it is up, not a tunnel, lacks a policy server, its starting list lacks one too and its write succeeds; such an adapter then lacks none; a starting list that holds every policy server leaves the adapter as it is |
| `Adapters.EnforceAdapter` | CitadelService/Util/DnsEnforcement.cs:101-139 | one adapter's needsUpdate check, merge of the starting list and changed check give that adapter's outcome and write |
| `Adapters.EmptyStartReplacesServers` | CitadelService/Util/DnsEnforcement.cs:103-134 | with an empty starting list, an adapter that lacks a policy server is written exactly [primary, secondary] (or [primary] when they are equal), whatever servers it held |
| `Adapters.Reverted` | CitadelService/Util/DnsEnforcement.cs:207-237 | the revert pass leaves a selected adapter whose write succeeds with the addresses DHCP gives it, and changes nothing else; an adapter already reporting those is left as it is |
| `Adapters.EnforceAdapters` | CitadelService/Util/DnsEnforcement.cs:148-167 | the interface loop with its needsUpdate and changed checks yields the adapters and write log of the enforce pass |
| `Adapters.RevertAdapters` | CitadelService/Util/DnsEnforcement.cs:207-238 | the interface loop writes an empty list to every selected adapter; a non-zero status does not stop the loop |
| `Adapters.EnforceWritesExactly` | CitadelService/Util/DnsEnforcement.cs:148-167 | the enforce pass writes the merged starting list to each selected adapter that lacks a policy server and whose starting list lacks one, and to no other adapter |
| `Adapters.EnforceWritesOrdered` | CitadelService/Util/DnsEnforcement.cs:148-167 | the enforce writes follow enumeration order, at most one per adapter |
| `Adapters.RevertWritesExactly` | CitadelService/Util/DnsEnforcement.cs:207-238 | the revert pass writes exactly one empty list to each selected adapter, in enumeration order, and to no other adapter |
| `Adapters.EnforceIdempotent` | CitadelService/Util/DnsEnforcement.cs:148-166 | enforcing twice under the same write statuses leaves the adapters as enforcing once does |
| `Adapters.SecondEnforceWritesNothing` | CitadelService/Util/DnsEnforcement.cs:148-166 | after a pass whose writes all succeeded, the next pass issues no write |
| `Adapters.RevertIdempotent` | CitadelService/Util/DnsEnforcement.cs:207-238 | reverting twice under the same write statuses gives the adapters and the write log of reverting once |
| `Adapters.EnforceAfterRevert` | CitadelService/Util/DnsEnforcement.cs:148-166 | after a successful revert, the enforce pass leaves an adapter whose DHCP addresses hold every policy server unchanged, and otherwise writes it the merged starting list when that lacks one |
| `Strings.TrimStartSpec` | CitadelService/Util/DnsEnforcement.cs:428 | leading trim removes exactly the longest prefix of trim characters |
| `Strings.TrimEndSpec` | CitadelService/Util/DnsEnforcement.cs:428 | trailing trim removes exactly the longest suffix of trim characters |
| `Strings.TrimBySpec` | CitadelService/Util/DnsEnforcement.cs:428 | the trimmed body is a slice of the original that neither starts nor ends with a trim character |
| `CaptivePortal.CheckCaptivePortalState` | CitadelService/Util/DnsEnforcement.cs:412-451 | an OS flag gives Yes; otherwise the answer is No iff the trimmed body is the token or another exception occurred, and NoResponseReturned iff the error has no response |
| `CaptivePortal.InconclusiveAnswersNotActive` | CitadelService/Util/DnsEnforcement.cs:377-391 | a retry is scheduled iff the page was downloaded and the error had no response, and then the answer is "not active" |
| `CaptivePortal.OsFlagPrecedence` | CitadelService/Util/DnsEnforcement.cs:359-417 | with an OS flag set nothing is downloaded, and the answer is "active" iff the no-route pre-check did not fail |
| `CaptivePortal.PaddedTokenIsNoPortal` | CitadelService/Util/DnsEnforcement.cs:426-431 | the token followed by a line break classifies as No |
| `CaptivePortal.RewrittenPageIsPortal` | CitadelService/Util/DnsEnforcement.cs:426-431 | the page "<html>" classifies as Yes |
| `Enforcement.SearchList` | CitadelService/Util/DnsEnforcement.cs:304-319 | the probe list holds one entry per non-blank server and no other, primary first; it is empty iff both are blank |
| `Enforcement.ProbedStopsAtFirstAnswer` | CitadelService/Util/DnsEnforcement.cs:321-347 | the lookups form a prefix of the list; all but the last failed; the last answered iff some server answers; if none answers all were tried |
| `Enforcement.ProbeServers` | CitadelService/Util/DnsEnforcement.cs:321-347 | the loop with `break` answers true iff some server returns an address, and issues exactly the lookups above |
| `Enforcement.FallbackToSecondary` | CitadelService/Util/DnsEnforcement.cs:310-347 | a failing primary and an answering secondary give "up" after exactly the two lookups, primary then secondary |
| `Enforcement.NeverCheckedProbes` | CitadelService/Util/DnsEnforcement.cs:267-291 | a cache stamped MinValue is never fresh: the check probes the configured servers whatever the clock reads |
| `Enforcement.FirstCheckSeesDeadServer` | CitadelService/Util/DnsEnforcement.cs:267-347 | with a lone primary that does not answer, the first check reports DNS down after the one lookup, although the cached result starts true |
| `Enforcement.NoServersNoLookups` | CitadelService/Util/DnsEnforcement.cs:304-307 | with both servers blank, DNS counts as up and no lookup is issued |
| `Enforcement.EnforcePassTouchesOnlyAdaptersMissingPolicy` | CitadelService/Util/DnsEnforcement.cs:75-166 | without a parsable policy server nothing is written; otherwise only up, non-tunnel adapters lacking a policy server, whose starting list lacks one too, change |
| `Enforcement.EnforcePassIdempotent` | CitadelService/Util/DnsEnforcement.cs:75-166 | after a fully successful enforce pass, the next pass over the same parameter lists changes nothing and writes nothing |
| `Enforcement.RevertWritesOnlyEmptyLists` | CitadelService/Util/DnsEnforcement.cs:199-238 | a revert writes only empty lists, and changes adapters only when a policy server parses |
| `Enforcement.SuspensionAppliesNothing` | CitadelService/Util/DnsEnforcement.cs:54-70 | the writes a disable request appends, whether deferred or immediate, contain no non-empty server list |
| `Enforcement.RevertPassIdempotent` | CitadelService/Util/DnsEnforcement.cs:178-239 | a second revert pass under the same write statuses leaves the adapters as the first left them and issues the same writes |
| `Enforcement.DnsEnforcement.constructor` | CitadelService/Util/DnsEnforcement.cs:267-268 | the cache starts at MinValue with result true and is stale at every clock reading; no timer, no portal flag, empty logs |
| `Enforcement.DnsEnforcement.TryEnforce` | CitadelService/Util/DnsEnforcement.cs:48-176 | disable without a configuration subscribes one revert and touches nothing; disable with one reverts; enable runs the enforce pass |
| `Enforcement.DnsEnforcement.SetDnsToDhcp` | CitadelService/Util/DnsEnforcement.cs:178-239 | without a parsable policy server no adapter is touched; otherwise every selected adapter is written an empty list |
| `Enforcement.DnsEnforcement.ConfigLoaded` | CitadelService/Util/DnsEnforcement.cs:58-66 | when the configuration loads, each subscribed handler reverts once, in subscription order, with the statuses of its own writes, and unsubscribes; the adapters and the log end as after those handlers |
| `Enforcement.DnsEnforcement.RunHandler` | CitadelService/Util/DnsEnforcement.cs:60-64 | one handler runs SetDnsToDhcp with its own write statuses on what the earlier handlers left |
| `Enforcement.RevertHandlersOutcome` | CitadelService/Util/DnsEnforcement.cs:56-66 | after the handlers, a selected adapter reports its DHCP addresses when a policy server parses and some handler's write to it succeeded, and is otherwise unchanged; every handler writes an empty list to every selected adapter |
| `Enforcement.DnsEnforcement.InvalidateDnsResult` | CitadelService/Util/DnsEnforcement.cs:270-273 | the check time returns to MinValue, so the cache is stale at every clock reading and the next call re-probes |
| `Enforcement.DnsEnforcement.IsDnsUp` | CitadelService/Util/DnsEnforcement.cs:284-352 | while `lastDnsCheck + 5 min > now` the cached result is returned with no lookup; otherwise the time is stamped first; no configuration gives true and keeps the result; else the probe verdict is returned and cached |
| `Enforcement.DnsEnforcement.IsCaptivePortalActive` | CitadelService/Util/DnsEnforcement.cs:357-401 | a failed pre-check answers false before any download; otherwise true iff classified Yes, and NoResponseReturned schedules one retry at now + 1500 |
| `Enforcement.DnsEnforcement.IsBehindCaptivePortal` | CitadelService/Util/DnsEnforcement.cs:247-265 | an active portal answers true with event (true, true); otherwise the helper's flag answers, with event (flag, false) |
| `Enforcement.DnsEnforcement.SetupTimers` | CitadelService/Util/DnsEnforcement.cs:487-503 | the timer is armed at 5000 ms behind a portal, 60000 ms otherwise |
| `Enforcement.DnsEnforcement.Trigger` | CitadelService/Util/DnsEnforcement.cs:459-485 | DNS down reverts and leaves the portal flag, probes and timer untouched; otherwise records the verdict, enforces unless behind a portal, and re-arms; a suspended cycle never writes a non-empty list |
| `Enforcement.DnsEnforcement.RunCycle` | CitadelService/Util/DnsEnforcement.cs:472-484 | after a DNS check that succeeded, the portal verdict is stored; behind a portal the adapters are reverted, otherwise enforced; the timer is re-armed; behind a portal no non-empty list is written |
| `Enforcement.DnsEnforcement.OnNetworkChange` | CitadelService/Util/DnsEnforcement.cs:505-513 | without a configuration a list refresh is requested; then a full cycle runs, with the DNS cache not invalidated |
| `Login.SchemeRejected` | CitadelGUI/Te/Citadel/UI/Models/LoginModel.cs:117-126 | in either build the scheme guard rejects iff the scheme is neither http nor https |
| `Login.PlainHttpPassesReleaseBuild` | CitadelGUI/Te/Citadel/UI/Models/LoginModel.cs:117-126 | "http" and "HTTP" pass the release-build guard |
| `Login.FtpRejectedByBothBuilds` | CitadelGUI/Te/Citadel/UI/Models/LoginModel.cs:118-126 | a scheme outside http/https is rejected by both builds |
| `Login.SameAnswerInBothBuilds` | CitadelGUI/Te/Citadel/UI/Models/LoginModel.cs:117-126 | the guard chain gives the same answer in the debug and the release build |
| `Login.LoginModel.constructor` | CitadelGUI/Te/Citadel/UI/Models/LoginModel.cs:175-182 | a new model has the default provider, empty name, empty password and empty error, and cannot attempt authentication |
| `Login.LoginModel.SetServiceProvider` | CitadelGUI/Te/Citadel/UI/Models/LoginModel.cs:45-48 | sets only the service-provider field |
| `Login.LoginModel.SetErrorMessage` | CitadelGUI/Te/Citadel/UI/Models/LoginModel.cs:58-61 | sets only the error-message field |
| `Login.LoginModel.SetUserName` | CitadelGUI/Te/Citadel/UI/Models/LoginModel.cs:71-74 | sets only the user-name field |
| `Login.LoginModel.SetUserPassword` | CitadelGUI/Te/Citadel/UI/Models/LoginModel.cs:84-87 | sets only the password field |
| `Login.LoginModel.CanAttemptAuthentication` | CitadelGUI/Te/Citadel/UI/Models/LoginModel.cs:96-141 | true iff not authenticating, the provider is Valid and an absolute http(s) URI, the name is Valid and the password is non-null and non-empty |

## Left out

- Adapter plumbing: WMI (`ManagementClass`, `GetMethodParameters`, `InvokeMethod`) and `NetworkInterface.GetAllNetworkInterfaces` are abstracted. Adapters are a sequence in enumeration order. Each write goes to the enumerated adapter itself. The WMI lookup by description and `IPEnabled`, which could hit several adapters or none, is not modelled.
- The interface's `DnsAddresses` (address objects) and the parameter object's `DNSServerSearchOrder` (strings) are both lists of canonical address strings. They are separate inputs: `Adapter.servers` for the needsUpdate check and `Env.searchOrder` for the merge. What WMI puts in the parameter object is not modelled; it is an input per adapter. Likewise, the addresses an adapter reports after it is handed back to DHCP are an input per adapter (`Env.dhcpServers`); the DHCP exchange itself is not modelled.
- Write status: a write with status 0 takes effect and any other status leaves the adapter as it was. The source ignores the status of the enforce write and only logs that of the revert write. Both statuses are kept in the write log.
- Network I/O: `DnsClient.Lookup`, `Dns.GetHostEntry` and `WebClient.DownloadString` are input outcomes. Each server gets one outcome per call, and there are no timeouts.
- Concurrency: the lock, `async`/`await`, `Task.Delay(...).ContinueWith` and `System.Threading.Timer` are left out. The delayed retry is recorded as a due time, and the timer as its interval. The model never fires either; a caller runs `Trigger` when one is due.
- Exceptions: the catch blocks of `TryEnforce` and `Trigger` are not modelled. None of the modelled inputs raises the parse or enumeration errors they catch.
- Time: `DateTime.Now` is a millisecond count from 0, and `DateTime.MinValue` is one full cache window (-300000) before it, so a never-checked or invalidated cache is never fresh. Calendar arithmetic and the overflow of `AddMinutes` near the maximum date are left out.
- `IPAddress.TryParse` of the trimmed string is one input function. `StringExtensions` is not part of this model: `Valid` is taken to mean non-null and not blank. `Char.IsWhiteSpace` is limited to ASCII and Latin-1, and case-insensitive comparison to ASCII.
- External collaborators: `NetworkStatus.Default` and `CaptivePortalHelper.Default` are boolean inputs. Calls to `OnCaptivePortalDetected` and `UpdateAndWriteList` are counted. `UpdateAndWriteList` does not load the configuration in the model, which changes only through `ConfigLoaded`.
- NLog logging is left out; the status codes it reports are visible in the write log.
- The `OnDnsEnforcementUpdate` event is declared but never raised, so it is not modelled. The timer callback `TriggerTimer` only calls `Trigger`.
- The commented-out block at the end of DnsEnforcement.cs is dead code and is not modelled.
- `LoginModel.Authenticate` is left out: it is IPC, `Task.Run`, a 3-second wait and scrubbing of the password bytes.
- The `LoginModel` property getters, `ObservableObject` and the internals of `Uri.TryCreate` are left out. URI parsing is an input that yields the scheme of an absolute URI. The default provider path from `WebServiceUtil` is a constructor parameter.
