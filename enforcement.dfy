/**
 * The DNS-enforcement engine: the decision cycle (Trigger), the enforce and
 * revert paths (TryEnforce, SetDnsToDhcp), the DNS-liveness probe with its
 * five-minute cache (IsDnsUp, InvalidateDnsResult), the captive-portal checks
 * (IsCaptivePortalActive, IsBehindCaptivePortal) and the adaptive timer
 * (SetupTimers, OnNetworkChange), run sequentially.
 *
 * Everything outside the process is an input of type Env: the clock, IP
 * address parsing, DNS lookups, network status flags, the connectivity-check
 * download and the status codes of adapter writes. What the engine does to
 * the outside is recorded in fields: adapter writes, lookups issued, downloads
 * issued, retries scheduled, events raised, list refreshes requested.
 * Times are milliseconds.
 */
module Enforcement {
  import opened Wrappers
  import opened Strings
  import opened DnsMerge
  import opened Adapters
  import opened CaptivePortal

  /** The loaded configuration: the policy DNS servers as configured, either possibly null. */
  datatype Config = Config(primaryDns: Option<string>, secondaryDns: Option<string>)

  /** What one DnsClient lookup of the test host gave: a list of addresses, or an exception. */
  datatype LookupOutcome = Addresses(count: nat) | LookupFailed

  /** OnCaptivePortalMode(isCaptivePortal, isActive). */
  datatype ModeEvent = CaptivePortalMode(isCaptivePortal: bool, isActive: bool)

  /** The adapters after a pass over them, and the writes it issued. */
  datatype PassResult = PassResult(adapters: seq<Adapter>, writes: seq<Write>)

  /** The outside world as one cycle observes it. */
  datatype Env = Env(
    now: nat,                               // DateTime.Now
    ipParse: string -> Option<string>,      // Trim, IPAddress.TryParse, then ToString
    lookup: string -> LookupOutcome,        // DnsClient(server).Lookup of the test host
    portal: PortalProbe,                    // what the captive-portal checks observe
    searchOrder: nat -> Option<seq<string>>, // DNSServerSearchOrder of the i-th adapter's parameter object
    dhcpServers: nat -> seq<string>,        // DNS addresses DHCP gives the i-th adapter once reverted
    writeStatus: nat -> nat)                // status of the write to the i-th enumerated adapter

  /** How long a DNS-liveness result is reused: five minutes. */
  const CacheWindow: int := 300000
  /**
   * DateTime.MinValue, the "never checked" time: a full cache window before
   * the clock's origin, so that, as with MinValue, five minutes after it is
   * still earlier than every clock reading.
   */
  const MinTime: int := -CacheWindow
  /** Delay of the retry scheduled after an inconclusive captive-portal download. */
  const RetryDelay: nat := 1500
  /** Timer interval while behind a captive portal. */
  const PortalInterval: nat := 5000
  /** Timer interval otherwise. */
  const NormalInterval: nat := 60000

  /** A configured server as the enforce and revert paths read it: Valid, then trimmed and parsed. */
  function PolicyServer(raw: Option<string>, ipParse: string -> Option<string>): Option<string> {
    if Valid(raw) then ipParse(raw.value) else None
  }

  function PrimaryServer(cfg: Option<Config>, ipParse: string -> Option<string>): Option<string> {
    if cfg.Some? then PolicyServer(cfg.value.primaryDns, ipParse) else None
  }

  function SecondaryServer(cfg: Option<Config>, ipParse: string -> Option<string>): Option<string> {
    if cfg.Some? then PolicyServer(cfg.value.secondaryDns, ipParse) else None
  }

  /** Whether at least one policy server parses; without one neither path touches an adapter. */
  predicate HasPolicy(cfg: Option<Config>, ipParse: string -> Option<string>) {
    PrimaryServer(cfg, ipParse).Some? || SecondaryServer(cfg, ipParse).Some?
  }

  /** The enforce path of TryEnforce over `adapters`. */
  function EnforcePass(adapters: seq<Adapter>, cfg: Option<Config>, env: Env): PassResult {
    var p := PrimaryServer(cfg, env.ipParse);
    var s := SecondaryServer(cfg, env.ipParse);
    if p.None? && s.None? then PassResult(adapters, [])
    else PassResult(EnforceAll(adapters, p, s, env.searchOrder, env.writeStatus), EnforceWrites(adapters, p, s, env.searchOrder, env.writeStatus, |adapters|))
  }

  /** SetDnsToDhcp over `adapters`. */
  function RevertPass(adapters: seq<Adapter>, cfg: Option<Config>, env: Env): PassResult {
    if !HasPolicy(cfg, env.ipParse) then PassResult(adapters, [])
    else PassResult(RevertAll(adapters, env.dhcpServers, env.writeStatus), RevertWrites(adapters, env.writeStatus, |adapters|))
  }

  /** `w` concatenated `n` times: the writes of `n` runs of the same pass. */
  function Repeat(w: seq<Write>, n: nat): seq<Write> {
    if n == 0 then [] else Repeat(w, n - 1) + w
  }

  /** The servers IsDnsUp probes: the non-blank ones, primary first. */
  function SearchList(cfg: Config): (search: seq<string>)
    ensures |search| == (if IsNullOrWhiteSpace(cfg.primaryDns) then 0 else 1) + (if IsNullOrWhiteSpace(cfg.secondaryDns) then 0 else 1)
    ensures search == [] <==> IsNullOrWhiteSpace(cfg.primaryDns) && IsNullOrWhiteSpace(cfg.secondaryDns)
    ensures !IsNullOrWhiteSpace(cfg.primaryDns) ==> search[0] == cfg.primaryDns.value
    ensures !IsNullOrWhiteSpace(cfg.secondaryDns) ==> search[|search| - 1] == cfg.secondaryDns.value
  {
    (if IsNullOrWhiteSpace(cfg.primaryDns) then [] else [cfg.primaryDns.value])
    + (if IsNullOrWhiteSpace(cfg.secondaryDns) then [] else [cfg.secondaryDns.value])
  }

  /** A lookup that returned at least one address. */
  predicate Answers(o: LookupOutcome) {
    o.Addresses? && o.count > 0
  }

  /** Some server of `search` answers. */
  predicate Reachable(search: seq<string>, lookup: string -> LookupOutcome) {
    exists j :: 0 <= j < |search| && Answers(lookup(search[j]))
  }

  /**
   * The servers actually looked up: `search` in order, up to and including
   * the first one that answers (ProbedStopsAtFirstAnswer).
   */
  function Probed(search: seq<string>, lookup: string -> LookupOutcome): seq<string> {
    if search == [] then []
    else if Answers(lookup(search[0])) then [search[0]]
    else [search[0]] + Probed(search[1..], lookup)
  }

  /**
   * The lookups issued are a prefix of the search list; every server but the
   * last one tried failed; the last one tried answered exactly when some
   * server answers; and when none answers, every server was tried.
   */
  lemma {:induction false} ProbedStopsAtFirstAnswer(search: seq<string>, lookup: string -> LookupOutcome)
    ensures |Probed(search, lookup)| <= |search|
    ensures Probed(search, lookup) == search[..|Probed(search, lookup)|]
    ensures forall j :: 0 <= j < |Probed(search, lookup)| - 1 ==> !Answers(lookup(search[j]))
    ensures Reachable(search, lookup) <==>
      Probed(search, lookup) != [] && Answers(lookup(search[|Probed(search, lookup)| - 1]))
    ensures !Reachable(search, lookup) ==> Probed(search, lookup) == search
  {
    if search != [] && !Answers(lookup(search[0])) {
      var rest := search[1..];
      ProbedStopsAtFirstAnswer(rest, lookup);
      assert search == [search[0]] + rest;
      assert Reachable(search, lookup) ==> Reachable(rest, lookup) by {
        if Reachable(search, lookup) {
          var j :| 0 <= j < |search| && Answers(lookup(search[j]));
          assert rest[j - 1] == search[j];
        }
      }
      assert Reachable(rest, lookup) ==> Reachable(search, lookup) by {
        if Reachable(rest, lookup) {
          var j :| 0 <= j < |rest| && Answers(lookup(rest[j]));
          assert search[j + 1] == rest[j];
        }
      }
    }
  }

  /** What a fresh (uncached) liveness check concludes for a loaded configuration. */
  predicate DnsVerdict(cfg: Config, lookup: string -> LookupOutcome) {
    SearchList(cfg) == [] || Reachable(SearchList(cfg), lookup)
  }

  /** The cached result is reused while `lastCheck + 5 min` is strictly later than `now`. */
  predicate CacheFresh(lastCheck: int, now: int) {
    lastCheck + CacheWindow > now
  }

  /** What IsDnsUp answers, from the cache fields before the call. */
  predicate DnsUpOutcome(lastCheck: int, lastResult: bool, cfg: Option<Config>, env: Env) {
    if CacheFresh(lastCheck, env.now) then lastResult
    else cfg.None? || DnsVerdict(cfg.value, env.lookup)
  }

  /** The lookups IsDnsUp issues. */
  function DnsLookups(lastCheck: int, cfg: Option<Config>, env: Env): seq<string> {
    if CacheFresh(lastCheck, env.now) || cfg.None? then [] else Probed(SearchList(cfg.value), env.lookup)
  }

  /**
   * A cache that was never filled, or was invalidated, is never fresh: the
   * first check after it probes the configured servers, whatever the clock
   * reads.
   */
  lemma NeverCheckedProbes(lastResult: bool, cfg: Config, env: Env)
    ensures DnsUpOutcome(MinTime, lastResult, Some(cfg), env) == DnsVerdict(cfg, env.lookup)
    ensures DnsLookups(MinTime, Some(cfg), env) == Probed(SearchList(cfg), env.lookup)
  {
  }

  /** A lone primary server that does not answer makes the first check report DNS down after one lookup. */
  lemma FirstCheckSeesDeadServer(server: string, env: Env)
    requires !IsNullOrWhiteSpace(Some(server))
    requires env.lookup(server).LookupFailed?
    ensures !DnsUpOutcome(MinTime, true, Some(Config(Some(server), None)), env)
    ensures DnsLookups(MinTime, Some(Config(Some(server), None)), env) == [server]
  {
    var cfg := Config(Some(server), None);
    assert SearchList(cfg) == [server];
    assert Probed([server], env.lookup) == [server];
  }

  /**
   * The probing loop of IsDnsUp: look the servers up in order, stop at the
   * first that returns an address; an empty answer or an exception counts as
   * a failure and moves on.
   */
  method ProbeServers(search: seq<string>, lookup: string -> LookupOutcome) returns (up: bool, tried: seq<string>)
    ensures up == Reachable(search, lookup)
    ensures tried == Probed(search, lookup)
  {
    up := false;
    tried := [];
    var failedDnsServers := 0;
    var i := 0;
    while i < |search|
      invariant 0 <= i <= |search|
      invariant !up
      invariant failedDnsServers == i
      invariant forall j :: 0 <= j < i ==> !Answers(lookup(search[j]))
      invariant tried + Probed(search[i..], lookup) == Probed(search, lookup)
    {
      var outcome := lookup(search[i]);
      assert search[i..][1..] == search[i + 1..];
      assert Probed(search[i..], lookup)
        == [search[i]] + (if Answers(outcome) then [] else Probed(search[i + 1..], lookup));
      tried := tried + [search[i]];
      if Answers(outcome) {
        up := true;
        assert tried == Probed(search, lookup);
        break;
      }
      failedDnsServers := failedDnsServers + 1;
      i := i + 1;
    }
    assert !up ==> search[i..] == [];
  }

  /**
   * The primary is tried first; when it fails the secondary is tried, and a
   * secondary that answers makes DNS count as up after exactly two lookups.
   */
  lemma FallbackToSecondary(cfg: Config, lookup: string -> LookupOutcome)
    requires !IsNullOrWhiteSpace(cfg.primaryDns) && !IsNullOrWhiteSpace(cfg.secondaryDns)
    requires !Answers(lookup(cfg.primaryDns.value)) && Answers(lookup(cfg.secondaryDns.value))
    ensures DnsVerdict(cfg, lookup)
    ensures Probed(SearchList(cfg), lookup) == [cfg.primaryDns.value, cfg.secondaryDns.value]
  {
    var search := SearchList(cfg);
    assert search == [cfg.primaryDns.value, cfg.secondaryDns.value];
    assert search[1..] == [cfg.secondaryDns.value];
  }

  /** With no server configured DNS counts as up and nothing is looked up. */
  lemma NoServersNoLookups(cfg: Config, lookup: string -> LookupOutcome)
    requires IsNullOrWhiteSpace(cfg.primaryDns) && IsNullOrWhiteSpace(cfg.secondaryDns)
    ensures DnsVerdict(cfg, lookup) && Probed(SearchList(cfg), lookup) == []
  {
  }

  /**
   * The enforce path touches no adapter when no policy server parses, and
   * otherwise changes only adapters that are up, not tunnels and lacking a
   * policy server.
   */
  lemma EnforcePassTouchesOnlyAdaptersMissingPolicy(adapters: seq<Adapter>, cfg: Option<Config>, env: Env)
    ensures !HasPolicy(cfg, env.ipParse) ==> EnforcePass(adapters, cfg, env) == PassResult(adapters, [])
    ensures |EnforcePass(adapters, cfg, env).adapters| == |adapters|
    ensures forall i :: 0 <= i < |adapters| && EnforcePass(adapters, cfg, env).adapters[i] != adapters[i] ==>
      && Selected(adapters[i])
      && NeedsUpdate(adapters[i].servers, PrimaryServer(cfg, env.ipParse), SecondaryServer(cfg, env.ipParse))
      && NeedsUpdate(StartList(env.searchOrder(i)), PrimaryServer(cfg, env.ipParse), SecondaryServer(cfg, env.ipParse))
  {
    var p := PrimaryServer(cfg, env.ipParse);
    var s := SecondaryServer(cfg, env.ipParse);
    if p.Some? || s.Some? {
      forall i | 0 <= i < |adapters| && EnforceAll(adapters, p, s, env.searchOrder, env.writeStatus)[i] != adapters[i]
        ensures Selected(adapters[i]) && NeedsUpdate(adapters[i].servers, p, s) && NeedsUpdate(StartList(env.searchOrder(i)), p, s)
      {
        EnforcedSpec(adapters[i], p, s, StartList(env.searchOrder(i)), env.writeStatus(i));
      }
    }
  }

  /**
   * Enforcing on every cycle is safe: once a pass whose writes all succeeded
   * has run, the next pass finds nothing to change and issues no write.
   */
  lemma EnforcePassIdempotent(adapters: seq<Adapter>, cfg: Option<Config>, env: Env, next: Env)
    requires forall i :: env.writeStatus(i) == 0
    requires next.ipParse == env.ipParse && next.searchOrder == env.searchOrder
    ensures var once := EnforcePass(adapters, cfg, env).adapters;
      EnforcePass(once, cfg, next) == PassResult(once, [])
  {
    var p := PrimaryServer(cfg, env.ipParse);
    var s := SecondaryServer(cfg, env.ipParse);
    if p.Some? || s.Some? {
      var once := EnforceAll(adapters, p, s, env.searchOrder, env.writeStatus);
      SecondEnforceWritesNothing(adapters, p, s, env.searchOrder, env.writeStatus, next.writeStatus, |adapters|);
      forall i | 0 <= i < |once|
        ensures Enforced(once[i], p, s, StartList(env.searchOrder(i)), next.writeStatus(i)) == once[i]
      {
        EnforcedSpec(adapters[i], p, s, StartList(env.searchOrder(i)), env.writeStatus(i));
        EnforcedSpec(once[i], p, s, StartList(env.searchOrder(i)), next.writeStatus(i));
      }
    }
  }

  /** A suspension never applies a policy server: every write it issues is an empty list. */
  lemma {:induction false} RevertWritesOnlyEmptyLists(adapters: seq<Adapter>, cfg: Option<Config>, env: Env)
    ensures forall w :: w in RevertPass(adapters, cfg, env).writes ==> w.servers == []
    ensures RevertPass(adapters, cfg, env).adapters == adapters || HasPolicy(cfg, env.ipParse)
  {
    if HasPolicy(cfg, env.ipParse) {
      RevertWritesExactly(adapters, env.writeStatus, |adapters|);
    }
  }

  /** The writes a suspension appends to a log apply no policy server. */
  lemma SuspensionAppliesNothing(before: seq<Write>, after: seq<Write>, adapters: seq<Adapter>, cfg: Option<Config>, env: Env)
    requires after == before + (if cfg.None? then [] else RevertPass(adapters, cfg, env).writes)
    ensures !AppliesServers(after[|before|..])
  {
    RevertWritesOnlyEmptyLists(adapters, cfg, env);
    assert after[|before|..] == (if cfg.None? then [] else RevertPass(adapters, cfg, env).writes);
  }

  /** A second revert pass finds the adapters as the first left them and issues the same writes. */
  lemma RevertPassIdempotent(adapters: seq<Adapter>, cfg: Option<Config>, env: Env)
    ensures var once := RevertPass(adapters, cfg, env);
      RevertPass(once.adapters, cfg, env) == PassResult(once.adapters, once.writes)
  {
    if HasPolicy(cfg, env.ipParse) {
      RevertIdempotent(adapters, env.dhcpServers, env.writeStatus, |adapters|);
    }
  }

  /**
   * The revert handlers subscribed before the configuration loaded, run in
   * subscription order: handler `k` is one SetDnsToDhcp whose writes return
   * the statuses `handlerStatus(k)`.
   */
  function RevertHandlers(adapters: seq<Adapter>, cfg: Option<Config>, env: Env, handlerStatus: nat -> nat -> nat, n: nat): PassResult {
    if n == 0 then PassResult(adapters, [])
    else
      var prev := RevertHandlers(adapters, cfg, env, handlerStatus, n - 1);
      var pass := RevertPass(prev.adapters, cfg, env.(writeStatus := handlerStatus(n - 1)));
      PassResult(pass.adapters, prev.writes + pass.writes)
  }

  /** Handler `k` runs one revert pass, with its own statuses, on what the handlers before it left. */
  lemma RevertHandlersStep(adapters: seq<Adapter>, cfg: Option<Config>, env: Env, handlerStatus: nat -> nat -> nat, k: nat, e: Env)
    requires e == env.(writeStatus := handlerStatus(k))
    ensures var prev := RevertHandlers(adapters, cfg, env, handlerStatus, k);
      RevertHandlers(adapters, cfg, env, handlerStatus, k + 1)
        == PassResult(RevertPass(prev.adapters, cfg, e).adapters, prev.writes + RevertPass(prev.adapters, cfg, e).writes)
  {
  }

  /** Appending to a log in two steps is appending the two parts at once. */
  lemma AppendAssoc(log: seq<Write>, a: seq<Write>, b: seq<Write>)
    ensures (log + a) + b == log + (a + b)
  {
  }

  /** Whether the write of one of the first `n` handlers to adapter `i` succeeded. */
  predicate SomeHandlerSucceeded(handlerStatus: nat -> nat -> nat, n: nat, i: nat) {
    exists k :: 0 <= k < n && handlerStatus(k)(i) == 0
  }

  /** Each handler's writes, read off the adapters as they were before any handler ran. */
  function HandlerWrites(adapters: seq<Adapter>, cfg: Option<Config>, env: Env, handlerStatus: nat -> nat -> nat, n: nat): seq<Write> {
    if n == 0 then []
    else HandlerWrites(adapters, cfg, env, handlerStatus, n - 1)
         + (if HasPolicy(cfg, env.ipParse) then RevertWrites(adapters, handlerStatus(n - 1), |adapters|) else [])
  }

  /** The handlers change no adapter's status or type, so they all act on the same adapters. */
  lemma RevertHandlersKeepSelection(adapters: seq<Adapter>, cfg: Option<Config>, env: Env, handlerStatus: nat -> nat -> nat, n: nat)
    ensures var r := RevertHandlers(adapters, cfg, env, handlerStatus, n);
      && |r.adapters| == |adapters|
      && forall i :: 0 <= i < |adapters| ==> Selected(r.adapters[i]) == Selected(adapters[i])
  {
    RevertHandlersLength(adapters, cfg, env, handlerStatus, n);
    forall i | 0 <= i < |adapters|
      ensures Selected(RevertHandlers(adapters, cfg, env, handlerStatus, n).adapters[i]) == Selected(adapters[i])
    {
      RevertHandlersAdapter(adapters, cfg, env, handlerStatus, n, i);
    }
  }

  /** The handlers neither add nor drop adapters. */
  lemma {:induction false} RevertHandlersLength(adapters: seq<Adapter>, cfg: Option<Config>, env: Env, handlerStatus: nat -> nat -> nat, n: nat)
    ensures |RevertHandlers(adapters, cfg, env, handlerStatus, n).adapters| == |adapters|
  {
    if n > 0 {
      RevertHandlersLength(adapters, cfg, env, handlerStatus, n - 1);
    }
  }

  /** What the first `n` handlers leave adapter `i` with. */
  lemma {:induction false} RevertHandlersAdapter(adapters: seq<Adapter>, cfg: Option<Config>, env: Env, handlerStatus: nat -> nat -> nat, n: nat, i: nat)
    requires i < |adapters|
    ensures var r := RevertHandlers(adapters, cfg, env, handlerStatus, n);
      && |r.adapters| == |adapters|
      && r.adapters[i] == (if HasPolicy(cfg, env.ipParse) && Selected(adapters[i]) && SomeHandlerSucceeded(handlerStatus, n, i)
                           then adapters[i].(servers := env.dhcpServers(i)) else adapters[i])
  {
    if n > 0 {
      RevertHandlersAdapter(adapters, cfg, env, handlerStatus, n - 1, i);
      var prev := RevertHandlers(adapters, cfg, env, handlerStatus, n - 1);
      if HasPolicy(cfg, env.ipParse) {
        assert RevertHandlers(adapters, cfg, env, handlerStatus, n).adapters[i]
            == Reverted(prev.adapters[i], env.dhcpServers(i), handlerStatus(n - 1)(i));
        if handlerStatus(n - 1)(i) != 0 && SomeHandlerSucceeded(handlerStatus, n, i) {
          var k :| 0 <= k < n && handlerStatus(k)(i) == 0;
          assert SomeHandlerSucceeded(handlerStatus, n - 1, i);
        }
        if handlerStatus(n - 1)(i) == 0 {
          assert SomeHandlerSucceeded(handlerStatus, n, i);
        }
      }
    }
  }

  /** The handlers' writes are each handler's revert writes for the adapters as they were at the start. */
  lemma {:induction false} RevertHandlersWrites(adapters: seq<Adapter>, cfg: Option<Config>, env: Env, handlerStatus: nat -> nat -> nat, n: nat)
    ensures RevertHandlers(adapters, cfg, env, handlerStatus, n).writes == HandlerWrites(adapters, cfg, env, handlerStatus, n)
  {
    if n > 0 {
      RevertHandlersWrites(adapters, cfg, env, handlerStatus, n - 1);
      var prev := RevertHandlers(adapters, cfg, env, handlerStatus, n - 1);
      RevertHandlersKeepSelection(adapters, cfg, env, handlerStatus, n - 1);
      RevertWritesFollowSelection(prev.adapters, adapters, handlerStatus(n - 1), |adapters|);
    }
  }

  /**
   * After `n` revert handlers, a selected adapter reports its DHCP addresses
   * when the write of at least one handler to it succeeded, and is otherwise
   * as it was; every handler writes an empty list to every selected adapter,
   * whatever the earlier handlers achieved.
   */
  lemma RevertHandlersOutcome(adapters: seq<Adapter>, cfg: Option<Config>, env: Env, handlerStatus: nat -> nat -> nat, n: nat)
    ensures var r := RevertHandlers(adapters, cfg, env, handlerStatus, n);
      && |r.adapters| == |adapters|
      && (forall i :: 0 <= i < |adapters| ==>
            r.adapters[i] == (if HasPolicy(cfg, env.ipParse) && Selected(adapters[i]) && SomeHandlerSucceeded(handlerStatus, n, i)
                              then adapters[i].(servers := env.dhcpServers(i)) else adapters[i]))
      && r.writes == HandlerWrites(adapters, cfg, env, handlerStatus, n)
      && (forall w :: w in r.writes ==> w.servers == [] && w.adapter < |adapters| && Selected(adapters[w.adapter]))
  {
    RevertHandlersKeepSelection(adapters, cfg, env, handlerStatus, n);
    forall i | 0 <= i < |adapters|
      ensures RevertHandlers(adapters, cfg, env, handlerStatus, n).adapters[i]
           == (if HasPolicy(cfg, env.ipParse) && Selected(adapters[i]) && SomeHandlerSucceeded(handlerStatus, n, i)
               then adapters[i].(servers := env.dhcpServers(i)) else adapters[i])
    {
      RevertHandlersAdapter(adapters, cfg, env, handlerStatus, n, i);
    }
    RevertHandlersWrites(adapters, cfg, env, handlerStatus, n);
    HandlerWritesEmpty(adapters, cfg, env, handlerStatus, n);
  }

  /** Every handler write is an empty list to a selected adapter. */
  lemma {:induction false} HandlerWritesEmpty(adapters: seq<Adapter>, cfg: Option<Config>, env: Env, handlerStatus: nat -> nat -> nat, n: nat)
    ensures forall w :: w in HandlerWrites(adapters, cfg, env, handlerStatus, n) ==>
      w.servers == [] && w.adapter < |adapters| && Selected(adapters[w.adapter])
  {
    if n > 0 {
      HandlerWritesEmpty(adapters, cfg, env, handlerStatus, n - 1);
      RevertWritesExactly(adapters, handlerStatus(n - 1), |adapters|);
    }
  }

  /** Whether `ws` contains a write of a non-empty list, i.e. one that applies policy servers. */
  predicate AppliesServers(ws: seq<Write>) {
    exists w :: w in ws && w.servers != []
  }

  class DnsEnforcement {
    /** m_provider.Config: null until the configuration has loaded. */
    var config: Option<Config>
    /** The network interfaces, in enumeration order, with their DNS search orders. */
    var adapters: seq<Adapter>
    /** Every SetDNSServerSearchOrder call issued, in order. */
    var writes: seq<Write>
    /** Revert handlers subscribed to OnConfigLoaded and not yet run. */
    var pendingReverts: nat
    /** lastDnsCheck and lastDnsResult: the DNS-liveness cache. */
    var lastDnsCheck: int
    var lastDnsResult: bool
    /** Every DNS server a liveness lookup was sent to, in order. */
    var lookups: seq<string>
    /** How many times the connectivity-check page was downloaded. */
    var httpProbes: nat
    /** Due times of the Trigger calls scheduled after an inconclusive download. */
    var retries: seq<int>
    /** OnCaptivePortalMode events raised. */
    var modeEvents: seq<ModeEvent>
    /** Calls to CaptivePortalHelper.OnCaptivePortalDetected. */
    var portalNotices: nat
    var isBehindCaptivePortal: bool
    /** m_dnsEnforcementTimer: None while no timer exists, else its due time and period. */
    var timerInterval: Option<nat>
    /** Calls to m_provider.UpdateAndWriteList. */
    var listRefreshes: nat

    constructor (config: Option<Config>, adapters: seq<Adapter>)
      ensures this.config == config && this.adapters == adapters
      ensures writes == [] && pendingReverts == 0 && lookups == [] && httpProbes == 0
      ensures retries == [] && modeEvents == [] && portalNotices == 0 && listRefreshes == 0
      ensures lastDnsCheck == MinTime && lastDnsResult
      ensures forall now: nat :: !CacheFresh(lastDnsCheck, now)
      ensures !isBehindCaptivePortal && timerInterval.None?
    {
      this.config := config;
      this.adapters := adapters;
      writes := [];
      pendingReverts := 0;
      lastDnsCheck := MinTime;
      lastDnsResult := true;
      lookups := [];
      httpProbes := 0;
      retries := [];
      modeEvents := [];
      portalNotices := 0;
      isBehindCaptivePortal := false;
      timerInterval := None;
      listRefreshes := 0;
    }

    /**
     * TryEnforce(enable): enable applies the policy servers to the adapters
     * that lack them; disable reverts to DHCP at once, or, while no
     * configuration is loaded, subscribes one revert to the config-loaded event.
     */
    method TryEnforce(enableDnsFiltering: bool, env: Env)
      modifies this`adapters, this`writes, this`pendingReverts
      ensures !enableDnsFiltering && config.None? ==>
        adapters == old(adapters) && writes == old(writes) && pendingReverts == old(pendingReverts) + 1
      ensures !enableDnsFiltering && config.Some? ==>
        && adapters == RevertPass(old(adapters), config, env).adapters
        && writes == old(writes) + RevertPass(old(adapters), config, env).writes
        && pendingReverts == old(pendingReverts)
      ensures enableDnsFiltering ==>
        && adapters == EnforcePass(old(adapters), config, env).adapters
        && writes == old(writes) + EnforcePass(old(adapters), config, env).writes
        && pendingReverts == old(pendingReverts)
    {
      if !enableDnsFiltering {
        if config.None? {
          pendingReverts := pendingReverts + 1;
        } else {
          SetDnsToDhcp(env);
        }
      } else {
        var primaryDns := PrimaryServer(config, env.ipParse);
        var secondaryDns := SecondaryServer(config, env.ipParse);
        if primaryDns.Some? || secondaryDns.Some? {
          var result, issued := EnforceAdapters(adapters, primaryDns, secondaryDns, env.searchOrder, env.writeStatus);
          adapters := result;
          writes := writes + issued;
        }
      }
    }

    /** SetDnsToDhcp: without a parsable policy server it leaves every adapter alone. */
    method SetDnsToDhcp(env: Env)
      modifies this`adapters, this`writes
      ensures adapters == RevertPass(old(adapters), config, env).adapters
      ensures writes == old(writes) + RevertPass(old(adapters), config, env).writes
    {
      var primaryDns := PrimaryServer(config, env.ipParse);
      var secondaryDns := SecondaryServer(config, env.ipParse);
      if primaryDns.None? && secondaryDns.None? {
        return;
      }
      var result, issued := RevertAdapters(adapters, env.dhcpServers, env.writeStatus);
      adapters := result;
      writes := writes + issued;
    }

    /**
     * The configuration arrives: every subscribed revert handler runs
     * SetDnsToDhcp once, in subscription order, and unsubscribes itself.
     * Each handler makes its own writes; `handlerStatus(k)` gives the statuses
     * the writes of handler `k` return.
     */
    method ConfigLoaded(cfg: Config, env: Env, handlerStatus: nat -> nat -> nat)
      modifies this`config, this`adapters, this`writes, this`pendingReverts
      ensures config == Some(cfg) && pendingReverts == 0
      ensures adapters == RevertHandlers(old(adapters), Some(cfg), env, handlerStatus, old(pendingReverts)).adapters
      ensures writes == old(writes) + RevertHandlers(old(adapters), Some(cfg), env, handlerStatus, old(pendingReverts)).writes
    {
      config := Some(cfg);
      var k: nat := 0;
      while pendingReverts > 0
        invariant config == Some(cfg)
        invariant k + pendingReverts == old(pendingReverts)
        invariant adapters == RevertHandlers(old(adapters), config, env, handlerStatus, k).adapters
        invariant writes == old(writes) + RevertHandlers(old(adapters), config, env, handlerStatus, k).writes
        decreases pendingReverts
      {
        RunHandler(env, handlerStatus, old(adapters), old(writes), k);
        pendingReverts := pendingReverts - 1;
        k := k + 1;
      }
    }

    /** One revert handler: the `k`-th SetDnsToDhcp after the first `k` handlers ran. */
    method RunHandler(env: Env, handlerStatus: nat -> nat -> nat, ghost start: seq<Adapter>, ghost log: seq<Write>, k: nat)
      modifies this`adapters, this`writes
      requires adapters == RevertHandlers(start, config, env, handlerStatus, k).adapters
      requires writes == log + RevertHandlers(start, config, env, handlerStatus, k).writes
      ensures adapters == RevertHandlers(start, config, env, handlerStatus, k + 1).adapters
      ensures writes == log + RevertHandlers(start, config, env, handlerStatus, k + 1).writes
    {
      var e := env.(writeStatus := handlerStatus(k));
      ghost var prev := RevertHandlers(start, config, env, handlerStatus, k);
      ghost var pass := RevertPass(prev.adapters, config, e);
      SetDnsToDhcp(e);
      RevertHandlersStep(start, config, env, handlerStatus, k, e);
      assert writes == (log + prev.writes) + pass.writes;
      AppendAssoc(log, prev.writes, pass.writes);
    }

    /** InvalidateDnsResult: forget when DNS was last checked. */
    method InvalidateDnsResult()
      modifies this`lastDnsCheck
      ensures lastDnsCheck == MinTime
      ensures forall now: nat :: !CacheFresh(lastDnsCheck, now)
    {
      lastDnsCheck := MinTime;
    }

    /**
     * IsDnsUp: the cached result while it is fresh; otherwise stamp the check
     * time, answer true without touching the result while no configuration is
     * loaded, else probe the configured servers and cache the verdict.
     */
    method IsDnsUp(env: Env) returns (up: bool)
      modifies this`lastDnsCheck, this`lastDnsResult, this`lookups
      ensures up == DnsUpOutcome(old(lastDnsCheck), old(lastDnsResult), config, env)
      ensures lookups == old(lookups) + DnsLookups(old(lastDnsCheck), config, env)
      ensures CacheFresh(old(lastDnsCheck), env.now) ==>
        lastDnsCheck == old(lastDnsCheck) && lastDnsResult == old(lastDnsResult)
      ensures !CacheFresh(old(lastDnsCheck), env.now) ==> lastDnsCheck == env.now
      ensures !CacheFresh(old(lastDnsCheck), env.now) && config.None? ==> lastDnsResult == old(lastDnsResult)
      ensures !CacheFresh(old(lastDnsCheck), env.now) && config.Some? ==> lastDnsResult == up
    {
      if lastDnsCheck + CacheWindow > env.now {
        return lastDnsResult;
      }
      lastDnsCheck := env.now;
      var ret := false;
      if config.None? {
        return true;
      }
      var primaryDns := config.value.primaryDns;
      var secondaryDns := config.value.secondaryDns;
      if IsNullOrWhiteSpace(primaryDns) && IsNullOrWhiteSpace(secondaryDns) {
        ret := true;
      } else {
        var dnsSearch: seq<string> := [];
        if !IsNullOrWhiteSpace(primaryDns) {
          dnsSearch := dnsSearch + [primaryDns.value];
        }
        if !IsNullOrWhiteSpace(secondaryDns) {
          dnsSearch := dnsSearch + [secondaryDns.value];
        }
        var tried;
        ret, tried := ProbeServers(dnsSearch, env.lookup);
        lookups := lookups + tried;
      }
      lastDnsResult := ret;
      return ret;
    }

    /**
     * IsCaptivePortalActive: a failed pre-check answers false; otherwise the
     * classification decides, and an inconclusive download schedules one
     * Trigger after 1500 ms and answers false.
     */
    method IsCaptivePortalActive(env: Env) returns (active: bool)
      modifies this`httpProbes, this`retries
      ensures active == ActiveVerdict(env.portal)
      ensures httpProbes == old(httpProbes) + (if ProbesHttp(env.portal) then 1 else 0)
      ensures retries == old(retries) + (if RetryScheduled(env.portal) then [env.now + RetryDelay] else [])
    {
      var pr := env.portal;
      if !pr.hasIpv4Inet && !pr.hasIpv6Inet {
        if !pr.checkHostResolves {
          return false;
        }
      }
      // checkCaptivePortalState downloads the check page only when neither OS flag is set.
      if !OsReportsPortal(pr.behindIpv4Portal, pr.behindIpv6Portal) {
        httpProbes := httpProbes + 1;
      }
      var ret := CheckCaptivePortalState(pr.behindIpv4Portal, pr.behindIpv6Portal, pr.http);
      if ret == NoResponseReturned {
        retries := retries + [env.now + RetryDelay];
        return false;
      } else if ret == Yes {
        return true;
      } else {
        return false;
      }
    }

    /**
     * IsBehindCaptivePortal: an active portal is reported as (true, true);
     * otherwise the helper's memory of this network decides, reported as (it, false).
     */
    method IsBehindCaptivePortal(env: Env) returns (behind: bool)
      modifies this`httpProbes, this`retries, this`modeEvents, this`portalNotices
      ensures behind == BehindVerdict(env.portal)
      ensures httpProbes == old(httpProbes) + (if ProbesHttp(env.portal) then 1 else 0)
      ensures retries == old(retries) + (if RetryScheduled(env.portal) then [env.now + RetryDelay] else [])
      ensures modeEvents == old(modeEvents) +
        [if ActiveVerdict(env.portal) then CaptivePortalMode(true, true)
         else CaptivePortalMode(env.portal.knownCaptiveNetwork, false)]
      ensures portalNotices == old(portalNotices) + (if ActiveVerdict(env.portal) then 1 else 0)
    {
      var active := IsCaptivePortalActive(env);
      if active {
        portalNotices := portalNotices + 1;
        modeEvents := modeEvents + [CaptivePortalMode(true, true)];
        return active;
      } else {
        var ret := env.portal.knownCaptiveNetwork;
        modeEvents := modeEvents + [CaptivePortalMode(ret, active)];
        return ret;
      }
    }

    /** SetupTimers: (re)arm the timer at 5 s behind a portal, 60 s otherwise. */
    method SetupTimers()
      modifies this`timerInterval
      ensures timerInterval == Some(if isBehindCaptivePortal then PortalInterval else NormalInterval)
    {
      var timerTime := if isBehindCaptivePortal then PortalInterval else NormalInterval;
      timerInterval := Some(timerTime);
    }

    /**
     * What the part of a Trigger cycle after a successful DNS check does:
     * record the captive-portal verdict, revert (behind a portal) or enforce,
     * and re-arm the timer.
     */
    twostate predicate CycleEffect(env: Env)
      reads this
    {
      var behind := BehindVerdict(env.portal);
      && config == old(config)
      && isBehindCaptivePortal == behind
      && (behind ==>
        && adapters == (if config.None? then old(adapters) else RevertPass(old(adapters), config, env).adapters)
        && writes == old(writes) + (if config.None? then [] else RevertPass(old(adapters), config, env).writes)
        && pendingReverts == old(pendingReverts) + (if config.None? then 1 else 0))
      && (!behind ==>
        && adapters == EnforcePass(old(adapters), config, env).adapters
        && writes == old(writes) + EnforcePass(old(adapters), config, env).writes
        && pendingReverts == old(pendingReverts))
      && timerInterval == Some(if behind then PortalInterval else NormalInterval)
      && httpProbes == old(httpProbes) + (if ProbesHttp(env.portal) then 1 else 0)
      && retries == old(retries) + (if RetryScheduled(env.portal) then [env.now + RetryDelay] else [])
      && modeEvents == old(modeEvents) +
        [if ActiveVerdict(env.portal) then CaptivePortalMode(true, true)
         else CaptivePortalMode(env.portal.knownCaptiveNetwork, false)]
      && portalNotices == old(portalNotices) + (if ActiveVerdict(env.portal) then 1 else 0)
    }

    /** The whole effect of one Trigger cycle, in terms of the state before it. */
    twostate predicate TriggerEffect(env: Env)
      reads this
    {
      var up := DnsUpOutcome(old(lastDnsCheck), old(lastDnsResult), old(config), env);
      var cached := CacheFresh(old(lastDnsCheck), env.now);
      && config == old(config)
      && lastDnsCheck == (if cached then old(lastDnsCheck) else env.now)
      && lastDnsResult == (if cached || old(config).None? then old(lastDnsResult) else up)
      && lookups == old(lookups) + DnsLookups(old(lastDnsCheck), old(config), env)
      && (!up ==>
        && adapters == (if config.None? then old(adapters) else RevertPass(old(adapters), config, env).adapters)
        && writes == old(writes) + (if config.None? then [] else RevertPass(old(adapters), config, env).writes)
        && pendingReverts == old(pendingReverts) + (if config.None? then 1 else 0)
        && isBehindCaptivePortal == old(isBehindCaptivePortal)
        && timerInterval == old(timerInterval)
        && httpProbes == old(httpProbes) && retries == old(retries)
        && modeEvents == old(modeEvents) && portalNotices == old(portalNotices))
      && (up ==> CycleEffect(env))
    }

    /**
     * Trigger: DNS down reverts and returns before the timer is re-armed;
     * otherwise the captive-portal verdict is recorded, enforcement is applied
     * unless behind a portal, and the timer is re-armed from the verdict.
     */
    method Trigger(env: Env)
      modifies this
      ensures TriggerEffect(env)
      ensures listRefreshes == old(listRefreshes)
      ensures !DnsUpOutcome(old(lastDnsCheck), old(lastDnsResult), old(config), env) || isBehindCaptivePortal ==>
        !AppliesServers(writes[|old(writes)|..])
    {
      var isDnsUp := IsDnsUp(env);
      if !isDnsUp {
        TryEnforce(false, env);
        SuspensionAppliesNothing(old(writes), writes, old(adapters), config, env);
        return;
      }
      RunCycle(env);
    }

    /** The steps of Trigger that follow a successful DNS check. */
    method RunCycle(env: Env)
      modifies this`isBehindCaptivePortal, this`adapters, this`writes, this`pendingReverts, this`timerInterval
      modifies this`httpProbes, this`retries, this`modeEvents, this`portalNotices
      ensures CycleEffect(env)
      ensures isBehindCaptivePortal ==> !AppliesServers(writes[|old(writes)|..])
    {
      var isCaptivePortal := IsBehindCaptivePortal(env);
      isBehindCaptivePortal := isCaptivePortal;
      TryEnforce(!isCaptivePortal, env);
      if isCaptivePortal {
        SuspensionAppliesNothing(old(writes), writes, old(adapters), config, env);
      }
      SetupTimers();
    }

    /**
     * OnNetworkChange: ask for a list refresh while no configuration is
     * loaded, then run a full cycle; the DNS cache is left as it is.
     */
    method OnNetworkChange(env: Env)
      modifies this
      ensures listRefreshes == old(listRefreshes) + (if old(config).None? then 1 else 0)
      ensures TriggerEffect(env)
    {
      if config.None? {
        listRefreshes := listRefreshes + 1;
      }
      Trigger(env);
    }
  }
}
