/**
 * Captive-portal classification: the OS captive-portal flags, the DNS
 * pre-check made when the OS reports no internet route, and the outcome of
 * downloading the connectivity-check page.
 */
module CaptivePortal {
  import opened Strings

  /** The three answers of checkCaptivePortalState. */
  datatype CaptivePortalDetected = Yes | No | NoResponseReturned

  /** What downloading the connectivity-check page produced. */
  datatype HttpOutcome =
    | Body(text: string)          // the download returned this page
    | ErrorWithResponse           // a WebException carrying a response
    | ErrorWithoutResponse        // a WebException with no response at all
    | OtherException              // any other exception

  /** The network observations one classification consults. */
  datatype PortalProbe = PortalProbe(
    hasIpv4Inet: bool,            // NetworkStatus: an IPv4 internet route exists
    hasIpv6Inet: bool,            // NetworkStatus: an IPv6 internet route exists
    checkHostResolves: bool,      // the DNS pre-check of the connectivity-check host succeeds
    behindIpv4Portal: bool,       // NetworkStatus: OS reports an IPv4 captive portal
    behindIpv6Portal: bool,       // NetworkStatus: OS reports an IPv6 captive portal
    http: HttpOutcome,            // what the download of the check page yields
    knownCaptiveNetwork: bool)    // CaptivePortalHelper: the current network was seen as captive before

  /** The body the connectivity-check page serves when nothing intercepts it. */
  const ExpectedToken: string := "CloudVeil NCSI"

  /** The characters trimmed off the downloaded body before comparing. */
  predicate IsBodyTrimChar(c: char) {
    c == ' ' || c == '\r' || c == '\n' || c == '\t'
  }

  /** Whether the OS itself reports a captive portal. */
  predicate OsReportsPortal(behindIpv4Portal: bool, behindIpv6Portal: bool) {
    behindIpv4Portal || behindIpv6Portal
  }

  /** checkCaptivePortalState: the OS flags win; otherwise the download decides. */
  function CheckCaptivePortalState(behindIpv4Portal: bool, behindIpv6Portal: bool, http: HttpOutcome): (r: CaptivePortalDetected)
    ensures OsReportsPortal(behindIpv4Portal, behindIpv6Portal) ==> r == Yes
    ensures r == No <==>
      && !OsReportsPortal(behindIpv4Portal, behindIpv6Portal)
      && (http.OtherException? || (http.Body? && TrimBy(http.text, IsBodyTrimChar) == ExpectedToken))
    ensures r == NoResponseReturned <==>
      !OsReportsPortal(behindIpv4Portal, behindIpv6Portal) && http.ErrorWithoutResponse?
  {
    if OsReportsPortal(behindIpv4Portal, behindIpv6Portal) then Yes
    else match http
      case Body(text) => if TrimBy(text, IsBodyTrimChar) != ExpectedToken then Yes else No
      case ErrorWithResponse => Yes
      case ErrorWithoutResponse => NoResponseReturned
      case OtherException => No
  }

  /** With no internet route, a failed DNS pre-check answers "not active" before anything else. */
  predicate PreCheckFails(pr: PortalProbe) {
    !pr.hasIpv4Inet && !pr.hasIpv6Inet && !pr.checkHostResolves
  }

  /** The classification reached when the pre-check does not cut it short. */
  function Classify(pr: PortalProbe): CaptivePortalDetected {
    CheckCaptivePortalState(pr.behindIpv4Portal, pr.behindIpv6Portal, pr.http)
  }

  /** Whether the connectivity-check page is downloaded at all. */
  predicate ProbesHttp(pr: PortalProbe) {
    !PreCheckFails(pr) && !OsReportsPortal(pr.behindIpv4Portal, pr.behindIpv6Portal)
  }

  /** What IsCaptivePortalActive answers. */
  predicate ActiveVerdict(pr: PortalProbe) {
    !PreCheckFails(pr) && Classify(pr) == Yes
  }

  /** Whether IsCaptivePortalActive schedules its delayed retry. */
  predicate RetryScheduled(pr: PortalProbe) {
    !PreCheckFails(pr) && Classify(pr) == NoResponseReturned
  }

  /** What IsBehindCaptivePortal answers: an active portal, or a network already known to be captive. */
  predicate BehindVerdict(pr: PortalProbe) {
    ActiveVerdict(pr) || pr.knownCaptiveNetwork
  }

  /**
   * An inconclusive download is neither a detection nor a clearance of the
   * portal: it answers "not active" and is the only case that schedules a retry.
   */
  lemma InconclusiveAnswersNotActive(pr: PortalProbe)
    ensures RetryScheduled(pr) <==> !PreCheckFails(pr) && ProbesHttp(pr) && pr.http.ErrorWithoutResponse?
    ensures RetryScheduled(pr) ==> !ActiveVerdict(pr)
  {
  }

  /**
   * The OS flag decides without a download, but only once the pre-check has
   * passed: a failed pre-check answers "not active" even when the OS reports a portal.
   */
  lemma OsFlagPrecedence(pr: PortalProbe)
    requires OsReportsPortal(pr.behindIpv4Portal, pr.behindIpv6Portal)
    ensures !ProbesHttp(pr)
    ensures ActiveVerdict(pr) <==> !PreCheckFails(pr)
  {
  }

  /** The expected token followed by a line break is still a clearance. */
  lemma PaddedTokenIsNoPortal()
    ensures CheckCaptivePortalState(false, false, Body("CloudVeil NCSI\n")) == No
  {
    var body := "CloudVeil NCSI\n";
    assert body[0] == 'C';
    assert TrimStart(body, IsBodyTrimChar) == body;
    assert body[|body| - 1] == '\n' && body[..|body| - 1] == ExpectedToken;
    assert ExpectedToken[|ExpectedToken| - 1] == 'I';
    assert TrimEnd(ExpectedToken, IsBodyTrimChar) == ExpectedToken;
    assert TrimEnd(body, IsBodyTrimChar) == ExpectedToken;
  }

  /** A rewritten page (a login form served in its place) is a detection. */
  lemma RewrittenPageIsPortal()
    ensures CheckCaptivePortalState(false, false, Body("<html>")) == Yes
  {
    assert TrimBy("<html>", IsBodyTrimChar) != ExpectedToken by {
      assert |TrimBy("<html>", IsBodyTrimChar)| <= 6;
    }
  }
}
