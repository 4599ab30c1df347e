/**
 * The login view-model: its fields, the property setters, the constructor
 * defaults and the CanAttemptAuthentication guard chain. URI parsing
 * (Uri.TryCreate with UriKind.Absolute) is an input: it yields the scheme of
 * an absolute URI, or None when the string is not one.
 */
module Login {
  import opened Wrappers
  import opened Strings

  /** Uri.UriSchemeHttp and Uri.UriSchemeHttps. */
  const SchemeHttp: string := "http"
  const SchemeHttps: string := "https"

  predicate IsHttpOrHttps(scheme: string) {
    EqualsIgnoreCase(scheme, SchemeHttp) || EqualsIgnoreCase(scheme, SchemeHttps)
  }

  /**
   * The scheme guard as each build compiles it: the build selects the outer
   * condition (https only without CITADEL_DEBUG, http or https with it), and
   * the inner condition, shared by both builds, decides. Either way only a
   * scheme that is neither http nor https is rejected.
   */
  function SchemeRejected(debugBuild: bool, scheme: string): (r: bool)
    ensures r <==> !IsHttpOrHttps(scheme)
  {
    var outer :=
      if debugBuild then !EqualsIgnoreCase(scheme, SchemeHttp) && !EqualsIgnoreCase(scheme, SchemeHttps)
      else !EqualsIgnoreCase(scheme, SchemeHttps);
    outer && !EqualsIgnoreCase(scheme, SchemeHttp) && !EqualsIgnoreCase(scheme, SchemeHttps)
  }

  /** Plain http passes the guard of the release build, although https alone was meant to. */
  lemma PlainHttpPassesReleaseBuild()
    ensures !SchemeRejected(false, "http")
    ensures !SchemeRejected(false, "HTTP")
  {
    assert EqualsIgnoreCase("HTTP", SchemeHttp) by {
      assert ToLowerAscii('H') == 'h' && ToLowerAscii('T') == 't' && ToLowerAscii('P') == 'p';
    }
  }

  /** A scheme other than http and https is rejected by both builds. */
  lemma FtpRejectedByBothBuilds()
    ensures SchemeRejected(false, "ftp") && SchemeRejected(true, "ftp")
  {
    assert !EqualsIgnoreCase("ftp", SchemeHttp) by {
      assert ToLowerAscii("ftp"[0]) != ToLowerAscii(SchemeHttp[0]);
    }
    assert !EqualsIgnoreCase("ftp", SchemeHttps);
  }

  class LoginModel {
    /** Never set by any member shown here; the guard still consults it. */
    var currentlyAuthenticating: bool
    var serviceProvider: Option<string>
    var errorMessage: Option<string>
    var userName: Option<string>
    /** The SecureString's characters; None for a null reference. */
    var userPassword: Option<seq<char>>

    /**
     * The defaults: the application-wide service-provider path, an empty
     * error message, an empty user name and an empty password, so that no
     * authentication can be attempted yet.
     */
    constructor (defaultServiceProvider: Option<string>)
      ensures !currentlyAuthenticating && serviceProvider == defaultServiceProvider
      ensures errorMessage == Some("") && userName == Some("") && userPassword == Some([])
      ensures forall debugBuild: bool, uriScheme: string -> Option<string> ::
        !CanAttemptAuthentication(debugBuild, uriScheme)
    {
      currentlyAuthenticating := false;
      serviceProvider := defaultServiceProvider;
      errorMessage := Some("");
      userName := Some("");
      userPassword := Some([]);
    }

    method SetServiceProvider(value: Option<string>)
      modifies this`serviceProvider
      ensures serviceProvider == value
    {
      serviceProvider := value;
    }

    method SetErrorMessage(value: Option<string>)
      modifies this`errorMessage
      ensures errorMessage == value
    {
      errorMessage := value;
    }

    method SetUserName(value: Option<string>)
      modifies this`userName
      ensures userName == value
    {
      userName := value;
    }

    method SetUserPassword(value: Option<seq<char>>)
      modifies this`userPassword
      ensures userPassword == value
    {
      userPassword := value;
    }

    /**
     * CanAttemptAuthentication: not while authenticating; the service provider
     * must be a valid absolute http or https URI, in either build; the user
     * name must be valid and the password non-null and non-empty.
     */
    function CanAttemptAuthentication(debugBuild: bool, uriScheme: string -> Option<string>): (r: bool)
      reads this
      ensures r <==>
        && !currentlyAuthenticating
        && Valid(serviceProvider)
        && uriScheme(serviceProvider.value).Some?
        && IsHttpOrHttps(uriScheme(serviceProvider.value).value)
        && Valid(userName)
        && userPassword.Some? && |userPassword.value| > 0
    {
      if currentlyAuthenticating then false
      else if !Valid(serviceProvider) then false
      else
        var result := uriScheme(serviceProvider.value);
        if result.None? then false
        else if SchemeRejected(debugBuild, result.value) then false
        else if !Valid(userName) then false
        else if userPassword.None? || |userPassword.value| <= 0 then false
        else true
    }
  }

  /** The guard gives the same answer in the debug and the release build. */
  lemma SameAnswerInBothBuilds(m: LoginModel, uriScheme: string -> Option<string>)
    ensures m.CanAttemptAuthentication(true, uriScheme) == m.CanAttemptAuthentication(false, uriScheme)
  {
  }
}
