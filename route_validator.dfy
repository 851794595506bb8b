/**
 * RouteValidator: which gateway paths need a token.  A path is open when it
 * begins with one of the open endpoints, by plain string prefix (not by path
 * segment), and secured otherwise.
 */
module RouteValidator {
  import opened Text

  const SignIn: string := "/api/auth/signin"
  const SignUp: string := "/api/auth/signup"
  const Actuator: string := "/actuator"

  /** OPEN_API_ENDPOINTS */
  const OpenApiEndpoints: seq<string> := [SignIn, SignUp, Actuator]

  /**
   * isSecured: no open endpoint is a prefix of the path.  An open path
   * therefore begins with "/api/auth/sign" or with "/actuator".
   */
  predicate IsSecured(path: string)
    ensures !IsSecured(path) ==> StartsWith(path, "/api/auth/sign") || StartsWith(path, Actuator)
  {
    forall i :: 0 <= i < |OpenApiEndpoints| ==> !StartsWith(path, OpenApiEndpoints[i])
  }

  /** Extending an open path keeps it open. */
  lemma OpenStaysOpen(path: string, suffix: string)
    requires !IsSecured(path)
    ensures !IsSecured(path + suffix)
  {
    var i :| 0 <= i < |OpenApiEndpoints| && StartsWith(path, OpenApiEndpoints[i]);
    StartsWithExtended(path, OpenApiEndpoints[i], suffix);
  }

  /**
   * The match is by prefix, not by path segment: anything that begins with
   * an open endpoint, such as "/actuator" followed by any text, is open.
   */
  lemma EveryExtensionOfAnOpenEndpointIsOpen(i: nat, suffix: string)
    requires i < |OpenApiEndpoints|
    ensures !IsSecured(OpenApiEndpoints[i] + suffix)
  {
    assert StartsWith(OpenApiEndpoints[i], OpenApiEndpoints[i]);
    StartsWithExtended(OpenApiEndpoints[i], OpenApiEndpoints[i], suffix);
  }

  /**
   * Every API path that does not begin with the sign-in or sign-up endpoint
   * is secured: bookings, flights, seats, and the other auth paths.
   */
  lemma ApiPathsSecured(path: string)
    requires StartsWith(path, "/api/") && !StartsWith(path, SignIn) && !StartsWith(path, SignUp)
    ensures IsSecured(path)
  {
    assert path[2] == 'p' && Actuator[2] == 'c';
  }

  /** By plain prefix, a path that merely begins with "/api/auth/signup" is open too. */
  lemma SignupLookalikeIsOpen()
    ensures !IsSecured("/api/auth/signupAdmin")
  {
    EveryExtensionOfAnOpenEndpointIsOpen(1, "Admin");
    assert OpenApiEndpoints[1] + "Admin" == "/api/auth/signupAdmin";
  }
}
