/**
 * The gateway and the booking service together: roles a valid token carries
 * reach the booking service's security context unchanged, provided every
 * role has a non-whitespace character and is free of commas.
 */
module RolePropagation {
  import opened Wrappers
  import opened Text
  import opened Reactive
  import opened RouteValidator
  import G = GatewayFilter
  import H = HeaderSecurity

  /** The role list of a secured, validated request comes back out of the booking service's filter. */
  lemma RolesRoundTrip(request: G.Request, verify: string -> Option<seq<string>>, roles: seq<string>)
    requires IsSecured(request.path)
    requires G.Authorization in request.headers && |request.headers[G.Authorization]| > 0
    requires verify(G.Token(request.headers[G.Authorization][0])) == Some(roles)
    requires |roles| >= 1 && forall k :: 0 <= k < |roles| ==> PlainItem(roles[k]) && HasText(roles[k])
    ensures G.Decide(request, verify).Forward?
    ensures H.Authenticate(G.Decide(request, verify).request.headers) == Value(H.Authentication(H.GatewayUser, None, roles))
  {
    var forwarded := G.Decide(request, verify).request.headers;
    assert forwarded[H.RolesHeader] == [Join(roles, ",")];
    SplitJoinRoundTrip(roles);
  }

  /** A valid token without roles yields an empty X-Auth-Roles value, so the booking service sees no authentication. */
  lemma NoRolesNoAuthentication(request: G.Request, verify: string -> Option<seq<string>>)
    requires IsSecured(request.path)
    requires G.Authorization in request.headers && |request.headers[G.Authorization]| > 0
    requires verify(G.Token(request.headers[G.Authorization][0])) == Some([])
    ensures G.Decide(request, verify).Forward?
    ensures H.Authenticate(G.Decide(request, verify).request.headers) == Empty
  {
    assert G.Decide(request, verify).request.headers[H.RolesHeader] == [""];
  }
}
