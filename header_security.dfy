/**
 * HeaderSecurityFilter of the booking service: it trusts the gateway's
 * X-Auth-Roles header and authenticates the request as "gateway-user" with
 * one authority per comma-separated role.
 */
module HeaderSecurity {
  import opened Wrappers
  import opened Text
  import opened Reactive

  const RolesHeader: string := "X-Auth-Roles"
  const GatewayUser: string := "gateway-user"

  /** The message of the `IllegalArgumentException` a `SimpleGrantedAuthority` without text raises. */
  const AuthorityRequired: string := "A granted authority textual representation is required"

  /** A `UsernamePasswordAuthenticationToken`: principal, credentials (null here) and authorities. */
  datatype Authentication = Authentication(principal: string, credentials: Option<string>, authorities: seq<string>)

  /** `HttpHeaders.getFirst(name)`: the first value, null when the header is absent or has no value. */
  function First(headers: map<string, seq<string>>, name: string): (v: Option<string>)
    ensures v.Some? <==> name in headers && |headers[name]| > 0
    ensures v.Some? ==> v.value == headers[name][0]
  {
    if name in headers && |headers[name]| > 0 then Some(headers[name][0]) else None
  }

  /**
   * `filter`: the authentication placed in the security context; empty when
   * the request proceeds unauthenticated (header missing or empty); an error
   * when some comma-separated piece has no text, because
   * `SimpleGrantedAuthority` refuses a blank role.
   */
  function Authenticate(headers: map<string, seq<string>>): (a: Mono<Authentication>)
    ensures a.Empty? <==> First(headers, RolesHeader).None? || First(headers, RolesHeader).value == ""
    ensures a.Error? <==> (First(headers, RolesHeader).Some? && First(headers, RolesHeader).value != "" &&
      exists k :: 0 <= k < |SplitOnComma(headers[RolesHeader][0])| && !HasText(SplitOnComma(headers[RolesHeader][0])[k]))
    ensures a.Error? ==> a.error == IllegalArgument(AuthorityRequired)
    ensures a.Value? ==> a.value.principal == GatewayUser && a.value.credentials.None?
    ensures a.Value? ==> a.value.authorities == SplitOnComma(headers[RolesHeader][0])
    ensures a.Value? ==> forall k :: 0 <= k < |a.value.authorities| ==>
      HasText(a.value.authorities[k]) && ',' !in a.value.authorities[k]
  {
    match First(headers, RolesHeader)
    case Some(roles) =>
      if roles == "" then Empty
      else
        var pieces := SplitOnComma(roles);
        if forall k :: 0 <= k < |pieces| ==> HasText(pieces[k]) then Value(Authentication(GatewayUser, None, pieces))
        else Error(IllegalArgument(AuthorityRequired))
    case None => Empty
  }

  /** A header that starts with a comma has an empty first piece, so the filter fails. */
  lemma BlankLeadingRoleFails(role: string)
    requires HasText(role) && ',' !in role
    ensures Authenticate(map[RolesHeader := ["," + role]]) == Error(IllegalArgument(AuthorityRequired))
  {
    var header := "," + role;
    assert header[0] == ',' && header[1..] == role;
    SegmentsOfItem(role);
    assert Segments(header) == ["", role];
    assert SplitOnComma(header) == ["", role];
    assert !HasText(SplitOnComma(header)[0]);
  }

  /** A header holding only a comma authenticates the request with no authority at all. */
  lemma CommaOnlyHeaderGrantsNothing()
    ensures Authenticate(map[RolesHeader := [","]]) == Value(Authentication(GatewayUser, None, []))
  {
    assert "," == [','];
    assert Segments(",") == ["", ""] by {
      assert ","[1..] == "";
    }
    assert SplitOnComma(",") == [];
  }
}
