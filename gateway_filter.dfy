/**
 * AuthenticationFilter of the API gateway.  On a secured path the request
 * must carry an Authorization header whose token (after an optional
 * "Bearer " prefix) validates; the token's roles are then forwarded
 * downstream in the X-Auth-Roles header, joined with commas.  A refusal is
 * written to the response as a 401 with a plain-text message.
 */
module GatewayFilter {
  import opened Wrappers
  import opened Text
  import opened Reactive
  import opened RouteValidator

  const Authorization: string := "Authorization"
  const RolesHeader: string := "X-Auth-Roles"
  const ContentType: string := "Content-Type"
  const TextPlain: string := "text/plain"
  const BearerPrefix: string := "Bearer "
  const MissingHeader: string := "Missing Authorization Header"
  const UnauthorizedAccess: string := "Unauthorized access to application"
  /** The message of `get(0)` on an empty header value list. */
  const NoFirstValue: string := "Index 0 out of bounds for length 0"

  /** Header name to its values, in order. */
  type Headers = map<string, seq<string>>

  datatype Request = Request(path: string, headers: Headers)

  /** The token in an Authorization value: the text after "Bearer " if it starts so, else the whole value. */
  function Token(header: string): (t: string)
    ensures StartsWith(header, BearerPrefix) ==> BearerPrefix + t == header
    ensures !StartsWith(header, BearerPrefix) ==> t == header
  {
    if StartsWith(header, BearerPrefix) then header[|BearerPrefix|..] else header
  }

  /** What the filter does with a request: pass it on (possibly rewritten), answer it, or fail. */
  datatype Decision =
    | Forward(request: Request)
    | Reject(status: int, message: string)
    | Fail(error: Exception)

  /**
   * `apply`'s decision.  `verify` stands for the JWT utilities: the roles
   * of a token that validates, None when validation or role extraction throws.
   */
  function Decide(request: Request, verify: string -> Option<seq<string>>): (d: Decision)
    ensures !IsSecured(request.path) ==> d == Forward(request)
    ensures IsSecured(request.path) && Authorization !in request.headers ==> d == Reject(401, MissingHeader)
    ensures IsSecured(request.path) && Authorization in request.headers && |request.headers[Authorization]| == 0 ==>
      d == Fail(IndexOutOfBounds(NoFirstValue))
    ensures (IsSecured(request.path) && Authorization in request.headers && |request.headers[Authorization]| > 0 &&
             verify(Token(request.headers[Authorization][0])).None?) ==> d == Reject(401, UnauthorizedAccess)
    ensures d.Reject? ==> d.status == 401
    ensures d.Forward? <==> (!IsSecured(request.path) ||
                             (Authorization in request.headers && |request.headers[Authorization]| > 0 &&
                              verify(Token(request.headers[Authorization][0])).Some?))
    ensures d.Forward? ==> d.request.path == request.path
    ensures d.Forward? && IsSecured(request.path) ==>
      d.request.headers.Keys == request.headers.Keys + {RolesHeader} &&
      d.request.headers[RolesHeader] == [Join(verify(Token(request.headers[Authorization][0])).value, ",")] &&
      forall h :: h in request.headers && h != RolesHeader ==> d.request.headers[h] == request.headers[h]
  {
    if !IsSecured(request.path) then Forward(request)
    else if Authorization !in request.headers then Reject(401, MissingHeader)
    else if |request.headers[Authorization]| == 0 then Fail(IndexOutOfBounds(NoFirstValue))
    else
      match verify(Token(request.headers[Authorization][0]))
      case None => Reject(401, UnauthorizedAccess)
      case Some(roles) =>
        Forward(request.(headers := request.headers[RolesHeader := [Join(roles, ",")]]))
  }

  /** On a secured path an X-Auth-Roles header sent by the client is overwritten: it cannot change the outcome. */
  lemma ClientRolesIgnoredWhenSecured(request: Request, forged: seq<string>, verify: string -> Option<seq<string>>)
    requires IsSecured(request.path)
    ensures Decide(request.(headers := request.headers[RolesHeader := forged]), verify) == Decide(request, verify)
  {
    var forgedRequest := request.(headers := request.headers[RolesHeader := forged]);
    assert RolesHeader != Authorization by { assert |RolesHeader| != |Authorization|; }
    var d := Decide(request, verify);
    if d.Forward? {
      var roles := verify(Token(request.headers[Authorization][0])).value;
      assert forgedRequest.headers[RolesHeader := [Join(roles, ",")]] == request.headers[RolesHeader := [Join(roles, ",")]];
    }
  }

  /** On an open path whatever X-Auth-Roles the client sent is forwarded as it is. */
  lemma ClientRolesPassWhenOpen(request: Request, verify: string -> Option<seq<string>>)
    requires !IsSecured(request.path) && RolesHeader in request.headers
    ensures Decide(request, verify).Forward?
    ensures Decide(request, verify).request.headers[RolesHeader] == request.headers[RolesHeader]
  {
  }

  /** The response the filter writes to, as far as `onError` touches it. */
  class ServerResponse {
    var status: Option<int>
    var headers: Headers
    var body: Option<seq<byte>>

    constructor ()
      ensures status == None && headers == map[] && body == None
    {
      status := None;
      headers := map[];
      body := None;
    }

    /** The values of header `name`, none if it is absent. */
    function Values(name: string): (vs: seq<string>)
      reads this
      ensures name !in headers ==> vs == []
      ensures name in headers ==> vs == headers[name]
    {
      if name in headers then headers[name] else []
    }

    /**
     * onError: sets the status, appends a text/plain Content-Type and writes
     * the message as UTF-8; the write completes empty.
     */
    method OnError(err: string, code: int) returns (r: Mono<()>)
      modifies this
      ensures status == Some(code)
      ensures headers == old(headers)[ContentType := old(Values(ContentType)) + [TextPlain]]
      ensures body == Some(Utf8(err))
      ensures r == Empty
    {
      status := Some(code);
      headers := headers[ContentType := Values(ContentType) + [TextPlain]];
      body := Some(Utf8(err));
      r := Empty;
    }
  }

  /** `apply`: decides, and for a refusal writes the 401 to the response; otherwise the response is untouched. */
  method Apply(request: Request, verify: string -> Option<seq<string>>, response: ServerResponse)
    returns (d: Decision)
    modifies response
    ensures d == Decide(request, verify)
    ensures d.Reject? ==>
              response.status == Some(401) && response.body == Some(Utf8(d.message)) &&
              response.headers == old(response.headers)[ContentType := old(response.Values(ContentType)) + [TextPlain]]
    ensures !d.Reject? ==> unchanged(response)
  {
    d := Decide(request, verify);
    if d.Reject? {
      var _ := response.OnError(d.message, d.status);
    }
  }
}
