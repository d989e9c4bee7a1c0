/** The admin token check (server.js, `verifyAdminToken`): the request must
    carry `Authorization: Bearer <token>` with a token handed out by a
    successful login. A missing header is the empty string. */
module AdminAuth {
  import opened Wrappers
  import opened Js

  const BearerPrefix: string := "Bearer "

  /** The token after `Bearer `, or None when the header does not start
      with it (`authHeader.substring(7)` after the `startsWith` test). */
  function BearerToken(header: string): (r: Option<string>)
    ensures r.Some? <==> StartsWith(header, BearerPrefix)
    ensures r.Some? ==> header == BearerPrefix + r.value
  {
    if StartsWith(header, BearerPrefix) then
      assert header == header[..|BearerPrefix|] + header[|BearerPrefix|..];
      Some(header[|BearerPrefix|..])
    else None
  }

  /** The token a client sends is the token the server reads. */
  lemma BearerRoundTrip(token: string)
    ensures BearerToken(BearerPrefix + token) == Some(token)
  {
    var header := BearerPrefix + token;
    assert header[..|BearerPrefix|] == BearerPrefix;
    assert header[|BearerPrefix|..] == token;
  }

  /** The outcome of the check: 401 `Token fehlt`, 401 `Ungültiger Token`,
      or on to the handler. */
  datatype Auth = TokenMissing | TokenInvalid | Authorized

  function Check(tokens: set<string>, header: string): (a: Auth)
    ensures a == TokenMissing <==> !StartsWith(header, BearerPrefix)
    ensures a == Authorized <==> exists t :: t in tokens && header == BearerPrefix + t
  {
    match BearerToken(header)
    case None => TokenMissing
    case Some(t) =>
      BearerTokenUnique(header, t);
      if t in tokens then Authorized else TokenInvalid
  }

  /** A header names at most one token. */
  lemma BearerTokenUnique(header: string, t: string)
    requires header == BearerPrefix + t
    ensures forall u :: header == BearerPrefix + u ==> u == t
  {
    forall u | header == BearerPrefix + u ensures u == t {
      assert u == header[|BearerPrefix|..];
      assert t == header[|BearerPrefix|..];
    }
  }
}
