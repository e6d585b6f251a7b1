/**
 * The access guard in front of every task route and the profile route: it
 * parses the `Authorization` header, verifies the bearer token and either
 * answers the request itself or passes a verified identity on.
 */
module AuthGuard {
  import opened Common
  import opened Js
  import opened Jwt

  /** The identity attached to the request for the handlers downstream. */
  datatype Identity = Identity(userId: int, username: string, email: string)

  /** Exactly one of: call the next handler with an identity, or respond with an error. */
  datatype GuardResult = Next(user: Identity) | Respond(status: int, error: string)

  const NoTokenMessage := "Token no proporcionado"
  const FormatMessage := "Formato de token inválido. Use: Bearer <token>"
  const InvalidMessage := "Token inválido"
  const ExpiredMessage := "Token expirado"
  const FailureMessage := "Error al verificar token"

  /** The header has the shape `Bearer <token>` with a token free of spaces. */
  predicate IsBearer(header: string)
  {
    |header| >= 7 && header[..7] == "Bearer " && ' ' !in header[7..]
  }

  /** The split-and-check step: the token when the header splits into `Bearer` and one more piece. */
  function BearerToken(header: string): (token: Option<string>)
    ensures token.Some? <==> IsBearer(header)
    ensures token.Some? ==> token.value == header[7..]
  {
    BearerShape(header);
    var parts := Split(header);
    if |parts| != 2 || parts[0] != "Bearer" then None else Some(parts[1])
  }

  /** `split(' ')` gives exactly `["Bearer", t]` precisely for the headers `"Bearer " + t` with no space in `t`. */
  lemma BearerShape(header: string)
    ensures (|Split(header)| == 2 && Split(header)[0] == "Bearer") <==> IsBearer(header)
    ensures IsBearer(header) ==> Split(header) == ["Bearer", header[7..]]
  {
    var parts := Split(header);
    if |parts| == 2 && parts[0] == "Bearer" {
      assert header == Join(parts) == "Bearer" + " " + parts[1];
      assert header[7..] == parts[1];
    }
    if IsBearer(header) {
      var t := header[7..];
      assert header == Join(["Bearer", t]);
      SplitJoin(["Bearer", t]);
    }
  }

  /** The identity copied out of the decoded claims. */
  function IdentityOf(c: Claims): Identity
  {
    Identity(c.userId, c.username, c.email)
  }

  /** The response for a thrown verification error. */
  function FailureResponse(v: Verification): (r: GuardResult)
    requires !v.Verified?
    ensures r.Respond?
    ensures r.status == 500 <==> v.OtherFailure?
    ensures r.status == 401 <==> (v.InvalidToken? || v.ExpiredToken?)
  {
    match v
    case InvalidToken => Respond(401, InvalidMessage)
    case ExpiredToken => Respond(401, ExpiredMessage)
    case OtherFailure => Respond(500, FailureMessage)
  }

  /**
   * The middleware. `verify` stands for `jwt.verify` with the configured
   * secret; `header` is `req.headers.authorization`.
   */
  function Authenticate(header: Option<string>, verify: string -> Verification): (r: GuardResult)
    ensures !TruthyOpt(header) ==> r == Respond(401, NoTokenMessage)
    ensures TruthyOpt(header) && !IsBearer(header.value) ==> r == Respond(401, FormatMessage)
    ensures r.Next? <==> TruthyOpt(header) && IsBearer(header.value) && verify(header.value[7..]).Verified?
    ensures r.Next? ==> r.user == IdentityOf(verify(header.value[7..]).claims)
    ensures TruthyOpt(header) && IsBearer(header.value) ==>
      match verify(header.value[7..])
      case Verified(c) => r == Next(IdentityOf(c))
      case InvalidToken => r == Respond(401, InvalidMessage)
      case ExpiredToken => r == Respond(401, ExpiredMessage)
      case OtherFailure => r == Respond(500, FailureMessage)
  {
    if !TruthyOpt(header) then Respond(401, NoTokenMessage)
    else match BearerToken(header.value)
      case None => Respond(401, FormatMessage)
      case Some(token) =>
        match verify(token)
        case Verified(c) => Next(IdentityOf(c))
        case _ => FailureResponse(verify(token))
  }

  /** Headers that differ from `Bearer <token>` only slightly are all rejected as malformed, before verification. */
  lemma MalformedHeaders(verify: string -> Verification)
    ensures Authenticate(Some("Bearer"), verify) == Respond(401, FormatMessage)
    ensures Authenticate(Some("Bearer a b"), verify) == Respond(401, FormatMessage)
    ensures Authenticate(Some("bearer x"), verify) == Respond(401, FormatMessage)
    ensures Authenticate(Some("Bearer  x"), verify) == Respond(401, FormatMessage)
  {
    assert ' ' in "Bearer a b"[7..] by { assert "Bearer a b"[7..][1] == ' '; }
    assert "bearer x"[..7] != "Bearer " by { assert "bearer x"[0] == 'b'; }
    assert ' ' in "Bearer  x"[7..] by { assert "Bearer  x"[7..][0] == ' '; }
  }
}
