/**
 * Session tokens: building the claim for a user, signing it with HS256 and
 * the server secret, reading it back, and projecting the current user.
 * HS256 itself is a parameter (`Mac`), so nothing here depends on how the
 * signature is computed; the token's JSON/base64 text form is not modelled,
 * a token is the claim together with its signature.
 */
module Jwt {
  import opened Wrappers
  import opened Domain

  const Issuer := "Intranet API - Generate by IslaIT"
  /** 72 hours, in seconds (token times are whole seconds). */
  const Validity := 72 * 60 * 60

  const TokenInvalid := "token signature is invalid"
  const TokenExpired := "token is expired"

  /** HS256 over a claim with a key; it may report an error. */
  type Mac = (Claim, string) -> Result<string>

  datatype Token = Token(claims: Claim, signature: string)

  /** The claim issued for `user` at time `now`. */
  function ClaimFor(user: User, now: int): (c: Claim)
    ensures c.userID == user.id && c.email == user.email && c.token == user.token
    ensures c.levelID == user.levelID && c.admin == user.levelID
    ensures c.issuer == Issuer && c.expiresAt == now + Validity
  {
    Claim(user.id, user.email, user.levelID, user.token, user.levelID, now + Validity, Issuer)
  }

  /**
   * `GenerateJWT`: the user's claim, signed with the secret; a signing
   * error is returned as is.
   */
  function GenerateJWT(user: User, now: int, secret: string, hs256: Mac): (r: Result<Token>)
    ensures r.Ok? <==> hs256(ClaimFor(user, now), secret).Ok?
    ensures r.Ok? ==> r.value.claims == ClaimFor(user, now) && hs256(r.value.claims, secret) == Ok(r.value.signature)
    ensures r.Err? ==> r.error == hs256(ClaimFor(user, now), secret).error
  {
    var claims := ClaimFor(user, now);
    match hs256(claims, secret)
    case Err(e) => Err(e)
    case Ok(signature) => Ok(Token(claims, signature))
  }

  /**
   * Reading a token back with a secret: the signature must be the one the
   * secret gives, and the token must not have reached its expiry.
   */
  function Parse(token: Token, secret: string, hs256: Mac, now: int): (r: Result<Claim>)
    ensures r.Ok? <==> hs256(token.claims, secret) == Ok(token.signature) && now < token.claims.expiresAt
    ensures r.Ok? ==> r.value == token.claims
  {
    if hs256(token.claims, secret) != Ok(token.signature) then Err(TokenInvalid)
    else if now >= token.claims.expiresAt then Err(TokenExpired)
    else Ok(token.claims)
  }

  /** `GetCurrentUser`: the user id of the verified token stored for the request. */
  function GetCurrentUser(token: Token): (id: nat)
    ensures forall user: User, now: int :: token.claims == ClaimFor(user, now) ==> id == user.id
  {
    token.claims.userID
  }

  /**
   * A freshly issued token reads back, with the same secret and before its
   * 72 hours are over, as the claim built from the user's fields.
   */
  lemma IssuedTokenParses(user: User, issuedAt: int, now: int, secret: string, hs256: Mac)
    requires GenerateJWT(user, issuedAt, secret, hs256).Ok?
    requires issuedAt <= now < issuedAt + Validity
    ensures var c := Parse(GenerateJWT(user, issuedAt, secret, hs256).value, secret, hs256, now);
      && c.Ok?
      && c.value.userID == user.id && c.value.email == user.email && c.value.token == user.token
      && c.value.levelID == user.levelID && c.value.admin == user.levelID
      && c.value.issuer == Issuer && c.value.expiresAt == issuedAt + Validity
  {
  }

  /** From the expiry instant on, the issued token is refused as expired. */
  lemma IssuedTokenExpires(user: User, issuedAt: int, now: int, secret: string, hs256: Mac)
    requires GenerateJWT(user, issuedAt, secret, hs256).Ok?
    requires now >= issuedAt + Validity
    ensures Parse(GenerateJWT(user, issuedAt, secret, hs256).value, secret, hs256, now) == Err(TokenExpired)
  {
  }

  /** The current user of a request carrying a token issued for `user` is that user's id. */
  lemma CurrentUserOfIssuedToken(user: User, now: int, secret: string, hs256: Mac)
    requires GenerateJWT(user, now, secret, hs256).Ok?
    ensures GetCurrentUser(GenerateJWT(user, now, secret, hs256).value) == user.id
  {
  }
}
