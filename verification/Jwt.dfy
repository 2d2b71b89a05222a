/** JSON Web Tokens as the service issues and checks them. Times are milliseconds; a token's `exp` is in
    whole seconds, and a token is refused on or after it (section 4.1.4 of RFC 7519). */
module Jwt {
  import opened Common

  datatype TokenType = Auth | Refresh

  /** `signed` says that the token carries a valid signature under the secret of its type. */
  datatype Token = Token(kind: TokenType, email: string, sid: Option<string>, exp: Option<nat>, signed: bool)

  datatype Payload = Payload(email: string, sid: Option<string>, exp: nat)

  datatype Error = VerificationFailed | TokenExpired | InvalidPayload | PayloadMissingData

  /** `threshold` is the renewal threshold in minutes, which need not be a whole number. */
  datatype Config = Config(authMs: nat, refreshMs: nat, threshold: real)

  function Lifetime(cfg: Config, kind: TokenType): nat {
    match kind case Auth => cfg.authMs case Refresh => cfg.refreshMs
  }

  function GenerateToken(cfg: Config, email: string, sid: Option<string>, kind: TokenType, now: nat): Token {
    Token(kind, email, sid, Some(now / 1000 + Lifetime(cfg, kind) / 1000), true)
  }

  function VerifyToken(token: Token, kind: TokenType, now: nat): Result<Token, Error> {
    if !token.signed || token.kind != kind then Err(VerificationFailed)
    else if token.exp.Some? && now / 1000 >= token.exp.value then Err(TokenExpired)
    else Ok(token)
  }

  function GetPayload(token: Token, kind: TokenType, now: nat): Result<Payload, Error> {
    match VerifyToken(token, kind, now)
    case Err(e) => Err(e)
    case Ok(decoded) =>
      if decoded.email == "" || decoded.exp.None? || decoded.exp.value == 0 then Err(InvalidPayload)
      else if kind == Refresh && (decoded.sid.None? || decoded.sid.value == "") then Err(PayloadMissingData)
      else Ok(Payload(decoded.email, decoded.sid, decoded.exp.value))
  }

  /** Whole minutes from now to a later expiry, rounded down. */
  function MinutesLeft(exp: nat, now: nat): nat
    requires now / 1000 < exp
  {
    (exp * 1000 - now) / 60000
  }

  /** A new access token, and the refresh token itself or, near its end, its successor. */
  function RefreshToken(cfg: Config, token: Token, now: nat): Result<(Token, Token), Error> {
    match GetPayload(token, Refresh, now)
    case Err(e) => Err(e)
    case Ok(p) =>
      var next := if MinutesLeft(p.exp, now) as real < cfg.threshold
                  then GenerateToken(cfg, p.email, p.sid, Refresh, now) else token;
      Ok((GenerateToken(cfg, p.email, p.sid, Auth, now), next))
  }

  // ----- What callers rely on -----

  /** Neither refreshing nor rotating changes who a token is for, and the tokens handed out are accepted
      at once wherever their lifetime is at least a second. */
  lemma RefreshKeepsIdentity(cfg: Config, token: Token, now: nat)
    requires RefreshToken(cfg, token, now).Ok? && cfg.authMs >= 1000 && cfg.refreshMs >= 1000
    ensures var (access, next) := RefreshToken(cfg, token, now).value;
            && GetPayload(access, Auth, now).Ok? && GetPayload(next, Refresh, now).Ok?
            && access.email == next.email == token.email && access.sid == next.sid == token.sid
            && RefreshToken(cfg, next, now).Ok?
  {}

  /** After a refresh the client holds a refresh token good for the renewal threshold or, when it has
      just been rotated, for its whole lifetime less the rounding to seconds. */
  lemma RefreshLeavesTime(cfg: Config, token: Token, now: nat)
    requires RefreshToken(cfg, token, now).Ok?
    ensures var next := RefreshToken(cfg, token, now).value.1;
            next.exp.Some? &&
            var left := next.exp.value * 1000 - now;
            (next == token && left as real >= cfg.threshold * 60000.0) || left >= cfg.refreshMs - 1998
  {
    var exp := token.exp.value;
    var minutes := MinutesLeft(exp, now);
    assert exp * 1000 - now >= minutes * 60000;
    if minutes as real >= cfg.threshold {
      assert (minutes * 60000) as real == minutes as real * 60000.0;
    }
  }

  /** Rotation never shortens a token that was issued under the same configuration. */
  lemma RotationNeverShortens(cfg: Config, token: Token, issuedAt: nat, now: nat)
    requires issuedAt <= now && token == GenerateToken(cfg, token.email, token.sid, Refresh, issuedAt)
    requires RefreshToken(cfg, token, now).Ok?
    ensures var next := RefreshToken(cfg, token, now).value.1; next.exp.Some? && next.exp.value >= token.exp.value
  {
    assert issuedAt / 1000 <= now / 1000;
  }
}
