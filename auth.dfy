/**
 * The bearer-token middleware of backend/src/auth.ts. The JSON Web Token
 * library is abstract: `sign(userId, secret)` stands for `jwt.sign` and
 * `verify(token, secret)` for `jwt.verify`, which gives the `userId` of a token
 * it accepts and `None` where it throws (bad signature, expired, malformed).
 */
module Auth {
  import opened Wrappers
  import opened Strings
  import opened Context

  const DefaultSecret: string := "supersecret"

  /** `process.env.JWT_SECRET || "supersecret"`: an unset or empty variable gives the default. */
  function Secret(env: Option<string>): (s: string)
    ensures env.Some? && env.value != "" ==> s == env.value
    ensures env.None? || env.value == "" ==> s == DefaultSecret
  {
    if env.Some? && env.value != "" then env.value else DefaultSecret
  }

  /** `generateToken`: a token for `userId` signed with the same secret the middleware verifies with. */
  function GenerateToken(userId: int, env: Option<string>, sign: (int, string) -> string): string {
    sign(userId, Secret(env))
  }

  /**
   * The token `authMiddleware` goes on to verify, or `None` where it calls `next()`
   * at once: no header, or `split(" ")` whose first piece is not `Bearer` or whose
   * second piece is missing or empty.
   */
  function BearerToken(header: Option<string>): Option<string> {
    if header.None? || header.value == "" then None
    else
      var parts := Split(header.value, ' ');
      if parts[0] != "Bearer" || |parts| < 2 || parts[1] == "" then None else Some(parts[1])
  }

  /** `h` is `Bearer `, then the token `t` (non-empty, no space), then the end or a space. */
  predicate IsBearerHeader(h: string, t: string) {
    && |h| >= 7 + |t| && h[..7] == "Bearer " && h[7..7 + |t|] == t
    && t != "" && ' ' !in t
    && (|h| == 7 + |t| || h[7 + |t|] == ' ')
  }

  /**
   * The middleware reads a token exactly from a header of the form
   * `Bearer <token>`, where anything after a further space is ignored
   * (so `Bearer  x`, with two spaces, carries no token).
   */
  lemma BearerTokenIff(h: string, t: string)
    ensures BearerToken(Some(h)) == Some(t) <==> IsBearerHeader(h, t)
  {
    if BearerToken(Some(h)) == Some(t) {
      BearerTokenForm(h, t);
    }
    if IsBearerHeader(h, t) {
      BearerFormToken(h, t);
    }
  }

  lemma BearerTokenForm(h: string, t: string)
    requires BearerToken(Some(h)) == Some(t)
    ensures IsBearerHeader(h, t)
  {
    var i := IndexOf(h, ' ');
    SplitPieces(h, ' ');
    assert h[..i] == "Bearer";
    assert i == 6;
    var rest := h[7..];
    var j := IndexOf(rest, ' ');
    assert t == rest[..j];
    assert h[..7] == "Bearer ";
    assert h[7..7 + |t|] == t;
  }

  lemma BearerFormToken(h: string, t: string)
    requires IsBearerHeader(h, t)
    ensures BearerToken(Some(h)) == Some(t)
  {
    assert h[6] == ' ' && forall k :: 0 <= k < 6 ==> h[k] != ' ';
    IndexOfIs(h, ' ', 6);
    var rest := h[7..];
    assert forall k :: 0 <= k < |t| ==> rest[k] == t[k];
    IndexOfIs(rest, ' ', |t|);
    SplitPieces(h, ' ');
    assert rest[..|t|] == t;
  }

  /** The user the middleware attaches to the request, `{ id: decoded.userId }`, if any. */
  function Authenticate(header: Option<string>, env: Option<string>, verify: (string, string) -> Option<int>): (u: Option<User>)
    ensures header.None? ==> u.None?
  {
    match BearerToken(header)
    case None => None
    case Some(t) =>
      match verify(t, Secret(env))
      case None => None
      case Some(userId) => Some(User(userId))
  }

  /**
   * With a well-formed bearer header, the user attached is the one `verify`
   * names, and none when verification fails.
   */
  lemma AuthenticateBearer(h: string, t: string, env: Option<string>, verify: (string, string) -> Option<int>)
    requires IsBearerHeader(h, t)
    ensures Authenticate(Some(h), env, verify) == match verify(t, Secret(env))
      case None => None
      case Some(userId) => Some(User(userId))
  {
    BearerTokenIff(h, t);
  }

  /** Without a well-formed bearer header no user is attached, whatever `verify` does. */
  lemma AuthenticateMalformed(h: string, env: Option<string>, verify: (string, string) -> Option<int>)
    requires BearerToken(Some(h)).None?
    ensures Authenticate(Some(h), env, verify) == None
  {
  }

  /**
   * A token from `generateToken`, sent back as `Bearer <token>`, authenticates
   * its user: signing and verifying fall back to the same default secret.
   */
  lemma GeneratedTokenAuthenticates(userId: int, env: Option<string>, sign: (int, string) -> string,
                                    verify: (string, string) -> Option<int>)
    requires verify(sign(userId, Secret(env)), Secret(env)) == Some(userId)
    requires sign(userId, Secret(env)) != "" && ' ' !in sign(userId, Secret(env))
    ensures Authenticate(Some("Bearer " + GenerateToken(userId, env, sign)), env, verify) == Some(User(userId))
  {
    var t := GenerateToken(userId, env, sign);
    var h := "Bearer " + t;
    assert h[..7] == "Bearer " && h[7..7 + |t|] == t;
    BearerTokenIff(h, t);
  }

  /** The mutable part of an Express request that the middleware touches. */
  class Request {
    const authorization: Option<string>
    var user: Option<User>
    /** How many times `next` has been called for this request. */
    var nextCalls: nat

    constructor (authorization: Option<string>)
      ensures this.authorization == authorization && user == None && nextCalls == 0
    {
      this.authorization := authorization;
      user := None;
      nextCalls := 0;
    }
  }

  /**
   * `authMiddleware`: attaches the authenticated user, if any, and calls `next`
   * exactly once; a failed verification is logged and never thrown.
   */
  method AuthMiddleware(req: Request, env: Option<string>, verify: (string, string) -> Option<int>)
    modifies req
    ensures req.nextCalls == old(req.nextCalls) + 1
    ensures req.user == match Authenticate(req.authorization, env, verify)
      case Some(u) => Some(u)
      case None => old(req.user)
  {
    var token := BearerToken(req.authorization);
    if token.None? {
      req.nextCalls := req.nextCalls + 1;
      return;
    }
    var decoded := verify(token.value, Secret(env));
    if decoded.Some? {
      req.user := Some(User(decoded.value));
    }
    req.nextCalls := req.nextCalls + 1;
  }
}
