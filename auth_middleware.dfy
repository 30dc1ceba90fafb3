/** `authenticateToken`: the middleware in front of every protected route.
    It reads the `Authorization` header, insists on the `Bearer ` scheme,
    takes the token as the second space-separated part, and hands it to
    `jwt.verify`, which is a parameter here. Either the request goes on
    with the decoded claims as `req.user`, or it is refused with 401. */
module AuthMiddleware {
  import opened Wrappers
  import opened Json
  import opened Http
  import opened Text

  const HeaderRequired := "Token de acceso requerido"
  const BadScheme := "Formato de token inválido. Debe ser: Bearer <token>"
  const TokenMissing := "Token no proporcionado"
  const TokenInvalid := "Token inválido"
  const TokenExpired := "Token expirado. Inicia sesión nuevamente"
  const VerifyFailed := "Error al verificar token"

  /** What `jwt.verify` does with a token: answers its payload, or throws
      one of its named errors, or throws anything else. */
  datatype Verification = Verified(claims: Object) | JsonWebTokenError | TokenExpiredError | OtherError

  /** The middleware's effect: `next()` with `req.user` set, or a reply. */
  datatype Outcome = Authenticated(user: Object) | Rejected(reply: Reply)

  const Scheme := "Bearer "

  /** `authHeader.split(' ')[1]` for a header that starts with `Bearer `:
      the text after the scheme up to the next space (or to the end). */
  function TokenOf(header: string): (token: string)
    requires StartsWith(header, Scheme)
    ensures ' ' !in token
    ensures StartsWith(header[|Scheme|..], token)
    ensures |token| == |header| - |Scheme| || header[|Scheme| + |token|] == ' '
  {
    var rest := header[|Scheme|..];
    assert header == "Bearer" + [' '] + rest;
    SplitAt("Bearer", rest, ' ');
    FirstPart(rest, ' ');
    Split(header, ' ')[1]
  }

  /** The first part of a split is the text before the first separator. */
  lemma FirstPart(s: string, sep: char)
    ensures sep !in Split(s, sep)[0]
    ensures StartsWith(s, Split(s, sep)[0])
    ensures |Split(s, sep)[0]| == |s| || s[|Split(s, sep)[0]|] == sep
  {
    var parts := Split(s, sep);
    JoinSplit(s, sep);
    if |parts| > 1 {
      assert s == parts[0] + [sep] + Join(parts[1..], sep);
      assert s[..|parts[0]|] == parts[0];
    } else {
      assert s == parts[0];
    }
  }

  /** `authenticateToken(req, res, next)`, with `verify` standing for
      `jwt.verify(token, secret)`. Every refusal is a 401. */
  function AuthenticateToken(header: Option<string>, verify: string -> Verification): (o: Outcome)
    ensures header.None? || header.value == "" ==> o == Rejected(Reply(401, HeaderRequired))
    ensures header.Some? && header.value != "" && !StartsWith(header.value, Scheme) ==> o == Rejected(Reply(401, BadScheme))
    ensures o.Authenticated? <==>
              && header.Some? && StartsWith(header.value, Scheme) && TokenOf(header.value) != ""
              && verify(TokenOf(header.value)).Verified?
    ensures o.Authenticated? ==> o.user == verify(TokenOf(header.value)).claims
    ensures o.Rejected? ==> o.reply.status == 401
  {
    if header.None? || header.value == "" then Rejected(Reply(401, HeaderRequired))
    else if !StartsWith(header.value, Scheme) then Rejected(Reply(401, BadScheme))
    else
      var token := TokenOf(header.value);
      if token == "" then Rejected(Reply(401, TokenMissing))
      else match verify(token)
        case Verified(claims) => Authenticated(claims)
        case JsonWebTokenError => Rejected(Reply(401, TokenInvalid))
        case TokenExpiredError => Rejected(Reply(401, TokenExpired))
        case OtherError => Rejected(Reply(401, VerifyFailed))
  }

  /** A token without spaces, sent as `Bearer <token>`, reaches `verify`
      unchanged, and its verdict alone decides the outcome. */
  lemma BearerRoundTrip(token: string, verify: string -> Verification)
    requires token != "" && ' ' !in token
    ensures AuthenticateToken(Some(Scheme + token), verify) ==
              match verify(token)
              case Verified(claims) => Authenticated(claims)
              case JsonWebTokenError => Rejected(Reply(401, TokenInvalid))
              case TokenExpiredError => Rejected(Reply(401, TokenExpired))
              case OtherError => Rejected(Reply(401, VerifyFailed))
  {
    var header := Scheme + token;
    assert StartsWith(header, Scheme);
    assert header[|Scheme|..] == token;
    var t := TokenOf(header);
    assert t == token[..|t|];
    assert t == token;
    assert header != "";
  }

  /** `Bearer ` alone, and `Bearer` followed by two spaces, carry an empty
      token and are refused before `verify` is asked. */
  lemma EmptyTokenRefused(rest: string, verify: string -> Verification)
    ensures AuthenticateToken(Some(Scheme), verify) == Rejected(Reply(401, TokenMissing))
    ensures AuthenticateToken(Some(Scheme + " " + rest), verify) == Rejected(Reply(401, TokenMissing))
  {
    assert StartsWith(Scheme, Scheme);
    var header := Scheme + " " + rest;
    assert StartsWith(header, Scheme);
    assert header[|Scheme|] == ' ';
  }

  /** The scheme is matched case-sensitively: `bearer <token>` is refused
      for its format, whatever `verify` would say of the token. */
  lemma SchemeIsCaseSensitive(token: string, verify: string -> Verification)
    ensures AuthenticateToken(Some("bearer " + token), verify) == Rejected(Reply(401, BadScheme))
  {
    var header := "bearer " + token;
    assert header[0] == 'b' != Scheme[0];
  }
}
