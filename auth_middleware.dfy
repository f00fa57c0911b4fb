/** The bearer-token middleware of the server: `auth` (strict) and
    `optionalAuth`. Both read the `Authorization` header, test for the
    "Bearer " prefix, take `split(" ")[1]` as the token and hand it to
    `jwt.verify`, which is a parameter here: it returns the decoded payload,
    or `None` where the library throws. */
module AuthMiddleware {
  import opened Wrappers
  import opened Text

  /** A user id; the model does not distinguish an ObjectId from its string form. */
  type UserId = nat

  /** The decoded token payload stored in `req.user`. */
  datatype Claims = Claims(id: UserId, email: string)

  /** `res.status(status).json({ success: false, message })`. */
  datatype Answer = Answer(status: nat, message: string)

  /** What a middleware decides: answer the request itself, or call `next()`
      with the user that `req.user` then holds. */
  datatype Admission = Reject(answer: Answer) | Admit(user: Option<Claims>)

  const BearerPrefix: string := "Bearer "
  const NoTokenMessage: string := "No token provided"
  const BadTokenMessage: string := "Invalid or expired token"

  /** `authHeader && authHeader.startsWith("Bearer ")`. */
  predicate HasBearer(header: Option<string>)
  {
    header.Some? && StartsWith(header.value, BearerPrefix)
  }

  /** `authHeader.split(" ")[1]`: the text after "Bearer " up to the next space. */
  function TokenOf(header: string): (token: string)
    requires StartsWith(header, BearerPrefix)
    ensures token == TakeUntil(header[|BearerPrefix|..], ' ')
    ensures ' ' !in token
  {
    var rest := header[|BearerPrefix|..];
    assert header == "Bearer" + [' '] + rest;
    SplitAfterWord("Bearer", ' ', rest);
    SplitHeadIsTakeUntil(rest, ' ');
    Split(header, ' ')[1]
  }

  /** The header the client builds from a stored token (`Bearer ${token}`)
      yields that token again, provided the token has no space in it. */
  lemma BearerHeaderRoundTrip(token: string)
    requires ' ' !in token
    ensures StartsWith(BearerPrefix + token, BearerPrefix)
    ensures TokenOf(BearerPrefix + token) == token
  {
    assert (BearerPrefix + token)[..|BearerPrefix|] == BearerPrefix;
    assert (BearerPrefix + token)[|BearerPrefix|..] == token;
  }

  /** The decision `auth` takes for a header. */
  function StrictDecision(header: Option<string>, verify: string -> Option<Claims>): (r: Admission)
    ensures r.Reject? ==> r.answer.status in {401, 403}
    ensures r.Reject? && r.answer == Answer(401, NoTokenMessage) <==> !HasBearer(header)
    ensures r.Reject? && r.answer == Answer(403, BadTokenMessage) <==>
              HasBearer(header) && verify(TokenOf(header.value)).None?
    ensures r.Admit? <==> HasBearer(header) && verify(TokenOf(header.value)).Some?
    ensures r.Admit? ==> r.user.Some? && r.user == verify(TokenOf(header.value))
  {
    if !HasBearer(header) then Reject(Answer(401, NoTokenMessage))
    else
      var decoded := verify(TokenOf(header.value));
      if decoded.Some? then Admit(decoded) else Reject(Answer(403, BadTokenMessage))
  }

  /** The decision `optionalAuth` takes: it always continues, and `req.user`
      changes only for a Bearer header whose token verifies. */
  function OptionalDecision(header: Option<string>, verify: string -> Option<Claims>, prior: Option<Claims>): (r: Admission)
    ensures r.Admit?
    ensures HasBearer(header) && verify(TokenOf(header.value)).Some? ==>
              r.user == verify(TokenOf(header.value))
    ensures !(HasBearer(header) && verify(TokenOf(header.value)).Some?) ==> r.user == prior
  {
    if HasBearer(header) then
      var decoded := verify(TokenOf(header.value));
      if decoded.Some? then Admit(decoded) else Admit(prior)
    else Admit(prior)
  }

  /** The Express request, as far as the middleware touches it. */
  class Request {
    const authorization: Option<string>
    var user: Option<Claims>

    constructor (authorization: Option<string>)
      ensures this.authorization == authorization && user == None
    {
      this.authorization := authorization;
      user := None;
    }
  }

  /** The Express response: the answer sent, if any. */
  class Response {
    var sent: Option<Answer>

    constructor ()
      ensures sent == None
    {
      sent := None;
    }
  }

  /** `auth(req, res, next)`; returns how many times `next` was called. */
  method Auth(req: Request, res: Response, verify: string -> Option<Claims>) returns (nextCalls: nat)
    modifies req, res
    ensures nextCalls <= 1
    ensures match StrictDecision(req.authorization, verify)
      case Reject(a) => res.sent == Some(a) && nextCalls == 0 && req.user == old(req.user)
      case Admit(u) => req.user == u && nextCalls == 1 && res.sent == old(res.sent)
  {
    var authHeader := req.authorization;
    if authHeader.None? || !StartsWith(authHeader.value, BearerPrefix) {
      res.sent := Some(Answer(401, NoTokenMessage));
      return 0;
    }
    var token := TokenOf(authHeader.value);
    var decoded := verify(token);
    if decoded.Some? {
      req.user := decoded;
      nextCalls := 1;
    } else {
      res.sent := Some(Answer(403, BadTokenMessage));
      nextCalls := 0;
    }
  }

  /** `optionalAuth(req, res, next)`: never answers, calls `next` once. */
  method OptionalAuth(req: Request, res: Response, verify: string -> Option<Claims>) returns (nextCalls: nat)
    modifies req
    ensures nextCalls == 1 && unchanged(res)
    ensures OptionalDecision(req.authorization, verify, old(req.user)) == Admit(req.user)
  {
    var authHeader := req.authorization;
    if authHeader.Some? && StartsWith(authHeader.value, BearerPrefix) {
      var token := TokenOf(authHeader.value);
      var decoded := verify(token);
      if decoded.Some? {
        req.user := decoded;
      }
    }
    nextCalls := 1;
  }
}
