/*
  The bearer-token guard of middleware/authMiddleware.js. The header is taken as given
  (`None` when the request has no Authorization header), and the JWT check is the function
  `verify`, which yields the decoded payload or `None` where `jwt.verify` throws.
*/
module AuthMiddleware {
  import opened Outcomes
  import opened JsStrings

  const Bearer: string := "Bearer "
  const NoToken: string := "Access Denied! No token provided."
  const BadFormat: string := "Access Denied! Invalid token format."
  const InvalidToken: string := "Invalid Token"

  /** What the middleware does with a request: answer 401 with a message, or attach the
      decoded payload as `req.user` and hand the request on to `next`. */
  datatype Outcome<Payload> = Denied(message: string) | Passed(user: Payload)

  /** The status the middleware itself answers with; `None` when it sends no response and
      leaves the answer to the next handler. */
  function Status<Payload>(o: Outcome<Payload>): Option<nat> {
    if o.Denied? then Some(401) else None
  }

  /** How many times `next` is called. */
  function NextCalls<Payload>(o: Outcome<Payload>): nat {
    if o.Passed? then 1 else 0
  }

  /** `authHeader.replace('Bearer ', '')` (line 11): the first occurrence of `Bearer `,
      wherever it is, is cut out; a header without one is kept whole. */
  function Token(header: string): (t: string)
    ensures !Contains(header, Bearer) ==> t == header
    ensures Contains(header, Bearer) ==>
      var i := IndexOf(header, Bearer);
      OccursAt(header, Bearer, i) && t == header[..i] + header[i + |Bearer|..] && |t| == |header| - |Bearer|
  {
    ReplaceFirst(header, Bearer, "")
  }

  /** authMiddleware (lines 3-24). The request passes exactly when a non-empty header
      yields a non-empty token that verifies, and then `req.user` is that token's payload
      and `next` runs once with no response sent; every other request is answered 401 without calling `next`. */
  function Authenticate<Payload>(header: Option<string>, verify: string -> Option<Payload>): (o: Outcome<Payload>)
    ensures o.Passed? <==> Given(header) && Token(header.value) != "" && verify(Token(header.value)).Some?
    ensures o.Passed? ==> o.user == verify(Token(header.value)).value && NextCalls(o) == 1 && Status(o) == None
    ensures o.Denied? ==> NextCalls(o) == 0 && Status(o) == Some(401)
    ensures o.Denied? ==> o.message in {NoToken, BadFormat, InvalidToken}
  {
    if !Given(header) then Denied(NoToken)
    else
      var token := Token(header.value);
      if token == "" then Denied(BadFormat)
      else match verify(token)
        case None => Denied(InvalidToken)
        case Some(payload) => Passed(payload)
  }

  // ------------------------------------------------------------------ properties

  /** A missing or empty header is refused before any token is looked at (lines 6-8). */
  lemma MissingHeader<Payload>(header: Option<string>, verify: string -> Option<Payload>)
    requires header.None? || header.value == ""
    ensures Authenticate(header, verify) == Denied(NoToken)
    ensures NextCalls(Authenticate(header, verify)) == 0
  {
  }

  /** `Bearer <token>` yields `<token>`. */
  lemma StripsPrefix(token: string)
    ensures Token(Bearer + token) == token
  {
    ReplaceAfter("", Bearer, token, "");
    assert "" + Bearer + token == Bearer + token;
  }

  /** `Bearer ` is cut out wherever it first occurs, not only at the front: text before it
      that holds no `B` is kept. */
  lemma StripsInside(before: string, after: string)
    requires 'B' !in before
    ensures Token(before + Bearer + after) == before + after
  {
    ReplaceAfter(before, Bearer, after, "");
  }

  /** A header that is exactly `Bearer ` leaves an empty token: 401 "Invalid token format"
      (lines 13-15). */
  lemma BareBearer<Payload>(verify: string -> Option<Payload>)
    ensures Authenticate(Some(Bearer), verify) == Denied(BadFormat)
  {
    StripsPrefix("");
    assert Bearer + "" == Bearer;
  }

  /** A well-formed header whose token verifies passes with that token's payload; one whose
      token does not verify is answered "Invalid Token" (lines 17-23). */
  lemma BearerHeader<Payload>(token: string, verify: string -> Option<Payload>)
    requires token != ""
    ensures verify(token).Some? ==> Authenticate(Some(Bearer + token), verify) == Passed(verify(token).value)
    ensures verify(token).None? ==> Authenticate(Some(Bearer + token), verify) == Denied(InvalidToken)
  {
    StripsPrefix(token);
  }

  /** A header without `Bearer ` is verified as it stands. */
  lemma NoPrefix<Payload>(header: string, verify: string -> Option<Payload>)
    requires header != "" && !Contains(header, Bearer)
    ensures Authenticate(Some(header), verify) == (if verify(header).Some? then Passed(verify(header).value) else Denied(InvalidToken))
  {
  }
}
