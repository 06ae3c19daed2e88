/** The bearer-token gate in front of the protected routes: the token is
    read from the `Authorization` header, verified, and its identity stored
    on the request. Signing and verification are kept abstract as a pair of
    functions bound to the process-wide secret. */
module AuthGate {
  import opened JsValues

  /** The claims login signs: `{id: user._id, email}`. */
  datatype Payload = Payload(id: ObjectId, email: string)

  /** `req.user` as the gate sets it. */
  datatype Identity = Identity(id: ObjectId, email: string)

  /** `jwt.sign(payload, secret)` and `jwt.verify(token, secret)` with the
      secret fixed; `verify` yields None for a token it rejects. */
  datatype Jwt = Jwt(sign: Payload -> string, verify: string -> Option<Payload>)

  /** The documented contract of the signer: a signed token verifies to the
      payload it was made from, and is a non-empty word without spaces. */
  ghost predicate Sound(jwt: Jwt)
  {
    forall p :: jwt.verify(jwt.sign(p)) == Some(p) && jwt.sign(p) != [] && ' ' !in jwt.sign(p)
  }

  /** The text before the first space (all of it when there is none): the
      first field of `split(" ")`. */
  function Word(s: string): (w: string)
    ensures |w| <= |s| && w == s[..|w|]
    ensures ' ' !in w
    ensures |w| < |s| ==> s[|w|] == ' '
  {
    if s == [] || s[0] == ' ' then [] else [s[0]] + Word(s[1..])
  }

  /** `header.split(" ")[1]`: the text between the first and the second
      space, or None (`undefined`) when the header has no space. */
  function SecondWord(header: string): (r: Option<string>)
    ensures r.None? <==> ' ' !in header
    ensures r.Some? ==> ' ' !in r.value
  {
    var w := Word(header);
    if |w| == |header| then None else Some(Word(header[|w| + 1..]))
  }

  /** The first field is exactly the space-free prefix that a space (or the
      end) follows. */
  lemma {:induction false} WordOf(a: string, rest: string)
    requires ' ' !in a && (rest == [] || rest[0] == ' ')
    ensures Word(a + rest) == a
  {
    if a != [] {
      assert a[0] in a;
      assert (a + rest)[1..] == a[1..] + rest;
      WordOf(a[1..], rest);
    }
  }

  /** The token is the second space-separated field, whatever the first is:
      the scheme word is not checked, and later fields are ignored. */
  lemma SecondWordOf(scheme: string, token: string, rest: string)
    requires ' ' !in scheme && ' ' !in token && (rest == [] || rest[0] == ' ')
    ensures SecondWord(scheme + " " + token + rest) == Some(token)
  {
    var h := scheme + " " + token + rest;
    WordOf(scheme, " " + token + rest);
    assert h == scheme + (" " + token + rest);
    assert h[|scheme| + 1..] == token + rest;
    WordOf(token, rest);
  }

  /** A header with no space carries no token. */
  lemma NoSpaceNoToken(header: string)
    requires ' ' !in header
    ensures SecondWord(header).None?
  {
    WordOf(header, []);
    assert header + [] == header;
  }

  /** `jwt.verify` refuses an absent or empty token ("jwt must be provided")
      before it looks at the signature. */
  function VerifyToken(jwt: Jwt, token: Option<string>): (r: Option<Payload>)
    ensures token.None? || token.value == [] ==> r.None?
  {
    if token.None? || token.value == [] then None else jwt.verify(token.value)
  }

  datatype GateOutcome = Unauthorized | Forbidden | Proceed(identity: Identity)

  /** The decision of `authenticateJWT`, with a failed verification ending the request. */
  function Gate(authorization: Option<string>, jwt: Jwt): (o: GateOutcome)
    ensures o.Unauthorized? <==> Falsy(authorization)
    ensures o.Forbidden? <==> !Falsy(authorization) && VerifyToken(jwt, SecondWord(authorization.value)).None?
    ensures o.Proceed? ==> VerifyToken(jwt, SecondWord(authorization.value)) == Some(Payload(o.identity.id, o.identity.email))
  {
    if Falsy(authorization) then Unauthorized
    else match VerifyToken(jwt, SecondWord(authorization.value))
      case None => Forbidden
      case Some(p) => Proceed(Identity(p.id, p.email))
  }

  /** Only the token is looked at: any space-free scheme word gives the same
      outcome as `Bearer`. */
  lemma SchemeIgnored(scheme: string, token: string, jwt: Jwt)
    requires ' ' !in scheme && ' ' !in token
    ensures Gate(Some(scheme + " " + token), jwt) == Gate(Some("Bearer " + token), jwt)
  {
    SecondWordOf(scheme, token, []);
    SecondWordOf("Bearer", token, []);
    assert scheme + " " + token + [] == scheme + " " + token;
    assert "Bearer" + " " + token + [] == "Bearer " + token;
  }

  /** A non-empty header without a space has no token and is forbidden. */
  lemma MissingTokenForbidden(header: string, jwt: Jwt)
    requires header != [] && ' ' !in header
    ensures Gate(Some(header), jwt) == Forbidden
  {
    NoSpaceNoToken(header);
  }

  /** The token login hands out passes the gate and yields the identity it
      was signed with. */
  lemma SignedTokenAccepted(jwt: Jwt, p: Payload, scheme: string)
    requires Sound(jwt) && ' ' !in scheme
    ensures Gate(Some(scheme + " " + jwt.sign(p)), jwt) == Proceed(Identity(p.id, p.email))
  {
    var t := jwt.sign(p);
    SecondWordOf(scheme, t, []);
    assert scheme + " " + t + [] == scheme + " " + t;
  }

  /** An HTTP request as the middleware sees it. */
  class Request {
    const authorization: Option<string>
    var user: Option<Identity>

    constructor (authorization: Option<string>)
      ensures this.authorization == authorization && user.None?
    {
      this.authorization := authorization;
      user := None;
    }
  }

  /** `authenticateJWT`: answers 401 or 403 and stops, or sets `req.user`
      and lets the handler run. */
  method AuthenticateJwt(req: Request, jwt: Jwt) returns (o: GateOutcome)
    modifies req
    ensures o == Gate(req.authorization, jwt)
    ensures o.Proceed? ==> req.user == Some(o.identity)
    ensures !o.Proceed? ==> req.user == old(req.user)
  {
    var header := req.authorization;
    if Falsy(header) {
      return Unauthorized;
    }
    var token := SecondWord(header.value);
    var decoded := VerifyToken(jwt, token);
    if decoded.None? {
      return Forbidden;
    }
    req.user := Some(Identity(decoded.value.id, decoded.value.email));
    o := Proceed(req.user.value);
  }

  /** What the middleware does, in order. */
  datatype Step = SendStatus(code: int) | SetUser(identity: Identity) | CallNext | TypeError

  /** The middleware as written: after `res.sendStatus(403)` it does not
      return, and reading `decoded.id` from the absent payload throws. */
  function GateStepsAsWritten(authorization: Option<string>, jwt: Jwt): seq<Step>
  {
    if Falsy(authorization) then [SendStatus(401)]
    else match VerifyToken(jwt, SecondWord(authorization.value))
      case None => [SendStatus(403), TypeError]
      case Some(p) => [SetUser(Identity(p.id, p.email)), CallNext]
  }

  /** The steps of the corrected gate: every rejection is a single terminal step. */
  function GateSteps(o: GateOutcome): (steps: seq<Step>)
    ensures CallNext in steps <==> o.Proceed?
    ensures !o.Proceed? ==> |steps| == 1 && steps[0].SendStatus?
  {
    match o
    case Unauthorized => [SendStatus(401)]
    case Forbidden => [SendStatus(403)]
    case Proceed(i) => [SetUser(i), CallNext]
  }

  /** As written, a rejected token is answered with 403 and the middleware
      then goes on to a fault; the corrected gate stops at the 403, and the
      two agree on every other request. */
  lemma AsWrittenRunsPastForbidden(authorization: Option<string>, jwt: Jwt)
    ensures Gate(authorization, jwt).Forbidden? ==>
      GateStepsAsWritten(authorization, jwt) == [SendStatus(403), TypeError]
      && GateSteps(Gate(authorization, jwt)) == [SendStatus(403)]
    ensures !Gate(authorization, jwt).Forbidden? ==>
      GateStepsAsWritten(authorization, jwt) == GateSteps(Gate(authorization, jwt))
  {
  }

  /** A concrete request that shows it: a forged token under a verifier that
      rejects it. */
  lemma ForgedTokenExample()
    ensures var jwt := Jwt(p => "signed", t => None);
      GateStepsAsWritten(Some("Bearer forged"), jwt) == [SendStatus(403), TypeError]
  {
    var jwt := Jwt(p => "signed", t => None);
    SecondWordOf("Bearer", "forged", []);
    assert "Bearer" + " " + "forged" + [] == "Bearer forged";
  }
}
