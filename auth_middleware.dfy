/** The HTTP middleware guarding authenticated routes: it reads the `Authorization` header,
    expects `Bearer <token>`, has the token verified, and passes the user id it carries on
    to the next handler. Token verification (signature, expiry, secret) is an oracle. */
module AuthMiddleware {
  import opened Options
  import opened Strings

  /** A claim value: a string, or any other JSON value. */
  datatype Claim = Str(text: string) | NonString

  type Claims = map<string, Claim>

  /** What the middleware does with a request: reply with an error status and message, or
      hand the request on with the user id from the token. */
  datatype Outcome = Rejected(status: nat, message: string) | Passed(userId: string)

  const Unauthorized: nat := 401

  const HeaderRequired := "Authorization header required"
  const BadFormat := "Invalid authorization format"
  const InvalidToken := "Invalid token"
  const InvalidClaims := "Invalid token claims"

  const Scheme := "Bearer"

  /** A header of the form `Bearer <token>` where the token holds no space. */
  predicate BearerShape(header: string) {
    |header| >= 7 && header[..7] == Scheme + " " && ' ' !in header[7..]
  }

  /** The format check: splitting on " " gives exactly two pieces, the first "Bearer". */
  predicate FormatOk(header: string) {
    var parts := Split(header, " ");
    |parts| == 2 && parts[0] == Scheme
  }

  /** The format check passes exactly for `Bearer <token>` with a space-free token, and the
      second piece is then the text after the space. */
  lemma FormatCharacterized(header: string)
    ensures FormatOk(header) <==> BearerShape(header)
    ensures FormatOk(header) ==> Split(header, " ")[1] == header[7..]
  {
    var parts := Split(header, " ");
    if FormatOk(header) {
      SplitJoin(header, " ");
      SplitPiecesWithoutSeparator(header, ' ');
      assert Join(parts[1..], " ") == parts[1];
      assert header == Scheme + " " + parts[1];
      assert header[..7] == Scheme + " " && header[7..] == parts[1];
    }
    if BearerShape(header) {
      var t := header[7..];
      assert header == Scheme + " " + t;
      NoCharOccurrence(Scheme, ' ', " " + t);
      assert Scheme + " " + t == Scheme + (" " + t);
      SplitAtFirst(Scheme, " ", t);
      NoCharOccurrence(t, ' ', "");
      assert t + "" == t;
      SplitWithout(t, " ");
    }
  }

  /** `Auth`: the checks in order, the first failure deciding the reply. `verify` stands for
      parsing and validating the token: `None` when it is rejected, else its claims. */
  function Authenticate(header: string, verify: string -> Option<Claims>): (r: Outcome)
    ensures r.Rejected? ==> r.status == Unauthorized
    ensures header == "" ==> r == Rejected(Unauthorized, HeaderRequired)
    ensures header != "" && !BearerShape(header) ==> r == Rejected(Unauthorized, BadFormat)
    ensures BearerShape(header) && verify(header[7..]).None? ==> r == Rejected(Unauthorized, InvalidToken)
    ensures BearerShape(header) && verify(header[7..]).Some? && !UserIdClaim(verify(header[7..]).value).Some? ==>
      r == Rejected(Unauthorized, InvalidClaims)
    ensures r.Passed? <==> BearerShape(header) && verify(header[7..]).Some? && UserIdClaim(verify(header[7..]).value).Some?
    ensures r.Passed? ==> Some(r.userId) == UserIdClaim(verify(header[7..]).value)
  {
    FormatCharacterized(header);
    if header == "" then Rejected(Unauthorized, HeaderRequired)
    else
      var parts := Split(header, " ");
      if |parts| != 2 || parts[0] != Scheme then Rejected(Unauthorized, BadFormat)
      else
        match verify(parts[1])
        case None => Rejected(Unauthorized, InvalidToken)
        case Some(claims) =>
          match UserIdClaim(claims)
          case None => Rejected(Unauthorized, InvalidClaims)
          case Some(id) => Passed(id)
  }

  /** `claims["user_id"].(string)`: present and a string. */
  function UserIdClaim(claims: Claims): (r: Option<string>)
    ensures r.Some? <==> "user_id" in claims && claims["user_id"].Str?
    ensures r.Some? ==> r.value == claims["user_id"].text
  {
    if "user_id" in claims && claims["user_id"].Str? then Some(claims["user_id"].text) else None
  }

  /** Only the text after the space reaches the verifier: two verifiers that agree on it
      give the same outcome. */
  lemma OnlyTokenIsVerified(header: string, v1: string -> Option<Claims>, v2: string -> Option<Claims>)
    requires BearerShape(header) && v1(header[7..]) == v2(header[7..])
    ensures Authenticate(header, v1) == Authenticate(header, v2)
  {
  }

  /** Headers the format check refuses: no token, a token with a space, a doubled space,
      and a lower-case scheme. */
  lemma FormatRejections()
    ensures !FormatOk("Bearer") && !FormatOk("Bearer a b") && !FormatOk("Bearer  x") && !FormatOk("bearer x")
  {
    FormatCharacterized("Bearer");
    RejectedBySpace("Bearer a b", 8);
    RejectedBySpace("Bearer  x", 7);
    FormatCharacterized("bearer x");
    assert "bearer x"[..7][0] != (Scheme + " ")[0];
  }

  lemma RejectedBySpace(header: string, k: nat)
    requires 7 <= k < |header| && header[k] == ' '
    ensures !FormatOk(header)
  {
    FormatCharacterized(header);
    assert header[7..][k - 7] == ' ';
  }

  /** "Bearer " passes the format check with an empty token. */
  lemma EmptyTokenPassesFormat()
    ensures FormatOk("Bearer ") && Split("Bearer ", " ")[1] == ""
  {
    FormatCharacterized("Bearer ");
    assert "Bearer "[..7] == Scheme + " ";
  }
}
