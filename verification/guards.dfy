/**
 The two HTTP guards. Both read an `Authorization: Bearer <token>` header,
 have the token verified, and map every failure inside the verification
 step to Unauthorized 'WRONG_TOKEN' unless it already carries status 403.
 The admin guard also looks the user up and requires the ADMIN role. Token
 verification is an oracle: `verify(token)` is the `userId` the token
 carries, or `None` when verification throws.
 */
module Guards {
  import opened Wrappers

  // ----- `String.prototype.split(' ')` -----

  predicate NoSpace(s: string) {
    forall i :: 0 <= i < |s| ==> s[i] != ' '
  }

  /** The position of the first space. */
  function IndexOfSpace(s: string): (r: Option<nat>)
    ensures r.None? <==> NoSpace(s)
    ensures r.Some? ==> r.value < |s| && s[r.value] == ' ' && NoSpace(s[..r.value])
  {
    if s == [] then None
    else if s[0] == ' ' then Some(0)
    else match IndexOfSpace(s[1..])
      case None => None
      case Some(k) =>
        assert s[..k + 1] == [s[0]] + s[1..][..k];
        Some(k + 1)
  }

  /** `s.split(' ')`: the pieces between single spaces; consecutive spaces give empty pieces. */
  function Split(s: string): (r: seq<string>)
    ensures |r| >= 1
    ensures forall k :: 0 <= k < |r| ==> NoSpace(r[k])
    decreases |s|
  {
    match IndexOfSpace(s)
    case None => [s]
    case Some(i) => [s[..i]] + Split(s[i + 1..])
  }

  /** `pieces.join(' ')`. */
  function Join(pieces: seq<string>): string
    requires |pieces| >= 1
  {
    if |pieces| == 1 then pieces[0] else pieces[0] + " " + Join(pieces[1..])
  }

  /** Joining the pieces gives the string back. */
  lemma {:induction false} JoinSplit(s: string)
    ensures Join(Split(s)) == s
    decreases |s|
  {
    match IndexOfSpace(s)
    case None =>
    case Some(i) =>
      var pieces := Split(s);
      assert pieces == [s[..i]] + Split(s[i + 1..]);
      assert pieces[0] == s[..i] && pieces[1..] == Split(s[i + 1..]);
      JoinSplit(s[i + 1..]);
      assert Join(pieces) == s[..i] + " " + s[i + 1..];
      assert s == s[..i] + " " + s[i + 1..];
  }

  /** Splitting a join of space-free pieces gives the pieces back. */
  lemma {:induction false} SplitJoin(pieces: seq<string>)
    requires |pieces| >= 1 && forall k :: 0 <= k < |pieces| ==> NoSpace(pieces[k])
    ensures Split(Join(pieces)) == pieces
    decreases |pieces|
  {
    if |pieces| > 1 {
      var s := Join(pieces);
      var p := pieces[0];
      var rest := Join(pieces[1..]);
      assert s == p + " " + rest;
      assert s[..|p|] == p && s[|p|] == ' ';
      IndexOfSpaceAfter(p, rest);
      assert s[|p| + 1..] == rest;
      SplitJoin(pieces[1..]);
    }
  }

  lemma IndexOfSpaceAfter(p: string, rest: string)
    requires NoSpace(p)
    ensures IndexOfSpace(p + " " + rest) == Some(|p|)
  {
    var s := p + " " + rest;
    var r := IndexOfSpace(s);
    assert s[|p|] == ' ';
    assert forall i :: 0 <= i < |p| ==> s[i] == p[i];
  }

  // ----- header parsing -----

  const TokenNotProvided := "TOKEN_NOT_PROVIDED"
  const WrongToken := "WRONG_TOKEN"

  /**
   The header check both guards share: the header must be present and
   non-empty, its first space-separated piece must be 'Bearer', and its
   second must be non-empty and not the text 'undefined'. Pieces after the
   second are ignored.
   */
  function ParseBearer(header: Option<string>): (r: Result<string>)
    ensures header.None? || header == Some("") ==> r == Failure(Forbidden(TokenNotProvided))
    ensures r.Failure? ==> r == Failure(Forbidden(TokenNotProvided))
    ensures r.Success? <==>
      && header.Some? && header.value != ""
      && var pieces := Split(header.value);
      && pieces[0] == "Bearer" && |pieces| >= 2 && pieces[1] != "" && pieces[1] != "undefined"
    ensures r.Success? ==> r.value == Split(header.value)[1] && NoSpace(r.value)
  {
    if header.None? || header.value == "" then Failure(Forbidden(TokenNotProvided))
    else
      var pieces := Split(header.value);
      if pieces[0] != "Bearer" || |pieces| < 2 || pieces[1] == "" || pieces[1] == "undefined" then
        Failure(Forbidden(TokenNotProvided))
      else Success(pieces[1])
  }

  /** 'Bearer', a space and a token, followed by nothing or by a space and anything, gives that token. */
  lemma BearerAccepted(token: string, rest: string)
    requires token != "" && token != "undefined" && NoSpace(token)
    requires rest == "" || rest[0] == ' '
    ensures ParseBearer(Some("Bearer " + token + rest)) == Success(token)
  {
    var h := "Bearer " + token + rest;
    SplitAfterBearer(token + rest);
    assert h == "Bearer " + (token + rest);
    FirstPiece(token, rest);
  }

  lemma SplitAfterBearer(x: string)
    ensures Split("Bearer " + x) == ["Bearer"] + Split(x)
  {
    var h := "Bearer " + x;
    assert h == "Bearer" + " " + x;
    IndexOfSpaceAfter("Bearer", x);
    assert h[..6] == "Bearer" && h[7..] == x;
  }

  lemma FirstPiece(token: string, rest: string)
    requires NoSpace(token)
    requires rest == "" || rest[0] == ' '
    ensures Split(token + rest)[0] == token
  {
    if rest == "" {
      assert token + rest == token;
    } else {
      assert token + rest == token + " " + rest[1..];
      IndexOfSpaceAfter(token, rest[1..]);
    }
  }

  /** Two spaces after 'Bearer' leave an empty second piece, and the header is refused. */
  lemma DoubleSpaceRefused(token: string)
    requires NoSpace(token)
    ensures ParseBearer(Some("Bearer  " + token)) == Failure(Forbidden(TokenNotProvided))
  {
    var pieces := ["Bearer", "", token];
    assert NoSpace(pieces[0]);
    SplitJoin(pieces);
    assert pieces[1..] == ["", token] && pieces[1..][1..] == [token];
    assert Join(pieces[1..]) == " " + token;
    assert Join(pieces) == "Bearer  " + token;
  }

  /** The catch block: an error with status 403 is rethrown, anything else becomes WRONG_TOKEN. */
  function CatchMap(e: HttpError): (r: HttpError)
    ensures e.Status() == 403 ==> r == e
    ensures e.Status() != 403 ==> r == Unauthorized(WrongToken)
  {
    if e.Status() == 403 then e else Unauthorized(WrongToken)
  }

  /** What a throwing `jwtService.verify` raises: no HTTP status. */
  const VerifyFailed := "invalid token"

  /**
   `JwtAuthGuard.canActivate`: the header check, then verification; on
   success the request's user is `{ id: userId }`.
   */
  function AuthGuard(header: Option<string>, verify: string -> Option<string>): (r: Result<string>)
    ensures ParseBearer(header).Failure? ==> r == Failure(Forbidden(TokenNotProvided))
    ensures ParseBearer(header).Success? && verify(ParseBearer(header).value).None? ==> r == Failure(Unauthorized(WrongToken))
    ensures r.Success? <==> ParseBearer(header).Success? && verify(ParseBearer(header).value).Some?
    ensures r.Success? ==> r.value == verify(ParseBearer(header).value).value
  {
    var token :- ParseBearer(header);
    match verify(token)
    case None => Failure(CatchMap(Plain(VerifyFailed)))
    case Some(userId) => Success(userId)
  }

  const AdminRole := "ADMIN"

  /**
   `AdminGuard.canActivate`: as the plain guard, then the user is looked
   up; an unknown user (reading `role` of null throws without a status) is
   WRONG_TOKEN, and a user whose role is not ADMIN is Forbidden
   'USER_NOT_ADMIN', which the catch passes through. `roles` maps user ids
   to their role.
   */
  function AdminGuard(header: Option<string>, verify: string -> Option<string>, roles: map<string, string>)
    : (r: Result<string>)
    ensures ParseBearer(header).Failure? ==> r == Failure(Forbidden(TokenNotProvided))
    ensures r.Success? <==> AuthGuard(header, verify).Success? && AuthGuard(header, verify).value in roles
                            && roles[AuthGuard(header, verify).value] == AdminRole
    ensures r.Success? ==> r == AuthGuard(header, verify)
    ensures (AuthGuard(header, verify).Success? && AuthGuard(header, verify).value in roles
             && roles[AuthGuard(header, verify).value] != AdminRole) ==> r == Failure(Forbidden("USER_NOT_ADMIN"))
    ensures ParseBearer(header).Success? && r.Failure? ==>
      r.error == Forbidden("USER_NOT_ADMIN") || r.error == Unauthorized(WrongToken)
  {
    var token :- ParseBearer(header);
    match verify(token)
    case None => Failure(CatchMap(Plain(VerifyFailed)))
    case Some(userId) =>
      if userId !in roles then Failure(CatchMap(Plain("Cannot read properties of null (reading 'role')")))
      else if roles[userId] != AdminRole then Failure(CatchMap(Forbidden("USER_NOT_ADMIN")))
      else Success(userId)
  }

  /** Whatever the admin guard lets through, the plain guard lets through with the same user. */
  lemma AdminImpliesAuth(header: Option<string>, verify: string -> Option<string>, roles: map<string, string>)
    requires AdminGuard(header, verify, roles).Success?
    ensures AuthGuard(header, verify) == AdminGuard(header, verify, roles)
  {
  }

  /** The two guards refuse a bad header with the same error. */
  lemma SameHeaderRules(header: Option<string>, verify: string -> Option<string>, roles: map<string, string>)
    requires ParseBearer(header).Failure?
    ensures AuthGuard(header, verify) == AdminGuard(header, verify, roles) == Failure(Forbidden(TokenNotProvided))
  {
  }
}
