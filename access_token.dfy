/**
 * The bearer-token gate in front of every todo route.  The token is the second
 * space-separated segment of the `Authorization` header (the scheme word, normally
 * `Bearer`, is never looked at).  The token verifier is an oracle from token text
 * to the decoded identity, `None` when it rejects.
 */
module AccessToken {
  import opened Results

  const NoTokenMessage := "Token no proporcionado"
  const BadTokenMessage := "Token inválido"

  /** The decoded token payload `{id, email}`. */
  datatype Identity = Identity(id: nat, email: string)

  /** The middleware either answers and stops, or attaches `req.user` and calls `next()`. */
  datatype Decision = Halt(status: nat, error: string) | Next(user: Identity)

  // ---------------------------------------------------------------------------
  // `String.prototype.split(' ')` and its inverse

  /** The segments joined back together with single spaces. */
  function Join(parts: seq<string>): string
    requires |parts| >= 1
  {
    if |parts| == 1 then parts[0] else parts[0] + " " + Join(parts[1..])
  }

  /** `s.split(' ')`: the maximal space-free segments, including empty ones. */
  function Split(s: string): (parts: seq<string>)
    ensures |parts| >= 1
    ensures forall p :: p in parts ==> ' ' !in p
    ensures Join(parts) == s
  {
    if s == [] then [""]
    else
      var rest := Split(s[1..]);
      if s[0] == ' ' then
        assert ([""] + rest)[1..] == rest;
        assert s == " " + s[1..];
        [""] + rest
      else
        var parts := [[s[0]] + rest[0]] + rest[1..];
        assert parts[1..] == rest[1..];
        assert s == [s[0]] + s[1..];
        parts
  }

  /** A space-free word followed by a space: the word is the first segment. */
  lemma {:induction false} SplitAfterWord(w: string, x: string)
    requires ' ' !in w
    ensures Split(w + " " + x) == [w] + Split(x)
  {
    if w != [] {
      SplitAfterWord(w[1..], x);
      assert (w + " " + x)[1..] == w[1..] + " " + x;
      assert [w[0]] + w[1..] == w;
    } else {
      assert (w + " " + x) == " " + x;
      assert (" " + x)[1..] == x;
    }
  }

  lemma SplitWord(w: string)
    requires ' ' !in w
    ensures Split(w) == [w]
  {
  }

  /** Splitting undoes joining space-free segments. */
  lemma {:induction false} SplitJoin(parts: seq<string>)
    requires |parts| >= 1
    requires forall p :: p in parts ==> ' ' !in p
    ensures Split(Join(parts)) == parts
  {
    if |parts| == 1 {
      SplitWord(parts[0]);
    } else {
      assert parts[0] in parts;
      assert forall p :: p in parts[1..] ==> p in parts;
      SplitJoin(parts[1..]);
      SplitAfterWord(parts[0], Join(parts[1..]));
    }
  }

  // ---------------------------------------------------------------------------
  // Token extraction

  /** `req.headers['authorization']?.split(' ')[1]`; `None` stands for `undefined`. */
  function ExtractToken(authorization: Option<string>): (token: Option<string>)
    ensures token.None? <==> authorization.None? || ' ' !in authorization.value
    ensures token.Some? ==> ' ' !in token.value
  {
    match authorization
    case None => None
    case Some(h) =>
      var parts := Split(h);
      if |parts| >= 2 then
        assert parts[1] in parts;
        assert h == parts[0] + " " + Join(parts[1..]);
        Some(parts[1])
      else
        assert h == parts[0] && parts[0] in parts;
        None
  }

  /**
   * Whatever the scheme word, the token is the segment after the first space,
   * up to the next space or the end of the header.
   */
  lemma SchemeIsIgnored(scheme: string, token: string, rest: string)
    requires ' ' !in scheme && ' ' !in token
    ensures ExtractToken(Some(scheme + " " + token)) == Some(token)
    ensures ExtractToken(Some(scheme + " " + token + " " + rest)) == Some(token)
  {
    SplitAfterWord(scheme, token);
    SplitWord(token);
    assert scheme + " " + token + " " + rest == scheme + " " + (token + " " + rest);
    SplitAfterWord(scheme, token + " " + rest);
    SplitAfterWord(token, rest);
  }

  /** `if (!token)`: `undefined` and the empty string are both falsy. */
  predicate Present(token: Option<string>) {
    token.Some? && token.value != ""
  }

  // ---------------------------------------------------------------------------
  // The middleware

  /** `accessTokenMiddleware(req, res, next)` as one decision. */
  function AccessTokenMiddleware(authorization: Option<string>, verify: string -> Option<Identity>)
    : (d: Decision)
    ensures d.Halt? ==> d.status in {401, 403}
    ensures d == Halt(401, NoTokenMessage) <==> !Present(ExtractToken(authorization))
    ensures d == Halt(403, BadTokenMessage) <==>
      Present(ExtractToken(authorization)) && verify(ExtractToken(authorization).value).None?
    ensures d.Next? <==>
      Present(ExtractToken(authorization)) && verify(ExtractToken(authorization).value).Some?
    ensures d.Next? ==> verify(ExtractToken(authorization).value) == Some(d.user)
  {
    var token := ExtractToken(authorization);
    if !Present(token) then Halt(401, NoTokenMessage)
    else
      match verify(token.value)
      case None => Halt(403, BadTokenMessage)
      case Some(decoded) => Next(decoded)
  }

  /**
   * The verifier is consulted on the extracted token only: two verifiers that agree
   * on it give the same decision, and when there is no token any two verifiers do.
   */
  lemma VerifierSeesOnlyTheToken(authorization: Option<string>,
                                 verify1: string -> Option<Identity>, verify2: string -> Option<Identity>)
    requires Present(ExtractToken(authorization)) ==>
      verify1(ExtractToken(authorization).value) == verify2(ExtractToken(authorization).value)
    ensures AccessTokenMiddleware(authorization, verify1) == AccessTokenMiddleware(authorization, verify2)
  {
  }

  /** A header with no space, or with nothing between its first two spaces, carries no token. */
  lemma {:induction false} MissingTokenIs401(authorization: Option<string>, verify: string -> Option<Identity>)
    requires authorization.None? || ' ' !in authorization.value
             || exists scheme, rest :: ' ' !in scheme && authorization.value == scheme + "  " + rest
    ensures AccessTokenMiddleware(authorization, verify) == Halt(401, NoTokenMessage)
  {
    if authorization.Some? && ' ' in authorization.value {
      var scheme, rest :| ' ' !in scheme && authorization.value == scheme + "  " + rest;
      assert authorization.value == scheme + " " + ("" + " " + rest);
      SplitAfterWord(scheme, "" + " " + rest);
      SplitAfterWord("", rest);
    }
  }
}
