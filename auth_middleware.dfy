/** The two authentication middlewares: the bearer token is taken from the `Authorization`
    header, verified, and the request either carries the user on to the next handler or is
    answered with 401. */
module AuthMiddleware {
  import opened Wrappers
  import opened Strings
  import opened Models
  import opened Http
  import opened AuthService

  /** `authHeader && authHeader.split(' ')[1]`, kept only when truthy: the second piece of the
      header split at single spaces. The first piece, the scheme, is never looked at. */
  function ExtractToken(header: Option<string>): (token: Option<string>)
    ensures token.Some? ==> token.value != "" && ' ' !in token.value
    ensures header.None? || header.value == "" ==> token.None?
  {
    if header.None? || header.value == "" then None
    else
      var parts := SplitOnSpace(header.value);
      if |parts| >= 2 && parts[1] != "" then Some(parts[1]) else None
  }

  /** Any one-word scheme, `Bearer` or not, followed by a space and a token, yields the token;
      whatever follows a second space is ignored. */
  lemma TokenAfterAnyScheme(scheme: string, token: string, rest: string)
    requires ' ' !in scheme && ' ' !in token && token != ""
    ensures ExtractToken(Some(scheme + " " + token)) == Some(token)
    ensures ExtractToken(Some(scheme + " " + token + " " + rest)) == Some(token)
  {
    SplitAfterWord(scheme, token);
    assert IndexOfSpace(token).None?;
    assert SplitOnSpace(token) == [token];
    assert scheme + " " + token + " " + rest == scheme + " " + (token + " " + rest);
    SplitAfterWord(scheme, token + " " + rest);
    SplitAfterWord(token, rest);
  }

  /** Splitting a word, a space and more gives the word, then the pieces of the rest. */
  lemma SplitAfterWord(word: string, rest: string)
    requires ' ' !in word
    ensures SplitOnSpace(word + " " + rest) == [word] + SplitOnSpace(rest)
  {
    var s := word + " " + rest;
    IndexAfterWord(word, rest);
    assert s[..|word|] == word;
    assert s[|word| + 1..] == rest;
  }

  /** The first space after a word without spaces is the one that ends it. */
  lemma {:induction false} IndexAfterWord(word: string, rest: string)
    requires ' ' !in word
    ensures IndexOfSpace(word + " " + rest) == Some(|word|)
  {
    if word != [] {
      assert word[0] in word;
      assert (word + " " + rest)[1..] == word[1..] + " " + rest;
      assert forall c :: c in word[1..] ==> c in word;
      IndexAfterWord(word[1..], rest);
    }
  }

  /** A header without a space carries no token. */
  lemma NoSpaceNoToken(header: string)
    requires ' ' !in header
    ensures ExtractToken(Some(header)).None?
  {
    assert IndexOfSpace(header).None?;
  }

  /** The request as the middleware sees it: the header it came with, the user it attaches,
      how often it handed the request on, and the response it sent, if any. */
  class AuthRequest {
    const header: Option<string>
    var user: Option<PublicUser>
    var nextCalls: nat
    var sent: Option<Response<PublicUser>>

    constructor(header: Option<string>)
      ensures this.header == header && user.None? && nextCalls == 0 && sent.None?
    {
      this.header := header;
      user := None;
      nextCalls := 0;
      sent := None;
    }

    /** `authenticateToken`: a missing token and a refused token are answered with 401 and
        stop the request; a verified token attaches the user and calls `next` once. */
    method AuthenticateToken(users: seq<UserRow>, c: Crypto)
      modifies this
      ensures ExtractToken(header).None? ==>
        && sent == Some(Refuse(401, "Access token required"))
        && user == old(user) && nextCalls == old(nextCalls)
      ensures ExtractToken(header).Some? ==>
        var result := VerifyToken(users, ExtractToken(header).value, c);
        && (!result.success ==>
              && sent == Some(Refuse(401, if result.message.Some? && result.message.value != ""
                                          then result.message.value else "Invalid token"))
              && user == old(user) && nextCalls == old(nextCalls))
        && (result.success ==>
              user == result.data && nextCalls == old(nextCalls) + 1 && sent == old(sent))
    {
      var token := ExtractToken(header);
      if token.None? {
        sent := Some(Refuse(401, "Access token required"));
        return;
      }
      var result := VerifyToken(users, token.value, c);
      if !result.success {
        var message := if result.message.Some? && result.message.value != "" then result.message.value else "Invalid token";
        sent := Some(Refuse(401, message));
        return;
      }
      user := result.data;
      nextCalls := nextCalls + 1;
    }

    /** `optionalAuth`: the request always goes on, with the user attached only when a
        token is present and verifies. */
    method OptionalAuth(users: seq<UserRow>, c: Crypto)
      modifies this
      ensures nextCalls == old(nextCalls) + 1 && sent == old(sent)
      ensures
        var token := ExtractToken(header);
        if token.Some? && VerifyToken(users, token.value, c).success
        then user == VerifyToken(users, token.value, c).data
        else user == old(user)
    {
      var token := ExtractToken(header);
      if token.Some? {
        var result := VerifyToken(users, token.value, c);
        if result.success {
          user := result.data;
        }
      }
      nextCalls := nextCalls + 1;
    }
  }

  /** A request whose header carries, after any one-word scheme, a token generated for a
      stored user is authenticated as that user. */
  lemma SignedHeaderAuthenticates(users: seq<UserRow>, next: int, u: UserRow, c: Crypto, scheme: string)
    requires Sound(c) && UsersValid(users, next) && u in users
    requires ' ' !in scheme && ' ' !in GenerateToken(c, u.id) && GenerateToken(c, u.id) != ""
    ensures
      var token := ExtractToken(Some(scheme + " " + GenerateToken(c, u.id)));
      token.Some? && VerifyToken(users, token.value, c) == ServiceResult(true, Some(PublicOf(u)), None)
  {
    TokenAfterAnyScheme(scheme, GenerateToken(c, u.id), "");
    GeneratedTokenVerifies(users, next, u, c);
  }
}
