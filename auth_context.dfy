/** The client's sign-in state: the signed-in user, the token in memory and the token kept
    in browser storage, with the token check on start, login, registration, logout and
    profile merging. The server's answers are handed to each operation as the outcome of
    its request. */
module AuthContext {
  import opened Wrappers
  import opened Models
  import opened Http
  import opened ApiClient
  import opened AuthService
  import AuthRoutes

  const LoginFailed := "Login failed. Please try again."
  const RegistrationFailed := "Registration failed. Please try again."

  /** What `login` and `register` resolve to: whether the user is now signed in, and the
      text to show. */
  datatype AuthAnswer = AuthAnswer(success: bool, message: Option<string>)

  /** The answer of `login` or `register` for an outcome: the server's message when it
      answered, the fixed text when the request threw. */
  function AnswerOf(outcome: ApiOutcome<Session>, failText: string): (a: AuthAnswer)
    ensures a.success <==> Delivered(outcome)
    ensures outcome.Returned? ==> a.message == outcome.body.message
    ensures outcome.Thrown? ==> a.message == Some(failText)
  {
    match outcome
    case Returned(body) => AuthAnswer(body.success && body.data.Some?, body.message)
    case Thrown(_) => AuthAnswer(false, Some(failText))
  }

  /** A login the server refuses never shows the server's reason: the refusal is not a 2xx
      answer, its text is under `message` rather than `error`, so the request throws the
      generic text and the user reads the fixed one. */
  lemma RefusedLoginShowsFixedText(users: seq<UserRow>, b: AuthRoutes.LoginBody, c: Crypto)
    requires !AuthRoutes.PostLogin(users, b, c).success
    ensures AnswerOf(ApiRequest(AuthRoutes.PostLogin(users, b, c)), LoginFailed) == AuthAnswer(false, Some(LoginFailed))
  {
    var resp := AuthRoutes.PostLogin(users, b, c);
    assert !IsOk(resp.status) && resp.error.None?;
  }

  /** An accepted login reaches the client with the user and token the server issued. */
  lemma AcceptedLoginSignsIn(users: seq<UserRow>, b: AuthRoutes.LoginBody, c: Crypto)
    requires AuthRoutes.PostLogin(users, b, c).success
    ensures
      var o := ApiRequest(AuthRoutes.PostLogin(users, b, c));
      && Delivered(o) && AnswerOf(o, LoginFailed) == AuthAnswer(true, Some("Login successful"))
  {
  }

  /** `Partial<AuthUser>`: `None` is a key that is not given. */
  datatype UserPatch = UserPatch(
    id: Option<int>, username: Option<string>, email: Option<string>, name: Option<string>, avatar: Option<string>)

  /** `{ ...user, ...userData }`. */
  function Merged(u: PublicUser, p: UserPatch): (r: PublicUser)
    ensures p.id.None? ==> r.id == u.id
    ensures p.username.None? ==> r.username == u.username
    ensures p.email.None? ==> r.email == u.email
    ensures p.name.None? ==> r.name == u.name
    ensures p.avatar.None? ==> r.avatar == u.avatar
    ensures p.id.Some? ==> r.id == p.id.value
    ensures p.username.Some? ==> r.username == p.username.value
    ensures p.email.Some? ==> r.email == p.email.value
    ensures p.name.Some? ==> r.name == p.name.value
    ensures p.avatar.Some? ==> r.avatar == p.avatar
  {
    PublicUser(p.id.GetOr(u.id), p.username.GetOr(u.username), p.name.GetOr(u.name), p.email.GetOr(u.email),
               if p.avatar.Some? then p.avatar else u.avatar)
  }

  /** An empty patch changes nothing, and merging the same patch twice is merging it once. */
  lemma MergeLaws(u: PublicUser, p: UserPatch)
    ensures Merged(u, UserPatch(None, None, None, None, None)) == u
    ensures Merged(Merged(u, p), p) == Merged(u, p)
  {
  }

  /** The provider's state. */
  class AuthSession {
    var user: Option<PublicUser>
    var token: Option<string>
    /** The `token` entry of browser storage. */
    var storedToken: Option<string>
    var isLoading: bool

    /** The token in memory is the stored one. */
    predicate InSync()
      reads this
    {
      token == storedToken
    }

    /** `!!user && !!token`. */
    predicate IsAuthenticated()
      reads this
    {
      user.Some? && Given(token)
    }

    /** The provider as it mounts: no user, the stored token read into memory, loading. */
    constructor (stored: Option<string>)
      ensures user.None? && token == stored && storedToken == stored && isLoading
      ensures InSync() && !IsAuthenticated()
    {
      user := None;
      token := stored;
      storedToken := stored;
      isLoading := true;
    }

    /** `checkAuth`: with a truthy token, ask the server; take the user it returns, and
        drop the token everywhere when the answer fails or the request throws. Loading ends
        in every case. */
    method CheckAuth(outcome: ApiOutcome<Option<PublicUser>>)
      modifies this
      ensures !isLoading
      ensures !Given(old(token)) ==> user == old(user) && token == old(token) && storedToken == old(storedToken)
      ensures Given(old(token)) && Delivered(outcome) ==>
        user == outcome.body.data.value && token == old(token) && storedToken == old(storedToken)
      ensures Given(old(token)) && !Delivered(outcome) ==> user == old(user) && token.None? && storedToken.None?
      ensures old(InSync()) ==> InSync()
    {
      if Given(token) {
        if Delivered(outcome) {
          user := outcome.body.data.value;
        } else {
          storedToken := None;
          token := None;
        }
      }
      isLoading := false;
    }

    /** What `login` and `register` share: on an answer that succeeded with a session, sign
        in and store the token; otherwise change nothing. */
    method SignIn(outcome: ApiOutcome<Session>, failText: string) returns (answer: AuthAnswer)
      modifies this
      ensures answer == AnswerOf(outcome, failText)
      ensures Delivered(outcome) ==>
        && user == Some(outcome.body.data.value.user)
        && token == Some(outcome.body.data.value.token) && storedToken == token
      ensures !Delivered(outcome) ==> user == old(user) && token == old(token) && storedToken == old(storedToken)
      ensures isLoading == old(isLoading)
      ensures old(InSync()) ==> InSync()
    {
      if Delivered(outcome) {
        var session := outcome.body.data.value;
        user := Some(session.user);
        token := Some(session.token);
        storedToken := Some(session.token);
      }
      answer := AnswerOf(outcome, failText);
    }

    /** `login`. */
    method Login(outcome: ApiOutcome<Session>) returns (answer: AuthAnswer)
      modifies this
      ensures answer == AnswerOf(outcome, LoginFailed)
      ensures Delivered(outcome) ==>
        && user == Some(outcome.body.data.value.user)
        && token == Some(outcome.body.data.value.token) && storedToken == token
        && (IsAuthenticated() <==> outcome.body.data.value.token != "")
      ensures !Delivered(outcome) ==> user == old(user) && token == old(token) && storedToken == old(storedToken)
      ensures isLoading == old(isLoading)
      ensures old(InSync()) ==> InSync()
    {
      answer := SignIn(outcome, LoginFailed);
    }

    /** `register`. */
    method Register(outcome: ApiOutcome<Session>) returns (answer: AuthAnswer)
      modifies this
      ensures answer == AnswerOf(outcome, RegistrationFailed)
      ensures Delivered(outcome) ==>
        && user == Some(outcome.body.data.value.user)
        && token == Some(outcome.body.data.value.token) && storedToken == token
        && (IsAuthenticated() <==> outcome.body.data.value.token != "")
      ensures !Delivered(outcome) ==> user == old(user) && token == old(token) && storedToken == old(storedToken)
      ensures isLoading == old(isLoading)
      ensures old(InSync()) ==> InSync()
    {
      answer := SignIn(outcome, RegistrationFailed);
    }

    /** `logout`: forget the user and the token, in memory and in storage. */
    method Logout()
      modifies this
      ensures user.None? && token.None? && storedToken.None? && isLoading == old(isLoading)
      ensures InSync() && !IsAuthenticated()
    {
      user := None;
      token := None;
      storedToken := None;
    }

    /** `updateUser`: merge the given fields into the signed-in user; without one, nothing. */
    method UpdateUser(patch: UserPatch)
      modifies this
      ensures old(user).Some? ==> user == Some(Merged(old(user).value, patch))
      ensures old(user).None? ==> user.None?
      ensures token == old(token) && storedToken == old(storedToken) && isLoading == old(isLoading)
      ensures IsAuthenticated() == old(IsAuthenticated())
    {
      if user.Some? {
        user := Some(Merged(user.value, patch));
      }
    }
  }
}
