/** The authentication service: registration, login, token verification and the profile
    of the signed-in user. Password hashing (bcrypt) and token signing (JSON Web Tokens,
    RFC 7519) are library calls; they are handed in as functions, and what the service relies
    on them for is stated as the predicate `Sound`. */
module AuthService {
  import opened Wrappers
  import opened Sorting
  import opened Models
  import opened Store
  import opened Http

  /** The hashing and signing libraries. The salt of a hash and the secret, lifetime and
      clock of a token are inside these functions. */
  datatype Crypto = Crypto(
    hash: string -> string,
    compare: (string, string) -> bool,
    sign: int -> string,
    verify: string -> Option<int>)

  /** What the service relies on: a password matches its own hash, a bcrypt hash has 60
      characters, and a freshly signed token verifies to the id it was signed for. An expired
      or forged token is one that `verify` refuses. */
  ghost predicate Sound(c: Crypto) {
    && (forall pw :: c.compare(pw, c.hash(pw)))
    && (forall pw :: |c.hash(pw)| == 60)
    && (forall id :: c.verify(c.sign(id)) == Some(id))
  }

  /** A service answer: `success`, then `data` or `message`. */
  datatype ServiceResult<D> = ServiceResult(success: bool, data: Option<D>, message: Option<string>)

  /** The user and the token returned by registration and login. */
  datatype Session = Session(user: PublicUser, token: string)

  /** A user without the password, with its timestamps: `attributes: { exclude: ['password'] }`. */
  datatype Profile = Profile(
    id: int, username: string, email: string, name: string, avatar: Option<string>,
    createdAt: int, updatedAt: int)

  datatype RegisterRequest = RegisterRequest(username: string, email: string, password: string, name: string)

  datatype LoginRequest = LoginRequest(email: string, password: string)

  function ProfileOf(u: UserRow): Profile {
    Profile(u.id, u.username, u.email, u.name, u.avatar, u.createdAt, u.updatedAt)
  }

  /** `generateToken`: a token that verifies to `userId`. */
  function GenerateToken(c: Crypto, userId: int): (token: string)
    ensures Sound(c) ==> c.verify(token) == Some(userId)
  {
    c.sign(userId)
  }

  /** Two stored users with the same key are the same row. */
  lemma UserIdsUnique(users: seq<UserRow>, next: int, u: UserRow, v: UserRow)
    requires UsersValid(users, next) && u in users && v in users && u.id == v.id
    ensures u == v
  {
    var i :| 0 <= i < |users| && users[i] == u;
    var j :| 0 <= j < |users| && users[j] == v;
    assert UserKey(users[i]) == UserKey(users[j]);
    assert i == j;
  }

  /** The `[Op.or]: [{ email }, { username }]` condition of registration. */
  function RegisterConflict(req: RegisterRequest): UserRow -> bool {
    (v: UserRow) => v.email == req.email || v.username == req.username
  }

  /** The row registration asks the store to create: the password replaced by its hash. */
  function RegisterAttrs(req: RegisterRequest, c: Crypto): UserAttrs {
    UserAttrs(Present(req.username), Present(req.email), Present(req.name), Present(c.hash(req.password)), Absent)
  }

  /** The message for an existing user: the e-mail when the first user found holds it,
      the username otherwise. */
  function ConflictMessage(found: UserRow, req: RegisterRequest): string {
    if found.email == req.email then "Email already registered" else "Username already taken"
  }

  /** When nobody holds the e-mail the conflict is the username, and when nobody holds the
      username it is the e-mail. */
  lemma ConflictMessageSpec(users: seq<UserRow>, req: RegisterRequest)
    requires FindFirst(users, RegisterConflict(req)).Some?
    ensures (forall v :: v in users ==> v.email != req.email) ==>
      ConflictMessage(FindFirst(users, RegisterConflict(req)).value, req) == "Username already taken"
    ensures (forall v :: v in users ==> v.username != req.username) ==>
      ConflictMessage(FindFirst(users, RegisterConflict(req)).value, req) == "Email already registered"
  {
    var f := FindFirst(users, RegisterConflict(req)).value;
    assert f in users && RegisterConflict(req)(f);
  }

  /** `register`. */
  method Register(s: EntityStore, req: RegisterRequest, c: Crypto, now: int) returns (r: ServiceResult<Session>)
    requires s.Valid()
    modifies s
    ensures s.Valid() && s.events == old(s.events)
    ensures
      var found := FindFirst(old(s.users), RegisterConflict(req));
      found.Some? ==>
        r == ServiceResult(false, None, Some(ConflictMessage(found.value, req))) && s.Db() == old(s.Db())
    ensures
      var found := FindFirst(old(s.users), RegisterConflict(req));
      var n := NewUser(RegisterAttrs(req, c), old(s.nextUserId), now);
      found.None? ==>
        && (r.success <==> n.Some?)
        && (r.success ==>
              && s.Db() == old(s.Db()).(users := old(s.users) + [n.value], nextUserId := old(s.nextUserId) + 1)
              && n.value.password == c.hash(req.password)
              && r == ServiceResult(true, Some(Session(PublicOf(n.value), GenerateToken(c, n.value.id))),
                                    Some("User registered successfully")))
        && (!r.success ==> r == ServiceResult(false, None, Some("Registration failed")) && s.Db() == old(s.Db()))
  {
    var found := FindFirst(s.users, RegisterConflict(req));
    if found.Some? {
      return ServiceResult(false, None, Some(ConflictMessage(found.value, req)));
    }
    var hashed := c.hash(req.password);
    var row := s.InsertUser(UserAttrs(Present(req.username), Present(req.email), Present(req.name), Present(hashed), Absent), now);
    if row.None? {
      return ServiceResult(false, None, Some("Registration failed"));
    }
    var token := GenerateToken(c, row.value.id);
    r := ServiceResult(true, Some(Session(PublicOf(row.value), token)), Some("User registered successfully"));
  }

  /** Registration succeeds exactly when no user holds the username or the e-mail and the
      fields pass the user model; the password's own length plays no part, as the model
      checks the 60-character hash. */
  lemma RegisterSucceedsIff(users: seq<UserRow>, req: RegisterRequest, c: Crypto, id: int, now: int)
    requires Sound(c)
    ensures FindFirst(users, RegisterConflict(req)).None? && NewUser(RegisterAttrs(req, c), id, now).Some? <==>
      && (forall v :: v in users ==> v.email != req.email && v.username != req.username)
      && LengthIn(req.username, 3, 50) && Email.IsEmailShape(req.email) && LengthIn(req.name, 1, 100)
  {
    assert |c.hash(req.password)| == 60;
  }

  function EmailIs(email: string): UserRow -> bool {
    (v: UserRow) => v.email == email
  }

  /** `login`: an unknown e-mail and a wrong password give the same answer. */
  function Login(users: seq<UserRow>, req: LoginRequest, c: Crypto): (r: ServiceResult<Session>)
    ensures !r.success ==> r == ServiceResult(false, None, Some("Invalid email or password"))
    ensures r.success ==>
      exists u :: u in users && u.email == req.email && c.compare(req.password, u.password)
        && r == ServiceResult(true, Some(Session(PublicOf(u), GenerateToken(c, u.id))), Some("Login successful"))
  {
    match FindFirst(users, EmailIs(req.email))
    case None => ServiceResult(false, None, Some("Invalid email or password"))
    case Some(u) =>
      if !c.compare(req.password, u.password) then ServiceResult(false, None, Some("Invalid email or password"))
      else ServiceResult(true, Some(Session(PublicOf(u), GenerateToken(c, u.id))), Some("Login successful"))
  }

  /** With unique e-mails, login succeeds exactly when the user with that e-mail has a
      password the library accepts. */
  lemma LoginSucceedsIff(users: seq<UserRow>, req: LoginRequest, c: Crypto)
    requires UniqueLogins(users)
    ensures Login(users, req, c).success <==>
      exists u :: u in users && u.email == req.email && c.compare(req.password, u.password)
  {
    var f := FindFirst(users, EmailIs(req.email));
    if u :| u in users && u.email == req.email && c.compare(req.password, u.password) {
      assert f.Some?;
      assert f.value == u;
    }
  }

  /** A user whose stored password is the hash of `pw` logs in with `pw`, and the token it
      receives verifies to its id. */
  lemma RegisteredUserLogsIn(db: Db, u: UserRow, pw: string, c: Crypto)
    requires DbValid(db) && Sound(c) && u in db.users && u.password == c.hash(pw)
    ensures Login(db.users, LoginRequest(u.email, pw), c).success
    ensures c.verify(Login(db.users, LoginRequest(u.email, pw), c).data.value.token) == Some(u.id)
  {
    LoginSucceedsIff(db.users, LoginRequest(u.email, pw), c);
    var f := FindFirst(db.users, EmailIs(u.email));
    assert f.Some? && f.value == u;
  }

  /** `verifyToken`: a token the library refuses, or one for a user that no longer exists,
      is refused with its own message. */
  function VerifyToken(users: seq<UserRow>, token: string, c: Crypto): (r: ServiceResult<PublicUser>)
    ensures c.verify(token).None? ==> r == ServiceResult(false, None, Some("Invalid token"))
    ensures c.verify(token).Some? && !HasUser(users, c.verify(token).value) ==>
      r == ServiceResult(false, None, Some("User not found"))
    ensures r.success <==> c.verify(token).Some? && HasUser(users, c.verify(token).value)
    ensures r.success ==> r.data.Some? && r.data.value.id == c.verify(token).value && r.message.None?
  {
    match c.verify(token)
    case None => ServiceResult(false, None, Some("Invalid token"))
    case Some(id) =>
      match FindUser(users, id)
      case None => ServiceResult(false, None, Some("User not found"))
      case Some(u) => ServiceResult(true, Some(PublicOf(u)), None)
  }

  /** A token generated for a stored user verifies to that user. */
  lemma GeneratedTokenVerifies(users: seq<UserRow>, next: int, u: UserRow, c: Crypto)
    requires Sound(c) && UsersValid(users, next) && u in users
    ensures VerifyToken(users, GenerateToken(c, u.id), c) == ServiceResult(true, Some(PublicOf(u)), None)
  {
    var f := FindUser(users, u.id);
    UserIdsUnique(users, next, f.value, u);
  }

  /** `getUserProfile`. */
  function GetUserProfile(users: seq<UserRow>, userId: int): (r: ServiceResult<Profile>)
    ensures r.success <==> HasUser(users, userId)
    ensures !r.success ==> r == ServiceResult(false, None, Some("User not found"))
    ensures r.success ==> exists u :: u in users && u.id == userId && r.data == Some(ProfileOf(u))
  {
    match FindUser(users, userId)
    case None => ServiceResult(false, None, Some("User not found"))
    case Some(u) => ServiceResult(true, Some(ProfileOf(u)), None)
  }

  /** The changes as the profile update hands them to the model: a given password replaced
      by its hash. */
  function HashedChanges(update: UserChanges, c: Crypto): (data: UserChanges)
    ensures TruthyText(update.password) ==> data.password == Present(c.hash(update.password.value))
    ensures !TruthyText(update.password) ==> data.password == update.password
    ensures data.(password := update.password) == update
  {
    if TruthyText(update.password) then update.(password := Present(c.hash(update.password.value))) else update
  }

  /** A profile update that goes through stores the hash of a given password, never the
      password itself. */
  lemma ProfileUpdateStoresHash(u: UserRow, update: UserChanges, c: Crypto, now: int)
    requires TruthyText(update.password)
    requires UpdateUser(u, HashedChanges(update, c), now).Some?
    ensures UpdateUser(u, HashedChanges(update, c), now).value.password == c.hash(update.password.value)
  {
  }

  /** `updateUserProfile`: a password among the changes is replaced by its hash before the
      update. */
  method UpdateUserProfile(s: EntityStore, userId: int, update: UserChanges, c: Crypto, now: int)
    returns (r: ServiceResult<PublicUser>)
    requires s.Valid()
    modifies s
    ensures s.Valid() && s.events == old(s.events)
    ensures !HasUser(old(s.users), userId) ==>
      r == ServiceResult(false, None, Some("User not found")) && s.Db() == old(s.Db())
    ensures HasUser(old(s.users), userId) ==>
      var n := UpdateUser(FindUser(old(s.users), userId).value, HashedChanges(update, c), now);
      && (r.success <==> n.Some? && LoginsFreeExcept(old(s.users), userId, n.value.username, n.value.email))
      && (r.success ==>
            && s.Db() == old(s.Db()).(users := ReplaceUser(old(s.users), n.value))
            && r == ServiceResult(true, Some(PublicOf(n.value)), None))
      && (!r.success ==> r == ServiceResult(false, None, Some("Failed to update user profile")) && s.Db() == old(s.Db()))
  {
    var u := FindUser(s.users, userId);
    if u.None? {
      return ServiceResult(false, None, Some("User not found"));
    }
    var data := HashedChanges(update, c);
    var row := s.UpdateUserRow(userId, data, now);
    if row.None? {
      return ServiceResult(false, None, Some("Failed to update user profile"));
    }
    r := ServiceResult(true, Some(PublicOf(row.value)), None);
  }

  /** The profile update applies no minimum length to a new password: any non-empty one is
      accepted, since the user model sees only its hash. */
  lemma ShortPasswordAccepted(u: UserRow, pw: string, c: Crypto, now: int)
    requires Sound(c) && ValidUser(u) && pw != ""
    ensures UpdateUser(u, NoUserChanges.(password := Present(c.hash(pw))), now).Some?
  {
    assert |c.hash(pw)| == 60;
  }
}
