/** The `/api/auth` handlers: register and log in with field checks, and read, update and
    verify the profile of the user the middleware attached. Their answers carry the text under
    `message`. */
module AuthRoutes {
  import opened Wrappers
  import opened Strings
  import opened Email
  import opened Models
  import opened Store
  import opened Http
  import opened AuthService

  datatype RegisterBody = RegisterBody(username: Field<string>, email: Field<string>, password: Field<string>, name: Field<string>)

  datatype LoginBody = LoginBody(email: Field<string>, password: Field<string>)

  datatype ProfileBody = ProfileBody(
    name: Field<string>, email: Field<string>, username: Field<string>, password: Field<string>, avatar: Field<string>)

  /** A service answer sent with the given status, as it is. */
  function Relay<D>(status: int, r: ServiceResult<D>): (resp: Response<D>)
    ensures resp.status == status && resp.success == r.success && resp.data == r.data && resp.message == r.message
  {
    Response(status, r.success, None, r.message, r.data)
  }

  /** The checks of the register handler in order; the message of the first that fails. The
      password's length is JavaScript's, in UTF-16 code units, so three characters beyond U+FFFF
      are long enough. */
  function RegisterRejection(b: RegisterBody): (m: Option<string>)
    ensures m == Some("All fields are required") <==>
      !(TruthyText(b.username) && TruthyText(b.email) && TruthyText(b.password) && TruthyText(b.name))
    ensures m.None? <==>
      && TruthyText(b.username) && TruthyText(b.email) && TruthyText(b.password) && TruthyText(b.name)
      && MatchesEmailPattern(b.email.value) && Utf16Length(b.password.value) >= 6
  {
    if !TruthyText(b.username) || !TruthyText(b.email) || !TruthyText(b.password) || !TruthyText(b.name) then
      Some("All fields are required")
    else if !IsEmailShape(b.email.value) then
      EmailShapeIff(b.email.value);
      Some("Invalid email format")
    else if Utf16Length(b.password.value) < 6 then
      EmailShapeIff(b.email.value);
      Some("Password must be at least 6 characters long")
    else
      EmailShapeIff(b.email.value);
      None
  }

  function RequestOf(b: RegisterBody): RegisterRequest
    requires TruthyText(b.username) && TruthyText(b.email) && TruthyText(b.password) && TruthyText(b.name)
  {
    RegisterRequest(b.username.value, b.email.value, b.password.value, b.name.value)
  }

  /** `POST /api/auth/register`: 400 for a failed check, then 201 or 400 with the service's
      answer. */
  method PostRegister(s: EntityStore, b: RegisterBody, c: Crypto, now: int) returns (resp: Response<Session>)
    requires s.Valid()
    modifies s
    ensures s.Valid() && s.events == old(s.events)
    ensures RegisterRejection(b).Some? ==>
      resp == Refuse(400, RegisterRejection(b).value) && s.Db() == old(s.Db())
    ensures RegisterRejection(b).None? ==> (resp.success ==> resp.status == 201) && (!resp.success ==> resp.status == 400)
    ensures !resp.success ==> s.Db() == old(s.Db())
    ensures resp.success ==>
      RegisterRejection(b).None? &&
      exists u :: u !in old(s.users) && s.users == old(s.users) + [u] && u.email == b.email.value
        && u.password == c.hash(b.password.value) && resp.data == Some(Session(PublicOf(u), GenerateToken(c, u.id)))
  {
    var rejection := RegisterRejection(b);
    if rejection.Some? {
      return Refuse(400, rejection.value);
    }
    ghost var users0, next0 := s.users, s.nextUserId;
    assert forall v :: v in users0 ==> v.id != next0;
    var result := Register(s, RequestOf(b), c, now);
    if result.success {
      resp := Relay(201, result);
    } else {
      resp := Relay(400, result);
    }
  }

  /** `POST /api/auth/login`: 400 without both fields, then 200 or 401. */
  function PostLogin(users: seq<UserRow>, b: LoginBody, c: Crypto): (resp: Response<Session>)
    ensures !TruthyText(b.email) || !TruthyText(b.password) ==> resp == Refuse(400, "Email and password are required")
    ensures resp.success ==> resp.status == 200 && resp.message == Some("Login successful")
    ensures TruthyText(b.email) && TruthyText(b.password) && !resp.success ==>
      resp.status == 401 && resp.message == Some("Invalid email or password")
  {
    if !TruthyText(b.email) || !TruthyText(b.password) then Refuse(400, "Email and password are required")
    else
      var result := Login(users, LoginRequest(b.email.value, b.password.value), c);
      if result.success then Relay(200, result) else Relay(401, result)
  }

  /** `GET /api/auth/profile`, after the middleware: the profile of the attached user. */
  function GetProfile(users: seq<UserRow>, user: Option<PublicUser>): (resp: Response<Profile>)
    ensures user.None? ==> resp == Refuse(401, "User not authenticated")
    ensures user.Some? ==> (resp.success <==> HasUser(users, user.value.id))
    ensures user.Some? && !resp.success ==> resp.status == 404 && resp.message == Some("User not found")
    ensures resp.success ==> resp.status == 200 && resp.data.Some? && resp.data.value.id == user.value.id
  {
    if user.None? then Refuse(401, "User not authenticated")
    else
      var result := GetUserProfile(users, user.value.id);
      if result.success then Relay(200, result) else Relay(404, result)
  }

  /** The fields the profile handler passes on: name, e-mail, username and password when
      truthy, the avatar whenever the key is present, even as `null` or `""`. */
  predicate SelectedForUpdate(b: ProfileBody, c: UserChanges) {
    && c.name == (if TruthyText(b.name) then b.name else Absent)
    && c.email == (if TruthyText(b.email) then b.email else Absent)
    && c.username == (if TruthyText(b.username) then b.username else Absent)
    && c.password == (if TruthyText(b.password) then b.password else Absent)
    && c.avatar == b.avatar
  }

  /** The `updateData` object of the profile handler, filled key by key. It stays empty
      exactly when no field is truthy and the avatar key is missing. */
  method CollectProfileChanges(b: ProfileBody) returns (update: UserChanges)
    ensures SelectedForUpdate(b, update)
    ensures update == NoUserChanges <==>
      !TruthyText(b.name) && !TruthyText(b.email) && !TruthyText(b.username) && !TruthyText(b.password) && b.avatar.Absent?
  {
    update := NoUserChanges;
    if TruthyText(b.name) { update := update.(name := b.name); }
    if TruthyText(b.email) { update := update.(email := b.email); }
    if TruthyText(b.username) { update := update.(username := b.username); }
    if TruthyText(b.password) { update := update.(password := b.password); }
    if !b.avatar.Absent? { update := update.(avatar := b.avatar); }
  }

  /** `PUT /api/auth/profile`, after the middleware: 400 when no field is given, then 200 or
      400 with the service's answer to the selected changes. */
  method PutProfile(s: EntityStore, user: Option<PublicUser>, b: ProfileBody, c: Crypto, now: int)
    returns (resp: Response<PublicUser>, ghost data: UserChanges)
    requires s.Valid()
    modifies s
    ensures s.Valid() && s.events == old(s.events)
    ensures user.None? ==> resp == Refuse(401, "User not authenticated") && s.Db() == old(s.Db())
    ensures user.Some? ==> SelectedForUpdate(b, data)
    ensures user.Some? && data == NoUserChanges ==> resp == Refuse(400, "No fields to update")
    ensures resp.success ==> resp.status == 200 && user.Some? && data != NoUserChanges
    ensures !resp.success ==> s.Db() == old(s.Db())
    ensures resp.success && TruthyText(b.password) ==>
      exists u :: u in s.users && u.id == user.value.id && u.password == c.hash(b.password.value)
  {
    data := NoUserChanges;
    if user.None? {
      return Refuse(401, "User not authenticated"), data;
    }
    var update := CollectProfileChanges(b);
    data := update;
    if update == NoUserChanges {
      return Refuse(400, "No fields to update"), data;
    }
    ghost var users0 := s.users;
    var result := UpdateUserProfile(s, user.value.id, update, c, now);
    if result.success {
      resp := Relay(200, result);
      if TruthyText(b.password) {
        assert update.password == b.password;
        ghost var u := FindUser(users0, user.value.id).value;
        ghost var n := UpdateUser(u, HashedChanges(update, c), now);
        ProfileUpdateStoresHash(u, update, c, now);
        ReplaceUserHolds(users0, n.value);
      }
    } else {
      resp := Relay(400, result);
    }
  }

  /** A replaced row is in the table afterwards when its key was. */
  lemma ReplaceUserHolds(users: seq<UserRow>, row: UserRow)
    requires HasUser(users, row.id)
    ensures row in ReplaceUser(users, row)
  {
    var u :| u in users && u.id == row.id;
    var i :| 0 <= i < |users| && users[i] == u;
    assert ReplaceUser(users, row)[i] == row;
  }

  /** `GET /api/auth/verify`, after the middleware: the attached user. */
  function GetVerify(user: Option<PublicUser>): (resp: Response<Option<PublicUser>>)
    ensures resp.success && resp.status == 200 && resp.data == Some(user) && resp.message == Some("Token is valid")
  {
    Response(200, true, None, Some("Token is valid"), Some(user))
  }
}
