/** AuthServiceImpl: registration of a new account, and the way login
    reports failures. Password hashing and credential checking belong to
    the security framework and enter as parameters. */
module AuthService {
  import opened Common
  import opened EmailFormat
  import opened Model

  /** The registration form; the account fields are required, the names
      may be null. */
  datatype RegisterRequest = RegisterRequest(
    firstName: Option<string>,
    lastName: Option<string>,
    username: string,
    email: string,
    password: string)

  const MinPasswordLength := 8

  /** The account register stores: the form's fields, the encoded password
      and the single role ROLE_USER. */
  function NewAccount(req: RegisterRequest, encode: string -> string): (u: User)
    ensures u.username == req.username && u.email == req.email && u.roles == {RoleUser}
    ensures !IsAdminUser(u)
  {
    User(req.username, req.email, encode(req.password), req.firstName, req.lastName, {RoleUser})
  }

  /** The guards in the order register checks them; the first that fails
      decides the error. */
  function RegisterOutcome(users: seq<User>, req: RegisterRequest): Result<string> {
    if UsernameTaken(users, req.username) then Failure(ApiError(BadRequest, MsgUsernameExists))
    else if EmailTaken(users, req.email) then Failure(ApiError(BadRequest, MsgEmailExists))
    else if !IsValidEmail(req.email) then Failure(ApiError(BadRequest, MsgInvalidEmail))
    else if |req.password| < MinPasswordLength then Failure(ApiError(BadRequest, MsgPasswordTooShort))
    else Success(MsgRegistered)
  }

  /** register: on success exactly one account is appended; on failure the
      users table is left as it was. */
  method Register(db: Store, req: RegisterRequest, encode: string -> string) returns (r: Result<string>)
    requires db.Valid()
    modifies db`users
    ensures db.Valid()
    ensures r == RegisterOutcome(old(db.users), req)
    ensures db.users == if r.Success? then old(db.users) + [NewAccount(req, encode)] else old(db.users)
  {
    if UsernameTaken(db.users, req.username) {
      return Failure(ApiError(BadRequest, MsgUsernameExists));
    }
    if EmailTaken(db.users, req.email) {
      return Failure(ApiError(BadRequest, MsgEmailExists));
    }
    if !IsValidEmail(req.email) {
      return Failure(ApiError(BadRequest, MsgInvalidEmail));
    }
    if |req.password| < MinPasswordLength {
      return Failure(ApiError(BadRequest, MsgPasswordTooShort));
    }
    var user := User([], [], [], None, None, {});
    user := user.(firstName := req.firstName);
    user := user.(lastName := req.lastName);
    user := user.(username := req.username);
    user := user.(email := req.email);
    user := user.(password := encode(req.password));
    var roles: set<string> := {};
    roles := roles + {RoleUser};
    user := user.(roles := roles);
    assert user == NewAccount(req, encode);
    AddUserKeepsTables(db.users, db.todos, db.items, db.messages, db.nextTodo, db.nextItem, db.nextMessage, user);
    db.users := db.users + [user];
    r := Success(MsgRegistered);
  }

  /** Registration succeeds exactly when the username and the email are
      both unused, the email has the accepted shape, and the password has at
      least eight characters. */
  lemma RegisterSucceedsIff(users: seq<User>, req: RegisterRequest)
    ensures RegisterOutcome(users, req).Success? <==>
      && !(exists i :: 0 <= i < |users| && users[i].username == req.username)
      && !(exists i :: 0 <= i < |users| && users[i].email == req.email)
      && MatchesEmailPattern(req.email)
      && |req.password| >= 8
  {
    ValidEmailIffPattern(req.email);
  }

  /** A taken username is reported even when the email is also taken or
      malformed and the password is short: the username check comes first,
      then the email check, then the format, then the length. */
  lemma RegisterGuardOrder(users: seq<User>, req: RegisterRequest)
    ensures UsernameTaken(users, req.username) ==> RegisterOutcome(users, req) == Failure(ApiError(BadRequest, MsgUsernameExists))
    ensures !UsernameTaken(users, req.username) && EmailTaken(users, req.email) ==>
      RegisterOutcome(users, req) == Failure(ApiError(BadRequest, MsgEmailExists))
    ensures !UsernameTaken(users, req.username) && !EmailTaken(users, req.email) && !IsValidEmail(req.email) ==>
      RegisterOutcome(users, req) == Failure(ApiError(BadRequest, MsgInvalidEmail))
  {
  }

  /** After a registration the new account is the last one, it holds only
      ROLE_USER, accounts stay unique, and signing in with the new username
      finds it unless the username is some other account's email. */
  lemma {:induction false} RegisteredAccountIsFound(users: seq<User>, req: RegisterRequest, encode: string -> string)
    requires AccountsUnique(users)
    requires RegisterOutcome(users, req).Success?
    requires forall i :: 0 <= i < |users| ==> users[i].email != req.username
    ensures var after := users + [NewAccount(req, encode)];
      && AccountsUnique(after)
      && FindUser(after, req.username) == Some(|users|)
      && !IsAdminUser(after[|users|])
  {
    var after := users + [NewAccount(req, encode)];
    forall i, j | 0 <= i < j < |after| ensures after[i].username != after[j].username && after[i].email != after[j].email {
      if j == |users| {
        assert after[i] == users[i];
      }
    }
    assert !UsernameTaken(users, req.username);
    forall j | 0 <= j < |users| ensures !NameMatches(after[j], req.username) {
      assert after[j] == users[j];
      assert users[j].username != req.username;
    }
    assert NameMatches(after[|users|], req.username);
    var found := FindUser(after, req.username);
    assert found.Some?;
    assert found.value >= |users|;
  }

  /** A second registration with the same form fails on the username. */
  lemma RegisterTwiceFails(users: seq<User>, req: RegisterRequest, encode: string -> string)
    requires RegisterOutcome(users, req).Success?
    ensures RegisterOutcome(users + [NewAccount(req, encode)], req) == Failure(ApiError(BadRequest, MsgUsernameExists))
  {
    assert (users + [NewAccount(req, encode)])[|users|].username == req.username;
  }

  // ---------------------------------------------------------------------
  // login

  /** What login returns besides the token: the account's names. */
  datatype LoginInfo = LoginInfo(user: Id, firstName: Option<string>, lastName: Option<string>)

  /** login: an unknown account and rejected credentials give the same
      answer. `authenticates` is the framework's verdict on the password. */
  function LoginOutcome(users: seq<User>, usernameOrEmail: string, authenticates: bool): (r: Result<LoginInfo>)
    ensures r.Failure? ==> r.error == ApiError(Unauthorized, MsgBadCredentials)
    ensures r.Success? <==> FindUser(users, usernameOrEmail).Some? && authenticates
    ensures r.Success? ==> r.value.user < |users| && NameMatches(users[r.value.user], usernameOrEmail)
  {
    match FindUser(users, usernameOrEmail)
    case None => Failure(ApiError(Unauthorized, MsgBadCredentials))
    case Some(u) =>
      if !authenticates then Failure(ApiError(Unauthorized, MsgBadCredentials))
      else Success(LoginInfo(u, users[u].firstName, users[u].lastName))
  }

  /** The two failures cannot be told apart: whether the account exists or
      not, a rejected login looks the same. */
  lemma LoginFailuresIndistinguishable(users: seq<User>, unknown: string, known: string)
    requires FindUser(users, unknown).None?
    requires FindUser(users, known).Some?
    ensures LoginOutcome(users, unknown, true) == LoginOutcome(users, known, false)
  {
  }
}
