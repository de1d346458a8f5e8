/** The registration endpoint: required fields, the password length, the
    duplicate-account lookup, then one new user whose stored password is the
    hash of the one sent. The user schema's own checks and its unique
    indexes act at save time and turn into the generic failure reply. */
module RegisterRoute {
  import opened Base
  import opened Text
  import opened Models

  /** The JSON body; an absent field and the empty string are both falsy. */
  datatype RegisterRequest = RegisterRequest(username: Option<string>, email: Option<string>, password: Option<string>)

  datatype Reply = Refused(status: nat, error: string) | Registered(message: string)

  function Status(r: Reply): nat {
    match r
    case Refused(s, _) => s
    case Registered(_) => 201
  }

  datatype RegisterResult = RegisterResult(reply: Reply, users: seq<User>)

  const FieldsRequired := "All fields required"
  const PasswordTooShort := "Password must be at least 6 characters"
  const UserExists := "User already exists"
  const RegistrationFailed := "Registration failed"
  const UserCreated := "User created successfully"

  /** `findOne({$or: [{email}, {username}]})`: the first account with this
      email or this username. The query passes the username through the
      schema's `trim` setter before comparing, so the stored (trimmed)
      usernames are compared with the trimmed one sent; the email has no
      setter and is compared as sent. */
  function FindAccount(users: seq<User>, email: string, username: string): (r: Option<nat>)
    ensures r.None? <==> forall k :: 0 <= k < |users| ==> users[k].email != email && users[k].username != Trim(username)
    ensures r.Some? ==> r.value < |users| && (users[r.value].email == email || users[r.value].username == Trim(username))
  {
    FindFirst(users, (u: User) => u.email == email || u.username == Trim(username))
  }

  /** No two accounts share a username or an email (the schema's unique
      indexes). */
  ghost predicate UniqueAccounts(users: seq<User>) {
    forall i, j :: 0 <= i < j < |users| ==> users[i].username != users[j].username && users[i].email != users[j].email
  }

  /** `user.save()`: the schema's checks (`NewUser`), then the unique
      indexes on the stored (trimmed) username and on the email. */
  function Save(users: seq<User>, id: Id, username: string, email: string, password: string): (r: Result<seq<User>>)
    ensures r.Ok? <==>
      NewUser(id, username, email, password).Ok? && FindAccount(users, email, username).None?
    ensures r.Ok? ==> r.value == users + [NewUser(id, username, email, password).value]
  {
    match NewUser(id, username, email, password)
    case Err(m) => Err(m)
    case Ok(u) =>
      if FindAccount(users, email, username).Some? then Err("E11000 duplicate key error")
      else Ok(users + [u])
  }

  /** `POST /api/auth/register`. `newId` is the id the database assigns and
      `hash` stands for the password hashing function. */
  function HandleRegister(users: seq<User>, req: RegisterRequest, newId: Id, hash: string -> string): (r: RegisterResult)
    ensures !Truthy(req.username) || !Truthy(req.email) || !Truthy(req.password) ==>
      r == RegisterResult(Refused(400, FieldsRequired), users)
    ensures Truthy(req.username) && Truthy(req.email) && Truthy(req.password) && |req.password.value| < PasswordMinLength ==>
      r == RegisterResult(Refused(400, PasswordTooShort), users)
    ensures (&& Truthy(req.username) && Truthy(req.email) && Truthy(req.password)
             && |req.password.value| >= PasswordMinLength
             && exists k :: 0 <= k < |users| && (users[k].email == req.email.value || users[k].username == Trim(req.username.value))) ==>
      r == RegisterResult(Refused(400, UserExists), users)
    ensures r.reply.Registered? <==>
      && Truthy(req.username) && Truthy(req.email) && Truthy(req.password)
      && |req.password.value| >= PasswordMinLength
      && FindAccount(users, req.email.value, req.username.value).None?
      && NewUser(newId, req.username.value, req.email.value, hash(req.password.value)).Ok?
    ensures r.reply.Refused? ==> r.users == users && r.reply.status in {400, 500}
    ensures r.reply.Refused? && r.reply.status == 500 ==> r.reply.error == RegistrationFailed
    ensures r.reply.Registered? ==>
      && Truthy(req.username) && Truthy(req.email) && Truthy(req.password)
      && r.reply.message == UserCreated
      && r.users == users + [User(newId, Trim(req.username.value), req.email.value, hash(req.password.value), UserRole, 0)]
  {
    if !Truthy(req.username) || !Truthy(req.email) || !Truthy(req.password) then
      RegisterResult(Refused(400, FieldsRequired), users)
    else
      var username, email, password := req.username.value, req.email.value, req.password.value;
      if |password| < PasswordMinLength then
        RegisterResult(Refused(400, PasswordTooShort), users)
      else if FindAccount(users, email, username).Some? then
        RegisterResult(Refused(400, UserExists), users)
      else
        match Save(users, newId, username, email, hash(password))
        case Err(_) => RegisterResult(Refused(500, RegistrationFailed), users)
        case Ok(saved) => RegisterResult(Registered(UserCreated), saved)
  }

  /** Registration keeps usernames and emails unique: the account stored
      holds the trimmed username, which is the one the lookup compared. */
  lemma RegisterKeepsAccountsUnique(users: seq<User>, req: RegisterRequest, newId: Id, hash: string -> string)
    requires UniqueAccounts(users)
    ensures UniqueAccounts(HandleRegister(users, req, newId, hash).users)
  {
    var r := HandleRegister(users, req, newId, hash);
    if r.reply.Registered? {
      assert FindAccount(users, req.email.value, req.username.value).None?;
      forall i, j | 0 <= i < j < |r.users|
        ensures r.users[i].username != r.users[j].username && r.users[i].email != r.users[j].email
      {
        if j == |users| {
          assert r.users[i] == users[i];
        }
      }
    }
  }

  /** A created account can be found afterwards by its email, it is the
      only one with that email, and it holds the hash of the password
      rather than the password given. */
  lemma RegisteredAccountIsFound(users: seq<User>, req: RegisterRequest, newId: Id, hash: string -> string)
    requires HandleRegister(users, req, newId, hash).reply.Registered?
    ensures var r := HandleRegister(users, req, newId, hash);
      var k := FindFirst(r.users, (u: User) => u.email == req.email.value);
      && k == Some(|users|)
      && r.users[k.value].password == hash(req.password.value)
      && r.users[k.value].username == Trim(req.username.value)
  {
    var r := HandleRegister(users, req, newId, hash);
    assert FindAccount(users, req.email.value, req.username.value).None?;
    forall m | 0 <= m < |users| ensures r.users[m].email != req.email.value {
      assert r.users[m] == users[m];
    }
    assert r.users[|users|].email == req.email.value;
  }

  /** Sending the same registration again is refused as a duplicate and
      adds nobody. */
  lemma RegisteringTwiceIsRefused(users: seq<User>, req: RegisterRequest, id1: Id, id2: Id, hash: string -> string)
    requires HandleRegister(users, req, id1, hash).reply.Registered?
    ensures var once := HandleRegister(users, req, id1, hash).users;
      HandleRegister(once, req, id2, hash) == RegisterResult(Refused(400, UserExists), once)
  {
    var once := HandleRegister(users, req, id1, hash).users;
    assert once[|users|].email == req.email.value;
  }
}
