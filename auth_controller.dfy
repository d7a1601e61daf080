/**
 * backend/src/api/controllers/authController.ts: register, login and
 * logout over the user table. Password hashing, `comparePassword` and
 * `jwt.sign` are oracle parameters.
 */
module AuthController {
  import opened Wrappers
  import opened ErrorTypes
  import opened ObjectIds
  import opened Collections
  import opened Store

  /** The claims signed into a token: `{ _id, email, role }` (the role lives in the user model, not modelled). */
  datatype SignedPayload = SignedPayload(id: UserId, email: string)

  /** `jwt.sign(payload, secret)`. */
  type Signer = (SignedPayload, string) -> string

  /** `user.comparePassword(candidate)`, given the stored password. */
  type PasswordCheck = (string, string) -> bool

  datatype PublicUser = PublicUser(id: UserId, name: string, email: string, profilePicture: Option<string>, about: Option<string>)

  datatype AuthResponse = AuthResponse(token: string, user: PublicUser)

  function PublicUserOf(id: UserId, u: User): (p: PublicUser)
    ensures p.id == id && p.name == u.name && p.email == u.email
    ensures p.profilePicture == u.profilePicture && p.about == u.about
  {
    PublicUser(id, u.name, u.email, u.profilePicture, u.about)
  }

  /** The fallback secret register signs with when JWT_SECRET is empty. */
  const FallbackSecret: string := "secret88"

  /** `User.findOne({ email })`. */
  function UserWithEmail(t: Tables, email: string): (r: Option<UserId>)
    ensures r.Some? ==> r.value in t.users && t.users[r.value].email == email
    ensures r.None? ==> forall id :: id in t.users && id < t.nextId ==> t.users[id].email != email
  {
    FirstMatching(t.users, (id: nat, u: User) => u.email == email, t.nextId)
  }

  /** Why register refuses, if it does: an empty field, then an email already in use. */
  function RegisterError(t: Tables, name: string, email: string, password: string): (r: Option<Failure>)
    ensures (name == "" || email == "" || password == "") ==>
      r == Some(App(BadRequestError("Name, email, and password are required")))
    ensures name != "" && email != "" && password != "" ==>
      (r.Some? <==> UserWithEmail(t, email).Some?)
    ensures r.Some? && name != "" && email != "" && password != "" ==>
      r.value == App(BadRequestError("Email already in use"))
  {
    if name == "" || email == "" || password == "" then Some(App(BadRequestError("Name, email, and password are required")))
    else if UserWithEmail(t, email).Some? then Some(App(BadRequestError("Email already in use")))
    else None
  }

  /** The record `new User({ name, email, password })` saves (online false, last seen now). */
  function NewUser(name: string, email: string, password: string, now: nat): (u: User)
    ensures u.name == name && u.email == email && u.password == password
    ensures u.profilePicture.None? && u.about.None? && !u.isOnline && u.lastSeen == now
  {
    User(name, email, password, None, None, now, false)
  }

  /** Adding a user whose email is not taken keeps emails unique. */
  lemma AddUserKeepsEmailsUnique(users: map<UserId, User>, id: UserId, u: User)
    requires UniqueEmails(users) && id !in users
    requires forall j :: j in users ==> users[j].email != u.email
    ensures UniqueEmails(users[id := u])
  {
  }

  method Register(db: Database, name: string, email: string, password: string, secret: string, sign: Signer, now: nat)
    returns (r: Result<AuthResponse, Failure>)
    requires db.Valid()
    modifies db
    ensures db.Valid()
    ensures db.chats == old(db.chats) && db.messages == old(db.messages)
    ensures var e := RegisterError(old(db.Snapshot()), name, email, password);
      && (e.Some? ==> r == Err(e.value) && db.users == old(db.users) && db.nextId == old(db.nextId))
      && (e.None? ==>
            var id := old(db.nextId);
            && db.nextId == id + 1
            && db.users == old(db.users)[id := NewUser(name, email, password, now)]
            && r == Ok(AuthResponse(sign(SignedPayload(id, email), if secret == "" then FallbackSecret else secret),
                                    PublicUserOf(id, NewUser(name, email, password, now)))))
  {
    if name == "" || email == "" || password == "" {
      return Err(App(BadRequestError("Name, email, and password are required")));
    }
    var existing := UserWithEmail(db.Snapshot(), email);
    if existing.Some? {
      return Err(App(BadRequestError("Email already in use")));
    }
    var user := NewUser(name, email, password, now);
    var id := db.MintId();
    AddUserKeepsEmailsUnique(db.users, id, user);
    db.users := db.users[id := user];
    var token := sign(SignedPayload(id, user.email), if secret == "" then FallbackSecret else secret);
    r := Ok(AuthResponse(token, PublicUserOf(id, user)));
  }

  const InvalidCredentials: string := "Invalid credentials"

  /**
   * The checks of login: empty fields, then the credentials. An unknown
   * email and a wrong password fail with the same error.
   */
  function LoginCheck(t: Tables, email: string, password: string, compare: PasswordCheck): (r: Result<UserId, Failure>)
    ensures (email == "" || password == "") ==> r == Err(App(BadRequestError("Email and password are required")))
    ensures email != "" && password != "" && r.Err? ==> r.error == App(UnauthorizedError(InvalidCredentials))
    ensures r.Ok? <==>
      email != "" && password != "" && UserWithEmail(t, email).Some?
      && compare(t.users[UserWithEmail(t, email).value].password, password)
    ensures r.Ok? ==> r.value == UserWithEmail(t, email).value
  {
    if email == "" || password == "" then Err(App(BadRequestError("Email and password are required")))
    else
      match UserWithEmail(t, email)
      case None => Err(App(UnauthorizedError(InvalidCredentials)))
      case Some(id) =>
        if !compare(t.users[id].password, password) then Err(App(UnauthorizedError(InvalidCredentials)))
        else Ok(id)
  }

  /**
   * login: on valid credentials the user is saved online with a new
   * `lastSeen` before the token is signed; signing with an empty secret
   * then throws, after the save.
   */
  method Login(db: Database, email: string, password: string, secret: string, compare: PasswordCheck, sign: Signer, now: nat)
    returns (r: Result<AuthResponse, Failure>)
    requires db.Valid()
    modifies db
    ensures db.Valid()
    ensures db.chats == old(db.chats) && db.messages == old(db.messages) && db.nextId == old(db.nextId)
    ensures var c := LoginCheck(old(db.Snapshot()), email, password, compare);
      && (c.Err? ==> r == Err(c.error) && db.users == old(db.users))
      && (c.Ok? ==>
            var u := old(db.users)[c.value].(isOnline := true, lastSeen := now);
            && db.users == old(db.users)[c.value := u]
            && (secret == "" ==> r == Err(PlainError("Error", "secretOrPrivateKey must have a value")))
            && (secret != "" ==> r == Ok(AuthResponse(sign(SignedPayload(c.value, u.email), secret), PublicUserOf(c.value, u)))))
  {
    var check := LoginCheck(db.Snapshot(), email, password, compare);
    if check.Err? {
      return Err(check.error);
    }
    var id := check.value;
    var user := db.users[id];
    user := user.(isOnline := true);
    user := user.(lastSeen := now);
    db.users := db.users[id := user];
    if secret == "" {
      return Err(PlainError("Error", "secretOrPrivateKey must have a value"));
    }
    r := Ok(AuthResponse(sign(SignedPayload(id, user.email), secret), PublicUserOf(id, user)));
  }

  /** logout: marks the authenticated user offline. */
  method Logout(db: Database, caller: Option<UserId>, now: nat) returns (r: Result<string, Failure>)
    requires db.Valid()
    modifies db
    ensures db.Valid()
    ensures db.chats == old(db.chats) && db.messages == old(db.messages) && db.nextId == old(db.nextId)
    ensures caller.None? ==> r == Err(App(UnauthorizedError("User not authenticated"))) && db.users == old(db.users)
    ensures caller.Some? && caller.value !in old(db.users) ==>
      r == Err(App(NotFoundError("User not found"))) && db.users == old(db.users)
    ensures caller.Some? && caller.value in old(db.users) ==>
      r == Ok("Logout successful")
      && db.users == old(db.users)[caller.value := old(db.users)[caller.value].(isOnline := false, lastSeen := now)]
  {
    if caller.None? {
      return Err(App(UnauthorizedError("User not authenticated")));
    }
    var id := caller.value;
    if id !in db.users {
      return Err(App(NotFoundError("User not found")));
    }
    db.users := db.users[id := db.users[id].(isOnline := false, lastSeen := now)];
    r := Ok("Logout successful");
  }
}
