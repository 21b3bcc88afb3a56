/**
 * app/auth/routes.py: registration, login, the two profile reads and the
 * profile update. Password hashing is the `Credentials` oracle and the
 * access token is the identity it carries.
 */
module AuthRoutes {
  import opened Wrappers
  import opened Json
  import opened Http
  import opened UserModel
  import opened Database
  import opened Session

  const MISSING_FIELDS := "Missing required fields"
  const EMAIL_TAKEN := "Email already registered"
  const USERNAME_TAKEN := "Username already taken"
  const REGISTERED := "User registered successfully"
  const INVALID_LOGIN := "Invalid email or password"
  const LOGGED_IN := "Login successful"
  const NOT_SELF := "Unauthorized"
  const NO_SUBJECT := "Subject field is not allowed"
  const UPDATED := "User updated successfully"

  /** The two account columns that must be unique. */
  datatype Column = Username | Email

  function Field(u: User, c: Column): string
  {
    match c
    case Username => u.username
    case Email => u.email
  }

  /** Some user outside `except` holds `name` in column `c`. */
  predicate Held(users: map<int, User>, c: Column, name: string, except: set<int>)
  {
    exists k :: k in users && k !in except && Field(users[k], c) == name
  }

  /**
   * Whether a query comparing column `c` with the payload value `v`
   * (outside the rows `except`) finds a row: a string is compared, `None`
   * becomes `IS NULL` and matches no row of a NOT NULL column, and any
   * other value cannot be compared with a text column, so the query
   * raises (`None`), as it does for a string holding U+0000, which
   * psycopg2 refuses to send.
   */
  function Lookup(users: map<int, User>, c: Column, v: Value, except: set<int>): (r: Option<bool>)
    ensures r.None? <==> !SqlText(v) && !v.Null?
    ensures r == Some(true) <==> SqlText(v) && Held(users, c, v.s, except)
  {
    if SqlText(v) then Some(Held(users, c, v.s, except))
    else if v.Null? then Some(false)
    else None
  }

  /** The user object the routes return: `profile_image or None` shows an empty text as absent. */
  datatype UserView = UserView(userId: int, username: string, email: string, profileImage: Option<string>)

  function View(uid: int, u: User): (v: UserView)
    ensures v.userId == uid && v.username == u.username && v.email == u.email
    ensures v.profileImage.None? <==> u.profileImage.None? || u.profileImage == Some("")
    ensures v.profileImage.Some? ==> v.profileImage == u.profileImage
  {
    UserView(uid, u.username, u.email, if u.profileImage == Some("") then None else u.profileImage)
  }

  /** What `register` answers, and the committed state. */
  datatype Registration = Registration(step: Step, user: Option<UserView>)

  /**
   * `register()`: 400 unless username, email and password are all given;
   * 400 when the e-mail and then when the username is already in use;
   * 500 when a lookup cannot be run or the row cannot be built or
   * committed; otherwise the row is inserted under the next user id (201).
   */
  function RegisterStep(db: Db, seqs: Sequences, data: Payload, cred: Credentials): (r: Registration)
    ensures r.step.reply.code == CREATED <==>
      && "username" in data && "email" in data && "password" in data
      && SqlText(data["email"]) && !Held(db.users, Email, data["email"].s, {})
      && SqlText(data["username"]) && !Held(db.users, Username, data["username"].s, {})
      && data["password"].Str? && AsNullableText(Get(data, "profile_image")).Some?
    ensures r.step.reply.code == CREATED ==>
      var u := User(data["username"].s, data["email"].s, cred.hash(data["password"].s),
                    AsNullableText(Get(data, "profile_image")).value);
      && r.step == Step(Reply(CREATED, REGISTERED), db.(users := db.users[seqs.users := u]), seqs.(users := seqs.users + 1))
      && r.user == Some(View(seqs.users, u))
    ensures r.step.reply == Reply(BAD_REQUEST, MISSING_FIELDS) <==>
      "username" !in data || "email" !in data || "password" !in data
    ensures r.step.reply == Reply(BAD_REQUEST, EMAIL_TAKEN) <==>
      "username" in data && "email" in data && "password" in data &&
      SqlText(data["email"]) && Held(db.users, Email, data["email"].s, {})
    ensures r.step.reply == Reply(BAD_REQUEST, USERNAME_TAKEN) <==>
      "username" in data && "email" in data && "password" in data &&
      (data["email"].Null? || (SqlText(data["email"]) && !Held(db.users, Email, data["email"].s, {}))) &&
      SqlText(data["username"]) && Held(db.users, Username, data["username"].s, {})
    ensures r.step.reply.code != CREATED ==> r.step.db == db && r.step.seqs == seqs && r.user.None?
  {
    if !("username" in data && "email" in data && "password" in data) then
      Registration(Step(Reply(BAD_REQUEST, MISSING_FIELDS), db, seqs), None)
    else
      var byEmail := Lookup(db.users, Email, data["email"], {});
      if byEmail.None? then Registration(Step(ServerError, db, seqs), None)
      else if byEmail.value then Registration(Step(Reply(BAD_REQUEST, EMAIL_TAKEN), db, seqs), None)
      else
        var byName := Lookup(db.users, Username, data["username"], {});
        if byName.None? then Registration(Step(ServerError, db, seqs), None)
        else if byName.value then Registration(Step(Reply(BAD_REQUEST, USERNAME_TAKEN), db, seqs), None)
        else
          var image := AsNullableText(Get(data, "profile_image"));
          if !data["password"].Str? || !data["username"].Str? || !data["email"].Str? || image.None? then
            Registration(Step(ServerError, db, seqs), None)
          else
            var u := User(data["username"].s, data["email"].s, cred.hash(data["password"].s), image.value);
            Registration(Step(Reply(CREATED, REGISTERED), db.(users := db.users[seqs.users := u]),
                              seqs.(users := seqs.users + 1)), Some(View(seqs.users, u)))
  }

  /** The route: the two lookups, the new row, the commit. */
  method Register(s: Store, data: Payload, cred: Credentials) returns (reply: Reply, user: Option<UserView>)
    requires s.Valid()
    modifies s
    ensures s.Valid()
    ensures var r := RegisterStep(old(s.Tables()), old(s.seqs), data, cred);
      reply == r.step.reply && user == r.user && s.Tables() == r.step.db && s.seqs == r.step.seqs
  {
    ghost var db, seqs := s.Tables(), s.seqs;
    user := None;
    if !("username" in data && "email" in data && "password" in data) {
      return Reply(BAD_REQUEST, MISSING_FIELDS), None;
    }
    var byEmail := Lookup(s.users, Email, data["email"], {});
    if byEmail.None? {
      return ServerError, None;
    } else if byEmail.value {
      return Reply(BAD_REQUEST, EMAIL_TAKEN), None;
    }
    var byName := Lookup(s.users, Username, data["username"], {});
    if byName.None? {
      return ServerError, None;
    } else if byName.value {
      return Reply(BAD_REQUEST, USERNAME_TAKEN), None;
    }
    var image := AsNullableText(Get(data, "profile_image"));
    if !data["password"].Str? || !data["username"].Str? || !data["email"].Str? || image.None? {
      return ServerError, None;
    }
    var u := User(data["username"].s, data["email"].s, cred.hash(data["password"].s), image.value);
    var id := s.seqs.users;
    s.users := s.users[id := u];
    s.seqs := s.seqs.(users := id + 1);
    reply, user := Reply(CREATED, REGISTERED), Some(View(id, u));
    RegisterKeepsConsistent(db, seqs, data, cred);
    AheadWithUsers(db, seqs, s.users, id + 1);
  }

  /** A registration keeps usernames and e-mail addresses unique, and the rest of the database consistent. */
  lemma RegisterKeepsConsistent(db: Db, seqs: Sequences, data: Payload, cred: Credentials)
    requires Consistent(db) && Ahead(db, seqs)
    ensures Consistent(RegisterStep(db, seqs, data, cred).step.db)
  {
    var r := RegisterStep(db, seqs, data, cred);
    if r.step.reply.code == CREATED {
      var u := r.step.db.users[seqs.users];
      assert seqs.users !in db.users;
      InsertKeepsUnique(db.users, seqs.users, u);
      WithUsers(db, r.step.db.users);
    }
  }

  /** A row whose name and address nobody holds can be added without a clash. */
  lemma InsertKeepsUnique(users: map<int, User>, k: int, u: User)
    requires UniqueAccounts(users) && k !in users
    requires !Held(users, Username, u.username, {}) && !Held(users, Email, u.email, {})
    ensures UniqueAccounts(users[k := u])
  {
    assert forall a :: a in users ==> Field(users[a], Username) != u.username;
    assert forall a :: a in users ==> Field(users[a], Email) != u.email;
  }

  /** What `login` answers and the identity its access token carries. */
  datatype LoginResult = LoginResult(reply: Reply, identity: Option<int>)

  /**
   * `login()`: 400 unless email and password are both given; the row
   * with that e-mail (`first()`: any one, and under unique accounts the
   * only one) answers 200 with a token when its digest accepts the
   * password; no such row, or a rejected password, is the one 401. An
   * e-mail that cannot be compared, or a password the checker cannot
   * take, raises (500).
   */
  ghost function Login(db: Db, data: Payload, cred: Credentials): (r: LoginResult)
    ensures r.identity.Some? <==> r.reply == Reply(OK, LOGGED_IN)
    ensures r.reply == Reply(BAD_REQUEST, MISSING_FIELDS) <==> "email" !in data || "password" !in data
    ensures r.identity.Some? ==>
      var k := r.identity.value;
      && k in db.users && data["email"] == Str(db.users[k].email)
      && data["password"].Str? && cred.check(data["password"].s, db.users[k].passwordHash)
    ensures
      ("email" in data && "password" in data &&
       (data["email"].Null? || (SqlText(data["email"]) && !Held(db.users, Email, data["email"].s, {}))))
      ==> r.reply == Reply(UNAUTHORIZED, INVALID_LOGIN)
  {
    if !("email" in data && "password" in data) then LoginResult(Reply(BAD_REQUEST, MISSING_FIELDS), None)
    else
      match Lookup(db.users, Email, data["email"], {})
      case None => LoginResult(ServerError, None)
      case Some(found) =>
        if !found then LoginResult(Reply(UNAUTHORIZED, INVALID_LOGIN), None)
        else
          var k :| k in db.users && Field(db.users[k], Email) == data["email"].s;
          if !data["password"].Str? then LoginResult(ServerError, None)
          else if cred.check(data["password"].s, db.users[k].passwordHash) then LoginResult(Reply(OK, LOGGED_IN), Some(k))
          else LoginResult(Reply(UNAUTHORIZED, INVALID_LOGIN), None)
  }

  /** Under unique accounts, the password of the row holding an address is what decides the login. */
  lemma LoginByAccount(db: Db, k: int, password: string, cred: Credentials)
    requires UniqueAccounts(db.users) && k in db.users && db.users[k].WellFormed()
    ensures var r := Login(db, map["email" := Str(db.users[k].email), "password" := Str(password)], cred);
      && (cred.check(password, db.users[k].passwordHash) ==> r == LoginResult(Reply(OK, LOGGED_IN), Some(k)))
      && (!cred.check(password, db.users[k].passwordHash) ==> r == LoginResult(Reply(UNAUTHORIZED, INVALID_LOGIN), None))
  {
    var data := map["email" := Str(db.users[k].email), "password" := Str(password)];
    assert Field(db.users[k], Email) == db.users[k].email;
    assert Lookup(db.users, Email, data["email"], {}) == Some(true);
  }

  /**
   * An unknown address and a wrong password are answered alike, so the
   * reply does not tell which addresses are registered.
   */
  lemma LoginFailuresAlike(db: Db, unknown: string, k: int, password: string, wrong: string, cred: Credentials)
    requires UniqueAccounts(db.users)
    requires !Held(db.users, Email, unknown, {}) && '\0' !in unknown
    requires k in db.users && db.users[k].WellFormed() && !cred.check(wrong, db.users[k].passwordHash)
    ensures Login(db, map["email" := Str(unknown), "password" := Str(password)], cred).reply ==
            Login(db, map["email" := Str(db.users[k].email), "password" := Str(wrong)], cred).reply
  {
    LoginByAccount(db, k, wrong, cred);
  }

  /** An address holding U+0000 cannot be sent to the query, so that login is a 500, not a 401. */
  lemma LoginNulAddressFails(db: Db, password: string, cred: Credentials)
    ensures Login(db, map["email" := Str("a\0"), "password" := Str(password)], cred).reply == ServerError
  {
    assert "a\0"[1] == '\0';
  }

  /** A new account can log in at once with its own e-mail and password, as the new user id. */
  lemma RegisterThenLogin(db: Db, seqs: Sequences, data: Payload, cred: Credentials)
    requires Consistent(db) && Ahead(db, seqs) && Sound(cred)
    requires RegisterStep(db, seqs, data, cred).step.reply.code == CREATED
    ensures var after := RegisterStep(db, seqs, data, cred).step.db;
      Login(after, map["email" := data["email"], "password" := data["password"]], cred) ==
        LoginResult(Reply(OK, LOGGED_IN), Some(seqs.users))
  {
    var after := RegisterStep(db, seqs, data, cred).step.db;
    RegisterKeepsConsistent(db, seqs, data, cred);
    assert cred.check(data["password"].s, cred.hash(data["password"].s));
    LoginByAccount(after, seqs.users, data["password"].s, cred);
  }

  /** `get_user(uid)` and, with the caller's identity, `get_current_user()`: the user, or 404 (`None`). */
  function GetUser(db: Db, uid: int): (r: Option<UserView>)
    ensures r.Some? <==> uid in db.users
    ensures r.Some? ==>
      r.value.userId == uid && r.value.username == db.users[uid].username && r.value.email == db.users[uid].email
    ensures r.Some? ==> r.value == View(uid, db.users[uid])
  {
    if uid in db.users then Some(View(uid, db.users[uid])) else None
  }

  /** A payload key's edit of one column, or the reply that stops the update. */
  datatype Edit = Stop(reply: Reply) | Go(user: User)

  /**
   * The `username`/`email` step of `update_user` on the row `u` of `uid`:
   * absent keys change nothing; otherwise the uniqueness query runs first
   * (400 when another user holds the value, 500 when it cannot run), and
   * a value that is not text is then refused when it is stored (500).
   */
  function EditUnique(users: map<int, User>, uid: int, u: User, c: Column, data: Payload): (e: Edit)
    ensures e.Go? <==> Key(c) !in data || (SqlText(data[Key(c)]) && !Held(users, c, data[Key(c)].s, {uid}))
    ensures e.Go? ==>
      Field(e.user, Other(c)) == Field(u, Other(c)) && e.user.passwordHash == u.passwordHash &&
      e.user.profileImage == u.profileImage
    ensures e.Go? ==> Field(e.user, c) == if Key(c) in data then data[Key(c)].s else Field(u, c)
    ensures e.Stop? ==> e.reply == ServerError || e.reply == Reply(BAD_REQUEST, Taken(c))
    ensures e.Stop? ==> (e.reply == Reply(BAD_REQUEST, Taken(c)) <==> SqlText(data[Key(c)]))
  {
    if Key(c) !in data then Go(u)
    else
      var v := data[Key(c)];
      match Lookup(users, c, v, {uid})
      case None => Stop(ServerError)
      case Some(found) =>
        if found then Stop(Reply(BAD_REQUEST, Taken(c)))
        else if !v.Str? then Stop(ServerError)
        else if c == Username then Go(u.(username := v.s))
        else Go(u.(email := v.s))
  }

  function Key(c: Column): string
  {
    match c
    case Username => "username"
    case Email => "email"
  }

  function Other(c: Column): Column
  {
    match c
    case Username => Email
    case Email => Username
  }

  function Taken(c: Column): string
  {
    match c
    case Username => USERNAME_TAKEN
    case Email => EMAIL_TAKEN
  }

  /**
   * Everything `update_user` does to the row after the 403, 404 and
   * "subject" checks: username, then e-mail, then `profile_image`
   * (text or null; an int or a bool is stored as its text; anything else
   * is refused, 500), then the password (text, else `set_password`
   * raises: 500).
   */
  function ApplyUserUpdate(users: map<int, User>, uid: int, data: Payload, cred: Credentials): (e: Edit)
    requires uid in users
  {
    match EditUnique(users, uid, users[uid], Username, data)
    case Stop(reply) => Stop(reply)
    case Go(u1) =>
      match EditUnique(users, uid, u1, Email, data)
      case Stop(reply) => Stop(reply)
      case Go(u2) =>
        if "profile_image" in data && AsNullableText(data["profile_image"]).None? then Stop(ServerError)
        else
          var u3 := if "profile_image" in data then u2.(profileImage := AsNullableText(data["profile_image"]).value) else u2;
          if "password" in data && !data["password"].Str? then Stop(ServerError)
          else Go(if "password" in data then u3.(passwordHash := cred.hash(data["password"].s)) else u3)
  }

  /** The update succeeds exactly when every given field is acceptable, and sets just the given fields. */
  lemma ApplyUserUpdateMeaning(users: map<int, User>, uid: int, data: Payload, cred: Credentials)
    requires uid in users
    ensures var e := ApplyUserUpdate(users, uid, data, cred);
      e.Go? <==> Acceptable(users, uid, data)
    ensures var e := ApplyUserUpdate(users, uid, data, cred);
      e.Go? ==> e.user == Updated(users[uid], data, cred)
  {
    var u := users[uid];
    var e1 := EditUnique(users, uid, u, Username, data);
    if e1.Go? {
      var e2 := EditUnique(users, uid, e1.user, Email, data);
      assert Field(e1.user, Email) == u.email;
    }
  }

  /** Every field the payload names can be stored, and neither unique value is someone else's. */
  predicate Acceptable(users: map<int, User>, uid: int, data: Payload)
  {
    && ("username" in data ==> SqlText(data["username"]) && !Held(users, Username, data["username"].s, {uid}))
    && ("email" in data ==> SqlText(data["email"]) && !Held(users, Email, data["email"].s, {uid}))
    && ("profile_image" in data ==> AsNullableText(data["profile_image"]).Some?)
    && ("password" in data ==> data["password"].Str?)
  }

  /** The row with each named field set, and every other field as it was. */
  function Updated(u: User, data: Payload, cred: Credentials): User
    requires "username" in data ==> data["username"].Str?
    requires "email" in data ==> data["email"].Str?
    requires "profile_image" in data ==> AsNullableText(data["profile_image"]).Some?
    requires "password" in data ==> data["password"].Str?
  {
    User(
      if "username" in data then data["username"].s else u.username,
      if "email" in data then data["email"].s else u.email,
      if "password" in data then cred.hash(data["password"].s) else u.passwordHash,
      if "profile_image" in data then AsNullableText(data["profile_image"]).value else u.profileImage)
  }

  /** What `update_user` answers, and the committed state. */
  datatype UpdateResult = UpdateResult(step: Step, user: Option<UserView>)

  /**
   * `update_user(uid)` for the caller `identity`: 403 for anyone else's
   * account, 404 for a missing row, 400 for a "subject" key, then the
   * field edits; one commit at the end stores the edited row.
   */
  function UpdateUserStep(db: Db, seqs: Sequences, identity: int, uid: int, data: Payload, cred: Credentials): (r: UpdateResult)
    ensures uid != identity ==> r.step == Step(Reply(FORBIDDEN, NOT_SELF), db, seqs)
    ensures uid == identity && uid !in db.users ==> r.step == Step(NotFound, db, seqs)
    ensures uid == identity && uid in db.users && "subject" in data ==>
      r.step == Step(Reply(BAD_REQUEST, NO_SUBJECT), db, seqs)
    ensures r.step.reply.code == OK <==>
      uid == identity && uid in db.users && "subject" !in data && ApplyUserUpdate(db.users, uid, data, cred).Go?
    ensures r.step.reply.code == OK ==>
      var u := ApplyUserUpdate(db.users, uid, data, cred).user;
      && r.step == Step(Reply(OK, UPDATED), db.(users := db.users[uid := u]), seqs)
      && r.user == Some(View(uid, u))
    ensures r.step.reply.code != OK ==> r.step.db == db && r.step.seqs == seqs && r.user.None?
  {
    if uid != identity then UpdateResult(Step(Reply(FORBIDDEN, NOT_SELF), db, seqs), None)
    else if uid !in db.users then UpdateResult(Step(NotFound, db, seqs), None)
    else if "subject" in data then UpdateResult(Step(Reply(BAD_REQUEST, NO_SUBJECT), db, seqs), None)
    else
      match ApplyUserUpdate(db.users, uid, data, cred)
      case Stop(reply) => UpdateResult(Step(reply, db, seqs), None)
      case Go(u) => UpdateResult(Step(Reply(OK, UPDATED), db.(users := db.users[uid := u]), seqs), Some(View(uid, u)))
  }

  /** The route: the checks in order, the fields assigned one by one on the loaded row, then the commit. */
  method UpdateUser(s: Store, identity: int, uid: int, data: Payload, cred: Credentials) returns (reply: Reply, user: Option<UserView>)
    requires s.Valid()
    modifies s
    ensures s.Valid()
    ensures var r := UpdateUserStep(old(s.Tables()), old(s.seqs), identity, uid, data, cred);
      reply == r.step.reply && user == r.user && s.Tables() == r.step.db && s.seqs == r.step.seqs
  {
    ghost var db := s.Tables();
    if uid != identity {
      return Reply(FORBIDDEN, NOT_SELF), None;
    }
    if uid !in s.users {
      return NotFound, None;
    }
    if "subject" in data {
      return Reply(BAD_REQUEST, NO_SUBJECT), None;
    }
    var row := s.users[uid];
    var byName := EditUnique(s.users, uid, row, Username, data);
    if byName.Stop? {
      return byName.reply, None;
    }
    row := byName.user;
    var byEmail := EditUnique(s.users, uid, row, Email, data);
    if byEmail.Stop? {
      return byEmail.reply, None;
    }
    row := byEmail.user;
    if "profile_image" in data {
      var image := AsNullableText(data["profile_image"]);
      if image.None? {
        return ServerError, None;
      }
      row := row.(profileImage := image.value);
    }
    if "password" in data {
      if !data["password"].Str? {
        return ServerError, None;
      }
      row := row.(passwordHash := cred.hash(data["password"].s));
    }
    s.users := s.users[uid := row];
    reply, user := Reply(OK, UPDATED), Some(View(uid, row));
    UpdateUserKeepsConsistent(db, s.seqs, identity, uid, data, cred);
    AheadWithUsers(db, s.seqs, s.users, s.seqs.users);
  }

  /** An update keeps usernames and e-mail addresses unique, and the rest of the database consistent. */
  lemma UpdateUserKeepsConsistent(db: Db, seqs: Sequences, identity: int, uid: int, data: Payload, cred: Credentials)
    requires Consistent(db)
    ensures Consistent(UpdateUserStep(db, seqs, identity, uid, data, cred).step.db)
  {
    var r := UpdateUserStep(db, seqs, identity, uid, data, cred);
    if r.step.reply.code == OK {
      var u := r.step.db.users[uid];
      ApplyUserUpdateMeaning(db.users, uid, data, cred);
      ReplaceKeepsUnique(db.users, uid, u);
      WithUsers(db, r.step.db.users);
    }
  }

  /** A row may be replaced by one whose name and address nobody else holds. */
  lemma ReplaceKeepsUnique(users: map<int, User>, k: int, u: User)
    requires UniqueAccounts(users) && k in users
    requires !Held(users, Username, u.username, {k}) && !Held(users, Email, u.email, {k})
    ensures UniqueAccounts(users[k := u])
  {
    assert forall a :: a in users && a != k ==> Field(users[a], Username) != u.username;
    assert forall a :: a in users && a != k ==> Field(users[a], Email) != u.email;
  }

  /** Sending back one's own username and e-mail is accepted and changes nothing. */
  lemma ResubmitOwnAccount(db: Db, seqs: Sequences, uid: int, cred: Credentials)
    requires UniqueAccounts(db.users) && uid in db.users && db.users[uid].WellFormed()
    ensures var u := db.users[uid];
      var data := map["username" := Str(u.username), "email" := Str(u.email)];
      UpdateUserStep(db, seqs, uid, uid, data, cred).step == Step(Reply(OK, UPDATED), db, seqs)
  {
    var u := db.users[uid];
    var data := map["username" := Str(u.username), "email" := Str(u.email)];
    ApplyUserUpdateMeaning(db.users, uid, data, cred);
    assert !Held(db.users, Username, u.username, {uid}) by {
      forall k | k in db.users && k !in {uid} ensures Field(db.users[k], Username) != u.username {}
    }
    assert !Held(db.users, Email, u.email, {uid}) by {
      forall k | k in db.users && k !in {uid} ensures Field(db.users[k], Email) != u.email {}
    }
    assert Updated(u, data, cred) == u;
    assert db.users[uid := u] == db.users;
  }

  /** Without a token of one's own, nothing about the account is revealed: 403 comes before 404 and any check of the body. */
  lemma UpdateUserChecksOwnerFirst(db: Db, seqs: Sequences, identity: int, uid: int, data: Payload, other: Payload,
                                   cred: Credentials)
    requires uid != identity
    ensures UpdateUserStep(db, seqs, identity, uid, data, cred).step ==
            UpdateUserStep(db.(users := db.users - {uid}), seqs, identity, uid, other, cred).step.(db := db)
  {
  }
}
