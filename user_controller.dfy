/*
  The refresh-token lifecycle of the user controller (controllers/userController.js):
  signup, signin, the refresh handler and logout, over a store of user records.

  The store is what the handlers see of the User collection: a sequence of records in
  insertion order, where `findOne` answers with the first record that matches. The
  collection's unique index on `email` is the invariant `Valid`. A new record's `_id` is
  the store's next counter value. bcrypt is the pair of functions in `Crypto`, and the
  tokens that jwt.sign issues (they carry a clock reading) are inputs of the handlers.
*/
module UserController {
  import opened Outcomes
  import opened JsStrings

  datatype User = User(id: nat, fullname: string, email: string, password: Option<string>, refreshToken: Option<string>)

  /** The two foreign bcrypt calls: the pre-save hash and `compare(plain, hash)`. */
  datatype Crypto = Crypto(hash: string -> string, compare: (string, string) -> bool)

  /** The access and refresh tokens one call to jwt.sign each produced. */
  datatype Issued = Issued(access: string, refresh: string)

  datatype Body =
    | Message(text: string)
    | Session(message: string, id: nat, fullname: string, email: string, accessToken: string, refreshToken: string)
    | Access(accessToken: string)

  datatype Reply = Reply(status: nat, body: Body)

  datatype Db = Db(users: seq<User>, nextId: nat)

  /** The unique indexes of the collection, and every `_id` below the counter. */
  ghost predicate Valid(db: Db) {
    && (forall i, j :: 0 <= i < j < |db.users| ==> db.users[i].email != db.users[j].email)
    && (forall i, j :: 0 <= i < j < |db.users| ==> db.users[i].id != db.users[j].id)
    && (forall i :: 0 <= i < |db.users| ==> db.users[i].id < db.nextId)
  }

  /** `findOne(filter)`: the position of the first record the filter accepts. */
  function FindFirst(users: seq<User>, p: User -> bool): (r: Option<nat>)
    ensures r.Some? ==> r.value < |users| && p(users[r.value]) && forall j :: 0 <= j < r.value ==> !p(users[j])
    ensures r.None? ==> forall j :: 0 <= j < |users| ==> !p(users[j])
    decreases |users|
  {
    if users == [] then None
    else if p(users[0]) then Some(0)
    else match FindFirst(users[1..], p)
      case None => None
      case Some(k) => Some(k + 1)
  }

  function ByEmail(email: string): User -> bool {
    (u: User) => u.email == email
  }

  function ByToken(token: string): User -> bool {
    (u: User) => u.refreshToken == Some(token)
  }

  function ById(id: nat): User -> bool {
    (u: User) => u.id == id
  }

  /** The `lowercase` and `trim` setters of the email field (Schema/userModel.js:10-16).
      Mongoose applies them both to the value a new record stores and to the `email` of a
      `findOne` filter, so addresses are matched whatever their case and surrounding space. */
  function EmailKey(email: string): string {
    Trim(Lower(email))
  }

  /** The message bcryptjs's `compare` rejects with when the stored hash is missing: it
      names the types of its two arguments, a string and `undefined`. */
  const IllegalArguments := "Illegal arguments: string, undefined"

  /** The pre-save hook (Schema/userModel.js:41-46): a non-empty new password is hashed. */
  function Hashed(crypto: Crypto, password: string): Option<string> {
    if password == "" then Some(password) else Some(crypto.hash(password))
  }

  /** `user.refreshToken = t; await user.save()` on the record at position i. */
  function SetToken(db: Db, i: nat, t: Option<string>): Db
    requires i < |db.users|
  {
    db.(users := db.users[i := db.users[i].(refreshToken := t)])
  }

  function SessionOf(message: string, u: User, tokens: Issued): Body {
    Session(message, u.id, u.fullname, u.email, tokens.access, tokens.refresh)
  }

  // ------------------------------------------------------------------ the handlers as steps

  /** signup (lines 7-41). */
  function SignupStep(db: Db, crypto: Crypto, fullname: string, email: string, password: string, tokens: Issued): (Db, Reply) {
    SignupRecord(db, crypto, Trim(fullname), EmailKey(email), password, tokens)
  }

  /** Signup on the full name and the email as the schema's setters leave them. */
  function SignupRecord(db: Db, crypto: Crypto, fullname: string, key: string, password: string, tokens: Issued): (Db, Reply) {
    if FindFirst(db.users, ByEmail(key)).Some? then
      (db, Reply(400, Message("User already exists")))
    else
      var u := User(db.nextId, fullname, key, Hashed(crypto, password), Some(tokens.refresh));
      (Db(db.users + [u], db.nextId + 1), Reply(201, SessionOf("User registered successfully", u, tokens)))
  }

  /** signin (lines 44-78); comparing against a record without a password throws. */
  function SigninStep(db: Db, crypto: Crypto, email: string, password: string, tokens: Issued): (Db, Reply) {
    match FindFirst(db.users, ByEmail(EmailKey(email)))
    case None => (db, Reply(404, Message("User not found")))
    case Some(i) =>
      var u := db.users[i];
      if u.password.None? then (db, Reply(500, Message(IllegalArguments)))
      else if !crypto.compare(password, u.password.value) then (db, Reply(400, Message("Invalid credentials")))
      else (SetToken(db, i, Some(tokens.refresh)), Reply(200, SessionOf("Login successful", u, tokens)))
  }

  /** refreshToken (lines 137-165): it only reads the store. */
  function RefreshReply(db: Db, refreshToken: Option<string>, access: string): Reply {
    if !Given(refreshToken) then Reply(401, Message("Refresh Token is required"))
    else if FindFirst(db.users, ByToken(refreshToken.value)).None? then Reply(403, Message("Invalid Refresh Token"))
    else Reply(200, Access(access))
  }

  /** The `refreshToken` field of a parsed JSON body: a string, or an object such as
      `{"$ne": null}` that the query engine reads as the operator "not equal to". */
  datatype Field = Text(text: string) | NotEqual(operand: Option<string>)

  /** `if (!refreshToken)`: an empty string is falsy, and any object is truthy. */
  predicate FieldGiven(f: Option<Field>) {
    f.Some? && (f.value.Text? ==> f.value.text != "")
  }

  /** The filter `{ refreshToken }` as the query engine reads it; a record without a token
      holds null. */
  function TokenFilter(f: Field): User -> bool {
    match f
    case Text(t) => ByToken(t)
    case NotEqual(v) => (u: User) => u.refreshToken != v
  }

  /** refreshToken (lines 137-165) as written: the body field goes into the filter
      whatever its type. */
  function RefreshAsWritten(db: Db, f: Option<Field>, access: string): Reply {
    if !FieldGiven(f) then Reply(401, Message("Refresh Token is required"))
    else if FindFirst(db.users, TokenFilter(f.value)).None? then Reply(403, Message("Invalid Refresh Token"))
    else Reply(200, Access(access))
  }

  /** The handler as evidently intended: only a string is a refresh token, and any other
      value counts as none. */
  function RefreshOfBody(db: Db, f: Option<Field>, access: string): Reply {
    if f.Some? && f.value.Text? then RefreshReply(db, Some(f.value.text), access)
    else RefreshReply(db, None, access)
  }

  /** logout (lines 167-196), for the user id the auth middleware decoded. */
  function LogoutStep(db: Db, userId: nat, refreshToken: Option<string>): (Db, Reply) {
    match FindFirst(db.users, ById(userId))
    case None => (db, Reply(404, Message("User not found")))
    case Some(i) =>
      var stored := db.users[i].refreshToken;
      if Given(refreshToken) && stored != refreshToken then (db, Reply(403, Message("Invalid refresh token")))
      else if Given(refreshToken) || Given(stored) then (SetToken(db, i, None), Reply(200, Message("Logout successful")))
      else (db, Reply(200, Message("Logout successful")))
  }

  // ------------------------------------------------------------------ the store

  class UserStore {
    var users: seq<User>
    var nextId: nat

    function State(): Db
      reads this
    {
      Db(users, nextId)
    }

    constructor ()
      ensures State() == Db([], 0) && Valid(State())
    {
      users, nextId := [], 0;
    }

    method Signup(crypto: Crypto, fullname: string, email: string, password: string, tokens: Issued) returns (reply: Reply)
      modifies this
      ensures (State(), reply) == SignupStep(old(State()), crypto, fullname, email, password, tokens)
    {
      var found := FindFirst(users, ByEmail(EmailKey(email)));
      if found.Some? {
        return Reply(400, Message("User already exists"));
      }
      var user := User(nextId, Trim(fullname), EmailKey(email), Hashed(crypto, password), Some(tokens.refresh));
      users, nextId := users + [user], nextId + 1;
      reply := Reply(201, SessionOf("User registered successfully", user, tokens));
    }

    method Signin(crypto: Crypto, email: string, password: string, tokens: Issued) returns (reply: Reply)
      modifies this
      ensures (State(), reply) == SigninStep(old(State()), crypto, email, password, tokens)
    {
      var found := FindFirst(users, ByEmail(EmailKey(email)));
      if found.None? {
        return Reply(404, Message("User not found"));
      }
      var i := found.value;
      var user := users[i];
      if user.password.None? {
        return Reply(500, Message(IllegalArguments));
      }
      if !crypto.compare(password, user.password.value) {
        return Reply(400, Message("Invalid credentials"));
      }
      users := users[i := user.(refreshToken := Some(tokens.refresh))];
      reply := Reply(200, SessionOf("Login successful", user, tokens));
    }

    method Refresh(body: Option<Field>, access: string) returns (reply: Reply)
      ensures reply == RefreshOfBody(State(), body, access)
    {
      if body.None? || !body.value.Text? || body.value.text == "" {
        return Reply(401, Message("Refresh Token is required"));
      }
      var found := FindFirst(users, ByToken(body.value.text));
      if found.None? {
        return Reply(403, Message("Invalid Refresh Token"));
      }
      reply := Reply(200, Access(access));
    }

    method Logout(userId: nat, refreshToken: Option<string>) returns (reply: Reply)
      modifies this
      ensures (State(), reply) == LogoutStep(old(State()), userId, refreshToken)
    {
      var found := FindFirst(users, ById(userId));
      if found.None? {
        return Reply(404, Message("User not found"));
      }
      var i := found.value;
      if Given(refreshToken) {
        if users[i].refreshToken != refreshToken {
          return Reply(403, Message("Invalid refresh token"));
        }
        users := users[i := users[i].(refreshToken := None)];
      } else if Given(users[i].refreshToken) {
        users := users[i := users[i].(refreshToken := None)];
      }
      reply := Reply(200, Message("Logout successful"));
    }
  }

  // ------------------------------------------------------------------ properties

  /** Changing one record's token keeps the unique indexes. */
  lemma SetTokenValid(db: Db, i: nat, t: Option<string>)
    requires Valid(db) && i < |db.users|
    ensures Valid(SetToken(db, i, t))
    ensures |SetToken(db, i, t).users| == |db.users|
    ensures SetToken(db, i, t).users[i].refreshToken == t
  {
  }

  /** Every handler keeps the store's unique indexes. */
  lemma SignupValid(db: Db, crypto: Crypto, fullname: string, email: string, password: string, tokens: Issued)
    requires Valid(db)
    ensures Valid(SignupStep(db, crypto, fullname, email, password, tokens).0)
  {
    SignupRecordValid(db, crypto, Trim(fullname), EmailKey(email), password, tokens);
  }

  lemma SignupRecordValid(db: Db, crypto: Crypto, fullname: string, key: string, password: string, tokens: Issued)
    requires Valid(db)
    ensures Valid(SignupRecord(db, crypto, fullname, key, password, tokens).0)
  {
    if FindFirst(db.users, ByEmail(key)).None? {
      var u := User(db.nextId, fullname, key, Hashed(crypto, password), Some(tokens.refresh));
      var users := db.users + [u];
      assert SignupRecord(db, crypto, fullname, key, password, tokens).0 == Db(users, db.nextId + 1);
      forall i | 0 <= i < |db.users| ensures users[i].email != key && users[i].id < db.nextId {
        assert !ByEmail(key)(db.users[i]);
      }
    }
  }

  lemma SigninValid(db: Db, crypto: Crypto, email: string, password: string, tokens: Issued)
    requires Valid(db)
    ensures Valid(SigninStep(db, crypto, email, password, tokens).0)
  {
    var found := FindFirst(db.users, ByEmail(EmailKey(email)));
    if found.Some? {
      SetTokenValid(db, found.value, Some(tokens.refresh));
    }
  }

  lemma LogoutValid(db: Db, userId: nat, refreshToken: Option<string>)
    requires Valid(db)
    ensures Valid(LogoutStep(db, userId, refreshToken).0)
  {
    var found := FindFirst(db.users, ById(userId));
    if found.Some? {
      SetTokenValid(db, found.value, None);
    }
  }

  /** Signup with a registered email answers 400 and creates no user; otherwise it appends
      exactly one record, which holds the issued refresh token, and answers 201. */
  lemma SignupOutcome(db: Db, crypto: Crypto, fullname: string, email: string, password: string, tokens: Issued)
    ensures var (db', reply) := SignupStep(db, crypto, fullname, email, password, tokens);
      && ((exists u :: u in db.users && u.email == EmailKey(email)) <==> reply.status == 400)
      && (reply.status == 400 ==> db' == db)
      && (reply.status != 400 ==>
            && reply.status == 201
            && |db'.users| == |db.users| + 1 && db'.users[..|db.users|] == db.users
            && db'.users[|db.users|].email == EmailKey(email)
            && db'.users[|db.users|].fullname == Trim(fullname)
            && db'.users[|db.users|].refreshToken == Some(tokens.refresh)
            && reply.body.email == EmailKey(email)
            && reply.body.refreshToken == tokens.refresh)
  {
    var found := FindFirst(db.users, ByEmail(EmailKey(email)));
    if found.Some? {
      assert db.users[found.value] in db.users;
    }
  }

  /** Signin: an unknown email answers 404; a record without a password answers 500; a
      wrong password answers 400 and changes nothing; success stores the issued refresh token on that user and nothing else. */
  lemma SigninOutcome(db: Db, crypto: Crypto, email: string, password: string, tokens: Issued)
    requires Valid(db)
    ensures var (db', reply) := SigninStep(db, crypto, email, password, tokens);
      && ((forall u :: u in db.users ==> u.email != EmailKey(email)) <==> reply.status == 404)
      && (reply.status != 200 ==> db' == db)
      && (reply.status == 200 <==> exists i :: 0 <= i < |db.users| && db.users[i].email == EmailKey(email)
                                      && db.users[i].password.Some? && crypto.compare(password, db.users[i].password.value))
      && (reply.status == 200 ==> exists i :: 0 <= i < |db.users| && db.users[i].email == EmailKey(email)
                                      && db' == SetToken(db, i, Some(tokens.refresh)))
      && (reply.status == 500 <==> exists i :: 0 <= i < |db.users| && db.users[i].email == EmailKey(email)
                                      && db.users[i].password.None?)
      && (reply.status == 500 ==> reply.body == Message(IllegalArguments))
      && (reply.status == 400 <==> exists i :: 0 <= i < |db.users| && db.users[i].email == EmailKey(email)
                                      && db.users[i].password.Some? && !crypto.compare(password, db.users[i].password.value))
      && (reply.status == 400 ==> reply.body == Message("Invalid credentials"))
      && reply.status in {200, 400, 404, 500}
  {
    var found := FindFirst(db.users, ByEmail(EmailKey(email)));
    if found.None? {
      forall u | u in db.users ensures u.email != EmailKey(email) {
        var j :| 0 <= j < |db.users| && db.users[j] == u;
        assert !ByEmail(EmailKey(email))(db.users[j]);
      }
    } else {
      var i := found.value;
      assert db.users[i] in db.users;
      forall j | 0 <= j < |db.users| && db.users[j].email == EmailKey(email) ensures j == i {
      }
    }
  }

  /** A second signup whose email differs from the first only in case or surrounding space
      is refused with 400 and changes nothing. */
  lemma SignupIgnoresCase(db: Db, crypto: Crypto, fullname: string, email: string, other: string, password: string,
                          tokens: Issued, tokens': Issued)
    requires EmailKey(other) == EmailKey(email)
    requires SignupStep(db, crypto, fullname, email, password, tokens).1.status == 201
    ensures var db1 := SignupStep(db, crypto, fullname, email, password, tokens).0;
      SignupStep(db1, crypto, fullname, other, password, tokens') == (db1, Reply(400, Message("User already exists")))
  {
    var db1 := SignupStep(db, crypto, fullname, email, password, tokens).0;
    SignupOutcome(db, crypto, fullname, email, password, tokens);
    SignupOutcome(db1, crypto, fullname, other, password, tokens');
    assert db1.users[|db.users|] in db1.users;
  }

  /** For example, `Jane@X.com` is the same key as `jane@x.com`. */
  lemma MixedCaseKey()
    ensures EmailKey("Jane@X.com") == EmailKey("jane@x.com") == "jane@x.com"
  {
    assert Lower("Jane@X.com") == "jane@x.com";
    assert Lower("jane@x.com") == "jane@x.com";
    assert Trim("jane@x.com") == "jane@x.com";
  }

  /** The refresh handler: 401 without a token, 403 when no user holds it, and 200 with the
      new access token exactly when some user holds it. */
  lemma RefreshOutcome(db: Db, refreshToken: Option<string>, access: string)
    ensures var reply := RefreshReply(db, refreshToken, access);
      && (!Given(refreshToken) <==> reply.status == 401)
      && (reply.status == 200 <==> Given(refreshToken) && exists u :: u in db.users && u.refreshToken == refreshToken)
      && (reply.status == 200 ==> reply.body == Access(access))
      && (reply.status == 401 || reply.status == 403 || reply.status == 200)
  {
    if Given(refreshToken) {
      var found := FindFirst(db.users, ByToken(refreshToken.value));
      if found.Some? {
        assert db.users[found.value] in db.users;
      } else {
        forall u | u in db.users ensures u.refreshToken != refreshToken {
          var j :| 0 <= j < |db.users| && db.users[j] == u;
          assert !ByToken(refreshToken.value)(db.users[j]);
        }
      }
    }
  }

  /** As written, a body `{"refreshToken": {"$ne": null}}` refreshes as soon as any user
      holds a token, although no token was presented. */
  lemma OperatorBodyRefreshes(db: Db, access: string)
    requires exists u :: u in db.users && u.refreshToken.Some?
    ensures RefreshAsWritten(db, Some(NotEqual(None)), access) == Reply(200, Access(access))
  {
    var u :| u in db.users && u.refreshToken.Some?;
    var j :| 0 <= j < |db.users| && db.users[j] == u;
    assert TokenFilter(NotEqual(None))(db.users[j]);
  }

  /** The corrected handler answers 200 exactly for a string token some user holds, and
      agrees with the code as written on every string body. */
  lemma RefreshOfBodyOutcome(db: Db, f: Option<Field>, access: string)
    ensures RefreshOfBody(db, f, access).status == 200 <==>
      f.Some? && f.value.Text? && f.value.text != "" && exists u :: u in db.users && u.refreshToken == Some(f.value.text)
    ensures f.Some? && f.value.Text? ==> RefreshOfBody(db, f, access) == RefreshAsWritten(db, f, access)
    ensures f.Some? && f.value.NotEqual? ==> RefreshOfBody(db, f, access).status == 401
  {
    if f.Some? && f.value.Text? {
      RefreshOutcome(db, Some(f.value.text), access);
    } else {
      RefreshOutcome(db, None, access);
    }
  }

  /** Logout: 404 for an unknown id; 403, with nothing changed, when the supplied token is
      not the stored one; otherwise 200, and afterwards the user holds no token unless the
      stored one was an empty string and none was presented. No other status is answered. */
  lemma LogoutOutcome(db: Db, userId: nat, refreshToken: Option<string>)
    requires Valid(db)
    ensures var (db', reply) := LogoutStep(db, userId, refreshToken);
      && ((forall u :: u in db.users ==> u.id != userId) <==> reply.status == 404)
      && (reply.status != 200 ==> db' == db)
      && (reply.status == 403 <==> exists u :: u in db.users && u.id == userId && Given(refreshToken) && u.refreshToken != refreshToken)
      && (reply.status == 200 ==> |db'.users| == |db.users| && forall i :: 0 <= i < |db.users| ==>
            if db.users[i].id == userId then
              !Given(db'.users[i].refreshToken) && (Given(refreshToken) ==> db'.users[i].refreshToken == None)
            else db'.users[i] == db.users[i])
      && reply.status in {200, 403, 404}
  {
    var found := FindFirst(db.users, ById(userId));
    if found.None? {
      forall u | u in db.users ensures u.id != userId {
        var j :| 0 <= j < |db.users| && db.users[j] == u;
        assert !ById(userId)(db.users[j]);
      }
    } else {
      var i := found.value;
      assert db.users[i] in db.users;
      forall u | u in db.users && u.id == userId ensures u == db.users[i] {
        var j :| 0 <= j < |db.users| && db.users[j] == u;
      }
    }
  }

  /** The lifecycle: after a signup the issued refresh token refreshes; after a logout that
      presents it, it no longer does (tokens are never shared between users). */
  lemma TokenLifecycle(db: Db, crypto: Crypto, fullname: string, email: string, password: string, tokens: Issued, access: string)
    requires Valid(db) && tokens.refresh != ""
    requires forall u :: u in db.users ==> u.email != EmailKey(email) && u.refreshToken != Some(tokens.refresh)
    ensures var (db1, r1) := SignupStep(db, crypto, fullname, email, password, tokens);
      && r1.status == 201
      && RefreshReply(db1, Some(tokens.refresh), access).status == 200
      && var (db2, r2) := LogoutStep(db1, db.nextId, Some(tokens.refresh));
      && r2.status == 200
      && RefreshReply(db2, Some(tokens.refresh), access).status == 403
  {
    var (db1, r1) := SignupStep(db, crypto, fullname, email, password, tokens);
    forall j | 0 <= j < |db.users| ensures !ByEmail(EmailKey(email))(db.users[j]) {
      assert db.users[j] in db.users;
    }
    assert r1.status == 201;
    var n := |db.users|;
    assert db1.users[n] in db1.users;
    RefreshOutcome(db1, Some(tokens.refresh), access);
    SignupValid(db, crypto, fullname, email, password, tokens);
    LogoutOutcome(db1, db.nextId, Some(tokens.refresh));
    assert db1.users[n].id == db.nextId;
    var (db2, r2) := LogoutStep(db1, db.nextId, Some(tokens.refresh));
    assert db1.users[n] in db1.users;
    assert r2.status == 200;
    forall u | u in db2.users ensures u.refreshToken != Some(tokens.refresh) {
      var j :| 0 <= j < |db2.users| && db2.users[j] == u;
      if j < n {
        assert db1.users[j] == db.users[j];
        assert db.users[j] in db.users;
      }
    }
    RefreshOutcome(db2, Some(tokens.refresh), access);
  }
}
