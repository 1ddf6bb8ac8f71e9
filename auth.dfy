/**
 * The authentication rules: the password comparison with its fixed
 * development password, the local-strategy check behind `POST /api/login`,
 * registration with its duplicate-username test, `GET /api/user` with its
 * fall-back to the user named "test", logout and the forgot-password reply.
 * Hashing is a parameter: `kdf(password, salt)` stands for the hex text of
 * the 64-byte scrypt key, and a salt is supplied by the caller in place of
 * 16 random bytes.
 */
module Auth {
  import opened Wrappers
  import opened Schema
  import opened Storage
  import opened Http

  /** The password every account accepts. */
  const DEVELOPMENT_PASSWORD: string := "password123"

  const FORGOT_PASSWORD_REPLY: string :=
    "If an account with this email exists, a password reset link has been sent."

  /** `hashPassword(password)`: the stored text in the `key.salt` format.
      When neither part holds a dot, `SplitHash` takes it apart again into
      the derived key and the salt. */
  function HashPassword(password: string, salt: string, kdf: (string, string) -> string): (r: string)
    ensures |r| == |kdf(password, salt)| + 1 + |salt|
    ensures r[..|kdf(password, salt)|] == kdf(password, salt)
    ensures r[|kdf(password, salt)|] == '.'
    ensures r[|kdf(password, salt)| + 1..] == salt
    ensures '.' !in kdf(password, salt) && '.' !in salt ==> SplitHash(r) == (kdf(password, salt), Some(salt))
  {
    var key := kdf(password, salt);
    if '.' !in key && '.' !in salt then
      SplitHashOf(key, salt);
      key + "." + salt
    else key + "." + salt
  }

  /** `comparePasswords(supplied, stored)` as written: the development
      password, or the supplied text equal to the stored text. */
  function ComparePasswords(supplied: string, stored: string): bool {
    supplied == DEVELOPMENT_PASSWORD || supplied == stored
  }

  /** The development password opens every account; anything else must be
      the stored text itself. */
  lemma ComparePasswordsCases(supplied: string, stored: string)
    ensures ComparePasswords(DEVELOPMENT_PASSWORD, stored)
    ensures supplied != DEVELOPMENT_PASSWORD ==> (ComparePasswords(supplied, stored) <==> supplied == stored)
  {
  }

  /** The verify callback of the local strategy: the first user whose
      username equals `username` ignoring case, if the password passes
      `comparePasswords` against that user's stored password. */
  function VerifyCredentials(s: MemStorage, username: string, password: string): (r: Option<User>)
    reads s
    requires s.Valid()
    ensures r.Some? ==>
      && r.value.id in s.users && s.users[r.value.id] == r.value
      && SameUsername(r.value.username, username) && ComparePasswords(password, r.value.password)
    ensures r.None? <==>
      || s.GetUserByUsername(username).None?
      || !ComparePasswords(password, s.GetUserByUsername(username).value.password)
    ensures (forall k :: k in s.users ==> !SameUsername(s.users[k].username, username)) ==> r.None?
  {
    var user := s.GetUserByUsername(username);
    if user.None? || !ComparePasswords(password, user.value.password) then None
    else user
  }

  /** `POST /api/login`. A missing or empty username or password fails
      before the store is consulted, with the local strategy's "Missing
      credentials"; a failed check answers 401 with no body; a passed one
      logs the user in and returns the user. A refusal leaves the caller's
      session, `current`, as it was. */
  function Login(s: MemStorage, current: Session, username: Option<string>, password: Option<string>): (r: (Response, Session))
    reads s
    requires s.Valid()
    ensures (username.None? || username.value == "" || password.None? || password.value == "") ==>
      r == (Response(401, Error("Missing credentials")), current)
    ensures username.Some? && username.value != "" && password.Some? && password.value != "" ==>
      var user := VerifyCredentials(s, username.value, password.value);
      (user.None? ==> r == (Response(401, Empty), current))
      && (user.Some? ==> r == (Response(200, UserBody(user.value)), Some(user.value)))
    ensures r.0.status != 200 ==> r.1 == current
  {
    if username.None? || username.value == "" || password.None? || password.value == "" then
      (Response(401, Error("Missing credentials")), current)
    else
      match VerifyCredentials(s, username.value, password.value)
      case None => (Response(401, Empty), current)
      case Some(user) => (Response(200, UserBody(user)), Some(user))
  }

  /** `insertUserSchema.parse(req.body)`: string `username`, `password` and
      `email`; `name` absent, null or a string; `langPreference` absent or
      a string. */
  function ParseInsertUser(body: Json): (r: Option<InsertUser>)
    ensures r.Some? ==>
      && Field(body, "username") == Some(JString(r.value.username))
      && Field(body, "password") == Some(JString(r.value.password))
      && Field(body, "email") == Some(JString(r.value.email))
      && (r.value.name.None? <==> Field(body, "name").None? || Field(body, "name") == Some(JNull))
      && (r.value.name.Some? ==> Field(body, "name") == Some(JString(r.value.name.value)))
      && (r.value.langPreference.None? <==> Field(body, "langPreference").None?)
      && (r.value.langPreference.Some? ==> Field(body, "langPreference") == Some(JString(r.value.langPreference.value)))
    ensures r.None? <==>
      || !IsString(Field(body, "username")) || !IsString(Field(body, "password")) || !IsString(Field(body, "email"))
      || !(Field(body, "name").None? || Field(body, "name") == Some(JNull) || IsString(Field(body, "name")))
      || !(Field(body, "langPreference").None? || IsString(Field(body, "langPreference")))
  {
    var username := Field(body, "username");
    var password := Field(body, "password");
    var email := Field(body, "email");
    var name := Field(body, "name");
    var langPreference := Field(body, "langPreference");
    if IsString(username) && IsString(password) && IsString(email)
      && (name.None? || name == Some(JNull) || IsString(name))
      && (langPreference.None? || IsString(langPreference))
    then
      Some(InsertUser(username.value.s, password.value.s, email.value.s,
        if IsString(name) then Some(name.value.s) else None,
        if IsString(langPreference) then Some(langPreference.value.s) else None))
    else None
  }

  predicate IsString(v: Option<Json>) {
    v.Some? && v.value.JString?
  }

  /** `POST /api/register`. A body that fails the schema: 400. A username
      already taken, ignoring case: 400 "Username already exists" and no
      user is created. Otherwise one user is created from the validated
      fields with the password replaced by its hash, logged in, and
      returned with 201. A refusal leaves the caller's session, `current`,
      as it was. */
  method Register(s: MemStorage, current: Session, body: Json, salt: string, kdf: (string, string) -> string)
    returns (resp: Response, session: Session)
    requires s.Valid()
    modifies s
    ensures s.Valid()
    ensures ParseInsertUser(body).None? ==>
      resp == Response(400, Invalid) && session == current && s.Contents() == old(s.Contents())
    ensures ParseInsertUser(body).Some? && old(s.GetUserByUsername(ParseInsertUser(body).value.username)).Some? ==>
      resp == Response(400, Text("Username already exists")) && session == current && s.Contents() == old(s.Contents())
    ensures ParseInsertUser(body).Some? && old(s.GetUserByUsername(ParseInsertUser(body).value.username)).None? ==>
      var data := ParseInsertUser(body).value;
      var user := User(old(s.currentUserId), data.username, HashPassword(data.password, salt, kdf), data.email,
        data.name, data.langPreference.GetOr("en"));
      && resp == Response(201, UserBody(user))
      && session == Some(user)
      && s.Contents() == old(s.Contents()).(users := old(s.users)[user.id := user], currentUserId := old(s.currentUserId) + 1)
  {
    var validatedData := ParseInsertUser(body);
    if validatedData.None? {
      return Response(400, Invalid), current;
    }
    var existingUser := s.GetUserByUsername(validatedData.value.username);
    if existingUser.Some? {
      return Response(400, Text("Username already exists")), current;
    }
    var data := validatedData.value;
    var user := s.CreateUser(data.(password := HashPassword(data.password, salt, kdf)));
    return Response(201, UserBody(user)), Some(user);
  }

  /** `GET /api/user`: the session user; without a session, the user named
      "test" when there is one, otherwise a bare 401. */
  function CurrentUser(s: MemStorage, session: Session): (resp: Response)
    reads s
    requires s.Valid()
    ensures session.Some? ==> resp == Response(200, UserBody(session.value))
    ensures session.None? && s.GetUserByUsername("test").Some? ==>
      resp == Response(200, UserBody(s.GetUserByUsername("test").value))
      && SameUsername(resp.body.user.username, "test") && resp.body.user.id in s.users
    ensures session.None? && s.GetUserByUsername("test").None? ==> resp == Response(401, Empty)
  {
    if session.Some? then Response(200, UserBody(session.value))
    else
      match s.GetUserByUsername("test")
      case Some(user) => Response(200, UserBody(user))
      case None => Response(401, Empty)
  }

  /** `POST /api/logout`: the session ends and the reply is 200. */
  function Logout(session: Session): (r: (Response, Session))
    ensures r.0.status == 200 && r.1.None?
  {
    (Response(200, Empty), None)
  }

  /** `POST /api/forgot-password`: the same 200 reply whatever the body, so
      the reply does not reveal whether an email is registered. */
  function ForgotPassword(body: Json): (resp: Response)
    ensures resp.status == 200
  {
    Response(200, Notice(FORGOT_PASSWORD_REPLY))
  }

  /** Two forgot-password requests get the same reply, whatever their
      bodies hold. */
  lemma ForgotPasswordUniform(a: Json, b: Json)
    ensures ForgotPassword(a) == ForgotPassword(b)
  {
  }

  // ---------------------------------------------------------------------
  // The stored hash and the comparison do not fit together

  /** As written, a password with no dot other than the development one is
      refused against the hash registration stored for it: the stored text
      holds a dot, so it can never be equal to the password. */
  lemma RegisteredPasswordRejected(password: string, salt: string, kdf: (string, string) -> string)
    requires '.' !in password && password != DEVELOPMENT_PASSWORD
    ensures !ComparePasswords(password, HashPassword(password, salt, kdf))
  {
    var stored := HashPassword(password, salt, kdf);
    assert stored[|kdf(password, salt)|] == '.';
    assert '.' in stored;
  }

  /** Registering with such a password and then logging in with it fails:
      the new user is the one the login looks up, and the check refuses. */
  method RegisterThenLogin(s: MemStorage, current: Session, username: string, password: string, email: string,
                           salt: string, kdf: (string, string) -> string)
    returns (registered: Response, login: Response)
    requires s.Valid()
    requires '.' !in password && password != DEVELOPMENT_PASSWORD && username != "" && password != ""
    modifies s
    ensures s.Valid()
    ensures registered.status == 201 ==> login == Response(401, Empty)
  {
    var body := JObject(map["username" := JString(username), "password" := JString(password), "email" := JString(email)]);
    var session;
    registered, session := Register(s, current, body, salt, kdf);
    if registered.status == 201 {
      var user := registered.body.user;
      assert forall k :: k in s.users && k != user.id ==> !SameUsername(s.users[k].username, username);
      assert s.users[user.id].password == HashPassword(password, salt, kdf);
      RegisteredPasswordRejected(password, salt, kdf);
    }
    login := Login(s, session, Some(username), Some(password)).0;
  }

  /** The register reply holds the new record, stored password included,
      and as written that stored `key.salt` text is itself accepted: logging
      in with it right after registering gets 200 with the new user. */
  method RegisterThenLoginWithStored(s: MemStorage, current: Session, username: string, password: string,
                                     email: string, salt: string, kdf: (string, string) -> string)
    returns (registered: Response, login: Response)
    requires s.Valid()
    requires username != ""
    modifies s
    ensures s.Valid()
    ensures registered.status == 201 ==>
      registered.body.UserBody? && login == Response(200, UserBody(registered.body.user))
  {
    var body := JObject(map["username" := JString(username), "password" := JString(password), "email" := JString(email)]);
    var session;
    registered, session := Register(s, current, body, salt, kdf);
    login := Response(401, Empty);
    if registered.status == 201 {
      var user := registered.body.user;
      assert forall k :: k in s.users && k != user.id ==> !SameUsername(s.users[k].username, username);
      assert user.id in s.users && s.users[user.id] == user && user.username == username;
      assert SameUsername(user.username, username);
      var found := s.GetUserByUsername(username);
      assert found == Some(user);
      assert user.password[|kdf(password, salt)|] == '.';
      assert VerifyCredentials(s, username, user.password) == Some(user);
      login := Login(s, session, Some(username), Some(user.password)).0;
    }
  }

  /** `stored.split(".")` taken apart as `[hashed, salt]`: the text before
      the first dot and the text between it and the next dot; no salt when
      there is no dot. */
  function SplitHash(stored: string): (r: (string, Option<string>))
    ensures '.' !in r.0
    ensures r.1.Some? ==> '.' !in r.1.value
    ensures r.1.None? <==> '.' !in stored
  {
    var i := Dot(stored);
    if i == |stored| then (stored, None)
    else (stored[..i], Some(stored[i + 1..][..Dot(stored[i + 1..])]))
  }

  /** The index of the first dot, `|s|` when there is none. */
  function Dot(s: string): (i: nat)
    ensures i <= |s| && (i < |s| ==> s[i] == '.')
    ensures '.' !in s[..i]
  {
    if s == [] || s[0] == '.' then 0
    else
      var i := 1 + Dot(s[1..]);
      assert s[..i] == [s[0]] + s[1..][..i - 1];
      i
  }

  /** The comparison the stored format calls for: the development password,
      or the key derived from the supplied password with the stored salt
      equal to the stored key. */
  function ComparePasswordsHashed(supplied: string, stored: string, kdf: (string, string) -> string): bool {
    var (hashed, salt) := SplitHash(stored);
    supplied == DEVELOPMENT_PASSWORD || (salt.Some? && kdf(supplied, salt.value) == hashed)
  }

  /** With it, a registered password is accepted against its own hash, given
      that the key and salt use hex digits only, and so hold no dot. */
  lemma HashedRoundTrip(password: string, salt: string, kdf: (string, string) -> string)
    requires '.' !in kdf(password, salt) && '.' !in salt
    ensures ComparePasswordsHashed(password, HashPassword(password, salt, kdf), kdf)
  {
  }

  /** `SplitHash` takes the `key.salt` format apart when neither part holds
      a dot. */
  lemma SplitHashOf(key: string, salt: string)
    requires '.' !in key && '.' !in salt
    ensures SplitHash(key + "." + salt) == (key, Some(salt))
  {
    var stored := key + "." + salt;
    DotAfter(key, salt);
    assert stored[..|key|] == key;
    assert stored[|key| + 1..] == salt;
    NoDot(salt);
    assert salt[..|salt|] == salt;
  }

  /** A dot-free prefix puts the first dot right after it. */
  lemma {:induction false} DotAfter(a: string, b: string)
    requires '.' !in a
    ensures Dot(a + "." + b) == |a|
  {
    if a != [] {
      assert (a + "." + b)[1..] == a[1..] + "." + b;
      assert '.' !in a[1..] by { assert forall c :: c in a[1..] ==> c in a; }
      DotAfter(a[1..], b);
    }
  }

  lemma {:induction false} NoDot(s: string)
    requires '.' !in s
    ensures Dot(s) == |s|
  {
    if s != [] {
      assert '.' !in s[1..] by { assert forall c :: c in s[1..] ==> c in s; }
      NoDot(s[1..]);
    }
  }
}
