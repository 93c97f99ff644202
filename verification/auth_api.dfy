/**
 The authentication endpoint: one POST carries an action, "signup" or
 "login", with an e-mail address and a password. Signup stores a new user
 with the password hashed; login looks the user up by e-mail and compares
 the password with the stored hash. Password hashing is kept abstract: a
 `Crypto` supplies the hash and the comparison.
 */
module AuthApi {
  import opened Base
  import opened Domain

  const DefaultBio: string := "Hey there! I am using ConnectUp."
  const AvatarSeedUrl: string := "https://api.dicebear.com/7.x/avataaars/svg?seed="

  /** The schema's message when a user is created without a name. */
  const NameRequired: string := "User validation failed: name: Path `name` is required."

  datatype AuthRequest = AuthRequest(action: Option<string>, email: Option<string>, password: Option<string>, name: Option<string>)

  /** The user as the endpoint returns it (no password). */
  datatype Profile = Profile(
    id: Id, name: string, email: string, phone: string, avatar: string, bio: string,
    status: Presence, lastSeen: Millis)

  /** Password hashing and comparison. */
  datatype Crypto = Crypto(hash: string -> string, compare: (string, string) -> bool)

  /** The comparison accepts exactly the password that was hashed. */
  ghost predicate Sound(c: Crypto)
  {
    forall p, q :: c.compare(p, c.hash(q)) <==> p == q
  }

  function UserIds(st: Store): set<Id>
  {
    set u | u in st.users :: u.id
  }

  /** The returned profile: a missing phone number reads as "". */
  function ProfileOf(u: User): (p: Profile)
    ensures p.id == u.id && p.email == u.email && p.name == u.name
    ensures p.phone == (if u.phone.Some? then u.phone.value else "")
  {
    Profile(u.id, u.name, u.email, if u.phone.Some? then u.phone.value else "", u.avatar, u.bio, u.status, u.lastSeen)
  }

  function Register(st: Store, name: Option<string>, email: string, password: string, crypto: Crypto,
                    freshId: Id, now: Millis): Handled<Profile>
  {
    if UserByEmail(st, email).Some? then Refuse(st, 400, "User already exists")
    else if !Present(name) then Refuse(st, 500, NameRequired)
    else
      var u := User(freshId, name.value, email, crypto.hash(password), None,
                    AvatarSeedUrl + name.value, DefaultBio, Offline, now);
      Handled(st.(users := st.users + [u]), Ok(ProfileOf(u)))
  }

  function LogIn(st: Store, email: string, password: string, crypto: Crypto): Reply<Profile>
  {
    match UserByEmail(st, email)
    case None => Fail(400, "User not found")
    case Some(u) =>
      if !crypto.compare(password, u.password) then Fail(400, "Invalid password")
      else Ok(ProfileOf(u))
  }

  /**
   The endpoint as written: the action is checked first, then the presence
   of both credentials; signup uses them as sent, login trims both.
   */
  function Authenticate(st: Store, req: AuthRequest, crypto: Crypto, freshId: Id, now: Millis): Handled<Profile>
    requires freshId !in UserIds(st)
  {
    if !Present(req.action) then Refuse(st, 400, "Action is required")
    else if !Present(req.email) || !Present(req.password) then Refuse(st, 400, "Email and password are required")
    else if req.action.value == "signup" then
      Register(st, req.name, req.email.value, req.password.value, crypto, freshId, now)
    else if req.action.value == "login" then
      Handled(st, LogIn(st, Trim(req.email.value), Trim(req.password.value), crypto))
    else Refuse(st, 400, "Invalid action")
  }

  /** The endpoint with signup normalising the credentials the way login does. */
  function AuthenticateCorrected(st: Store, req: AuthRequest, crypto: Crypto, freshId: Id, now: Millis): Handled<Profile>
    requires freshId !in UserIds(st)
  {
    if Present(req.action) && req.action.value == "signup" && Present(req.email) && Present(req.password) then
      Authenticate(st, req.(email := Some(Trim(req.email.value)), password := Some(Trim(req.password.value))),
                   crypto, freshId, now)
    else Authenticate(st, req, crypto, freshId, now)
  }

  function Signup(name: string, email: string, password: string): AuthRequest
  {
    AuthRequest(Some("signup"), Some(email), Some(password), Some(name))
  }

  function Login(email: string, password: string): AuthRequest
  {
    AuthRequest(Some("login"), Some(email), Some(password), None)
  }

  /**
   A missing action is refused before anything else is looked at, then
   missing credentials, and an action other than signup or login after
   that; none of these changes the store.
   */
  lemma AuthRefusals(st: Store, req: AuthRequest, crypto: Crypto, freshId: Id, now: Millis)
    requires freshId !in UserIds(st)
    ensures !Present(req.action) ==> Authenticate(st, req, crypto, freshId, now) == Handled(st, Fail(400, "Action is required"))
    ensures Present(req.action) && (!Present(req.email) || !Present(req.password)) ==>
      Authenticate(st, req, crypto, freshId, now) == Handled(st, Fail(400, "Email and password are required"))
    ensures Present(req.action) && Present(req.email) && Present(req.password)
            && req.action.value != "signup" && req.action.value != "login" ==>
      Authenticate(st, req, crypto, freshId, now) == Handled(st, Fail(400, "Invalid action"))
    ensures Present(req.action) && req.action.value == "login" ==> Authenticate(st, req, crypto, freshId, now).st == st
  {
  }

  /**
   A signup for a new address stores exactly one user, with the hash of the
   password as sent, the default bio, status offline and an avatar seeded by
   the name; the answer shows an empty phone number.
   */
  lemma SignupStoresUser(st: Store, name: string, email: string, password: string, crypto: Crypto, freshId: Id, now: Millis)
    requires freshId !in UserIds(st) && name != "" && email != "" && password != ""
    requires forall u :: u in st.users ==> u.email != email
    ensures var h := Authenticate(st, Signup(name, email, password), crypto, freshId, now);
      && h.st.users == st.users + [User(freshId, name, email, crypto.hash(password), None,
                                        AvatarSeedUrl + name, DefaultBio, Offline, now)]
      && h.st.chats == st.chats && h.st.messages == st.messages && h.st.requests == st.requests
      && h.reply.Ok? && h.reply.body.phone == "" && h.reply.body.id == freshId && h.reply.body.email == email
  {
  }

  /** A second signup with a taken address is refused and changes nothing; so is a signup without a name. */
  lemma SignupRefusals(st: Store, name: Option<string>, email: string, password: string, crypto: Crypto, freshId: Id, now: Millis)
    requires freshId !in UserIds(st) && email != "" && password != ""
    ensures (exists u :: u in st.users && u.email == email) ==>
      Authenticate(st, AuthRequest(Some("signup"), Some(email), Some(password), name), crypto, freshId, now)
        == Handled(st, Fail(400, "User already exists"))
    ensures (forall u :: u in st.users ==> u.email != email) && !Present(name) ==>
      Authenticate(st, AuthRequest(Some("signup"), Some(email), Some(password), name), crypto, freshId, now)
        == Handled(st, Fail(500, NameRequired))
  {
  }

  /** Login ignores surrounding whitespace in both fields. */
  lemma LoginTrims(st: Store, email: string, password: string, crypto: Crypto, freshId: Id, now: Millis)
    requires freshId !in UserIds(st) && Trim(email) != "" && Trim(password) != ""
    ensures Authenticate(st, Login(email, password), crypto, freshId, now)
         == Authenticate(st, Login(Trim(email), Trim(password)), crypto, freshId, now)
  {
    TrimIdempotent(email);
    TrimIdempotent(password);
  }

  /** An unknown address and a wrong password are told apart. */
  lemma LoginFailures(st: Store, email: string, password: string, crypto: Crypto)
    ensures UserByEmail(st, email).None? ==> LogIn(st, email, password, crypto) == Fail(400, "User not found")
    ensures UserByEmail(st, email).Some? && !crypto.compare(password, UserByEmail(st, email).value.password) ==>
      LogIn(st, email, password, crypto) == Fail(400, "Invalid password")
  {
  }

  /** The user a signup stored is the one login finds by that address. */
  lemma NewUserFound(st: Store, u: User)
    requires forall v :: v in st.users ==> v.email != u.email
    ensures UserByEmail(st.(users := st.users + [u]), u.email) == Some(u)
  {
  }

  /**
   As written, signing up and logging in with the same credentials works
   when they carry no surrounding whitespace, and login returns the profile
   signup returned.
   */
  lemma SignupThenLogin(st: Store, name: string, email: string, password: string, crypto: Crypto,
                        id1: Id, id2: Id, now: Millis)
    requires Sound(crypto) && id1 !in UserIds(st) && name != "" && email != "" && password != ""
    requires Trim(email) == email && Trim(password) == password
    requires forall u :: u in st.users ==> u.email != email
    ensures var h := Authenticate(st, Signup(name, email, password), crypto, id1, now);
      && h.reply.Ok?
      && (id2 !in UserIds(h.st) ==> Authenticate(h.st, Login(email, password), crypto, id2, now) == Handled(h.st, h.reply))
  {
    var h := Authenticate(st, Signup(name, email, password), crypto, id1, now);
    var u := User(id1, name, email, crypto.hash(password), None, AvatarSeedUrl + name, DefaultBio, Offline, now);
    assert h.st == st.(users := st.users + [u]);
    NewUserFound(st, u);
    assert crypto.compare(password, crypto.hash(password));
  }

  /**
   As written, a password with a trailing space passes signup (it is stored
   as typed) but can never be used to log in: login compares the trimmed
   password with the hash of the untrimmed one.
   */
  lemma PaddedPasswordLocksOut(st: Store, crypto: Crypto, id1: Id, id2: Id, now: Millis)
    requires Sound(crypto) && id1 !in UserIds(st)
    requires forall u :: u in st.users ==> u.email != "ann@example.com"
    ensures var h := Authenticate(st, Signup("Ann", "ann@example.com", "secret1 "), crypto, id1, now);
      && h.reply.Ok?
      && (id2 !in UserIds(h.st) ==>
            Authenticate(h.st, Login("ann@example.com", "secret1 "), crypto, id2, now) == Handled(h.st, Fail(400, "Invalid password")))
  {
    var email := "ann@example.com";
    var h := Authenticate(st, Signup("Ann", email, "secret1 "), crypto, id1, now);
    var u := User(id1, "Ann", email, crypto.hash("secret1 "), None, AvatarSeedUrl + "Ann", DefaultBio, Offline, now);
    assert h.st == st.(users := st.users + [u]);
    NewUserFound(st, u);
    ExampleEmailTrim();
    PaddedPasswordTrim();
    assert !crypto.compare("secret1", crypto.hash("secret1 "));
  }

  lemma ExampleEmailTrim()
    ensures Trim("ann@example.com") == "ann@example.com"
  {
    var email := "ann@example.com";
    assert email[0] == 'a' && email[14] == 'm';
    TrimUntouched(email);
  }

  lemma PaddedPasswordTrim()
    ensures Trim("secret1 ") == "secret1"
  {
    var padded := "secret1 ";
    var bare := "secret1";
    assert !IsJsWhitespace(padded[0]);
    assert TrimStart(padded) == padded;
    assert IsJsWhitespace(padded[7]);
    assert padded[..7] == bare;
    assert TrimEnd(padded) == TrimEnd(bare);
    assert !IsJsWhitespace(bare[6]);
    assert TrimEnd(bare) == bare;
  }

  /**
   With signup trimming like login, any credentials that survive trimming
   can be used to log in exactly as they were typed at signup.
   */
  lemma SignupThenLoginCorrected(st: Store, name: string, email: string, password: string, crypto: Crypto,
                                 id1: Id, id2: Id, now: Millis)
    requires Sound(crypto) && id1 !in UserIds(st) && name != ""
    requires Trim(email) != "" && Trim(password) != ""
    requires forall u :: u in st.users ==> u.email != Trim(email)
    ensures var h := AuthenticateCorrected(st, Signup(name, email, password), crypto, id1, now);
      && h.reply.Ok?
      && (id2 !in UserIds(h.st) ==> AuthenticateCorrected(h.st, Login(email, password), crypto, id2, now) == Handled(h.st, h.reply))
  {
    var h := AuthenticateCorrected(st, Signup(name, email, password), crypto, id1, now);
    SignupNormalised(st, name, email, password, crypto, id1, now);
    StoredThenFound(st, name, Trim(email), Trim(password), crypto, id1, now);
    if id2 !in UserIds(h.st) {
      LoginNormalised(h.st, email, password, crypto, id2, now);
    }
  }

  /** The corrected signup is the endpoint fed the trimmed credentials. */
  lemma SignupNormalised(st: Store, name: string, email: string, password: string, crypto: Crypto, id1: Id, now: Millis)
    requires id1 !in UserIds(st) && name != ""
    requires Trim(email) != "" && Trim(password) != ""
    ensures AuthenticateCorrected(st, Signup(name, email, password), crypto, id1, now)
         == Authenticate(st, Signup(name, Trim(email), Trim(password)), crypto, id1, now)
  {
    TrimmedNonEmpty(email);
    TrimmedNonEmpty(password);
  }

  /** Login, corrected or not, looks up the trimmed credentials and changes nothing. */
  lemma LoginNormalised(st: Store, email: string, password: string, crypto: Crypto, id2: Id, now: Millis)
    requires id2 !in UserIds(st)
    requires Trim(email) != "" && Trim(password) != ""
    ensures AuthenticateCorrected(st, Login(email, password), crypto, id2, now)
         == Handled(st, LogIn(st, Trim(email), Trim(password), crypto))
  {
    TrimmedNonEmpty(email);
    TrimmedNonEmpty(password);
    LoginAsWritten(st, email, password, crypto, id2, now);
  }

  /** A login request, corrected or not, is answered from the credentials' trimmed forms. */
  lemma LoginAsWritten(st: Store, email: string, password: string, crypto: Crypto, id2: Id, now: Millis)
    requires id2 !in UserIds(st) && email != "" && password != ""
    ensures AuthenticateCorrected(st, Login(email, password), crypto, id2, now)
         == Handled(st, LogIn(st, Trim(email), Trim(password), crypto))
  {
    var req := Login(email, password);
    assert req.action == Some("login");
    assert AuthenticateCorrected(st, req, crypto, id2, now) == Authenticate(st, req, crypto, id2, now);
  }

  lemma TrimmedNonEmpty(s: string)
    requires Trim(s) != ""
    ensures s != ""
  {
  }

  /** After a signup with exactly these credentials, looking them up finds the profile signup returned. */
  lemma StoredThenFound(st: Store, name: string, e: string, p: string, crypto: Crypto, id1: Id, now: Millis)
    requires Sound(crypto) && id1 !in UserIds(st) && name != "" && e != "" && p != ""
    requires forall u :: u in st.users ==> u.email != e
    ensures var h := Authenticate(st, Signup(name, e, p), crypto, id1, now);
      && h.reply.Ok? && LogIn(h.st, e, p, crypto) == h.reply
  {
    var u := User(id1, name, e, crypto.hash(p), None, AvatarSeedUrl + name, DefaultBio, Offline, now);
    SignupStoresUser(st, name, e, p, crypto, id1, now);
    NewUserFound(st, u);
    assert crypto.compare(p, crypto.hash(p));
  }
}
