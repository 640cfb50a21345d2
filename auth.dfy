/**
 * controllers/auth.controller.js: the session handlers. Login checks the
 * credentials, backfills a missing numeric id, signs an access and a refresh
 * token and stores the refresh token; refresh trades a stored refresh token
 * for a new access token; logout forgets the stored token; signup registers
 * a user with the role `user`.
 */
module AuthController {
  import opened Wrappers
  import opened Text
  import opened Schema
  import opened Crypto
  import opened Http
  import opened Store

  /** The payload both tokens carry: `{ id, username, role }`; a user without a numeric id signs no `id`. */
  function TokenClaims(u: UserRec): Claims {
    Claims(if u.id.Some? then Num(u.id.value) else Missing, u.username, RoleName(u.role))
  }

  /** jsonwebtoken's contract: a signed token is non-empty and verifies, with the same secret, to its payload. */
  ghost predicate Sound(cfg: Config) {
    forall c, s :: cfg.sign(c, s) != "" && cfg.verify(cfg.sign(c, s), s) == Some(c)
  }

  /** `generateAccessToken`: a token that the access secret verifies to the user's claims. */
  function AccessToken(cfg: Config, u: UserRec): (token: string)
    ensures Sound(cfg) ==> token != "" && cfg.verify(token, cfg.accessSecret) == Some(TokenClaims(u))
  {
    cfg.sign(TokenClaims(u), cfg.accessSecret)
  }

  /** `generateRefreshToken`: a token that the refresh secret verifies to the user's claims. */
  function RefreshToken(cfg: Config, u: UserRec): (token: string)
    ensures Sound(cfg) ==> token != "" && cfg.verify(token, cfg.refreshSecret) == Some(TokenClaims(u))
  {
    cfg.sign(TokenClaims(u), cfg.refreshSecret)
  }

  /** Each token carries the user's id, username and role, and verifies with its own secret. */
  lemma TokensCarryUser(cfg: Config, u: UserRec)
    requires Sound(cfg)
    ensures cfg.verify(AccessToken(cfg, u), cfg.accessSecret) == Some(TokenClaims(u))
    ensures cfg.verify(RefreshToken(cfg, u), cfg.refreshSecret) == Some(TokenClaims(u))
    ensures TokenClaims(u).username == u.username && ParseRole(TokenClaims(u).role) == Some(u.role)
    ensures u.id.Some? ==> TokenClaims(u).id == Num(u.id.value)
  {
    RoleRoundTrip(u.role);
  }

  /**
   * The credential checks of `login`: 400 when a field is falsy; the same
   * 401 for an unknown username and for a wrong password; otherwise the
   * position of the user. The `username` filter is trimmed as the schema's
   * setter trims it.
   */
  function Credentials(users: seq<UserRec>, cfg: Config, username: Option<string>, password: Option<string>)
    : (r: Check<nat>)
    ensures Falsy(username) || Falsy(password) ==> r == Reject(Error(400, "Username and password are required"))
    ensures !Falsy(username) && !Falsy(password) ==>
              (r.Pass? <==> UserByName(users, Trim(username.value)).Some?
                            && cfg.matches(password.value, users[UserByName(users, Trim(username.value)).value].password))
    ensures !Falsy(username) && !Falsy(password) && r.Reject? ==> r.error == Error(401, "Invalid credentials")
    ensures r.Pass? ==> r.value < |users| && users[r.value].username == Trim(username.value)
  {
    if Falsy(username) || Falsy(password) then Reject(Error(400, "Username and password are required"))
    else
      match UserByName(users, Trim(username.value))
      case None => Reject(Error(401, "Invalid credentials"))
      case Some(i) =>
        if cfg.matches(password.value, users[i].password) then Pass(i)
        else Reject(Error(401, "Invalid credentials"))
  }

  /** The user as login leaves it: its numeric id if it has one, else `next` from the counter. */
  function SignedIn(u: UserRec, next: int): (r: UserRec)
    ensures HasNumericId(u) ==> r == u
    ensures !HasNumericId(u) ==> r == u.(id := Some(next))
  {
    if HasNumericId(u) then u else u.(id := Some(next))
  }

  /** The `user` object of the login response: no password hash and no token. */
  datatype Profile = Profile(id: Option<int>, username: string, role: string, profilePicture: Option<string>)

  datatype Session = Session(accessToken: string, refreshToken: string, user: Profile)

  function ProfileOf(u: UserRec): Profile {
    Profile(u.id, u.username, RoleName(u.role), u.profilePicture)
  }

  /**
   * What `login` does for the user at position `i` once the credentials
   * check out: a user without a numeric id takes the next `userId`, both
   * tokens are signed for the user, and `updateOne({ id })` stores the
   * refresh token on it.
   */
  method OpenSession(db: Db, cfg: Config, i: nat) returns (s: Session)
    requires db.Valid() && i < |db.users|
    modifies db
    ensures db.Valid()
    ensures var u := SignedIn(old(db.users)[i], old(db.Counter(UserCounter)) + 1);
            && s == Session(AccessToken(cfg, u), RefreshToken(cfg, u), ProfileOf(u))
            && db.users == old(db.users)[i := u.(refreshToken := Some(RefreshToken(cfg, u)))]
    ensures db.counters == if HasNumericId(old(db.users)[i]) then old(db.counters)
                           else old(db.counters)[UserCounter := old(db.Counter(UserCounter)) + 1]
    ensures db.tasks == old(db.tasks) && db.blobs == old(db.blobs) && db.clock == old(db.clock)
  {
    if !HasNumericId(db.users[i]) {
      var n := db.AssignUserId(i);
    }
    var u := db.users[i];
    assert UserOk(u, db.Counter(UserCounter), db.clock);
    var access := AccessToken(cfg, u);
    var refresh := RefreshToken(cfg, u);
    UserByIdUnique(db.users, db.Counter(UserCounter), db.clock, i);
    db.ReplaceUser(UserById(db.users, u.id.value).value, u.(refreshToken := Some(refresh)));
    s := Session(access, refresh, ProfileOf(u));
  }

  /**
   * `login`: after the checks, a user without a numeric id gets one, both
   * tokens are signed for the user, and the refresh token replaces the
   * stored one.
   */
  method Login(db: Db, cfg: Config, username: Option<string>, password: Option<string>) returns (r: Reply<Session>)
    requires db.Valid()
    modifies db
    ensures db.Valid()
    ensures Credentials(old(db.users), cfg, username, password).Reject? ==>
              r == Fail(Credentials(old(db.users), cfg, username, password).error) && unchanged(db)
    ensures Credentials(old(db.users), cfg, username, password).Pass? ==>
              var i := Credentials(old(db.users), cfg, username, password).value;
              var u := SignedIn(old(db.users)[i], old(db.Counter(UserCounter)) + 1);
              && r == Ok(200, Session(AccessToken(cfg, u), RefreshToken(cfg, u), ProfileOf(u)))
              && db.users == old(db.users)[i := u.(refreshToken := Some(RefreshToken(cfg, u)))]
              && db.counters == (if HasNumericId(old(db.users)[i]) then old(db.counters)
                                 else old(db.counters)[UserCounter := old(db.Counter(UserCounter)) + 1])
              && db.tasks == old(db.tasks) && db.blobs == old(db.blobs) && db.clock == old(db.clock)
  {
    var check := Credentials(db.users, cfg, username, password);
    if check.Reject? {
      return Fail(check.error);
    }
    var session := OpenSession(db, cfg, check.value);
    r := Ok(200, session);
  }

  /** `User.findOne({ id, refresh_token })`: the user holding this refresh token. */
  function SessionOf(users: seq<UserRec>, n: int, token: string): (r: Option<nat>)
    ensures r.Some? ==> r.value < |users| && users[r.value].id == Some(n) && users[r.value].refreshToken == Some(token)
    ensures r.None? <==> forall k :: 0 <= k < |users| ==> !(users[k].id == Some(n) && users[k].refreshToken == Some(token))
  {
    if users == [] then None
    else if users[0].id == Some(n) && users[0].refreshToken == Some(token) then Some(0)
    else match SessionOf(users[1..], n, token)
      case None => None
      case Some(k) => Some(k + 1)
  }

  /**
   * `refreshToken`: 401 without a token; 403 when it does not verify with the
   * refresh secret or no user with its id stores it; otherwise a new access
   * token for that user.
   */
  function Refresh(users: seq<UserRec>, cfg: Config, token: Option<string>): (r: Reply<string>)
    ensures Falsy(token) ==> r == Fail(Error(401, "Refresh token required"))
    ensures !Falsy(token) && r.Fail? ==> r.error == Error(403, "Invalid refresh token")
    ensures r.Ok? <==> && !Falsy(token)
                       && cfg.verify(token.value, cfg.refreshSecret).Some?
                       && cfg.verify(token.value, cfg.refreshSecret).value.id.Num?
                       && SessionOf(users, cfg.verify(token.value, cfg.refreshSecret).value.id.n, token.value).Some?
    ensures r.Ok? ==> r.status == 200
    ensures r.Ok? ==>
              r.value == AccessToken(cfg, users[SessionOf(users, cfg.verify(token.value, cfg.refreshSecret).value.id.n, token.value).value])
  {
    if Falsy(token) then Fail(Error(401, "Refresh token required"))
    else
      match cfg.verify(token.value, cfg.refreshSecret)
      case None => Fail(Error(403, "Invalid refresh token"))
      case Some(c) =>
        if !c.id.Num? then Fail(Error(403, "Invalid refresh token"))
        else
          match SessionOf(users, c.id.n, token.value)
          case None => Fail(Error(403, "Invalid refresh token"))
          case Some(i) => Ok(200, AccessToken(cfg, users[i]))
  }

  /** The refresh token a login stores works: it buys an access token for the same user. */
  lemma StoredRefreshWorks(users: seq<UserRec>, top: int, clock: nat, cfg: Config, i: nat)
    requires Sound(cfg) && UsersValid(users, top, clock) && i < |users| && users[i].id.Some?
    requires users[i].refreshToken == Some(RefreshToken(cfg, users[i]))
    ensures Refresh(users, cfg, users[i].refreshToken) == Ok(200, AccessToken(cfg, users[i]))
  {
    var t := users[i].refreshToken.value;
    var n := users[i].id.value;
    assert cfg.verify(t, cfg.refreshSecret) == Some(TokenClaims(users[i]));
    forall k | 0 <= k < i
      ensures users[k].id != Some(n)
    {
      assert UsersApart(users[k], users[i]);
    }
    assert SessionOf(users, n, t) == Some(i);
  }

  /** A refresh token the user no longer stores (a later login replaced it, or logout cleared it) is refused. */
  lemma SupersededRefreshRefused(users: seq<UserRec>, top: int, clock: nat, cfg: Config, i: nat, token: string)
    requires UsersValid(users, top, clock) && i < |users| && users[i].refreshToken != Some(token)
    requires cfg.verify(token, cfg.refreshSecret).Some?
    requires users[i].id.Some? && cfg.verify(token, cfg.refreshSecret).value.id == Num(users[i].id.value)
    ensures Refresh(users, cfg, Some(token)).Fail?
  {
    var n := users[i].id.value;
    forall k | 0 <= k < |users|
      ensures !(users[k].id == Some(n) && users[k].refreshToken == Some(token))
    {
      if k < i {
        assert UsersApart(users[k], users[i]);
      } else if k > i {
        assert UsersApart(users[i], users[k]);
      }
    }
  }

  /** `User.findOneAndUpdate({ id }, { refresh_token: null })`: clears the stored token of the user with that id, if any. */
  function ClearSession(users: seq<UserRec>, n: int): (r: seq<UserRec>)
    ensures |r| == |users|
    ensures forall k :: 0 <= k < |users| ==>
              r[k] == if UserById(users, n) == Some(k) then users[k].(refreshToken := None) else users[k]
  {
    match UserById(users, n)
    case None => users
    case Some(i) => users[i := users[i].(refreshToken := None)]
  }

  /** A second logout leaves the same state as the first. */
  lemma ClearSessionIdempotent(users: seq<UserRec>, n: int)
    ensures ClearSession(ClearSession(users, n), n) == ClearSession(users, n)
  {
    var once := ClearSession(users, n);
    match UserById(users, n)
    case None =>
    case Some(i) =>
      assert forall k :: 0 <= k < |users| ==> once[k].id == users[k].id;
      assert UserById(once, n) == Some(i);
  }

  /** `logout`: always 200; the caller's stored refresh token becomes null. */
  method Logout(db: Db, caller: int) returns (r: Reply<string>)
    requires db.Valid()
    modifies db
    ensures db.Valid()
    ensures r == Ok(200, "Logged out successfully")
    ensures db.users == ClearSession(old(db.users), caller)
    ensures db.tasks == old(db.tasks) && db.counters == old(db.counters) && db.blobs == old(db.blobs) && db.clock == old(db.clock)
  {
    var found := UserById(db.users, caller);
    if found.Some? {
      var i := found.value;
      db.ReplaceUser(i, db.users[i].(refreshToken := None));
    }
    r := Ok(200, "Logged out successfully");
  }

  /** After logout, no refresh token of the caller is accepted. */
  lemma LogoutEndsSession(users: seq<UserRec>, top: int, clock: nat, cfg: Config, caller: int, token: string)
    requires UsersValid(users, top, clock)
    requires cfg.verify(token, cfg.refreshSecret).Some? && cfg.verify(token, cfg.refreshSecret).value.id == Num(caller)
    ensures Refresh(ClearSession(users, caller), cfg, Some(token)).Fail?
  {
    var after := ClearSession(users, caller);
    forall k | 0 <= k < |after|
      ensures !(after[k].id == Some(caller) && after[k].refreshToken == Some(token))
    {
      if after[k].id == Some(caller) {
        forall j | 0 <= j < k
          ensures users[j].id != Some(caller)
        {
          assert UsersApart(users[j], users[k]);
        }
        assert UserById(users, caller) == Some(k);
      }
    }
  }

  /** The `user` object of the signup response. */
  datatype Registered = Registered(id: Option<int>, username: string, role: string)

  datatype SignupReply = SignupReply(message: string, user: Registered)

  /**
   * The checks of `signup`, in their order, and the user it saves: a falsy
   * field, then a password under 6 UTF-16 units, then a taken username, then
   * a taken email when one is given, each a 400; a document that fails
   * validation on save is a 500. The user has the role `user`; `hash` is the
   * bcrypt hash of the password.
   */
  function NewAccount(users: seq<UserRec>, oid: Oid, hash: string, username: Option<string>, password: Option<string>, email: Option<string>)
    : (r: Check<UserRec>)
    ensures Falsy(username) || Falsy(password) ==> r == Reject(Error(400, "Username and password are required"))
    ensures !Falsy(username) && !Falsy(password) && Utf16Length(password.value) < 6 ==>
              r == Reject(Error(400, "Password must be at least 6 characters"))
    ensures && !Falsy(username) && !Falsy(password) && Utf16Length(password.value) >= 6
            && UserByName(users, Trim(username.value)).Some? ==>
              r == Reject(Error(400, "Username already exists"))
    ensures && !Falsy(username) && !Falsy(password) && Utf16Length(password.value) >= 6
            && UserByName(users, Trim(username.value)).None?
            && !Falsy(email) && UserByEmail(users, email.value).Some? ==>
              r == Reject(Error(400, "Email already exists"))
    ensures && !Falsy(username) && !Falsy(password) && Utf16Length(password.value) >= 6
            && UserByName(users, Trim(username.value)).None?
            && (Falsy(email) || UserByEmail(users, email.value).None?) ==>
              (r.Reject? <==> Trim(username.value) == "" || hash == "")
    ensures && !Falsy(username) && !Falsy(password) && Utf16Length(password.value) >= 6
            && UserByName(users, Trim(username.value)).None?
            && (Falsy(email) || UserByEmail(users, email.value).None?)
            && (Trim(username.value) == "" || hash == "") ==>
              r == Reject(Error(500, "Error creating account"))
    ensures r.Pass? ==> && r.value.username == Trim(username.value) && r.value.username != ""
                        && IsTrimmed(r.value.username) && UserByName(users, r.value.username).None?
                        && r.value.role == User && r.value.password == hash && r.value.oid == oid
                        && r.value.email == (if Falsy(email) then None else email)
                        && r.value.refreshToken.None? && r.value.profilePicture.None?
  {
    if Falsy(username) || Falsy(password) then Reject(Error(400, "Username and password are required"))
    else if Utf16Length(password.value) < 6 then Reject(Error(400, "Password must be at least 6 characters"))
    else if UserByName(users, Trim(username.value)).Some? then Reject(Error(400, "Username already exists"))
    else if !Falsy(email) && UserByEmail(users, email.value).Some? then Reject(Error(400, "Email already exists"))
    else
      match BuildUser(oid, username.value, hash, "user", if Falsy(email) then None else email)
      case None => Reject(Error(500, "Error creating account"))
      case Some(u) => Pass(u)
  }

  /** A registration with a readable username and a long enough, fresh name passes every check. */
  lemma FreshAccountAccepted(users: seq<UserRec>, oid: Oid, hash: string, username: string, password: string)
    requires Trim(username) != "" && hash != "" && Utf16Length(password) >= 6
    requires UserByName(users, Trim(username)).None?
    ensures NewAccount(users, oid, hash, Some(username), Some(password), None).Pass?
  {
  }

  /** A registration with a fresh name and an email no user holds passes every check and keeps the email. */
  lemma FreshEmailAccepted(users: seq<UserRec>, oid: Oid, hash: string, username: string, password: string, email: string)
    requires Trim(username) != "" && hash != "" && Utf16Length(password) >= 6 && email != ""
    requires UserByName(users, Trim(username)).None? && UserByEmail(users, email).None?
    ensures NewAccount(users, oid, hash, Some(username), Some(password), Some(email)).Pass?
    ensures NewAccount(users, oid, hash, Some(username), Some(password), Some(email)).value.email == Some(email)
  {
  }

  /** An email some user already holds is refused with 400, whatever the new username. */
  lemma DuplicateEmailRefused(users: seq<UserRec>, oid: Oid, hash: string, username: string, password: string, email: string)
    requires username != "" && Utf16Length(password) >= 6 && email != ""
    requires UserByName(users, Trim(username)).None? && UserByEmail(users, email).Some?
    ensures NewAccount(users, oid, hash, Some(username), Some(password), Some(email)) == Reject(Error(400, "Email already exists"))
  {
  }

  /**
   * `signup` as written. The `User` schema declares no `email` path, so the
   * saved document has no email. With `strictQuery` on (the Mongoose 6
   * default) the unknown path is also dropped from the filter of
   * `findOne({ email })`, which then matches any user; with it off (the
   * Mongoose 7 default) the filter matches no user.
   */
  function AccountAsWritten(users: seq<UserRec>, oid: Oid, hash: string, username: Option<string>, password: Option<string>,
                            email: Option<string>, strictQuery: bool)
    : (r: Check<UserRec>)
    ensures r.Pass? ==> r.value.email.None? && UserByName(users, r.value.username).None?
    ensures r.Pass? ==> Falsy(email) || !strictQuery || users == []
  {
    if Falsy(username) || Falsy(password) then Reject(Error(400, "Username and password are required"))
    else if Utf16Length(password.value) < 6 then Reject(Error(400, "Password must be at least 6 characters"))
    else if UserByName(users, Trim(username.value)).Some? then Reject(Error(400, "Username already exists"))
    else if !Falsy(email) && strictQuery && users != [] then Reject(Error(400, "Email already exists"))
    else
      match BuildUser(oid, username.value, hash, "user", None)
      case None => Reject(Error(500, "Error creating account"))
      case Some(u) => Pass(u)
  }

  /**
   * With `strictQuery` on, once one user exists every signup that gives an
   * email is refused as a duplicate, although no user holds that email and
   * the intended check accepts it.
   */
  lemma FreshEmailRefusedAsWritten(users: seq<UserRec>, oid: Oid, hash: string, username: string, password: string, email: string)
    requires users != [] && Trim(username) != "" && hash != "" && Utf16Length(password) >= 6 && email != ""
    requires UserByName(users, Trim(username)).None? && UserByEmail(users, email).None?
    ensures AccountAsWritten(users, oid, hash, Some(username), Some(password), Some(email), true)
              == Reject(Error(400, "Email already exists"))
    ensures NewAccount(users, oid, hash, Some(username), Some(password), Some(email)).Pass?
  {
    FreshEmailAccepted(users, oid, hash, username, password, email);
  }

  /**
   * With `strictQuery` off, the email is never stored, so a second account
   * with the same email is accepted: after one signup with `email`, a second
   * one with a new name and the same email passes.
   */
  lemma SecondEmailAcceptedAsWritten(users: seq<UserRec>, oid: Oid, oid2: Oid, hash: string,
                                     name1: string, name2: string, password: string, email: string)
    requires Trim(name1) != "" && Trim(name2) != "" && Trim(name1) != Trim(name2)
    requires hash != "" && Utf16Length(password) >= 6 && email != ""
    requires UserByName(users, Trim(name1)).None? && UserByName(users, Trim(name2)).None?
    ensures var first := AccountAsWritten(users, oid, hash, Some(name1), Some(password), Some(email), false);
            && first.Pass?
            && AccountAsWritten(users + [first.value], oid2, hash, Some(name2), Some(password), Some(email), false).Pass?
  {
    PassesWithoutStrictQuery(users, oid, hash, name1, password, email);
    var first := AccountAsWritten(users, oid, hash, Some(name1), Some(password), Some(email), false);
    NameStaysFree(users, first.value, Trim(name2));
    PassesWithoutStrictQuery(users + [first.value], oid2, hash, name2, password, email);
  }

  lemma PassesWithoutStrictQuery(users: seq<UserRec>, oid: Oid, hash: string, name: string, password: string, email: string)
    requires Trim(name) != "" && hash != "" && Utf16Length(password) >= 6
    requires UserByName(users, Trim(name)).None?
    ensures var r := AccountAsWritten(users, oid, hash, Some(name), Some(password), Some(email), false);
            r.Pass? && r.value.username == Trim(name)
  {
    assert name != "" && password != "";
    var built := BuildUser(oid, name, hash, "user", None);
    assert built.Some?;
  }

  /** The intended check refuses that second account: the first one stored the email. */
  lemma SecondEmailRefused(users: seq<UserRec>, oid: Oid, oid2: Oid, hash: string,
                           name1: string, name2: string, password: string, email: string)
    requires Trim(name1) != "" && Trim(name2) != "" && Trim(name1) != Trim(name2)
    requires hash != "" && Utf16Length(password) >= 6 && email != ""
    requires UserByName(users, Trim(name1)).None? && UserByName(users, Trim(name2)).None?
    requires UserByEmail(users, email).None?
    ensures var first := NewAccount(users, oid, hash, Some(name1), Some(password), Some(email));
            && first.Pass?
            && NewAccount(users + [first.value], oid2, hash, Some(name2), Some(password), Some(email))
                 == Reject(Error(400, "Email already exists"))
  {
    FreshEmailAccepted(users, oid, hash, name1, password, email);
    var first := NewAccount(users, oid, hash, Some(name1), Some(password), Some(email));
    NameStaysFree(users, first.value, Trim(name2));
    EmailNowTaken(users, first.value, email);
    DuplicateEmailRefused(users + [first.value], oid2, hash, name2, password, email);
  }

  lemma EmailNowTaken(users: seq<UserRec>, u: UserRec, email: string)
    requires u.email == Some(email)
    ensures UserByEmail(users + [u], email).Some?
  {
    assert (users + [u])[|users|] == u;
  }

  lemma NameStaysFree(users: seq<UserRec>, u: UserRec, name: string)
    requires UserByName(users, name).None? && u.username != name
    ensures UserByName(users + [u], name).None?
  {
    var all := users + [u];
    forall k | 0 <= k < |all|
      ensures all[k].username != name
    {
      if k < |users| {
        assert all[k] == users[k];
      }
    }
  }

  /** `signup`: on success the user is saved with the next user id and 201 returns its id, name and role. */
  method Signup(db: Db, oid: Oid, hash: string, username: Option<string>, password: Option<string>, email: Option<string>)
    returns (r: Reply<SignupReply>)
    requires db.Valid()
    modifies db
    ensures db.Valid()
    ensures NewAccount(old(db.users), oid, hash, username, password, email).Reject? ==>
              r == Fail(NewAccount(old(db.users), oid, hash, username, password, email).error) && unchanged(db)
    ensures NewAccount(old(db.users), oid, hash, username, password, email).Pass? ==>
              var u := NewAccount(old(db.users), oid, hash, username, password, email).value
                         .(id := Some(old(db.Counter(UserCounter)) + 1), createdAt := old(db.clock));
              && db.users == old(db.users) + [u]
              && r == Ok(201, SignupReply("Registration successful! Please login.", Registered(u.id, u.username, "user")))
              && db.counters == old(db.counters)[UserCounter := old(db.Counter(UserCounter)) + 1]
              && db.clock == old(db.clock) + 1
              && db.tasks == old(db.tasks) && db.blobs == old(db.blobs)
  {
    var check := NewAccount(db.users, oid, hash, username, password, email);
    if check.Reject? {
      return Fail(check.error);
    }
    var u := db.InsertUser(check.value);
    r := Ok(201, SignupReply("Registration successful! Please login.", Registered(u.id, u.username, RoleName(u.role))));
  }

  /** A registered user can log in with the same name and password. */
  lemma SignupThenLogin(users: seq<UserRec>, cfg: Config, u: UserRec, username: string, password: string)
    requires Trim(username) == u.username && UserByName(users, u.username).None?
    requires cfg.matches(password, u.password) && username != "" && password != ""
    ensures Credentials(users + [u], cfg, Some(username), Some(password)) == Pass(|users|)
  {
    var all := users + [u];
    var name := Trim(username);
    assert all[|users|].username == name;
    assert forall k :: 0 <= k < |users| ==> all[k].username != name by {
      forall k | 0 <= k < |users|
        ensures all[k].username != name
      {
        assert all[k] == users[k];
      }
    }
    var found := UserByName(all, name);
    assert found.Some? && found.value == |users|;
  }
}
