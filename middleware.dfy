/**
 * middleware/auth.middleware.js: `verifyToken` reads the bearer token,
 * verifies it with the access secret and resolves a legacy `_id` claim to the
 * numeric id, assigning one when the user has none; `verifyAdmin` and
 * `verifyUser` gate on the role claim.
 */
module AuthMiddleware {
  import opened Wrappers
  import opened Text
  import opened Schema
  import opened Crypto
  import opened Http
  import opened Store

  /**
   * `authHeader && authHeader.split(' ')[1]`: the second space-separated word
   * of the header, whatever the first word is. A missing or empty header is
   * passed on as it is, and a header without a space gives `undefined`.
   */
  function BearerToken(header: Option<string>): (r: Option<string>)
    ensures Falsy(header) ==> Falsy(r)
    ensures !Falsy(r) ==> header.Some? && |Split(header.value, ' ')| >= 2 && r.value == Split(header.value, ' ')[1]
  {
    match header
    case None => None
    case Some(h) =>
      if h == "" then Some("")
      else
        var words := Split(h, ' ');
        if |words| >= 2 then Some(words[1]) else None
  }

  /** The header `<scheme> <token> ...` yields the token, whatever the scheme says. */
  lemma BearerOfWords(words: seq<string>)
    requires |words| >= 2 && forall k :: 0 <= k < |words| ==> ' ' !in words[k]
    ensures BearerToken(Some(Join(words, ' '))) == Some(words[1])
  {
    SplitJoin(words, ' ');
  }

  /** A header without a space carries no token. */
  lemma NoSpaceNoToken(h: string)
    requires ' ' !in h
    ensures Falsy(BearerToken(Some(h)))
  {
  }

  /**
   * The token check of `verifyToken`: 401 without a token, 403 when
   * `jwt.verify` throws, otherwise the decoded claims.
   */
  function Decode(cfg: Config, header: Option<string>): (r: Check<Claims>)
    ensures Falsy(BearerToken(header)) <==> r == Reject(Error(401, "Access token required"))
    ensures !Falsy(BearerToken(header)) ==>
              match cfg.verify(BearerToken(header).value, cfg.accessSecret)
              case None => r == Reject(Error(403, "Invalid or expired token"))
              case Some(c) => r == Pass(c)
  {
    var token := BearerToken(header);
    if Falsy(token) then Reject(Error(401, "Access token required"))
    else
      match cfg.verify(token.value, cfg.accessSecret)
      case None => Reject(Error(403, "Invalid or expired token"))
      case Some(c) => Pass(c)
  }

  /** How the middleware treats the `id` claim. */
  datatype Resolution = Keep | Resolved(index: nat) | Throws

  /**
   * `typeof userId === 'string' && userId.length === 24` leads to
   * `User.findById(userId)`: a found user replaces the claim, a missing one
   * keeps it, and a string that is no ObjectId throws a CastError.
   */
  function Resolve(users: seq<UserRec>, id: IdClaim): (r: Resolution)
    ensures !(id.Str? && Utf16Length(id.s) == 24) ==> r == Keep
    ensures r.Throws? <==> id.Str? && Utf16Length(id.s) == 24 && CastObjectId(id.s).None?
    ensures r.Resolved? ==> r.index < |users| && id.Str? && users[r.index].oid == Fold(id.s)
    ensures r.Keep? && id.Str? && Utf16Length(id.s) == 24 ==> forall k :: 0 <= k < |users| ==> users[k].oid != Fold(id.s)
  {
    if id.Str? && Utf16Length(id.s) == 24 then
      match CastObjectId(id.s)
      case None => Throws
      case Some(o) =>
        match UserByOid(users, o)
        case None => Keep
        case Some(i) => Resolved(i)
    else Keep
  }

  /**
   * The numeric id `verifyToken` settles on for a resolved user: its own id,
   * or `next`, the value the `userId` counter hands out, when it has none.
   */
  function SettledId(u: UserRec, next: int): int {
    if HasNumericId(u) then u.id.value else next
  }

  /**
   * What `verifyToken` passes on as `req.user`, or the error it answers with,
   * given the users and the next value of the `userId` counter.
   */
  function Authenticate(users: seq<UserRec>, next: int, cfg: Config, header: Option<string>): (r: Check<Claims>)
    ensures Decode(cfg, header).Reject? ==> r == Decode(cfg, header)
    ensures Decode(cfg, header).Pass? ==>
              var c := Decode(cfg, header).value;
              match Resolve(users, c.id)
              case Throws => r == Reject(Error(403, "Invalid or expired token"))
              case Keep => r == Pass(c)
              case Resolved(i) => r == Pass(c.(id := Num(SettledId(users[i], next))))
  {
    match Decode(cfg, header)
    case Reject(e) => Reject(e)
    case Pass(c) =>
      match Resolve(users, c.id)
      case Throws => Reject(Error(403, "Invalid or expired token"))
      case Keep => Pass(c)
      case Resolved(i) => Pass(c.(id := Num(SettledId(users[i], next))))
  }

  /**
   * `req.user` is the decoded payload with only `id` overridden, and a claim
   * that is not a 24-character string passes unchanged.
   */
  lemma AuthenticateOverridesOnlyId(users: seq<UserRec>, next: int, cfg: Config, header: Option<string>)
    requires Authenticate(users, next, cfg, header).Pass?
    ensures Decode(cfg, header).Pass?
    ensures var c := Decode(cfg, header).value;
            var u := Authenticate(users, next, cfg, header).value;
            && u.username == c.username && u.role == c.role
            && (!(c.id.Str? && Utf16Length(c.id.s) == 24) ==> u == c)
  {
  }

  /** In a valid store, a legacy claim that names a user always leaves the middleware as a positive number. */
  lemma ResolvedIdIsPositive(users: seq<UserRec>, top: int, clock: nat, cfg: Config, header: Option<string>)
    requires UsersValid(users, top, clock) && top >= 0
    requires Decode(cfg, header).Pass? && Resolve(users, Decode(cfg, header).value.id).Resolved?
    ensures var u := Authenticate(users, top + 1, cfg, header);
            u.Pass? && u.value.id.Num? && u.value.id.n > 0
  {
    var i := Resolve(users, Decode(cfg, header).value.id).index;
    assert UserOk(users[i], top, clock);
  }

  /**
   * `verifyToken`: on a resolved legacy claim whose user lacks a numeric id,
   * takes the next `userId` and saves it on the user; nothing else changes.
   */
  method VerifyToken(db: Db, cfg: Config, header: Option<string>) returns (r: Check<Claims>)
    requires db.Valid()
    modifies db
    ensures db.Valid()
    ensures r == Authenticate(old(db.users), old(db.Counter(UserCounter)) + 1, cfg, header)
    ensures var backfill := Decode(cfg, header).Pass? && Resolve(old(db.users), Decode(cfg, header).value.id).Resolved?
                            && !HasNumericId(old(db.users)[Resolve(old(db.users), Decode(cfg, header).value.id).index]);
            && (!backfill ==> unchanged(db))
            && (backfill ==> var i := Resolve(old(db.users), Decode(cfg, header).value.id).index;
                             var n := old(db.Counter(UserCounter)) + 1;
                             && db.users == old(db.users)[i := old(db.users)[i].(id := Some(n))]
                             && db.counters == old(db.counters)[UserCounter := n]
                             && db.tasks == old(db.tasks) && db.blobs == old(db.blobs) && db.clock == old(db.clock))
  {
    var decoded := Decode(cfg, header);
    if decoded.Reject? {
      return decoded;
    }
    var c := decoded.value;
    var res := Resolve(db.users, c.id);
    match res
    case Throws =>
      r := Reject(Error(403, "Invalid or expired token"));
    case Keep =>
      r := Pass(c);
    case Resolved(i) =>
      var userId: int;
      if !HasNumericId(db.users[i]) {
        userId := db.AssignUserId(i);
      } else {
        userId := db.users[i].id.value;
      }
      r := Pass(c.(id := Num(userId)));
  }

  /** `verifyAdmin`: only the role `admin` passes. */
  function VerifyAdmin(c: Claims): (r: Check<Claims>)
    ensures r.Pass? <==> c.role == "admin"
    ensures r.Pass? ==> r.value == c
    ensures r.Reject? ==> r.error == Error(403, "Admin access required")
  {
    if c.role != "admin" then Reject(Error(403, "Admin access required")) else Pass(c)
  }

  /** `verifyUser`: the roles `user` and `admin` pass. */
  function VerifyUser(c: Claims): (r: Check<Claims>)
    ensures r.Pass? <==> c.role == "user" || c.role == "admin"
    ensures r.Pass? ==> r.value == c
    ensures r.Reject? ==> r.error == Error(403, "User access required")
  {
    if c.role != "user" && c.role != "admin" then Reject(Error(403, "User access required")) else Pass(c)
  }

  /** The gates pass exactly the roles of the user schema, admins through both. */
  lemma GatesFollowRoles(c: Claims)
    ensures VerifyUser(c).Pass? <==> ParseRole(c.role).Some?
    ensures VerifyAdmin(c).Pass? ==> VerifyUser(c).Pass?
  {
  }
}
