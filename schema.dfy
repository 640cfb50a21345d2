/**
 * The records of models/User.js and models/Task.js: the role and status
 * enums, the defaults, the required fields, and the document that
 * `new User({...})` and `new Task({...})` build and validate on save.
 * Timestamps are creation ticks; `updated_at` is not modelled.
 */
module Schema {
  import opened Wrappers
  import opened Text

  /** A MongoDB `_id`. */
  type Oid = string

  datatype Role = Admin | User

  function RoleName(r: Role): string {
    match r
    case Admin => "admin"
    case User => "user"
  }

  /** The `enum: ['admin', 'user']` check of the role path. */
  function ParseRole(s: string): (r: Option<Role>)
    ensures r.Some? <==> s == "admin" || s == "user"
    ensures r.Some? ==> RoleName(r.value) == s
  {
    if s == "admin" then Some(Admin) else if s == "user" then Some(User) else None
  }

  lemma RoleRoundTrip(r: Role)
    ensures ParseRole(RoleName(r)) == Some(r)
  {
  }

  datatype Status = Pending | InProgress | Completed

  function StatusName(st: Status): string {
    match st
    case Pending => "pending"
    case InProgress => "in-progress"
    case Completed => "completed"
  }

  /** The `enum: ['pending', 'in-progress', 'completed']` check of the status path. */
  function ParseStatus(s: string): (r: Option<Status>)
    ensures r.Some? <==> s == "pending" || s == "in-progress" || s == "completed"
    ensures r.Some? ==> StatusName(r.value) == s
  {
    if s == "pending" then Some(Pending)
    else if s == "in-progress" then Some(InProgress)
    else if s == "completed" then Some(Completed)
    else None
  }

  lemma StatusRoundTrip(st: Status)
    ensures ParseStatus(StatusName(st)) == Some(st)
  {
  }

  const DefaultStatus: string := StatusName(Pending)

  /**
   * A user document. `id` is the numeric id, absent on legacy records;
   * `email` is kept although the schema declares no such path (see README).
   */
  datatype UserRec = UserRec(
    oid: Oid,
    id: Option<int>,
    username: string,
    password: string,
    role: Role,
    email: Option<string>,
    refreshToken: Option<string>,
    profilePicture: Option<string>,
    createdAt: nat)

  /** `user.id` is truthy: present and not 0. */
  predicate HasNumericId(u: UserRec) {
    u.id.Some? && u.id.value != 0
  }

  datatype Attachment = Attachment(
    aid: Oid,
    filename: string,
    originalName: string,
    filePath: string,
    size: int,
    mimetype: string,
    uploadedAt: nat)

  /** Attachment ids are distinct, as the `_id`s Mongoose generates for subdocuments are. */
  predicate DistinctIds(atts: seq<Attachment>) {
    forall j, k :: 0 <= j < k < |atts| ==> atts[j].aid != atts[k].aid
  }

  /**
   * A task document. `status` is the stored string: `updateOne` writes it
   * without running the enum validator, so it is not always one of the three.
   */
  datatype TaskRec = TaskRec(
    oid: Oid,
    id: int,
    userId: int,
    title: string,
    description: string,
    status: string,
    attachments: seq<Attachment>,
    createdAt: nat)

  /** What the task schema promises of a saved task: a trimmed, non-empty title and an enum status. */
  predicate TaskConforms(t: TaskRec) {
    t.title != "" && IsTrimmed(t.title) && ParseStatus(t.status).Some?
  }

  /**
   * `new User({ username, password, email, role })` followed by the
   * validation that `save` runs before its hooks: the username is trimmed,
   * `username`, `password` and `role` are required and the role is an enum.
   * None when validation fails. The numeric id is left to the pre-save hook.
   */
  function BuildUser(oid: Oid, username: string, password: string, role: string, email: Option<string>)
    : (r: Option<UserRec>)
    ensures r.Some? <==> Trim(username) != "" && password != "" && ParseRole(role).Some?
    ensures r.Some? ==> && r.value.username == Trim(username) && IsTrimmed(r.value.username)
                        && RoleName(r.value.role) == role && r.value.password == password
                        && r.value.id.None? && r.value.refreshToken.None? && r.value.profilePicture.None?
                        && r.value.oid == oid && r.value.email == email
  {
    var name := Trim(username);
    TrimIdempotent(username);
    match ParseRole(role)
    case None => None
    case Some(rl) =>
      if name == "" || password == "" then None
      else Some(UserRec(oid, None, name, password, rl, email, None, None, 0))
  }

  /**
   * `new Task({ user_id, title, description, status })` followed by the
   * validation of `save`: absent description and status take the schema
   * defaults `''` and `'pending'`, the title is trimmed and required, and the
   * status must be in the enum. None when validation fails.
   */
  function BuildTask(oid: Oid, userId: int, title: string, description: Option<string>, status: Option<string>)
    : (r: Option<TaskRec>)
    ensures r.Some? <==> Trim(title) != "" && ParseStatus(status.GetOr(DefaultStatus)).Some?
    ensures r.Some? ==> && TaskConforms(r.value)
                        && r.value.userId == userId && r.value.title == Trim(title)
                        && r.value.description == description.GetOr("")
                        && r.value.status == status.GetOr(DefaultStatus)
                        && r.value.attachments == [] && r.value.oid == oid
  {
    var name := Trim(title);
    TrimIdempotent(title);
    var st := status.GetOr(DefaultStatus);
    if name == "" || ParseStatus(st).None? then None
    else Some(TaskRec(oid, 0, userId, name, description.GetOr(""), st, [], 0))
  }

  /** A task built without description or status gets the defaults `''` and `'pending'`. */
  lemma TaskDefaults(oid: Oid, userId: int, title: string)
    requires Trim(title) != ""
    ensures BuildTask(oid, userId, title, None, None).Some?
    ensures BuildTask(oid, userId, title, None, None).value.description == ""
    ensures BuildTask(oid, userId, title, None, None).value.status == "pending"
  {
  }
}

/** The claims of jsonwebtoken tokens and the secrets and libraries the handlers are given. */
module Crypto {
  import opened Wrappers

  /** The `id` claim: a number for current tokens, a string `_id` for legacy ones. */
  datatype IdClaim = Num(n: int) | Str(s: string) | Missing

  /** A decoded token payload, and the `req.user` the middleware builds from it. */
  datatype Claims = Claims(id: IdClaim, username: string, role: string)

  /**
   * The environment of the handlers: the two token secrets, jsonwebtoken's
   * `sign` and `verify` (verify gives None for a bad signature, an expired
   * token or a malformed one), and bcrypt's `compare` as `matches(password, hash)`.
   */
  datatype Config = Config(
    accessSecret: string,
    refreshSecret: string,
    sign: (Claims, string) -> string,
    verify: (string, string) -> Option<Claims>,
    matches: (string, string) -> bool)
}
