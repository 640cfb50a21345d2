/**
 * controllers/user.controller.js: the admin handlers (routes put
 * `verifyToken` and `verifyAdmin` in front of them). The listing shows only
 * accounts with the role `user`; an admin account cannot be deleted; deleting
 * a user first deletes the user's tasks.
 */
module UserController {
  import opened Wrappers
  import opened Text
  import opened Schema
  import opened Query
  import opened Http
  import opened Store

  /** A user as `getAllUsers` lists it: `select('id username role created_at')`. */
  datatype UserView = UserView(id: Option<int>, username: string, role: string, createdAt: nat)

  datatype UserPage = UserPage(users: seq<UserView>, pagination: Pagination)

  function View(u: UserRec): UserView {
    UserView(u.id, u.username, RoleName(u.role), u.createdAt)
  }

  /** `users.map(...)`: the selected fields of each listed user. */
  function Views(us: seq<UserRec>): seq<UserView> {
    Project(us, View)
  }

  /** The query of `getAllUsers`: role `user`, and with a search text, a username that contains it. */
  predicate Listed(u: UserRec, search: string) {
    u.role == User && (search == "" || ContainsIgnoringCase(u.username, search))
  }

  /** `countDocuments(query)` and `find(query)`: the stored accounts the query matches, in store order. */
  function Matching(us: seq<UserRec>, search: string): (r: seq<UserRec>)
    ensures |r| <= |us|
    ensures forall u :: u in r ==> u in us && u.role == User
  {
    Filter(us, u => Listed(u, search))
  }

  /** The page of matches `find(query).sort({ created_at: -1 }).skip(skip).limit(limit)` returns. */
  function PageOf(us: seq<UserRec>, search: string, skip: nat, limit: int): (r: seq<UserRec>)
    ensures var m := Matching(us, search);
            forall k :: 0 <= k < |r| ==> skip + k < |m| && r[k] == m[|m| - 1 - (skip + k)]
  {
    Window(NewestFirst(Matching(us, search)), skip, limit)
  }

  /**
   * `getAllUsers`: the defaults `''`, 1 and 10 for absent parameters, then
   * count, sort newest-first, skip and limit, as the task listing does.
   */
  function GetAllUsers(us: seq<UserRec>, search: Option<string>, page: Option<int>, limit: Option<int>)
    : (r: Reply<UserPage>)
    ensures var (q, p, n) := (search.GetOr(""), page.GetOr(1), limit.GetOr(10));
            && (r.Fail? <==> Skip(p, n) < 0)
            && (r.Fail? ==> r.error == Error(500, "Database error"))
            && (r.Ok? ==> r.status == 200)
            && (r.Ok? ==> var total := |Matching(us, q)|;
                          r.value.pagination == Pagination(total, p, n, TotalPages(total, n)))
            && (r.Ok? ==> r.value.users == Views(PageOf(us, q, Skip(p, n), n)))
  {
    var (q, p, n) := (search.GetOr(""), page.GetOr(1), limit.GetOr(10));
    var skip := Skip(p, n);
    if skip < 0 then Fail(Error(500, "Database error"))
    else
      var total := |Matching(us, q)|;
      Ok(200, UserPage(Views(PageOf(us, q, skip, n)), Pagination(total, p, n, TotalPages(total, n))))
  }

  /** Without query parameters the listing is the ten newest plain users, or all of them when fewer. */
  lemma DefaultListing(us: seq<UserRec>)
    ensures var r := GetAllUsers(us, None, None, None);
            && r.Ok? && r.value.pagination.page == 1 && r.value.pagination.limit == 10
            && var plain := NewestFirst(Matching(us, ""));
               |r.value.users| == (if |plain| < 10 then |plain| else 10)
               && forall k :: 0 <= k < |r.value.users| ==> r.value.users[k] == View(plain[k])
  {
    assert Skip(1, 10) == 0;
  }

  /** Admins are never listed; every listed account matches the search; a page holds at most `|limit|`. */
  lemma PageHoldsOnlyUsers(us: seq<UserRec>, search: string, skip: nat, limit: int)
    ensures var p := PageOf(us, search, skip, limit);
            && (limit != 0 ==> |p| <= Abs(limit))
            && forall u :: u in p ==> u in us && u.role == User && (search == "" || ContainsIgnoringCase(u.username, search))
  {
    WindowHoldsMatches(us, u => Listed(u, search), skip, limit);
  }

  /** Listed accounts show the role `user`. */
  lemma ViewsShowUserRole(us: seq<UserRec>, search: string, skip: nat, limit: int)
    ensures forall v :: v in Views(PageOf(us, search, skip, limit)) ==> v.role == "user"
  {
    var p := PageOf(us, search, skip, limit);
    PageHoldsOnlyUsers(us, search, skip, limit);
    forall v | v in Views(p)
      ensures v.role == "user"
    {
      var k :| 0 <= k < |p| && Views(p)[k] == v;
      assert p[k] in p;
    }
  }

  /** With creation ticks increasing along the store, the listing is newest-first. */
  lemma PageNewestFirst(us: seq<UserRec>, search: string, skip: nat, limit: int, top: int, clock: nat)
    requires UsersValid(us, top, clock)
    ensures var p := PageOf(us, search, skip, limit);
            forall a, b :: 0 <= a < b < |p| ==> p[a].createdAt > p[b].createdAt
  {
    var tick := (u: UserRec) => u.createdAt;
    assert Increasing(us, tick) by {
      forall i, j | 0 <= i < j < |us|
        ensures tick(us[i]) < tick(us[j])
      {
        assert UsersApart(us[i], us[j]);
      }
    }
    FilterIncreasing(us, u => Listed(u, search), tick);
    NewestFirstSorted(Matching(us, search), tick);
    WindowDecreasing(NewestFirst(Matching(us, search)), tick, skip, limit);
  }

  /** The `user` object of the `createUser` response. */
  datatype Created = Created(id: Option<int>, username: string, role: string)

  datatype CreateReply = CreateReply(message: string, user: Created)

  /**
   * The checks of `createUser` and the user it saves: a falsy field, then a
   * taken username, each a 400; the role defaults to `user` when absent; a
   * document that fails validation on save (a role outside the enum, a
   * username of white space) is a 500. `hash` is the bcrypt hash of the password.
   */
  function NewUser(users: seq<UserRec>, oid: Oid, hash: string, username: Option<string>, password: Option<string>, role: Option<string>)
    : (r: Check<UserRec>)
    ensures Falsy(username) || Falsy(password) ==> r == Reject(Error(400, "Username and password are required"))
    ensures !Falsy(username) && !Falsy(password) && UserByName(users, Trim(username.value)).Some? ==>
              r == Reject(Error(400, "Username already exists"))
    ensures && !Falsy(username) && !Falsy(password) && UserByName(users, Trim(username.value)).None? ==>
              (r.Reject? <==> Trim(username.value) == "" || hash == "" || ParseRole(role.GetOr("user")).None?)
    ensures && !Falsy(username) && !Falsy(password) && UserByName(users, Trim(username.value)).None?
            && (Trim(username.value) == "" || hash == "" || ParseRole(role.GetOr("user")).None?) ==>
              r == Reject(Error(500, "Error creating user"))
    ensures r.Pass? ==> && r.value.username == Trim(username.value) && r.value.username != ""
                        && IsTrimmed(r.value.username) && UserByName(users, r.value.username).None?
                        && RoleName(r.value.role) == role.GetOr("user") && r.value.password == hash
                        && r.value.oid == oid && r.value.refreshToken.None? && r.value.profilePicture.None?
  {
    if Falsy(username) || Falsy(password) then Reject(Error(400, "Username and password are required"))
    else if UserByName(users, Trim(username.value)).Some? then Reject(Error(400, "Username already exists"))
    else
      match BuildUser(oid, username.value, hash, role.GetOr("user"), None)
      case None => Reject(Error(500, "Error creating user"))
      case Some(u) => Pass(u)
  }

  /** Without a role, `createUser` makes a plain user. */
  lemma CreateUserDefaultsRole(users: seq<UserRec>, oid: Oid, hash: string, username: Option<string>, password: Option<string>)
    requires NewUser(users, oid, hash, username, password, None).Pass?
    ensures NewUser(users, oid, hash, username, password, None).value.role == User
  {
  }

  /** `createUser`: on success the user is saved with the next user id and 201 returns its id, name and role. */
  method CreateUser(db: Db, oid: Oid, hash: string, username: Option<string>, password: Option<string>, role: Option<string>)
    returns (r: Reply<CreateReply>)
    requires db.Valid()
    modifies db
    ensures db.Valid()
    ensures NewUser(old(db.users), oid, hash, username, password, role).Reject? ==>
              r == Fail(NewUser(old(db.users), oid, hash, username, password, role).error) && unchanged(db)
    ensures NewUser(old(db.users), oid, hash, username, password, role).Pass? ==>
              var u := NewUser(old(db.users), oid, hash, username, password, role).value
                         .(id := Some(old(db.Counter(UserCounter)) + 1), createdAt := old(db.clock));
              && db.users == old(db.users) + [u]
              && r == Ok(201, CreateReply("User created successfully", Created(u.id, u.username, RoleName(u.role))))
              && db.counters == old(db.counters)[UserCounter := old(db.Counter(UserCounter)) + 1]
              && db.clock == old(db.clock) + 1
              && db.tasks == old(db.tasks) && db.blobs == old(db.blobs)
  {
    var check := NewUser(db.users, oid, hash, username, password, role);
    if check.Reject? {
      return Fail(check.error);
    }
    var u := db.InsertUser(check.value);
    r := Ok(201, CreateReply("User created successfully", Created(u.id, u.username, RoleName(u.role))));
  }

  /**
   * `deleteUser`: 404 for an unknown id and 403 for an admin, both leaving
   * the store alone; otherwise the user's tasks go, then the user.
   */
  method DeleteUser(db: Db, id: int) returns (r: Reply<string>)
    requires db.Valid()
    modifies db
    ensures db.Valid()
    ensures UserById(old(db.users), id).None? ==> r == Fail(Error(404, "User not found")) && unchanged(db)
    ensures UserById(old(db.users), id).Some? && old(db.users)[UserById(old(db.users), id).value].role == Admin ==>
              r == Fail(Error(403, "Cannot delete admin user")) && unchanged(db)
    ensures UserById(old(db.users), id).Some? && old(db.users)[UserById(old(db.users), id).value].role == User ==>
              var i := UserById(old(db.users), id).value;
              && r == Ok(200, "User deleted successfully")
              && db.tasks == TasksNotOwnedBy(old(db.tasks), id)
              && db.users == old(db.users)[..i] + old(db.users)[i + 1..]
              && db.counters == old(db.counters) && db.blobs == old(db.blobs) && db.clock == old(db.clock)
  {
    var found := UserById(db.users, id);
    if found.None? {
      return Fail(Error(404, "User not found"));
    }
    if db.users[found.value].role == Admin {
      return Fail(Error(403, "Cannot delete admin user"));
    }
    db.RemoveTasksOf(id);
    db.RemoveUser(found.value);
    r := Ok(200, "User deleted successfully");
  }

  /**
   * The cascade removes exactly the deleted user: every other account stays,
   * none with that id remains, and of the tasks only those with that
   * `user_id` go.
   */
  lemma {:induction false} DeleteUserExactly(us: seq<UserRec>, ts: seq<TaskRec>, id: int, top: int, clock: nat)
    requires UsersValid(us, top, clock) && UserById(us, id).Some?
    ensures var i := UserById(us, id).value;
            var rest := us[..i] + us[i + 1..];
            && (forall u :: u in rest ==> u.id != Some(id))
            && (forall u :: u in us && u.id != Some(id) ==> u in rest)
    ensures forall t :: t in TasksNotOwnedBy(ts, id) <==> t in ts && t.userId != id
  {
    var i := UserById(us, id).value;
    forall k | 0 <= k < |us| && k != i
      ensures us[k].id != us[i].id
    {
      if k < i {
        assert UsersApart(us[k], us[i]);
      } else {
        assert UsersApart(us[i], us[k]);
      }
    }
    RemoveAtByKey(us, i, (u: UserRec) => u.id);
  }
}
