/**
 * The database the handlers share: the `users` and `tasks` collections in
 * creation order, the `counters` of models/Counter.js, the uploaded files
 * on disk, and a clock of creation ticks. Lookups take the first matching
 * document, as `findOne` does.
 */
module Store {
  import opened Wrappers
  import opened Text
  import opened Schema

  const UserCounter: string := "userId"
  const TaskCounter: string := "taskId"

  /** `User.findOne({ username })`. */
  function UserByName(us: seq<UserRec>, name: string): (r: Option<nat>)
    ensures r.Some? ==> r.value < |us| && us[r.value].username == name
    ensures r.Some? ==> forall k :: 0 <= k < r.value ==> us[k].username != name
    ensures r.None? <==> forall k :: 0 <= k < |us| ==> us[k].username != name
  {
    if us == [] then None
    else if us[0].username == name then Some(0)
    else match UserByName(us[1..], name)
      case None => None
      case Some(k) => Some(k + 1)
  }

  /** `User.findOne({ id })`. */
  function UserById(us: seq<UserRec>, n: int): (r: Option<nat>)
    ensures r.Some? ==> r.value < |us| && us[r.value].id == Some(n)
    ensures r.Some? ==> forall k :: 0 <= k < r.value ==> us[k].id != Some(n)
    ensures r.None? <==> forall k :: 0 <= k < |us| ==> us[k].id != Some(n)
  {
    if us == [] then None
    else if us[0].id == Some(n) then Some(0)
    else match UserById(us[1..], n)
      case None => None
      case Some(k) => Some(k + 1)
  }

  /** `User.findOne({ email })`. */
  function UserByEmail(us: seq<UserRec>, email: string): (r: Option<nat>)
    ensures r.Some? ==> r.value < |us| && us[r.value].email == Some(email)
    ensures r.None? <==> forall k :: 0 <= k < |us| ==> us[k].email != Some(email)
  {
    if us == [] then None
    else if us[0].email == Some(email) then Some(0)
    else match UserByEmail(us[1..], email)
      case None => None
      case Some(k) => Some(k + 1)
  }

  /** `User.findById(oid)` once the value has been cast to an ObjectId. */
  function UserByOid(us: seq<UserRec>, oid: Oid): (r: Option<nat>)
    ensures r.Some? ==> r.value < |us| && us[r.value].oid == oid
    ensures r.Some? ==> forall k :: 0 <= k < r.value ==> us[k].oid != oid
    ensures r.None? <==> forall k :: 0 <= k < |us| ==> us[k].oid != oid
  {
    if us == [] then None
    else if us[0].oid == oid then Some(0)
    else match UserByOid(us[1..], oid)
      case None => None
      case Some(k) => Some(k + 1)
  }

  /** `Task.findOne({ id })`, the document `updateOne({ id })` and `deleteOne({ id })` touch. */
  function TaskById(ts: seq<TaskRec>, n: int): (r: Option<nat>)
    ensures r.Some? ==> r.value < |ts| && ts[r.value].id == n
    ensures r.Some? ==> forall k :: 0 <= k < r.value ==> ts[k].id != n
    ensures r.None? <==> forall k :: 0 <= k < |ts| ==> ts[k].id != n
  {
    if ts == [] then None
    else if ts[0].id == n then Some(0)
    else match TaskById(ts[1..], n)
      case None => None
      case Some(k) => Some(k + 1)
  }

  /** `Task.findOne({ id, user_id })`: the owner-scoped lookup of the task handlers. */
  function OwnedTask(ts: seq<TaskRec>, n: int, owner: int): (r: Option<nat>)
    ensures r.Some? ==> r.value < |ts| && ts[r.value].id == n && ts[r.value].userId == owner
    ensures r.None? <==> forall k :: 0 <= k < |ts| ==> !(ts[k].id == n && ts[k].userId == owner)
  {
    if ts == [] then None
    else if ts[0].id == n && ts[0].userId == owner then Some(0)
    else match OwnedTask(ts[1..], n, owner)
      case None => None
      case Some(k) => Some(k + 1)
  }

  /** `Task.findById(oid)` once the value has been cast to an ObjectId. */
  function TaskByOid(ts: seq<TaskRec>, oid: Oid): (r: Option<nat>)
    ensures r.Some? ==> r.value < |ts| && ts[r.value].oid == oid
    ensures r.None? <==> forall k :: 0 <= k < |ts| ==> ts[k].oid != oid
  {
    if ts == [] then None
    else if ts[0].oid == oid then Some(0)
    else match TaskByOid(ts[1..], oid)
      case None => None
      case Some(k) => Some(k + 1)
  }

  predicate IsHexDigit(c: char) {
    '0' <= c <= '9' || 'a' <= c <= 'f' || 'A' <= c <= 'F'
  }

  /**
   * The cast of a string to an ObjectId that `findById` performs: exactly 24
   * hexadecimal digits, read case-insensitively; anything else is a CastError.
   */
  function CastObjectId(s: string): (r: Option<Oid>)
    ensures r.Some? <==> |s| == 24 && forall k :: 0 <= k < |s| ==> IsHexDigit(s[k])
    ensures r.Some? ==> r.value == Fold(s)
  {
    if |s| == 24 && forall k :: 0 <= k < |s| ==> IsHexDigit(s[k]) then Some(Fold(s)) else None
  }

  /** What `findById` yields: the position of the document, null, or a thrown CastError. */
  datatype Found = Found(index: nat) | NotFound | CastError

  /**
   * `Task.findById(taskId)` for a route parameter: the task whose `_id` the
   * parameter names, null when none has it, a CastError when it is not an ObjectId.
   */
  function FindTaskById(ts: seq<TaskRec>, taskId: string): (r: Found)
    ensures r.CastError? <==> CastObjectId(taskId).None?
    ensures r.Found? ==> r.index < |ts| && ts[r.index].oid == Fold(taskId)
    ensures r.NotFound? ==> forall k :: 0 <= k < |ts| ==> ts[k].oid != Fold(taskId)
  {
    match CastObjectId(taskId)
    case None => CastError
    case Some(o) =>
      match TaskByOid(ts, o)
      case None => NotFound
      case Some(i) => Found(i)
  }

  /** A stored user: created before now, with a trimmed, non-empty username and an id the counter has issued. */
  predicate UserOk(u: UserRec, top: int, clock: nat) {
    && u.createdAt < clock
    && u.username != "" && IsTrimmed(u.username)
    && (u.id.Some? ==> 0 < u.id.value <= top)
  }

  /** Two users, the first created earlier: distinct usernames (the unique index) and distinct ids. */
  predicate UsersApart(a: UserRec, b: UserRec) {
    a.createdAt < b.createdAt && a.username != b.username && (a.id.Some? ==> a.id != b.id)
  }

  ghost predicate UsersValid(us: seq<UserRec>, top: int, clock: nat) {
    && (forall i :: 0 <= i < |us| ==> UserOk(us[i], top, clock))
    && (forall i, j :: 0 <= i < j < |us| ==> UsersApart(us[i], us[j]))
  }

  /**
   * A stored task: created before now, with an id the counter has issued,
   * conforming to its schema, and with distinct attachment ids.
   */
  predicate TaskOk(t: TaskRec, top: int, clock: nat) {
    t.createdAt < clock && 0 < t.id <= top && TaskConforms(t) && DistinctIds(t.attachments)
  }

  /** Two tasks, the first created earlier: distinct ids (the unique index). */
  predicate TasksApart(a: TaskRec, b: TaskRec) {
    a.createdAt < b.createdAt && a.id != b.id
  }

  ghost predicate TasksValid(ts: seq<TaskRec>, top: int, clock: nat) {
    && (forall i :: 0 <= i < |ts| ==> TaskOk(ts[i], top, clock))
    && (forall i, j :: 0 <= i < j < |ts| ==> TasksApart(ts[i], ts[j]))
  }

  /** With unique ids, the task found by id is the only one with that id. */
  lemma TaskByIdUnique(ts: seq<TaskRec>, top: int, clock: nat, i: nat)
    requires TasksValid(ts, top, clock) && i < |ts|
    ensures TaskById(ts, ts[i].id) == Some(i)
  {
    forall k | 0 <= k < i
      ensures ts[k].id != ts[i].id
    {
      assert TasksApart(ts[k], ts[i]);
    }
  }

  /** With unique ids, the user found by id is the only one with that id. */
  lemma UserByIdUnique(us: seq<UserRec>, top: int, clock: nat, i: nat)
    requires UsersValid(us, top, clock) && i < |us| && us[i].id.Some?
    ensures UserById(us, us[i].id.value) == Some(i)
  {
    forall k | 0 <= k < i
      ensures us[k].id != us[i].id
    {
      assert UsersApart(us[k], us[i]);
    }
  }

  /**
   * Removing the element at `i`, when every other element differs from it
   * in `key`, drops exactly the elements with its key.
   */
  lemma RemoveAtByKey<T, K>(s: seq<T>, i: nat, key: T -> K)
    requires i < |s|
    requires forall k :: 0 <= k < |s| && k != i ==> key(s[k]) != key(s[i])
    ensures forall x :: x in s[..i] + s[i + 1..] ==> x in s && key(x) != key(s[i])
    ensures forall x :: x in s && key(x) != key(s[i]) ==> x in s[..i] + s[i + 1..]
  {
    var rest := s[..i] + s[i + 1..];
    forall x | x in rest
      ensures x in s && key(x) != key(s[i])
    {
      var k :| 0 <= k < |rest| && rest[k] == x;
      var k' := if k < i then k else k + 1;
      assert x == s[k'];
    }
    forall x | x in s && key(x) != key(s[i])
      ensures x in rest
    {
      var k :| 0 <= k < |s| && s[k] == x;
      if k < i {
        assert rest[k] == x;
      } else {
        assert rest[k - 1] == x;
      }
    }
  }

  /** Removing one document keeps the collection valid. */
  lemma RemoveAtKeepsTasksValid(ts: seq<TaskRec>, top: int, clock: nat, k: nat)
    requires TasksValid(ts, top, clock) && k < |ts|
    ensures TasksValid(ts[..k] + ts[k + 1..], top, clock)
  {
    var r := ts[..k] + ts[k + 1..];
    forall i, j | 0 <= i < j < |r|
      ensures TasksApart(r[i], r[j])
    {
      var i' := if i < k then i else i + 1;
      var j' := if j < k then j else j + 1;
      assert r[i] == ts[i'] && r[j] == ts[j'];
    }
  }

  lemma RemoveAtKeepsUsersValid(us: seq<UserRec>, top: int, clock: nat, k: nat)
    requires UsersValid(us, top, clock) && k < |us|
    ensures UsersValid(us[..k] + us[k + 1..], top, clock)
  {
    var r := us[..k] + us[k + 1..];
    forall i, j | 0 <= i < j < |r|
      ensures UsersApart(r[i], r[j])
    {
      var i' := if i < k then i else i + 1;
      var j' := if j < k then j else j + 1;
      assert r[i] == us[i'] && r[j] == us[j'];
    }
  }

  /** The tasks whose `user_id` is not `owner`: what `Task.deleteMany({ user_id: owner })` leaves. */
  function TasksNotOwnedBy(ts: seq<TaskRec>, owner: int): (r: seq<TaskRec>)
    ensures |r| <= |ts|
    ensures forall t :: t in r <==> t in ts && t.userId != owner
  {
    if ts == [] then []
    else (if ts[0].userId != owner then [ts[0]] else []) + TasksNotOwnedBy(ts[1..], owner)
  }

  lemma {:induction false} TasksNotOwnedByKeepsValid(ts: seq<TaskRec>, owner: int, top: int, clock: nat)
    requires TasksValid(ts, top, clock)
    ensures TasksValid(TasksNotOwnedBy(ts, owner), top, clock)
  {
    if ts != [] {
      TasksNotOwnedByKeepsValid(ts[1..], owner, top, clock);
      var rest := TasksNotOwnedBy(ts[1..], owner);
      forall y | y in rest
        ensures TasksApart(ts[0], y)
      {
        var k :| 0 <= k < |ts[1..]| && ts[1..][k] == y;
        assert ts[k + 1] == y;
      }
    }
  }

  /** Files on disk, by their stored path: `fs.existsSync` then `fs.unlinkSync`. */
  function Unlinked(blobs: set<string>, path: string): (r: set<string>)
    ensures path !in r && r <= blobs
    ensures forall p :: p in blobs && p != path ==> p in r
  {
    if path in blobs then blobs - {path} else blobs
  }

  class Db {
    var users: seq<UserRec>
    var tasks: seq<TaskRec>
    var counters: map<string, int>
    var blobs: set<string>
    var clock: nat

    /** The current value of a counter; a missing counter starts at 0. */
    function Counter(name: string): int
      reads this
    {
      if name in counters then counters[name] else 0
    }

    ghost predicate Valid()
      reads this
    {
      && Counter(UserCounter) >= 0 && Counter(TaskCounter) >= 0
      && UsersValid(users, Counter(UserCounter), clock) && TasksValid(tasks, Counter(TaskCounter), clock)
    }

    constructor ()
      ensures Valid()
      ensures users == [] && tasks == [] && counters == map[] && blobs == {} && clock == 0
    {
      users, tasks, counters, blobs, clock := [], [], map[], {}, 0;
    }

    /** `Counter.getNextSequence(name)`: increments the counter and returns its new value. */
    method NextSequence(name: string) returns (v: int)
      requires Valid()
      modifies this
      ensures Valid()
      ensures v == old(Counter(name)) + 1 && counters == old(counters)[name := v]
      ensures users == old(users) && tasks == old(tasks) && blobs == old(blobs) && clock == old(clock)
    {
      v := Counter(name) + 1;
      counters := counters[name := v];
    }

    /**
     * The pre-save hook of models/User.js: a new user takes the next `userId`,
     * and saving an existing user leaves its id as it is.
     */
    method PreSaveUser(u: UserRec, isNew: bool) returns (saved: UserRec)
      requires Valid()
      modifies this
      ensures Valid()
      ensures isNew ==> saved == u.(id := Some(old(Counter(UserCounter)) + 1))
      ensures isNew ==> counters == old(counters)[UserCounter := old(Counter(UserCounter)) + 1]
      ensures !isNew ==> saved == u && counters == old(counters)
      ensures users == old(users) && tasks == old(tasks) && blobs == old(blobs) && clock == old(clock)
    {
      saved := u;
      if isNew {
        var n := NextSequence(UserCounter);
        saved := u.(id := Some(n));
      }
    }

    /** The pre-save hook of models/Task.js: a new task takes the next `taskId`; an existing one keeps its id. */
    method PreSaveTask(t: TaskRec, isNew: bool) returns (saved: TaskRec)
      requires Valid()
      modifies this
      ensures Valid()
      ensures isNew ==> saved == t.(id := old(Counter(TaskCounter)) + 1)
      ensures isNew ==> counters == old(counters)[TaskCounter := old(Counter(TaskCounter)) + 1]
      ensures !isNew ==> saved == t && counters == old(counters)
      ensures users == old(users) && tasks == old(tasks) && blobs == old(blobs) && clock == old(clock)
    {
      saved := t;
      if isNew {
        var n := NextSequence(TaskCounter);
        saved := t.(id := n);
      }
    }

    /** `save()` of a validated new user: the hook assigns the id and the document is stamped and stored. */
    method InsertUser(doc: UserRec) returns (u: UserRec)
      requires Valid()
      requires doc.username != "" && IsTrimmed(doc.username) && UserByName(users, doc.username).None?
      modifies this
      ensures Valid()
      ensures u == doc.(id := Some(old(Counter(UserCounter)) + 1), createdAt := old(clock))
      ensures users == old(users) + [u] && clock == old(clock) + 1
      ensures counters == old(counters)[UserCounter := old(Counter(UserCounter)) + 1]
      ensures tasks == old(tasks) && blobs == old(blobs)
    {
      u := PreSaveUser(doc.(createdAt := clock), true);
      forall k | 0 <= k < |users|
        ensures UsersApart(users[k], u)
      {
        assert UserOk(users[k], Counter(UserCounter) - 1, clock);
      }
      users := users + [u];
      clock := clock + 1;
    }

    /** `save()` of a validated new task. */
    method InsertTask(doc: TaskRec) returns (t: TaskRec)
      requires Valid() && TaskConforms(doc) && DistinctIds(doc.attachments)
      modifies this
      ensures Valid()
      ensures t == doc.(id := old(Counter(TaskCounter)) + 1, createdAt := old(clock))
      ensures tasks == old(tasks) + [t] && clock == old(clock) + 1
      ensures counters == old(counters)[TaskCounter := old(Counter(TaskCounter)) + 1]
      ensures users == old(users) && blobs == old(blobs)
    {
      t := PreSaveTask(doc.(createdAt := clock), true);
      forall k | 0 <= k < |tasks|
        ensures TasksApart(tasks[k], t)
      {
        assert TaskOk(tasks[k], Counter(TaskCounter) - 1, clock);
      }
      tasks := tasks + [t];
      clock := clock + 1;
    }

    /**
     * The legacy backfill `user.id = await Counter.getNextSequence('userId');
     * await user.save();` of the login handler, the middleware and fix-user-ids.js.
     */
    method AssignUserId(i: nat) returns (n: int)
      requires Valid() && i < |users|
      modifies this
      ensures Valid()
      ensures n == old(Counter(UserCounter)) + 1 && n > 0
      ensures users == old(users)[i := old(users)[i].(id := Some(n))]
      ensures counters == old(counters)[UserCounter := n]
      ensures tasks == old(tasks) && blobs == old(blobs) && clock == old(clock)
    {
      n := NextSequence(UserCounter);
      var saved := PreSaveUser(users[i].(id := Some(n)), false);
      forall k | 0 <= k < |users|
        ensures users[k].id != Some(n)
      {
        assert UserOk(users[k], n - 1, clock);
      }
      users := users[i := saved];
      forall a, b | 0 <= a < b < |users|
        ensures UsersApart(users[a], users[b])
      {
        assert UsersApart(old(users)[a], old(users)[b]);
      }
    }

    /** An update of one user that leaves its id, username and creation time alone. */
    method ReplaceUser(i: nat, u: UserRec)
      requires Valid() && i < |users|
      requires u.id == users[i].id && u.username == users[i].username && u.createdAt == users[i].createdAt
      modifies this
      ensures Valid()
      ensures users == old(users)[i := u]
      ensures tasks == old(tasks) && counters == old(counters) && blobs == old(blobs) && clock == old(clock)
    {
      users := users[i := u];
      forall a, b | 0 <= a < b < |users|
        ensures UsersApart(users[a], users[b])
      {
        assert UsersApart(old(users)[a], old(users)[b]);
      }
    }

    /** An update of one task that leaves its id and creation time alone. */
    method ReplaceTask(i: nat, t: TaskRec)
      requires Valid() && i < |tasks|
      requires t.id == tasks[i].id && t.createdAt == tasks[i].createdAt && TaskConforms(t) && DistinctIds(t.attachments)
      modifies this
      ensures Valid()
      ensures tasks == old(tasks)[i := t]
      ensures users == old(users) && counters == old(counters) && blobs == old(blobs) && clock == old(clock)
    {
      tasks := tasks[i := t];
      forall a, b | 0 <= a < b < |tasks|
        ensures TasksApart(tasks[a], tasks[b])
      {
        assert TasksApart(old(tasks)[a], old(tasks)[b]);
      }
    }

    /** `deleteOne` of the task at position `i`. */
    method RemoveTask(i: nat)
      requires Valid() && i < |tasks|
      modifies this
      ensures Valid()
      ensures tasks == old(tasks)[..i] + old(tasks)[i + 1..]
      ensures users == old(users) && counters == old(counters) && blobs == old(blobs) && clock == old(clock)
    {
      RemoveAtKeepsTasksValid(tasks, Counter(TaskCounter), clock, i);
      tasks := tasks[..i] + tasks[i + 1..];
    }

    /** `deleteOne` of the user at position `i`. */
    method RemoveUser(i: nat)
      requires Valid() && i < |users|
      modifies this
      ensures Valid()
      ensures users == old(users)[..i] + old(users)[i + 1..]
      ensures tasks == old(tasks) && counters == old(counters) && blobs == old(blobs) && clock == old(clock)
    {
      RemoveAtKeepsUsersValid(users, Counter(UserCounter), clock, i);
      users := users[..i] + users[i + 1..];
    }

    /** `Task.deleteMany({ user_id: owner })`. */
    method RemoveTasksOf(owner: int)
      requires Valid()
      modifies this
      ensures Valid()
      ensures tasks == TasksNotOwnedBy(old(tasks), owner)
      ensures users == old(users) && counters == old(counters) && blobs == old(blobs) && clock == old(clock)
    {
      TasksNotOwnedByKeepsValid(tasks, owner, Counter(TaskCounter), clock);
      tasks := TasksNotOwnedBy(tasks, owner);
    }

    /** The file the upload middleware has written before a handler runs. */
    method StoreBlob(path: string)
      requires Valid()
      modifies this
      ensures Valid()
      ensures blobs == old(blobs) + {path}
      ensures users == old(users) && tasks == old(tasks) && counters == old(counters) && clock == old(clock)
    {
      blobs := blobs + {path};
    }

    /** `if (fs.existsSync(p)) fs.unlinkSync(p)`: a missing file is not an error. */
    method UnlinkIfExists(path: string)
      requires Valid()
      modifies this
      ensures Valid()
      ensures blobs == Unlinked(old(blobs), path)
      ensures users == old(users) && tasks == old(tasks) && counters == old(counters) && clock == old(clock)
    {
      if path in blobs {
        blobs := blobs - {path};
      }
    }
  }
}
