/**
 * controllers/task.controller.js: the owner-scoped task handlers. Routes put
 * `verifyToken` and `verifyUser` in front of them, so `caller` is the numeric
 * id the middleware resolved.
 */
module TaskController {
  import opened Wrappers
  import opened Text
  import opened Schema
  import opened Query
  import opened Http
  import opened Store

  /** A task as `getTasks` lists it (`updated_at` is not modelled). */
  datatype TaskView = TaskView(id: int, userId: int, title: string, description: string, status: string, createdAt: nat)

  datatype TaskPage = TaskPage(tasks: seq<TaskView>, pagination: Pagination)

  /** A task as `createTask` returns it. */
  datatype TaskSummary = TaskSummary(id: int, userId: int, title: string, description: string, status: string)

  datatype TaskCreated = TaskCreated(message: string, task: TaskSummary)

  function View(t: TaskRec): TaskView {
    TaskView(t.id, t.userId, t.title, t.description, t.status, t.createdAt)
  }

  /** `tasks.map(...)`: the selected fields of each listed task. */
  function Views(ts: seq<TaskRec>): seq<TaskView> {
    Project(ts, View)
  }

  /** The query of `getTasks`: the caller's tasks, and with a search text, those whose title or description contains it. */
  predicate Listed(t: TaskRec, caller: int, search: string) {
    t.userId == caller
    && (search == "" || ContainsIgnoringCase(t.title, search) || ContainsIgnoringCase(t.description, search))
  }

  /** `countDocuments(query)` and `find(query)`: the stored tasks the query matches, in store order. */
  function Matching(ts: seq<TaskRec>, caller: int, search: string): (r: seq<TaskRec>)
    ensures |r| <= |ts|
    ensures forall t :: t in r ==> t in ts && t.userId == caller
  {
    Filter(ts, t => Listed(t, caller, search))
  }

  /** The page of matches `find(query).sort({ created_at: -1 }).skip(skip).limit(limit)` returns. */
  function PageOf(ts: seq<TaskRec>, caller: int, search: string, skip: nat, limit: int): (r: seq<TaskRec>)
    ensures var m := Matching(ts, caller, search);
            forall k :: 0 <= k < |r| ==> skip + k < |m| && r[k] == m[|m| - 1 - (skip + k)]
  {
    Window(NewestFirst(Matching(ts, caller, search)), skip, limit)
  }

  /**
   * `getTasks`: an absent `search`, `page` or `limit` defaults to `''`, 1
   * and 10; count the matches, then sort them newest-first, skip
   * `(page - 1) * limit` and take `limit`. MongoDB refuses a negative skip,
   * which the handler reports as a database error.
   */
  function GetTasks(ts: seq<TaskRec>, caller: int, search: Option<string>, page: Option<int>, limit: Option<int>)
    : (r: Reply<TaskPage>)
    ensures var (q, p, n) := (search.GetOr(""), page.GetOr(1), limit.GetOr(10));
            && (r.Fail? <==> Skip(p, n) < 0)
            && (r.Fail? ==> r.error == Error(500, "Database error"))
            && (r.Ok? ==> r.status == 200)
            && (r.Ok? ==> var total := |Matching(ts, caller, q)|;
                          r.value.pagination == Pagination(total, p, n, TotalPages(total, n)))
            && (r.Ok? ==> r.value.tasks == Views(PageOf(ts, caller, q, Skip(p, n), n)))
  {
    var (q, p, n) := (search.GetOr(""), page.GetOr(1), limit.GetOr(10));
    var skip := Skip(p, n);
    if skip < 0 then Fail(Error(500, "Database error"))
    else
      var total := |Matching(ts, caller, q)|;
      Ok(200, TaskPage(Views(PageOf(ts, caller, q, skip, n)), Pagination(total, p, n, TotalPages(total, n))))
  }

  /** Without query parameters the listing is the first page of ten: the caller's ten newest tasks, or all of them when fewer. */
  lemma DefaultListing(ts: seq<TaskRec>, caller: int)
    ensures var r := GetTasks(ts, caller, None, None, None);
            && r.Ok? && r.value.pagination.page == 1 && r.value.pagination.limit == 10
            && var mine := NewestFirst(Matching(ts, caller, ""));
               |r.value.tasks| == (if |mine| < 10 then |mine| else 10)
               && forall k :: 0 <= k < |r.value.tasks| ==> r.value.tasks[k] == View(mine[k])
  {
    assert Skip(1, 10) == 0;
  }

  /** Every listed task is the caller's and matches the search text; a page holds at most `|limit|` of them. */
  lemma PageHoldsOnlyMatches(ts: seq<TaskRec>, caller: int, search: string, skip: nat, limit: int)
    ensures var p := PageOf(ts, caller, search, skip, limit);
            && (limit != 0 ==> |p| <= Abs(limit))
            && forall t :: t in p ==> t in ts && Listed(t, caller, search)
  {
    WindowHoldsMatches(ts, t => Listed(t, caller, search), skip, limit);
  }

  /** A task is among the matches exactly when it is the caller's and its title or description contains the search text. */
  lemma MatchingIff(ts: seq<TaskRec>, caller: int, search: string, t: TaskRec)
    ensures t in Matching(ts, caller, search) <==>
            t in ts && t.userId == caller
            && (search == "" || ContainsIgnoringCase(t.title, search) || ContainsIgnoringCase(t.description, search))
  {
  }

  /** With creation ticks increasing along the store, every page is sorted newest-first. */
  lemma PageNewestFirst(ts: seq<TaskRec>, caller: int, search: string, skip: nat, limit: int, top: int, clock: nat)
    requires TasksValid(ts, top, clock)
    ensures var p := PageOf(ts, caller, search, skip, limit);
            forall a, b :: 0 <= a < b < |p| ==> p[a].createdAt > p[b].createdAt
  {
    var tick := (t: TaskRec) => t.createdAt;
    assert Increasing(ts, tick) by {
      forall i, j | 0 <= i < j < |ts|
        ensures tick(ts[i]) < tick(ts[j])
      {
        assert TasksApart(ts[i], ts[j]);
      }
    }
    var m := Matching(ts, caller, search);
    FilterIncreasing(ts, t => Listed(t, caller, search), tick);
    NewestFirstSorted(m, tick);
    WindowDecreasing(NewestFirst(m), tick, skip, limit);
  }

  /**
   * Paging loses nothing: with a positive limit, the `k`-th newest match is
   * on page `k / limit + 1`, which `totalPages` counts.
   */
  lemma {:induction false} MatchOnItsPage(ts: seq<TaskRec>, caller: int, search: string, limit: int, k: nat)
    requires limit > 0 && k < |Matching(ts, caller, search)|
    ensures var r := GetTasks(ts, caller, Some(search), Some(k / limit + 1), Some(limit));
            && r.Ok?
            && k / limit + 1 <= r.value.pagination.totalPages.value
            && k % limit < |r.value.tasks|
            && r.value.tasks[k % limit] == View(NewestFirst(Matching(ts, caller, search))[k])
  {
    var n := NewestFirst(Matching(ts, caller, search));
    EveryItemOnItsPage(n, limit, k);
    assert Skip(k / limit + 1, limit) == (k / limit) * limit;
  }

  /**
   * The checks of `createTask` and the document it saves: a falsy title is
   * refused with 400; an absent status becomes `'pending'`, a falsy
   * description `''`; a document that fails validation on save (a title of
   * white space, a status outside the enum) is a 500.
   */
  function NewTask(oid: Oid, caller: int, title: Option<string>, description: Option<string>, status: Option<string>)
    : (r: Check<TaskRec>)
    ensures Falsy(title) ==> r == Reject(Error(400, "Title is required"))
    ensures !Falsy(title) ==> (r.Reject? <==> Trim(title.value) == "" || ParseStatus(status.GetOr("pending")).None?)
    ensures !Falsy(title) && r.Reject? ==> r.error == Error(500, "Error creating task")
    ensures r.Pass? ==> && TaskConforms(r.value) && r.value.userId == caller && r.value.oid == oid
                        && r.value.title == Trim(title.value) && r.value.attachments == []
                        && r.value.status == status.GetOr("pending")
                        && r.value.description == (if Falsy(description) then "" else description.value)
  {
    if Falsy(title) then Reject(Error(400, "Title is required"))
    else
      var desc := if Falsy(description) then "" else description.value;
      match BuildTask(oid, caller, title.value, Some(desc), Some(status.GetOr("pending")))
      case None => Reject(Error(500, "Error creating task"))
      case Some(t) => Pass(t)
  }

  /** A task created with only a title is pending, has an empty description and belongs to the caller. */
  lemma CreatedWithDefaults(oid: Oid, caller: int, title: string)
    requires Trim(title) != ""
    ensures var r := NewTask(oid, caller, Some(title), None, None);
            r.Pass? && r.value.status == "pending" && r.value.description == "" && r.value.userId == caller
  {
  }

  function Summary(t: TaskRec): TaskSummary {
    TaskSummary(t.id, t.userId, t.title, t.description, t.status)
  }

  /** `createTask`: on success the task is saved with the next task id and returned with 201. */
  method CreateTask(db: Db, oid: Oid, caller: int, title: Option<string>, description: Option<string>, status: Option<string>)
    returns (r: Reply<TaskCreated>)
    requires db.Valid()
    modifies db
    ensures db.Valid()
    ensures NewTask(oid, caller, title, description, status).Reject? ==>
              r == Fail(NewTask(oid, caller, title, description, status).error) && unchanged(db)
    ensures NewTask(oid, caller, title, description, status).Pass? ==>
              var t := NewTask(oid, caller, title, description, status).value
                         .(id := old(db.Counter(TaskCounter)) + 1, createdAt := old(db.clock));
              && db.tasks == old(db.tasks) + [t]
              && r == Ok(201, TaskCreated("Task created successfully", Summary(t)))
              && db.counters == old(db.counters)[TaskCounter := old(db.Counter(TaskCounter)) + 1]
              && db.clock == old(db.clock) + 1
              && db.users == old(db.users) && db.blobs == old(db.blobs)
  {
    var check := NewTask(oid, caller, title, description, status);
    if check.Reject? {
      return Fail(check.error);
    }
    var t := db.InsertTask(check.value);
    r := Ok(201, TaskCreated("Task created successfully", Summary(t)));
  }

  /** The task found by `{ id, user_id }` is the one `updateOne({ id })` and `deleteOne({ id })` address. */
  lemma OwnedIsById(ts: seq<TaskRec>, n: int, caller: int, top: int, clock: nat)
    requires TasksValid(ts, top, clock) && OwnedTask(ts, n, caller).Some?
    ensures TaskById(ts, n) == OwnedTask(ts, n, caller)
  {
    TaskByIdUnique(ts, top, clock, OwnedTask(ts, n, caller).value);
  }

  /** Someone else's task is "not found" for the caller, exactly as a missing id is. */
  lemma OthersTaskNotFound(ts: seq<TaskRec>, n: int, caller: int, top: int, clock: nat, i: nat)
    requires TasksValid(ts, top, clock) && i < |ts| && ts[i].id == n && ts[i].userId != caller
    ensures OwnedTask(ts, n, caller).None?
  {
    forall k | 0 <= k < |ts|
      ensures !(ts[k].id == n && ts[k].userId == caller)
    {
      if k < i {
        assert TasksApart(ts[k], ts[i]);
      } else if k > i {
        assert TasksApart(ts[i], ts[k]);
      }
    }
  }

  /**
   * The `updateData` of `updateTask` applied by `updateOne`, as written: a
   * truthy title (trimmed by the schema's setter), a description that is not
   * undefined, and a truthy status replace the stored fields. `updateOne`
   * runs no validators.
   */
  function PatchAsWritten(t: TaskRec, title: Option<string>, description: Option<string>, status: Option<string>)
    : (r: TaskRec)
    ensures r.oid == t.oid && r.id == t.id && r.userId == t.userId
    ensures r.attachments == t.attachments && r.createdAt == t.createdAt
    ensures r.title == (if Falsy(title) then t.title else Trim(title.value))
    ensures r.description == (if description.None? then t.description else description.value)
    ensures r.status == (if Falsy(status) then t.status else status.value)
  {
    t.(title := if Falsy(title) then t.title else Trim(title.value),
       description := description.GetOr(t.description),
       status := if Falsy(status) then t.status else status.value)
  }

  /** As written, an update stores a status outside the enum. */
  lemma PatchAsWrittenBreaksStatus(t: TaskRec)
    requires TaskConforms(t)
    ensures !TaskConforms(PatchAsWritten(t, None, None, Some("done")))
  {
  }

  /** As written, a title of white space is stored as the empty title. */
  lemma PatchAsWrittenEmptiesTitle(t: TaskRec)
    requires TaskConforms(t)
    ensures PatchAsWritten(t, Some(" "), None, None).title == ""
  {
  }

  /**
   * The update the schema evidently intends (`updateOne` with
   * `runValidators`): the patch of `PatchAsWritten`, refused with the
   * handler's 500 when the patched task would not conform to the schema.
   */
  function Patch(t: TaskRec, title: Option<string>, description: Option<string>, status: Option<string>)
    : (r: Check<TaskRec>)
    requires TaskConforms(t)
    ensures r.Reject? <==> (!Falsy(title) && Trim(title.value) == "") || (!Falsy(status) && ParseStatus(status.value).None?)
    ensures r.Reject? ==> r.error == Error(500, "Error updating task")
    ensures r.Pass? ==> TaskConforms(r.value) && r.value == PatchAsWritten(t, title, description, status)
  {
    var p := PatchAsWritten(t, title, description, status);
    if TaskConforms(p) then Pass(p) else Reject(Error(500, "Error updating task"))
  }

  /** Fields left out of the request are left alone, and a described-but-empty description is applied. */
  lemma PatchKeepsOmittedFields(t: TaskRec, title: Option<string>, description: Option<string>, status: Option<string>)
    requires TaskConforms(t) && Patch(t, title, description, status).Pass?
    ensures var u := Patch(t, title, description, status).value;
            && (Falsy(title) ==> u.title == t.title)
            && (Falsy(status) ==> u.status == t.status)
            && (description.None? ==> u.description == t.description)
            && (description == Some("") ==> u.description == "")
            && u.id == t.id && u.userId == t.userId && u.attachments == t.attachments
  {
  }

  /**
   * `updateTask`: 404 unless the caller owns a task with that id; otherwise
   * the patch replaces that task and nothing else.
   */
  method UpdateTask(db: Db, caller: int, id: int, title: Option<string>, description: Option<string>, status: Option<string>)
    returns (r: Reply<string>)
    requires db.Valid()
    modifies db
    ensures db.Valid()
    ensures OwnedTask(old(db.tasks), id, caller).None? ==> r == Fail(Error(404, "Task not found")) && unchanged(db)
    ensures OwnedTask(old(db.tasks), id, caller).Some? ==>
              var i := OwnedTask(old(db.tasks), id, caller).value;
              var p := Patch(old(db.tasks)[i], title, description, status);
              && (p.Reject? ==> r == Fail(p.error) && unchanged(db))
              && (p.Pass? ==> && r == Ok(200, "Task updated successfully")
                              && db.tasks == old(db.tasks)[i := p.value]
                              && db.users == old(db.users) && db.counters == old(db.counters)
                              && db.blobs == old(db.blobs) && db.clock == old(db.clock))
  {
    var found := OwnedTask(db.tasks, id, caller);
    if found.None? {
      return Fail(Error(404, "Task not found"));
    }
    var i := found.value;
    var p := Patch(db.tasks[i], title, description, status);
    if p.Reject? {
      return Fail(p.error);
    }
    OwnedIsById(db.tasks, id, caller, db.Counter(TaskCounter), db.clock);
    db.ReplaceTask(TaskById(db.tasks, id).value, p.value);
    r := Ok(200, "Task updated successfully");
  }

  /**
   * `deleteTask`: 404 unless the caller owns a task with that id; otherwise
   * that task is removed and the others stay, in order.
   */
  method DeleteTask(db: Db, caller: int, id: int) returns (r: Reply<string>)
    requires db.Valid()
    modifies db
    ensures db.Valid()
    ensures OwnedTask(old(db.tasks), id, caller).None? ==> r == Fail(Error(404, "Task not found")) && unchanged(db)
    ensures OwnedTask(old(db.tasks), id, caller).Some? ==>
              var i := OwnedTask(old(db.tasks), id, caller).value;
              && r == Ok(200, "Task deleted successfully")
              && db.tasks == old(db.tasks)[..i] + old(db.tasks)[i + 1..]
              && db.users == old(db.users) && db.counters == old(db.counters)
              && db.blobs == old(db.blobs) && db.clock == old(db.clock)
  {
    var found := OwnedTask(db.tasks, id, caller);
    if found.None? {
      return Fail(Error(404, "Task not found"));
    }
    OwnedIsById(db.tasks, id, caller, db.Counter(TaskCounter), db.clock);
    db.RemoveTask(TaskById(db.tasks, id).value);
    r := Ok(200, "Task deleted successfully");
  }

  /** Deleting the task with id `n` removes exactly that id: every other task stays. */
  lemma {:induction false} DeleteRemovesExactly(ts: seq<TaskRec>, n: int, top: int, clock: nat)
    requires TasksValid(ts, top, clock) && TaskById(ts, n).Some?
    ensures var i := TaskById(ts, n).value;
            var rest := ts[..i] + ts[i + 1..];
            && |rest| == |ts| - 1
            && (forall t :: t in rest ==> t.id != n)
            && (forall t :: t in ts && t.id != n ==> t in rest)
  {
    var i := TaskById(ts, n).value;
    forall k | 0 <= k < |ts| && k != i
      ensures ts[k].id != ts[i].id
    {
      if k < i {
        assert TasksApart(ts[k], ts[i]);
      } else {
        assert TasksApart(ts[i], ts[k]);
      }
    }
    RemoveAtByKey(ts, i, (t: TaskRec) => t.id);
  }
}
