/**
 * controllers/upload.controller.js: profile pictures and task attachments
 * (routes put only `verifyToken` in front). The file arrives already written
 * to disk by the upload middleware; the handlers record its path, and remove
 * a replaced or deleted file when it is still there.
 *
 * The handlers below look the caller up by numeric id and gate on the
 * numeric owner id, as the rest of the application does; the lookup and the
 * gate as written are modelled beside them (see README, Findings).
 */
module UploadController {
  import opened Wrappers
  import opened Text
  import opened Schema
  import opened Crypto
  import opened Http
  import opened Store
  import AuthMiddleware

  /** `req.file`: the name the upload middleware gave the stored file, and what the client sent. */
  datatype Upload = Upload(filename: string, originalName: string, size: int, mimetype: string)

  function ProfilePath(filename: string): string {
    "/storage/profiles/" + filename
  }

  function AttachmentPath(filename: string): string {
    "/storage/attachments/" + filename
  }

  // The lookups and the gate as written.

  /**
   * `User.findById(req.user.id)` as written: the id is cast to an ObjectId,
   * which a number never is (a safe integer has at most 16 digits); a missing
   * id finds nothing.
   */
  function FindUserByIdAsWritten(users: seq<UserRec>, id: IdClaim): (r: Found)
    ensures id.Num? ==> r == CastError
    ensures id.Missing? ==> r == NotFound
    ensures id.Str? ==> (r.CastError? <==> CastObjectId(id.s).None?)
    ensures r.Found? ==> id.Str? && r.index < |users| && users[r.index].oid == Fold(id.s)
  {
    match id
    case Num(_) => CastError
    case Missing => NotFound
    case Str(s) =>
      match CastObjectId(s)
      case None => CastError
      case Some(o) =>
        match UserByOid(users, o)
        case None => NotFound
        case Some(i) => Found(i)
  }

  /**
   * Every token the middleware lets through for a user with a numeric id
   * reaches the profile handlers with a numeric `req.user.id`, so as written
   * their `findById` throws and they answer 500.
   */
  lemma ProfileLookupFailsAsWritten(users: seq<UserRec>, top: int, clock: nat, cfg: Config, header: Option<string>)
    requires UsersValid(users, top, clock) && top >= 0
    requires AuthMiddleware.Decode(cfg, header).Pass? && AuthMiddleware.Decode(cfg, header).value.id.Num?
    ensures AuthMiddleware.Authenticate(users, top + 1, cfg, header).Pass?
    ensures FindUserByIdAsWritten(users, AuthMiddleware.Authenticate(users, top + 1, cfg, header).value.id) == CastError
  {
  }

  /**
   * `Task.findById(taskId)` with the task id a client knows: the listing and
   * the create response only ever show the numeric id, whose decimal form is
   * no ObjectId, so the lookup throws and the handlers answer 500.
   */
  lemma NumericTaskIdFailsAsWritten(ts: seq<TaskRec>, n: int)
    requires 0 <= n < Pow10(23)
    ensures FindTaskById(ts, IntToString(n)) == CastError
  {
    NatToStringLength(n, 23);
  }

  /**
   * The gate of lines 55 and 94 as written: refuse when
   * `task.user_id.toString() !== req.user.id` and the role is not `admin`.
   * Strict inequality between a string and the claim holds unless the claim
   * is that very string.
   */
  function OwnerGateAsWritten(t: TaskRec, c: Claims): (pass: bool)
    ensures c.id.Num? ==> (pass <==> c.role == "admin")
  {
    !(Str(IntToString(t.userId)) != c.id && c.role != "admin")
  }

  /** As written, the owner of a task, holding a numeric id as every current token does, is refused. */
  lemma OwnerRefusedAsWritten(t: TaskRec, name: string)
    ensures !OwnerGateAsWritten(t, Claims(Num(t.userId), name, "user"))
  {
  }

  /** The gate evidently intended: the owner by numeric id, or an admin. */
  function OwnerGate(t: TaskRec, c: Claims): (pass: bool)
    ensures c.role != "admin" ==> (pass <==> c.id == Num(t.userId))
    ensures c.role == "admin" ==> pass
  {
    c.id == Num(t.userId) || c.role == "admin"
  }

  /**
   * The intended gate admits exactly whom the written gate would admit if
   * the claim carried the id in decimal: the owner and admins, nobody else.
   */
  lemma {:induction false} GateAgreesOnDecimalClaims(t: TaskRec, n: int, name: string, role: string)
    ensures OwnerGate(t, Claims(Num(n), name, role)) <==> OwnerGateAsWritten(t, Claims(Str(IntToString(n)), name, role))
  {
    if IntToString(t.userId) == IntToString(n) {
      IntToStringRoundTrip(t.userId);
      IntToStringRoundTrip(n);
    }
  }

  // The corrected lookup of the caller.

  /**
   * The caller's user record: by numeric id, the id every current token
   * carries; a legacy string id is still looked up by `_id`.
   */
  function FindCaller(users: seq<UserRec>, id: IdClaim): (r: Found)
    ensures id.Num? ==> (r.Found? <==> UserById(users, id.n).Some?)
    ensures id.Num? && r.Found? ==> r.index == UserById(users, id.n).value
    ensures !id.Num? ==> r == FindUserByIdAsWritten(users, id)
    ensures r.Found? ==> r.index < |users|
  {
    match id
    case Num(n) =>
      (match UserById(users, n)
       case None => NotFound
       case Some(i) => Found(i))
    case Str(_) => FindUserByIdAsWritten(users, id)
    case Missing => NotFound
  }

  /** A caller whose user record has a numeric id is found. */
  lemma CallerFound(users: seq<UserRec>, top: int, clock: nat, i: nat)
    requires UsersValid(users, top, clock) && i < |users| && users[i].id.Some?
    ensures FindCaller(users, Num(users[i].id.value)) == Found(i)
  {
    UserByIdUnique(users, top, clock, i);
  }

  /** The files left after `if (pic) { if (fs.existsSync(p)) fs.unlinkSync(p) }`. */
  function WithoutPicture(blobs: set<string>, pic: Option<string>): (r: set<string>)
    ensures Falsy(pic) ==> r == blobs
    ensures !Falsy(pic) ==> pic.value !in r && r == blobs - {pic.value}
  {
    if Falsy(pic) then blobs else Unlinked(blobs, pic.value)
  }

  datatype ProfileUploaded = ProfileUploaded(message: string, filePath: string)

  /**
   * `uploadProfilePicture`: 400 without a file, before any lookup; a caller
   * that is not found makes `user.profilePicture` throw, a 500; otherwise the
   * old picture's file goes if it is there and the new path is recorded.
   */
  method UploadProfilePicture(db: Db, caller: Claims, file: Option<Upload>) returns (r: Reply<ProfileUploaded>)
    requires db.Valid()
    modifies db
    ensures db.Valid()
    ensures file.None? ==> r == Fail(Error(400, "No file uploaded")) && unchanged(db)
    ensures file.Some? ==> db.tasks == old(db.tasks) && db.counters == old(db.counters) && db.clock == old(db.clock)
    ensures file.Some? && !FindCaller(old(db.users), caller.id).Found? ==>
              && r == Fail(Error(500, "Error uploading profile picture"))
              && db.users == old(db.users) && db.blobs == old(db.blobs) + {ProfilePath(file.value.filename)}
    ensures file.Some? && FindCaller(old(db.users), caller.id).Found? ==>
              var i := FindCaller(old(db.users), caller.id).index;
              var path := ProfilePath(file.value.filename);
              && r == Ok(200, ProfileUploaded("Profile picture uploaded successfully", path))
              && db.users == old(db.users)[i := old(db.users)[i].(profilePicture := Some(path))]
              && db.blobs == WithoutPicture(old(db.blobs) + {path}, old(db.users)[i].profilePicture)
  {
    if file.None? {
      return Fail(Error(400, "No file uploaded"));
    }
    var path := ProfilePath(file.value.filename);
    db.StoreBlob(path);
    var found := FindCaller(db.users, caller.id);
    if !found.Found? {
      return Fail(Error(500, "Error uploading profile picture"));
    }
    var i := found.index;
    var pic := db.users[i].profilePicture;
    if !Falsy(pic) {
      db.UnlinkIfExists(pic.value);
    }
    db.ReplaceUser(i, db.users[i].(profilePicture := Some(path)));
    r := Ok(200, ProfileUploaded("Profile picture uploaded successfully", path));
  }

  /**
   * `deleteProfilePicture`: a caller that is not found is a 500; 400 when
   * there is no picture; otherwise the file goes if it is there and the
   * picture becomes null.
   */
  method DeleteProfilePicture(db: Db, caller: Claims) returns (r: Reply<string>)
    requires db.Valid()
    modifies db
    ensures db.Valid()
    ensures !FindCaller(old(db.users), caller.id).Found? ==>
              r == Fail(Error(500, "Error deleting profile picture")) && unchanged(db)
    ensures FindCaller(old(db.users), caller.id).Found? ==>
              var i := FindCaller(old(db.users), caller.id).index;
              var pic := old(db.users)[i].profilePicture;
              && (Falsy(pic) ==> r == Fail(Error(400, "No profile picture to delete")) && unchanged(db))
              && (!Falsy(pic) ==> && r == Ok(200, "Profile picture deleted successfully")
                                  && db.users == old(db.users)[i := old(db.users)[i].(profilePicture := None)]
                                  && db.blobs == Unlinked(old(db.blobs), pic.value)
                                  && db.tasks == old(db.tasks) && db.counters == old(db.counters)
                                  && db.clock == old(db.clock))
  {
    var found := FindCaller(db.users, caller.id);
    if !found.Found? {
      return Fail(Error(500, "Error deleting profile picture"));
    }
    var i := found.index;
    var pic := db.users[i].profilePicture;
    if Falsy(pic) {
      return Fail(Error(400, "No profile picture to delete"));
    }
    db.UnlinkIfExists(pic.value);
    db.ReplaceUser(i, db.users[i].(profilePicture := None));
    r := Ok(200, "Profile picture deleted successfully");
  }

  /** Deleting the picture twice: the second call finds none and answers 400. */
  lemma SecondPictureDeleteRefused(users: seq<UserRec>, caller: IdClaim, i: nat)
    requires FindCaller(users, caller) == Found(i)
    ensures var after := users[i := users[i].(profilePicture := None)];
            FindCaller(after, caller) == Found(i) && Falsy(after[i].profilePicture)
  {
    var after := users[i := users[i].(profilePicture := None)];
    assert forall k :: 0 <= k < |users| ==> after[k].id == users[k].id && after[k].oid == users[k].oid;
    match caller
    case Num(n) =>
      assert UserById(after, n) == UserById(users, n);
    case Str(s) =>
      if CastObjectId(s).Some? {
        assert UserByOid(after, CastObjectId(s).value) == UserByOid(users, CastObjectId(s).value);
      }
    case Missing =>
  }

  /** The attachment `uploadTaskAttachment` records. */
  function NewAttachment(aid: Oid, file: Upload, now: nat): (a: Attachment)
    ensures a.filePath == AttachmentPath(file.filename) && a.filename == file.filename
    ensures a.originalName == file.originalName && a.size == file.size && a.mimetype == file.mimetype
  {
    Attachment(aid, file.filename, file.originalName, AttachmentPath(file.filename), file.size, file.mimetype, now)
  }

  /** The plain object the handler builds and sends back: the attachment without the `_id` the `$push` assigns. */
  datatype AttachmentLiteral = AttachmentLiteral(filename: string, originalName: string, filePath: string,
                                                 size: int, mimetype: string, uploadedAt: nat)

  /** The literal an attachment was cast from: every field but its `_id`. */
  function Literal(a: Attachment): (l: AttachmentLiteral)
    ensures l.filename == a.filename && l.originalName == a.originalName && l.filePath == a.filePath
    ensures l.size == a.size && l.mimetype == a.mimetype && l.uploadedAt == a.uploadedAt
  {
    AttachmentLiteral(a.filename, a.originalName, a.filePath, a.size, a.mimetype, a.uploadedAt)
  }

  datatype AttachmentUploaded = AttachmentUploaded(message: string, attachment: AttachmentLiteral)

  /** No stored attachment has the `_id` `aid`: the `$push` gives the new subdocument a fresh ObjectId. */
  predicate UnusedAttachmentId(ts: seq<TaskRec>, aid: Oid) {
    forall t, a :: t in ts && a in t.attachments ==> a.aid != aid
  }

  /** Appending an attachment whose id no earlier one has keeps the ids distinct. */
  lemma DistinctAppend(atts: seq<Attachment>, a: Attachment)
    requires DistinctIds(atts) && forall k :: 0 <= k < |atts| ==> atts[k].aid != a.aid
    ensures DistinctIds(atts + [a])
  {
    var s := atts + [a];
    forall j, k | 0 <= j < k < |s|
      ensures s[j].aid != s[k].aid
    {
      assert s[j] == atts[j];
      if k < |atts| {
        assert s[k] == atts[k];
      }
    }
  }

  /**
   * `uploadTaskAttachment`: 400 without a file, 404 without the task, 403
   * unless the caller owns it or is an admin; otherwise the attachment is
   * appended, and no other task changes.
   */
  method UploadTaskAttachment(db: Db, caller: Claims, taskId: int, file: Option<Upload>, aid: Oid)
    returns (r: Reply<AttachmentUploaded>)
    requires db.Valid() && UnusedAttachmentId(db.tasks, aid)
    modifies db
    ensures db.Valid()
    ensures file.None? ==> r == Fail(Error(400, "No file uploaded")) && unchanged(db)
    ensures file.Some? ==> && db.blobs == old(db.blobs) + {AttachmentPath(file.value.filename)}
                           && db.users == old(db.users) && db.counters == old(db.counters) && db.clock == old(db.clock)
    ensures file.Some? && TaskById(old(db.tasks), taskId).None? ==>
              r == Fail(Error(404, "Task not found")) && db.tasks == old(db.tasks)
    ensures file.Some? && TaskById(old(db.tasks), taskId).Some? ==>
              var i := TaskById(old(db.tasks), taskId).value;
              var t := old(db.tasks)[i];
              && (!OwnerGate(t, caller) ==> r == Fail(Error(403, "Not authorized")) && db.tasks == old(db.tasks))
              && (OwnerGate(t, caller) ==>
                    var a := NewAttachment(aid, file.value, old(db.clock));
                    && r == Ok(200, AttachmentUploaded("Attachment uploaded successfully", Literal(a)))
                    && db.tasks == old(db.tasks)[i := t.(attachments := t.attachments + [a])])
  {
    if file.None? {
      return Fail(Error(400, "No file uploaded"));
    }
    db.StoreBlob(AttachmentPath(file.value.filename));
    var found := TaskById(db.tasks, taskId);
    if found.None? {
      return Fail(Error(404, "Task not found"));
    }
    var i := found.value;
    var t := db.tasks[i];
    if !OwnerGate(t, caller) {
      return Fail(Error(403, "Not authorized"));
    }
    var a := NewAttachment(aid, file.value, db.clock);
    assert TaskOk(t, db.Counter(TaskCounter), db.clock);
    DistinctAppend(t.attachments, a);
    db.ReplaceTask(i, t.(attachments := t.attachments + [a]));
    r := Ok(200, AttachmentUploaded("Attachment uploaded successfully", Literal(a)));
  }

  /** `task.attachments.id(attachmentId)`: the attachment whose `_id` is `key`, the parameter cast to an ObjectId. */
  function AttachmentIndex(atts: seq<Attachment>, key: Option<Oid>): (r: Option<nat>)
    ensures r.Some? ==> r.value < |atts| && key == Some(atts[r.value].aid)
    ensures r.None? <==> forall k :: 0 <= k < |atts| ==> key != Some(atts[k].aid)
  {
    if atts == [] then None
    else if key == Some(atts[0].aid) then Some(0)
    else match AttachmentIndex(atts[1..], key)
      case None => None
      case Some(k) => Some(k + 1)
  }

  /** `$pull: { attachments: { _id: attachmentId } }`: the other attachments, in their order. */
  function WithoutAttachment(atts: seq<Attachment>, key: Option<Oid>): (r: seq<Attachment>)
    ensures |r| <= |atts|
    ensures forall a :: a in r <==> a in atts && key != Some(a.aid)
  {
    if atts == [] then []
    else (if key != Some(atts[0].aid) then [atts[0]] else []) + WithoutAttachment(atts[1..], key)
  }

  lemma DistinctTail(atts: seq<Attachment>)
    requires atts != [] && DistinctIds(atts)
    ensures DistinctIds(atts[1..])
  {
    var tail := atts[1..];
    forall j, k | 0 <= j < k < |tail|
      ensures tail[j].aid != tail[k].aid
    {
      assert tail[j] == atts[j + 1] && tail[k] == atts[k + 1];
    }
  }

  /** Pulling removes exactly one attachment when attachment ids are distinct, keeping the others in order. */
  lemma {:induction false} PullRemovesOne(atts: seq<Attachment>, key: Option<Oid>, i: nat)
    requires i < |atts| && key == Some(atts[i].aid)
    requires DistinctIds(atts)
    ensures WithoutAttachment(atts, key) == atts[..i] + atts[i + 1..]
  {
    if i == 0 {
      PullHead(atts, key);
    } else {
      var tail := atts[1..];
      DistinctTail(atts);
      assert key != Some(atts[0].aid);
      assert tail[i - 1] == atts[i];
      PullRemovesOne(tail, key, i - 1);
      PullKeeps(atts, key);
      DropAtCons(atts, i);
    }
  }

  /** Removing one attachment keeps the ids of the others distinct. */
  lemma DistinctRemoveAt(atts: seq<Attachment>, i: nat)
    requires i < |atts| && DistinctIds(atts)
    ensures DistinctIds(atts[..i] + atts[i + 1..])
  {
    var s := atts[..i] + atts[i + 1..];
    forall j, k | 0 <= j < k < |s|
      ensures s[j].aid != s[k].aid
    {
      var j' := if j < i then j else j + 1;
      var k' := if k < i then k else k + 1;
      assert s[j] == atts[j'] && s[k] == atts[k'];
    }
  }

  /** The pull keeps order: pulling from `a + b` is pulling from `a`, then from `b`. */
  lemma {:induction false} PullSplits(a: seq<Attachment>, b: seq<Attachment>, key: Option<Oid>)
    ensures WithoutAttachment(a + b, key) == WithoutAttachment(a, key) + WithoutAttachment(b, key)
  {
    if a == [] {
      assert a + b == b;
    } else {
      PullSplits(a[1..], b, key);
      PullStep(a, b, key);
    }
  }

  /** The inductive step of PullSplits: the head of `a` is kept or dropped alike on both sides. */
  lemma PullStep(a: seq<Attachment>, b: seq<Attachment>, key: Option<Oid>)
    requires a != []
    requires WithoutAttachment(a[1..] + b, key) == WithoutAttachment(a[1..], key) + WithoutAttachment(b, key)
    ensures WithoutAttachment(a + b, key) == WithoutAttachment(a, key) + WithoutAttachment(b, key)
  {
    TailOfConcat(a, b);
    var y, z := WithoutAttachment(a[1..], key), WithoutAttachment(b, key);
    if key != Some(a[0].aid) {
      assert WithoutAttachment(a + b, key) == [a[0]] + (y + z) by {
        PullKeeps(a + b, key);
      }
      PullKeeps(a, key);
      ConsConcat(a[0], y, z);
    } else {
      assert WithoutAttachment(a + b, key) == y + z;
      assert WithoutAttachment(a, key) == y;
    }
  }

  /** `a + b` without its head is the tail of `a` followed by `b`. */
  /** `a + b` without its head is the tail of `a` followed by `b`. */
  lemma TailOfConcat<T>(a: seq<T>, b: seq<T>)
    requires a != []
    ensures (a + b)[0] == a[0] && (a + b)[1..] == a[1..] + b
  {
  }

  /** Concatenation after a single element regroups. */
  lemma ConsConcat<T>(x: T, y: seq<T>, z: seq<T>)
    ensures [x] + (y + z) == ([x] + y) + z
  {
  }

  /** A head that does not match the key survives the pull. */
  lemma PullKeeps(atts: seq<Attachment>, key: Option<Oid>)
    requires atts != [] && key != Some(atts[0].aid)
    ensures WithoutAttachment(atts, key) == [atts[0]] + WithoutAttachment(atts[1..], key)
  {
  }

  lemma DropAtCons<T>(s: seq<T>, i: nat)
    requires 0 < i < |s|
    ensures s[..i] + s[i + 1..] == [s[0]] + (s[1..][..i - 1] + s[1..][i..])
  {
    assert s[..i] == [s[0]] + s[1..][..i - 1];
    assert s[i + 1..] == s[1..][i..];
  }

  lemma PullHead(atts: seq<Attachment>, key: Option<Oid>)
    requires atts != [] && key == Some(atts[0].aid) && DistinctIds(atts)
    ensures WithoutAttachment(atts, key) == atts[1..]
  {
    var tail := atts[1..];
    forall k | 0 <= k < |tail|
      ensures key != Some(tail[k].aid)
    {
      assert tail[k] == atts[k + 1];
    }
    KeepAll(tail, key);
  }

  /** A pull whose key no attachment has keeps every attachment. */
  lemma {:induction false} KeepAll(atts: seq<Attachment>, key: Option<Oid>)
    requires forall k :: 0 <= k < |atts| ==> key != Some(atts[k].aid)
    ensures WithoutAttachment(atts, key) == atts
  {
    if atts != [] {
      KeepAll(atts[1..], key);
    }
  }

  /**
   * `deleteTaskAttachment`: 404 without the task, 403 unless the caller owns
   * it or is an admin, 404 without the attachment; otherwise its file goes if
   * it is there and the attachment is pulled from the task.
   */
  method DeleteTaskAttachment(db: Db, caller: Claims, taskId: int, attachmentId: string) returns (r: Reply<string>)
    requires db.Valid()
    modifies db
    ensures db.Valid()
    ensures TaskById(old(db.tasks), taskId).None? ==> r == Fail(Error(404, "Task not found")) && unchanged(db)
    ensures TaskById(old(db.tasks), taskId).Some? ==>
              var i := TaskById(old(db.tasks), taskId).value;
              var t := old(db.tasks)[i];
              && (!OwnerGate(t, caller) ==> r == Fail(Error(403, "Not authorized")) && unchanged(db))
              && (OwnerGate(t, caller) && AttachmentIndex(t.attachments, CastObjectId(attachmentId)).None? ==>
                    r == Fail(Error(404, "Attachment not found")) && unchanged(db))
              && (OwnerGate(t, caller) && AttachmentIndex(t.attachments, CastObjectId(attachmentId)).Some? ==>
                    var k := AttachmentIndex(t.attachments, CastObjectId(attachmentId)).value;
                    && r == Ok(200, "Attachment deleted successfully")
                    && db.tasks == old(db.tasks)[i := t.(attachments := WithoutAttachment(t.attachments, CastObjectId(attachmentId)))]
                    && db.tasks[i].attachments == t.attachments[..k] + t.attachments[k + 1..]
                    && db.blobs == Unlinked(old(db.blobs), t.attachments[k].filePath)
                    && db.users == old(db.users) && db.counters == old(db.counters) && db.clock == old(db.clock))
  {
    var found := TaskById(db.tasks, taskId);
    if found.None? {
      return Fail(Error(404, "Task not found"));
    }
    var i := found.value;
    var t := db.tasks[i];
    if !OwnerGate(t, caller) {
      return Fail(Error(403, "Not authorized"));
    }
    var k := AttachmentIndex(t.attachments, CastObjectId(attachmentId));
    if k.None? {
      return Fail(Error(404, "Attachment not found"));
    }
    assert TaskOk(t, db.Counter(TaskCounter), db.clock);
    PullRemovesOne(t.attachments, CastObjectId(attachmentId), k.value);
    DistinctRemoveAt(t.attachments, k.value);
    db.UnlinkIfExists(t.attachments[k.value].filePath);
    db.ReplaceTask(i, t.(attachments := WithoutAttachment(t.attachments, CastObjectId(attachmentId))));
    r := Ok(200, "Attachment deleted successfully");
  }
}
