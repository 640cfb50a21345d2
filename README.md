# canvas_backend task service, modelled in Dafny

This project models the request-handling core of a small task backend. The backend is an Express and Mongoose service with these handler groups:

- **Session** (`login`, `refreshToken`, `logout`, `signup`).
- **Identity middleware** (`verifyToken`, `verifyAdmin`, `verifyUser`).
- **Owner-scoped task CRUD** (`getTasks`, `createTask`, `updateTask`, `deleteTask`).
- **Admin user management** (`getAllUsers`, `createUser`, `deleteUser`).
- **Profile pictures and task attachments** (`uploadProfilePicture`, `deleteProfilePicture`, `uploadTaskAttachment`, `deleteTaskAttachment`).

It also models the `User` and `Task` schemas with their pre-save id hooks, and the one-off `fix-user-ids.js` backfill.

The database is the class `Store.Db`:

- `users` and `tasks`: sequences of documents in insertion order.
- `counters`: the `Counter` collection.
- `blobs`: the set of stored file paths.
- `clock`: the tick stamped as `created_at`.

`Db.Valid()` is the invariant every method keeps:

- usernames are trimmed, non-empty and unique;
- user ids are unique and task ids are unique;
- every id is at most its counter's value;
- creation ticks increase along each sequence;
- every stored task satisfies the schema (a trimmed, non-empty title and a status from the enum).

Each state-changing handler is a module-level method that takes the store `db: Db`; the read-only ones (`getTasks`, `getAllUsers`, `verifyAdmin`, `verifyUser`) are functions. A handler's decision logic is a pure function (`GetTasks`, `NewTask`, `Patch`, `Credentials`, `Refresh`, `NewAccount`, `NewUser`, `Authenticate`, …). The method's `ensures` ties its reply and the new store to that function. Lemmas then state what the source promises about those functions.

Modelling choices:

- **JavaScript semantics.** Falsiness is modelled as absent or `""`. `trim` uses JavaScript's white-space set. `length` counts UTF-16 code units, `split(' ')` keeps empty fields, and numbers print in decimal.
- **Mongoose semantics.**
  - Validation runs before the pre-save hook, so an invalid document consumes no counter value.
  - `updateOne` applies the `trim` setter but runs no validators.
  - `findById` casts its argument to an ObjectId. A number, or a string that is not 24 hex digits, throws a CastError.
  - String query filters go through the schema's `trim`.
- **MongoDB query semantics.**
  - A negative `skip` is a server error.
  - `limit(0)` means no limit, and a negative limit acts as its absolute value.
  - `Math.ceil(total / 0)` becomes `null` in JSON, which the model shows as `None`.
- **Cryptography.** bcrypt and jsonwebtoken are opaque: `Crypto.Config` carries `sign`, `verify` and `matches` functions and the two secrets. The ghost predicate `AuthController.Sound` states the one property of jsonwebtoken that the lemmas use: a signed token verifies, with the same secret, to its payload.
- **Schema versus handler: `email`.** The `User` schema declares no `email` path, so `signup`'s email check cannot work as written; see "## Findings". The model stores the email and checks it, as `signup` evidently intends.
- **Deletions do not unlink blobs.** Deleting a task or a user leaves the blobs of its attachments in storage, exactly as the code does (controllers/task.controller.js:127, controllers/user.controller.js:98-101). Removing those blobs with their records would keep storage and records in step, but the code does not do it, and the model follows the code.

## Model

| member | source | states |
|---|---|---|
| Text.Trim | models/User.js:9-14 | the `trim` setter: the result is the input with its leading and trailing white space removed and nothing else, so it neither starts nor ends with white space |
| Text.TrimIdempotent | models/Task.js:42-46 | trimming a stored (already trimmed) value changes nothing |
| Text.TrimmedIsFixed | models/User.js:9-14 | a trimmed username is its own trim, so a lookup of the stored name finds it |
| Text.TrimAllWhite | models/Task.js:42-46 | a title of only white space trims to the empty string, which `required` rejects |
| Text.ContainsIgnoringCase | controllers/task.controller.js:13-18 | `{ $regex: search, $options: 'i' }` as a literal search: it matches iff some piece of the text equals the search text up to ASCII letter case, and a match is never longer than the text |
| Text.FoldEitherSide | controllers/task.controller.js:15-16 | the letter case of either the text or the search text does not change whether it matches |
| Text.ContainsInAnyCase | controllers/task.controller.js:13-18 | the `$options: 'i'` search matches an occurrence of the search text in any letter case |
| Text.EmptyMatchesAll | controllers/task.controller.js:13 | an empty search text matches every document |
| Text.Utf16LengthOfBmp | controllers/auth.controller.js:115 | `password.length` equals the number of characters for text in the basic multilingual plane |
| Text.NatToStringRoundTrip | controllers/upload.controller.js:55 | `toString()` of a non-negative number reads back to the same number |
| Text.IntToStringRoundTrip | controllers/upload.controller.js:55 | `toString()` of any integer reads back to it, so distinct ids print differently |
| Text.Split | middleware/auth.middleware.js:7 | `split(' ')` yields at least one field and no field holds a space |
| Text.JoinSplit | middleware/auth.middleware.js:7 | joining the fields of `split(' ')` with spaces gives back the header |
| Text.SplitJoin | middleware/auth.middleware.js:7 | splitting words joined by single spaces gives back exactly those words |
| Schema.ParseRole | models/User.js:19-23 | a role is accepted iff it is `admin` or `user`, and it prints back as given |
| Schema.RoleRoundTrip | models/User.js:19-23 | every role survives printing and re-parsing |
| Schema.ParseStatus | models/Task.js:51-56 | a status is accepted iff it is `pending`, `in-progress` or `completed` |
| Schema.StatusRoundTrip | models/Task.js:51-56 | every status survives printing and re-parsing |
| Schema.BuildUser | models/User.js:5-31 | validation passes iff the trimmed username and the password are non-empty and the role is in the enum; the document has a trimmed username, no id, and null `refresh_token` and `profilePicture` |
| Schema.BuildTask | models/Task.js:32-56 | validation passes iff the trimmed title is non-empty and the status (default `pending`) is in the enum; the document conforms, has the given owner, a trimmed title, description default `''` and no attachments |
| Schema.TaskDefaults | models/Task.js:47-56 | without description and status a task gets `''` and `pending` |
| Query.Filter | controllers/task.controller.js:22-23 | the query result holds exactly the stored documents that match, and no more of them than are stored |
| Query.FilterIncreasing | controllers/task.controller.js:23-24 | filtering keeps documents in increasing creation order |
| Query.NewestFirst | controllers/task.controller.js:24 | `sort({ created_at: -1 })` over documents stored oldest-first: the same length, in reverse |
| Query.NewestFirstPermutes | controllers/task.controller.js:24 | sorting is a permutation of the matches |
| Query.NewestFirstSorted | controllers/task.controller.js:24 | with increasing creation ticks, the sorted list is strictly newest-first |
| Query.Skip | controllers/task.controller.js:7 | `(page - 1) * limit` is negative exactly for a page before the first with a positive limit or a page after the first with a negative limit; page 1 or limit 0 skips nothing |
| Query.Window | controllers/task.controller.js:25-26 | `skip(skip).limit(limit)`: the elements from `skip` on, in order; with `limit` 0 all of them (no limit); otherwise at most `abs(limit)` of them, and all of them when fewer remain |
| Query.WindowHoldsMatches | controllers/task.controller.js:22-26 | every document on a page is a stored document that matches the query |
| Query.WindowDecreasing | controllers/task.controller.js:24-26 | a page cut from a newest-first list is newest-first |
| Query.TotalPages | controllers/task.controller.js:47 | `Math.ceil(total / limit)`: none when `limit` is 0; otherwise the least page count covering `total`, also for a negative limit |
| Query.EveryItemOnItsPage | controllers/task.controller.js:7-47 | the k-th match sits at position `k % limit` of page `k / limit + 1`, and that page number is at most `totalPages` |
| Query.Project | controllers/task.controller.js:31-39 | `map` over the listed documents: one projected record per document, in the same order |
| Store.UserByName | models/User.js:9-14 | `findOne({ username })`: the first user with that name, or none iff no user has it |
| Store.UserById | controllers/user.controller.js:87 | `findOne({ id })`: the first user with that numeric id, or none iff there is none |
| Store.UserByEmail | controllers/auth.controller.js:127 | `findOne({ email })`: a user with that email, or none iff there is none |
| Store.UserByOid | middleware/auth.middleware.js:25 | lookup by `_id`: the first user with that ObjectId, or none iff there is none |
| Store.TaskById | models/Task.js:33-36 | lookup by numeric task id: the first task with it, or none iff there is none |
| Store.OwnedTask | controllers/task.controller.js:96 | `findOne({ id, user_id })`: a task with that id and owner, or none iff there is none |
| Store.TaskByOid | controllers/upload.controller.js:49 | lookup by `_id`: a task with that ObjectId, or none iff there is none |
| Store.CastObjectId | controllers/upload.controller.js:17 | the ObjectId cast succeeds iff the string is 24 hex digits, and yields it in lower case |
| Store.FindTaskById | controllers/upload.controller.js:49 | `Task.findById(s)`: a CastError iff `s` is no ObjectId; otherwise the task with that `_id`, or none iff there is none |
| Store.TaskByIdUnique | models/Task.js:33-36 | in a valid store the task found by an id is the only one with it |
| Store.UserByIdUnique | models/User.js:5-8 | in a valid store the user found by an id is the only one with it |
| Store.RemoveAtByKey | controllers/task.controller.js:127 | removing the one element with a key drops exactly the elements with that key |
| Store.RemoveAtKeepsTasksValid | controllers/task.controller.js:127 | `deleteOne` keeps the task invariant |
| Store.RemoveAtKeepsUsersValid | controllers/user.controller.js:101 | `deleteOne` keeps the user invariant |
| Store.TasksNotOwnedBy | controllers/user.controller.js:98 | `deleteMany({ user_id })` leaves exactly the tasks with another owner |
| Store.TasksNotOwnedByKeepsValid | controllers/user.controller.js:98 | `deleteMany` keeps the task invariant |
| Store.Unlinked | controllers/upload.controller.js:20-22 | delete-if-exists: the path is gone afterwards and every other file stays, whether or not the path existed |
| Store.Db.NextSequence | models/Task.js:65 | `getNextSequence(name)` returns the counter plus one and stores it; nothing else changes |
| Store.Db.PreSaveUser | models/User.js:37-42 | the hook takes a fresh id from `userId` only for a new user; an existing one keeps its id and no counter moves |
| Store.Db.PreSaveTask | models/Task.js:63-68 | the hook takes a fresh id from `taskId` only for a new task; an existing one keeps its id and no counter moves |
| Store.Db.InsertUser | controllers/user.controller.js:62-68 | `save` of a new user appends it with the next id and the current tick and keeps the invariant |
| Store.Db.InsertTask | controllers/task.controller.js:65-72 | `save` of a new task appends it with the next id and the current tick and keeps the invariant, which includes distinct attachment ids in every task |
| Store.Db.AssignUserId | controllers/auth.controller.js:43-46 | backfill of one user: it gets the next `userId`, which no other user holds; nothing else changes |
| Store.Db.ReplaceUser | controllers/auth.controller.js:52 | an update of one user that keeps id, username and creation time; only that position changes |
| Store.Db.ReplaceTask | controllers/task.controller.js:107 | an update of one task that keeps id and creation time, conforms and has distinct attachment ids; only that position changes |
| Store.Db.RemoveTask | controllers/task.controller.js:127 | `deleteOne` removes the task at that position; the others stay in order |
| Store.Db.RemoveUser | controllers/user.controller.js:101 | `deleteOne` removes the user at that position; the others stay in order |
| Store.Db.RemoveTasksOf | controllers/user.controller.js:98 | `deleteMany({ user_id })` removes exactly that owner's tasks |
| Store.Db.StoreBlob | controllers/upload.controller.js:14 | the upload middleware's file write adds the path to storage |
| Store.Db.UnlinkIfExists | controllers/upload.controller.js:104-107 | best-effort unlink: the file is gone and nothing else changes |
| TaskController.GetTasks | controllers/task.controller.js:3-54 | absent `search`, `page` and `limit` default to `''`, 1 and 10; a 500 `Database error` iff the skip is negative; otherwise 200 with `total` counting every match, `page`, `limit`, `totalPages = ceil(total / limit)`, and the page of matches |
| TaskController.Matching | controllers/task.controller.js:11-23 | the query's result: no more tasks than are stored, each a stored task of the caller |
| TaskController.PageOf | controllers/task.controller.js:23-26 | the page is the run of the newest-first matches starting at the skip |
| TaskController.DefaultListing | controllers/task.controller.js:6 | without query parameters the answer is page 1 of limit 10: the caller's ten newest tasks, or all when fewer |
| TaskController.PageHoldsOnlyMatches | controllers/task.controller.js:11-26 | a page holds at most `abs(limit)` tasks, all stored, owned by the caller and matching the search |
| TaskController.MatchingIff | controllers/task.controller.js:11-18 | a task matches iff the caller owns it and, with a search text, its title or description contains the text in any case |
| TaskController.PageNewestFirst | controllers/task.controller.js:23-26 | the page is strictly newest-first |
| TaskController.MatchOnItsPage | controllers/task.controller.js:7-47 | every matching task appears on the page its position says, and that page is within `totalPages` |
| TaskController.NewTask | controllers/task.controller.js:56-88 | 400 `Title is required` iff the title is falsy; a 500 `Error creating task` iff validation fails; otherwise a conforming task owned by the caller with a trimmed title, the status (default `pending`) and description `''` when falsy |
| TaskController.CreatedWithDefaults | controllers/task.controller.js:59-70 | a task created with a title alone is the caller's, `pending`, with description `''` |
| TaskController.CreateTask | controllers/task.controller.js:56-88 | a rejected create changes nothing; otherwise the task is appended with the next task id, only the `taskId` counter moves by one, the clock ticks once, and 201 returns its summary |
| TaskController.OwnedIsById | controllers/task.controller.js:96-107 | the owned task the handler finds is the one `updateOne({ id })` and `deleteOne({ id })` change |
| TaskController.OthersTaskNotFound | controllers/task.controller.js:96-100 | another user's task is not found, so the caller gets the same 404 as for a missing id |
| TaskController.PatchAsWritten | controllers/task.controller.js:102-107 | the update as written: title (trimmed) and status only when truthy, description whenever defined, nothing else touched |
| TaskController.PatchAsWrittenBreaksStatus | controllers/task.controller.js:105-107 | as written, status `done` is stored and the task leaves the enum |
| TaskController.PatchAsWrittenEmptiesTitle | controllers/task.controller.js:103-107 | as written, title `" "` stores an empty title |
| TaskController.Patch | controllers/task.controller.js:102-112 | the update with the schema's validation: a 500 `Error updating task` iff a given title trims to empty or a given status is outside the enum; otherwise the as-written update, which conforms |
| TaskController.PatchKeepsOmittedFields | controllers/task.controller.js:102-107 | omitted or empty title and status are kept, an undefined description is kept, `''` clears it, and id, owner and attachments never change |
| TaskController.UpdateTask | controllers/task.controller.js:90-114 | 404 `Task not found` and no change unless the caller owns that id; otherwise the patched task replaces it, or the store is unchanged on a 500 |
| TaskController.DeleteTask | controllers/task.controller.js:116-134 | 404 and no change unless the caller owns that id; otherwise that task is removed and the others stay in order |
| TaskController.DeleteRemovesExactly | controllers/task.controller.js:127 | after the delete no task has that id and every task with another id is still there |
| AuthMiddleware.BearerToken | middleware/auth.middleware.js:6-7 | the token is the second space-separated word of the header; a missing header gives none |
| AuthMiddleware.BearerOfWords | middleware/auth.middleware.js:7 | for a header `<scheme> <token> …` the token is the second word, whatever the scheme |
| AuthMiddleware.NoSpaceNoToken | middleware/auth.middleware.js:7-11 | a header without a space yields no token |
| AuthMiddleware.Decode | middleware/auth.middleware.js:9-45 | 401 `Access token required` iff there is no token; 403 `Invalid or expired token` when verification fails; otherwise the claims |
| AuthMiddleware.Resolve | middleware/auth.middleware.js:19-34 | only a string claim of length 24 is looked up; the lookup throws iff it is no ObjectId; a found user is resolved, and a missing one keeps the claim |
| AuthMiddleware.Authenticate | middleware/auth.middleware.js:5-47 | the claims with `id` replaced by the resolved user's numeric id (or the next counter value), or the claims unchanged, or the 401/403 replies |
| AuthMiddleware.AuthenticateOverridesOnlyId | middleware/auth.middleware.js:38-41 | `req.user` keeps username and role and differs from the claims only in `id`; a claim that is not a 24-character string passes unchanged |
| AuthMiddleware.ResolvedIdIsPositive | middleware/auth.middleware.js:27-33 | a resolved legacy claim always leaves as a positive numeric id |
| AuthMiddleware.VerifyToken | middleware/auth.middleware.js:5-47 | replies as `Authenticate` says; only a resolved user without a numeric id is changed, gaining the next `userId` |
| AuthMiddleware.VerifyAdmin | middleware/auth.middleware.js:49-54 | passes iff the role is exactly `admin`, else 403 `Admin access required` |
| AuthMiddleware.VerifyUser | middleware/auth.middleware.js:56-61 | passes iff the role is `user` or `admin`, else 403 `User access required` |
| AuthMiddleware.GatesFollowRoles | middleware/auth.middleware.js:49-61 | `verifyUser` passes exactly the schema's roles, and whoever passes `verifyAdmin` passes `verifyUser` |
| AuthController.TokensCarryUser | controllers/auth.controller.js:6-20 | each token verifies with its own secret to the user's id, username and role |
| AuthController.AccessToken | controllers/auth.controller.js:6-12 | `jwt.sign` with the access secret: a non-empty token that verifies with that secret to the user's id, username and role |
| AuthController.RefreshToken | controllers/auth.controller.js:14-20 | `jwt.sign` with the refresh secret: a non-empty token that verifies with that secret to the user's id, username and role |
| AuthController.Credentials | controllers/auth.controller.js:24-40 | 400 iff a field is falsy; otherwise it passes iff a user with the trimmed name exists and the password matches its hash, else the same 401 `Invalid credentials` |
| AuthController.SignedIn | controllers/auth.controller.js:43-46 | a user with a numeric id keeps it; only one without gets the next value |
| AuthController.OpenSession | controllers/auth.controller.js:43-63 | backfill if needed, sign both tokens for the user, store the refresh token on it; the response shows id, username, role and picture, and no hash; the `userId` counter moves by one exactly when the user had no numeric id, and no other counter moves |
| AuthController.Login | controllers/auth.controller.js:22-67 | a refused login changes nothing; a successful one stores the returned refresh token on that user only, leaves the counters alone when the user had an id, and otherwise moves only the `userId` counter, by one |
| AuthController.SessionOf | controllers/auth.controller.js:82 | `findOne({ id, refresh_token })`: a user with both, or none iff there is none |
| AuthController.Refresh | controllers/auth.controller.js:69-94 | 401 without a token; 200 with a new access token iff the token verifies with the refresh secret and a user with its id stores it; 403 otherwise |
| AuthController.StoredRefreshWorks | controllers/auth.controller.js:52-89 | the refresh token that login stores buys an access token for the same user |
| AuthController.SupersededRefreshRefused | controllers/auth.controller.js:82-86 | a verifying token that is not the one stored on its user is refused |
| AuthController.ClearSession | controllers/auth.controller.js:100 | only the user with that id loses its refresh token |
| AuthController.ClearSessionIdempotent | controllers/auth.controller.js:100 | a second logout leaves the same users |
| AuthController.Logout | controllers/auth.controller.js:96-105 | 200 `Logged out successfully`; the caller's refresh token is cleared and nothing else changes |
| AuthController.LogoutEndsSession | controllers/auth.controller.js:82-100 | after logout no refresh token of the caller's id works |
| AuthController.NewAccount | controllers/auth.controller.js:109-157 | the checks in order (falsy field, password shorter than 6, taken username, taken email only when given), each a 400; once they pass, a refusal happens iff the trimmed name or the hash is empty, and it is the 500 `Error creating account`; otherwise a `user`-role account with the trimmed name and the given email |
| AuthController.FreshAccountAccepted | controllers/auth.controller.js:111-144 | a new, long enough registration without email is accepted |
| AuthController.FreshEmailAccepted | controllers/auth.controller.js:125-144 | a registration with an email no user holds is accepted and keeps that email |
| AuthController.DuplicateEmailRefused | controllers/auth.controller.js:125-130 | an email some user already holds is refused with 400 `Email already exists` |
| AuthController.AccountAsWritten | controllers/auth.controller.js:107-144 | signup as written: the saved account has no email, and with `strictQuery` on an email is refused whenever any user exists |
| AuthController.FreshEmailRefusedAsWritten | controllers/auth.controller.js:127 | with `strictQuery` on, a fresh email is refused once one user exists, where the intended check accepts it |
| AuthController.SecondEmailAcceptedAsWritten | controllers/auth.controller.js:140 | with `strictQuery` off, a second account with the same email is accepted |
| AuthController.SecondEmailRefused | controllers/auth.controller.js:125-130 | the intended check refuses that second account, because the first one stored the email |
| AuthController.Signup | controllers/auth.controller.js:107-158 | a refused signup changes nothing; otherwise the account is appended with the next id, only the `userId` counter moves by one, the clock ticks once, and 201 returns id, username and role `user` |
| AuthController.SignupThenLogin | controllers/auth.controller.js:30-40 | the registered account then passes the login checks with its password |
| UserController.GetAllUsers | controllers/user.controller.js:5-43 | absent `search`, `page` and `limit` default to `''`, 1 and 10; a 500 iff the skip is negative; otherwise 200 with the page of `user`-role matches and the pagination of the task listing |
| UserController.Matching | controllers/user.controller.js:10-16 | the query's result: no more accounts than are stored, each a stored account with role `user` |
| UserController.PageOf | controllers/user.controller.js:17-21 | the page is the run of the newest-first matches starting at the skip |
| UserController.DefaultListing | controllers/user.controller.js:7 | without query parameters the answer is page 1 of limit 10: the ten newest plain users, or all when fewer |
| UserController.PageHoldsOnlyUsers | controllers/user.controller.js:10-21 | every listed account is stored, has role `user` and matches the search; a page holds at most `abs(limit)` |
| UserController.ViewsShowUserRole | controllers/user.controller.js:10-29 | every listed account shows role `user`; no admin is ever listed |
| UserController.PageNewestFirst | controllers/user.controller.js:18-21 | the listing is strictly newest-first |
| UserController.NewUser | controllers/user.controller.js:47-80 | 400 for a falsy field, then 400 for a taken username; once they pass, a refusal happens iff validation fails (role outside the enum, blank name, empty hash), and it is the 500 `Error creating user`; otherwise the role is the given one or `user` |
| UserController.CreateUserDefaultsRole | controllers/user.controller.js:47 | without a role the account is a plain user |
| UserController.CreateUser | controllers/user.controller.js:45-81 | a refused create changes nothing; otherwise the user is appended with the next id, only the `userId` counter moves by one, the clock ticks once, and 201 returns id, username and role |
| UserController.DeleteUser | controllers/user.controller.js:83-107 | 404 for an unknown id and 403 for an admin, changing nothing; otherwise that user's tasks go, then the user, and nothing else |
| UserController.DeleteUserExactly | controllers/user.controller.js:98-101 | the cascade removes exactly the users and the tasks with that id; all others stay |
| UploadController.FindUserByIdAsWritten | controllers/upload.controller.js:17 | `User.findById(req.user.id)` as written: a number is a CastError, a string is cast and looked up by `_id` |
| UploadController.ProfileLookupFailsAsWritten | controllers/upload.controller.js:17 | every numeric id the middleware passes on makes the profile handlers' lookup throw |
| UploadController.NumericTaskIdFailsAsWritten | controllers/upload.controller.js:49 | the decimal task id clients know is no ObjectId, so `Task.findById` throws |
| UploadController.OwnerGateAsWritten | controllers/upload.controller.js:55 | the owner check as written: for a numeric id claim it passes iff the role is `admin` |
| UploadController.OwnerRefusedAsWritten | controllers/upload.controller.js:55 | as written, a non-admin owner with a numeric id claim is refused |
| UploadController.OwnerGate | controllers/upload.controller.js:94 | the corrected owner check: an admin always passes, anyone else iff the claim is the task's numeric owner id |
| UploadController.GateAgreesOnDecimalClaims | controllers/upload.controller.js:55 | the corrected gate admits exactly whom the written gate admits when the id is compared as a string |
| UploadController.FindCaller | controllers/upload.controller.js:17 | the corrected lookup: a numeric id is found iff a user has it, while legacy string ids keep the `_id` lookup |
| UploadController.CallerFound | controllers/upload.controller.js:17 | every user with a numeric id is found by it |
| UploadController.WithoutPicture | controllers/upload.controller.js:18-23 | the old picture's file goes only when a picture is set |
| UploadController.UploadProfilePicture | controllers/upload.controller.js:7-36 | 400 without a file and no change; a 500 when the caller is not found; otherwise the old file goes, the new path is recorded on the caller only, and 200 returns it |
| UploadController.DeleteProfilePicture | controllers/upload.controller.js:122-145 | a 500 when the caller is not found and 400 without a picture, both changing nothing; otherwise the file goes and the picture becomes null |
| UploadController.SecondPictureDeleteRefused | controllers/upload.controller.js:127-138 | after a delete the same caller is found with no picture, so a second delete is a 400 |
| UploadController.NewAttachment | controllers/upload.controller.js:59-66 | the attachment keeps the file's name, original name, size and type, at `/storage/attachments/<filename>` |
| UploadController.UploadTaskAttachment | controllers/upload.controller.js:39-81 | 400 without a file; 404 without the task; 403 unless owner or admin; otherwise exactly one attachment is appended to that task, earlier ones are unchanged, and the reply is the literal without the `_id` the store gave it; the new `_id` is one no stored attachment has, so attachment ids stay distinct |
| UploadController.Literal | controllers/upload.controller.js:59-66 | the literal an attachment was cast from: every field but its `_id` |
| UploadController.AttachmentIndex | controllers/upload.controller.js:98 | `attachments.id(attachmentId)`: the attachment with that `_id`, or none iff there is none |
| UploadController.WithoutAttachment | controllers/upload.controller.js:110-112 | `$pull`: the attachments without that `_id`, and only those |
| UploadController.PullRemovesOne | controllers/upload.controller.js:110-112 | with distinct attachment ids the pull removes exactly that one and keeps the others in order |
| UploadController.KeepAll | controllers/upload.controller.js:110-112 | a pull whose `_id` no attachment has leaves the attachments as they were |
| UploadController.PullSplits | controllers/upload.controller.js:110-112 | the pull keeps order: pulling from two runs of attachments joined is pulling from each and joining the results |
| UploadController.DistinctAppend | controllers/upload.controller.js:69-71 | `$push` of an attachment with a fresh `_id` keeps the task's attachment ids distinct |
| UploadController.DistinctRemoveAt | controllers/upload.controller.js:110-112 | removing one attachment keeps the others' ids distinct |
| UploadController.DeleteTaskAttachment | controllers/upload.controller.js:84-119 | 404 without the task, 403 unless owner or admin, 404 without the attachment, all changing nothing; otherwise the file goes if present and the attachment is pulled: the task's attachments are the earlier ones before it followed by the ones after it, in order |
| FixUserIds.Lacking | fix-user-ids.js:11 | the number of users without an id, never more than there are users |
| FixUserIds.NoneLacking | fix-user-ids.js:10-17 | none is lacking exactly when every user has an id, so the script then assigns nothing |
| FixUserIds.Backfilled | fix-user-ids.js:11-16 | a user with an id is unchanged; one without gets the counter's start plus its rank among those lacking an id |
| FixUserIds.BackfillDistinct | fix-user-ids.js:12 | the ids handed out in one run strictly increase, so they are distinct |
| FixUserIds.Run | fix-user-ids.js:8-18 | visits every user once; afterwards every user has a truthy id, users with one are unchanged, and the counter moved once per user that lacked one |

## Left out

- I/O and plumbing are not modelled: Express wiring, CORS, static serving, the MongoDB connection, `process.exit` and console logging. The routes only decide which gates come before each handler.
- models/Counter.js is not part of this model. `getNextSequence` is modelled as incrementing a per-name counter that starts at 0, sequentially.
- Atomicity is not modelled: the counter's atomicity, concurrent requests and races on the unique indexes.
- Store errors other than those the code provokes are not modelled, so the generic 500 replies of each `catch` are reached only through the modelled causes. These causes are validation, CastError, a negative skip and a null user.
- bcrypt and jsonwebtoken are opaque functions. Hashing, expiry and signature checks are not modelled, and the bcrypt hash is a parameter of signup and createUser.
- AuthController.Refresh: the `jwt.verify` callback is modelled as straight-line code. An error thrown inside it, which escapes the outer `try`, is not modelled. The model answers 403 for every verified token whose `id` is not a number. In the source only a missing `id` (or a numeric string) plausibly ends at 403; a non-numeric string, such as the 24-hex `_id` of a legacy token, makes `findOne({ id, refresh_token })` throw a CastError inside the callback, an unhandled rejection that sends no reply.
- The task handlers and `logout` take the caller's numeric id. A legacy string id that reaches them unresolved is not modelled.
- `parseInt` of query and route parameters is not modelled. Page, limit and ids arrive as integers (or absent, for the listing defaults), and the upload handlers take the numeric task id.
- Search is a literal substring with ASCII case folding, not a regular expression with Unicode case folding.
- `created_at` is a monotone tick, and `updated_at` is not modelled.
- The upload middleware (multer) is not modelled: filename generation, the size limits and the file write. The write is a `StoreBlob` at the start of each upload handler, so a rejected upload leaves its file in storage.
- Attachment required fields: every `Upload` carries all five fields, so that validation cannot fail in the model.
- A JSON `null` description in an update is not modelled; it is treated like an absent one.
- ObjectIds given as 12-byte strings are not modelled.
- Task deletion and the user cascade do not remove attachment files, as in the code.
- FixUserIds.Run: it states the new value of the `userId` counter but not that the other counters are untouched, because that frame made the loop's proof too costly; AssignUserId, which each step calls, does state it.
- UploadController.UploadTaskAttachment: it requires the new `_id` to be one no stored attachment has, since the ObjectId generator is not modelled and its uniqueness is taken as given.
- TaskController.Patch: it requires the stored task to conform to the schema, which `Db.Valid()` guarantees. A task stored through the as-written update would not conform.

## Findings

| source | as written | input that shows it | evidently intended | confidence | as-written member | corrected member |
|---|---|---|---|---|---|---|
| controllers/upload.controller.js:55 | `task.user_id.toString() !== req.user.id` (also at line 94) compares a string with the numeric id that `verifyToken` passes on | a non-admin owner of task with `user_id` 7 whose token carries `id: 7`: `"7" !== 7` holds, so the answer is 403 | admit the owner (by numeric id) or an admin | high, not executed | UploadController.OwnerGateAsWritten, UploadController.OwnerRefusedAsWritten | UploadController.OwnerGate, UploadController.GateAgreesOnDecimalClaims |
| controllers/upload.controller.js:17 | `User.findById(req.user.id)` (also at line 125) and `Task.findById(taskId)` (lines 49 and 89) cast the numeric ids to ObjectIds | a token with `id: 7` makes `findById(7)` throw a CastError, a 500; the task id `12` from the listing throws too | look users and tasks up by the numeric `id` field, as every other handler does | high, not executed | UploadController.FindUserByIdAsWritten, UploadController.ProfileLookupFailsAsWritten, UploadController.NumericTaskIdFailsAsWritten | UploadController.FindCaller, UploadController.CallerFound, UploadController.UploadTaskAttachment |
| controllers/auth.controller.js:127 | `User.findOne({ email })` (and `email` in `new User` at line 140) on a schema without an `email` path | with `strictQuery` on (the Mongoose 6 default), `findOne({})` matches any user, so once one user exists every signup that gives an email gets 400 `Email already exists`; with it off (the Mongoose 7 default), no email is ever stored, so a second account with the same email is accepted. No Mongoose version is pinned in the sources | store the email and refuse an email that a user already holds | medium, not executed | AuthController.AccountAsWritten, AuthController.FreshEmailRefusedAsWritten, AuthController.SecondEmailAcceptedAsWritten | AuthController.NewAccount, AuthController.FreshEmailAccepted, AuthController.DuplicateEmailRefused, AuthController.SecondEmailRefused |
| controllers/task.controller.js:102-107 | `Task.updateOne(filter, updateData)` runs no validators | status `done`, or title `" "`: the update stores a status outside the enum, or an empty title | reject what the schema rejects on create (a 500 `Error updating task`) | medium, not executed | TaskController.PatchAsWritten, TaskController.PatchAsWrittenBreaksStatus, TaskController.PatchAsWrittenEmptiesTitle | TaskController.Patch, TaskController.PatchKeepsOmittedFields |
