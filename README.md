# Social media app: accounts, approval, posts and likes

This project models the server core of a small social-networking app: an
Express server (`app.js`) over two Mongoose collections, `User`
(`models/user.js`) and `Post` (`models/post.js`).

The database is an in-memory store held by the class `App.Server`:
- `accounts`: a map from id to `Account`;
- `posts`: a map from id to `Post`;
- `nextId`: the id generator, a counter that stands in for ObjectId creation;
- `session`: the one browser session the handlers read and write.

Each route handler of `app.js` is a method on that store. A method returns a
`Result` that names the outcome instead of an HTTP response. Accounts and
posts are `datatype`s, one per schema.

The rules the model states:
- **Login approval gate.** No account with that username and password gives
  `InvalidCredentials`. A matching but unapproved account gives
  `AccountPending`. Otherwise the session becomes that account's id, username
  and admin flag.
- **Registration.** A taken username changes nothing. Otherwise one new
  account is added, pending and not an administrator.
- **Owner seed.** At every start an upsert makes the account `shubham` an
  approved administrator with password `123`. Running it twice is the same as
  running it once.
- **Guards.** `requireLogin` and `requireAdmin` turn requests away with two
  distinct errors. A guarded handler that turns a request away changes nothing.
- **Like toggle.** If the user is in `likes`, every occurrence is pulled;
  otherwise the user is pushed.
- **Delete.** Allowed to an administrator or to the post's author.
- **Queries.** The feed lists every post once, newest first. The profile lists
  exactly the session user's posts. The admin page lists pending accounts and
  approved non-admin accounts.

Pure rules live in their own modules:
- `Guards`: the two guards and the ownership test;
- `Queries`: `findOne`, `find` and `sort` over the maps;
- `Likes`: `pull` and the toggle;
- `Seed`: the upsert as a function of the old accounts.

The `Server` methods are proved against these functions. The module
`Walkthrough` is a client that registers, approves, logs in, posts, likes,
unlikes and deletes, using only the methods' contracts.

Modelling choices where the code is more specific than a plain reading:
- A login that fails leaves the session as it was. The handler never clears it.
- An administrator's delete never reads the post it looked up (`||`
  short-circuits at app.js:132). An unknown id is therefore a successful no-op
  for an admin. For
  anyone else the handler dereferences the missing post and fails (`NotFound`).
- A like on a missing post also dereferences null and fails (`NotFound`).
- Approving an unknown id changes nothing and still succeeds.
- The seed's update only sets the fields it names. An existing owner keeps its
  `collegeId` and `mobile`.
- `required` on a string rejects a missing and an empty value alike. A missing
  form field is passed as `""`. A rejected `create` leaves the store unchanged
  and gives `ValidationFailed`.
- The `likes` list is a sequence, not a set. Only the toggle keeps it free of
  duplicates, so that is an invariant of the store (`App.Consistent`), kept by
  every route.
- A delete that neither the owner nor an admin may do only redirects in
  app.js. Here it gives `Forbidden`, so the case can be told apart.

## Model

| member | source | states |
|---|---|---|
| UserModel.Create | models/user.js:3-16 | the document is accepted iff username and password are non-empty; optional fields are kept as given; `isAdmin` and `isApproved` are true only when supplied as true, so both default to false |
| PostModel.Create | models/post.js:3-20 | the post is accepted iff content is non-empty; author, author name, image and date are the inputs; likes and comments start empty; the result is well formed |
| Guards.RequireLogin | app.js:59-62 | passes exactly when there is a session and yields its principal; otherwise `Unauthenticated` |
| Guards.MayDelete | app.js:132 | an administrator may delete any post; the author may delete their own; a non-admin may delete only a post whose author they are |
| Guards.RequireAdmin | app.js:64-67 | on the admin routes (after `requireLogin`): no session gives `Unauthenticated`, a non-admin session gives `Forbidden`, an admin session passes |
| Queries.FindOne | app.js:75 | finds an account matching the filter iff one exists, and the first one in natural order |
| Queries.SortNewestFirst | app.js:101 | the result is a permutation of the input ids and its posts go in non-increasing date order |
| Queries.Feed | app.js:101 | every post appears, exactly once, newest first |
| Queries.ProfileFeed | app.js:159 | exactly the posts whose author is the given user, each once, newest first |
| Queries.Pending | app.js:170 | exactly the unapproved accounts, in natural order |
| Queries.Active | app.js:171 | exactly the approved non-admin accounts, in natural order |
| Likes.Pull | app.js:147 | removes every occurrence of the id and keeps the count of every other id; the length drops by the number removed |
| Likes.PullAppend | app.js:147 | pull distributes over concatenation, so it keeps the other ids in order |
| Likes.Toggle | app.js:145-151 | the user's membership flips; every other id keeps its count; unliking removes all occurrences, liking appends the user |
| Likes.ToggleTwice | app.js:145-153 | toggling twice restores the user's membership; a list without the user comes back exactly; a duplicate-free list comes back with the same elements |
| Likes.ToggleKeepsNoDuplicates | app.js:145-151 | a duplicate-free like list stays duplicate-free and its length changes by exactly one |
| Seed.Promote | app.js:45-51 | the updated record is the owner record (name `shubham`, password `123`, full name, admin, approved), keeps `collegeId` and `mobile`, and leaves an owner record as it is |
| Seed.SeedOwner | app.js:42-53 | the upsert keeps every existing id and keeps all ids below the new bound |
| Seed.SeedOwnerReady | app.js:42-53 | afterwards usernames are still unique; exactly one account is `shubham`, and it is an approved admin with password `123`; every other account is unchanged; at most one id is added |
| Seed.SeedOwnerIdempotent | app.js:42-53 | seeding a seeded store changes nothing |
| App.Upload.Image | app.js:119 | the post's image is a filename exactly when a file was stored, and then it is that file's name |
| App.Server.constructor | app.js:56 | a process start over a consistent database has no session and is seeded: the owner exists and is an approved admin with the known password |
| App.Server.SeedOwner | app.js:42-53 | the store becomes the seed of the old one; the owner exists and is an approved admin; the other accounts are unchanged; the invariant is kept |
| App.Server.Login | app.js:73-83 | `InvalidCredentials` iff no account matches username and password; `AccountPending` iff the match is unapproved; otherwise the session is exactly that account's id, username and admin flag; on failure the session is unchanged |
| App.Server.Register | app.js:86-92 | `UsernameTaken` iff the username exists, with no change; an empty username or password is rejected with no change; otherwise exactly one new account is added, pending and not admin, and the session is untouched |
| App.Server.Logout | app.js:95 | the session is gone |
| App.Server.Home | app.js:100-108 | without a session `Unauthenticated`; otherwise every post once, newest first |
| App.Server.Posting | app.js:113-125 | without a session `Unauthenticated`; an upload error gives `UploadFailed`; empty content is rejected; otherwise one new post whose author and author name come from the session, with empty likes and comments; nothing else changes |
| App.Server.Delete | app.js:128-138 | without a session nothing changes; the post is removed iff the session is admin or the post's author is the session user; a non-admin gets `NotFound` iff the post is missing and `Forbidden` iff it exists with another author; on any error the posts are unchanged |
| App.Server.Like | app.js:141-155 | without a session or for a missing post nothing changes; otherwise only that post's likes change, by the toggle, and the result tells whether the user now likes it |
| App.Server.Profile | app.js:158-166 | without a session `Unauthenticated`; otherwise exactly the session user's posts, once each, newest first |
| App.Server.Admin | app.js:169-173 | the guards as above; for an admin, the pending list is exactly the unapproved accounts and the active list exactly the approved non-admins, and the two are disjoint; each list is in ascending id order, so no id repeats |
| App.Server.Approve | app.js:174-177 | the guards as above, with no change when they refuse; for an admin, only that account's `isApproved` becomes true, and an unknown id changes nothing |

## Left out

- Express, the Mongoose connection, the session middleware and Multer setup (app.js:12-39), page rendering and redirects: handlers return `Result` values instead.
- The GET routes that only render a form (`/login`, `/register`, `/posting`): they touch no state.
- The upload's filename scheme (app.js:22) uses the clock and a path library. The size limit (app.js:28) is enforced by Multer. The handler only sees a stored filename, no file, or an error (`App.Upload`).
- Clock: the post date is a natural-number timestamp passed to `Posting`.
- ObjectId generation is a counter (`nextId`) shared by both collections. ObjectIds and their string forms are one type, `Id`.
- The natural order of `find` without a sort is taken to be insertion order, which is ascending id here. MongoDB does not promise this order.
- The order among posts with equal dates is left open by the sort. The model fixes one order, but its contracts do not depend on it.
- Concurrency: each request is one atomic step. The load-modify-save in `/like/:id` (app.js:142-153) can lose concurrent toggles, and the model does not show this.
- Passwords are compared in plain text, as app.js does (app.js:75). No hashing is modelled.
- The unique index on `username` is an invariant of the store (`UserModel.UniqueUsernames`), not a write-time check. Two concurrent registrations cannot happen in the model.
- `Post.user` and `Post.username` are optional in the schema. The model makes them plain fields because the only writer, `/posting`, always sets them.
- Comments have a record (`PostModel.Comment`), but no route in `app.js` adds or removes one. Comment append, account deletion, profile update and `/api/me` are called by the React client but have no server code, so they are not modelled.
- In app.js an empty required field (`User.create` at app.js:90, `Post.create` at app.js:117) and a missing post (`post.user` at app.js:132, `post.likes` at app.js:145) are uncaught exceptions inside async handlers, and no response is sent. The `Err(ValidationFailed)` and `Err(NotFound)` results stand in for those failures; the model does not capture the hung request or the unhandled rejection.
- Invalid id strings, which make Mongoose throw a cast error, are not modelled: every id is a well-formed `Id`.
