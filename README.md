# To-Do List: a verified model of the task store, sessions and pages

The application is a Next.js to-do list backed by MongoDB. Users register
and log in, and receive a signed session token. Each user keeps tasks that
have a title, an optional description and category, a priority (red,
yellow or green), a completion flag and a position that orders the list.
This project models the logic behind the HTTP plumbing:

- **the task document** (`TaskModel`): the schema's required fields, the
  priority enumeration and the defaults, written as the validating
  constructor that `Task.create` runs;
- **session verification** (`Auth`): the token is read from a
  `Bearer` header or from the `token` cookie. The signature library checks
  it. The identity is taken from the `userId`, `id` or `_id` claim;
- **the task routes** (`Tasks`, `Reorder`):
  - GET lists matches for a title search, or the caller's own tasks in
    position order;
  - POST appends a task after the caller's last one;
  - PUT `reorder` writes index positions into the caller's tasks;
- **the migration route** (`Migrate`): it turns owner references stored
  as plain strings into ObjectIds and counts the conversions;
- **registration and login** (`Users`, `Register`, `Login`);
- **the login page** (`LoginPage`): the email and password checks and the
  form state that `handleLogin` updates;
- **the dashboard page** (`Dashboard`): the task list and the handlers
  that add, toggle, delete and edit tasks.

The database is modelled as in-memory tables:

- `Tasks.TaskStore` is a class with a sequence of tasks;
- `Users.UserStore` is a class with a sequence of users.

Each store has a `nextId` counter that stands for ObjectId generation.
Route handlers change these tables through their methods. The two React
pages are classes whose fields are the pages' state variables.

The following foreign libraries are function-valued parameters, not code:

- the bcrypt hash and compare (`hash`, `compare`);
- jwt sign and verify (`sign`, `verify`);
- the case-insensitive regular-expression title test (`titleMatches`);
- the ObjectId cast (`toObjectId`);
- whether a document save succeeds (`saves`).

The server's replies to the pages' requests are inputs of the handler
methods.

## Model

| member | source | states |
|---|---|---|
| TaskModel.ParsePriority | models/task.ts:19 | a priority string is accepted exactly when it names one of red, yellow, green, and yields that priority |
| TaskModel.Violations | models/task.ts:16-23 | the title is required (missing or empty fails), the priority must be in the enumeration when given, the userId is required; each error is reported iff its condition holds |
| TaskModel.NewTask | models/task.ts:15-26 | creation fails iff some validator fails, with exactly those errors; otherwise the document carries the given fields, priority defaults to green, completed to false, position to 0 |
| Tasks.InsertByPosition | app/api/tasks/route.ts:23 | inserting into a position-sorted list keeps it sorted and adds exactly the one task (multiset) |
| Tasks.SortByPosition | app/api/tasks/route.ts:23 | the result is non-decreasing in position and a permutation of the input |
| Tasks.Get | app/api/tasks/route.ts:11-23 | 401 iff there is no non-empty search and no identity; a non-empty search returns exactly the tasks of all owners whose title matches, each once and in table order (the filtered table); otherwise exactly the caller's tasks (as a multiset, so no other owner's task) sorted by position |
| Tasks.LastTask | app/api/tasks/route.ts:54 | none iff the owner has no task; otherwise one of the owner's tasks with the greatest position |
| Tasks.NextPosition | app/api/tasks/route.ts:54-55 | 0 when the owner has no task; otherwise one more than some owned position and greater than every owned position |
| Tasks.PostInput | app/api/tasks/route.ts:57-61 | userId and position are the server's values whatever the body held; every other field is the body's |
| Tasks.TaskStore.Create | app/api/tasks/route.ts:44-69 | 401 iff there is no identity, with no change; created iff the title is non-empty and the priority valid; a logged-in caller's invalid body gives the schema-error answer (500) carrying exactly the validators that fail on the body with the server's owner and position; then exactly one task is appended, with a fresh id, owner the caller, position NextPosition, built by NewTask; nothing changes on refusal |
| Reorder.LastIndexOf | app/api/tasks/reorder.ts:22-30 | the index of the last occurrence of an id, none iff absent; the last write to a task decides its position |
| Reorder.WriteStep | app/api/tasks/reorder.ts:23-29 | the table after the writes for indices 0..n equals the table after 0..n-1 followed by the single owner-scoped write of position n |
| Reorder.Reorder | app/api/tasks/reorder.ts:7-32 | 401 without identity and 400 for a non-array payload, both with the table unchanged; otherwise "Order saved" and the table is the per-index owner-scoped writes applied in order |
| Reorder.ReorderKeepsIdsAndOwners | app/api/tasks/reorder.ts:24-27 | only positions change; tasks of other owners and unlisted or unknown ids are unchanged; ids stay unique |
| Reorder.ListedTaskTakesItsIndex | app/api/tasks/reorder.ts:22-30 | with duplicate-free ids, the caller's task listed at index i ends at position i |
| Reorder.ReorderThenList | app/api/tasks/reorder.ts:22-30 | when the ids are a duplicate-free list of exactly the caller's task ids, the caller's next GET returns the tasks in exactly that order |
| Auth.Split | lib/auth.ts:9 | the first piece of a split is the longest prefix free of the separator |
| Auth.HeaderToken | lib/auth.ts:5-10 | "" unless the header starts with "Bearer "; then the text after the prefix up to the next space |
| Auth.FirstTokenCookie | lib/auth.ts:15 | the least index at which `token=` begins the header or follows "; " and is followed by a non-';' character, none iff there is no such index |
| Auth.CookieToken | lib/auth.ts:14-16 | none iff no index matches; otherwise the non-empty, ';'-free run after the leftmost match, ending at ';' or the end |
| Auth.ExtractToken | lib/auth.ts:4-17 | a non-empty header token is used; otherwise the cookie token, or "" |
| Auth.VerifyToken | lib/auth.ts:3-33 | an identity is returned iff a token was extracted, the signature check accepts it and the first non-null claim of userId, id, _id is truthy (a non-zero number, a non-empty string, true, any array or object); that identity is the claim |
| Auth.HeaderTokenIsSecondField | lib/auth.ts:8-10 | for a header starting with "Bearer ", the token is element 1 of `split(" ")` |
| Auth.DoubledSpaceFallsBackToCookie | lib/auth.ts:8-17 | "Bearer  x" gives an empty header token, so the result is what the cookie alone gives |
| Auth.HeaderRoundTrip | lib/auth.ts:8-10 | "Bearer " followed by a space-free token yields that token |
| Auth.CookieRoundTrip | lib/auth.ts:15-16 | a cookie header starting with `token=v` followed by the end or ';' yields v |
| Auth.HeaderTakesPrecedence | lib/auth.ts:13-17 | with a non-empty header token the cookie header does not affect the result |
| Auth.FalsyUserIdHasNoFallback | lib/auth.ts:23-24 | a present but empty userId claim gives no identity even when id or _id is set |
| Users.FindByEmail | app/api/auth/register/route.ts:18 | none iff no user has the email; otherwise a stored user with it, the only one when emails are unique |
| Users.AddFreshEmail | app/api/auth/register/route.ts:18-31 | appending a user whose email is not found keeps emails unique |
| Register.Register | app/api/auth/register/route.ts:7-42 | 400 "required" iff a field is missing or empty, decided before the lookup; a taken email gives 400; both leave the store unchanged; otherwise the user is registered: exactly one user with the hashed password is appended and the token signs its id and email |
| Login.Login | app/api/auth/login/route.ts:7-29 | "Invalid email" iff no user has the email; "Invalid password" iff the found user's hash does not match; otherwise a token signing the id and email of the user that lookup found (the first with that email); the store is only read |
| Login.FindAfterAppend | app/api/auth/login/route.ts:13 | the email lookup on a grown collection finds the earlier match first, else the new user |
| Login.LoginAfterRegister | app/api/auth/login/route.ts:13-29 | a freshly registered user logs in with the same password and gets a token for its own id and email |
| Migrate.Migrated | app/api/migrate/route.ts:15-19 | only the owner field can change; it changes iff it is a string whose cast and save succeed, and then holds the cast ObjectId |
| Migrate.MigratedCount | app/api/migrate/route.ts:11-19 | the count is at most the number of tasks |
| Migrate.Migrate | app/api/migrate/route.ts:6-26 | every task becomes its Migrated form, in place, and the reported number is MigratedCount of the original table |
| Migrate.CountIsConvertedTasks | app/api/migrate/route.ts:12-26 | the reported number equals the length of the list of tasks whose string owner is cast and saved |
| Migrate.NoLegacyCountsZero | app/api/migrate/route.ts:15 | a table with no string owner reports 0 |
| Migrate.SecondPassFindsNothing | app/api/migrate/route.ts:15-19 | after a pass in which every conversion succeeded, a second pass reports 0 |
| LoginPage.MatchesEmail | app/login/page.tsx:21-22 | true iff there is no white space, an '@' at some index i >= 1 and a '.' at some index j >= i + 2 that is not the last character |
| LoginPage.Validate | app/login/page.tsx:20-23 | the email error is present iff the email fails the pattern (so always for ""), the password error iff the password is empty, each with its message |
| LoginPage.EmptyFieldsBothReported | app/login/page.tsx:20-25 | an empty form reports both errors together |
| LoginPage.LoginForm.HandleLogin | app/login/page.tsx:14-48 | with any error, only the field errors are set and no request is sent nor loading set; otherwise the request is sent, the field errors cleared, loading ends false and the message follows the reply |
| Dashboard.ReplaceById | app/dashboard/page.tsx:46 | same length; entries whose `_id` is the id become the reply, all others (error bodies included) are unchanged |
| Dashboard.RemoveById | app/dashboard/page.tsx:55 | an entry remains iff it was in the list and its `_id` is not the id (an error body has none, so it always remains) |
| Dashboard.RemoveKeepsOrder | app/dashboard/page.tsx:55 | deletion distributes over concatenation, so the remaining tasks keep their order |
| Dashboard.RemoveAfterReplace | app/dashboard/page.tsx:52-59 | deleting after replacing with a same-id task equals deleting directly |
| Dashboard.ErrorReplyLosesTask | app/dashboard/page.tsx:45-46 | after an error reply takes a task's place no entry carries its id, so a later toggle or edit of it changes nothing and deleting it leaves the error body in the list |
| Dashboard.DashboardPage.Load | app/dashboard/page.tsx:20-24 | the list becomes the fetched array of tasks; a rejected fetch leaves it (an error object in its place is left out) |
| Dashboard.DashboardPage.AddTask | app/dashboard/page.tsx:26-36 | a blank (trimmed) title sends nothing and changes nothing; otherwise, once the request resolves, the reply (the created task or an error body) is appended after the existing ones and the form resets to blank with priority green |
| Dashboard.DashboardPage.ToggleCompletion | app/dashboard/page.tsx:38-50 | sends the negated flag; once the request resolves the list is ReplaceById with the reply, whether the task or an error body; a rejected request leaves it unchanged |
| Dashboard.DashboardPage.DeleteTask | app/dashboard/page.tsx:52-59 | after the request the list is RemoveById; on failure unchanged |
| Dashboard.DashboardPage.StartEdit | app/dashboard/page.tsx:61-69 | editingTask becomes the task's id and editData copies its title, description, category and priority |
| Dashboard.DashboardPage.CancelEdit | app/dashboard/page.tsx:169 | editing ends and nothing else changes |
| Dashboard.DashboardPage.SaveEdit | app/dashboard/page.tsx:71-84 | sends editData; once the request resolves, whether with the task or an error body, the list is ReplaceById with the reply and editing ends; a rejected request changes nothing |

## Left out

- Database plumbing: the connection in lib/db.ts is not modelled.
- Query details: ObjectId casting of the caller's id, and string-versus-ObjectId equality, are not modelled. Handlers receive the caller as an already cast `Option<Id>`. A cast that throws leads to the catch-all 500, which is not modelled.
- The catch-all 500 branches of every route and their message texts are not modelled, beyond a schema error on POST (`PostInvalid`).
- Tasks.Get: Mongo's order among tasks with equal positions is not specified. The model sorts stably, so ties keep table order.
- Tasks.Get: the regular-expression semantics of `search` are the parameter `titleMatches`. An invalid pattern, which throws and becomes a 500, is not modelled.
- Tasks.TaskStore.Create: Mongoose type casting of body fields is not modelled. The body arrives already typed as `TaskInput`.
- Tasks.TaskStore.Create: the source passes a client-supplied `_id` through `...body`, and Mongoose stores it; a duplicate fails with a 500. The model's input has no such field, so the store always picks a fresh id.
- Tasks.TaskStore.Create: requests are modelled one at a time, so the read of the last position and the insert form one step. In the source they are separate awaits. Two concurrent POSTs by one owner can both read the same last task and both store the same position; the model does not capture that.
- Reorder.Reorder: the handler starts the updates together with `Promise.all`. The model applies them one after another in index order, so for a repeated id the last index wins. Races with other requests and partial failure are not modelled. An id that is not a valid ObjectId, which throws, is not modelled either.
- Auth.VerifyToken: `decodeURIComponent` of the cookie value is not applied. The token is the raw captured text.
- Auth.VerifyToken: the secret, the signature check and the expiry check are inside the parameter `verify`. The JSON claim value is returned without the `{ id }` wrapper. A claim is any JSON value (`Json` has numbers as reals, arrays and objects), but the members of an object claim are not used beyond its truthiness.
- Register.Register: bcrypt's salt and cost factor are folded into the parameter `hash`.
- Register.Register: requests are modelled one at a time, so the email lookup and the save form one step. In the source they are separate awaits. Two concurrent registrations with one email can both pass the lookup and both be saved, unless a unique index on the user model rejects the second; the user model is not part of this model. `EmailsUnique` in `UserStore.Valid()` holds only for registrations one after another.
- Login.Login: it takes the email and password as strings. A body that lacks them is not modelled.
- Sessions: tokens, the `expiresIn` claim and `sign` are opaque.
- Migrate.Migrate: Mongoose hydrates documents by the schema's ObjectId type, so in the running system a string owner may never be observed. The model keeps the string case (`Legacy`) so that the loop has something to convert.
- Task documents: `createdAt`, `updatedAt`, `dueDate` parsing and the `isOverdue` flag are not modelled. No core code computes them.
- Single-task routes: the GET, PUT and DELETE routes of app/api/tasks/[id]/route.ts are not part of this model. The pages treat the replies they get from those routes as inputs.
- Dashboard.DashboardPage.Load: the list becomes what GET answered when that is an array. An error answer such as `{ message: "Unauthorized" }` is an object, and the source makes it the whole `tasks` state. The model's list is always a list of entries, so it does not model this case. For the other handlers an error body is an entry of the list (`ErrorBody`).
- Dashboard handlers: the handlers read `tasks` from the render that created them. The model applies each update to the current list, which is the same when the handlers do not overlap.
- Page plumbing: `fetch` itself, `localStorage`, the router, JSX rendering and the field `onChange` handlers are not modelled. Neither are the other pages and components.

The project has 11 modules, one per core source file plus `Base` (Option, Result, JavaScript white space, an order-preserving filter) and `Users` (the user collection shared by the two auth routes).
