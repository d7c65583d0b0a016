# Task store and signup outcome of a to-do web client

This project models the client-side state of a small to-do web application
and proves properties of that model in Dafny.

The first part is the task store of the main application component: a
bearer `token`, the `tasks` collection (records with `_id`, `text`,
`status` and `priority`), and two filter values `filterStatus` and
`filterPriority`. The operations are:

- a load that runs after the first render and after every change of the
  token, asks for the list only while the token is non-empty, and accepts a
  bare array or an object with a `tasks` field (start-up, including a token
  restored from storage, is the constructor followed by `Load`);
- logout;
- create, which always requests `pending`/`medium` and appends the server's
  record;
- delete, which filters by `_id`;
- the status and priority updates, which replace entries by `_id` with the
  server's record;
- the filtered view.

The second part is the outcome state of the signup form: `authLoading`,
`authError` and `success`. They are reset when a registration request
starts and are resolved from the reply's `message`.

Files:

- `wrappers.dfy` (module `Wrappers`): `Option` for a JSON field that may be
  missing or falsy, and `Reply` for how an awaited call settled. `Ok(body)`
  means the request resolved and, where a body is read, it was parsed. `Rejected` means the
  request or `response.json()` threw.
- `tasks.dfy` (module `Tasks`): the pure computations over the collection and
  the lemmas about them.
- `task_store.dfy` (module `TaskStore`): class `Store` holding the four state
  fields, with one method per operation. The module also has a client method
  `LoginToggleLogout`. It walks through the scenario "load one task, flip it,
  filter on pending, log out", and every assertion in it is proved from the
  contracts alone.
- `signup.dfy` (module `Signup`): the decision rule `Decide` and the class
  `SignupForm`. The class has `Start` (the resets before the request),
  `Finish` (the updates after the reply) and `Signup` (the two together).

Every server reply is a method parameter. Each mutation changes `tasks` only
when its reply is `Ok`; a `Rejected` reply leaves `tasks` as it was. The
delete does not look at the HTTP status: any reply that resolved removes the
task locally, as in the code.

### Where the code falls short of the intended behaviour (the model follows the code)

- A malformed list response is meant to yield no tasks. The code yields no
  tasks for an object without `tasks` and for a number, string or boolean
  body. A JSON `null` body is different: reading `data.tasks` throws, so
  `tasks` keeps its old value (`Normalize` returns `None`).
- Statuses are meant to be only `pending` or `completed`. The toggle sends
  `completed` for `pending` and `pending` for any other input.
- Task identities are meant to be unique at every moment. The code does not
  enforce this; it holds only while the server behaves.
  `AppendDistinct` proves that an add keeps identities distinct exactly when
  the server's identity is new. `ReplaceKeepsDistinct` proves that an update
  keeps them distinct when the server keeps the identity. `RemoveKeepsDistinct`
  proves that a delete always keeps them distinct.
- Failures are meant to reach the view. The code has no `catch`, so a
  failed call only leaves the state unchanged. In the signup form, a failed
  request or parse leaves `authLoading` set to `true`: `Signup` ends in
  `Waiting()` on `Rejected`.
- The list is meant to be fetched when the token goes from absent to
  present. The code's effect runs after the first render and after every
  change of the token, and fetches whenever the token is then non-empty.
  `Load` models one run of that effect.
- A registration reply whose body is `null` throws after `authLoading` is
  cleared. The form is then idle with no error and no success.

## Model

| member | source | states |
|---|---|---|
| `Tasks.CreateRequest` | src/App.js:48 | the create request carries the entered text, status `pending` and priority `medium` |
| `Tasks.Toggle` | src/App.js:64 | the requested status is always `pending` or `completed`, and it is `completed` exactly when the current status is `pending` |
| `Tasks.ToggleInvolution` | src/App.js:64 | on `pending` and `completed` the toggle changes the value, and toggling twice gives the start value back |
| `Tasks.Normalize` | src/App.js:26 | an array body gives that array; an object with a present `tasks` field gives that field; an object without one, or a non-null scalar, gives the empty sequence; only a `null` body gives no collection (the read throws) |
| `Tasks.AppendTask` | src/App.js:52 | the new collection is the old one with the server's record at the end; the length grows by exactly one |
| `Tasks.AppendDistinct` | src/App.js:52 | with distinct identities before, the collection after an add is distinct exactly when the record's identity was not already present |
| `Tasks.RemoveById` | src/App.js:60 | a delete never lengthens the collection |
| `Tasks.RemoveMembers` | src/App.js:60 | a delete keeps exactly the input's entries whose identity differs from `id` |
| `Tasks.RemoveLeavesNoMatch` | src/App.js:60 | after a delete no entry has the deleted identity |
| `Tasks.RemoveAppend` | src/App.js:60 | a delete distributes over concatenation, so the kept entries keep their relative order |
| `Tasks.RemoveAbsent` | src/App.js:60 | deleting an identity that is not present leaves the collection equal to the input |
| `Tasks.RemoveIdempotent` | src/App.js:60 | deleting the same identity twice gives the same result as deleting it once |
| `Tasks.RemoveKeepsDistinct` | src/App.js:60 | a delete keeps distinct identities distinct |
| `Tasks.RemoveUnique` | src/App.js:60 | with distinct identities, deleting the identity at index k gives the input without index k, one entry shorter |
| `Tasks.RemoveDistinctLength` | src/App.js:60 | with distinct identities, a delete shortens the collection by one if the identity was present and by zero otherwise |
| `Tasks.ReplaceById` | src/App.js:77 | the length is preserved; each index whose entry has identity `id` holds the server's record, and every other index keeps its old entry (the same map is used at line 93) |
| `Tasks.ReplaceAbsent` | src/App.js:77 | an update for an identity that is not present leaves the collection unchanged |
| `Tasks.ReplaceUnique` | src/App.js:93 | with distinct identities, an update of the entry at index k is the single-index sequence update `s[k := rec]` |
| `Tasks.ReplaceIdempotent` | src/App.js:93 | applying the same server record twice gives the same result as applying it once |
| `Tasks.ReplaceKeepsDistinct` | src/App.js:77 | when the server's record keeps the identity `id`, an update keeps distinct identities distinct |
| `Tasks.Visible` | src/App.js:96-100 | the view is no longer than the collection and holds exactly the tasks that pass both the status filter and the priority filter (where `all` passes everything) |
| `Tasks.VisibleAllAll` | src/App.js:96-100 | with both filters at `all`, the view equals the whole collection, in order |
| `Tasks.VisibleAppend` | src/App.js:96-100 | the view distributes over concatenation, so it keeps the collection's order |
| `Tasks.VisibleSingleton` | src/App.js:96-100 | the view of one task holds that task exactly when it passes both filters |
| `Tasks.VisibleIdempotent` | src/App.js:96-100 | filtering an already filtered view with the same filters changes nothing |
| `TaskStore.Store.constructor` | src/App.js:12-15 | the token is the stored one, or `""` when none is stored; the store starts with no tasks and both filters at `all` |
| `TaskStore.Store.FilteredTasks` | src/App.js:96-100 | the shown tasks are exactly the stored tasks that pass the current filters, and all of them when both filters are `all` |
| `TaskStore.Store.SetToken` | src/App.js:238 | the login page's token replaces the current one; nothing else changes |
| `TaskStore.Store.Logout` | src/App.js:33-37 | afterwards the token is `""` and there are no tasks, whatever the store held before |
| `TaskStore.Store.Load` | src/App.js:17-31 | the list is requested exactly when the token is non-empty; on a parsed reply the normalised body becomes `tasks`; otherwise `tasks` is unchanged; "no token means no tasks" is preserved |
| `TaskStore.Store.AddTask` | src/App.js:39-53 | the request is `pending`/`medium`; on a parsed reply the record is appended and the length grows by one; on failure nothing changes; distinctness is kept exactly when the identity is new; starting with "no token means no tasks", it still holds afterwards exactly when a token is held or the call failed |
| `TaskStore.Store.DeleteTask` | src/App.js:55-61 | whatever the HTTP status, a settled request removes every entry with that identity; a rejected one changes nothing; distinct identities stay distinct and the length drops by at most one; "no token means no tasks" is preserved |
| `TaskStore.Store.UpdateTaskStatus` | src/App.js:63-78 | the requested status is the toggle of the current one; on a parsed reply entries with that identity become the server's record; on failure nothing changes; "no token means no tasks" is preserved |
| `TaskStore.Store.UpdateTaskPriority` | src/App.js:80-94 | the requested priority is the chosen one; on a parsed reply entries with that identity become the server's record; on failure nothing changes; "no token means no tasks" is preserved |
| `TaskStore.Store.SetFilterStatus` | src/App.js:155 | the status filter takes the chosen value; nothing else changes, so "no token means no tasks" is preserved |
| `TaskStore.Store.SetFilterPriority` | src/App.js:166 | the priority filter takes the chosen value; nothing else changes, so "no token means no tasks" is preserved |
| `Signup.Decide` | src/Signup.js:26-30 | success holds exactly when the message is `"User registered"`, and the error is then `""`; otherwise the error is the message if it is non-empty, else `"Signup failed"`; the error is non-empty exactly when there is no success |
| `Signup.SignupForm.constructor` | src/Signup.js:5-7 | the form starts idle, with no error and no success |
| `Signup.SignupForm.Start` | src/Signup.js:13-15 | a request starts with loading on, the error cleared and success off |
| `Signup.SignupForm.Finish` | src/Signup.js:24-31 | a parsed reply turns loading off; the registration message sets success and keeps the error; any other message sets the error text and keeps success; a `null` body or a failure changes nothing else; after `Start`, success and an error never show together |
| `Signup.SignupForm.Signup` | src/Signup.js:12-32 | the settled state depends only on the reply: a failure leaves the form waiting; a `null` body leaves it idle and blank; a message gives loading off and the success and error that `Decide` gives; success and an error never show together |

## Left out

- The HTTP calls themselves (URLs, headers, the bearer header, `fetch`, `response.json()`) are I/O. Each reply is a parameter of the method that awaits it.
- Browser storage is I/O: reading the token at start-up is modelled by the constructor's parameter, and removing it on logout is not modelled.
- React rendering, hooks, the router, the route guard that shows the task list only while a token is held, and `Link` are UI.
- The redirect to the login page after a successful signup is a timer and a navigation side effect, so it is not modelled.
- The signup form's `username` and `password` input fields are UI state that the outcome does not depend on.
- Async interleaving is not modelled; each operation is atomic. This leaves out mutations that capture a stale `tasks`, last-resolving-wins on the same `_id`, and a load that resolves after logout.
- `console.log` is output only.
- The login page is not part of this model.
- JSON values outside the modelled shapes are not modelled: a truthy non-array `tasks` field, a task record without the four fields, a non-string registration `message`.
- TaskStore.Store.AddTask: "no token means no tasks" is kept only while a token is held: the contract shows that with no token a parsed reply would break it. The code relies on the route guard, which renders the add form only while a token is held (src/App.js:131-136 inside the view chosen at src/App.js:242); the guard is UI and is not modelled.
- Tasks.Normalize: a truthy non-array `tasks` field, which the code would store as the collection, cannot be represented because the field is typed as a sequence of tasks.
