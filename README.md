# Access-controlled task store of a construction-project tracker

This project models the core of an Express/Mongoose backend. Engineers
record daily and monthly work items ("tasks") on the projects they are
assigned to. Supervisors review the tasks of the projects they supervise.
An admin provisions users and projects and sees everything.

The model is one store holding four collections, each a map from a
document id:

- users;
- projects, each with an `engineers` and a `supervisors` membership list;
- daily tasks;
- monthly tasks.

The store is the class `TaskStore.Store`. Its invariant `Valid()` says:

- every stored document passed its schema's required and enum validators;
- in every stored task, `reviewedBy` and `reviewedAt` are set together and a
  set `supervisorNote` is non-empty; no validator enforces this, the
  handlers keep it;
- user emails are unique (the unique index on `email`);
- every id in use lies below the next id to be handed out.

Each controller handler becomes one member in the module of its controller
(`EngineerController`, `SupervisorController`, `AdminController`):

- A handler that writes is a method. It `modifies` only the collections it
  touches, keeps `Valid()`, and states its new state and tagged result for
  every branch.
- A read-only handler is a function over the store. It states exactly which
  documents it returns and in what order.

A handler's outcome is `Ok(value)` or an error tag:

- `NotFound` and `Forbidden`, as the handlers return them;
- `BadRequest`, for the handlers' own 400 checks;
- `SchemaError`, for a document that Mongoose rejects on save (reported as
  500).

Each route file applies a role gate (`authorize([...])` at
routes/engineer.js:13, routes/supervisor.js:13, routes/admin.js:13). The
model states it as a precondition on the caller: `IsEngineer`,
`IsSupervisor` or `IsAdmin` from module `Access`. The caller is what the
token asserts: a staff id with a role, or the admin, who has no id. Nothing
checks that a staff id still names a stored user.

Inputs from outside the handlers become parameters:

- The clock is the parameter `now`.
- A monthly task's `new Date(date)` is the parsed date `Option<Time>`; None
  stands for an invalid date.
- bcrypt's hash is the function parameter `hash`, which never returns the
  empty string.
- A request string is an `Option<string>`; None stands for undefined.
- JavaScript truthiness is `Common.Truthy`: an absent value and the empty
  string are falsy. A supplied list, even an empty one, is truthy.

Listings are modelled as follows:

- An unsorted `find()` yields documents in insertion order. Ids are handed
  out in increasing order, so the model lists in ascending id order.
- A `.sort({ field: -1 })` is an insertion sort, newest first.
- No order among equal keys is promised, because the source defines none.

Some outcomes of the handlers are worth stating outright:

- A missing title, or a missing or invalid monthly date, fails at save
  time with a 500 (`SchemaError`), not with a validation error.
- A duplicate email is answered with 400 (`BadRequest`).
- Review allows any status to follow any other.
- Membership lists are not checked against the users collection.

## Model

| member | source | states |
|---|---|---|
| UserModel.ParseRole | models/User.js:7 | Only "engineer" and "supervisor" are accepted roles, each mapping back to its name; "admin" is never a stored role |
| UserModel.RoleNameRoundTrip | models/User.js:7 | Parsing a role's name gives back that role |
| UserModel.NewUser | models/User.js:4-8 | User.create succeeds iff name, email and password are non-empty and the role is in the enum (else SchemaError); stores the given fields with an empty `assignedProjects` |
| UserModel.AddingUnusedEmailKeepsUnique | models/User.js:5 | Inserting a user whose email no stored user has keeps emails unique |
| UserModel.OutputsHidePassword | controllers/admin.js:63-80 | The create response and the listing shape of a user do not depend on the stored password |
| TaskModel.ParseStatus | models/dailyTask.js:10-14 | Only "pending", "done" and "failed" are accepted statuses, each mapping back to its name |
| TaskModel.StatusNameRoundTrip | models/monthlyTask.js:10-14 | Parsing a status's name gives back that status |
| TaskModel.NewDailyTask | models/dailyTask.js:5-19 | Save succeeds iff the title is non-empty (else SchemaError); the new task carries the given project, creator, title and note, is pending and unreviewed, and has date, createdAt and updatedAt set to the creation time |
| TaskModel.NewMonthlyTask | models/monthlyTask.js:5-19 | Save succeeds iff the title is non-empty and a valid date is given (else SchemaError); the new task carries that date, is pending and unreviewed, and has createdAt set to the creation time |
| Listing.Entries | controllers/admin.js:130-132 | An unsorted find lists every document of a collection once, as stored, in ascending id (insertion) order |
| Listing.SortDesc | controllers/admin.js:183-187 | The sort is a permutation of its input with keys non-increasing |
| Listing.TaskListing | controllers/engineer.js:117-120 | A task query lists exactly the tasks matching the project filter, each once and as stored, with sort keys non-increasing |
| Listing.ProjectsOf | controllers/engineer.js:67-69 | A membership query lists exactly the projects whose list for the role contains the id, as stored, in natural order |
| EngineerController.GetEngineerProjects | controllers/engineer.js:65-75 | Exactly the projects whose `engineers` contains the caller |
| EngineerController.AddDailyTask | controllers/engineer.js:78-105 | Unknown project gives NotFound, a caller not in `engineers` gives Forbidden, and a missing title gives SchemaError; in each case the daily tasks are unchanged. Otherwise exactly one new task is inserted under a fresh id, as NewDailyTask builds it; users, projects and monthly tasks never change |
| EngineerController.GetDailyTasks | controllers/engineer.js:107-127 | Forbidden (never NotFound) unless the project exists and lists the caller as an engineer; otherwise exactly that project's daily tasks, newest createdAt first |
| EngineerController.DeleteDailyTask | controllers/engineer.js:129-149 | Unknown task gives NotFound and another creator's task gives Forbidden, with the store unchanged; the owner's delete removes exactly that task, with no membership or review check |
| EngineerController.AddMonthlyTask | controllers/engineer.js:152-180 | As AddDailyTask for monthly tasks; a missing or invalid date also gives SchemaError, and the stored date is the given one |
| EngineerController.GetMonthlyTasks | controllers/engineer.js:182-202 | Forbidden unless the project exists and lists the caller as an engineer; otherwise exactly that project's monthly tasks, latest date first |
| EngineerController.DeleteMonthlyTask | controllers/engineer.js:204-224 | As DeleteDailyTask for monthly tasks |
| SupervisorController.GetSupervisorProjects | controllers/supervisor.js:65-77 | Exactly the projects whose `supervisors` contains the caller |
| SupervisorController.GetDailyTasks | controllers/supervisor.js:80-99 | Forbidden unless the project exists and lists the caller as a supervisor; otherwise exactly that project's daily tasks, newest createdAt first |
| SupervisorController.GetMonthlyTasks | controllers/supervisor.js:140-159 | Forbidden unless the project exists and lists the caller as a supervisor; otherwise exactly that project's monthly tasks, latest date first |
| SupervisorController.Review | controllers/supervisor.js:119-124 | Status and supervisor note are replaced only by a non-empty value, otherwise kept. A status outside the enum fails with SchemaError. Reviewer, review time and update time are always stamped. Project, creator, title, note, date and createdAt never change, and well-formedness is kept |
| SupervisorController.ReviewSteps | controllers/supervisor.js:119-122 | The step-by-step field assignments followed by save validation produce exactly Review's outcome |
| SupervisorController.ReviewDailyTask | controllers/supervisor.js:102-137 | Unknown task gives NotFound. A deleted project or a caller not in `supervisors` gives Forbidden. Otherwise the outcome is Review of the stored task, and a successful review replaces only that task |
| SupervisorController.ReviewMonthlyTask | controllers/supervisor.js:163-198 | As ReviewDailyTask for monthly tasks |
| SupervisorController.ReviewWithoutFieldsOnlyStamps | controllers/supervisor.js:119-122 | A review with neither status nor note changes only reviewedBy, reviewedAt and updatedAt |
| SupervisorController.ReviewAllowsAnyTransition | controllers/supervisor.js:119 | From any task, a review can set any of the three statuses, including pending again |
| SupervisorController.ReviewIsIdempotentUpToTime | controllers/supervisor.js:119-122 | Repeating a review gives the same task as a single review at the later time |
| SupervisorController.LaterReviewWins | controllers/supervisor.js:180-183 | After two reviews, the stamp is the second's; the status is the second's if supplied, else the first's, else the original; the engineer's fields are untouched |
| AdminController.CreateUser | controllers/admin.js:41-75 | A missing field or a taken email gives BadRequest, and a role outside the enum gives SchemaError; on any failure the users are unchanged. Otherwise (a complete request with an unused email and an enum role, given a hash that is never empty) the request succeeds and one user is inserted under a fresh id with the hashed password. The response is the user without the password |
| AdminController.GetAllUsers | controllers/admin.js:78-85 | Every user exactly, shown without the password, in ascending id order |
| AdminController.DeleteUser | controllers/admin.js:88-100 | Unknown id gives NotFound; otherwise only that user is removed, and projects and tasks naming the id are untouched |
| AdminController.CreateProject | controllers/admin.js:103-125 | Name and scope of work must be non-empty (else BadRequest, nothing inserted); membership lists default to empty and are stored unchecked |
| AdminController.GetAllProjects | controllers/admin.js:128-138 | Every project exactly, as stored, in ascending id order |
| AdminController.Updated | controllers/admin.js:150-153 | Name and scope of work are overwritten only when non-empty; a membership list is overwritten whenever supplied, even when empty; well-formedness is kept |
| AdminController.UpdateProject | controllers/admin.js:141-160 | Unknown id gives NotFound with nothing changed; otherwise only that project changes, to Updated of it |
| AdminController.DeleteProject | controllers/admin.js:163-175 | Unknown id gives NotFound; otherwise only that project is removed, and its tasks stay |
| AdminController.GetAllDailyTasks | controllers/admin.js:181-194 | Every daily task exactly, whether or not its project still exists, newest createdAt first |
| AdminController.GetAllMonthlyTasks | controllers/admin.js:197-210 | Every monthly task exactly, latest date first |
| AdminController.GetProjectTasks | controllers/admin.js:213-237 | Never an error and no membership check: exactly the project's daily tasks (newest createdAt first) and monthly tasks (latest date first), and its header iff the project exists |
| AdminController.EmptyUpdateChangesNothing | controllers/admin.js:150-151 | An update supplying no non-empty name or scope and no lists leaves the project as it was |
| AdminController.EmptyListOverwritesEmptyStringDoesNot | controllers/admin.js:150-153 | An empty name is ignored while empty membership lists empty the project's membership |
| AdminController.UpdateIsIdempotent | controllers/admin.js:150-153 | Applying the same update twice equals applying it once |
| AdminController.OrphanedTaskStillListed | controllers/admin.js:183-187 | A daily task whose project no longer exists still appears in the admin's listing |

## Left out

- Login and logout handlers (controllers/engineer.js:9-62, controllers/supervisor.js:9-62, controllers/admin.js:7-38): password comparison, token signing and environment secrets are foreign code and configuration.
- The token and role middleware (`auth`, `authorize`) is not part of this model; only the static role table of routes/*.js:13 is kept, as preconditions.
- Express routing, server setup, body parsing, the database connection and the global error handler.
- routes/admin.js:22 registers `getProjectById`, which controllers/admin.js does not define. Routing is not modelled, so this has no counterpart.
- routes/admin.js:25 binds `:projectId`, while deleteProject reads `req.params.id`. Through that route the handler looks up an undefined id and answers NotFound. `DeleteProject` models the handler keyed by the id it means to read.
- Mongoose `populate` joins and `select` projections are not modelled: listings return stored ids, not name and email summaries. The review response re-fetches the task with such joins; the model returns the saved task.
- Malformed ids (a CastError, reported as 500) are not modelled. Every id is a well-formed abstract id, and an absent id behaves as an unknown one.
- Request values of the wrong JavaScript type are not modelled: numbers where strings are expected, or a non-array membership list.
- Persistence failures (500 on a database error), concurrent requests, races, and the `Promise.all` fan-out of getProjectTasks are not modelled. The two queries are sequential reads of one state.
- A concurrent duplicate email that passes the `findOne` check and is then refused by the unique index is not modelled. Requests are sequential, so the check alone keeps emails unique.
- Real clocks and date parsing: `now` and the parsed monthly date are parameters.
- Logging and the exact HTTP status codes and messages, beyond the error tag.
- The document version key `__v`.
- Listing.Entries, AdminController.GetAllUsers, AdminController.GetAllProjects: natural order is rendered as ascending id order, which MongoDB does not itself guarantee.
